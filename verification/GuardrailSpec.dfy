/** What the single-file analyser of apps/cognis-mcp/src/guardrails.ts reports, said without a scan: which lines each
    function covers, which loops are still open on a line, and what follows for the function. Lines are numbered from 0
    here and from 1 in the reports. */
module GuardrailSpec {
  import opened Options

  /** A source line. The regular expressions are arbitrary facts about it; `calls` lists the names it calls. */
  datatype Line = Line(
    text: string, skip: bool, indent: nat, declares: Option<string>, pythonDef: bool, loop: bool, endsColon: bool,
    linear: bool, sorts: bool, io: bool, concat: bool, calls: set<string>)

  datatype Finding = LinearScan | NestedLoops | SortInLoop | IoInLoop | ConcatInLoop {
    function RuleId(): string {
      match this
      case LinearScan => "OPT-001"
      case NestedLoops => "OPT-001"
      case SortInLoop => "OPT-002"
      case IoInLoop => "OPT-003"
      case ConcatInLoop => "OPT-005"
    }
  }

  datatype Severity = Info | Warning | Error

  datatype Advisory = Advisory(finding: Finding, severity: Severity, line: nat, depth: nat)

  /** O(n^k), with O(1) for k = 0, or O(2^n). */
  datatype Growth = Power(k: nat) | TwoToTheN

  datatype Lens = Lens(
    name: string, line: nat, endLine: nat, time: Growth, linearSpace: bool, maxLoopDepth: nat, isRecursive: bool,
    advisories: seq<Advisory>)

  // ---- Brace depth ------------------------------------------------------------------------------------

  function StepDepth(d: nat, ch: char): nat {
    if ch == '{' then d + 1 else if ch == '}' then (if d == 0 then 0 else d - 1) else d
  }

  /** The depth after some characters, from left to right; it never goes below zero. */
  function DepthAfter(chars: string, d: nat): nat {
    if chars == [] then d else StepDepth(DepthAfter(chars[..|chars| - 1], d), chars[|chars| - 1])
  }

  /** Some closing brace leaves the depth at or below `level`. */
  predicate Dips(chars: string, d: nat, level: nat) {
    chars != [] &&
    (Dips(chars[..|chars| - 1], d, level) || (chars[|chars| - 1] == '}' && DepthAfter(chars, d) <= level))
  }

  /** The depth before line k. */
  function DepthAt(lines: seq<Line>, k: nat): nat
    requires k <= |lines|
  {
    if k == 0 then 0
    else if lines[k - 1].skip then DepthAt(lines, k - 1)
    else DepthAfter(lines[k - 1].text, DepthAt(lines, k - 1))
  }

  predicate Closes(lines: seq<Line>, k: nat, level: nat)
    requires k < |lines|
  {
    !lines[k].skip && Dips(lines[k].text, DepthAt(lines, k), level)
  }

  // ---- The extent of a function -----------------------------------------------------------------------

  predicate Starts(lines: seq<Line>, s: nat)
    requires s < |lines|
  {
    !lines[s].skip && lines[s].declares.Some?
  }

  /** The function of line s ends before line k: another begins there, or a Python body is dedented. */
  predicate EndsBefore(lines: seq<Line>, s: nat, k: nat)
    requires s < k < |lines|
  {
    !lines[k].skip && ((lines[s].pythonDef && lines[k].indent <= lines[s].indent) || lines[k].declares.Some?)
  }

  /** It ends on line k: a brace there closes its body. */
  predicate EndsOn(lines: seq<Line>, s: nat, k: nat)
    requires s < k < |lines|
  {
    !lines[s].pythonDef && Closes(lines, k, DepthAt(lines, s))
  }

  /** No line before k ends the function of line s. */
  predicate Open(lines: seq<Line>, s: nat, k: nat)
    requires s < |lines| && k <= |lines|
  {
    k <= s + 1 || (Open(lines, s, k - 1) && !EndsBefore(lines, s, k - 1) && !EndsOn(lines, s, k - 1))
  }

  /** One more than the last line of the function of line s, looking from line k on. */
  function EndFrom(lines: seq<Line>, s: nat, k: nat): nat
    requires s < k <= |lines|
    decreases |lines| - k
  {
    if k == |lines| then k
    else if EndsBefore(lines, s, k) then k
    else if EndsOn(lines, s, k) then k + 1
    else EndFrom(lines, s, k + 1)
  }

  function End(lines: seq<Line>, s: nat): nat
    requires s < |lines|
  {
    EndFrom(lines, s, s + 1)
  }

  // ---- Loops ------------------------------------------------------------------------------------------

  /** In the function of line s, a loop on line l lasts until a dedent rather than until a closing brace. */
  predicate IndentScoped(lines: seq<Line>, s: nat, l: nat)
    requires s < |lines| && l < |lines|
  {
    lines[s].pythonDef || lines[l].endsColon
  }

  predicate IsLoop(lines: seq<Line>, l: nat)
    requires l < |lines|
  {
    !lines[l].skip && lines[l].loop
  }

  /** A brace loop of line l that no line before k has closed. */
  predicate BraceLoopOpen(lines: seq<Line>, s: nat, l: nat, k: nat)
    requires s < |lines| && l < |lines| && k <= |lines|
  {
    if k <= l then IsLoop(lines, l) && !IndentScoped(lines, s, l)
    else BraceLoopOpen(lines, s, l, k - 1) && !Closes(lines, k - 1, DepthAt(lines, l))
  }

  /** An indented loop of line l that every line before k is indented under. */
  predicate IndentLoopOpen(lines: seq<Line>, s: nat, l: nat, k: nat)
    requires s < |lines| && l < |lines| && k <= |lines|
  {
    if k <= l + 1 then IsLoop(lines, l) && IndentScoped(lines, s, l)
    else IndentLoopOpen(lines, s, l, k - 1) && (lines[k - 1].skip || lines[l].indent < lines[k - 1].indent)
  }

  /** The open loops among lines s to hi (exclusive), in order. */
  function BraceLoops(lines: seq<Line>, s: nat, k: nat, hi: nat): seq<nat>
    requires s < |lines| && hi <= |lines| && k <= |lines|
  {
    if hi <= s then []
    else BraceLoops(lines, s, k, hi - 1) + if BraceLoopOpen(lines, s, hi - 1, k) then [hi - 1] else []
  }

  function IndentLoops(lines: seq<Line>, s: nat, k: nat, hi: nat): seq<nat>
    requires s < |lines| && hi <= |lines| && k <= |lines|
  {
    if hi <= s then []
    else IndentLoops(lines, s, k, hi - 1) + if IndentLoopOpen(lines, s, hi - 1, k) then [hi - 1] else []
  }

  predicate HasBrace(text: string) { '{' in text }

  /** The number of loops around (and on) line k, in the function of line s. A loop line that opens no block counts once
      more. */
  function LoopDepth(lines: seq<Line>, s: nat, k: nat): nat
    requires s <= k < |lines|
  {
    |BraceLoops(lines, s, k, k + 1)| + |IndentLoops(lines, s, k + 1, k + 1)|
    + if lines[k].loop && !HasBrace(lines[k].text) && !lines[k].endsColon then 1 else 0
  }

  predicate ScansInLoop(lines: seq<Line>, s: nat, k: nat)
    requires s <= k < |lines|
  {
    LoopDepth(lines, s, k) >= 1 && lines[k].linear && !lines[k].loop
  }

  /** What line k contributes to the depth of its function: a linear scan inside a loop counts as one more loop. */
  function Contribution(lines: seq<Line>, s: nat, k: nat): nat
    requires s <= k < |lines|
  {
    if lines[k].skip then 0
    else LoopDepth(lines, s, k) + if ScansInLoop(lines, s, k) then 1 else 0
  }

  function Max(a: nat, b: nat): nat { if a >= b then a else b }

  function MaxDepth(lines: seq<Line>, s: nat, k: nat): nat
    requires k <= |lines|
  {
    if k <= s then 0 else Max(MaxDepth(lines, s, k - 1), Contribution(lines, s, k - 1))
  }

  /** The rules checked on each line, in order. */
  const LineRules := [LinearScan, SortInLoop, IoInLoop, ConcatInLoop]

  predicate Triggers(line: Line, rule: Finding) {
    match rule
    case LinearScan => line.linear && !line.loop
    case SortInLoop => line.sorts
    case IoInLoop => line.io
    case ConcatInLoop => line.concat
    case NestedLoops => false
  }

  function SeverityOf(rule: Finding): Severity {
    if rule == IoInLoop then Error else if rule == ConcatInLoop then Info else Warning
  }

  /** The advisories of the first n rules for a line inside d loops. */
  function Hits(line: Line, number: nat, d: nat, n: nat): seq<Advisory>
    requires n <= 4
  {
    if n == 0 then []
    else
      var rule := LineRules[n - 1];
      Hits(line, number, d, n - 1) + if Triggers(line, rule) then [Advisory(rule, SeverityOf(rule), number, d)] else []
  }

  function LineFindings(lines: seq<Line>, s: nat, k: nat): seq<Advisory>
    requires s <= k < |lines|
  {
    var d := LoopDepth(lines, s, k);
    if lines[k].skip || d == 0 then [] else Hits(lines[k], k + 1, d, 4)
  }

  function Findings(lines: seq<Line>, s: nat, k: nat): seq<Advisory>
    requires k <= |lines|
  {
    if k <= s then [] else Findings(lines, s, k - 1) + LineFindings(lines, s, k - 1)
  }

  predicate Recursive(lines: seq<Line>, s: nat, k: nat, name: string)
    requires k <= |lines|
  {
    s + 1 < k && (Recursive(lines, s, k - 1, name) || (!lines[k - 1].skip && name in lines[k - 1].calls))
  }

  predicate Allocates(lines: seq<Line>, s: nat, k: nat)
    requires k <= |lines|
  {
    s < k && (Allocates(lines, s, k - 1) || (!lines[k - 1].skip && LoopDepth(lines, s, k - 1) >= 1 && lines[k - 1].concat))
  }

  // ---- Reports ----------------------------------------------------------------------------------------

  function TimeComplexity(depth: nat, recursive: bool): Growth {
    if recursive && depth >= 1 then TwoToTheN
    else if depth >= 1 then Power(depth)
    else if recursive then Power(1)
    else Power(0)
  }

  predicate Mentions(advisories: seq<Advisory>, rule: string) {
    exists i :: 0 <= i < |advisories| && advisories[i].finding.RuleId() == rule
  }

  /** A function that nests loops gets an advisory even if no line of it did. */
  function WithNesting(advisories: seq<Advisory>, depth: nat, line: nat): seq<Advisory> {
    if depth >= 2 && !Mentions(advisories, "OPT-001")
    then advisories + [Advisory(NestedLoops, if depth >= 3 then Error else Warning, line, depth)]
    else advisories
  }

  function Report(lines: seq<Line>, s: nat): Lens
    requires s < |lines| && Starts(lines, s)
  {
    var e := End(lines, s);
    EndBounds(lines, s, s + 1);
    var depth := MaxDepth(lines, s, e);
    var recursive := Recursive(lines, s, e, lines[s].declares.value);
    Lens(lines[s].declares.value, s + 1, e, TimeComplexity(depth, recursive), recursive || Allocates(lines, s, e),
         depth, recursive, WithNesting(Findings(lines, s, e), depth, s + 1))
  }

  /** One report per declaring line before n, in order. */
  function Reports(lines: seq<Line>, n: nat): seq<Lens>
    requires n <= |lines|
  {
    if n == 0 then []
    else Reports(lines, n - 1) + if Starts(lines, n - 1) then [Report(lines, n - 1)] else []
  }

  /** The reports of a file. */
  function AllReports(lines: seq<Line>): seq<Lens> { Reports(lines, |lines|) }

  function Flatten(reports: seq<Lens>): seq<Advisory> {
    if reports == [] then [] else Flatten(reports[..|reports| - 1]) + reports[|reports| - 1].advisories
  }

  // ---- What follows -----------------------------------------------------------------------------------

  lemma {:induction false} EndBounds(lines: seq<Line>, s: nat, k: nat)
    requires s < k <= |lines|
    ensures k <= EndFrom(lines, s, k) <= |lines|
    decreases |lines| - k
  {
    if k < |lines| && !EndsBefore(lines, s, k) && !EndsOn(lines, s, k) {
      EndBounds(lines, s, k + 1);
    }
  }

  /** A function ends at the latest where the next one starts. */
  lemma {:induction false} EndsByNextStart(lines: seq<Line>, s: nat, k: nat, t: nat)
    requires s < k <= t < |lines| && Starts(lines, t)
    ensures EndFrom(lines, s, k) <= t
    decreases |lines| - k
  {
    if k < t && !EndsBefore(lines, s, k) && !EndsOn(lines, s, k) {
      EndsByNextStart(lines, s, k + 1, t);
    } else if k == t {
      assert EndsBefore(lines, s, k);
    }
  }

  /** The reports are those of the declaring lines, one each, in order. */
  lemma {:induction false} ReportsAreOfStarts(lines: seq<Line>, n: nat, i: nat) returns (s: nat)
    requires n <= |lines| && i < |Reports(lines, n)|
    ensures s < n && !lines[s].skip && lines[s].declares.Some?
    ensures Reports(lines, n)[i] == Report(lines, s) && i == |Reports(lines, s)|
  {
    if i < |Reports(lines, n - 1)| {
      s := ReportsAreOfStarts(lines, n - 1, i);
    } else {
      s := n - 1;
    }
  }

  lemma {:induction false} ReportsGrow(lines: seq<Line>, m: nat, n: nat)
    requires m <= n <= |lines|
    ensures Reports(lines, m) <= Reports(lines, n)
  {
    if m < n {
      ReportsGrow(lines, m, n - 1);
    }
  }

  lemma {:induction false} StartIsReported(lines: seq<Line>, s: nat)
    requires s < |lines| && !lines[s].skip && lines[s].declares.Some?
    ensures |Reports(lines, s)| < |AllReports(lines)|
    ensures AllReports(lines)[|Reports(lines, s)|] == Report(lines, s)
  {
    ReportsGrow(lines, s + 1, |lines|);
  }

  /** Reported functions are non-empty line intervals within the file, in order and pairwise disjoint. */
  lemma {:induction false} ReportsAreDisjoint(lines: seq<Line>, i: nat, j: nat)
    requires i < j < |AllReports(lines)|
    ensures var r := AllReports(lines);
      1 <= r[i].line <= r[i].endLine < r[j].line <= r[j].endLine <= |lines|
  {
    var s := ReportsAreOfStarts(lines, |lines|, i);
    var t := ReportsAreOfStarts(lines, |lines|, j);
    assert s < t by {
      if t <= s { ReportsGrow(lines, t, s); }
    }
    IntervalsInOrder(lines, s, t);
  }

  lemma {:induction false} IntervalsInOrder(lines: seq<Line>, s: nat, t: nat)
    requires s < t < |lines| && Starts(lines, s) && Starts(lines, t)
    ensures s + 1 <= End(lines, s) < t + 1 <= End(lines, t) <= |lines|
  {
    EndBounds(lines, s, s + 1);
    EndBounds(lines, t, t + 1);
    EndsByNextStart(lines, s, s + 1, t);
  }

  lemma {:induction false} HitsAreHere(line: Line, number: nat, d: nat, n: nat, i: nat)
    requires n <= 4 && i < |Hits(line, number, d, n)|
    ensures var a := Hits(line, number, d, n)[i]; a.line == number && Triggers(line, a.finding)
  {
    if i < |Hits(line, number, d, n - 1)| {
      HitsAreHere(line, number, d, n - 1, i);
    }
  }

  /** Each finding of the first lines comes from one of them. */
  lemma {:induction false} FindingsAreOfLines(lines: seq<Line>, s: nat, k: nat, i: nat) returns (j: nat, m: nat)
    requires k <= |lines| && i < |Findings(lines, s, k)|
    ensures s <= j < k && m < |LineFindings(lines, s, j)| && LineFindings(lines, s, j)[m] == Findings(lines, s, k)[i]
  {
    hide LineFindings, Contribution, LoopDepth;
    var before := Findings(lines, s, k - 1);
    assert Findings(lines, s, k) == before + LineFindings(lines, s, k - 1);
    if i < |before| {
      j, m := FindingsAreOfLines(lines, s, k - 1, i);
    } else {
      j, m := k - 1, i - |before|;
    }
  }

  lemma {:induction false} FindingsInside(lines: seq<Line>, s: nat, k: nat, i: nat)
    requires k <= |lines| && i < |Findings(lines, s, k)|
    ensures s + 1 <= Findings(lines, s, k)[i].line <= k
    ensures Findings(lines, s, k)[i].finding.RuleId() == "OPT-001" ==> MaxDepth(lines, s, k) >= 2
  {
    var j, m := FindingsAreOfLines(lines, s, k, i);
    HitsAreHere(lines[j], j + 1, LoopDepth(lines, s, j), 4, m);
    DepthIsMaximum(lines, s, k);
    assert Contribution(lines, s, j) <= MaxDepth(lines, s, k);
  }

  /** Every advisory of a function points into its lines. */
  lemma {:induction false} AdvisoriesInside(lines: seq<Line>, s: nat, i: nat)
    requires s < |lines| && Starts(lines, s) && i < |Report(lines, s).advisories|
    ensures Report(lines, s).line <= Report(lines, s).advisories[i].line <= Report(lines, s).endLine
  {
    EndBounds(lines, s, s + 1);
    if i < |Findings(lines, s, End(lines, s))| {
      FindingsInside(lines, s, End(lines, s), i);
    }
  }

  /** A function carries an OPT-001 advisory exactly when its reported loop depth is at least two. */
  lemma {:induction false} NestedIffAdvised(lines: seq<Line>, s: nat)
    requires s < |lines| && Starts(lines, s)
    ensures Report(lines, s).maxLoopDepth >= 2 <==> Mentions(Report(lines, s).advisories, "OPT-001")
  {
    EndBounds(lines, s, s + 1);
    var e := End(lines, s);
    var f := Findings(lines, s, e);
    if Mentions(f, "OPT-001") {
      var i :| 0 <= i < |f| && f[i].finding.RuleId() == "OPT-001";
      FindingsInside(lines, s, e, i);
    } else if MaxDepth(lines, s, e) >= 2 {
      assert Report(lines, s).advisories[|f|].finding.RuleId() == "OPT-001";
    }
  }

  /** The reported loop depth is the largest contribution of the function's lines, and is reached when not zero. */
  lemma {:induction false} DepthIsMaximum(lines: seq<Line>, s: nat, k: nat)
    requires k <= |lines|
    ensures forall j :: s <= j < k ==> Contribution(lines, s, j) <= MaxDepth(lines, s, k)
    ensures MaxDepth(lines, s, k) > 0 ==> exists j :: s <= j < k && Contribution(lines, s, j) == MaxDepth(lines, s, k)
  {
    if s < k {
      DepthIsMaximum(lines, s, k - 1);
    }
  }

  predicate Ascending(ls: seq<nat>) { forall i, j :: 0 <= i < j < |ls| ==> ls[i] < ls[j] }

  /** The lists of open loops hold each open loop once, in order. */
  lemma {:induction false} OpenBraceLoopsListed(lines: seq<Line>, s: nat, k: nat, hi: nat, l: nat)
    requires s < |lines| && l < |lines| && hi <= |lines| && k <= |lines|
    ensures l in BraceLoops(lines, s, k, hi) <==> s <= l < hi && BraceLoopOpen(lines, s, l, k)
    ensures forall i :: 0 <= i < |BraceLoops(lines, s, k, hi)| ==> BraceLoops(lines, s, k, hi)[i] < hi
    ensures Ascending(BraceLoops(lines, s, k, hi))
  {
    hide BraceLoopOpen;
    if s < hi {
      OpenBraceLoopsListed(lines, s, k, hi - 1, l);
    }
  }

  lemma {:induction false} OpenIndentLoopsListed(lines: seq<Line>, s: nat, k: nat, hi: nat, l: nat)
    requires s < |lines| && l < |lines| && hi <= |lines| && k <= |lines|
    ensures l in IndentLoops(lines, s, k, hi) <==> s <= l < hi && IndentLoopOpen(lines, s, l, k)
    ensures forall i :: 0 <= i < |IndentLoops(lines, s, k, hi)| ==> IndentLoops(lines, s, k, hi)[i] < hi
    ensures Ascending(IndentLoops(lines, s, k, hi))
  {
    hide IndentLoopOpen;
    if s < hi {
      OpenIndentLoopsListed(lines, s, k, hi - 1, l);
    }
  }

  // ---- The definitions, without recursion -------------------------------------------------------------

  /** A closing brace is a dip when the depth it leaves is at or below the level. */
  lemma {:induction false} DipsMeans(chars: string, d: nat, level: nat)
    ensures Dips(chars, d, level) <==>
      exists i :: 0 <= i < |chars| && chars[i] == '}' && DepthAfter(chars[..i + 1], d) <= level
  {
    if chars != [] {
      var n := |chars| - 1;
      DipsMeans(chars[..n], d, level);
      assert chars[..n + 1] == chars;
      assert forall i :: 0 <= i < n ==> chars[..n][i] == chars[i] && chars[..n][..i + 1] == chars[..i + 1];
    }
  }

  /** A brace loop is open while no closing brace has brought the depth back to that of its line. */
  lemma {:induction false} BraceLoopOpenMeans(lines: seq<Line>, s: nat, l: nat, k: nat, d: nat)
    requires s < |lines| && l < |lines| && k <= |lines| && d == DepthAt(lines, l)
    ensures BraceLoopOpen(lines, s, l, k) <==>
      && !lines[l].skip && lines[l].loop && !lines[s].pythonDef && !lines[l].endsColon
      && forall j :: l <= j < k ==> lines[j].skip || !Dips(lines[j].text, DepthAt(lines, j), d)
  {
    if l < k {
      BraceLoopOpenMeans(lines, s, l, k - 1, d);
    }
  }

  /** An indented loop is open while every line after it is indented further. */
  lemma {:induction false} IndentLoopOpenMeans(lines: seq<Line>, s: nat, l: nat, k: nat)
    requires s < |lines| && l < |lines| && k <= |lines|
    ensures IndentLoopOpen(lines, s, l, k) <==>
      && !lines[l].skip && lines[l].loop && (lines[s].pythonDef || lines[l].endsColon)
      && forall j :: l < j < k && !lines[j].skip ==> lines[l].indent < lines[j].indent
  {
    if l + 1 < k {
      IndentLoopOpenMeans(lines, s, l, k - 1);
    }
  }

  /** Recursion is a call on a later line of the function; allocation is a concatenation on a line inside a loop. */
  lemma {:induction false} RecursiveAndAllocatesMean(lines: seq<Line>, s: nat, k: nat, name: string)
    requires k <= |lines|
    ensures Recursive(lines, s, k, name) <==> exists j :: s < j < k && !lines[j].skip && name in lines[j].calls
    ensures Allocates(lines, s, k) <==>
      exists j :: s <= j < k && !lines[j].skip && LoopDepth(lines, s, j) >= 1 && lines[j].concat
  {
    if s < k {
      RecursiveAndAllocatesMean(lines, s, k - 1, name);
    }
  }

  /** A function ends with the first line that ends it, and with the file otherwise. */
  lemma {:induction false} OpenMeans(lines: seq<Line>, s: nat, k: nat)
    requires s < |lines| && k <= |lines|
    ensures Open(lines, s, k) <==> forall j :: s < j < k ==> !EndsBefore(lines, s, j) && !EndsOn(lines, s, j)
  {
    if s + 1 < k {
      OpenMeans(lines, s, k - 1);
    }
  }
}
