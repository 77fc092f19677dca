/** What the reports of apps/cognis-mcp/src/guardrails.ts contain, said on the lines of the source alone. */
module GuardrailMeaning {
  import opened Options
  import opened GuardrailSpec

  // ---- Advisories -------------------------------------------------------------------------------------

  /** An advisory of this kind points at this line. */
  predicate Has(advisories: seq<Advisory>, finding: Finding, line: nat) {
    exists i :: 0 <= i < |advisories| && advisories[i].finding == finding && advisories[i].line == line
  }

  lemma {:induction false} HasJoin(a: seq<Advisory>, b: seq<Advisory>, finding: Finding, line: nat)
    ensures Has(a + b, finding, line) <==> Has(a, finding, line) || Has(b, finding, line)
  {
    if Has(a, finding, line) {
      var i :| 0 <= i < |a| && a[i].finding == finding && a[i].line == line;
      assert (a + b)[i] == a[i];
    }
    if Has(b, finding, line) {
      var i :| 0 <= i < |b| && b[i].finding == finding && b[i].line == line;
      assert (a + b)[|a| + i] == b[i];
    }
  }

  lemma {:induction false} HasOne(a: Advisory, finding: Finding, line: nat)
    ensures Has([a], finding, line) <==> a.finding == finding && a.line == line
    ensures !Has([], finding, line)
  {
    assert [a][0] == a;
  }

  lemma {:induction false} HitsHave(line: Line, number: nat, d: nat, finding: Finding)
    ensures Has(Hits(line, number, d, 4), finding, number) <==>
      match finding
      case LinearScan => line.linear && !line.loop
      case SortInLoop => line.sorts
      case IoInLoop => line.io
      case ConcatInLoop => line.concat
      case NestedLoops => false
  {
    forall n: nat | 1 <= n <= 4
      ensures var rule := LineRules[n - 1];
        Has(Hits(line, number, d, n), finding, number) <==>
          Has(Hits(line, number, d, n - 1), finding, number) || (Triggers(line, rule) && finding == rule)
    {
      var rule := LineRules[n - 1];
      var here := if Triggers(line, rule) then [Advisory(rule, SeverityOf(rule), number, d)] else [];
      HasJoin(Hits(line, number, d, n - 1), here, finding, number);
      HasOne(Advisory(rule, SeverityOf(rule), number, d), finding, number);
    }
    HasOne(Advisory(LinearScan, Warning, number, d), finding, number);
    assert Hits(line, number, d, 0) == [];
    hide Has, Triggers, Hits;
    assert !Has(Hits(line, number, d, 0), finding, number);
    FourHits(line, number, d, finding);
  }

  lemma {:induction false} FourHits(line: Line, number: nat, d: nat, finding: Finding)
    ensures LineRules[0] == LinearScan && LineRules[1] == SortInLoop && LineRules[2] == IoInLoop && LineRules[3] == ConcatInLoop
    ensures Triggers(line, LinearScan) <==> line.linear && !line.loop
    ensures Triggers(line, SortInLoop) <==> line.sorts
    ensures Triggers(line, IoInLoop) <==> line.io
    ensures Triggers(line, ConcatInLoop) <==> line.concat
  {
  }

  lemma {:induction false} LineFindingsPointHere(lines: seq<Line>, s: nat, j: nat, finding: Finding, number: nat)
    requires s <= j < |lines| && number != j + 1
    ensures !Has(LineFindings(lines, s, j), finding, number)
  {
    hide LoopDepth;
    var d := LoopDepth(lines, s, j);
    if Has(LineFindings(lines, s, j), finding, number) {
      var i :| 0 <= i < |Hits(lines[j], j + 1, d, 4)| && Hits(lines[j], j + 1, d, 4)[i].line == number;
      HitsAreHere(lines[j], j + 1, d, 4, i);
    }
  }

  lemma {:induction false} FindingsHave(lines: seq<Line>, s: nat, k: nat, j: nat, finding: Finding)
    requires s <= j < k <= |lines|
    ensures Has(Findings(lines, s, k), finding, j + 1) <==> Has(LineFindings(lines, s, j), finding, j + 1)
  {
    hide LineFindings, Has;
    HasJoin(Findings(lines, s, k - 1), LineFindings(lines, s, k - 1), finding, j + 1);
    if j < k - 1 {
      FindingsHave(lines, s, k - 1, j, finding);
      LineFindingsPointHere(lines, s, k - 1, finding, j + 1);
    } else {
      NothingBeyond(lines, s, k - 1, finding, j + 1);
    }
  }

  lemma {:induction false} NothingBeyond(lines: seq<Line>, s: nat, k: nat, finding: Finding, number: nat)
    requires k <= |lines| && k < number
    ensures !Has(Findings(lines, s, k), finding, number)
  {
    hide LineFindings, LoopDepth, Contribution;
    if Has(Findings(lines, s, k), finding, number) {
      var i :| 0 <= i < |Findings(lines, s, k)| && Findings(lines, s, k)[i].line == number;
      FindingsInside(lines, s, k, i);
    }
  }

  /** A line of a function is reported for exactly what it does inside a loop: a linear scan (unless it is a loop line
      itself), a sort, input or output, a string concatenation. Skipped lines and lines in no loop are not. */
  lemma {:induction false} FindingsExact(lines: seq<Line>, s: nat, j: nat)
    requires s < |lines| && Starts(lines, s) && s <= j < End(lines, s) <= |lines|
    ensures var found := Report(lines, s).advisories; var inLoop := !lines[j].skip && LoopDepth(lines, s, j) >= 1;
      && (Has(found, LinearScan, j + 1) <==> inLoop && lines[j].linear && !lines[j].loop)
      && (Has(found, SortInLoop, j + 1) <==> inLoop && lines[j].sorts)
      && (Has(found, IoInLoop, j + 1) <==> inLoop && lines[j].io)
      && (Has(found, ConcatInLoop, j + 1) <==> inLoop && lines[j].concat)
  {
    var number, d := j + 1, LoopDepth(lines, s, j);
    forall finding: Finding | finding != NestedLoops
      ensures Has(Report(lines, s).advisories, finding, number) <==>
        !lines[j].skip && d >= 1 && Has(Hits(lines[j], number, d, 4), finding, number)
    {
      FindingsHave(lines, s, End(lines, s), j, finding);
      NestingAddsNone(lines, s, finding, number);
      assert !Has([], finding, number);
    }
    HitsHave(lines[j], number, d, LinearScan);
    HitsHave(lines[j], number, d, SortInLoop);
    HitsHave(lines[j], number, d, IoInLoop);
    HitsHave(lines[j], number, d, ConcatInLoop);
    hide Has, Hits, Report, LoopDepth;
  }

  lemma {:induction false} NestingAddsNone(lines: seq<Line>, s: nat, finding: Finding, number: nat)
    requires s < |lines| && Starts(lines, s) && End(lines, s) <= |lines| && finding != NestedLoops
    ensures Has(Report(lines, s).advisories, finding, number) <==> Has(Findings(lines, s, End(lines, s)), finding, number)
  {
    hide Findings, MaxDepth, Mentions, Recursive, Allocates, Has;
    var e := End(lines, s);
    var found, depth := Findings(lines, s, e), MaxDepth(lines, s, e);
    var adv := Advisory(NestedLoops, if depth >= 3 then Error else Warning, s + 1, depth);
    HasJoin(found, [adv], finding, number);
    HasOne(adv, finding, number);
  }

  /** The place of a rule among the rules of a line. */
  function Rank(finding: Finding): nat {
    match finding
    case LinearScan => 0
    case SortInLoop => 1
    case IoInLoop => 2
    case ConcatInLoop => 3
    case NestedLoops => 4
  }

  predicate InOrder(found: seq<Advisory>) {
    forall i, k :: 0 <= i < k < |found| ==>
      found[i].line < found[k].line || (found[i].line == found[k].line && Rank(found[i].finding) < Rank(found[k].finding))
  }

  /** What an advisory of a line says beside its rule: how bad it is, and how deep the line is in loops. */
  predicate Graded(a: Advisory, lines: seq<Line>, s: nat) {
    && s + 1 <= a.line <= |lines| && a.depth == LoopDepth(lines, s, a.line - 1)
    && match a.finding
       case LinearScan => a.severity == Warning
       case SortInLoop => a.severity == Warning
       case IoInLoop => a.severity == Error
       case ConcatInLoop => a.severity == Info
       case NestedLoops => false
  }

  lemma {:induction false} HitsInOrder(line: Line, number: nat, d: nat, n: nat)
    requires n <= 4
    ensures InOrder(Hits(line, number, d, n))
    ensures forall i :: 0 <= i < |Hits(line, number, d, n)| ==>
      var a := Hits(line, number, d, n)[i];
      a.line == number && a.depth == d && Rank(a.finding) < n && a.severity == SeverityOf(a.finding)
  {
    if n > 0 {
      HitsInOrder(line, number, d, n - 1);
    }
  }

  lemma {:induction false} LineFindingsInOrder(lines: seq<Line>, s: nat, j: nat)
    requires s <= j < |lines|
    ensures InOrder(LineFindings(lines, s, j))
    ensures forall i :: 0 <= i < |LineFindings(lines, s, j)| ==>
      LineFindings(lines, s, j)[i].line == j + 1 && Graded(LineFindings(lines, s, j)[i], lines, s)
  {
    var d := LoopDepth(lines, s, j);
    HitsInOrder(lines[j], j + 1, d, 4);
    hide LoopDepth, Hits;
  }

  lemma {:induction false} FindingsInOrder(lines: seq<Line>, s: nat, k: nat)
    requires k <= |lines|
    ensures InOrder(Findings(lines, s, k))
    ensures forall i :: 0 <= i < |Findings(lines, s, k)| ==>
      Findings(lines, s, k)[i].line <= k && Graded(Findings(lines, s, k)[i], lines, s)
  {
    hide LineFindings, Graded, Rank, InOrder;
    if s < k {
      FindingsInOrder(lines, s, k - 1);
      LineFindingsInOrder(lines, s, k - 1);
      InOrderJoin(Findings(lines, s, k - 1), LineFindings(lines, s, k - 1), k);
    } else {
      NoneInOrder();
    }
  }

  lemma {:induction false} NoneInOrder()
    ensures InOrder([])
  {
  }

  lemma {:induction false} InOrderJoin(a: seq<Advisory>, b: seq<Advisory>, line: nat)
    requires InOrder(a) && InOrder(b)
    requires (forall i :: 0 <= i < |a| ==> a[i].line < line) && (forall i :: 0 <= i < |b| ==> b[i].line == line)
    ensures InOrder(a + b)
  {
  }

  /** The advisories of a function stand in the order of its lines, and of the rules on each line, so that none comes
      twice; the one for nested loops is the last, and is there exactly when the function is deep but no line of it had a
      linear scan in a loop. */
  lemma {:induction false} AdvisoriesInOrder(lines: seq<Line>, s: nat)
    requires s < |lines| && Starts(lines, s)
    ensures var report := Report(lines, s); var found := report.advisories; var n := |found|;
      if n > 0 && found[n - 1].finding == NestedLoops then
        && report.maxLoopDepth >= 2 && InOrder(found[..n - 1])
        && (forall i :: 0 <= i < n - 1 ==> Graded(found[i], lines, s) && found[i].finding != LinearScan)
        && found[n - 1] == Advisory(NestedLoops, if report.maxLoopDepth == 2 then Warning else Error, s + 1, report.maxLoopDepth)
      else
        && InOrder(found) && (forall i :: 0 <= i < n ==> Graded(found[i], lines, s))
        && (report.maxLoopDepth >= 2 ==> exists i :: 0 <= i < n && found[i].finding == LinearScan)
  {
    EndBounds(lines, s, s + 1);
    var e := End(lines, s);
    FindingsInOrder(lines, s, e);
    var f := Findings(lines, s, e);
    MentionsScan(lines, s, f);
    hide LoopDepth, Findings, MaxDepth, Mentions, Recursive, Allocates, InOrder;
    var report := Report(lines, s);
    var n := |report.advisories|;
    if report.advisories != f {
      assert report.advisories[..n - 1] == f;
    }
  }

  lemma {:induction false} MentionsScan(lines: seq<Line>, s: nat, found: seq<Advisory>)
    requires forall i :: 0 <= i < |found| ==> Graded(found[i], lines, s)
    ensures Mentions(found, "OPT-001") <==> exists i :: 0 <= i < |found| && found[i].finding == LinearScan
  {
    hide LoopDepth;
    forall i | 0 <= i < |found| ensures found[i].finding.RuleId() == "OPT-001" <==> found[i].finding == LinearScan {
      assert Graded(found[i], lines, s);
      RuleIds();
    }
    hide Graded;
  }

  lemma {:induction false} RuleIds()
    ensures LinearScan.RuleId() == "OPT-001" && NestedLoops.RuleId() == "OPT-001" && SortInLoop.RuleId() == "OPT-002"
    ensures IoInLoop.RuleId() == "OPT-003" && ConcatInLoop.RuleId() == "OPT-005"
  {
    assert "OPT-001"[6] == '1' && "OPT-002"[6] == '2' && "OPT-003"[6] == '3' && "OPT-005"[6] == '5';
  }

  /** The advisories of a file are those of its functions, one function after the other. */
  lemma {:induction false} FlattenJoins(a: seq<Lens>, b: seq<Lens>, one: Lens)
    ensures Flatten(a + b) == Flatten(a) + Flatten(b)
    ensures Flatten([]) == [] && Flatten([one]) == one.advisories
  {
    assert [one][..0] == [];
    if b == [] {
      assert a + b == a;
    } else {
      FlattenJoins(a, b[..|b| - 1], one);
      assert (a + b)[..|a + b| - 1] == a + b[..|b| - 1];
    }
  }

  // ---- The rest of a report ---------------------------------------------------------------------------

  /** How deep a line makes its function: as deep as the loops around it, and one more for a linear scan in a loop. */
  lemma {:induction false} ContributionMeans(lines: seq<Line>, s: nat, j: nat)
    requires s <= j < |lines|
    ensures lines[j].skip ==> Contribution(lines, s, j) == 0
    ensures var d := LoopDepth(lines, s, j);
      !lines[j].skip ==>
        Contribution(lines, s, j) == if d > 0 && lines[j].linear && !lines[j].loop then d + 1 else d
  {
  }

  /** What a report says of time and space: a power of n for the depth; exponential for recursion in loops, and one power
      for recursion without; linear space for recursion, or for concatenation in a loop. */
  lemma {:induction false} ReportMeans(lines: seq<Line>, s: nat)
    requires s < |lines| && Starts(lines, s)
    ensures var r := Report(lines, s); var e := End(lines, s);
      && r.name == lines[s].declares.value && r.line == s + 1 && r.endLine == e && s < e <= |lines|
      && (forall j :: s <= j < e ==> Contribution(lines, s, j) <= r.maxLoopDepth)
      && (r.maxLoopDepth > 0 ==> exists j :: s <= j < e && Contribution(lines, s, j) == r.maxLoopDepth)
      && (r.isRecursive <==> exists j :: s < j < e && !lines[j].skip && r.name in lines[j].calls)
      && (r.linearSpace <==>
            r.isRecursive || exists j :: s <= j < e && !lines[j].skip && LoopDepth(lines, s, j) >= 1 && lines[j].concat)
      && (r.time == TwoToTheN <==> r.isRecursive && r.maxLoopDepth >= 1)
      && (r.time != TwoToTheN ==> r.time == Power(if r.maxLoopDepth == 0 && r.isRecursive then 1 else r.maxLoopDepth))
  {
    EndBounds(lines, s, s + 1);
    var e := End(lines, s);
    DepthIsMaximum(lines, s, e);
    RecursiveAndAllocatesMean(lines, s, e, lines[s].declares.value);
    hide LoopDepth, Contribution, MaxDepth, Findings, WithNesting, Recursive, Allocates, Starts;
  }

  /** Where a function ends: nothing before ends it, and there something does, or the file does. */
  lemma {:induction false} ExtentMeans(lines: seq<Line>, s: nat)
    requires s < |lines|
    ensures var e := End(lines, s);
      && s < e <= |lines|
      && (forall j :: s < j < e ==>
            lines[j].skip || (lines[j].declares.None? && (lines[s].pythonDef ==> lines[j].indent > lines[s].indent)))
      && (forall j :: s < j < e - 1 ==>
            lines[j].skip || lines[s].pythonDef || !Dips(lines[j].text, DepthAt(lines, j), DepthAt(lines, s)))
      && (|| e == |lines|
          || (!lines[e].skip && (lines[e].declares.Some? || (lines[s].pythonDef && lines[e].indent <= lines[s].indent)))
          || (s < e - 1 && !lines[s].pythonDef && !lines[e - 1].skip
              && Dips(lines[e - 1].text, DepthAt(lines, e - 1), DepthAt(lines, s))))
  {
    hide Dips, DepthAt;
    EndFromMeans(lines, s, s + 1);
    var e := End(lines, s);
    forall j | s < j < e
      ensures lines[j].skip || (lines[j].declares.None? && (lines[s].pythonDef ==> lines[j].indent > lines[s].indent))
    {
      assert !EndsBefore(lines, s, j);
    }
    forall j | s < j < e - 1
      ensures lines[j].skip || lines[s].pythonDef || !Dips(lines[j].text, DepthAt(lines, j), DepthAt(lines, s))
    {
      assert !EndsOn(lines, s, j);
    }
  }

  lemma {:induction false} EndFromMeans(lines: seq<Line>, s: nat, k: nat)
    requires s < k <= |lines|
    ensures var e := EndFrom(lines, s, k);
      && k <= e <= |lines|
      && (forall j :: k <= j < e ==> !EndsBefore(lines, s, j))
      && (forall j :: k <= j < e - 1 ==> !EndsOn(lines, s, j))
      && (e == |lines| || EndsBefore(lines, s, e) || (k < e && EndsOn(lines, s, e - 1)))
    decreases |lines| - k
  {
    hide EndsBefore, EndsOn;
    if k < |lines| && !EndsBefore(lines, s, k) && !EndsOn(lines, s, k) {
      EndFromMeans(lines, s, k + 1);
    }
  }

  // ---- Depths -----------------------------------------------------------------------------------------

  /** How often a character occurs. */
  function Count(chars: string, ch: char): nat {
    if chars == "" then 0 else Count(chars[..|chars| - 1], ch) + if chars[|chars| - 1] == ch then 1 else 0
  }

  /** Braces are counted up and down, except that the depth never falls below zero. */
  lemma {:induction false} DepthCounts(chars: string, d: nat)
    ensures DepthAfter(chars, d) >= d + Count(chars, '{') - Count(chars, '}')
    ensures Count(chars, '}') <= d ==> DepthAfter(chars, d) == d + Count(chars, '{') - Count(chars, '}')
    ensures DepthAfter(chars + "}", 0) == if DepthAfter(chars, 0) == 0 then 0 else DepthAfter(chars, 0) - 1
  {
    assert (chars + "}")[..|chars|] == chars;
    if chars != "" {
      DepthCounts(chars[..|chars| - 1], d);
    }
  }

  /** The depth of a line is that of the line before, after its braces. */
  lemma {:induction false} DepthAtMeans(lines: seq<Line>, k: nat)
    requires k < |lines|
    ensures DepthAt(lines, 0) == 0
    ensures DepthAt(lines, k + 1) == if lines[k].skip then DepthAt(lines, k) else DepthAfter(lines[k].text, DepthAt(lines, k))
  {
  }

  lemma {:induction false} AscendingIsSet(ls: seq<nat>, all: set<nat>)
    requires Ascending(ls) && forall l: nat :: l in ls <==> l in all
    ensures |ls| == |all|
  {
    if ls == [] {
      assert all == {};
    } else {
      var n := |ls| - 1;
      forall l: nat ensures l in ls[..n] <==> l in all - {ls[n]} {
        if l in ls[..n] { assert l in ls; }
        if l in all && l != ls[n] { assert l in ls; }
      }
      assert ls[n] in ls;
      AscendingIsSet(ls[..n], all - {ls[n]});
    }
  }

  function OpenBraced(lines: seq<Line>, s: nat, k: nat, hi: nat): set<nat>
    requires s < |lines| && k <= |lines| && hi <= |lines|
  {
    set l: nat | s <= l < hi && BraceLoopOpen(lines, s, l, k)
  }

  function OpenIndented(lines: seq<Line>, s: nat, k: nat, hi: nat): set<nat>
    requires s < |lines| && k <= |lines| && hi <= |lines|
  {
    set l: nat | s <= l < hi && IndentLoopOpen(lines, s, l, k)
  }

  lemma {:induction false} OpenCounts(lines: seq<Line>, s: nat, k: nat, hi: nat)
    requires s < |lines| && k <= |lines| && 0 < hi <= |lines|
    ensures |BraceLoops(lines, s, k, hi)| == |OpenBraced(lines, s, k, hi)|
    ensures |IndentLoops(lines, s, k, hi)| == |OpenIndented(lines, s, k, hi)|
  {
    hide BraceLoopOpen, IndentLoopOpen;
    var braced, indented := OpenBraced(lines, s, k, hi), OpenIndented(lines, s, k, hi);
    var bs, ns := BraceLoops(lines, s, k, hi), IndentLoops(lines, s, k, hi);
    forall l: nat ensures (l in bs <==> l in braced) && (l in ns <==> l in indented) {
      if l < |lines| {
        OpenBraceLoopsListed(lines, s, k, hi, l);
        OpenIndentLoopsListed(lines, s, k, hi, l);
      } else {
        NoneBeyond(lines, s, k, hi, l);
      }
    }
    OpenBraceLoopsListed(lines, s, k, hi, s);
    OpenIndentLoopsListed(lines, s, k, hi, s);
    AscendingIsSet(bs, braced);
    AscendingIsSet(ns, indented);
  }

  /** The depth of a line: the brace loops open on it and the indented loops open after it, itself among them if it is a
      loop, and itself once more if it is a loop that opens no block. */
  lemma {:induction false} LoopDepthCounts(lines: seq<Line>, s: nat, k: nat)
    requires s <= k < |lines|
    ensures LoopDepth(lines, s, k) ==
      |OpenBraced(lines, s, k, k + 1)| + |OpenIndented(lines, s, k + 1, k + 1)|
      + if lines[k].loop && '{' !in lines[k].text && !lines[k].endsColon then 1 else 0
  {
    OpenCounts(lines, s, k, k + 1);
    OpenCounts(lines, s, k + 1, k + 1);
  }

  lemma {:induction false} NoneBeyond(lines: seq<Line>, s: nat, k: nat, hi: nat, l: nat)
    requires s < |lines| && k <= |lines| && hi <= |lines| <= l
    ensures l !in BraceLoops(lines, s, k, hi) && l !in IndentLoops(lines, s, k, hi)
  {
    hide BraceLoopOpen, IndentLoopOpen;
    if s < hi {
      NoneBeyond(lines, s, k, hi - 1, l);
    }
  }

  /** A loop line without a block counts twice: alone in a function it already makes it two deep. */
  lemma {:induction false} BlocklessLoopCountsTwice(lines: seq<Line>, s: nat, k: nat)
    requires s <= k < |lines| && !lines[s].pythonDef && !lines[k].skip && lines[k].loop
    requires '{' !in lines[k].text && !lines[k].endsColon
    ensures LoopDepth(lines, s, k) >= 2
    ensures (forall l :: s <= l < k ==> !lines[l].loop) ==> LoopDepth(lines, s, k) == 2
  {
    LoopDepthCounts(lines, s, k);
    hide LoopDepth;
    var braced, indented := OpenBraced(lines, s, k, k + 1), OpenIndented(lines, s, k + 1, k + 1);
    assert k in braced;
    assert |braced| >= 1;
    if forall l :: s <= l < k ==> !lines[l].loop {
      forall l: nat | s <= l < k + 1 ensures BraceLoopOpen(lines, s, l, k) ==> l == k {
        BraceLoopOpenMeans(lines, s, l, k, DepthAt(lines, l));
      }
      forall l: nat | l in indented ensures false {
        IndentLoopOpenMeans(lines, s, l, k + 1);
      }
      assert braced == {k} && indented == {};
    }
  }
}
