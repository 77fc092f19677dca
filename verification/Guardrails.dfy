/** The analyser's scan (apps/cognis-mcp/src/guardrails.ts): one pass over the lines with a brace depth, two stacks of
    open loops and at most one current function, shown to produce exactly the reports of GuardrailSpec. */
module Guardrails {
  import opened Options
  import opened GuardrailSpec

  datatype ActiveFn = ActiveFn(
    name: string, startLine: nat, braceDepthAtStart: nat, indentAtStart: nat, isPythonDef: bool,
    maxLoopDepth: nat, hasAllocInLoop: bool, isRecursive: bool, advisories: seq<Advisory>)

  /** The local variables of the scan. */
  datatype Scan = Scan(
    currentFn: Option<ActiveFn>, braceDepth: nat, loopBraceStack: seq<nat>, indentStack: seq<nat>,
    functions: seq<Lens>, advisories: seq<Advisory>)

  // ---- Stacks -----------------------------------------------------------------------------------------

  predicate Nondecreasing(stack: seq<nat>) { forall i, j :: 0 <= i < j < |stack| ==> stack[i] <= stack[j] }

  predicate Increasing(stack: seq<nat>) { forall i, j :: 0 <= i < j < |stack| ==> stack[i] < stack[j] }

  /** The elements below a level. */
  function Below(stack: seq<nat>, level: nat): seq<nat> {
    if stack == [] then []
    else Below(stack[..|stack| - 1], level) + if stack[|stack| - 1] < level then [stack[|stack| - 1]] else []
  }

  lemma {:induction false} BelowAll(stack: seq<nat>, level: nat)
    requires forall i :: 0 <= i < |stack| ==> stack[i] < level
    ensures Below(stack, level) == stack
  {
    if stack != [] {
      BelowAll(stack[..|stack| - 1], level);
    }
  }

  lemma {:induction false} BelowPush(stack: seq<nat>, x: nat, level: nat)
    ensures Below(stack + [x], level) == Below(stack, level) + if x < level then [x] else []
  {
    assert (stack + [x])[..|stack|] == stack;
  }

  /** Popping while the top has reached the level removes exactly what a filter would. */
  method PopReached(stack: seq<nat>, level: nat) returns (rest: seq<nat>)
    requires Nondecreasing(stack)
    ensures rest == Below(stack, level) && rest <= stack
  {
    rest := stack;
    while |rest| > 0 && level <= rest[|rest| - 1]
      invariant rest <= stack && Below(stack, level) == Below(rest, level)
    {
      rest := rest[..|rest| - 1];
    }
    BelowAll(rest, level);
  }

  // ---- What the stacks hold ---------------------------------------------------------------------------

  function BraceLevels(lines: seq<Line>, s: nat, k: nat, hi: nat): seq<nat>
    requires s < |lines| && hi <= |lines| && k <= |lines|
  {
    if hi <= s then []
    else BraceLevels(lines, s, k, hi - 1) + if BraceLoopOpen(lines, s, hi - 1, k) then [DepthAt(lines, hi - 1)] else []
  }

  function IndentLevels(lines: seq<Line>, s: nat, k: nat, hi: nat): seq<nat>
    requires s < |lines| && hi <= |lines| && k <= |lines|
  {
    if hi <= s then []
    else IndentLevels(lines, s, k, hi - 1) + if IndentLoopOpen(lines, s, hi - 1, k) then [lines[hi - 1].indent] else []
  }

  lemma {:induction false} LevelCounts(lines: seq<Line>, s: nat, k: nat, hi: nat)
    requires s < |lines| && hi <= |lines| && k <= |lines|
    ensures |BraceLevels(lines, s, k, hi)| == |BraceLoops(lines, s, k, hi)|
    ensures |IndentLevels(lines, s, k, hi)| == |IndentLoops(lines, s, k, hi)|
  {
    if s < hi {
      LevelCounts(lines, s, k, hi - 1);
    }
  }

  lemma {:induction false} IndentsAfterLine(lines: seq<Line>, s: nat, k: nat, hi: nat)
    requires s < |lines| && hi <= k < |lines|
    ensures IndentLevels(lines, s, k + 1, hi) ==
      if lines[k].skip then IndentLevels(lines, s, k, hi) else Below(IndentLevels(lines, s, k, hi), lines[k].indent)
  {
    if s < hi {
      IndentsAfterLine(lines, s, k, hi - 1);
      var before := IndentLevels(lines, s, k, hi - 1);
      var x := lines[hi - 1].indent;
      BelowPush(before, x, lines[k].indent);
      assert before + [] == before;
      assert IndentLoopOpen(lines, s, hi - 1, k + 1) <==>
        IndentLoopOpen(lines, s, hi - 1, k) && (lines[k].skip || x < lines[k].indent);
    }
  }

  /** The stack after the closing braces among some characters. */
  function AfterBraces(stack: seq<nat>, chars: string, d: nat): seq<nat> {
    if chars == [] then stack
    else
      var rest := AfterBraces(stack, chars[..|chars| - 1], d);
      if chars[|chars| - 1] == '}' then Below(rest, DepthAfter(chars, d)) else rest
  }

  lemma {:induction false} AfterBracesEmpty(chars: string, d: nat)
    ensures AfterBraces([], chars, d) == []
  {
    if chars != [] {
      AfterBracesEmpty(chars[..|chars| - 1], d);
    }
  }

  lemma {:induction false} AfterBracesPush(stack: seq<nat>, x: nat, chars: string, d: nat)
    ensures AfterBraces(stack + [x], chars, d) == AfterBraces(stack, chars, d) + if Dips(chars, d, x) then [] else [x]
  {
    if chars != [] {
      var n := |chars| - 1;
      AfterBracesPush(stack, x, chars[..n], d);
      BelowPush(AfterBraces(stack, chars[..n], d), x, DepthAfter(chars, d));
      assert AfterBraces(stack, chars[..n], d) + [] == AfterBraces(stack, chars[..n], d);
    }
  }

  lemma {:induction false} BracesAfterLine(lines: seq<Line>, s: nat, k: nat, hi: nat)
    requires s < |lines| && hi <= k + 1 && k < |lines|
    ensures BraceLevels(lines, s, k + 1, hi) ==
      if lines[k].skip then BraceLevels(lines, s, k, hi)
      else AfterBraces(BraceLevels(lines, s, k, hi), lines[k].text, DepthAt(lines, k))
  {
    if s < hi {
      BracesAfterLine(lines, s, k, hi - 1);
      var x := DepthAt(lines, hi - 1);
      assert BraceLoopOpen(lines, s, hi - 1, k + 1) <==>
        BraceLoopOpen(lines, s, hi - 1, k) && !Closes(lines, k, x);
      var before := BraceLevels(lines, s, k, hi - 1);
      assert before + [] == before && BraceLevels(lines, s, k + 1, hi - 1) + [] == BraceLevels(lines, s, k + 1, hi - 1);
      AfterBracesPush(before, x, lines[k].text, DepthAt(lines, k));
    } else {
      AfterBracesEmpty(lines[k].text, DepthAt(lines, k));
    }
  }

  // ---- What the scan knows ----------------------------------------------------------------------------

  /** What line j adds to the record of the function of line s. */
  function Absorb(lines: seq<Line>, s: nat, j: nat, f: ActiveFn): ActiveFn
    requires s <= j < |lines|
  {
    var d := LoopDepth(lines, s, j);
    f.(maxLoopDepth := Max(f.maxLoopDepth, Contribution(lines, s, j)),
       hasAllocInLoop := f.hasAllocInLoop || (d >= 1 && lines[j].concat),
       isRecursive := f.isRecursive || (s < j && f.name in lines[j].calls),
       advisories := f.advisories + LineFindings(lines, s, j))
  }

  /** The record of the function of line s over its lines before k. */
  function Summary(lines: seq<Line>, s: nat, k: nat): ActiveFn
    requires s < |lines| && k <= |lines| && Starts(lines, s)
  {
    if k <= s then
      ActiveFn(lines[s].declares.value, s + 1, DepthAt(lines, s), lines[s].indent, lines[s].pythonDef, 0, false, false, [])
    else if lines[k - 1].skip then Summary(lines, s, k - 1)
    else Absorb(lines, s, k - 1, Summary(lines, s, k - 1))
  }

  lemma {:induction false} SummaryHeader(lines: seq<Line>, s: nat, k: nat)
    requires s < |lines| && k <= |lines| && Starts(lines, s)
    ensures var f := Summary(lines, s, k);
      && f.name == lines[s].declares.value && f.startLine == s + 1 && f.braceDepthAtStart == DepthAt(lines, s)
      && f.indentAtStart == lines[s].indent && f.isPythonDef == lines[s].pythonDef
  {
    hide LoopDepth, LineFindings, Contribution;
    if s < k {
      SummaryHeader(lines, s, k - 1);
    }
  }

  lemma {:induction false} SummaryMeans(lines: seq<Line>, s: nat, k: nat)
    requires s < |lines| && k <= |lines| && Starts(lines, s)
    ensures var f := Summary(lines, s, k);
      && f.maxLoopDepth == MaxDepth(lines, s, k)
      && f.hasAllocInLoop == Allocates(lines, s, k)
      && f.isRecursive == Recursive(lines, s, k, lines[s].declares.value)
      && f.advisories == Findings(lines, s, k)
  {
    hide LoopDepth, LineFindings, Contribution;
    if s < k {
      SummaryHeader(lines, s, k - 1);
      SummaryMeans(lines, s, k - 1);
      SkippedAddsNothing(lines, s, k - 1);
    }
  }

  lemma {:induction false} SkippedAddsNothing(lines: seq<Line>, s: nat, k: nat)
    requires s <= k < |lines|
    ensures lines[k].skip ==> Contribution(lines, s, k) == 0 && LineFindings(lines, s, k) == []
  {
  }

  /** The record of the current function, which started on line s, sums up its lines before k. */
  predicate CurrentOk(lines: seq<Line>, s: nat, k: nat, f: ActiveFn) {
    s < |lines| && k <= |lines| && Starts(lines, s) && f == Summary(lines, s, k)
  }

  predicate StacksOk(st: Scan) {
    && Nondecreasing(st.loopBraceStack)
    && (forall i :: 0 <= i < |st.loopBraceStack| ==> st.loopBraceStack[i] <= st.braceDepth)
    && Increasing(st.indentStack)
  }

  predicate Collected(st: Scan) {
    st.advisories == Flatten(st.functions) + if st.currentFn.Some? then st.currentFn.value.advisories else []
  }

  predicate Common(lines: seq<Line>, k: nat, st: Scan)
    requires k <= |lines|
  {
    st.braceDepth == DepthAt(lines, k) && StacksOk(st) && Collected(st)
  }

  /** A table of the reports to come, one place per line; `Table` says its first n places are right. */
  predicate Table(lines: seq<Line>, rep: seq<Lens>, n: nat)
    requires n <= |lines| == |rep|
  {
    n == 0 || (Table(lines, rep, n - 1) && (Starts(lines, n - 1) ==> rep[n - 1] == Report(lines, n - 1)))
  }

  function Listed(lines: seq<Line>, rep: seq<Lens>, n: nat): seq<Lens>
    requires n <= |lines| == |rep|
  {
    if n == 0 then []
    else Listed(lines, rep, n - 1) + if Starts(lines, n - 1) then [rep[n - 1]] else []
  }

  lemma {:induction false} TableAt(lines: seq<Line>, rep: seq<Lens>, n: nat, s: nat)
    requires s < n <= |lines| == |rep| && Table(lines, rep, n) && Starts(lines, s)
    ensures rep[s] == Report(lines, s)
  {
    if s < n - 1 {
      TableAt(lines, rep, n - 1, s);
    }
  }

  lemma {:induction false} ListedIsReports(lines: seq<Line>, rep: seq<Lens>, n: nat)
    requires n <= |lines| == |rep| && Table(lines, rep, n)
    ensures Listed(lines, rep, n) == Reports(lines, n)
  {
    if n > 0 {
      ListedIsReports(lines, rep, n - 1);
    }
  }

  lemma {:induction false} SomeTable(lines: seq<Line>, n: nat) returns (rep: seq<Lens>)
    requires n <= |lines|
    ensures |rep| == |lines| && Table(lines, rep, n)
  {
    var blank := Lens("", 0, 0, Power(0), false, 0, false, []);
    if n == 0 {
      rep := seq(|lines|, _ => blank);
    } else {
      var before := SomeTable(lines, n - 1);
      rep := before[n - 1 := if Starts(lines, n - 1) then Report(lines, n - 1) else blank];
      TableUpTo(lines, before, rep, n - 1);
    }
  }

  lemma {:induction false} TableUpTo(lines: seq<Line>, rep: seq<Lens>, other: seq<Lens>, n: nat)
    requires n <= |lines| == |rep| == |other| && Table(lines, rep, n)
    requires forall i :: 0 <= i < n ==> rep[i] == other[i]
    ensures Table(lines, other, n)
  {
    if n > 0 {
      TableUpTo(lines, rep, other, n - 1);
    }
  }

  /** Before line k. */
  predicate Top(lines: seq<Line>, rep: seq<Lens>, k: nat, st: Scan)
    requires k <= |lines| == |rep|
  {
    && Common(lines, k, st)
    && match st.currentFn
       case None => st.functions == Listed(lines, rep, k)
       case Some(f) =>
         && 1 <= f.startLine <= k
         && var s := f.startLine - 1;
         && CurrentOk(lines, s, k, f) && Open(lines, s, k)
         && st.functions == Listed(lines, rep, s)
         && st.loopBraceStack == BraceLevels(lines, s, k, k) && st.indentStack == IndentLevels(lines, s, k, k)
  }

  /** On line k, with the function it belongs to settled: `loops` lines looked at for loops, `seen` lines summed up. */
  predicate During(lines: seq<Line>, rep: seq<Lens>, k: nat, st: Scan, loops: nat, seen: nat)
    requires k < |lines| == |rep| && loops <= |lines|
  {
    && Common(lines, k, st)
    && match st.currentFn
       case None => !Starts(lines, k) && st.functions == Listed(lines, rep, k)
       case Some(f) =>
         && 1 <= f.startLine <= k + 1
         && var s := f.startLine - 1;
         && CurrentOk(lines, s, seen, f) && Open(lines, s, k) && (s < k ==> !EndsBefore(lines, s, k))
         && st.functions == Listed(lines, rep, s)
         && st.loopBraceStack == BraceLevels(lines, s, k, loops) && st.indentStack == IndentLevels(lines, s, k + 1, loops)
  }

  predicate NoStart(lines: seq<Line>, s: nat, k: nat)
    requires k <= |lines|
  {
    forall j :: s < j < k ==> !Starts(lines, j)
  }

  lemma {:induction false} OpenHasNoStart(lines: seq<Line>, s: nat, k: nat)
    requires s < k <= |lines| && Open(lines, s, k)
    ensures NoStart(lines, s, k)
  {
    OpenMeans(lines, s, k);
    forall j | s < j < k ensures !Starts(lines, j) {
      assert !EndsBefore(lines, s, j);
    }
  }

  lemma {:induction false} ListedUntilNextStart(lines: seq<Line>, rep: seq<Lens>, s: nat, k: nat)
    requires |rep| == |lines| && s < k <= |lines| && Starts(lines, s) && NoStart(lines, s, k)
    ensures Listed(lines, rep, k) == Listed(lines, rep, s) + [rep[s]]
  {
    if s + 1 < k {
      ListedUntilNextStart(lines, rep, s, k - 1);
      assert !Starts(lines, k - 1);
    }
  }

  lemma {:induction false} EndWhileOpen(lines: seq<Line>, s: nat, j: nat, k: nat)
    requires s < j <= k <= |lines| && Open(lines, s, k)
    ensures EndFrom(lines, s, j) == EndFrom(lines, s, k)
    decreases k - j
  {
    if j < k {
      OpenMeans(lines, s, k);
      assert !EndsBefore(lines, s, j) && !EndsOn(lines, s, j);
      EndWhileOpen(lines, s, j + 1, k);
    }
  }

  lemma {:induction false} NextEndsHere(lines: seq<Line>, rep: seq<Lens>, s: nat, k: nat)
    requires |rep| == |lines| && s < k < |lines| && Starts(lines, s) && Open(lines, s, k) && EndsBefore(lines, s, k)
    ensures End(lines, s) == k && Listed(lines, rep, k) == Listed(lines, rep, s) + [rep[s]]
  {
    EndWhileOpen(lines, s, s + 1, k);
    OpenHasNoStart(lines, s, k);
    ListedUntilNextStart(lines, rep, s, k);
  }

  // ---- The scan ---------------------------------------------------------------------------------------

  function LensOf(f: ActiveFn, endLine: nat): Lens {
    Lens(f.name, f.startLine, endLine, TimeComplexity(f.maxLoopDepth, f.isRecursive), f.isRecursive || f.hasAllocInLoop,
         f.maxLoopDepth, f.isRecursive, WithNesting(f.advisories, f.maxLoopDepth, f.startLine))
  }

  lemma {:induction false} LensIsReport(lines: seq<Line>, s: nat, e: nat, f: ActiveFn)
    requires CurrentOk(lines, s, e, f) && End(lines, s) == e
    ensures LensOf(f, e) == Report(lines, s)
  {
    SummaryHeader(lines, s, e);
    SummaryMeans(lines, s, e);
  }

  lemma {:induction false} FlattenPush(reports: seq<Lens>, last: Lens)
    ensures Flatten(reports + [last]) == Flatten(reports) + last.advisories
  {
    assert (reports + [last])[..|reports|] == reports;
  }

  method FinalizeCurrentFn(st: Scan, endLine: nat) returns (r: Scan)
    requires Collected(st)
    ensures st.currentFn.None? ==> r == st
    ensures st.currentFn.Some? ==>
      r == st.(currentFn := None, functions := st.functions + [LensOf(st.currentFn.value, endLine)], advisories := r.advisories)
    ensures Collected(r)
  {
    hide Mentions, Flatten;
    if st.currentFn.None? {
      return st;
    }
    var f := st.currentFn.value;
    var time := Power(0);
    if f.isRecursive && f.maxLoopDepth >= 1 {
      time := TwoToTheN;
    } else if f.maxLoopDepth == 1 {
      time := Power(1);
    } else if f.maxLoopDepth == 2 {
      time := Power(2);
    } else if f.maxLoopDepth >= 3 {
      time := Power(f.maxLoopDepth);
    } else if f.isRecursive {
      time := Power(1);
    }
    var own, all := f.advisories, st.advisories;
    if f.maxLoopDepth >= 2 && !Mentions(own, "OPT-001") {
      var adv := Advisory(NestedLoops, if f.maxLoopDepth >= 3 then Error else Warning, f.startLine, f.maxLoopDepth);
      own, all := own + [adv], all + [adv];
    }
    var lens := Lens(f.name, f.startLine, endLine, time, f.isRecursive || f.hasAllocInLoop, f.maxLoopDepth, f.isRecursive, own);
    r := st.(currentFn := None, functions := st.functions + [lens], advisories := all);
    FlattenPush(st.functions, lens);
  }

  /** Ends the current function at the end of line e, when that is where it ends. */
  method Conclude(lines: seq<Line>, ghost rep: seq<Lens>, ghost s: nat, e: nat, st: Scan) returns (r: Scan)
    requires |rep| == |lines| && Table(lines, rep, |lines|)
    requires st.currentFn.Some? && CurrentOk(lines, s, e, st.currentFn.value) && End(lines, s) == e && Collected(st)
    ensures r == st.(currentFn := None, functions := st.functions + [rep[s]], advisories := r.advisories)
    ensures Collected(r)
  {
    LensIsReport(lines, s, e, st.currentFn.value);
    TableAt(lines, rep, |lines|, s);
    r := FinalizeCurrentFn(st, e);
  }

  /** A dedent ends a Python function and its loops. */
  method CloseOnDedent(lines: seq<Line>, ghost rep: seq<Lens>, k: nat, st: Scan) returns (r: Scan)
    requires k < |lines| == |rep| && Table(lines, rep, |lines|) && !lines[k].skip && Top(lines, rep, k, st)
    ensures Common(lines, k, r)
    ensures r.currentFn.None? ==> r.functions == Listed(lines, rep, k)
    ensures r.currentFn.Some? ==>
      && r == st.(indentStack := r.indentStack)
      && var s := r.currentFn.value.startLine - 1;
      !(lines[s].pythonDef && lines[k].indent <= lines[s].indent) && r.indentStack == IndentLevels(lines, s, k + 1, k)
    ensures forall i :: 0 <= i < |r.indentStack| ==> r.indentStack[i] < lines[k].indent
  {
    hide Summary, BraceLevels, IndentLevels, LoopDepth, DepthAt, Flatten, EndsOn, Listed, Absorb, Table, Below, Open, End;
    r := st;
    var indent := lines[k].indent;
    if r.currentFn.Some? {
      ghost var s := r.currentFn.value.startLine - 1;
      SummaryHeader(lines, s, k);
      IndentsAfterLine(lines, s, k, k);
      if r.currentFn.value.isPythonDef && indent <= r.currentFn.value.indentAtStart && k + 1 > r.currentFn.value.startLine {
        NextEndsHere(lines, rep, s, k);
        r := Conclude(lines, rep, s, k, r);
        r := r.(indentStack := []);
      }
    }
    BelowIsBelow(r.indentStack, indent);
    var popped := PopReached(r.indentStack, indent);
    r := r.(indentStack := popped);
  }

  method StartFunction(lines: seq<Line>, ghost rep: seq<Lens>, k: nat, st: Scan, name: string) returns (r: Scan)
    requires k < |lines| == |rep| && Table(lines, rep, |lines|) && Starts(lines, k) && name == lines[k].declares.value
    requires Common(lines, k, st)
    requires st.currentFn.None? ==> st.functions == Listed(lines, rep, k)
    requires st.currentFn.Some? ==>
      && 1 <= st.currentFn.value.startLine <= k
      && var s := st.currentFn.value.startLine - 1;
      CurrentOk(lines, s, k, st.currentFn.value) && Open(lines, s, k) && st.functions == Listed(lines, rep, s)
    ensures During(lines, rep, k, r, k, k) && r.indentStack == []
  {
    hide BraceLoopOpen, IndentLoopOpen, LoopDepth, DepthAt, Flatten, EndsOn, Listed, Absorb;
    r := st;
    if r.currentFn.Some? {
      ghost var s := r.currentFn.value.startLine - 1;
      NextEndsHere(lines, rep, s, k);
      r := Conclude(lines, rep, s, Max(1, k), r);
    }
    r := r.(loopBraceStack := [], indentStack := [],
            currentFn := Some(ActiveFn(name, k + 1, r.braceDepth, lines[k].indent, lines[k].pythonDef, 0, false, false, [])));
  }

  /** Functions and indented loops that end before line k, and the function that starts on it. */
  method SettleFunction(lines: seq<Line>, ghost rep: seq<Lens>, k: nat, st: Scan) returns (r: Scan)
    requires k < |lines| == |rep| && Table(lines, rep, |lines|) && !lines[k].skip && Top(lines, rep, k, st)
    ensures During(lines, rep, k, r, k, k)
    ensures forall i :: 0 <= i < |r.indentStack| ==> r.indentStack[i] < lines[k].indent
  {
    hide Summary, BraceLevels, IndentLevels, LoopDepth, DepthAt, Flatten, EndsOn, Listed, Absorb;
    r := CloseOnDedent(lines, rep, k, st);
    if lines[k].declares.Some? {
      r := StartFunction(lines, rep, k, r, lines[k].declares.value);
    }
  }

  lemma {:induction false} BelowIsBelow(stack: seq<nat>, level: nat)
    ensures forall i :: 0 <= i < |Below(stack, level)| ==> Below(stack, level)[i] < level
  {
    if stack != [] {
      BelowIsBelow(stack[..|stack| - 1], level);
    }
  }

  lemma {:induction false} EnterLevels(lines: seq<Line>, s: nat, k: nat)
    requires s <= k < |lines| && !lines[k].skip
    ensures var here := if !lines[k].loop then [] else [DepthAt(lines, k)];
      BraceLevels(lines, s, k, k + 1) == BraceLevels(lines, s, k, k) + if IndentScoped(lines, s, k) then [] else here
    ensures var here := if !lines[k].loop then [] else [lines[k].indent];
      IndentLevels(lines, s, k + 1, k + 1) == IndentLevels(lines, s, k + 1, k) + if IndentScoped(lines, s, k) then here else []
    ensures LoopDepth(lines, s, k) == |BraceLevels(lines, s, k, k + 1)| + |IndentLevels(lines, s, k + 1, k + 1)|
      + if lines[k].loop && !HasBrace(lines[k].text) && !lines[k].endsColon then 1 else 0
  {
    LevelCounts(lines, s, k, k + 1);
    LevelCounts(lines, s, k + 1, k + 1);
  }

  /** Pushes the loop of line k, if it has one, on the stack it belongs to. */
  method EnterLoop(lines: seq<Line>, ghost rep: seq<Lens>, k: nat, st: Scan) returns (r: Scan, activeLoopDepth: nat)
    requires k < |lines| == |rep| && Table(lines, rep, |lines|) && !lines[k].skip && During(lines, rep, k, st, k, k)
    requires forall i :: 0 <= i < |st.indentStack| ==> st.indentStack[i] < lines[k].indent
    ensures During(lines, rep, k, r, k + 1, k)
    ensures r.currentFn.Some? ==> activeLoopDepth == LoopDepth(lines, r.currentFn.value.startLine - 1, k)
  {
    hide Summary, BraceLevels, IndentLevels, LoopDepth, DepthAt, Flatten, Open, EndsBefore, Listed;
    r := st;
    var line := lines[k];
    if r.currentFn.Some? {
      SummaryHeader(lines, r.currentFn.value.startLine - 1, k);
      EnterLevels(lines, r.currentFn.value.startLine - 1, k);
    }
    if line.loop {
      if (r.currentFn.Some? && r.currentFn.value.isPythonDef) || line.endsColon {
        r := r.(indentStack := r.indentStack + [line.indent]);
      } else {
        r := r.(loopBraceStack := r.loopBraceStack + [r.braceDepth]);
      }
    }
    activeLoopDepth := |r.loopBraceStack| + |r.indentStack|
      + if line.loop && !HasBrace(line.text) && !line.endsColon then 1 else 0;
  }

  /** The rules for a line inside a loop. */
  method CheckRules(line: Line, lineNum: nat, activeLoopDepth: nat) returns (found: seq<Advisory>)
    ensures found == Hits(line, lineNum, activeLoopDepth, 4)
  {
    found := [];
    if line.linear && !line.loop {
      found := found + [Advisory(LinearScan, Warning, lineNum, activeLoopDepth)];
    }
    if line.sorts {
      found := found + [Advisory(SortInLoop, Warning, lineNum, activeLoopDepth)];
    }
    if line.io {
      found := found + [Advisory(IoInLoop, Error, lineNum, activeLoopDepth)];
    }
    if line.concat {
      found := found + [Advisory(ConcatInLoop, Info, lineNum, activeLoopDepth)];
    }
    FourRules(line, lineNum, activeLoopDepth);
  }

  /** What line k adds to the record of the current function. */
  method UpdateFn(lines: seq<Line>, ghost s: nat, k: nat, before: ActiveFn, activeLoopDepth: nat)
    returns (f: ActiveFn, found: seq<Advisory>)
    requires s <= k < |lines| && !lines[k].skip && Starts(lines, s) && before == Summary(lines, s, k)
    requires activeLoopDepth == LoopDepth(lines, s, k)
    ensures f == Summary(lines, s, k + 1) && f.startLine == s + 1 && f.advisories == before.advisories + found
  {
    hide LoopDepth, Hits;
    SummaryHeader(lines, s, k);
    var line := lines[k];
    f, found := before, [];
    if activeLoopDepth > f.maxLoopDepth {
      f := f.(maxLoopDepth := activeLoopDepth);
    }
    if k + 1 > f.startLine && f.name in line.calls {
      f := f.(isRecursive := true);
    }
    if activeLoopDepth >= 1 {
      if line.linear && !line.loop {
        f := f.(maxLoopDepth := Max(f.maxLoopDepth, activeLoopDepth + 1));
      }
      if line.concat {
        f := f.(hasAllocInLoop := true);
      }
      found := CheckRules(line, k + 1, activeLoopDepth);
      f := f.(advisories := f.advisories + found);
    }
    assert LineFindings(lines, s, k) == found;
    assert before.advisories + [] == before.advisories;
    assert f == Absorb(lines, s, k, before);
  }

  /** Checks line k against the rules and updates the current function. */
  method Inspect(lines: seq<Line>, ghost rep: seq<Lens>, k: nat, st: Scan, activeLoopDepth: nat) returns (r: Scan)
    requires k < |lines| == |rep| && !lines[k].skip && During(lines, rep, k, st, k + 1, k)
    requires st.currentFn.Some? ==> activeLoopDepth == LoopDepth(lines, st.currentFn.value.startLine - 1, k)
    ensures During(lines, rep, k, r, k + 1, k + 1)
  {
    hide Summary, BraceLevels, IndentLevels, LoopDepth, DepthAt, Open, EndsBefore, Listed, Hits, Flatten;
    if st.currentFn.None? {
      return st;
    }
    var f, found := UpdateFn(lines, st.currentFn.value.startLine - 1, k, st.currentFn.value, activeLoopDepth);
    r := st.(currentFn := Some(f), advisories := st.advisories + found);
  }

  lemma {:induction false} FourRules(line: Line, number: nat, d: nat)
    ensures Hits(line, number, d, 4) ==
      (((if line.linear && !line.loop then [Advisory(LinearScan, Warning, number, d)] else [])
        + (if line.sorts then [Advisory(SortInLoop, Warning, number, d)] else []))
       + (if line.io then [Advisory(IoInLoop, Error, number, d)] else []))
      + (if line.concat then [Advisory(ConcatInLoop, Info, number, d)] else [])
  {
    assert Hits(line, number, d, 0) == [];
    assert Hits(line, number, d, 1) == if line.linear && !line.loop then [Advisory(LinearScan, Warning, number, d)] else [];
    assert Hits(line, number, d, 2) ==
      Hits(line, number, d, 1) + if line.sorts then [Advisory(SortInLoop, Warning, number, d)] else [];
    assert Hits(line, number, d, 3) ==
      Hits(line, number, d, 2) + if line.io then [Advisory(IoInLoop, Error, number, d)] else [];
  }

  lemma {:induction false} DipsGrow(text: string, i: nat, d: nat, level: nat)
    requires i <= |text| && Dips(text[..i], d, level)
    ensures Dips(text, d, level)
    decreases |text| - i
  {
    if i == |text| {
      assert text[..i] == text;
    } else {
      assert text[..i + 1][..i] == text[..i];
      DipsGrow(text, i + 1, d, level);
    }
  }

  predicate MayCloseHere(k: nat, currentFn: Option<ActiveFn>) {
    currentFn.Some? && !currentFn.value.isPythonDef && k + 1 > currentFn.value.startLine
  }

  /** After the first i characters of line k, on which the scan stood as `st` before them. */
  predicate Midline(lines: seq<Line>, rep: seq<Lens>, k: nat, st: Scan, i: nat, r: Scan)
    requires k < |lines| == |rep| && i <= |lines[k].text|
    requires st.currentFn.Some? ==> 1 <= st.currentFn.value.startLine <= |lines|
  {
    var before, d := lines[k].text[..i], DepthAt(lines, k);
    && r.braceDepth == DepthAfter(before, d)
    && StacksOk(r) && Collected(r) && r.indentStack == st.indentStack
    && r.loopBraceStack == AfterBraces(st.loopBraceStack, before, d)
    && if MayCloseHere(k, st.currentFn) && Dips(before, d, st.currentFn.value.braceDepthAtStart)
       then r.currentFn.None? && r.functions == st.functions + [rep[st.currentFn.value.startLine - 1]]
       else r.currentFn == st.currentFn && r.functions == st.functions
  }

  method ClosingBrace(lines: seq<Line>, ghost rep: seq<Lens>, k: nat, ghost st: Scan, i: nat, now: Scan) returns (r: Scan)
    requires k < |lines| == |rep| && Table(lines, rep, |lines|) && !lines[k].skip
    requires During(lines, rep, k, st, k + 1, k + 1)
    requires i < |lines[k].text| && lines[k].text[i] == '}' && Midline(lines, rep, k, st, i, now)
    ensures Midline(lines, rep, k, st, i + 1, r)
  {
    hide Summary, BraceLevels, IndentLevels, LoopDepth, Open, EndsBefore, EndsOn, Listed, Flatten, Table, DepthAt;
    assert lines[k].text[..i + 1][..i] == lines[k].text[..i];
    var depth := if now.braceDepth == 0 then 0 else now.braceDepth - 1;
    BelowIsBelow(now.loopBraceStack, depth);
    var popped := PopReached(now.loopBraceStack, depth);
    r := now.(braceDepth := depth, loopBraceStack := popped);
    if r.currentFn.Some? && !r.currentFn.value.isPythonDef && depth <= r.currentFn.value.braceDepthAtStart
       && k + 1 > r.currentFn.value.startLine {
      ghost var s := st.currentFn.value.startLine - 1;
      DipsGrow(lines[k].text, i + 1, DepthAt(lines, k), st.currentFn.value.braceDepthAtStart);
      EndsHere(lines, s, k, st.currentFn.value);
      r := Conclude(lines, rep, s, k + 1, r);
    }
  }

  /** The braces of line k, after which the scan stands before line k + 1. */
  method Braces(lines: seq<Line>, ghost rep: seq<Lens>, k: nat, st: Scan) returns (r: Scan)
    requires k < |lines| == |rep| && Table(lines, rep, |lines|) && !lines[k].skip
    requires During(lines, rep, k, st, k + 1, k + 1)
    ensures Top(lines, rep, k + 1, r)
  {
    hide Summary, BraceLevels, IndentLevels, LoopDepth, Open, EndsBefore, EndsOn, Listed, Flatten, Table, DepthAt;
    r := st;
    var text := lines[k].text;
    for i := 0 to |text|
      invariant Midline(lines, rep, k, st, i, r)
    {
      assert text[..i + 1][..i] == text[..i];
      if text[i] == '{' {
        r := r.(braceDepth := r.braceDepth + 1);
      } else if text[i] == '}' {
        r := ClosingBrace(lines, rep, k, st, i, r);
      }
    }
    assert text[..|text|] == text;
    AfterLine(lines, rep, k, st, if st.currentFn.Some? then st.currentFn.value.startLine - 1 else 0);
  }

  lemma {:induction false} EndsHere(lines: seq<Line>, s: nat, k: nat, f: ActiveFn)
    requires s < k < |lines| && !lines[k].skip && CurrentOk(lines, s, k + 1, f) && Open(lines, s, k)
      && !EndsBefore(lines, s, k)
    requires !f.isPythonDef && Dips(lines[k].text, DepthAt(lines, k), f.braceDepthAtStart)
    ensures End(lines, s) == k + 1
  {
    hide Dips, DepthAt, Open, Summary, EndsBefore;
    SummaryHeader(lines, s, k + 1);
    EndWhileOpen(lines, s, s + 1, k);
    assert EndsOn(lines, s, k);
  }

  /** How things stand once line k is done with. */
  lemma {:induction false} AfterLine(lines: seq<Line>, rep: seq<Lens>, k: nat, st: Scan, s: nat)
    requires k < |lines| == |rep| && !lines[k].skip && During(lines, rep, k, st, k + 1, k + 1)
    requires st.currentFn.Some? ==> s == st.currentFn.value.startLine - 1
    ensures DepthAt(lines, k + 1) == DepthAfter(lines[k].text, DepthAt(lines, k))
    ensures st.currentFn.None? ==> st.functions == Listed(lines, rep, k + 1)
    ensures st.currentFn.Some? ==>
      && BraceLevels(lines, s, k + 1, k + 1) == AfterBraces(st.loopBraceStack, lines[k].text, DepthAt(lines, k))
      && st.indentStack == IndentLevels(lines, s, k + 1, k + 1)
      && if MayCloseHere(k, st.currentFn) && Dips(lines[k].text, DepthAt(lines, k), st.currentFn.value.braceDepthAtStart)
         then st.functions + [rep[s]] == Listed(lines, rep, k + 1)
         else Open(lines, s, k + 1)
  {
    hide Summary, IndentLevels, LoopDepth, Flatten, BraceLevels;
    if st.currentFn.Some? {
      BracesAfterLine(lines, s, k, k + 1);
      SummaryHeader(lines, s, k + 1);
      if s < k {
        OpenHasNoStart(lines, s, k);
        assert !Starts(lines, k);
        ListedUntilNextStart(lines, rep, s, k + 1);
      }
    }
  }

  /** A line that is skipped leaves everything as it is. */
  lemma {:induction false} AfterSkippedLine(lines: seq<Line>, rep: seq<Lens>, k: nat, st: Scan)
    requires k < |lines| == |rep| && lines[k].skip && Top(lines, rep, k, st)
    ensures Top(lines, rep, k + 1, st)
  {
    hide LoopDepth, Flatten, DepthAfter, BraceLoopOpen, IndentLoopOpen, Absorb, Closes, EndsOn, EndsBefore,
      BraceLevels, IndentLevels, Dips;
    if st.currentFn.Some? {
      var s := st.currentFn.value.startLine - 1;
      BracesAfterLine(lines, s, k, k);
      IndentsAfterLine(lines, s, k, k);
      SkippedLoops(lines, s, k);
      assert !EndsBefore(lines, s, k) && !EndsOn(lines, s, k) by { SkippedEnds(lines, s, k); }
    }
  }

  lemma {:induction false} SkippedEnds(lines: seq<Line>, s: nat, k: nat)
    requires s < k < |lines| && lines[k].skip
    ensures !EndsBefore(lines, s, k) && !EndsOn(lines, s, k)
  {
  }

  lemma {:induction false} SkippedLoops(lines: seq<Line>, s: nat, k: nat)
    requires s <= k < |lines| && lines[k].skip
    ensures BraceLevels(lines, s, k + 1, k + 1) == BraceLevels(lines, s, k + 1, k)
    ensures IndentLevels(lines, s, k + 1, k + 1) == IndentLevels(lines, s, k + 1, k)
  {
    BraceLoopOpenMeans(lines, s, k, k + 1, DepthAt(lines, k));
    IndentLoopOpenMeans(lines, s, k, k + 1);
  }

  /** The functions of a source file and all advisories, in order. */
  method AnalyzeSourceLocally(lines: seq<Line>) returns (functions: seq<Lens>, advisories: seq<Advisory>)
    ensures functions == AllReports(lines)
    ensures advisories == Flatten(functions)
  {
    hide Summary, BraceLevels, IndentLevels, LoopDepth, Open, EndsBefore, EndsOn, Listed, DepthAt, Reports, Table;
    ghost var rep := SomeTable(lines, |lines|);
    var st := Scan(None, 0, [], [], [], []);
    InitialTop(lines, rep, st);
    for k := 0 to |lines|
      invariant Top(lines, rep, k, st)
    {
      if lines[k].skip {
        AfterSkippedLine(lines, rep, k, st);
        continue;
      }
      st := SettleFunction(lines, rep, k, st);
      var depth;
      st, depth := EnterLoop(lines, rep, k, st);
      st := Inspect(lines, rep, k, st, depth);
      st := Braces(lines, rep, k, st);
    }
    if st.currentFn.Some? {
      ghost var s := st.currentFn.value.startLine - 1;
      EndAtFile(lines, rep, s);
      st := Conclude(lines, rep, s, |lines|, st);
    }
    ListedIsReports(lines, rep, |lines|);
    functions, advisories := st.functions, st.advisories;
  }

  lemma {:induction false} InitialTop(lines: seq<Line>, rep: seq<Lens>, st: Scan)
    requires |rep| == |lines| && st == Scan(None, 0, [], [], [], [])
    ensures Top(lines, rep, 0, st)
  {
  }

  lemma {:induction false} EndAtFile(lines: seq<Line>, rep: seq<Lens>, s: nat)
    requires s < |lines| == |rep| && Starts(lines, s) && Open(lines, s, |lines|)
    ensures End(lines, s) == |lines|
    ensures Listed(lines, rep, |lines|) == Listed(lines, rep, s) + [rep[s]]
  {
    EndWhileOpen(lines, s, s + 1, |lines|);
    OpenHasNoStart(lines, s, |lines|);
    ListedUntilNextStart(lines, rep, s, |lines|);
  }
}
