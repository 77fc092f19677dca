/** Planning which server owns which repository on which host (apps/cognis-mcp/src/mcpCanonical.ts). An input comes with
    its canonical root and database path already resolved. */
module Ownership {
  import opened Options
  import opened Orders

  /** A canonical identity on a host. The server's name is a function of the root. */
  datatype Slot = Slot(root: string, dbPath: string, host: string) {
    function Key(): string { root + "\0" + dbPath }

    function SlotKey(): string { Key() + "\0" + host }

    predicate NoNul() { '\0' !in root && '\0' !in host }
  }

  /** An input, and also the entry planned from it. */
  datatype Input = Input(repoRoot: string, slot: Slot)

  predicate Less(a: Slot, b: Slot) {
    LessString(a.Key(), b.Key()) || (a.Key() == b.Key() && LessString(a.host, b.host))
  }

  lemma {:induction false} NulSplits(a: string, b: string, c: string, d: string)
    requires '\0' !in a && '\0' !in c && a + "\0" + b == c + "\0" + d
    ensures a == c && b == d
  {
    var s, t := a + "\0" + b, c + "\0" + d;
    if a == [] || c == [] {
      assert a == [] <==> s[0] == '\0';
      assert c == [] <==> t[0] == '\0';
      assert s[1..] == t[1..];
    } else {
      assert s[0] == a[0] && t[0] == c[0];
      assert s[1..] == a[1..] + "\0" + b && t[1..] == c[1..] + "\0" + d;
      NulSplits(a[1..], b, c[1..], d);
      assert a == [a[0]] + a[1..] && c == [c[0]] + c[1..];
    }
  }

  lemma {:induction false} LastNulSplits(a: string, b: string, c: string, d: string)
    requires '\0' !in b && '\0' !in d && a + "\0" + b == c + "\0" + d
    ensures a == c && b == d
  {
    var s, t := a + "\0" + b, c + "\0" + d;
    assert b != [] ==> s[|s| - 1] == b[|b| - 1] && b[|b| - 1] in b;
    assert d != [] ==> t[|t| - 1] == d[|d| - 1] && d[|d| - 1] in d;
    assert b == [] <==> d == [];
    if b == [] {
      assert s[..|s| - 1] == a && t[..|t| - 1] == c;
    } else {
      var b', d' := b[..|b| - 1], d[..|d| - 1];
      assert s[|s| - 1] == b[|b| - 1] && t[|t| - 1] == d[|d| - 1];
      assert s[..|s| - 1] == a + "\0" + b' && t[..|t| - 1] == c + "\0" + d';
      LastNulSplits(a, b', c, d');
      assert b == b' + [b[|b| - 1]] && d == d' + [d[|d| - 1]];
    }
  }

  /** Slot keys tell slots apart, as long as no root and no host contains a NUL. */
  lemma {:induction false} SlotKeysTellApart(a: Slot, b: Slot)
    requires a.NoNul() && b.NoNul()
    ensures a.SlotKey() == b.SlotKey() <==> a == b
    ensures a.Key() == b.Key() && a.host == b.host <==> a == b
  {
    if a.SlotKey() == b.SlotKey() {
      LastNulSplits(a.Key(), a.host, b.Key(), b.host);
    }
    if a.Key() == b.Key() {
      NulSplits(a.root, a.dbPath, b.root, b.dbPath);
    }
  }

  lemma {:induction false} FirstNul(s: string) returns (before: string, after: string)
    requires '\0' in s
    ensures s == before + "\0" + after && '\0' !in before
  {
    if s[0] == '\0' {
      before, after := "", s[1..];
    } else {
      var b;
      b, after := FirstNul(s[1..]);
      before := [s[0]] + b;
    }
  }

  lemma {:induction false} LastNul(s: string) returns (before: string, after: string)
    requires '\0' in s
    ensures s == before + "\0" + after && '\0' !in after
  {
    var n := |s| - 1;
    if s[n] == '\0' {
      before, after := s[..n], "";
    } else {
      var a;
      before, a := LastNul(s[..n]);
      after := a + [s[n]];
    }
  }

  /** A NUL in the root or the host always confuses: another slot, without one there, has the same key. */
  lemma {:induction false} NulConfuses(s: Slot) returns (t: Slot)
    requires !s.NoNul()
    ensures t.NoNul() && t != s && t.SlotKey() == s.SlotKey()
  {
    var root, rest := s.root, s.dbPath + "\0" + s.host;
    if '\0' in s.root {
      var r;
      root, r := FirstNul(s.root);
      rest := r + "\0" + rest;
    }
    assert s.SlotKey() == root + "\0" + rest;
    assert '\0' in rest by {
      assert rest[|rest| - |s.host| - 1] == '\0';
    }
    var dbPath, host := LastNul(rest);
    t := Slot(root, dbPath, host);
    assert t.SlotKey() == root + "\0" + (dbPath + "\0" + host);
  }

  lemma {:induction false} Compare(a: Slot, b: Slot)
    requires a.NoNul() && b.NoNul()
    ensures Less(a, b) || Less(b, a) || a == b
    ensures !(Less(a, b) && Less(b, a)) && !Less(a, a)
  {
    StringTrichotomy(a.Key(), b.Key());
    StringTrichotomy(a.host, b.host);
    StringTrichotomy(a.Key(), a.Key());
    StringTrichotomy(a.host, a.host);
    SlotKeysTellApart(a, b);
  }

  lemma {:induction false} LessIsTransitive(a: Slot, b: Slot, c: Slot)
    requires Less(a, b) && Less(b, c)
    ensures Less(a, c)
  {
    if LessString(a.Key(), b.Key()) && LessString(b.Key(), c.Key()) {
      StringTransitive(a.Key(), b.Key(), c.Key());
    } else if a.Key() == b.Key() == c.Key() && LessString(a.host, b.host) && LessString(b.host, c.host) {
      StringTransitive(a.host, b.host, c.host);
    } else {
      StringTrichotomy(a.Key(), a.Key());
      StringTrichotomy(c.Key(), c.Key());
    }
  }

  // ---- The plan ---------------------------------------------------------------------------------------

  predicate Planned(entries: seq<Input>, slotKey: string) {
    exists k :: 0 <= k < |entries| && entries[k].slot.SlotKey() == slotKey
  }

  /** The first input of each slot key, in the order of the inputs. */
  function Dedupe(inputs: seq<Input>): seq<Input> {
    if inputs == [] then []
    else
      var before, i := Dedupe(inputs[..|inputs| - 1]), inputs[|inputs| - 1];
      if Planned(before, i.slot.SlotKey()) then before else before + [i]
  }

  function Insert(sorted: seq<Input>, e: Input): seq<Input> {
    if sorted == [] || !Less(e.slot, sorted[|sorted| - 1].slot) then sorted + [e]
    else Insert(sorted[..|sorted| - 1], e) + [sorted[|sorted| - 1]]
  }

  function Sort(entries: seq<Input>): seq<Input> {
    if entries == [] then [] else Insert(Sort(entries[..|entries| - 1]), entries[|entries| - 1])
  }

  function Plan(inputs: seq<Input>): seq<Input> { Sort(Dedupe(inputs)) }

  method PlanOwnership(inputs: seq<Input>) returns (plan: seq<Input>)
    ensures plan == Plan(inputs)
  {
    var bySlot: map<string, Input>, inOrder: seq<Input> := map[], [];
    for n := 0 to |inputs|
      invariant inOrder == Dedupe(inputs[..n])
      invariant forall key :: key in bySlot <==> Planned(inOrder, key)
    {
      var i := inputs[n];
      assert inputs[..n + 1][..n] == inputs[..n];
      if i.slot.SlotKey() in bySlot {
        continue;
      }
      PlannedPush(inOrder, i);
      bySlot := bySlot[i.slot.SlotKey() := i];
      inOrder := inOrder + [i];
    }
    assert inputs[..|inputs|] == inputs;
    plan := [];
    for n := 0 to |inOrder|
      invariant plan == Sort(inOrder[..n])
    {
      assert inOrder[..n + 1][..n] == inOrder[..n];
      plan := Insert(plan, inOrder[n]);
    }
    assert inOrder[..|inOrder|] == inOrder;
  }

  lemma {:induction false} PlannedPush(entries: seq<Input>, e: Input)
    ensures forall key :: Planned(entries + [e], key) <==> Planned(entries, key) || e.slot.SlotKey() == key
  {
    var all := entries + [e];
    assert all[|entries|] == e;
    forall key | Planned(entries, key) ensures Planned(all, key) {
      var k :| 0 <= k < |entries| && entries[k].slot.SlotKey() == key;
      assert all[k] == entries[k];
    }
  }

  // ---- What the plan is -------------------------------------------------------------------------------

  predicate Clean(inputs: seq<Input>) { forall k :: 0 <= k < |inputs| ==> inputs[k].slot.NoNul() }

  function Slots(inputs: seq<Input>): seq<Slot> { seq(|inputs|, k requires 0 <= k < |inputs| => inputs[k].slot) }

  predicate StrictlySorted(slots: seq<Slot>) { forall j, k :: 0 <= j < k < |slots| ==> Less(slots[j], slots[k]) }

  predicate Distinct(slots: seq<Slot>) { forall j, k :: 0 <= j < k < |slots| ==> slots[j] != slots[k] }

  /** The first input of a slot. */
  function FirstOf(inputs: seq<Input>, s: Slot): Option<Input> {
    if inputs == [] then None
    else
      var first := FirstOf(inputs[..|inputs| - 1], s);
      if first.Some? then first
      else if inputs[|inputs| - 1].slot == s then Some(inputs[|inputs| - 1])
      else None
  }

  /** Deduplication keeps the first input of each slot, and nothing else. */
  lemma {:induction false} DedupeKeepsFirsts(inputs: seq<Input>, i: Input)
    requires Clean(inputs)
    ensures i in Dedupe(inputs) <==> FirstOf(inputs, i.slot) == Some(i)
    ensures Clean(Dedupe(inputs)) && Distinct(Slots(Dedupe(inputs)))
    ensures i.slot in Slots(Dedupe(inputs)) <==> FirstOf(inputs, i.slot).Some?
  {
    hide Planned;
    if inputs != [] {
      var prefix, last := inputs[..|inputs| - 1], inputs[|inputs| - 1];
      DedupeKeepsFirsts(prefix, i);
      DedupeKeepsFirsts(prefix, last);
      PlannedMeans(Dedupe(prefix), last.slot);
      FirstIsOfSlot(prefix, i.slot);
      if !Planned(Dedupe(prefix), last.slot.SlotKey()) {
        SlotsPush(Dedupe(prefix), last);
      }
    }
  }

  lemma {:induction false} SlotsPush(entries: seq<Input>, e: Input)
    ensures Slots(entries + [e]) == Slots(entries) + [e.slot]
  {
  }

  lemma {:induction false} PlannedMeans(entries: seq<Input>, s: Slot)
    requires Clean(entries) && s.NoNul()
    ensures Planned(entries, s.SlotKey()) <==> s in Slots(entries)
  {
    forall k | 0 <= k < |entries| ensures entries[k].slot.SlotKey() == s.SlotKey() <==> Slots(entries)[k] == s {
      SlotKeysTellApart(entries[k].slot, s);
    }
    if s in Slots(entries) {
      var k :| 0 <= k < |entries| && Slots(entries)[k] == s;
      assert entries[k].slot.SlotKey() == s.SlotKey();
    }
  }

  lemma {:induction false} FirstIsOfSlot(inputs: seq<Input>, s: Slot)
    ensures FirstOf(inputs, s).Some? ==> FirstOf(inputs, s).value.slot == s && FirstOf(inputs, s).value in inputs
    ensures FirstOf(inputs, s).Some? <==> s in Slots(inputs)
  {
    if inputs != [] {
      var prefix, last := inputs[..|inputs| - 1], inputs[|inputs| - 1];
      FirstIsOfSlot(prefix, s);
      SlotsPush(prefix, last);
      assert prefix + [last] == inputs;
    }
  }

  lemma {:induction false} InsertMeans(sorted: seq<Input>, e: Input)
    requires Clean(sorted) && e.slot.NoNul() && StrictlySorted(Slots(sorted)) && e.slot !in Slots(sorted)
    ensures StrictlySorted(Slots(Insert(sorted, e)))
    ensures forall x :: x in Insert(sorted, e) <==> x in sorted || x == e
  {
    hide Less;
    if sorted == [] {
      assert sorted + [e] == [e];
    } else {
      var rest, last := sorted[..|sorted| - 1], sorted[|sorted| - 1];
      assert Slots(sorted)[|sorted| - 1] == last.slot;
      Compare(last.slot, e.slot);
      if Less(e.slot, last.slot) {
        assert Slots(rest) == Slots(sorted)[..|sorted| - 1];
        InsertMeans(rest, e);
        AllBelow(Insert(rest, e), last, sorted, e);
      } else {
        assert Less(last.slot, e.slot);
        forall k | 0 <= k < |sorted| ensures Less(sorted[k].slot, e.slot) {
          if k < |sorted| - 1 {
            assert Less(Slots(sorted)[k], Slots(sorted)[|sorted| - 1]);
            LessIsTransitive(sorted[k].slot, last.slot, e.slot);
          }
        }
        SlotsPush(sorted, e);
      }
    }
  }

  lemma {:induction false} AllBelow(before: seq<Input>, last: Input, sorted: seq<Input>, e: Input)
    requires StrictlySorted(Slots(sorted)) && sorted != [] && last == sorted[|sorted| - 1] && Less(e.slot, last.slot)
    requires StrictlySorted(Slots(before)) && forall x :: x in before <==> x in sorted[..|sorted| - 1] || x == e
    ensures StrictlySorted(Slots(before + [last]))
  {
    hide Less;
    forall k | 0 <= k < |before| ensures Less(before[k].slot, last.slot) {
      assert before[k] in before;
      if before[k] != e {
        var j :| 0 <= j < |sorted| - 1 && sorted[..|sorted| - 1][j] == before[k];
        assert Less(Slots(sorted)[j], Slots(sorted)[|sorted| - 1]);
      }
    }
    SlotsPush(before, last);
  }

  lemma {:induction false} SortMeans(entries: seq<Input>)
    requires Clean(entries) && Distinct(Slots(entries))
    ensures StrictlySorted(Slots(Sort(entries)))
    ensures forall x :: x in Sort(entries) <==> x in entries
  {
    hide Less;
    if entries != [] {
      var rest, last := entries[..|entries| - 1], entries[|entries| - 1];
      assert Slots(rest) == Slots(entries)[..|entries| - 1];
      SortMeans(rest);
      SameElements(Sort(rest), rest);
      assert last.slot !in Slots(rest) by {
        assert Slots(entries)[|entries| - 1] == last.slot;
      }
      InsertMeans(Sort(rest), last);
    }
  }

  lemma {:induction false} SameElements(a: seq<Input>, b: seq<Input>)
    requires forall x :: x in a ==> x in b
    ensures Clean(b) ==> Clean(a)
    ensures forall s :: s in Slots(a) ==> s in Slots(b)
  {
    forall k | 0 <= k < |a| ensures a[k].slot in Slots(b) && (Clean(b) ==> a[k].slot.NoNul()) {
      assert a[k] in b;
      var j :| 0 <= j < |b| && b[j] == a[k];
      assert Slots(b)[j] == a[k].slot;
    }
  }

  /** The plan is strictly sorted by identity and host, and holds the first input of each slot, and nothing else. */
  lemma {:induction false} PlanMeans(inputs: seq<Input>, i: Input)
    requires Clean(inputs)
    ensures StrictlySorted(Slots(Plan(inputs)))
    ensures i in Plan(inputs) <==> FirstOf(inputs, i.slot) == Some(i)
    ensures i in Plan(inputs) <==> exists j :: 0 <= j < |inputs| && inputs[j] == i && Earliest(inputs, j)
  {
    DedupeKeepsFirsts(inputs, i);
    SortMeans(Dedupe(inputs));
    FirstMeans(inputs, i);
  }

  /** No input before this one is for the same repository, database and host. */
  predicate Earliest(inputs: seq<Input>, j: nat)
    requires j < |inputs|
  {
    forall h :: 0 <= h < j ==>
      var a, b := inputs[h].slot, inputs[j].slot;
      a.root != b.root || a.dbPath != b.dbPath || a.host != b.host
  }

  lemma {:induction false} FirstMeans(inputs: seq<Input>, i: Input)
    ensures FirstOf(inputs, i.slot) == Some(i) <==> exists j :: 0 <= j < |inputs| && inputs[j] == i && Earliest(inputs, j)
  {
    if inputs != [] {
      var n, prefix := |inputs| - 1, inputs[..|inputs| - 1];
      FirstMeans(prefix, i);
      FirstIsOfSlot(prefix, i.slot);
      if FirstOf(prefix, i.slot) == Some(i) {
        var j :| 0 <= j < n && prefix[j] == i && Earliest(prefix, j);
        assert Earliest(inputs, j);
      }
      if j :| 0 <= j < |inputs| && inputs[j] == i && Earliest(inputs, j) {
        assert j < n ==> prefix[j] == i && Earliest(prefix, j);
        assert j == n ==> i.slot !in Slots(prefix) by {
          assert forall h :: 0 <= h < n ==> Slots(prefix)[h] == inputs[h].slot;
        }
      }
      if FirstOf(prefix, i.slot).None? && inputs[n] == i {
        forall h | 0 <= h < n ensures inputs[h].slot != i.slot {
          assert Slots(prefix)[h] == inputs[h].slot;
        }
        assert Earliest(inputs, n);
      }
    }
  }

  /** Entries are ordered by root and database path, and by host where these are the same. */
  lemma {:induction false} PlanOrder(inputs: seq<Input>, j: nat, k: nat)
    requires Clean(inputs) && j < k < |Plan(inputs)|
    ensures var a, b := Plan(inputs)[j].slot, Plan(inputs)[k].slot;
      if a.root == b.root && a.dbPath == b.dbPath then exists n: nat :: PartsAt(a.host, b.host, n)
      else exists n: nat :: PartsAt(a.root + "\0" + a.dbPath, b.root + "\0" + b.dbPath, n)
  {
    var plan := Plan(inputs);
    var a, b := plan[j].slot, plan[k].slot;
    PlanMeans(inputs, plan[j]);
    PlanMeans(inputs, plan[k]);
    FirstIsOfSlot(inputs, a);
    FirstIsOfSlot(inputs, b);
    assert a.NoNul() && b.NoNul();
    assert Slots(plan)[j] == a && Slots(plan)[k] == b;
    SlotKeysTellApart(a, b);
    StringTrichotomy(a.Key(), a.Key());
    LessStringIff(a.Key(), b.Key());
    LessStringIff(a.host, b.host);
    if a.Key() == b.Key() {
      NulSplits(a.root, a.dbPath, b.root, b.dbPath);
    }
  }

  /** It has an entry for exactly the slots that are asked for. */
  lemma {:induction false} PlanHasSlots(inputs: seq<Input>, s: Slot)
    requires Clean(inputs)
    ensures s in Slots(Plan(inputs)) <==> s in Slots(inputs)
  {
    FirstIsOfSlot(inputs, s);
    if s in Slots(inputs) {
      var first := FirstOf(inputs, s).value;
      PlanMeans(inputs, first);
      var k :| 0 <= k < |Plan(inputs)| && Plan(inputs)[k] == first;
      assert Slots(Plan(inputs))[k] == s;
    }
    if s in Slots(Plan(inputs)) {
      var k :| 0 <= k < |Plan(inputs)| && Slots(Plan(inputs))[k] == s;
      PlanMeans(inputs, Plan(inputs)[k]);
    }
  }

  // ---- Determinism ------------------------------------------------------------------------------------

  predicate AllClean(slots: seq<Slot>) { forall k :: 0 <= k < |slots| ==> slots[k].NoNul() }

  lemma {:induction false} SameLast(p: seq<Slot>, q: seq<Slot>)
    requires StrictlySorted(p) && StrictlySorted(q) && AllClean(p) && p != [] && q != []
    requires forall s :: s in p <==> s in q
    ensures p[|p| - 1] == q[|q| - 1]
  {
    hide Less;
    var x, y := p[|p| - 1], q[|q| - 1];
    assert x in p && y in q;
    assert y in p;
    Compare(x, y);
  }

  lemma {:induction false} LastApart(p: seq<Slot>, s: Slot)
    requires StrictlySorted(p) && AllClean(p) && p != []
    ensures s in p[..|p| - 1] <==> s in p && s != p[|p| - 1]
  {
    hide Less;
    Compare(p[|p| - 1], p[|p| - 1]);
  }

  lemma {:induction false} SortedIsUnique(p: seq<Slot>, q: seq<Slot>)
    requires StrictlySorted(p) && StrictlySorted(q) && AllClean(p) && AllClean(q) && forall s :: s in p <==> s in q
    ensures p == q
  {
    hide Less;
    assert p != [] ==> p[0] in p && p[0] in q;
    assert q != [] ==> q[0] in q && q[0] in p;
    if p != [] {
      SameLast(p, q);
      var p', q' := p[..|p| - 1], q[..|q| - 1];
      forall s ensures s in p' <==> s in q' {
        LastApart(p, s);
        LastApart(q, s);
      }
      SortedIsUnique(p', q');
      assert p == p' + [p[|p| - 1]] && q == q' + [q[|q| - 1]];
    }
  }

  lemma {:induction false} PlanIsClean(inputs: seq<Input>)
    requires Clean(inputs)
    ensures AllClean(Slots(Plan(inputs)))
  {
    forall k | 0 <= k < |Plan(inputs)| ensures Slots(Plan(inputs))[k].NoNul() {
      PlanHasSlots(inputs, Slots(Plan(inputs))[k]);
      var j :| 0 <= j < |inputs| && Slots(inputs)[j] == Slots(Plan(inputs))[k];
    }
  }

  /** The slots of the plan, and their order, depend only on which slots are asked for, not on the order of the inputs or
      on how often a slot comes up. */
  lemma {:induction false} PlanIsDeterministic(a: seq<Input>, b: seq<Input>)
    requires Clean(a) && Clean(b) && forall s :: s in Slots(a) <==> s in Slots(b)
    ensures Slots(Plan(a)) == Slots(Plan(b))
  {
    forall s ensures s in Slots(Plan(a)) <==> s in Slots(Plan(b)) {
      PlanHasSlots(a, s);
      PlanHasSlots(b, s);
    }
    var any := Input("", Slot("", "", ""));
    PlanMeans(a, any);
    PlanMeans(b, any);
    PlanIsClean(a);
    PlanIsClean(b);
    SortedIsUnique(Slots(Plan(a)), Slots(Plan(b)));
  }

  /** All inputs of a slot spell their repository alike. */
  predicate Agree(inputs: seq<Input>) {
    forall i, j :: i in inputs && j in inputs && i.slot == j.slot ==> i == j
  }

  /** If they do, the whole plan is the same whatever the order; */
  lemma {:induction false} AgreedPlan(a: seq<Input>, b: seq<Input>)
    requires Clean(a) && Agree(a) && multiset(a) == multiset(b)
    ensures Plan(a) == Plan(b)
  {
    forall x ensures x in a <==> x in b {
      assert x in a <==> x in multiset(a);
      assert x in b <==> x in multiset(b);
    }
    SameElements(a, b);
    SameElements(b, a);
    PlanIsDeterministic(a, b);
    var p, q := Plan(a), Plan(b);
    assert |p| == |Slots(p)| == |Slots(q)| == |q|;
    forall k | 0 <= k < |p| ensures p[k] == q[k] {
      FromInputs(a, k);
      FromInputs(b, k);
      assert Slots(p)[k] == Slots(q)[k];
    }
  }

  lemma {:induction false} FromInputs(inputs: seq<Input>, k: nat)
    requires Clean(inputs) && k < |Plan(inputs)|
    ensures Plan(inputs)[k] in inputs
  {
    PlanMeans(inputs, Plan(inputs)[k]);
    FirstIsOfSlot(inputs, Plan(inputs)[k].slot);
  }

  /** if they do not, some other order of the same inputs is planned differently: the first spelling wins. */
  lemma {:induction false} DisagreedPlan(inputs: seq<Input>) returns (a: seq<Input>, b: seq<Input>)
    requires Clean(inputs) && !Agree(inputs)
    ensures multiset(a) == multiset(b) == multiset(inputs) && Plan(a) != Plan(b)
  {
    var i, j :| i in inputs && j in inputs && i.slot == j.slot && i != j;
    a := ToFront(inputs, i);
    b := ToFront(inputs, j);
    PlanMeans(a, i);
    PlanMeans(b, i);
    HeadIsFirst(a);
    HeadIsFirst(b);
  }

  lemma {:induction false} HeadIsFirst(inputs: seq<Input>)
    requires inputs != []
    ensures FirstOf(inputs, inputs[0].slot) == Some(inputs[0])
  {
    if |inputs| > 1 {
      HeadIsFirst(inputs[..|inputs| - 1]);
    } else {
      assert inputs[..0] == [];
    }
  }

  lemma {:induction false} ToFront(inputs: seq<Input>, i: Input) returns (r: seq<Input>)
    requires i in inputs && Clean(inputs)
    ensures multiset(r) == multiset(inputs) && r != [] && r[0] == i && Clean(r)
  {
    var j :| 0 <= j < |inputs| && inputs[j] == i;
    assert inputs == inputs[..j] + [i] + inputs[j + 1..];
    r := [i] + inputs[..j] + inputs[j + 1..];
    SameElements(r, inputs);
  }
}
