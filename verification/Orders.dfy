/** Dictionary orders, and sequences kept strictly ascending in them. */
module Orders {
  predicate LessString(a: string, b: string) {
    b != [] && (a == [] || a[0] < b[0] || (a[0] == b[0] && LessString(a[1..], b[1..])))
  }

  lemma {:induction false} StringTrichotomy(a: string, b: string)
    ensures LessString(a, b) || a == b || LessString(b, a)
    ensures !(LessString(a, b) && LessString(b, a)) && !LessString(a, a)
  {
    if a != [] {
      StringTrichotomy(a[1..], a[1..]);
      if b != [] && a[0] == b[0] {
        StringTrichotomy(a[1..], b[1..]);
        assert a == [a[0]] + a[1..] && b == [b[0]] + b[1..];
      }
    }
  }

  lemma {:induction false} StringTransitive(a: string, b: string, c: string)
    requires LessString(a, b) && LessString(b, c)
    ensures LessString(a, c)
  {
    if a != [] && a[0] == b[0] == c[0] {
      StringTransitive(a[1..], b[1..], c[1..]);
    }
  }

  /** After n characters that are the same, the first string ends or has the smaller character. */
  predicate PartsAt(a: string, b: string, n: nat) {
    && n <= |a| && n < |b| && a[..n] == b[..n]
    && (n < |a| ==> a[n] < b[n])
  }

  /** What the order is: two strings are compared where they first differ, and a beginning comes before the whole. */
  lemma {:induction false} LessStringIff(a: string, b: string)
    ensures LessString(a, b) <==> exists n: nat :: PartsAt(a, b, n)
  {
    if a == [] || b == [] || a[0] != b[0] {
      assert LessString(a, b) ==> PartsAt(a, b, 0);
      assert forall n: nat :: PartsAt(a, b, n) && n > 0 ==> a[..n][0] == b[..n][0];
    } else {
      LessStringIff(a[1..], b[1..]);
      if n: nat :| PartsAt(a[1..], b[1..], n) {
        SameBeginning(a, b, n + 1);
        assert PartsAt(a, b, n + 1);
      }
      if n: nat :| PartsAt(a, b, n) {
        SameBeginning(a, b, n);
        assert PartsAt(a[1..], b[1..], n - 1);
      }
    }
  }

  lemma {:induction false} SameBeginning<T>(a: seq<T>, b: seq<T>, n: nat)
    requires 0 < n <= |a| && n <= |b|
    ensures a[..n] == b[..n] <==> a[0] == b[0] && a[1..][..n - 1] == b[1..][..n - 1]
  {
    assert a[..n] == [a[0]] + a[1..][..n - 1] && b[..n] == [b[0]] + b[1..][..n - 1];
  }

  /** Paths as their components, compared component by component. */
  type Path = seq<string>

  predicate LessPath(a: Path, b: Path) {
    b != [] && (a == [] || LessString(a[0], b[0]) || (a[0] == b[0] && LessPath(a[1..], b[1..])))
  }

  lemma {:induction false} PathTrichotomy(a: Path, b: Path)
    ensures LessPath(a, b) || a == b || LessPath(b, a)
    ensures !(LessPath(a, b) && LessPath(b, a)) && !LessPath(a, a)
  {
    if a != [] {
      StringTrichotomy(a[0], a[0]);
      PathTrichotomy(a[1..], a[1..]);
      if b != [] {
        StringTrichotomy(a[0], b[0]);
        if a[0] == b[0] {
          PathTrichotomy(a[1..], b[1..]);
          assert a == [a[0]] + a[1..] && b == [b[0]] + b[1..];
        }
      }
    }
  }

  lemma {:induction false} PathTransitive(a: Path, b: Path, c: Path)
    requires LessPath(a, b) && LessPath(b, c)
    ensures LessPath(a, c)
  {
    if a != [] {
      StringTrichotomy(a[0], b[0]);
      StringTrichotomy(b[0], c[0]);
      if a[0] == b[0] == c[0] {
        PathTransitive(a[1..], b[1..], c[1..]);
      } else if LessString(a[0], b[0]) && LessString(b[0], c[0]) {
        StringTransitive(a[0], b[0], c[0]);
      }
    }
  }

  /** After n components that are the same, the first path ends or has the smaller component. */
  predicate PathsPartAt(a: Path, b: Path, n: nat) {
    && n <= |a| && n < |b| && a[..n] == b[..n]
    && (n < |a| ==> LessString(a[n], b[n]))
  }

  lemma {:induction false} LessPathIff(a: Path, b: Path)
    ensures LessPath(a, b) <==> exists n: nat :: PathsPartAt(a, b, n)
  {
    hide LessString;
    if a == [] || b == [] || a[0] != b[0] {
      assert LessPath(a, b) ==> PathsPartAt(a, b, 0);
      assert forall n: nat :: PathsPartAt(a, b, n) && n > 0 ==> a[..n][0] == b[..n][0];
    } else {
      StringTrichotomy(a[0], b[0]);
      LessPathIff(a[1..], b[1..]);
      if n: nat :| PathsPartAt(a[1..], b[1..], n) {
        SameBeginning(a, b, n + 1);
        assert PathsPartAt(a, b, n + 1);
      }
      if n: nat :| PathsPartAt(a, b, n) {
        SameBeginning(a, b, n);
        assert PathsPartAt(a[1..], b[1..], n - 1);
      }
    }
  }

  predicate Ascending(ps: seq<Path>) {
    forall i, j :: 0 <= i < j < |ps| ==> LessPath(ps[i], ps[j])
  }

  /** A sorted set gains an element. */
  function Insert(ps: seq<Path>, p: Path): seq<Path> {
    if ps == [] || LessPath(ps[|ps| - 1], p) then ps + [p]
    else if ps[|ps| - 1] == p then ps
    else Insert(ps[..|ps| - 1], p) + [ps[|ps| - 1]]
  }

  lemma {:induction false} InsertMeans(ps: seq<Path>, p: Path)
    requires Ascending(ps)
    ensures Ascending(Insert(ps, p))
    ensures forall x :: x in Insert(ps, p) <==> x in ps || x == p
  {
    if ps != [] {
      var last := ps[|ps| - 1];
      PathTrichotomy(last, p);
      if LessPath(last, p) {
        forall i | 0 <= i < |ps| ensures LessPath(ps[i], p) {
          if i < |ps| - 1 { PathTransitive(ps[i], last, p); }
        }
      } else if last != p {
        var before := Insert(ps[..|ps| - 1], p);
        InsertMeans(ps[..|ps| - 1], p);
        forall i | 0 <= i < |before| ensures LessPath(before[i], last) {
          assert before[i] in before;
        }
      }
    }
  }
}
