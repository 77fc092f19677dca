/** The asymptotic growth classes of crates/cognis-core/src/complexity.rs, their
    sequential composition (a maximum) and their nested composition (a product),
    and what holds of whole trees built from the two. */
module Complexity {

  type u8 = x: int | 0 <= x < 256

  datatype ComplexityClass =
    | Constant
    | Logarithmic(power: u8)
    | Sqrt
    | Polynomial(degree: u8, logPower: u8)
    | Exponential(baseCalls: u8)
    | Factorial
  {
    /** The effective degree in twentieths, so that 0.25 is 5 and 0.1 is 2. */
    function EffectiveDegree(): nat {
      match this
      case Constant => 0
      case Logarithmic(p) => 5 * p
      case Sqrt => 10
      case Polynomial(d, p) => 20 * d + 5 * p
      case Exponential(b) => 160 + 2 * Max(b, 2)
      case Factorial => 200
    }

    function SeqMax(other: ComplexityClass): ComplexityClass {
      if EffectiveDegree() >= other.EffectiveDegree() then this else other
    }

    function NestMul(other: ComplexityClass): ComplexityClass {
      match (this, other)
      case (Constant, x) => x
      case (x, Constant) => x
      case (Factorial, _) => Factorial
      case (_, Factorial) => Factorial
      case (Exponential(b1), Exponential(b2)) => Exponential(Max(SatMul(b1, b2), 2))
      case (Exponential(b), _) => Exponential(b)
      case (_, Exponential(b)) => Exponential(b)
      case (Logarithmic(p1), Logarithmic(p2)) => Logarithmic(SatAdd(p1, p2))
      case (Sqrt, Sqrt) => Polynomial(1, 0)
      case (Sqrt, Logarithmic(p)) => Polynomial(1, p)
      case (Logarithmic(p), Sqrt) => Polynomial(1, p)
      case (Sqrt, Polynomial(d, p)) => Polynomial(SatAdd(d, 1), p)
      case (Polynomial(d, p), Sqrt) => Polynomial(SatAdd(d, 1), p)
      case (Polynomial(d, p), Logarithmic(q)) => Polynomial(d, SatAdd(p, q))
      case (Logarithmic(q), Polynomial(d, p)) => Polynomial(d, SatAdd(p, q))
      case (Polynomial(d1, p1), Polynomial(d2, p2)) => Polynomial(SatAdd(d1, d2), SatAdd(p1, p2))
    }

    /** The exponent of n, and the exponent of log n. */
    function Degree(): u8 { if Polynomial? then degree else 0 }

    function LogPower(): u8 {
      if Polynomial? then logPower else if Logarithmic? then power else 0
    }

    /** Constants, powers of log n, and powers of n times powers of log n. */
    predicate PolyLog() { Constant? || Logarithmic? || Polynomial? }

    predicate SubExponential() { !Exponential? && !Factorial? }
  }

  function Max(a: int, b: int): int { if a >= b then a else b }

  function SatAdd(a: u8, b: u8): u8 { if a + b > 255 then 255 else a + b }

  function SatMul(a: u8, b: u8): u8 {
    ProductNonNegative(a, b);
    if a * b > 255 then 255 else a * b
  }

  lemma {:induction false} ProductNonNegative(a: nat, b: nat)
    ensures 0 <= a * b
  {
  }

  /** A program shape: single cost classes composed one after the other or one inside the other. */
  datatype Shape =
    | Leaf(cost: ComplexityClass)
    | Then(first: Shape, second: Shape)
    | Inside(outer: Shape, inner: Shape)

  /** The class the engine computes, bottom up. */
  function Eval(t: Shape): ComplexityClass {
    match t
    case Leaf(c) => c
    case Then(a, b) => Eval(a).SeqMax(Eval(b))
    case Inside(a, b) => Eval(a).NestMul(Eval(b))
  }

  /** Every product of one leaf choice per sequential branch, left to right. */
  function Expand(t: Shape): (r: seq<ComplexityClass>)
    ensures |r| > 0
  {
    match t
    case Leaf(c) => [c]
    case Then(a, b) => Expand(a) + Expand(b)
    case Inside(a, b) => Products(Expand(a), Expand(b))
  }

  function Products(xs: seq<ComplexityClass>, ys: seq<ComplexityClass>): (r: seq<ComplexityClass>)
    ensures xs != [] && ys != [] ==> r != []
  {
    if xs == [] then [] else Row(xs[0], ys) + Products(xs[1..], ys)
  }

  function Row(x: ComplexityClass, ys: seq<ComplexityClass>): (r: seq<ComplexityClass>)
    ensures |r| == |ys|
  {
    seq(|ys|, i requires 0 <= i < |ys| => x.NestMul(ys[i]))
  }

  // ---- One nesting ------------------------------------------------------------------------------------

  /** A power of log n or of n: what absorbs a square root by gaining a whole degree. */
  predicate Absorbs(c: ComplexityClass) { c.Logarithmic? || c.Polynomial? }

  predicate Gains(a: ComplexityClass, b: ComplexityClass) {
    (a.Sqrt? && Absorbs(b)) || (b.Sqrt? && Absorbs(a))
  }

  /** No exponent of the product is cut off at what a byte holds. */
  predicate NoClamp(a: ComplexityClass, b: ComplexityClass) {
    && a.Degree() + b.Degree() + (if (a.Sqrt? && b.Polynomial?) || (b.Sqrt? && a.Polynomial?) then 1 else 0) <= 255
    && a.LogPower() + b.LogPower() <= 255
  }

  /** The exact law of one nesting: degrees add, a square root that is absorbed gains one half, and cutting an exponent off
      loses something. */
  lemma {:induction false} NestLaw(a: ComplexityClass, b: ComplexityClass)
    requires a.SubExponential() && b.SubExponential()
    ensures a.NestMul(b).SubExponential()
    ensures var sum := a.EffectiveDegree() + b.EffectiveDegree() + if Gains(a, b) then 10 else 0;
      a.NestMul(b).EffectiveDegree() <= sum && (a.NestMul(b).EffectiveDegree() == sum <==> NoClamp(a, b))
  {
    if a.Sqrt? {
      SqrtLaw(b);
    } else if b.Sqrt? {
      SqrtLaw(a);
    } else {
      PolyLogLaw(a, b);
    }
  }

  lemma {:induction false} SqrtLaw(b: ComplexityClass)
    requires b.SubExponential()
    ensures Sqrt.NestMul(b) == b.NestMul(Sqrt) && Sqrt.NestMul(b).SubExponential()
    ensures var sum := 10 + b.EffectiveDegree() + if Absorbs(b) then 10 else 0;
      && Sqrt.NestMul(b).EffectiveDegree() <= sum
      && (Sqrt.NestMul(b).EffectiveDegree() == sum <==> NoClamp(Sqrt, b))
      && (NoClamp(Sqrt, b) <==> NoClamp(b, Sqrt))
  {
  }

  lemma {:induction false} PolyLogLaw(a: ComplexityClass, b: ComplexityClass)
    requires a.PolyLog() && b.PolyLog()
    ensures a.NestMul(b).PolyLog()
    ensures var sum := a.EffectiveDegree() + b.EffectiveDegree();
      a.NestMul(b).EffectiveDegree() <= sum && (a.NestMul(b).EffectiveDegree() == sum <==> NoClamp(a, b))
  {
  }

  /** The exponent of n in halves. */
  function Halves(c: ComplexityClass): nat { if c.Sqrt? then 1 else 2 * c.Degree() }

  /** Which kind of class a nesting is, and with which exponents. Each exponent is the sum of both sides', but a square root
      that is absorbed counts as a whole degree. */
  lemma {:induction false} NestingMeans(a: ComplexityClass, b: ComplexityClass)
    ensures var c := a.NestMul(b);
      && (c.Factorial? <==> a.Factorial? || b.Factorial?)
      && (c.Exponential? <==> (a.Exponential? || b.Exponential?) && !a.Factorial? && !b.Factorial?)
      && (c.Exponential? ==> c.baseCalls == Base(a, b))
      && (c.SubExponential() ==>
            && (c.Constant? <==> a.Constant? && b.Constant?)
            && (c.Sqrt? <==> (a.Sqrt? && b.Constant?) || (b.Sqrt? && a.Constant?))
            && (c.Polynomial? <==> a.Polynomial? || b.Polynomial? || (a.Sqrt? && b != Constant) || (b.Sqrt? && a != Constant))
            && Halves(c) == Min(510, Halves(a) + Halves(b) + if Gains(a, b) then 1 else 0)
            && c.LogPower() == Min(255, a.LogPower() + b.LogPower()))
  {
  }

  /** The base of a nesting with an exponential: bases multiply, within a byte and to at least two. */
  function Base(a: ComplexityClass, b: ComplexityClass): int {
    match (a, b)
    case (Exponential(x), Exponential(y)) => Max(2, Min(255, x * y))
    case (Exponential(x), _) => x
    case (_, Exponential(y)) => y
    case _ => 0
  }

  function Min(a: int, b: int): int { if a <= b then a else b }

  // ---- Distribution -----------------------------------------------------------------------------------

  /** Position k holds the leftmost of the elements of greatest effective degree. */
  predicate LeftmostGreatest(s: seq<ComplexityClass>, k: nat) {
    && k < |s|
    && (forall i :: 0 <= i < |s| ==> s[i].EffectiveDegree() <= s[k].EffectiveDegree())
    && (forall i :: 0 <= i < k ==> s[i].EffectiveDegree() < s[k].EffectiveDegree())
  }

  predicate PolyLogShape(t: Shape) {
    match t
    case Leaf(c) => c.PolyLog()
    case Then(a, b) => PolyLogShape(a) && PolyLogShape(b)
    case Inside(a, b) => PolyLogShape(a) && PolyLogShape(b)
  }

  lemma {:induction false} LeftmostOfSum(xs: seq<ComplexityClass>, i: nat, ys: seq<ComplexityClass>, j: nat)
    requires LeftmostGreatest(xs, i) && LeftmostGreatest(ys, j)
    ensures xs[i].EffectiveDegree() >= ys[j].EffectiveDegree() ==> LeftmostGreatest(xs + ys, i)
    ensures xs[i].EffectiveDegree() < ys[j].EffectiveDegree() ==> LeftmostGreatest(xs + ys, |xs| + j)
  {
    var s := xs + ys;
    assert forall k :: 0 <= k < |s| ==> s[k] == if k < |xs| then xs[k] else ys[k - |xs|];
  }

  predicate AllPolyLog(s: seq<ComplexityClass>) { forall i :: 0 <= i < |s| ==> s[i].PolyLog() }

  /** Where the products stand: those of each left factor together, in the order of the right factors. */
  lemma {:induction false} ProductAt(xs: seq<ComplexityClass>, ys: seq<ComplexityClass>, p: nat) returns (a: nat, b: nat)
    requires p < |Products(xs, ys)|
    ensures a < |xs| && b < |ys| && p == a * |ys| + b && Products(xs, ys)[p] == xs[a].NestMul(ys[b])
  {
    if p < |ys| {
      a, b := 0, p;
    } else {
      a, b := ProductAt(xs[1..], ys, p - |ys|);
      assert (a + 1) * |ys| == a * |ys| + |ys|;
      a := a + 1;
    }
  }

  lemma {:induction false} ProductsLength(xs: seq<ComplexityClass>, ys: seq<ComplexityClass>)
    ensures |Products(xs, ys)| == |xs| * |ys|
  {
    if xs != [] {
      ProductsLength(xs[1..], ys);
      assert |xs| * |ys| == (|xs| - 1) * |ys| + |ys|;
    }
  }

  /** Positions are in the order of the factors. */
  lemma {:induction false} Places(a: nat, b: nat, i: nat, j: nat, n: nat)
    requires b < n && j < n
    ensures a < i ==> a * n + b < i * n + j
    ensures a > i ==> a * n + b > i * n + j
  {
    if a < i {
      Multiples(a, i, n);
    } else if a > i {
      Multiples(i, a, n);
    }
  }

  lemma {:induction false} Multiples(a: nat, i: nat, n: nat)
    requires a < i
    ensures a * n + n <= i * n
  {
    assert i * n == (i - 1) * n + n;
    if a + 1 < i {
      Multiples(a, i - 1, n);
    }
  }

  /** The product of the leftmost greatest factors, unless it is itself cut off, is the leftmost greatest product. */
  lemma {:induction false} LeftmostOfProducts(xs: seq<ComplexityClass>, i: nat, ys: seq<ComplexityClass>, j: nat)
    returns (k: nat)
    requires AllPolyLog(xs) && AllPolyLog(ys) && LeftmostGreatest(xs, i) && LeftmostGreatest(ys, j)
    requires NoClamp(xs[i], ys[j])
    ensures LeftmostGreatest(Products(xs, ys), k) && Products(xs, ys)[k] == xs[i].NestMul(ys[j])
  {
    var products, n := Products(xs, ys), |ys|;
    k := i * n + j;
    ProductsLength(xs, ys);
    Places(i, j, |xs| - 1, n - 1, n);
    assert |xs| * n == (|xs| - 1) * n + n;
    var a, b := ProductAt(xs, ys, k);
    Places(a, b, i, j, n);
    assert a == i && b == j;
    hide Products, AllPolyLog, NoClamp, ComplexityClass.EffectiveDegree, ComplexityClass.NestMul;
    forall p | 0 <= p < |products|
      ensures products[p].EffectiveDegree() <= products[k].EffectiveDegree()
      ensures p < k ==> products[p].EffectiveDegree() < products[k].EffectiveDegree()
    {
      var a, b := ProductAt(xs, ys, p);
      Places(a, b, i, j, n);
      PairBelow(xs, i, ys, j, a, b);
    }
  }

  lemma {:induction false} PairBelow(xs: seq<ComplexityClass>, i: nat, ys: seq<ComplexityClass>, j: nat, a: nat, b: nat)
    requires AllPolyLog(xs) && AllPolyLog(ys) && LeftmostGreatest(xs, i) && LeftmostGreatest(ys, j)
    requires NoClamp(xs[i], ys[j]) && a < |xs| && b < |ys|
    ensures xs[a].NestMul(ys[b]).EffectiveDegree() <= xs[i].NestMul(ys[j]).EffectiveDegree()
    ensures a < i || (a == i && b < j) ==>
      xs[a].NestMul(ys[b]).EffectiveDegree() < xs[i].NestMul(ys[j]).EffectiveDegree()
  {
    PolyLogLaw(xs[i], ys[j]);
    PolyLogLaw(xs[a], ys[b]);
    hide NoClamp, ComplexityClass.EffectiveDegree, ComplexityClass.NestMul;
  }

  lemma {:induction false} LeftmostWithin(s: seq<ComplexityClass>, k: nat)
    requires LeftmostGreatest(s, k)
    ensures k < |s|
  {
  }

  lemma {:induction false} ProductsPolyLog(xs: seq<ComplexityClass>, ys: seq<ComplexityClass>)
    requires AllPolyLog(xs) && AllPolyLog(ys)
    ensures AllPolyLog(Products(xs, ys))
  {
    forall p | 0 <= p < |Products(xs, ys)| ensures Products(xs, ys)[p].PolyLog() {
      var a, b := ProductAt(xs, ys, p);
      PolyLogLaw(xs[a], ys[b]);
    }
  }

  lemma {:induction false} ExpandPolyLog(t: Shape)
    requires PolyLogShape(t)
    ensures AllPolyLog(Expand(t))
  {
    match t
    case Leaf(_) =>
    case Then(a, b) =>
      ExpandPolyLog(a);
      ExpandPolyLog(b);
    case Inside(a, b) =>
      ExpandPolyLog(a);
      ExpandPolyLog(b);
      ProductsPolyLog(Expand(a), Expand(b));
  }

  /** No exponent is cut off anywhere in the evaluation. */
  predicate Unclamped(t: Shape) {
    match t
    case Leaf(_) => true
    case Then(a, b) => Unclamped(a) && Unclamped(b)
    case Inside(a, b) => Unclamped(a) && Unclamped(b) && NoClamp(Eval(a), Eval(b))
  }

  predicate SubExponentialShape(t: Shape) {
    match t
    case Leaf(c) => c.SubExponential()
    case Then(a, b) => SubExponentialShape(a) && SubExponentialShape(b)
    case Inside(a, b) => SubExponentialShape(a) && SubExponentialShape(b)
  }

  /** The greatest exponents that any product of leaf choices can reach; a square root may come to count as a whole
      degree. */
  function Reach(c: ComplexityClass): nat { c.Degree() + if c.Sqrt? then 1 else 0 }

  function TopDegree(t: Shape): nat {
    match t
    case Leaf(c) => Reach(c)
    case Then(a, b) => Max(TopDegree(a), TopDegree(b))
    case Inside(a, b) => TopDegree(a) + TopDegree(b)
  }

  function TopLogPower(t: Shape): nat {
    match t
    case Leaf(c) => c.LogPower()
    case Then(a, b) => Max(TopLogPower(a), TopLogPower(b))
    case Inside(a, b) => TopLogPower(a) + TopLogPower(b)
  }

  lemma {:induction false} NestReach(a: ComplexityClass, b: ComplexityClass)
    requires a.SubExponential() && b.SubExponential()
    ensures Reach(a.NestMul(b)) <= Reach(a) + Reach(b) && a.NestMul(b).LogPower() <= a.LogPower() + b.LogPower()
    ensures Reach(a) + Reach(b) <= 255 && a.LogPower() + b.LogPower() <= 255 ==> NoClamp(a, b)
  {
  }

  /** Nothing is cut off in a tree whose leaves cannot reach beyond a byte. */
  lemma {:induction false} SmallTreesAreUnclamped(t: Shape)
    requires SubExponentialShape(t)
    ensures Eval(t).SubExponential() && Reach(Eval(t)) <= TopDegree(t) && Eval(t).LogPower() <= TopLogPower(t)
    ensures TopDegree(t) <= 255 && TopLogPower(t) <= 255 ==> Unclamped(t)
  {
    match t
    case Leaf(_) =>
    case Then(a, b) =>
      SmallTreesAreUnclamped(a);
      SmallTreesAreUnclamped(b);
    case Inside(a, b) =>
      SmallTreesAreUnclamped(a);
      SmallTreesAreUnclamped(b);
      NestLaw(Eval(a), Eval(b));
      NestReach(Eval(a), Eval(b));
      hide NoClamp, Reach, ComplexityClass.NestMul, ComplexityClass.EffectiveDegree;
  }

  /** Bottom-up evaluation of a tree over constants, logarithms and polynomials, as long as it cuts nothing off itself,
      picks among all products of leaf choices the leftmost one of greatest effective degree. */
  lemma {:induction false} EvalIsLeftmostGreatestProduct(t: Shape) returns (k: nat)
    requires PolyLogShape(t) && Unclamped(t)
    ensures LeftmostGreatest(Expand(t), k) && Expand(t)[k] == Eval(t)
  {
    match t
    case Leaf(_) =>
      k := 0;
    case Then(a, b) =>
      hide LeftmostGreatest, ComplexityClass.EffectiveDegree, ComplexityClass.NestMul;
      var i := EvalIsLeftmostGreatestProduct(a);
      var j := EvalIsLeftmostGreatestProduct(b);
      LeftmostWithin(Expand(a), i);
      LeftmostWithin(Expand(b), j);
      LeftmostOfSum(Expand(a), i, Expand(b), j);
      k := if Eval(a).EffectiveDegree() >= Eval(b).EffectiveDegree() then i else |Expand(a)| + j;
    case Inside(a, b) =>
      hide LeftmostGreatest, NoClamp, ComplexityClass.EffectiveDegree, ComplexityClass.NestMul;
      var i := EvalIsLeftmostGreatestProduct(a);
      var j := EvalIsLeftmostGreatestProduct(b);
      ExpandPolyLog(a);
      ExpandPolyLog(b);
      k := LeftmostOfProducts(Expand(a), i, Expand(b), j);
  }

  // ---- Trees of nestings only -------------------------------------------------------------------------

  predicate NestingOnly(t: Shape) {
    match t
    case Leaf(_) => true
    case Then(_, _) => false
    case Inside(a, b) => NestingOnly(a) && NestingOnly(b)
  }

  function Leaves(t: Shape): seq<ComplexityClass> {
    match t
    case Leaf(c) => [c]
    case Then(a, b) => Leaves(a) + Leaves(b)
    case Inside(a, b) => Leaves(a) + Leaves(b)
  }

  /** What a product of polylogarithmic factors depends on: which kinds occur, and the sums of the exponents. */
  predicate AnyPolynomial(s: seq<ComplexityClass>) { s != [] && (s[0].Polynomial? || AnyPolynomial(s[1..])) }

  predicate AnyLogarithm(s: seq<ComplexityClass>) { s != [] && (s[0].Logarithmic? || AnyLogarithm(s[1..])) }

  function SumDegree(s: seq<ComplexityClass>): nat { if s == [] then 0 else s[0].Degree() + SumDegree(s[1..]) }

  function SumLogPower(s: seq<ComplexityClass>): nat { if s == [] then 0 else s[0].LogPower() + SumLogPower(s[1..]) }

  function Clamp(x: nat): u8 { if x > 255 then 255 else x }

  function ClassOf(anyPolynomial: bool, anyLogarithm: bool, degree: nat, logPower: nat): ComplexityClass {
    if anyPolynomial then Polynomial(Clamp(degree), Clamp(logPower))
    else if anyLogarithm then Logarithmic(Clamp(logPower))
    else Constant
  }

  function Product(s: seq<ComplexityClass>): ComplexityClass {
    ClassOf(AnyPolynomial(s), AnyLogarithm(s), SumDegree(s), SumLogPower(s))
  }

  lemma {:induction false} TallyConcat(s: seq<ComplexityClass>, t: seq<ComplexityClass>)
    ensures AnyPolynomial(s + t) == (AnyPolynomial(s) || AnyPolynomial(t))
    ensures AnyLogarithm(s + t) == (AnyLogarithm(s) || AnyLogarithm(t))
    ensures SumDegree(s + t) == SumDegree(s) + SumDegree(t)
    ensures SumLogPower(s + t) == SumLogPower(s) + SumLogPower(t)
  {
    if s == [] {
      assert s + t == t;
    } else {
      assert (s + t)[1..] == s[1..] + t;
      TallyConcat(s[1..], t);
    }
  }

  lemma {:induction false} TallyPermuted(s: seq<ComplexityClass>, t: seq<ComplexityClass>)
    requires multiset(s) == multiset(t)
    ensures AnyPolynomial(s) == AnyPolynomial(t) && AnyLogarithm(s) == AnyLogarithm(t)
    ensures SumDegree(s) == SumDegree(t) && SumLogPower(s) == SumLogPower(t)
  {
    hide AnyPolynomial, AnyLogarithm, SumDegree, SumLogPower;
    if s == [] {
      assert |multiset(t)| == 0;
      assert t == [];
    } else {
      assert s[0] in multiset(t);
      var i :| 0 <= i < |t| && t[i] == s[0];
      TallyWithout(s, 0);
      TallyWithout(t, i);
      TallyPermuted(s[..0] + s[1..], t[..i] + t[i + 1..]);
    }
  }

  lemma {:induction false} TallyWithout(s: seq<ComplexityClass>, i: nat)
    requires i < |s|
    ensures var rest := s[..i] + s[i + 1..];
      && multiset(rest) == multiset(s) - multiset{s[i]}
      && AnyPolynomial(s) == (s[i].Polynomial? || AnyPolynomial(rest))
      && AnyLogarithm(s) == (s[i].Logarithmic? || AnyLogarithm(rest))
      && SumDegree(s) == s[i].Degree() + SumDegree(rest)
      && SumLogPower(s) == s[i].LogPower() + SumLogPower(rest)
  {
    WithoutOne(s, i);
    TallyConcat(s[..i], s[i + 1..]);
    TallyConcat(s[..i], s[i..]);
    assert s == s[..i] + s[i..] && s[i..][0] == s[i] && s[i..][1..] == s[i + 1..];
  }

  lemma {:induction false} WithoutOne<T>(s: seq<T>, i: nat)
    requires i < |s|
    ensures multiset(s[..i] + s[i + 1..]) == multiset(s) - multiset{s[i]}
  {
    assert s == s[..i] + [s[i]] + s[i + 1..];
  }

  /** A nesting of products is the product of all factors, saturation included. */
  lemma {:induction false} NestOfProducts(s: seq<ComplexityClass>, t: seq<ComplexityClass>)
    requires Homogeneous(s) && Homogeneous(t)
    ensures Product(s).NestMul(Product(t)) == Product(s + t)
  {
    TallyConcat(s, t);
    NestOfClasses(AnyPolynomial(s), AnyLogarithm(s), SumDegree(s), SumLogPower(s),
                  AnyPolynomial(t), AnyLogarithm(t), SumDegree(t), SumLogPower(t));
  }

  lemma {:induction false} NestOfClasses(p1: bool, l1: bool, d1: nat, e1: nat, p2: bool, l2: bool, d2: nat, e2: nat)
    requires (!p1 ==> d1 == 0) && (!p1 && !l1 ==> e1 == 0)
    requires (!p2 ==> d2 == 0) && (!p2 && !l2 ==> e2 == 0)
    ensures ClassOf(p1, l1, d1, e1).NestMul(ClassOf(p2, l2, d2, e2)) == ClassOf(p1 || p2, l1 || l2, d1 + d2, e1 + e2)
  {
  }

  predicate Homogeneous(s: seq<ComplexityClass>) {
    && (!AnyPolynomial(s) ==> SumDegree(s) == 0)
    && (!AnyPolynomial(s) && !AnyLogarithm(s) ==> SumLogPower(s) == 0)
  }

  lemma {:induction false} EvalIsProduct(t: Shape)
    requires NestingOnly(t) && PolyLogShape(t)
    ensures Homogeneous(Leaves(t))
    ensures Eval(t) == Product(Leaves(t))
  {
    match t
    case Leaf(c) =>
      assert [c][1..] == [] && AnyPolynomial([c]) == (c.Polynomial? || AnyPolynomial([c][1..]));
      assert AnyLogarithm([c]) == (c.Logarithmic? || AnyLogarithm([c][1..]));
      assert SumDegree([c]) == c.Degree();
      assert SumLogPower([c]) == [c][0].LogPower() + SumLogPower([c][1..]);
    case Inside(a, b) =>
      EvalIsProduct(a);
      EvalIsProduct(b);
      TallyConcat(Leaves(a), Leaves(b));
      NestOfProducts(Leaves(a), Leaves(b));
  }

  /** Over polylogarithmic leaves, re-bracketing a nesting or reordering its loops never changes the result,
      even when exponents saturate. */
  lemma {:induction false} NestingOrderIrrelevant(t: Shape, u: Shape)
    requires NestingOnly(t) && PolyLogShape(t) && NestingOnly(u) && PolyLogShape(u)
    requires multiset(Leaves(t)) == multiset(Leaves(u))
    ensures Eval(t) == Eval(u)
  {
    EvalIsProduct(t);
    EvalIsProduct(u);
    TallyPermuted(Leaves(t), Leaves(u));
  }

  // ---- Square roots -----------------------------------------------------------------------------------

  function SumDegrees(s: seq<ComplexityClass>): nat {
    if s == [] then 0 else s[0].EffectiveDegree() + SumDegrees(s[1..])
  }

  function CountSqrt(s: seq<ComplexityClass>): nat {
    if s == [] then 0 else (if s[0].Sqrt? then 1 else 0) + CountSqrt(s[1..])
  }

  lemma {:induction false} SumsConcat(s: seq<ComplexityClass>, t: seq<ComplexityClass>)
    ensures SumDegrees(s + t) == SumDegrees(s) + SumDegrees(t)
    ensures CountSqrt(s + t) == CountSqrt(s) + CountSqrt(t)
  {
    if s == [] {
      assert s + t == t;
    } else {
      assert (s + t)[1..] == s[1..] + t;
      SumsConcat(s[1..], t);
    }
  }

  predicate SubExponentialNesting(t: Shape) {
    match t
    case Leaf(c) => c.SubExponential()
    case Then(_, _) => false
    case Inside(a, b) => SubExponentialNesting(a) && SubExponentialNesting(b)
  }

  /** A square root may still gain one half when it is absorbed. */
  function Potential(c: ComplexityClass): nat { c.EffectiveDegree() + (if c.Sqrt? then 10 else 0) }

  lemma {:induction false} NestLosesPotential(a: ComplexityClass, b: ComplexityClass)
    requires a.SubExponential() && b.SubExponential()
    ensures a.NestMul(b).SubExponential()
    ensures Potential(a.NestMul(b)) <= Potential(a) + Potential(b)
  {
  }

  /** One half per square-root leaf bounds the excess of a nesting over the sum of its leaves' degrees;
      saturation can only lower the result. A result that is itself a square root has no excess. */
  lemma {:induction false} NestingAtMostHalfPerSqrt(t: Shape)
    requires SubExponentialNesting(t)
    ensures Eval(t).SubExponential()
    ensures Potential(Eval(t)) <= SumDegrees(Leaves(t)) + 10 * CountSqrt(Leaves(t))
  {
    match t
    case Leaf(c) =>
      assert SumDegrees([c]) == c.EffectiveDegree() + SumDegrees([]);
      assert CountSqrt([c]) == (if c.Sqrt? then 1 else 0) + CountSqrt([]);
    case Inside(a, b) =>
      NestingAtMostHalfPerSqrt(a);
      NestingAtMostHalfPerSqrt(b);
      NestLosesPotential(Eval(a), Eval(b));
      SumsConcat(Leaves(a), Leaves(b));
  }

  /** How many nestings absorb a square root. */
  function Gainings(t: Shape): nat {
    if t.Inside? then Gainings(t.outer) + Gainings(t.inner) + if Gains(Eval(t.outer), Eval(t.inner)) then 1 else 0
    else 0
  }

  lemma {:induction false} LeafSums(c: ComplexityClass)
    ensures SumDegrees([c]) == c.EffectiveDegree()
  {
    assert SumDegrees([c]) == c.EffectiveDegree() + SumDegrees([]);
  }

  /** Whatever the bracketing, the degree of a nesting is the sum of its leaves' degrees and one half for each square root
      absorbed, exactly when nothing is cut off; otherwise it is less. */
  lemma {:induction false} NestingIsSumIff(t: Shape)
    requires SubExponentialNesting(t)
    ensures Eval(t).SubExponential()
    ensures var sum := SumDegrees(Leaves(t)) + 10 * Gainings(t);
      Eval(t).EffectiveDegree() <= sum && (Eval(t).EffectiveDegree() == sum <==> Unclamped(t))
  {
    match t
    case Leaf(c) =>
      LeafSums(c);
    case Inside(a, b) =>
      NestingIsSumIff(a);
      NestingIsSumIff(b);
      NestLaw(Eval(a), Eval(b));
      hide SumDegrees, NoClamp, Gains, ComplexityClass.EffectiveDegree, ComplexityClass.NestMul;
      SumsConcat(Leaves(a), Leaves(b));
  }

  /** Unless something is cut off, a nesting costs at least the sum of its parts. */
  lemma {:induction false} NestingAtLeastSum(t: Shape)
    requires SubExponentialNesting(t) && Unclamped(t)
    ensures Eval(t).EffectiveDegree() >= SumDegrees(Leaves(t))
  {
    NestingIsSumIff(t);
  }

  // ---- Where the laws stop ----------------------------------------------------------------------------

  lemma {:induction false} SatMulAssociative(a: u8, b: u8, c: u8)
    requires a >= 2 && b >= 2 && c >= 2
    ensures SatMul(a, b) >= 2 && SatMul(b, c) >= 2
    ensures SatMul(SatMul(a, b), c) == SatMul(a, SatMul(b, c))
  {
    assert a * b >= 2 && b * c >= 2;
    assert (a * b) * c == a * (b * c);
    if a * b > 255 {
      assert (a * b) * c >= 256 * 2;
      assert 255 * c > 255;
      if b * c <= 255 {
        assert a * (b * c) > 255;
      } else {
        assert a * 255 > 255;
      }
    } else if b * c > 255 {
      assert a * 255 > 255;
      assert a * (b * c) > 255;
    }
  }

  /** The base of a product of two exponentials. */
  function BaseProduct(a: u8, b: u8): u8 { Max(SatMul(a, b), 2) }

  /** When three bases multiply alike in either bracketing: always if all are at least two. */
  predicate BasesAssociate(a: u8, b: u8, c: u8) {
    if b == 0 then a == c || (a <= 1 && c <= 1) || (a >= 128 && c >= 128)
    else
      && (a == 0 ==> c <= 1) && (c == 0 ==> a <= 1)
      && (a == 1 && b == 1 ==> c <= 1 || c == 255) && (b == 1 && c == 1 ==> a <= 1 || a == 255)
  }

  lemma {:induction false} BaseProductBounds(a: u8, b: u8)
    ensures BaseProduct(0, b) == BaseProduct(b, 0) == 2
    ensures BaseProduct(1, b) == BaseProduct(b, 1) == Max(b, 2)
    ensures BaseProduct(2, b) == BaseProduct(b, 2) == (if b >= 128 then 255 else if b == 0 then 2 else 2 * b)
    ensures a >= 2 && b >= 2 ==> BaseProduct(a, b) == SatMul(a, b)
  {
    if a >= 2 && b >= 2 {
      SatMulAssociative(a, b, 2);
    }
  }

  lemma {:induction false} BasesAssociateIff(a: u8, b: u8, c: u8)
    ensures BaseProduct(BaseProduct(a, b), c) == BaseProduct(a, BaseProduct(b, c)) <==> BasesAssociate(a, b, c)
  {
    BaseProductBounds(a, b);
    BaseProductBounds(b, c);
    BaseProductBounds(a, c);
    hide SatMul;
    if a >= 2 && b >= 2 && c >= 2 {
      SatMulAssociative(a, b, c);
      BaseProductBounds(SatMul(a, b), c);
      BaseProductBounds(a, SatMul(b, c));
    } else {
      hide BaseProduct;
      BaseProductBounds(c, a);
      BaseProductBounds(BaseProduct(a, b), BaseProduct(b, c));
      BaseProductBounds(BaseProduct(b, c), BaseProduct(a, b));
    }
  }

  /** Nesting is associative exactly unless two adjacent square roots meet a class that would absorb either of them one at
      a time (and has not reached the byte limit), or three exponentials with a small base among them multiply
      differently. */
  lemma {:induction false} NestingAssociativeIff(a: ComplexityClass, b: ComplexityClass, c: ComplexityClass)
    ensures a.NestMul(b).NestMul(c) == a.NestMul(b.NestMul(c)) <==>
      && !(b.Sqrt? && ((a.Sqrt? && Absorbs(c) && c.Degree() < 254) || (c.Sqrt? && Absorbs(a) && a.Degree() < 254)))
      && (a.Exponential? && b.Exponential? && c.Exponential? ==> BasesAssociate(a.baseCalls, b.baseCalls, c.baseCalls))
  {
    if a.Exponential? && b.Exponential? && c.Exponential? {
      BasesAssociateIff(a.baseCalls, b.baseCalls, c.baseCalls);
      hide BaseProduct, BasesAssociate;
      ExponentialProduct(a.baseCalls, b.baseCalls);
      ExponentialProduct(b.baseCalls, c.baseCalls);
      ExponentialProduct(BaseProduct(a.baseCalls, b.baseCalls), c.baseCalls);
      ExponentialProduct(a.baseCalls, BaseProduct(b.baseCalls, c.baseCalls));
    } else if a.SubExponential() && b.SubExponential() && c.SubExponential() {
      if b.Sqrt? { AroundSqrt(a, c); } else { LightAssociative(a, b, c); }
    } else {
      HeavyAssociative(a, b, c);
    }
  }

  lemma {:induction false} ExponentialProduct(a: u8, b: u8)
    ensures Exponential(a).NestMul(Exponential(b)) == Exponential(BaseProduct(a, b))
  {
  }

  lemma {:induction false} LightAssociative(a: ComplexityClass, b: ComplexityClass, c: ComplexityClass)
    requires a.SubExponential() && b.PolyLog() && c.SubExponential()
    ensures a.NestMul(b).NestMul(c) == a.NestMul(b.NestMul(c))
  {
    hide SatMul;
  }

  lemma {:induction false} AroundSqrt(a: ComplexityClass, c: ComplexityClass)
    requires a.SubExponential() && c.SubExponential()
    ensures a.NestMul(Sqrt).NestMul(c) == a.NestMul(Sqrt.NestMul(c)) <==>
      !((a.Sqrt? && Absorbs(c) && c.Degree() < 254) || (c.Sqrt? && Absorbs(a) && a.Degree() < 254))
  {
    hide SatMul;
  }

  lemma {:induction false} HeavyAssociative(a: ComplexityClass, b: ComplexityClass, c: ComplexityClass)
    requires !(a.SubExponential() && b.SubExponential() && c.SubExponential())
    requires !(a.Exponential? && b.Exponential? && c.Exponential?)
    ensures a.NestMul(b).NestMul(c) == a.NestMul(b.NestMul(c))
    ensures !a.SubExponential() || !b.SubExponential() || !c.SubExponential()
  {
    hide SatMul, SatAdd;
  }

  /** With a base below two the exponential product need not be associative. */
  lemma {:induction false} SmallBasesNotAssociative()
    ensures var e0, e3 := Exponential(0), Exponential(3);
            e0.NestMul(e3).NestMul(e3) == Exponential(6) && e0.NestMul(e3.NestMul(e3)) == Exponential(2)
  {
  }

  /** An exponential or factorial swallows whatever else is nested with it. */
  lemma {:induction false} HeavySwallows(a: ComplexityClass, c: ComplexityClass)
    requires !a.SubExponential() && c.SubExponential()
    ensures a.NestMul(c) == a
  {
  }

  /** Classes of equal degree stay of equal degree under one more nesting exactly when both absorb a square root in it or
      neither does; an exponential among them needs one whose degree is zero. */
  lemma {:induction false} CongruenceIff(a: ComplexityClass, b: ComplexityClass, c: ComplexityClass)
    requires c.SubExponential() && NoClamp(a, c) && NoClamp(b, c) && a.EffectiveDegree() == b.EffectiveDegree()
    ensures a.NestMul(c).EffectiveDegree() == b.NestMul(c).EffectiveDegree() <==>
      if a.SubExponential() && b.SubExponential() then Gains(a, c) == Gains(b, c)
      else a.SubExponential() == b.SubExponential() || c.EffectiveDegree() == 0
  {
    NestsByLaw(a, c);
    NestsByLaw(b, c);
    if a.SubExponential() && !b.SubExponential() { GainsNeedSqrt(a, b, c); }
    if b.SubExponential() && !a.SubExponential() { GainsNeedSqrt(b, a, c); }
    hide ComplexityClass.NestMul, ComplexityClass.EffectiveDegree, NoClamp, Gains;
  }

  /** Nothing as large as an exponential gains under a class of degree zero. */
  lemma {:induction false} GainsNeedSqrt(a: ComplexityClass, b: ComplexityClass, c: ComplexityClass)
    requires a.SubExponential() && !b.SubExponential() && a.EffectiveDegree() == b.EffectiveDegree()
    ensures Gains(a, c) ==> c.EffectiveDegree() > 0
  {
  }

  lemma {:induction false} NestsByLaw(a: ComplexityClass, c: ComplexityClass)
    requires c.SubExponential() && NoClamp(a, c)
    ensures a.NestMul(c).EffectiveDegree() == a.EffectiveDegree()
      + if a.SubExponential() then c.EffectiveDegree() + (if Gains(a, c) then 10 else 0) else 0
  {
    if a.SubExponential() {
      NestLaw(a, c);
    } else {
      HeavySwallows(a, c);
    }
  }

  /** One more nesting keeps the order of two classes exactly when the lower does not alone absorb a square root, or is
      lower by at least the half it gains; an exponential above must stay above all that is added. */
  lemma {:induction false} MonotoneIff(a: ComplexityClass, b: ComplexityClass, c: ComplexityClass)
    requires c.SubExponential() && NoClamp(a, c) && NoClamp(b, c) && a.EffectiveDegree() <= b.EffectiveDegree()
    ensures a.NestMul(c).EffectiveDegree() <= b.NestMul(c).EffectiveDegree() <==>
      if a.SubExponential() && b.SubExponential()
      then Gains(a, c) && !Gains(b, c) ==> a.EffectiveDegree() + 10 <= b.EffectiveDegree()
      else a.SubExponential() ==>
        a.EffectiveDegree() + c.EffectiveDegree() + (if Gains(a, c) then 10 else 0) <= b.EffectiveDegree()
  {
    NestsByLaw(a, c);
    NestsByLaw(b, c);
    hide ComplexityClass.NestMul, NoClamp;
  }

  /** A square root and a squared logarithm, alike in degree, part under one more logarithm. */
  lemma {:induction false} SqrtBreaksCongruence()
    ensures Sqrt.EffectiveDegree() == Logarithmic(2).EffectiveDegree()
    ensures Gains(Sqrt, Logarithmic(1)) && !Gains(Logarithmic(2), Logarithmic(1))
    ensures Sqrt.NestMul(Logarithmic(1)).EffectiveDegree() > Logarithmic(2).NestMul(Logarithmic(1)).EffectiveDegree()
  {
  }

  /** The documented dominance order of the named classes; a larger power or base leaves it exactly here. */
  lemma {:induction false} DocumentedOrder(p: u8, b: u8)
    ensures Constant.EffectiveDegree() < Logarithmic(1).EffectiveDegree() < Sqrt.EffectiveDegree()
         < Polynomial(1, 0).EffectiveDegree() < Polynomial(1, 1).EffectiveDegree() < Polynomial(2, 0).EffectiveDegree()
         < Polynomial(3, 0).EffectiveDegree() < Exponential(2).EffectiveDegree() < Factorial.EffectiveDegree()
    ensures Logarithmic(p).EffectiveDegree() < Sqrt.EffectiveDegree() <==> p < 2
    ensures Exponential(b).EffectiveDegree() < Factorial.EffectiveDegree() <==> b < 20
  {
  }

  /** Where exponentials stand in a sequence: which logarithms and polynomials they still win against, for every base, and
      how much one more call adds. */
  lemma {:induction false} ExponentialStands(b: u8, d: u8, p: u8)
    ensures Exponential(b).SeqMax(Polynomial(d, p)) == Exponential(b) <==> 20 * d + 5 * p <= 160 + 2 * Max(b, 2)
    ensures Polynomial(d, p).SeqMax(Exponential(b)) == Exponential(b) <==> 20 * d + 5 * p < 160 + 2 * Max(b, 2)
    ensures Exponential(b).SeqMax(Logarithmic(p)) == Exponential(b) <==> 5 * p <= 160 + 2 * Max(b, 2)
    ensures Exponential(b).SeqMax(Sqrt) == Exponential(b) && Exponential(b).SeqMax(Constant) == Exponential(b)
    ensures Exponential(b).SeqMax(Factorial) == Exponential(b) <==> b >= 20
    ensures b < 2 ==> Exponential(b).EffectiveDegree() == Exponential(2).EffectiveDegree()
    ensures 2 <= b < 255 ==> Exponential(b + 1).EffectiveDegree() == Exponential(b).EffectiveDegree() + 2
  {
  }

  /** Likewise a factorial, and a square root. */
  lemma {:induction false} FactorialAndSqrtStand(d: u8, p: u8)
    ensures Factorial.SeqMax(Polynomial(d, p)) == Factorial <==> 20 * d + 5 * p <= 200
    ensures Factorial.SeqMax(Logarithmic(p)) == Factorial <==> 5 * p <= 200
    ensures Sqrt.SeqMax(Polynomial(d, p)) == Sqrt <==> d == 0 && p <= 2
    ensures Sqrt.SeqMax(Logarithmic(p)) == Sqrt <==> p <= 2
    ensures Polynomial(d, p).EffectiveDegree() == d * Polynomial(1, 0).EffectiveDegree() + p * Logarithmic(1).EffectiveDegree()
    ensures Polynomial(1, 0).EffectiveDegree() == 2 * Sqrt.EffectiveDegree() == 4 * Logarithmic(1).EffectiveDegree()
    ensures Constant.EffectiveDegree() == 0
  {
  }
}
