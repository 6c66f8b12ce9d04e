/**
 Integer metric values.  Addition wraps at 64 bits and mixes signed with unsigned operands;
 a fold over records nevertheless does not depend on their order.
 */
module MetricValues {

  const WORD: int := 0x1_0000_0000_0000_0000
  const HALF: int := 0x8000_0000_0000_0000

  type U64 = x: int | 0 <= x < WORD

  type I64 = x: int | -HALF <= x < HALF

  datatype MetricValue = Signed(i: I64) | Unsigned(u: U64)

  function WrapUnsigned(x: int): U64 {
    x % WORD
  }

  function WrapSigned(x: int): I64 {
    (x + HALF) % WORD - HALF
  }

  function Add(a: MetricValue, b: MetricValue): MetricValue {
    match (a, b)
    case (Unsigned(u1), Unsigned(u2)) => Unsigned(WrapUnsigned(u1 + u2))
    case (Unsigned(u1), Signed(i2)) => Signed(WrapSigned(i2 + u1))
    case (Signed(i1), Unsigned(u2)) => Signed(WrapSigned(i1 + u2))
    case (Signed(i1), Signed(i2)) => Signed(WrapSigned(i1 + i2))
  }

  /** The number a value stands for. */
  function Num(v: MetricValue): int {
    match v
    case Signed(i) => i
    case Unsigned(u) => u
  }

  function Laps(k: int): int {
    k * WORD
  }

  /** Equal modulo 2^64. */
  ghost predicate Congruent(x: int, y: int) {
    exists k :: x == y + Laps(k)
  }

  /** A value is fixed by its kind and its number modulo 2^64. */
  lemma SameValue(a: MetricValue, b: MetricValue)
    requires a.Signed? == b.Signed? && Congruent(Num(a), Num(b))
    ensures a == b
  {
    var k :| Num(a) == Num(b) + Laps(k);
    assert k == 0;
  }

  lemma WrapTracks(x: int)
    ensures Congruent(WrapUnsigned(x), x) && Congruent(WrapSigned(x), x)
  {
    assert WrapUnsigned(x) == x + Laps(-(x / WORD));
    assert WrapSigned(x) == x + Laps(-((x + HALF) / WORD));
  }

  /** Addition tracks the true sum modulo 2^64, and is signed iff an operand is. */
  lemma AddTracks(a: MetricValue, b: MetricValue)
    ensures Congruent(Num(Add(a, b)), Num(a) + Num(b))
    ensures Add(a, b).Signed? <==> a.Signed? || b.Signed?
  {
    WrapTracks(Num(a) + Num(b));
  }

  lemma CongruentSum(x: int, y: int, z: int)
    requires Congruent(x, y)
    ensures Congruent(x + z, y + z)
  {
    var k :| x == y + Laps(k);
    assert x + z == y + z + Laps(k);
  }

  lemma CongruentBack(x: int, y: int)
    requires Congruent(x, y)
    ensures Congruent(y, x)
  {
    var k :| x == y + Laps(k);
    assert y == x + Laps(-k);
  }

  lemma CongruentTrans(x: int, y: int, z: int)
    requires Congruent(x, y) && Congruent(y, z)
    ensures Congruent(x, z)
  {
    var k :| x == y + Laps(k);
    var l :| y == z + Laps(l);
    assert x == z + Laps(k + l);
  }

  lemma SameTotal(a: MetricValue, b: MetricValue, sum: int)
    requires a.Signed? == b.Signed? && Congruent(Num(a), sum) && Congruent(Num(b), sum)
    ensures a == b
  {
    CongruentBack(Num(b), sum);
    CongruentTrans(Num(a), sum, Num(b));
    SameValue(a, b);
  }

  /** Addition only looks at its operands modulo 2^64. */
  lemma AddOf(a: MetricValue, b: MetricValue, x: int)
    requires Congruent(Num(a), x)
    ensures Congruent(Num(Add(a, b)), x + Num(b))
  {
    AddTracks(a, b);
    CongruentSum(Num(a), x, Num(b));
    CongruentTrans(Num(Add(a, b)), Num(a) + Num(b), x + Num(b));
  }

  lemma AddCommutes(a: MetricValue, b: MetricValue)
    ensures Add(a, b) == Add(b, a)
  {
    AddTracks(a, b);
    AddTracks(b, a);
    SameTotal(Add(a, b), Add(b, a), Num(a) + Num(b));
  }

  lemma SumOfThree(a: MetricValue, b: MetricValue, c: MetricValue, ab: MetricValue, bc: MetricValue)
    requires Congruent(Num(ab), Num(a) + Num(b)) && (ab.Signed? <==> a.Signed? || b.Signed?)
    requires Congruent(Num(bc), Num(b) + Num(c)) && (bc.Signed? <==> b.Signed? || c.Signed?)
    ensures Add(ab, c) == Add(bc, a)
  {
    var sum := Num(a) + Num(b) + Num(c);
    AddOf(ab, c, Num(a) + Num(b));
    AddOf(bc, a, Num(b) + Num(c));
    AddTracks(ab, c);
    AddTracks(bc, a);
    SameTotal(Add(ab, c), Add(bc, a), sum);
  }

  lemma AddAssociates(a: MetricValue, b: MetricValue, c: MetricValue)
    ensures Add(Add(a, b), c) == Add(a, Add(b, c))
  {
    AddTracks(a, b);
    AddTracks(b, c);
    SumOfThree(a, b, c, Add(a, b), Add(b, c));
    AddCommutes(Add(b, c), a);
  }

  // ----- folds over records -----

  /** The true total, without wrapping. */
  ghost function Sum(records: seq<MetricValue>): int {
    if records == [] then 0 else Sum(records[..|records| - 1]) + Num(records[|records| - 1])
  }

  ghost predicate AnySigned(records: seq<MetricValue>) {
    exists k :: 0 <= k < |records| && records[k].Signed?
  }

  /** `v` is the total of the records, wrapped to 64 bits. */
  ghost predicate Totals(v: MetricValue, records: seq<MetricValue>) {
    Congruent(Num(v), Sum(records)) && (v.Signed? <==> AnySigned(records))
  }

  /** Adds the records up, one by one. */
  method Fold(records: seq<MetricValue>) returns (value: MetricValue)
    requires records != []
    ensures Totals(value, records)
  {
    value := records[0];
    assert records[..1][..0] == [] && Num(value) == Sum(records[..1]) + Laps(0);
    assert AnySigned(records[..1]) <==> records[0].Signed? by {
      assert records[..1][0] == records[0];
    }
    for i := 1 to |records|
      invariant Totals(value, records[..i])
    {
      TotalsStep(value, records[..i], records[i]);
      assert records[..i + 1] == records[..i] + [records[i]];
      value := Add(value, records[i]);
    }
    assert records[..|records|] == records;
  }

  lemma TotalsStep(v: MetricValue, records: seq<MetricValue>, r: MetricValue)
    requires Totals(v, records)
    ensures Totals(Add(v, r), records + [r])
  {
    var more := records + [r];
    assert more[..|records|] == records;
    AddTracks(v, r);
    CongruentSum(Num(v), Sum(records), Num(r));
    CongruentTrans(Num(Add(v, r)), Num(v) + Num(r), Sum(more));
    if AnySigned(records) {
      var k :| 0 <= k < |records| && records[k].Signed?;
      assert more[k].Signed?;
    }
    assert more[|records|] == r;
  }

  lemma {:induction false} SumWithout(records: seq<MetricValue>, k: nat)
    requires k < |records|
    ensures Sum(records) == Sum(records[..k] + records[k + 1..]) + Num(records[k])
  {
    var n := |records| - 1;
    if k == n {
      assert records[..k] + records[k + 1..] == records[..n];
    } else {
      var rest := records[..k] + records[k + 1..];
      assert rest[..|rest| - 1] == records[..n][..k] + records[..n][k + 1..];
      SumWithout(records[..n], k);
    }
  }

  lemma MultisetWithout(b: seq<MetricValue>, k: nat)
    requires k < |b|
    ensures multiset(b[..k] + b[k + 1..]) == multiset(b) - multiset{b[k]}
  {
    assert b == b[..k] + [b[k]] + b[k + 1..];
  }

  lemma {:induction false} SumOfPermutation(a: seq<MetricValue>, b: seq<MetricValue>)
    requires multiset(a) == multiset(b)
    ensures Sum(a) == Sum(b)
    decreases |a|
  {
    if a == [] {
      assert |multiset(b)| == 0;
    } else {
      var n := |a| - 1;
      assert a[n] in multiset(b);
      var k :| 0 <= k < |b| && b[k] == a[n];
      MultisetWithout(b, k);
      MultisetWithout(a, n);
      assert a[..n] + a[n + 1..] == a[..n];
      SumOfPermutation(a[..n], b[..k] + b[k + 1..]);
      SumWithout(b, k);
    }
  }

  lemma SignedOfPermutation(a: seq<MetricValue>, b: seq<MetricValue>)
    requires multiset(a) == multiset(b) && AnySigned(a)
    ensures AnySigned(b)
  {
    var k :| 0 <= k < |a| && a[k].Signed?;
    assert a[k] in multiset(b);
  }

  /** Whatever the order of the records, the fold gives the same value. */
  lemma FoldIgnoresOrder(a: seq<MetricValue>, b: seq<MetricValue>, v: MetricValue, w: MetricValue)
    requires multiset(a) == multiset(b) && Totals(v, a) && Totals(w, b)
    ensures v == w
  {
    SumOfPermutation(a, b);
    if AnySigned(a) {
      SignedOfPermutation(a, b);
    }
    if AnySigned(b) {
      SignedOfPermutation(b, a);
    }
    SameTotal(v, w, Sum(a));
  }

  /** The value is exact iff the true total fits its kind, however often the sums wrapped on the way. */
  lemma FoldExactIff(records: seq<MetricValue>, v: MetricValue)
    requires Totals(v, records)
    ensures Num(v) == Sum(records)
            <==> if AnySigned(records) then -HALF <= Sum(records) < HALF else 0 <= Sum(records) < WORD
  {
    if AnySigned(records) && -HALF <= Sum(records) < HALF {
      SameValue(v, Signed(Sum(records)));
    } else if !AnySigned(records) && 0 <= Sum(records) < WORD {
      SameValue(v, Unsigned(Sum(records)));
    }
  }
}
