/** TimeSpec: seconds and nanoseconds in a sign-consistent normal form. */
module TimeSpecs {
  import opened Numbers

  const NANO: int := 1_000_000_000

  datatype TimeSpec = TimeSpec(seconds: int64, nanoseconds: int32)

  function Value(t: TimeSpec): int { t.seconds * NANO + t.nanoseconds }

  /** Less than a second of nanoseconds, and not of the other sign than the seconds. */
  predicate Normal(t: TimeSpec)
  {
    && -NANO < t.nanoseconds < NANO
    && !(t.seconds > 0 && t.nanoseconds < 0)
    && !(t.seconds < 0 && t.nanoseconds > 0)
  }

  predicate Fits64(n: int) { -0x8000_0000_0000_0000 <= n < 0x8000_0000_0000_0000 }

  /** C++ division truncates towards zero. */
  function Quotient(n: int): int { if n >= 0 then n / NANO else -(-n / NANO) }

  function Remainder(n: int): int { n - NANO * Quotient(n) }

  lemma Division(n: int)
    ensures -NANO < Remainder(n) < NANO
    ensures n >= 0 ==> Remainder(n) >= 0 && Quotient(n) >= 0
    ensures n <= 0 ==> Remainder(n) <= 0 && Quotient(n) <= 0
  {
  }

  /** The one normal form of a value. */
  function OfValue(v: int): TimeSpec
    requires Fits64(Quotient(v))
  {
    Division(v);
    TimeSpec(Quotient(v), Remainder(v))
  }

  lemma OfValueIsNormal(v: int)
    requires Fits64(Quotient(v))
    ensures Normal(OfValue(v)) && Value(OfValue(v)) == v
  {
    Division(v);
  }

  lemma NormalIsUnique(a: TimeSpec, b: TimeSpec)
    requires Normal(a) && Normal(b) && Value(a) == Value(b)
    ensures a == b
  {
    assert NANO * (a.seconds - b.seconds) == b.nanoseconds - a.nanoseconds;
  }

  /** The constructor with its cleanup_nanosecs. */
  method New(seconds: int64, nanoseconds: int32) returns (t: TimeSpec)
    requires Fits64(seconds + Quotient(nanoseconds))
    ensures Normal(t) && Value(t) == seconds * NANO + nanoseconds
    ensures Fits64(Quotient(seconds * NANO + nanoseconds)) && t == OfValue(seconds * NANO + nanoseconds)
  {
    Division(nanoseconds);
    var s, n := seconds as int, nanoseconds as int;
    var div := Quotient(n);
    n := Remainder(n);
    s := s + div;
    if s > 0 && n < 0 {
      s := s - 1;
      n := NANO + n;
    }
    if s < 0 && n > 0 {
      s := s + 1;
      n := n - NANO;
    }
    t := TimeSpec(s, n);
    QuotientOf(t);
    OfValueIsNormal(Value(t));
    NormalIsUnique(t, OfValue(Value(t)));
  }

  lemma QuotientOf(t: TimeSpec)
    requires Normal(t)
    ensures Quotient(Value(t)) == t.seconds
  {
    Division(Value(t));
    var q, r := Quotient(Value(t)), Remainder(Value(t));
    assert NANO * (t.seconds - q) == r - t.nanoseconds;
  }

  // ---------------------------------------------------------------- operators

  // The seconds fit 64 bits, before and after normalisation.

  predicate SumFits(a: TimeSpec, b: TimeSpec)
  {
    Fits64(a.seconds as int + b.seconds) && Fits64(Quotient(Value(a) + Value(b)))
  }

  predicate DifferenceFits(a: TimeSpec, b: TimeSpec)
  {
    Fits64(a.seconds as int - b.seconds) && Fits64(Quotient(Value(a) - Value(b)))
  }

  /** Nanoseconds do not overflow: neither the sum nor the difference of those of normal times. */
  lemma NanosecondsFit(a: TimeSpec, b: TimeSpec)
    requires Normal(a) && Normal(b)
    ensures FitsInt32(a.nanoseconds as int + b.nanoseconds) && FitsInt32(a.nanoseconds as int - b.nanoseconds)
  {
  }

  /** Nor do seconds on the way through the constructor, where the normal form fits. */
  lemma SecondsFit(s: int, n: int)
    requires -2 * NANO < n < 2 * NANO && Fits64(s) && Fits64(Quotient(s * NANO + n))
    ensures Fits64(s + Quotient(n))
  {
    Division(n);
    Division(s * NANO + n);
  }

  function Plus(a: TimeSpec, b: TimeSpec): (t: TimeSpec)
    requires Normal(a) && Normal(b) && SumFits(a, b)
    ensures Normal(t) && Value(t) == Value(a) + Value(b)
  {
    OfValueIsNormal(Value(a) + Value(b));
    OfValue(Value(a) + Value(b))
  }

  function Minus(a: TimeSpec, b: TimeSpec): (t: TimeSpec)
    requires Normal(a) && Normal(b) && DifferenceFits(a, b)
    ensures Normal(t) && Value(t) == Value(a) - Value(b)
  {
    OfValueIsNormal(Value(a) - Value(b));
    OfValue(Value(a) - Value(b))
  }

  /** operator+, through the constructor. */
  method Add(a: TimeSpec, b: TimeSpec) returns (t: TimeSpec)
    requires Normal(a) && Normal(b) && SumFits(a, b)
    ensures t == Plus(a, b)
  {
    NanosecondsFit(a, b);
    var s, n := a.seconds as int + b.seconds, a.nanoseconds as int + b.nanoseconds;
    assert s * NANO + n == Value(a) + Value(b);
    SecondsFit(s, n);
    t := New(s, n);
  }

  /** operator-, through the constructor. */
  method Subtract(a: TimeSpec, b: TimeSpec) returns (t: TimeSpec)
    requires Normal(a) && Normal(b) && DifferenceFits(a, b)
    ensures t == Minus(a, b)
  {
    NanosecondsFit(a, b);
    var s, n := a.seconds as int - b.seconds, a.nanoseconds as int - b.nanoseconds;
    assert s * NANO + n == Value(a) - Value(b);
    SecondsFit(s, n);
    t := New(s, n);
  }

  predicate Greater(a: TimeSpec, b: TimeSpec)
    requires Normal(a) && Normal(b) && DifferenceFits(a, b)
  {
    var diff := Minus(a, b);
    if diff.seconds == 0 then diff.nanoseconds > 0 else diff.seconds > 0
  }

  predicate Less(a: TimeSpec, b: TimeSpec)
    requires Normal(a) && Normal(b) && DifferenceFits(a, b)
  {
    var diff := Minus(a, b);
    if diff.seconds == 0 then diff.nanoseconds < 0 else diff.seconds < 0
  }

  predicate GreaterOrEqual(a: TimeSpec, b: TimeSpec)
    requires Normal(a) && Normal(b) && DifferenceFits(a, b)
  {
    if a == b then true else Greater(a, b)
  }

  predicate LessOrEqual(a: TimeSpec, b: TimeSpec)
    requires Normal(a) && Normal(b) && DifferenceFits(a, b)
  {
    if a == b then true else Less(a, b)
  }

  /** The comparison operators are the order of the values. */
  lemma ComparisonsAreTheOrder(a: TimeSpec, b: TimeSpec)
    requires Normal(a) && Normal(b) && DifferenceFits(a, b)
    ensures a == b <==> Value(a) == Value(b)
    ensures Greater(a, b) <==> Value(a) > Value(b)
    ensures Less(a, b) <==> Value(a) < Value(b)
    ensures GreaterOrEqual(a, b) <==> Value(a) >= Value(b)
    ensures LessOrEqual(a, b) <==> Value(a) <= Value(b)
  {
    if Value(a) == Value(b) { NormalIsUnique(a, b); }
    var d := Minus(a, b);
    assert d.seconds >= 1 ==> d.seconds * NANO >= NANO;
    assert d.seconds <= -1 ==> d.seconds * NANO <= -NANO;
  }

  /** What is added can be taken away again. */
  lemma PlusMinus(a: TimeSpec, b: TimeSpec)
    requires Normal(a) && Normal(b) && SumFits(a, b) && DifferenceFits(Plus(a, b), b)
    ensures Minus(Plus(a, b), b) == a
  {
    hide Quotient, Remainder, OfValue, Plus, Minus;
    NormalIsUnique(Minus(Plus(a, b), b), a);
  }

  /** Fields that were not normalised can differ although the times are the same. */
  lemma NotNormalised()
    ensures exists a: TimeSpec, b: TimeSpec :: Value(a) == Value(b) && a != b
  {
    var a, b := TimeSpec(1, 0), TimeSpec(0, 1_000_000_000);
    assert Value(a) == Value(b) && a != b;
  }
}
