/** Base58 with the Bitcoin alphabet, as draft-msporny-base58 sections 3 and 4 describe it (adl_lite/did_resolver.py). */
module Base58 {
  import opened Basics

  type Octet = b: nat | b < 256

  // ----- positional notation -----

  /** The number that digits, most significant first, spell in a base. */
  function Value(base: nat, ds: seq<nat>): nat {
    if ds == [] then 0 else Value(base, ds[..|ds| - 1]) * base + ds[|ds| - 1]
  }

  predicate DigitsOf(base: nat, ds: seq<nat>) { forall i :: 0 <= i < |ds| ==> ds[i] < base }

  /** The digits of a number, without leading zeros. */
  function Digits(base: nat, n: nat): (ds: seq<nat>)
    requires base >= 2
    ensures DigitsOf(base, ds)
    ensures ds != [] ==> ds[0] != 0
    decreases n
  {
    if n == 0 then [] else
      Smaller(n, base);
      Digits(base, n / base) + [n % base]
  }

  lemma Smaller(n: nat, base: nat)
    requires n > 0 && base >= 2
    ensures n / base < n
  {
  }

  lemma DivModOf(q: nat, base: nat, r: nat)
    requires r < base
    ensures (q * base + r) / base == q && (q * base + r) % base == r
  {
    var x := q * base + r;
    var d, m := x / base, x % base;
    assert x == d * base + m;
    if d > q { TimesMore(q, d, base); }
    if q > d { TimesMore(d, q, base); }
  }

  lemma TimesMore(a: nat, b: nat, base: nat)
    requires a < b
    ensures a * base + base <= b * base
  {
    assert b * base == a * base + (b - a) * base;
    AtLeastOnce(b - a, base);
  }

  lemma AtLeastOnce(k: nat, base: nat)
    requires k >= 1
    ensures k * base >= base
  {
  }

  lemma {:induction false} ValueOfDigits(base: nat, n: nat)
    requires base >= 2
    ensures Value(base, Digits(base, n)) == n
    decreases n
  {
    if n > 0 {
      Smaller(n, base);
      ValueOfDigits(base, n / base);
      var front := Digits(base, n / base);
      assert (front + [n % base])[..|front|] == front;
      Parts(n, base);
    }
  }

  lemma Parts(n: nat, base: nat)
    requires base > 0
    ensures n / base * base + n % base == n
  {
  }

  lemma {:induction false} DigitsOfValue(base: nat, ds: seq<nat>)
    requires base >= 2 && DigitsOf(base, ds)
    requires ds != [] ==> ds[0] != 0
    ensures Digits(base, Value(base, ds)) == ds
    ensures ds != [] ==> Value(base, ds) > 0
  {
    if ds != [] {
      var front, last := ds[..|ds| - 1], ds[|ds| - 1];
      DigitsOfValue(base, front);
      DivModOf(Value(base, front), base, last);
      assert ds == front + [last];
      if front != [] { Positive(Value(base, front), base); }
    }
  }

  lemma Positive(q: nat, base: nat)
    requires q > 0 && base >= 2
    ensures q * base > 0
  {
  }

  function Zeros(k: nat): (zs: seq<nat>)
    ensures |zs| == k && forall i :: 0 <= i < k ==> zs[i] == 0
  {
    seq(k, i => 0)
  }

  lemma {:induction false} LeadingZerosAddNothing(base: nat, k: nat, ds: seq<nat>)
    ensures Value(base, Zeros(k) + ds) == Value(base, ds)
    decreases k + |ds|
  {
    var all := Zeros(k) + ds;
    if ds != [] {
      assert all[..|all| - 1] == Zeros(k) + ds[..|ds| - 1];
      LeadingZerosAddNothing(base, k, ds[..|ds| - 1]);
    } else if k > 0 {
      assert all[..|all| - 1] == Zeros(k - 1) + [];
      LeadingZerosAddNothing(base, k - 1, []);
    }
  }

  /** How many zeros a sequence starts with. */
  function LeadingZeros(ds: seq<nat>): (k: nat)
    ensures k <= |ds| && ds[..k] == Zeros(k) && (k < |ds| ==> ds[k] != 0)
  {
    if ds == [] || ds[0] != 0 then 0 else 1 + LeadingZeros(ds[1..])
  }

  lemma {:induction false} LeadingZerosOf(k: nat, ds: seq<nat>)
    requires ds != [] ==> ds[0] != 0
    ensures LeadingZeros(Zeros(k) + ds) == k
  {
    if k > 0 {
      assert (Zeros(k) + ds)[1..] == Zeros(k - 1) + ds;
      LeadingZerosOf(k - 1, ds);
    } else {
      assert Zeros(0) + ds == ds;
    }
  }

  // ----- changing the base -----

  /** The same number in another base, with one leading zero for each leading zero. */
  function Rebase(from: nat, to: nat, ds: seq<nat>): (es: seq<nat>)
    requires to >= 2
    ensures DigitsOf(to, es)
  {
    Zeros(LeadingZeros(ds)) + Digits(to, Value(from, ds))
  }

  /** Changing the base back gives the digits back, leading zeros included. */
  lemma RebaseRoundTrip(from: nat, to: nat, ds: seq<nat>)
    requires from >= 2 && to >= 2 && DigitsOf(from, ds)
    ensures Rebase(to, from, Rebase(from, to, ds)) == ds
  {
    var k := LeadingZeros(ds);
    var rest, v := ds[k..], Value(from, ds);
    assert ds == Zeros(k) + rest;
    LeadingZerosAddNothing(from, k, rest);
    LeadingZerosOf(k, Digits(to, v));
    LeadingZerosAddNothing(to, k, Digits(to, v));
    ValueOfDigits(to, v);
    DigitsOfValue(from, rest);
  }

  function Power(base: nat, n: nat): nat { if n == 0 then 1 else base * Power(base, n - 1) }

  /** Digits further left weigh a power of the base more. */
  lemma {:induction false} ValueOfConcat(base: nat, a: seq<nat>, b: seq<nat>)
    ensures Value(base, a + b) == Value(base, a) * Power(base, |b|) + Value(base, b)
  {
    if b == [] {
      assert a + b == a;
    } else {
      var front, d := b[..|b| - 1], b[|b| - 1];
      assert (a + b)[..|a + b| - 1] == a + front && (a + b)[|a + b| - 1] == d;
      ValueOfConcat(base, a, front);
      Shifted(Value(base, a), Power(base, |front|), Value(base, front), base, d);
    }
  }

  lemma Shifted(x: nat, p: nat, y: nat, base: nat, d: nat)
    ensures (x * p + y) * base + d == x * (base * p) + (y * base + d)
  {
    assert x * p * base == x * (base * p);
  }

  lemma ValueOfOne(base: nat, d: nat)
    ensures Value(base, [d]) == d
  {
    assert [d][..0] == [];
    assert Value(base, []) * base == 0;
  }

  /** Changing the base keeps the number and the count of leading zeros, and these two leave no choice. */
  lemma RebaseIff(from: nat, to: nat, ds: seq<nat>, es: seq<nat>)
    requires to >= 2
    ensures es == Rebase(from, to, ds) <==>
              DigitsOf(to, es) && Value(to, es) == Value(from, ds) && LeadingZeros(es) == LeadingZeros(ds)
  {
    var k, v := LeadingZeros(ds), Value(from, ds);
    LeadingZerosOf(k, Digits(to, v));
    LeadingZerosAddNothing(to, k, Digits(to, v));
    ValueOfDigits(to, v);
    if DigitsOf(to, es) && Value(to, es) == v && LeadingZeros(es) == k {
      var rest := es[k..];
      assert es == Zeros(k) + rest;
      LeadingZerosAddNothing(to, k, rest);
      DigitsOfValue(to, rest);
    }
  }

  // ----- Python's int.bit_length and int.to_bytes -----

  function BitLength(n: nat): nat { if n == 0 then 0 else 1 + BitLength(n / 2) }

  lemma BitLengthOfByte(n: nat)
    requires 0 < n < 256
    ensures 1 <= BitLength(n) <= 8
  {
    BitLengthBelow(n, 256, 8);
  }

  lemma {:induction false} BitLengthBelow(n: nat, top: nat, bits: nat)
    requires n < top && top == Two(bits)
    ensures BitLength(n) <= bits
  {
    if n > 0 {
      assert bits > 0;
      BitLengthBelow(n / 2, Two(bits - 1), bits - 1);
    }
  }

  function Two(bits: nat): nat { if bits == 0 then 1 else 2 * Two(bits - 1) }

  lemma BitLengthShift(n: nat)
    requires n >= 256
    ensures BitLength(n) == BitLength(n / 256) + 8
  {
    assert BitLength(n) == 1 + BitLength(n / 2);
    assert BitLength(n / 2) == 1 + BitLength(n / 4) by { assert n / 2 / 2 == n / 4; }
    assert BitLength(n / 4) == 1 + BitLength(n / 8) by { assert n / 4 / 2 == n / 8; }
    assert BitLength(n / 8) == 1 + BitLength(n / 16) by { assert n / 8 / 2 == n / 16; }
    assert BitLength(n / 16) == 1 + BitLength(n / 32) by { assert n / 16 / 2 == n / 32; }
    assert BitLength(n / 32) == 1 + BitLength(n / 64) by { assert n / 32 / 2 == n / 64; }
    assert BitLength(n / 64) == 1 + BitLength(n / 128) by { assert n / 64 / 2 == n / 128; }
    assert BitLength(n / 128) == 1 + BitLength(n / 256) by { assert n / 128 / 2 == n / 256; }
  }

  /** `(num.bit_length() + 7) // 8` is the number of base-256 digits, so `to_bytes` neither overflows nor pads. */
  lemma {:induction false} BytesNeeded(n: nat)
    ensures (BitLength(n) + 7) / 8 == |Digits(256, n)|
  {
    if n >= 256 {
      BitLengthShift(n);
      BytesNeeded(n / 256);
    } else if n > 0 {
      BitLengthOfByte(n);
      assert Digits(256, n / 256) == [];
    }
  }
}
