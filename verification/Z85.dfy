/** The length arithmetic of z85_encode and z85_decode (src/lzmq.c): the decoder computes 0.8 * len in double
    precision and truncates it.  Rounding is to nearest, ties to even (section 4.3.1 of IEEE 754-2008), with a
    significand of 53 bits. */
module Z85 {
  import opened Options

  const TWO_52: real := 4503599627370496.0
  const TWO_53: real := 9007199254740992.0

  /** The nearest integer, and the even one of two that are equally near. */
  function ToEven(x: real): int {
    var below := x.Floor;
    if x - below as real < 0.5 then below
    else if x - below as real > 0.5 then below + 1
    else if below % 2 == 0 then below
    else below + 1
  }

  /** x in double precision.  The doubles from 2^52 to 2^53 are the integers there, and all others come from these by
      doubling and halving. */
  function Rounded(x: real): real
    requires x >= 0.5
    decreases x.Floor
  {
    if x < TWO_53 then RoundedBelow(x) else 2.0 * Rounded(x / 2.0)
  }

  function RoundedBelow(x: real): real
    requires 0.5 <= x < TWO_53
    decreases (2.0 * (TWO_53 - x)).Floor
  {
    if x >= TWO_52 then ToEven(x) as real else RoundedBelow(2.0 * x) / 2.0
  }

  /** The double that 0.8 denotes, 0x3FE999999999999A. */
  const POINT_EIGHT: real := 7205759403792794.0 / TWO_53

  /** 0.8 * len as the C code computes it. */
  function Product(len: nat): real {
    if len == 0 then 0.0 else Rounded(len as real * POINT_EIGHT)
  }

  /** The length of the encoded text: one less than that of the buffer, which also holds the terminating zero. */
  function EncodedLength(len: nat): Option<nat> {
    if len == 32 then Some(41 - 1)
    else
      var quarter := len / 4;
      if len != quarter * 4 then None else Some(quarter + len + 1 - 1)
  }

  /** The length of the decoded data. */
  function DecodedLength(len: nat): Option<int> {
    if len == 40 then Some(32)
    else
      var length := Product(len).Floor;
      if len != length + length / 4 then None else Some(length)
  }

  // ----- rounding -----

  function Pow2(k: nat): real {
    if k == 0 then 1.0 else 2.0 * Pow2(k - 1)
  }

  /** Doubling k times brings x to where the doubles are the integers. */
  lemma {:induction false} RoundedScaled(x: real, k: nat, scaled: real)
    requires 0.5 <= x < TWO_53 && scaled == x * Pow2(k) && TWO_52 <= scaled < TWO_53
    ensures RoundedBelow(x) * Pow2(k) == ToEven(scaled) as real
    decreases k
  {
    if k > 0 {
      Doubled(x, k);
      BelowTwo52(x, k);
      RoundedScaled(2.0 * x, k - 1, scaled);
      var rounded := RoundedBelow(x);
      assert 2.0 * rounded == RoundedBelow(2.0 * x);
      Doubled(rounded, k);
    } else {
      assert scaled == x;
    }
  }

  lemma {:induction false} Doubled(x: real, k: nat)
    requires k > 0
    ensures x * Pow2(k) == (2.0 * x) * Pow2(k - 1)
  {
  }

  lemma {:induction false} BelowTwo52(x: real, k: nat)
    requires x >= 0.5 && k > 0 && x * Pow2(k) < TWO_53
    ensures x < TWO_52
  {
    PowAtLeastOne(k - 1);
    AtLeastTwice(x, Pow2(k));
  }

  lemma {:induction false} AtLeastTwice(x: real, y: real)
    requires x >= 0.0 && y >= 2.0
    ensures x * y >= 2.0 * x
  {
    assert x * (y - 2.0) >= 0.0;
  }

  lemma {:induction false} PowAtLeastOne(k: nat)
    ensures Pow2(k) >= 1.0
  {
    if k > 0 { PowAtLeastOne(k - 1); }
  }

  /** An integer not above x stays not above it, and the error is at most half the distance of the doubles. */
  lemma {:induction false} RoundedAtLeast(x: real, whole: int)
    requires 0.5 <= x < TWO_53 && whole as real <= x
    ensures whole as real <= RoundedBelow(x)
    decreases (2.0 * (TWO_53 - x)).Floor
  {
    if x < TWO_52 {
      assert (2 * whole) as real == 2.0 * whole as real;
      RoundedAtLeast(2.0 * x, 2 * whole);
    } else {
      ToEvenAtLeast(x, whole);
    }
  }

  lemma {:induction false} ToEvenAtLeast(x: real, whole: int)
    requires whole as real <= x
    ensures whole <= ToEven(x)
  {
    assert whole <= x.Floor;
  }

  lemma {:induction false} ErrorBelow53(x: real)
    requires 0.5 <= x < TWO_53
    ensures RoundedBelow(x) <= x + 0.5
    decreases (2.0 * (TWO_53 - x)).Floor
  {
    if x < TWO_52 { ErrorBelow53(2.0 * x); }
  }

  lemma {:induction false} ErrorBelow50(x: real)
    requires 0.5 <= x < 1125899906842624.0
    ensures RoundedBelow(x) <= x + 0.0625
  {
    ErrorBelow53(8.0 * x);
    assert RoundedBelow(x) == RoundedBelow(2.0 * x) / 2.0;
    assert RoundedBelow(2.0 * x) == RoundedBelow(4.0 * x) / 2.0;
    assert RoundedBelow(4.0 * x) == RoundedBelow(8.0 * x) / 2.0;
  }

  /** From 2^50 to 2^51 the doubles are the multiples of a quarter. */
  lemma {:induction false} QuartersFrom50(x: real)
    requires TWO_52 / 4.0 <= x < TWO_53 / 4.0
    ensures RoundedBelow(x) == ToEven(4.0 * x) as real / 4.0
  {
    assert RoundedBelow(x) == RoundedBelow(2.0 * x) / 2.0;
    assert RoundedBelow(2.0 * x) == RoundedBelow(4.0 * x) / 2.0;
  }

  lemma {:induction false} ToEvenBelowHalf(x: real, whole: int)
    requires whole as real <= x < whole as real + 0.5
    ensures ToEven(x) == whole
  {
    assert x.Floor == whole;
  }

  lemma {:induction false} ToEvenAtMost(x: real, whole: int)
    requires x < whole as real + 0.5
    ensures ToEven(x) <= whole
  {
    assert x.Floor <= whole;
    if x.Floor == whole { ToEvenBelowHalf(x, whole); }
  }

  /** The first length for which the computation goes wrong, 3 * 2^49. */
  const FIRST_WRONG: nat := 0x6_0000_0000_0000

  /** The exact product is four fifths of the length and less than 0.075 more, below that length. */
  lemma {:induction false} ExactProduct(len: nat)
    ensures var x := len as real * POINT_EIGHT; x == 0.8 * len as real + len as real / 22517998136852480.0
    ensures len < FIRST_WRONG ==> len as real / 22517998136852480.0 < 0.075
  {
    assert POINT_EIGHT == 0.8 + 1.0 / 22517998136852480.0;
  }

  /** What is less than 0.875 above an integer is not rounded to the next one. */
  lemma {:induction false} RoundedBelowNext(x: real, whole: int)
    requires 0.5 <= x < TWO_53 / 4.0 && x < whole as real + 0.875
    ensures RoundedBelow(x) < whole as real + 1.0
  {
    if x < TWO_52 / 4.0 {
      ErrorBelow50(x);
    } else {
      QuartersFrom50(x);
      assert 4.0 * x < (4 * whole + 3) as real + 0.5;
      ToEvenAtMost(4.0 * x, 4 * whole + 3);
    }
  }

  /** Rounding does not take the product to or past the next integer, nor below an integer it has reached. */
  lemma {:induction false} TruncatedProduct(len: nat)
    requires len < FIRST_WRONG
    ensures Product(len).Floor == 4 * len / 5
  {
    if len > 0 {
      var x, whole, rest := len as real * POINT_EIGHT, 4 * len / 5, 4 * len % 5;
      ExactProduct(len);
      assert 0.8 * len as real == whole as real + 0.2 * rest as real;
      RoundedAtLeast(x, whole);
      RoundedBelowNext(x, whole);
      assert whole as real <= Product(len) < whole as real + 1.0;
    }
  }

  /** At 3 * 2^49 the exact product lies halfway between two doubles, and the even one is the next integer. */
  lemma {:induction false} FirstWrongProduct()
    ensures Product(FIRST_WRONG).Floor == 4 * FIRST_WRONG / 5 + 1
  {
    var x := 1351079888211148.875;
    assert FIRST_WRONG as real * POINT_EIGHT == x;
    assert (4.0 * x).Floor == 5404319552844595;
    assert ToEven(4.0 * x) == 5404319552844596;
    QuartersFrom50(x);
  }

  // ----- the lengths -----

  /** The decoder accepts exactly the multiples of 5, and their decoded length is four fifths. */
  predicate DecodesExactly(len: nat) {
    DecodedLength(len) == if len % 5 == 0 then Some(4 * len / 5) else None
  }

  lemma {:induction false} DecodedLengthIsExact(len: nat)
    requires len < FIRST_WRONG
    ensures DecodesExactly(len)
  {
    TruncatedProduct(len);
  }

  /** 3 * 2^49 is not a multiple of 5, and the check accepts it. */
  lemma {:induction false} FirstWrongIsAccepted()
    ensures FIRST_WRONG % 5 == 1 && DecodedLength(FIRST_WRONG).Some? && !DecodesExactly(FIRST_WRONG)
  {
    FirstWrongProduct();
  }

  /** The decoder is right for all lengths below a bound if and only if the bound is at most 3 * 2^49. */
  lemma {:induction false} DecodesExactlyBelowIff(bound: nat)
    ensures (forall len: nat :: len < bound ==> DecodesExactly(len)) <==> bound <= FIRST_WRONG
  {
    if bound <= FIRST_WRONG {
      forall len: nat | len < bound
        ensures DecodesExactly(len)
      {
        DecodedLengthIsExact(len);
      }
    } else {
      FirstWrongIsAccepted();
    }
  }

  /** From there to 5 * 2^49, just the lengths one more than a multiple of 5 are accepted by mistake. */
  lemma {:induction false} DecodesExactlyIff(len: nat)
    requires FIRST_WRONG <= len < 0xA_0000_0000_0000
    ensures DecodesExactly(len) <==> len % 5 != 1
  {
    ProductAbove(len);
  }

  /** There the error has become so large that four fifths of a unit above an integer are rounded to the next one. */
  lemma {:induction false} ProductAbove(len: nat)
    requires FIRST_WRONG <= len < 0xA_0000_0000_0000
    ensures Product(len).Floor == if len % 5 == 1 then 4 * len / 5 + 1 else 4 * len / 5
  {
    var x, whole, rest := len as real * POINT_EIGHT, 4 * len / 5, 4 * len % 5;
    var extra := len as real / 22517998136852480.0;
    ExactProduct(len);
    assert 0.8 * len as real == whole as real + 0.2 * rest as real;
    assert 0.075 <= extra < 0.125 && (len > FIRST_WRONG ==> extra > 0.075);
    RoundedAtLeast(x, whole);
    if len == FIRST_WRONG {
      FirstWrongProduct();
    } else if len % 5 == 1 {
      assert rest == 4;
      QuartersFrom50(x);
      AboveHalf(4.0 * x, 4 * whole + 3);
    } else {
      assert rest <= 3;
      RoundedBelowNext(x, whole);
    }
  }

  lemma {:induction false} AboveHalf(x: real, whole: int)
    requires whole as real + 0.5 < x < whole as real + 1.0
    ensures ToEven(x) == whole + 1
  {
    assert x.Floor == whole;
  }

  /** The encoder accepts exactly the multiples of 4, and their encoded length is five fourths. */
  lemma {:induction false} EncodedLengthIsExact(len: nat)
    ensures EncodedLength(len) == if len % 4 == 0 then Some(5 * len / 4) else None
  {
  }

  lemma {:induction false} FourFifths(len: nat, text: nat)
    requires EncodedLength(len) == Some(text)
    ensures text % 5 == 0 && 4 * text / 5 == len
  {
    var quarter := len / 4;
    assert len == 4 * quarter && text == 5 * quarter;
  }

  /** Decoding gives back the length that was encoded. */
  lemma {:induction false} DecodingInvertsEncoding(len: nat, text: nat)
    requires EncodedLength(len) == Some(text) && text < FIRST_WRONG
    ensures DecodedLength(text) == Some(len)
  {
    FourFifths(len, text);
    DecodedLengthIsExact(text);
  }

  /** And encoding gives back the length that was decoded. */
  lemma {:induction false} EncodingInvertsDecoding(len: nat, data: nat)
    requires DecodedLength(len) == Some(data) && len < FIRST_WRONG
    ensures EncodedLength(data) == Some(len)
  {
    DecodedLengthIsExact(len);
    EncodedLengthIsExact(data);
  }

  /** The constant is 0.8 in double precision. */
  lemma {:induction false} PointEightIsRounded()
    ensures Rounded(0.8) == POINT_EIGHT
  {
    PowOf53();
    RoundedScaled(0.8, 53, 7205759403792793.6);
    assert RoundedBelow(0.8) * TWO_53 == 7205759403792794.0;
  }

  lemma {:induction false} PowOf53()
    ensures Pow2(53) == TWO_53
  {
    assert Pow2(10) == 1024.0;
    PowAdds(10, 10);
    PowAdds(20, 20);
    PowAdds(40, 10);
    PowAdds(50, 3);
  }

  lemma {:induction false} PowAdds(j: nat, k: nat)
    ensures Pow2(j + k) == Pow2(j) * Pow2(k)
    decreases k
  {
    if k > 0 { PowAdds(j, k - 1); }
  }
}
