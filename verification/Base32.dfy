/**
  The unpadded base32 encoding that datastore keys are built with: the alphabet and the
  bit order of section 6 of RFC 4648. Bytes become a stream of bits, most significant
  first, which is cut into groups of five.
*/
module Base32 {
  import opened Common
  import opened Bits

  /** A byte has eight bits and a base32 character stands for five. */
  type Width = w: nat | w == 5 || w == 8 witness 8

  /** The bits of a list of w-bit numbers. */
  function Spread(xs: seq<nat>, w: Width): (bits: seq<bool>)
    ensures |bits| == w * |xs|
  {
    if xs == [] then [] else BitsOf(xs[0], w) + Spread(xs[1..], w)
  }

  /** The w-bit numbers a bit string is cut into; a last group that is too short is dropped. */
  function Groups(bits: seq<bool>, w: Width): (xs: seq<nat>)
    ensures forall i :: 0 <= i < |xs| ==> xs[i] < Pow2(w)
    decreases |bits|
  {
    if |bits| < w then [] else [Value(bits[..w])] + Groups(bits[w..], w)
  }

  lemma FirstGroup(first: seq<bool>, rest: seq<bool>, tail: seq<bool>, w: Width)
    requires |first| == w
    ensures (first + rest + tail)[..w] == first && (first + rest + tail)[w..] == rest + tail
  {}

  lemma {:induction false} GroupsOfSpread(xs: seq<nat>, tail: seq<bool>, w: Width)
    requires w > |tail|
    requires forall i :: 0 <= i < |xs| ==> xs[i] < Pow2(w)
    ensures Groups(Spread(xs, w) + tail, w) == xs
  {
    if xs == [] {
      assert Spread(xs, w) + tail == tail;
    } else {
      FirstGroup(BitsOf(xs[0], w), Spread(xs[1..], w), tail, w);
      ValueOfBits(xs[0], w);
      GroupsOfSpread(xs[1..], tail, w);
    }
  }

  lemma {:induction false} SpreadOfFives(bits: seq<bool>)
    requires |bits| % 5 == 0
    ensures Spread(Groups(bits, 5), 5) == bits
    decreases |bits|
  {
    if |bits| < 5 {
      assert bits == [];
    } else {
      var first, rest := bits[..5], bits[5..];
      assert bits == first + rest;
      BitsOfValue(first);
      SpreadOfFives(rest);
      SpreadCons(Value(first), Groups(rest, 5), 5);
    }
  }

  lemma SpreadCons(x: nat, xs: seq<nat>, w: Width)
    ensures Spread([x] + xs, w) == BitsOf(x, w) + Spread(xs, w)
  {
    assert ([x] + xs)[1..] == xs;
  }

  const ALPHABET := "ABCDEFGHIJKLMNOPQRSTUVWXYZ234567"

  /** A to Z for 0 to 25, then 2 to 7. */
  function Digit(d: nat): byte
    requires d < 32
  {
    if d < 26 then 65 + d else 24 + d
  }

  function DigitValue(c: byte): Option<nat> {
    if 65 <= c <= 90 then Some(c - 65) else if 50 <= c <= 55 then Some(c - 24) else None
  }

  /** The zero bits that fill up the last group of five. */
  function Padding(n: nat): seq<bool> {
    seq((5 - n % 5) % 5, _ => false)
  }

  /** The bits of data, filled up to whole groups of five. */
  function PaddedBits(data: Bytes): (bits: seq<bool>)
    ensures |bits| % 5 == 0
  {
    var bits := Spread(data, 8);
    bits + Padding(|bits|)
  }

  function Digits(groups: seq<nat>): (text: Bytes)
    requires forall i :: 0 <= i < |groups| ==> groups[i] < 32
    ensures |text| == |groups|
    ensures forall i :: 0 <= i < |text| ==> text[i] == Digit(groups[i])
  {
    seq(|groups|, i requires 0 <= i < |groups| => Digit(groups[i]))
  }

  function Encode(data: Bytes): (text: Bytes) {
    assert Pow2(5) == 32;
    Digits(Groups(PaddedBits(data), 5))
  }

  predicate InAlphabet(text: Bytes) {
    forall i :: 0 <= i < |text| ==> DigitValue(text[i]).Some?
  }

  function DigitValues(text: Bytes): (groups: seq<nat>)
    requires InAlphabet(text)
    ensures |groups| == |text|
    ensures forall i :: 0 <= i < |text| ==> groups[i] == DigitValue(text[i]).value
  {
    seq(|text|, i requires 0 <= i < |text| => DigitValue(text[i]).value)
  }

  function AsBytes(xs: seq<nat>): (data: Bytes)
    requires forall i :: 0 <= i < |xs| ==> xs[i] < 256
    ensures data == xs
  {
    seq(|xs|, i requires 0 <= i < |xs| => xs[i])
  }

  /** Decodes text, or fails when a character is not in the alphabet. */
  function Decode(text: Bytes): Option<Bytes> {
    if !InAlphabet(text) then None
    else
      assert Pow2(8) == 256;
      Some(AsBytes(Groups(Spread(DigitValues(text), 5), 8)))
  }

  /** Decoding undoes encoding, for every byte string. */
  lemma RoundTrip(data: Bytes)
    ensures Decode(Encode(data)) == Some(data)
  {
    assert Pow2(5) == 32 && Pow2(8) == 256;
    var groups := Groups(PaddedBits(data), 5);
    assert DigitValues(Digits(groups)) == groups;
    SpreadOfFives(PaddedBits(data));
    var bits := Spread(data, 8);
    GroupsOfSpread(data, Padding(|bits|), 8);
  }

  /** Distinct byte strings have distinct encodings. */
  lemma Injective(a: Bytes, b: Bytes)
    requires Encode(a) == Encode(b)
    ensures a == b
  {
    RoundTrip(a);
    RoundTrip(b);
  }

  /** An encoding is made of letters and digits, and it is empty only for the empty string. */
  lemma Alphabet(data: Bytes)
    ensures forall c :: c in Encode(data) ==> 65 <= c <= 90 || 50 <= c <= 55
    ensures Encode(data) == [] <==> data == []
  {
    if Encode(data) == [] {
      RoundTrip(data);
      assert Decode([]) == Some([]);
    }
  }

  /** The digits are the characters of the alphabet in their order. */
  lemma DigitsFollowAlphabet(d: nat)
    requires d < 32
    ensures |ALPHABET| == 32 && Digit(d) == ALPHABET[d] as int && DigitValue(Digit(d)) == Some(d)
  {}

  /** Decoding fails exactly on a character that is not in the alphabet. */
  lemma DecodeFailsExactlyWhen(text: Bytes)
    ensures Decode(text).None? <==> exists i :: 0 <= i < |text| && !exists d :: 0 <= d < 32 && text[i] == Digit(d)
  {
    forall i | 0 <= i < |text| ensures DigitValue(text[i]).Some? <==> exists d :: 0 <= d < 32 && text[i] == Digit(d) {
      if DigitValue(text[i]).Some? {
        assert text[i] == Digit(DigitValue(text[i]).value);
      }
    }
  }

  /** The number that w-bit digits spell, the first being the most significant. */
  function Number(xs: seq<nat>, w: Width): nat {
    if xs == [] then 0 else xs[0] * Pow2(w * (|xs| - 1)) + Number(xs[1..], w)
  }

  lemma {:induction false} SpreadKeepsNumber(xs: seq<nat>, w: Width)
    requires forall i :: 0 <= i < |xs| ==> xs[i] < Pow2(w)
    ensures Value(Spread(xs, w)) == Number(xs, w)
  {
    if xs != [] {
      SpreadKeepsNumber(xs[1..], w);
      ValueOfBits(xs[0], w);
      ValueOfConcat(BitsOf(xs[0], w), Spread(xs[1..], w));
    }
  }

  lemma GroupsKeepNumber(bits: seq<bool>)
    requires |bits| % 5 == 0
    ensures Number(Groups(bits, 5), 5) == Value(bits) && 5 * |Groups(bits, 5)| == |bits|
  {
    SpreadOfFives(bits);
    SpreadKeepsNumber(Groups(bits, 5), 5);
  }

  lemma PaddingKeepsNumber(data: Bytes)
    ensures |PaddedBits(data)| - 8 * |data| == |Padding(8 * |data|)| < 5
    ensures Value(PaddedBits(data)) == Number(data, 8) * Pow2(|Padding(8 * |data|)|)
  {
    assert Pow2(8) == 256;
    var bits := Spread(data, 8);
    SpreadKeepsNumber(data, 8);
    ValueOfConcat(bits, Padding(|bits|));
    ZerosAreZero(Padding(|bits|));
  }

  lemma DigitsOfEncoded(data: Bytes)
    ensures InAlphabet(Encode(data)) && DigitValues(Encode(data)) == Groups(PaddedBits(data), 5)
  {
    assert Pow2(5) == 32;
  }

  lemma EncodedNumber(data: Bytes)
    ensures InAlphabet(Encode(data)) && 5 * |Encode(data)| == |PaddedBits(data)|
    ensures Number(DigitValues(Encode(data)), 5) == Value(PaddedBits(data))
  {
    DigitsOfEncoded(data);
    GroupsKeepNumber(PaddedBits(data));
  }

  /**
    What encoding means: read as a number in base 32, the text is the data read in base 256,
    followed by the fewest zero bits that make whole digits.
  */
  lemma EncodeIsSameNumber(data: Bytes)
    ensures var text := Encode(data);
      var zeros := 5 * |text| - 8 * |data|;
      && 0 <= zeros < 5 && InAlphabet(text)
      && Number(DigitValues(text), 5) == Number(data, 8) * Pow2(zeros)
  {
    EncodedNumber(data);
    PaddingKeepsNumber(data);
  }

  /** One of the test vectors in section 10 of RFC 4648, without padding. */
  lemma EncodeExample()
    ensures Encode(Ascii("f")) == Ascii("MY")
  {
    EncodeIsSameNumber(Ascii("f"));
    var text := Encode(Ascii("f"));
    var ds := DigitValues(text);
    assert Ascii("f") == [102];
    OneDigit(102, 8);
    assert |text| == 2 && Pow2(2) == 4;
    TwoDigits(ds);
    assert text[0] == Digit(12) && text[1] == Digit(24);
  }

  lemma OneDigit(x: nat, w: Width)
    ensures Number([x], w) == x
  {
    assert [x][1..] == [] && Pow2(0) == 1;
  }

  lemma TwoDigits(ds: seq<nat>)
    requires |ds| == 2 && ds[0] < 32 && ds[1] < 32 && Number(ds, 5) == 408
    ensures ds[0] == 12 && ds[1] == 24
  {
    assert ds[1..] == [ds[1]];
    OneDigit(ds[1], 5);
    assert Pow2(5) == 32;
  }
}
