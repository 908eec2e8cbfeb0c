/** Turning the sampled bit string into the marker label: the string is
    reversed (the first slot read is the least significant bit) and parsed as
    a base-2 integer. */
module Decoding {
  import opened Common

  function Digit(c: char): (r: nat)
    ensures r <= 1
    ensures c == '1' <==> r == 1
  {
    if c == '1' then 1 else 0
  }

  function Pow2(k: nat): (r: nat)
    ensures r >= 1
  {
    if k == 0 then 1 else 2 * Pow2(k - 1)
  }

  /** The slice `s[::-1]`. */
  function Reverse(s: seq<char>): (r: seq<char>)
    ensures |r| == |s|
    ensures forall i :: 0 <= i < |s| ==> r[i] == s[|s| - 1 - i]
  {
    if s == [] then [] else Reverse(s[1..]) + [s[0]]
  }

  /** `int(s, 2)` for strings made of the digits 0 and 1, read most
      significant digit first; an empty string or another character raises
      ValueError. */
  function ParseBinary(s: seq<char>): (r: Result<nat>)
    ensures r.Ok? <==> |s| >= 1 && IsBinary(s)
    ensures r.Err? ==> r.fault == ValueError
  {
    if s == [] then Err(ValueError)
    else if !IsBinary(s) then Err(ValueError)
    else Ok(Horner(s))
  }

  /** The value of a digit string read most significant digit first. */
  function Horner(s: seq<char>): nat {
    if s == [] then 0 else 2 * Horner(s[..|s| - 1]) + Digit(s[|s| - 1])
  }

  /** The label: the bits, first-read bit least significant. It exists
      exactly for a nonempty string of binary digits; otherwise `int`
      raises ValueError. */
  function Decode(bits: seq<char>): (r: Result<nat>)
    ensures r.Ok? <==> |bits| >= 1 && IsBinary(bits)
    ensures r.Err? ==> r.fault == ValueError
  {
    ReverseBinary(bits);
    ParseBinary(Reverse(bits))
  }

  /** Reversal keeps a string binary, and only a binary one. */
  lemma ReverseBinary(s: seq<char>)
    ensures IsBinary(Reverse(s)) <==> IsBinary(s)
  {
    var r := Reverse(s);
    if IsBinary(s) {
      assert forall i :: 0 <= i < |r| ==> r[i] == s[|s| - 1 - i];
    }
    if IsBinary(r) {
      assert forall i :: 0 <= i < |s| ==> s[i] == r[|r| - 1 - i];
    }
  }

  /** The reference meaning of a bit string read least significant bit
      first: the sum of Digit(bits[i]) * 2^i. */
  function PlaceValue(bits: seq<char>): nat {
    if bits == [] then 0 else Digit(bits[0]) + 2 * PlaceValue(bits[1..])
  }

  lemma ReverseCons(s: seq<char>)
    requires s != []
    ensures Reverse(s) == Reverse(s[1..]) + [s[0]]
  {
  }

  /** Reversing and parsing most significant digit first gives the place
      value with the first bit least significant. */
  lemma {:induction false} HornerReverse(bits: seq<char>)
    ensures Horner(Reverse(bits)) == PlaceValue(bits)
  {
    if bits != [] {
      var r := Reverse(bits);
      ReverseCons(bits);
      assert r[..|r| - 1] == Reverse(bits[1..]);
      assert r[|r| - 1] == bits[0];
      HornerReverse(bits[1..]);
    }
  }

  /** Decoding fails exactly on the empty or non-binary string, and
      otherwise yields the place value of the bits. */
  lemma DecodeMeaning(bits: seq<char>)
    ensures Decode(bits).Ok? <==> |bits| >= 1 && IsBinary(bits)
    ensures Decode(bits).Ok? ==> Decode(bits).value == PlaceValue(bits)
  {
    HornerReverse(bits);
  }

  /** n bits give a value below 2^n. */
  lemma {:induction false} PlaceValueBound(bits: seq<char>)
    ensures PlaceValue(bits) < Pow2(|bits|)
  {
    if bits != [] {
      PlaceValueBound(bits[1..]);
    }
  }

  /** Five slots give a label in 0..31. */
  lemma FiveBitLabel(bits: seq<char>)
    requires |bits| == 5 && IsBinary(bits)
    ensures Decode(bits).Ok? && Decode(bits).value < 32
  {
    DecodeMeaning(bits);
    PlaceValueBound(bits);
  }

  /** The bits of a label, least significant first, padded to `width`. */
  function Encode(id: nat, width: nat): (r: seq<char>)
    ensures |r| == width && IsBinary(r)
  {
    if width == 0 then [] else [if id % 2 == 1 then '1' else '0'] + Encode(id / 2, width - 1)
  }

  /** Every label below 2^width comes back from its own bits. */
  lemma {:induction false} DecodeEncode(id: nat, width: nat)
    requires id < Pow2(width)
    ensures PlaceValue(Encode(id, width)) == id
  {
    if width > 0 {
      var e := Encode(id, width);
      assert e[1..] == Encode(id / 2, width - 1);
      DecodeEncode(id / 2, width - 1);
    }
  }

  /** Every binary string is the encoding of its own value: no two bit
      strings of one length decode to the same label. */
  lemma {:induction false} EncodeDecode(bits: seq<char>)
    requires IsBinary(bits)
    ensures Encode(PlaceValue(bits), |bits|) == bits
  {
    if bits != [] {
      var v := PlaceValue(bits);
      var rest := bits[1..];
      assert IsBinary(rest) by {
        assert forall i :: 0 <= i < |rest| ==> rest[i] == bits[i + 1];
      }
      EncodeDecode(rest);
      assert v % 2 == Digit(bits[0]) && v / 2 == PlaceValue(rest);
    }
  }
}
