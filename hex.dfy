/**
  * Go's `encoding/hex`: `EncodeToString` writes two lower-case digits per byte;
  * `DecodeString` accepts digits of either case and fails on an odd length or on any
  * byte that is not a hexadecimal digit.
  */
module Hex {
  import opened Common

  /** The lower-case digit for `x`. */
  function Digit(x: int): (c: byte)
    requires 0 <= x < 16
    ensures Nibble(c) == Some(x)
  {
    if x < 10 then 48 + x else 97 + (x - 10)
  }

  /** The value of a hexadecimal digit (`0-9`, `a-f`, `A-F`), or `None`. */
  function Nibble(c: byte): (r: Option<int>)
    ensures r.Some? ==> 0 <= r.value < 16
  {
    if 48 <= c <= 57 then Some(c - 48)
    else if 97 <= c <= 102 then Some(c - 97 + 10)
    else if 65 <= c <= 70 then Some(c - 65 + 10)
    else None
  }

  predicate AllDigits(s: Bytes) {
    forall i | 0 <= i < |s| :: Nibble(s[i]).Some?
  }

  function Encode(b: Bytes): (r: Bytes)
    ensures |r| == 2 * |b|
    ensures AllDigits(r)
  {
    if b == [] then [] else [Digit(b[0] / 16), Digit(b[0] % 16)] + Encode(b[1..])
  }

  /** `DecodeString`: `None` stands for Go's `ErrLength` and `InvalidByteError`. */
  function Decode(s: Bytes): (r: Option<Bytes>)
    ensures r.Some? <==> |s| % 2 == 0 && AllDigits(s)
    ensures r.Some? ==> |r.value| == |s| / 2
    decreases |s|
  {
    if |s| == 0 then Some([])
    else if |s| == 1 then None
    else
      AllDigitsSplit(s);
      var rest := Decode(s[2..]);
      if Nibble(s[0]).None? || Nibble(s[1]).None? || rest.None? then None
      else Some([Nibble(s[0]).value * 16 + Nibble(s[1]).value] + rest.value)
  }

  lemma AllDigitsSplit(s: Bytes)
    requires |s| >= 2
    ensures AllDigits(s) <==> Nibble(s[0]).Some? && Nibble(s[1]).Some? && AllDigits(s[2..])
  {
    if Nibble(s[0]).Some? && Nibble(s[1]).Some? && AllDigits(s[2..]) {
      forall i | 2 <= i < |s| ensures Nibble(s[i]).Some? {
        assert s[i] == s[2..][i - 2];
      }
    }
  }

  /** Decoding what `Encode` wrote gives back the original bytes. */
  lemma {:induction false} DecodeEncode(b: Bytes)
    ensures Decode(Encode(b)) == Some(b)
  {
    if b != [] {
      var e := Encode(b);
      assert e[2..] == Encode(b[1..]);
      DecodeEncode(b[1..]);
      assert b == [b[0] / 16 * 16 + b[0] % 16] + b[1..];
    }
  }

  /** Different byte strings have different encodings. */
  lemma EncodeInjective(a: Bytes, b: Bytes)
    requires Encode(a) == Encode(b)
    ensures a == b
  {
    DecodeEncode(a);
    DecodeEncode(b);
  }
}
