/**
  * Go's `base64.URLEncoding`: the URL- and filename-safe alphabet of section 5 of
  * RFC 4648, WITH `=` padding, in Go's default (non-strict) decoding mode.
  *
  * Decoding as Go does it:
  *  - carriage returns and line feeds anywhere in the input are skipped;
  *  - the rest must be whole four-character quanta;
  *  - only the last quantum may end in `=` (one byte short) or `==` (two bytes short);
  *  - unused low bits of the last character are ignored (non-strict mode).
  */
module Base64Url {
  import opened Common

  /** A six-bit group. */
  type Sextet = x: int | 0 <= x < 64

  const Pad: byte := 61  // '='
  const CR: byte := 13
  const LF: byte := 10

  /** The character that encodes `x`: `A-Z`, `a-z`, `0-9`, `-`, `_`. */
  function Letter(x: Sextet): (c: byte)
    ensures c != Pad && c != CR && c != LF
    ensures Value(c) == Some(x)
  {
    if x < 26 then 65 + x
    else if x < 52 then 97 + (x - 26)
    else if x < 62 then 48 + (x - 52)
    else if x == 62 then 45
    else 95
  }

  /** The six-bit group a character stands for, or `None` outside the alphabet. */
  function Value(c: byte): (r: Option<Sextet>)
    ensures r.Some? ==> c != Pad && c != CR && c != LF
  {
    if 65 <= c <= 90 then Some(c - 65)
    else if 97 <= c <= 122 then Some(c - 97 + 26)
    else if 48 <= c <= 57 then Some(c - 48 + 52)
    else if c == 45 then Some(62)
    else if c == 95 then Some(63)
    else None
  }

  /** `EncodeToString`: three bytes become four characters; a short tail is padded. */
  function Encode(src: Bytes): (r: Bytes)
    ensures |r| == 4 * ((|src| + 2) / 3)
    ensures forall i | 0 <= i < |r| :: r[i] != CR && r[i] != LF
    decreases |src|
  {
    if |src| == 0 then []
    else if |src| == 1 then
      [Letter(src[0] / 4), Letter(src[0] % 4 * 16), Pad, Pad]
    else if |src| == 2 then
      [Letter(src[0] / 4), Letter(src[0] % 4 * 16 + src[1] / 16), Letter(src[1] % 16 * 4), Pad]
    else
      [Letter(src[0] / 4), Letter(src[0] % 4 * 16 + src[1] / 16),
       Letter(src[1] % 16 * 4 + src[2] / 64), Letter(src[2] % 64)] + Encode(src[3..])
  }

  /** The input with every carriage return and line feed removed. */
  function SkipNewlines(s: Bytes): (r: Bytes)
    ensures |r| <= |s|
  {
    if s == [] then []
    else if s[0] == CR || s[0] == LF then SkipNewlines(s[1..])
    else [s[0]] + SkipNewlines(s[1..])
  }

  /** Decodes whole quanta (newlines already skipped); `None` is Go's `CorruptInputError`. */
  function DecodeQuanta(s: Bytes): (r: Option<Bytes>)
    decreases |s|
  {
    if |s| == 0 then Some([])
    else if |s| < 4 then None  // input ends inside a quantum: padding was required
    else
      match (Value(s[0]), Value(s[1]), Value(s[2]), Value(s[3]))
      case (Some(x0), Some(x1), Some(x2), Some(x3)) =>
        var c0: int, c1: int, c2: int, c3: int := x0, x1, x2, x3;
        var tail := DecodeQuanta(s[4..]);
        if tail.None? then None
        else Some([c0 * 4 + c1 / 16, c1 % 16 * 16 + c2 / 4, c2 % 4 * 64 + c3] + tail.value)
      case (Some(x0), Some(x1), Some(x2), None) =>
        var c0: int, c1: int, c2: int := x0, x1, x2;
        // "xxx=" must be the last quantum
        if s[3] == Pad && |s| == 4 then Some([c0 * 4 + c1 / 16, c1 % 16 * 16 + c2 / 4]) else None
      case (Some(x0), Some(x1), None, _) =>
        var c0: int, c1: int := x0, x1;
        // "xx==" must be the last quantum
        if s[2] == Pad && s[3] == Pad && |s| == 4 then Some([c0 * 4 + c1 / 16]) else None
      case _ => None
  }

  /** Accepted input is whole quanta, four characters per started three bytes decoded. */
  lemma {:induction false} DecodeQuantaLength(s: Bytes)
    ensures DecodeQuanta(s).Some? ==> |s| % 4 == 0 && |s| == 4 * ((|DecodeQuanta(s).value| + 2) / 3)
    decreases |s|
  {
    if |s| >= 4 {
      DecodeQuantaLength(s[4..]);
    }
  }

  /**
    * `DecodeString`: `None` when the input is not padded base64url. Go skips CR and LF
    * and refuses every input whose remaining length is not a multiple of four.
    */
  function Decode(s: Bytes): (r: Option<Bytes>)
    ensures |s| == 0 ==> r == Some([])
    ensures r.Some? ==> |SkipNewlines(s)| % 4 == 0 && |Encode(r.value)| == |SkipNewlines(s)|
  {
    DecodeQuantaLength(SkipNewlines(s));
    DecodeQuanta(SkipNewlines(s))
  }

  lemma SkipNewlinesKeeps(s: Bytes)
    requires forall i | 0 <= i < |s| :: s[i] != CR && s[i] != LF
    ensures SkipNewlines(s) == s
  {
  }

  /** One quantum of three bytes decodes back to the same three bytes. */
  lemma DecodeFullQuantum(a: byte, b: byte, c: byte, rest: Bytes)
    ensures
      var q := [Letter(a / 4), Letter(a % 4 * 16 + b / 16), Letter(b % 16 * 4 + c / 64), Letter(c % 64)];
      DecodeQuanta(q + rest) ==
        if DecodeQuanta(rest).None? then None else Some([a, b, c] + DecodeQuanta(rest).value)
  {
    var q := [Letter(a / 4), Letter(a % 4 * 16 + b / 16), Letter(b % 16 * 4 + c / 64), Letter(c % 64)];
    assert (q + rest)[4..] == rest;
    assert (a % 4 * 16 + b / 16) / 16 == a % 4;
    assert (a % 4 * 16 + b / 16) % 16 == b / 16;
    assert (b % 16 * 4 + c / 64) / 4 == b % 16;
    assert (b % 16 * 4 + c / 64) % 4 == c / 64;
  }

  /** Go's decoder gives back exactly the bytes its encoder was given. */
  lemma {:induction false} DecodeEncode(src: Bytes)
    ensures Decode(Encode(src)) == Some(src)
  {
    SkipNewlinesKeeps(Encode(src));
    DecodeQuantaEncode(src);
  }

  /** A final quantum of one byte, `xx==`, decodes back to that byte. */
  lemma DecodeOneByte(a: byte)
    ensures DecodeQuanta(Encode([a])) == Some([a])
  {
    assert (a % 4 * 16) / 16 == a % 4;
    assert a / 4 * 4 + a % 4 == a;
  }

  /** A final quantum of two bytes, `xxx=`, decodes back to those bytes. */
  lemma DecodeTwoBytes(a: byte, b: byte)
    ensures DecodeQuanta(Encode([a, b])) == Some([a, b])
  {
    assert (a % 4 * 16 + b / 16) / 16 == a % 4;
    assert (a % 4 * 16 + b / 16) % 16 == b / 16;
    assert (b % 16 * 4) / 4 == b % 16;
  }

  lemma {:induction false} DecodeQuantaEncode(src: Bytes)
    ensures DecodeQuanta(Encode(src)) == Some(src)
    decreases |src|
  {
    if |src| == 0 {
    } else if |src| == 1 {
      assert src == [src[0]];
      DecodeOneByte(src[0]);
    } else if |src| == 2 {
      assert src == [src[0], src[1]];
      DecodeTwoBytes(src[0], src[1]);
    } else {
      DecodeQuantaEncode(src[3..]);
      DecodeFullQuantum(src[0], src[1], src[2], Encode(src[3..]));
      assert src == [src[0], src[1], src[2]] + src[3..];
    }
  }
}
