/**
  * Values shared by every part of the model.
  *
  * A Go `string` and a Go `[]byte` are both sequences of bytes; the session-token and
  * authentication layers work on them as `Bytes`. `Option` and `Result` stand for Go's
  * `(value, error)` returns and nil pointers.
  */
module Common {

  /** A Go `byte`. */
  type byte = b: int | 0 <= b < 256

  /** A Go `string` or `[]byte`. */
  type Bytes = seq<byte>

  datatype Option<+T> = None | Some(value: T)

  /** A Go `(value, err)` pair in which exactly one side is meaningful. */
  datatype Result<+T, +E> = Ok(value: T) | Err(error: E)

  /** The byte `:` that separates a claim's label from its value. */
  const Colon: byte := 58

  /** The bytes of a 7-bit ASCII literal. */
  function Ascii(s: string): (r: Bytes)
    requires forall i | 0 <= i < |s| :: s[i] as int < 128
    ensures |r| == |s|
    ensures forall i | 0 <= i < |s| :: r[i] == s[i] as int
  {
    if s == [] then [] else [s[0] as int] + Ascii(s[1..])
  }

  /** The position of the first `b` in `s`, or -1 when there is none (Go's `strings.IndexByte`). */
  function IndexByte(s: Bytes, b: byte): (i: int)
    ensures -1 <= i < |s|
    ensures i == -1 <==> b !in s
    ensures 0 <= i ==> s[i] == b && b !in s[..i]
  {
    if s == [] then -1
    else if s[0] == b then 0
    else
      var j := IndexByte(s[1..], b);
      if j == -1 then -1 else j + 1
  }

  /**
    * Go's `strings.Cut(s, ":")`: the text before and after the FIRST `:`, or `None`
    * (Go's `ok == false`) when `s` holds no `:`.
    */
  function Cut(s: Bytes): (r: Option<(Bytes, Bytes)>)
    ensures r.None? <==> Colon !in s
    ensures r.Some? ==> s == r.value.0 + [Colon] + r.value.1 && Colon !in r.value.0
  {
    var i := IndexByte(s, Colon);
    if i == -1 then None
    else
      assert s == s[..i] + [Colon] + s[i + 1..];
      Some((s[..i], s[i + 1..]))
  }

  /** Cutting `a:b` gives back `a` and `b` whenever `a` holds no `:`. */
  lemma {:induction false} CutJoin(a: Bytes, b: Bytes)
    requires Colon !in a
    ensures Cut(a + [Colon] + b) == Some((a, b))
  {
    var s := a + [Colon] + b;
    var i := IndexByte(s, Colon);
    assert s[|a|] == Colon;
    assert s[..|a|] == a;
    assert s[i + 1..] == b;
  }

  /** `w + x + y` and `w + (x + y)` are the same text. */
  lemma Regroup(w: string, x: string, y: string)
    ensures w + x + y == w + (x + y)
  {
  }
}
