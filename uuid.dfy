/**
  * The part of `github.com/google/uuid` the session code relies on: a UUID is sixteen
  * bytes, `String` writes the canonical 8-4-4-4-12 lower-case form of section 3 of
  * RFC 4122, and `Parse` (which also accepts other spellings) is a library call whose
  * one needed law is that it reads back what `String` wrote.
  */
module Uuid {
  import opened Common
  import Hex

  type UUID = u: Bytes | |u| == 16 witness [0, 0, 0, 0, 0, 0, 0, 0, 0, 0, 0, 0, 0, 0, 0, 0]

  /** The zero value of Go's `uuid.UUID`. */
  const Nil: UUID := [0, 0, 0, 0, 0, 0, 0, 0, 0, 0, 0, 0, 0, 0, 0, 0]

  const Dash: byte := 45

  /** `UUID.String()`: `xxxxxxxx-xxxx-xxxx-xxxx-xxxxxxxxxxxx`. */
  function String(u: UUID): (s: Bytes)
    ensures |s| == 36
    ensures s[8] == Dash && s[13] == Dash && s[18] == Dash && s[23] == Dash
    ensures Colon !in s
  {
    var s := Hex.Encode(u[..4]) + [Dash] + Hex.Encode(u[4..6]) + [Dash] + Hex.Encode(u[6..8])
      + [Dash] + Hex.Encode(u[8..10]) + [Dash] + Hex.Encode(u[10..]);
    assert forall i | 0 <= i < |s| :: s[i] == Dash || Hex.Nibble(s[i]).Some?;
    s
  }

  /** Different UUIDs have different canonical strings. */
  lemma StringInjective(u: UUID, v: UUID)
    requires String(u) == String(v)
    ensures u == v
  {
    SegmentsOf(u);
    SegmentsOf(v);
    Hex.EncodeInjective(u[..4], v[..4]);
    Hex.EncodeInjective(u[4..6], v[4..6]);
    Hex.EncodeInjective(u[6..8], v[6..8]);
    Hex.EncodeInjective(u[8..10], v[8..10]);
    Hex.EncodeInjective(u[10..], v[10..]);
    assert u == u[..4] + u[4..6] + u[6..8] + u[8..10] + u[10..];
    assert v == v[..4] + v[4..6] + v[6..8] + v[8..10] + v[10..];
  }

  lemma SegmentsOf(u: UUID)
    ensures var s := String(u);
      && s[..8] == Hex.Encode(u[..4]) && s[9..13] == Hex.Encode(u[4..6])
      && s[14..18] == Hex.Encode(u[6..8]) && s[19..23] == Hex.Encode(u[8..10])
      && s[24..] == Hex.Encode(u[10..])
  {
  }

  /** The law `uuid.Parse` obeys: it reads back every canonical string. */
  ghost predicate ParseInverts(parse: Bytes -> Option<UUID>) {
    forall u: UUID :: parse(String(u)) == Some(u)
  }
}
