/** A read position over an immutable byte buffer, after `std::io::Cursor`.

    A position is any natural number: moving it past the end of the buffer
    is allowed and costs nothing, but every read from there sees no bytes,
    so a read that needs bytes fails with `UnexpectedEof`. */
module Cursor {
  import opened Wrappers
  import opened Bytes

  /** A value read from the buffer and the position just after it. */
  datatype Read<+T> = Read(value: T, next: nat)

  /** A value produced by a stream decoder and the number of bytes it used. */
  datatype Decoded<+T> = Decoded(value: T, used: nat)

  /** A consensus decoder run on the bytes that remain in the buffer. */
  type Decoder<!T> = seq<byte> -> Result<Decoded<T>>

  /** The bytes a read at `pos` can see. */
  function Remaining(buf: seq<byte>, pos: nat): (rest: seq<byte>)
    ensures pos <= |buf| ==> |rest| == |buf| - pos
    ensures pos >= |buf| ==> rest == []
    ensures forall i :: 0 <= i < |rest| ==> rest[i] == buf[pos + i]
  {
    if pos <= |buf| then buf[pos..] else []
  }

  /** Runs `decode` at `pos` and advances past the bytes it used. */
  function ReadWith<T>(decode: Decoder<T>, buf: seq<byte>, pos: nat): (r: Result<Read<T>>)
    ensures r.Ok? ==> pos <= r.value.next
  {
    match decode(Remaining(buf, pos))
    case Err(e) => Err(e)
    case Ok(d) => Ok(Read(d.value, pos + d.used))
  }

  /** A decoder that behaves like one reading a stream: once it succeeds
      on some bytes, more bytes after them change nothing. */
  ghost predicate Streaming<T>(decode: Decoder<T>) {
    forall s: seq<byte>, t: seq<byte> | s <= t && decode(s).Ok? :: decode(t) == decode(s)
  }

  /** Appending bytes to the buffer only extends what a read can see. */
  lemma RemainingOfLonger(buf: seq<byte>, tail: seq<byte>, pos: nat)
    ensures Remaining(buf, pos) <= Remaining(buf + tail, pos)
  {
  }

  /** A successful read of a stream decoder does not depend on the bytes
      after the buffer. */
  lemma ReadWithOfLonger<T>(decode: Decoder<T>, buf: seq<byte>, tail: seq<byte>, pos: nat)
    requires Streaming(decode)
    requires ReadWith(decode, buf, pos).Ok?
    ensures ReadWith(decode, buf + tail, pos) == ReadWith(decode, buf, pos)
  {
    RemainingOfLonger(buf, tail, pos);
  }

  /** On input `t`, a successful decode uses at most the bytes it is given,
      and every prefix of `t` that still holds those bytes decodes the
      same. */
  ghost predicate ReadsOnlyUsedOf<T>(decode: Decoder<T>, t: seq<byte>) {
    decode(t).Ok? ==>
      && decode(t).value.used <= |t|
      && forall n: nat | decode(t).value.used <= n <= |t| :: decode(t[..n]) == decode(t)
  }

  /** A decoder whose result depends only on the bytes it reports as used.
      A decoder that reads a stream without looking ahead behaves so. */
  ghost predicate ReadsOnlyUsed<T>(decode: Decoder<T>) {
    forall t: seq<byte> :: ReadsOnlyUsedOf(decode, t)
  }

  /** Cutting the buffer at `e` cuts what a read at `pos` can see at `e`. */
  lemma RemainingOfPrefix(buf: seq<byte>, e: nat, pos: nat)
    requires pos <= e <= |buf|
    ensures Remaining(buf[..e], pos) <= Remaining(buf, pos)
    ensures |Remaining(buf[..e], pos)| == e - pos
  {
  }

  /** A read that starts inside the buffer also ends inside it. */
  lemma ReadWithInside<T>(decode: Decoder<T>, buf: seq<byte>, pos: nat)
    requires ReadsOnlyUsed(decode)
    requires ReadWith(decode, buf, pos).Ok?
    requires pos <= |buf|
    ensures ReadWith(decode, buf, pos).value.next <= |buf|
  {
    assert ReadsOnlyUsedOf(decode, Remaining(buf, pos));
  }

  /** A successful read does not depend on the bytes after the ones it
      used. */
  lemma ReadWithOfPrefix<T>(decode: Decoder<T>, buf: seq<byte>, e: nat, pos: nat)
    requires ReadsOnlyUsed(decode)
    requires ReadWith(decode, buf, pos).Ok?
    requires ReadWith(decode, buf, pos).value.next <= e <= |buf|
    ensures ReadWith(decode, buf[..e], pos) == ReadWith(decode, buf, pos)
  {
    var t := Remaining(buf, pos);
    var s := Remaining(buf[..e], pos);
    RemainingOfPrefix(buf, e, pos);
    assert ReadsOnlyUsedOf(decode, t);
    assert s == t[..e - pos];
  }
}
