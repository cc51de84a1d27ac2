/** CompactSize integers ("VarInt" in the consensus library): a first byte
    below 0xFD is the value itself; 0xFD, 0xFE and 0xFF are followed by the
    value as a 2-, 4- or 8-byte little-endian number. */
module CompactSize {
  import opened Wrappers
  import opened Bytes
  import opened Cursor

  /** Number of value bytes after a first byte that is 0xFD or above. */
  function PayloadWidth(first: byte): nat
    requires first >= 0xFD
  {
    if first == 0xFD then 2 else if first == 0xFE then 4 else 8
  }

  /** Number of bytes a CompactSize starting with `first` occupies. */
  function EncodedWidth(first: byte): nat {
    if first < 0xFD then 1 else 1 + PayloadWidth(first)
  }

  /** Reads a CompactSize at `pos`. */
  function ReadVarInt(buf: seq<byte>, pos: nat): (r: Result<Read<nat>>)
    ensures r.Ok? <==> pos < |buf| && pos + EncodedWidth(buf[pos]) <= |buf|
    ensures r.Ok? ==> pos < |buf| && r.value.next == pos + EncodedWidth(buf[pos])
    ensures r.Ok? ==> r.value.value < Pow256(8)
    ensures r.Err? ==> r.error == UnexpectedEof
  {
    if |buf| <= pos then Err(UnexpectedEof)
    else if buf[pos] < 0xFD then Ok(Read(buf[pos], pos + 1))
    else if |buf| < pos + EncodedWidth(buf[pos]) then Err(UnexpectedEof)
    else Ok(Read(LittleEndian(buf[pos + 1..pos + EncodedWidth(buf[pos])]), pos + EncodedWidth(buf[pos])))
  }

  /** The width of the shortest CompactSize encoding of `n`. */
  function MinimalWidth(n: nat): nat {
    if n < 0xFD then 1 else if n < 0x1_0000 then 3 else if n < 0x1_0000_0000 then 5 else 9
  }

  /** The shortest CompactSize encoding of `n`, as the consensus library
      writes it. */
  function EncodeVarInt(n: nat): (s: seq<byte>)
    requires n < Pow256(8)
    ensures |s| == MinimalWidth(n)
    ensures 0 < |s| && EncodedWidth(s[0]) == |s|
  {
    if n < 0xFD then [n as byte]
    else if n < 0x1_0000 then [0xFD] + ToLittleEndian(n, 2)
    else if n < 0x1_0000_0000 then [0xFE] + ToLittleEndian(n, 4)
    else [0xFF] + ToLittleEndian(n, 8)
  }

  /** Reading an encoded value back gives the value and moves past exactly
      its encoding. */
  lemma VarIntRoundTrip(n: nat, buf: seq<byte>, pos: nat)
    requires n < Pow256(8)
    requires pos + MinimalWidth(n) <= |buf|
    requires buf[pos..pos + MinimalWidth(n)] == EncodeVarInt(n)
    ensures ReadVarInt(buf, pos) == Ok(Read(n, pos + MinimalWidth(n)))
  {
    var w := MinimalWidth(n);
    var e := EncodeVarInt(n);
    assert buf[pos] == e[0];
    if n >= 0xFD {
      assert buf[pos + 1..pos + w] == e[1..];
    }
  }

  /** A value read in its shortest form re-encodes to exactly the bytes that
      were read: on canonical input, reading and `EncodeVarInt` are inverse. */
  lemma VarIntReencodes(buf: seq<byte>, pos: nat)
    requires ReadVarInt(buf, pos).Ok?
    requires ReadVarInt(buf, pos).value.next == pos + MinimalWidth(ReadVarInt(buf, pos).value.value)
    ensures buf[pos..ReadVarInt(buf, pos).value.next] == EncodeVarInt(ReadVarInt(buf, pos).value.value)
  {
    var r := ReadVarInt(buf, pos).value;
    var b := buf[pos];
    if b >= 0xFD {
      var payload := buf[pos + 1..r.next];
      LittleEndianReencodes(payload);
      assert r.value == LittleEndian(payload);
      assert buf[pos..r.next] == [b] + payload;
      if b == 0xFF {
        assert r.value >= 0x1_0000_0000;
      } else if b == 0xFE {
        assert 0x1_0000 <= r.value < 0x1_0000_0000;
      } else {
        assert 0xFD <= r.value < 0x1_0000;
      }
    }
  }

  /** A successful read does not depend on the bytes after the buffer. */
  lemma ReadVarIntOfLonger(buf: seq<byte>, tail: seq<byte>, pos: nat)
    requires ReadVarInt(buf, pos).Ok?
    ensures ReadVarInt(buf + tail, pos) == ReadVarInt(buf, pos)
  {
    var w := EncodedWidth(buf[pos]);
    assert (buf + tail)[pos] == buf[pos];
    assert (buf + tail)[pos + 1..pos + w] == buf[pos + 1..pos + w];
  }

  /** A successful count read does not depend on the bytes after it. */
  lemma ReadVarIntOfPrefix(buf: seq<byte>, e: nat, pos: nat)
    requires ReadVarInt(buf, pos).Ok?
    requires ReadVarInt(buf, pos).value.next <= e <= |buf|
    ensures ReadVarInt(buf[..e], pos) == ReadVarInt(buf, pos)
  {
    var w := EncodedWidth(buf[pos]);
    assert buf[..e][pos] == buf[pos];
    assert buf[..e][pos + 1..pos + w] == buf[pos + 1..pos + w];
  }
}
