/** The 80-byte block header of Bitcoin's consensus serialization, used for
    both the block's own header and the parent header inside the auxpow
    region. */
module Header {
  import opened Wrappers
  import opened Bytes
  import opened Cursor

  const HeaderSize: nat := 80

  /** The auxpow flag: bit 8 of the header version. */
  const AuxPowVersionBit: nat := 0x100

  datatype BlockHeader = BlockHeader(
    version: nat,
    prevBlockhash: seq<byte>,
    merkleRoot: seq<byte>,
    time: nat,
    bits: nat,
    nonce: nat)

  /** A header whose fields fit their serialized widths. */
  predicate WellFormed(h: BlockHeader) {
    && h.version < Pow256(4)
    && |h.prevBlockhash| == 32
    && |h.merkleRoot| == 32
    && h.time < Pow256(4)
    && h.bits < Pow256(4)
    && h.nonce < Pow256(4)
  }

  /** Field layout: version (4), previous block hash (32), merkle root (32),
      time (4), bits (4), nonce (4); integers little-endian. */
  function ParseHeader(raw: seq<byte>): (h: BlockHeader)
    requires |raw| == HeaderSize
    ensures WellFormed(h)
  {
    BlockHeader(
      LittleEndian(raw[0..4]),
      raw[4..36],
      raw[36..68],
      LittleEndian(raw[68..72]),
      LittleEndian(raw[72..76]),
      LittleEndian(raw[76..80]))
  }

  function EncodeHeader(h: BlockHeader): (raw: seq<byte>)
    requires WellFormed(h)
    ensures |raw| == HeaderSize
  {
    ToLittleEndian(h.version, 4) + h.prevBlockhash + h.merkleRoot
      + ToLittleEndian(h.time, 4) + ToLittleEndian(h.bits, 4) + ToLittleEndian(h.nonce, 4)
  }

  /** Reads a header at `pos`; every field read fails alike on a short
      buffer, so the read fails exactly when fewer than 80 bytes remain. */
  function ReadHeader(buf: seq<byte>, pos: nat): (r: Result<Read<BlockHeader>>)
    ensures r.Ok? <==> pos + HeaderSize <= |buf|
    ensures r.Ok? ==> r.value.next == pos + HeaderSize && WellFormed(r.value.value)
    ensures r.Err? ==> r.error == UnexpectedEof
  {
    if pos + HeaderSize <= |buf| then Ok(Read(ParseHeader(buf[pos..pos + HeaderSize]), pos + HeaderSize))
    else Err(UnexpectedEof)
  }

  /** Whether the version announces merge-mined auxpow data
      (`version & 1 << 8 != 0`). */
  predicate AuxPowFlag(h: BlockHeader) {
    (h.version / AuxPowVersionBit) % 2 == 1
  }

  lemma HeaderRoundTrip(h: BlockHeader)
    requires WellFormed(h)
    ensures ParseHeader(EncodeHeader(h)) == h
  {
    var raw := EncodeHeader(h);
    var v, t, b, n := ToLittleEndian(h.version, 4), ToLittleEndian(h.time, 4),
                      ToLittleEndian(h.bits, 4), ToLittleEndian(h.nonce, 4);
    var front := v + h.prevBlockhash + h.merkleRoot + t + b;
    assert raw == front + n;
    assert raw[..76] == front && raw[76..80] == n;
    assert raw[0..4] == v by { assert raw[0..4] == front[0..4]; }
    assert raw[4..36] == h.prevBlockhash by { assert raw[4..36] == front[4..36]; }
    assert raw[36..68] == h.merkleRoot by { assert raw[36..68] == front[36..68]; }
    assert raw[68..72] == t by { assert raw[68..72] == front[68..72]; }
    assert raw[72..76] == b by { assert raw[72..76] == front[72..76]; }
  }

  /** A header that was read re-encodes to exactly the 80 bytes it was read
      from. */
  lemma HeaderReencodes(buf: seq<byte>, pos: nat)
    requires ReadHeader(buf, pos).Ok?
    ensures EncodeHeader(ReadHeader(buf, pos).value.value) == buf[pos..pos + HeaderSize]
  {
    ParsedHeaderReencodes(buf[pos..pos + HeaderSize]);
  }

  lemma ParsedHeaderReencodes(raw: seq<byte>)
    requires |raw| == HeaderSize
    ensures EncodeHeader(ParseHeader(raw)) == raw
  {
    LittleEndianReencodes(raw[0..4]);
    LittleEndianReencodes(raw[68..72]);
    LittleEndianReencodes(raw[72..76]);
    LittleEndianReencodes(raw[76..80]);
    assert raw[0..36] == raw[0..4] + raw[4..36];
    assert raw[0..68] == raw[0..36] + raw[36..68];
    assert raw[0..72] == raw[0..68] + raw[68..72];
    assert raw[0..76] == raw[0..72] + raw[72..76];
    assert raw == raw[0..76] + raw[76..80];
  }

  /** The auxpow flag is the low bit of the header's second byte. */
  lemma AuxPowFlagIsSecondByteLowBit(buf: seq<byte>, pos: nat)
    requires ReadHeader(buf, pos).Ok?
    ensures AuxPowFlag(ReadHeader(buf, pos).value.value) <==> buf[pos + 1] % 2 == 1
  {
    var v := buf[pos..pos + 4];
    assert buf[pos..pos + HeaderSize][0..4] == v;
    assert LittleEndian(v) == v[0] + 256 * LittleEndian(v[1..]);
    assert LittleEndian(v[1..]) == v[1] + 256 * LittleEndian(v[2..]);
    assert LittleEndian(v) / 256 == LittleEndian(v[1..]);
  }

  /** The arithmetic flag test agrees with `processBlock`'s test
      `version & 1 << 8 != 0` on the 32-bit version word. */
  lemma AuxPowFlagIsBitMask(h: BlockHeader)
    requires WellFormed(h)
    ensures AuxPowFlag(h) <==> (h.version as bv32) & 0x100 != 0
  {
  }

  lemma ReadHeaderOfLonger(buf: seq<byte>, tail: seq<byte>, pos: nat)
    requires ReadHeader(buf, pos).Ok?
    ensures ReadHeader(buf + tail, pos) == ReadHeader(buf, pos)
  {
    assert (buf + tail)[pos..pos + HeaderSize] == buf[pos..pos + HeaderSize];
  }

  /** A successful header read does not depend on the bytes after it. */
  lemma ReadHeaderOfPrefix(buf: seq<byte>, e: nat, pos: nat)
    requires ReadHeader(buf, pos).Ok?
    requires ReadHeader(buf, pos).value.next <= e <= |buf|
    ensures ReadHeader(buf[..e], pos) == ReadHeader(buf, pos)
  {
    assert buf[..e][pos..pos + HeaderSize] == buf[pos..pos + HeaderSize];
  }
}
