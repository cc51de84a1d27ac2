/** Skipping the merge-mining (auxpow) region that Dogecoin and Litecoin
    blocks carry after their header when the version's auxpow bit is set.

    The region is, in order: the parent chain's coinbase transaction, the
    parent block hash (32 bytes), the coinbase merkle branch (a CompactSize
    count of 32-byte hashes) with its 4-byte index, the chain merkle branch
    with its 4-byte index, and the parent block header. Only the
    transaction, the two counts and the parent header are decoded; the hash
    and the branch entries are skipped by moving the cursor, unchecked. */
module AuxPow {
  import opened Wrappers
  import opened Bytes
  import opened Cursor
  import opened CompactSize
  import opened Header
  import opened Records

  const HashSize: nat := 32
  const IndexSize: nat := 4

  /** Whether the block carries an auxpow region. */
  predicate AuxPowApplies(net: Network, h: BlockHeader) {
    (net == Dogecoin || net == Litecoin) && AuxPowFlag(h)
  }

  /** Moves from `pos`, just after the block header, to just after the
      auxpow region. */
  function SkipAuxPow<Tx>(decodeTx: Decoder<Tx>, buf: seq<byte>, pos: nat): (r: Result<nat>)
    ensures r.Ok? ==> pos + HashSize + 2 * (1 + IndexSize) + HeaderSize <= r.value <= |buf|
  {
    match ReadWith(decodeTx, buf, pos)
    case Err(e) => Err(e)
    case Ok(coinbase) => SkipMerkleLink(buf, coinbase.next + HashSize)
  }

  /** Moves past the two merkle branches and the parent header that follow
      the parent block hash. */
  function SkipMerkleLink(buf: seq<byte>, pos: nat): (r: Result<nat>)
    ensures r.Ok? ==> pos + 2 * (1 + IndexSize) + HeaderSize <= r.value <= |buf|
  {
    match SkipBranch(buf, pos)
    case Err(e) => Err(e)
    case Ok(chainAt) =>
      match SkipBranch(buf, chainAt)
      case Err(e) => Err(e)
      case Ok(parentAt) =>
        match ReadHeader(buf, parentAt)
        case Err(e) => Err(e)
        case Ok(parent) => Ok(parent.next)
  }

  /** Moves past one merkle branch: a CompactSize count of 32-byte hashes,
      then a 4-byte index. */
  function SkipBranch(buf: seq<byte>, pos: nat): (r: Result<nat>)
    ensures r.Ok? <==> ReadVarInt(buf, pos).Ok?
    ensures r.Ok? ==> r.value >= pos + 1 + IndexSize
  {
    match ReadVarInt(buf, pos)
    case Err(e) => Err(e)
    case Ok(count) => Ok(count.next + HashSize * count.value + IndexSize)
  }

  /** The sizes that make up one auxpow region: the coinbase transaction's
      length, and for each merkle branch the width of its CompactSize count
      and the count itself. */
  datatype AuxPowRegion = AuxPowRegion(
    coinbaseLen: nat,
    branchCountWidth: nat,
    branchLen: nat,
    chainBranchCountWidth: nat,
    chainBranchLen: nat)

  function BranchStart(pos: nat, a: AuxPowRegion): nat {
    pos + a.coinbaseLen + HashSize
  }

  function ChainBranchStart(pos: nat, a: AuxPowRegion): nat {
    BranchStart(pos, a) + a.branchCountWidth + HashSize * a.branchLen + IndexSize
  }

  function ParentHeaderStart(pos: nat, a: AuxPowRegion): nat {
    ChainBranchStart(pos, a) + a.chainBranchCountWidth + HashSize * a.chainBranchLen + IndexSize
  }

  /** Total length of the region. */
  function RegionSize(a: AuxPowRegion): nat {
    a.coinbaseLen + HashSize
      + a.branchCountWidth + HashSize * a.branchLen + IndexSize
      + a.chainBranchCountWidth + HashSize * a.chainBranchLen + IndexSize
      + HeaderSize
  }

  /** A merkle branch at `at` whose count is `n`, written in `width` bytes. */
  predicate IsBranch(buf: seq<byte>, at: nat, width: nat, n: nat) {
    ReadVarInt(buf, at).Ok? && ReadVarInt(buf, at).value.value == n && ReadVarInt(buf, at).value.next == at + width
  }

  /** `a` describes the bytes at `pos`: each decoded part is found where
      the sizes before it put it, and has the size `a` gives it. */
  predicate IsAuxPowRegion<Tx>(decodeTx: Decoder<Tx>, buf: seq<byte>, pos: nat, a: AuxPowRegion) {
    && ReadWith(decodeTx, buf, pos).Ok?
    && ReadWith(decodeTx, buf, pos).value.next == pos + a.coinbaseLen
    && IsBranch(buf, BranchStart(pos, a), a.branchCountWidth, a.branchLen)
    && IsBranch(buf, ChainBranchStart(pos, a), a.chainBranchCountWidth, a.chainBranchLen)
    && ReadHeader(buf, ParentHeaderStart(pos, a)).Ok?
  }

  lemma SkipBranchIsBranch(buf: seq<byte>, at: nat)
    requires SkipBranch(buf, at).Ok?
    ensures IsBranch(buf, at, ReadVarInt(buf, at).value.next - at, ReadVarInt(buf, at).value.value)
    ensures SkipBranch(buf, at).value
            == at + (ReadVarInt(buf, at).value.next - at) + HashSize * ReadVarInt(buf, at).value.value + IndexSize
  {
  }

  lemma BranchIsSkipped(buf: seq<byte>, at: nat, width: nat, n: nat)
    requires IsBranch(buf, at, width, n)
    ensures SkipBranch(buf, at) == Ok(at + width + HashSize * n + IndexSize)
  {
  }

  /** The steps of a successful merkle link skip. */
  lemma MerkleLinkSteps(buf: seq<byte>, pos: nat)
    requires SkipMerkleLink(buf, pos).Ok?
    ensures SkipBranch(buf, pos).Ok?
    ensures SkipBranch(buf, SkipBranch(buf, pos).value).Ok?
    ensures ReadHeader(buf, SkipBranch(buf, SkipBranch(buf, pos).value).value).Ok?
    ensures SkipMerkleLink(buf, pos).value == SkipBranch(buf, SkipBranch(buf, pos).value).value + HeaderSize
  {
  }

  lemma SkipBranchOfLonger(buf: seq<byte>, tail: seq<byte>, pos: nat)
    requires SkipBranch(buf, pos).Ok?
    ensures SkipBranch(buf + tail, pos) == SkipBranch(buf, pos)
  {
    ReadVarIntOfLonger(buf, tail, pos);
  }

  lemma SkipMerkleLinkOfLonger(buf: seq<byte>, tail: seq<byte>, pos: nat)
    requires SkipMerkleLink(buf, pos).Ok?
    ensures SkipMerkleLink(buf + tail, pos) == SkipMerkleLink(buf, pos)
  {
    MerkleLinkSteps(buf, pos);
    SkipBranchOfLonger(buf, tail, pos);
    var chainAt := SkipBranch(buf, pos).value;
    SkipBranchOfLonger(buf, tail, chainAt);
    ReadHeaderOfLonger(buf, tail, SkipBranch(buf, chainAt).value);
  }

  /** A successful skip lands exactly after a region laid out as described,
      and that region lies inside the buffer. */
  lemma SkipAuxPowRegion<Tx>(decodeTx: Decoder<Tx>, buf: seq<byte>, pos: nat) returns (a: AuxPowRegion)
    requires SkipAuxPow(decodeTx, buf, pos).Ok?
    ensures IsAuxPowRegion(decodeTx, buf, pos, a)
    ensures SkipAuxPow(decodeTx, buf, pos) == Ok(pos + RegionSize(a))
    ensures pos + RegionSize(a) <= |buf|
  {
    var coinbase := ReadWith(decodeTx, buf, pos).value;
    var branchAt := coinbase.next + HashSize;
    MerkleLinkSteps(buf, branchAt);
    SkipBranchIsBranch(buf, branchAt);
    var chainAt := SkipBranch(buf, branchAt).value;
    SkipBranchIsBranch(buf, chainAt);
    var branch := ReadVarInt(buf, branchAt).value;
    var chainBranch := ReadVarInt(buf, chainAt).value;
    a := AuxPowRegion(
      coinbase.next - pos,
      branch.next - branchAt, branch.value,
      chainBranch.next - chainAt, chainBranch.value);
    assert BranchStart(pos, a) == branchAt;
    assert ChainBranchStart(pos, a) == chainAt;
    assert ParentHeaderStart(pos, a) == SkipBranch(buf, chainAt).value;
  }

  /** Conversely, a region laid out as described is skipped exactly. */
  lemma RegionIsSkipped<Tx>(decodeTx: Decoder<Tx>, buf: seq<byte>, pos: nat, a: AuxPowRegion)
    requires IsAuxPowRegion(decodeTx, buf, pos, a)
    ensures SkipAuxPow(decodeTx, buf, pos) == Ok(pos + RegionSize(a))
  {
    BranchIsSkipped(buf, BranchStart(pos, a), a.branchCountWidth, a.branchLen);
    BranchIsSkipped(buf, ChainBranchStart(pos, a), a.chainBranchCountWidth, a.chainBranchLen);
    assert SkipMerkleLink(buf, BranchStart(pos, a)) == Ok(pos + RegionSize(a));
  }

  /** Moving past the end of the buffer with the parent hash skip is not
      caught when it happens, but the next read fails. */
  lemma HashSkipPastEndFails<Tx>(decodeTx: Decoder<Tx>, buf: seq<byte>, pos: nat)
    requires ReadWith(decodeTx, buf, pos).Ok?
    requires ReadWith(decodeTx, buf, pos).value.next + HashSize >= |buf|
    ensures SkipAuxPow(decodeTx, buf, pos) == Err(UnexpectedEof)
  {
  }

  /** The same for the skip over a branch's hashes and index: the read
      after it fails. */
  lemma BranchSkipPastEndFails(buf: seq<byte>, pos: nat)
    requires SkipBranch(buf, pos).Ok?
    requires SkipBranch(buf, pos).value >= |buf|
    ensures ReadVarInt(buf, SkipBranch(buf, pos).value) == Err(UnexpectedEof)
    ensures ReadHeader(buf, SkipBranch(buf, pos).value) == Err(UnexpectedEof)
    ensures SkipMerkleLink(buf, pos) == Err(UnexpectedEof)
  {
  }

  /** A successful skip does not depend on bytes after the buffer. */
  lemma SkipAuxPowOfLonger<Tx>(decodeTx: Decoder<Tx>, buf: seq<byte>, tail: seq<byte>, pos: nat)
    requires Streaming(decodeTx)
    requires SkipAuxPow(decodeTx, buf, pos).Ok?
    ensures SkipAuxPow(decodeTx, buf + tail, pos) == SkipAuxPow(decodeTx, buf, pos)
  {
    ReadWithOfLonger(decodeTx, buf, tail, pos);
    var coinbase := ReadWith(decodeTx, buf, pos).value;
    assert ReadWith(decodeTx, buf + tail, pos) == Ok(coinbase);
    SkipMerkleLinkOfLonger(buf, tail, coinbase.next + HashSize);
  }

  // The branch skip with the cursor's 64-bit arithmetic.

  const U64Modulus: nat := 0x1_0000_0000_0000_0000

  /** The branch skip as the cursor computes it: the multiplication, the
      addition of the position and the addition of the index width each
      wrap around modulo 2^64, as unchecked `u64` arithmetic does. */
  function SkipBranchWrapping(buf: seq<byte>, pos: nat): (r: Result<nat>)
    ensures r.Ok? <==> ReadVarInt(buf, pos).Ok?
    ensures r.Ok? ==> r.value < U64Modulus
  {
    match ReadVarInt(buf, pos)
    case Err(e) => Err(e)
    case Ok(count) =>
      var hashes := (HashSize * count.value) % U64Modulus;
      Ok(((count.next + hashes) % U64Modulus + IndexSize) % U64Modulus)
  }

  /** A branch whose count claims 2^59 hashes but holds none, followed by
      the next branch's count: the wrapping skip lands where an empty branch
      would end, so the block goes on being read from there, while the
      unbounded skip moves past the end and the next read fails. */
  lemma WrappingSkipAcceptsMissingHashes()
    returns (buf: seq<byte>)
    ensures buf == [0xFF, 0, 0, 0, 0, 0, 0, 0, 0x08, 0, 0, 0, 0, 0]
    ensures ReadVarInt(buf, 0) == Ok(Read(0x0800_0000_0000_0000, 9))
    ensures SkipBranchWrapping(buf, 0) == Ok(13)
    ensures ReadVarInt(buf, 13) == Ok(Read(0, 14))
    ensures SkipBranch(buf, 0).Ok? && SkipBranch(buf, 0).value > |buf|
    ensures ReadVarInt(buf, SkipBranch(buf, 0).value) == Err(UnexpectedEof)
  {
    buf := [0xFF, 0, 0, 0, 0, 0, 0, 0, 0x08, 0, 0, 0, 0, 0];
    var payload := buf[1..9];
    assert payload == [0, 0, 0, 0, 0, 0, 0, 0x08];
    assert LittleEndian(payload) == 0x0800_0000_0000_0000 by {
      assert LittleEndian(payload[7..]) == 0x08 by { assert payload[7..][1..] == []; }
      assert LittleEndian(payload[6..]) == 0x0800 by { assert payload[6..][1..] == payload[7..]; }
      assert LittleEndian(payload[5..]) == 0x08_0000 by { assert payload[5..][1..] == payload[6..]; }
      assert LittleEndian(payload[4..]) == 0x0800_0000 by { assert payload[4..][1..] == payload[5..]; }
      assert LittleEndian(payload[3..]) == 0x08_0000_0000 by { assert payload[3..][1..] == payload[4..]; }
      assert LittleEndian(payload[2..]) == 0x0800_0000_0000 by { assert payload[2..][1..] == payload[3..]; }
      assert LittleEndian(payload[1..]) == 0x08_0000_0000_0000 by { assert payload[1..][1..] == payload[2..]; }
    }
  }

  /** Whenever the claimed hashes fit in the 64-bit position, the wrapping
      skip and the unbounded one agree. */
  lemma WrappingSkipAgreesWhenSmall(buf: seq<byte>, pos: nat)
    requires ReadVarInt(buf, pos).Ok?
    requires ReadVarInt(buf, pos).value.next + HashSize * ReadVarInt(buf, pos).value.value + IndexSize < U64Modulus
    ensures SkipBranchWrapping(buf, pos) == SkipBranch(buf, pos)
  {
  }

  // Bytes after the region.

  /** A successful link skip does not depend on the bytes after the parent
      header. */
  lemma SkipMerkleLinkOfPrefix(buf: seq<byte>, e: nat, pos: nat)
    requires SkipMerkleLink(buf, pos).Ok?
    requires SkipMerkleLink(buf, pos).value <= e <= |buf|
    ensures SkipMerkleLink(buf[..e], pos) == SkipMerkleLink(buf, pos)
  {
    MerkleLinkSteps(buf, pos);
    var chainAt := SkipBranch(buf, pos).value;
    var parentAt := SkipBranch(buf, chainAt).value;
    ReadVarIntOfPrefix(buf, e, pos);
    ReadVarIntOfPrefix(buf, e, chainAt);
    ReadHeaderOfPrefix(buf, e, parentAt);
    assert SkipBranch(buf[..e], pos) == Ok(chainAt);
    assert SkipBranch(buf[..e], chainAt) == Ok(parentAt);
  }

  /** A successful auxpow skip does not depend on the bytes after the
      region, when the decoder reads only the bytes it uses. */
  lemma SkipAuxPowOfPrefix<Tx>(decodeTx: Decoder<Tx>, buf: seq<byte>, e: nat, pos: nat)
    requires ReadsOnlyUsed(decodeTx)
    requires SkipAuxPow(decodeTx, buf, pos).Ok?
    requires SkipAuxPow(decodeTx, buf, pos).value <= e <= |buf|
    ensures SkipAuxPow(decodeTx, buf[..e], pos) == SkipAuxPow(decodeTx, buf, pos)
  {
    var coinbase := ReadWith(decodeTx, buf, pos).value;
    var linkAt := coinbase.next + HashSize;
    assert SkipAuxPow(decodeTx, buf, pos) == SkipMerkleLink(buf, linkAt);
    assert ReadWith(decodeTx, buf[..e], pos) == Ok(coinbase) by {
      ReadWithOfPrefix(decodeTx, buf, e, pos);
    }
    assert SkipMerkleLink(buf[..e], linkAt) == SkipMerkleLink(buf, linkAt) by {
      SkipMerkleLinkOfPrefix(buf, e, linkAt);
    }
  }
}
