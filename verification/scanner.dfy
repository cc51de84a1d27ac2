/** `processBlock`: decode a hex-encoded block, skip its header and, on
    merge-mined networks, its auxpow region, read the transaction count,
    decode exactly that many transactions, hand each to `parse_tx` and fold
    the results in order into a `BlockData` that goes to the caller's
    continuation.

    The transaction decoder and `parse_tx` are parameters: the consensus
    library's transaction decoding and the protocol module are not part of
    this model. `parse_tx` is total, so only framing can abort a scan. */
module Scanner {
  import opened Wrappers
  import opened Bytes
  import opened Hex
  import opened Cursor
  import opened CompactSize
  import opened Header
  import opened Records
  import opened AuxPow

  /** `parse_tx`: one transaction, the block time and the network. */
  type TxParser<!Tx> = (Tx, nat, Network) -> TxSummary

  /** The block header, and the position of the transaction count: right
      after the header, or after the auxpow region when the block has one. */
  function ReadPrelude<Tx>(decodeTx: Decoder<Tx>, net: Network, buf: seq<byte>): (r: Result<Read<BlockHeader>>)
    ensures r.Ok? ==> ReadHeader(buf, 0) == Ok(Read(r.value.value, HeaderSize))
    ensures r.Ok? ==> HeaderSize <= r.value.next <= |buf|
  {
    match ReadHeader(buf, 0)
    case Err(e) => Err(e)
    case Ok(header) =>
      if AuxPowApplies(net, header.value) then
        match SkipAuxPow(decodeTx, buf, header.next)
        case Err(e) => Err(e)
        case Ok(countAt) => Ok(Read(header.value, countAt))
      else Ok(header)
  }

  /** The scan loop as written: `remaining` more transactions are decoded
      from `pos`, each summary is folded into `acc` as soon as it is
      parsed, and the first decoding failure ends the scan. */
  function ScanTxs<Tx>(
    decodeTx: Decoder<Tx>, parse: TxParser<Tx>, time: nat, net: Network,
    buf: seq<byte>, pos: nat, remaining: nat, acc: BlockData): (r: Result<Read<BlockData>>)
    ensures r.Ok? ==> pos <= r.value.next
    ensures r.Ok? ==> Extends(r.value.value, acc)
    ensures r.Ok? ==> |r.value.value.borkerTxs| <= |acc.borkerTxs| + remaining
    decreases remaining
  {
    if remaining == 0 then Ok(Read(acc, pos))
    else
      match ReadWith(decodeTx, buf, pos)
      case Err(e) => Err(e)
      case Ok(tx) =>
        var next := Absorb(acc, parse(tx.value, time, net));
        var r := ScanTxs(decodeTx, parse, time, net, buf, tx.next, remaining - 1, next);
        assert r.Ok? ==> Extends(r.value.value, acc) by {
          if r.Ok? { ExtendsTransitive(r.value.value, next, acc); }
        }
        r
  }

  /** Every list of `data` starts with the corresponding list of `acc`. */
  predicate Extends(data: BlockData, acc: BlockData) {
    && acc.borkerTxs <= data.borkerTxs
    && acc.spent <= data.spent
    && acc.created <= data.created
  }

  lemma ExtendsTransitive(c: BlockData, b: BlockData, a: BlockData)
    requires Extends(c, b) && Extends(b, a)
    ensures Extends(c, a)
  {
  }

  /** The whole scan of a decoded block. */
  function ScanBlock<Tx>(decodeTx: Decoder<Tx>, parse: TxParser<Tx>, net: Network, buf: seq<byte>): (r: Result<BlockData>)
    ensures r.Ok? ==> HeaderSize < |buf|
    ensures r.Ok? ==>
              && ReadPrelude(decodeTx, net, buf).Ok?
              && ReadVarInt(buf, ReadPrelude(decodeTx, net, buf).value.next).Ok?
              && |r.value.borkerTxs| <= ReadVarInt(buf, ReadPrelude(decodeTx, net, buf).value.next).value.value
  {
    match ReadPrelude(decodeTx, net, buf)
    case Err(e) => Err(e)
    case Ok(prelude) =>
      match ReadVarInt(buf, prelude.next)
      case Err(e) => Err(e)
      case Ok(count) =>
        match ScanTxs(decodeTx, parse, prelude.value.time, net, buf, count.next, count.value, EmptyBlockData)
        case Err(e) => Err(e)
        case Ok(scanned) => Ok(scanned.value)
  }

  /** `processBlock`: the continuation runs only on a complete scan. */
  function ProcessBlock<Tx, T>(
    block: string, net: Network, decodeTx: Decoder<Tx>, parse: TxParser<Tx>,
    process: BlockData -> Result<T>): (r: Result<T>)
    ensures r.Ok? ==> HexDecode(block).Ok? && ScanBlock(decodeTx, parse, net, HexDecode(block).value).Ok?
    ensures r.Ok? ==> 2 * (HeaderSize + 1) <= |block|
  {
    match HexDecode(block)
    case Err(e) => Err(e)
    case Ok(buf) =>
      match ScanBlock(decodeTx, parse, net, buf)
      case Err(e) => Err(e)
      case Ok(data) => process(data)
  }

  // Reference definitions: decode every transaction first, then aggregate.

  /** Decodes `count` consecutive transactions starting at `pos`. */
  function DecodeTxs<Tx>(decodeTx: Decoder<Tx>, buf: seq<byte>, pos: nat, count: nat): (r: Result<Read<seq<Tx>>>)
    ensures r.Ok? ==> |r.value.value| == count
    decreases count
  {
    if count == 0 then Ok(Read([], pos))
    else
      match ReadWith(decodeTx, buf, pos)
      case Err(e) => Err(e)
      case Ok(tx) =>
        match DecodeTxs(decodeTx, buf, tx.next, count - 1)
        case Err(e) => Err(e)
        case Ok(rest) => Ok(Read([tx.value] + rest.value, rest.next))
  }

  function Summaries<Tx>(parse: TxParser<Tx>, time: nat, net: Network, txs: seq<Tx>): (sums: seq<TxSummary>)
    ensures |sums| == |txs|
  {
    seq(|txs|, i requires 0 <= i < |txs| => parse(txs[i], time, net))
  }

  /** What a block scan means: the header and auxpow region are framed, the
      count is read, exactly that many transactions decode, and the result
      is the in-order aggregate of their summaries. */
  function ReferenceScan<Tx>(decodeTx: Decoder<Tx>, parse: TxParser<Tx>, net: Network, buf: seq<byte>): Result<BlockData>
  {
    match ReadPrelude(decodeTx, net, buf)
    case Err(e) => Err(e)
    case Ok(prelude) =>
      match ReadVarInt(buf, prelude.next)
      case Err(e) => Err(e)
      case Ok(count) =>
        match DecodeTxs(decodeTx, buf, count.next, count.value)
        case Err(e) => Err(e)
        case Ok(txs) => Ok(Aggregate(Summaries(parse, prelude.value.time, net, txs.value)))
  }

  /** `buf` frames a block whose header is `header` and whose counted
      transactions decode to `txs`. */
  ghost predicate DecodesTo<Tx>(decodeTx: Decoder<Tx>, net: Network, buf: seq<byte>, header: BlockHeader, txs: seq<Tx>) {
    && ReadPrelude(decodeTx, net, buf).Ok?
    && ReadPrelude(decodeTx, net, buf).value.value == header
    && var countAt := ReadPrelude(decodeTx, net, buf).value.next;
       && ReadVarInt(buf, countAt).Ok?
       && var count := ReadVarInt(buf, countAt).value;
          && DecodeTxs(decodeTx, buf, count.next, count.value).Ok?
          && DecodeTxs(decodeTx, buf, count.next, count.value).value.value == txs
  }

  // The scan loop against the reference.

  lemma SummariesCons<Tx>(parse: TxParser<Tx>, time: nat, net: Network, tx: Tx, txs: seq<Tx>)
    ensures Summaries(parse, time, net, [tx] + txs) == [parse(tx, time, net)] + Summaries(parse, time, net, txs)
  {
  }

  /** The loop that folds each summary in as it goes computes the reference:
      it fails exactly when decoding the transactions fails, with the same
      error, and otherwise appends their aggregate to what it started with. */
  lemma {:induction false} ScanTxsMatchesReference<Tx>(
    decodeTx: Decoder<Tx>, parse: TxParser<Tx>, time: nat, net: Network,
    buf: seq<byte>, pos: nat, remaining: nat, acc: BlockData)
    ensures ScanTxs(decodeTx, parse, time, net, buf, pos, remaining, acc).Ok?
            <==> DecodeTxs(decodeTx, buf, pos, remaining).Ok?
    ensures DecodeTxs(decodeTx, buf, pos, remaining).Err? ==>
            ScanTxs(decodeTx, parse, time, net, buf, pos, remaining, acc)
            == Err(DecodeTxs(decodeTx, buf, pos, remaining).error)
    ensures DecodeTxs(decodeTx, buf, pos, remaining).Ok? ==>
            var txs := DecodeTxs(decodeTx, buf, pos, remaining).value;
            ScanTxs(decodeTx, parse, time, net, buf, pos, remaining, acc)
            == Ok(Read(Concat(acc, Aggregate(Summaries(parse, time, net, txs.value))), txs.next))
    decreases remaining
  {
    if remaining == 0 {
      assert Aggregate([]) == EmptyBlockData;
      assert Concat(acc, EmptyBlockData) == acc;
    } else {
      match ReadWith(decodeTx, buf, pos)
      case Err(e) =>
      case Ok(tx) =>
        var s := parse(tx.value, time, net);
        ScanTxsMatchesReference(decodeTx, parse, time, net, buf, tx.next, remaining - 1, Absorb(acc, s));
        var rest := DecodeTxs(decodeTx, buf, tx.next, remaining - 1);
        if rest.Ok? {
          var tail := Summaries(parse, time, net, rest.value.value);
          SummariesCons(parse, time, net, tx.value, rest.value.value);
          AggregateCons(s, tail);
          ConcatAbsorb(acc, s, Aggregate(tail));
        }
    }
  }

  /** The scan as written equals the reference scan. */
  lemma ScanBlockIsReference<Tx>(decodeTx: Decoder<Tx>, parse: TxParser<Tx>, net: Network, buf: seq<byte>)
    ensures ScanBlock(decodeTx, parse, net, buf) == ReferenceScan(decodeTx, parse, net, buf)
  {
    match ReadPrelude(decodeTx, net, buf)
    case Err(e) =>
    case Ok(prelude) =>
      match ReadVarInt(buf, prelude.next)
      case Err(e) =>
      case Ok(count) =>
        ScanTxsMatchesReference(decodeTx, parse, prelude.value.time, net, buf, count.next, count.value, EmptyBlockData);
        var txs := DecodeTxs(decodeTx, buf, count.next, count.value);
        if txs.Ok? {
          var d := Aggregate(Summaries(parse, prelude.value.time, net, txs.value.value));
          assert Concat(EmptyBlockData, d) == d;
        }
  }

  // Where the transaction count is read.

  /** For Bitcoin, or when the low bit of the header's second byte (bit 8
      of the version) is clear, the count follows the header directly. */
  lemma CountFollowsHeader<Tx>(decodeTx: Decoder<Tx>, net: Network, buf: seq<byte>)
    requires ReadPrelude(decodeTx, net, buf).Ok?
    requires net == Bitcoin || buf[1] % 2 == 0
    ensures ReadPrelude(decodeTx, net, buf).value.next == HeaderSize
  {
    AuxPowFlagIsSecondByteLowBit(buf, 0);
  }

  /** On Dogecoin and Litecoin with that bit set, the count follows an
      auxpow region laid out as described. */
  lemma CountFollowsAuxPow<Tx>(decodeTx: Decoder<Tx>, net: Network, buf: seq<byte>) returns (a: AuxPowRegion)
    requires ReadPrelude(decodeTx, net, buf).Ok?
    requires net != Bitcoin && buf[1] % 2 == 1
    ensures IsAuxPowRegion(decodeTx, buf, HeaderSize, a)
    ensures ReadPrelude(decodeTx, net, buf).value.next == HeaderSize + RegionSize(a)
  {
    AuxPowFlagIsSecondByteLowBit(buf, 0);
    a := SkipAuxPowRegion(decodeTx, buf, HeaderSize);
  }

  /** The prelude fails exactly when the header is short, or when the block
      has an auxpow region that cannot be skipped. */
  lemma PreludeFailure<Tx>(decodeTx: Decoder<Tx>, net: Network, buf: seq<byte>)
    ensures ReadPrelude(decodeTx, net, buf).Err? <==>
              || |buf| < HeaderSize
              || (net != Bitcoin && buf[1] % 2 == 1 && SkipAuxPow(decodeTx, buf, HeaderSize).Err?)
  {
    if HeaderSize <= |buf| {
      AuxPowFlagIsSecondByteLowBit(buf, 0);
    }
  }

  // What a successful scan produces.

  /** A successful scan read a count after the prelude, decoded exactly
      that many transactions right after it, and returns the in-order
      aggregate of their summaries: at most one post per transaction, and
      nothing at all for an empty block. */
  lemma ScanBlockSuccess<Tx>(decodeTx: Decoder<Tx>, parse: TxParser<Tx>, net: Network, buf: seq<byte>)
    returns (header: BlockHeader, countAt: nat, count: nat, txs: seq<Tx>)
    requires ScanBlock(decodeTx, parse, net, buf).Ok?
    ensures ReadPrelude(decodeTx, net, buf) == Ok(Read(header, countAt))
    ensures ReadVarInt(buf, countAt).Ok? && ReadVarInt(buf, countAt).value.value == count
    ensures DecodeTxs(decodeTx, buf, ReadVarInt(buf, countAt).value.next, count).Ok?
    ensures txs == DecodeTxs(decodeTx, buf, ReadVarInt(buf, countAt).value.next, count).value.value
    ensures |txs| == count
    ensures ScanBlock(decodeTx, parse, net, buf) == Ok(Aggregate(Summaries(parse, header.time, net, txs)))
    ensures |ScanBlock(decodeTx, parse, net, buf).value.borkerTxs| <= count
    ensures count == 0 ==> ScanBlock(decodeTx, parse, net, buf).value == EmptyBlockData
  {
    ScanBlockIsReference(decodeTx, parse, net, buf);
    var prelude := ReadPrelude(decodeTx, net, buf).value;
    header, countAt := prelude.value, prelude.next;
    var c := ReadVarInt(buf, countAt).value;
    count := c.value;
    txs := DecodeTxs(decodeTx, buf, c.next, count).value.value;
    AggregateShape(Summaries(parse, header.time, net, txs));
    if count == 0 {
      assert Aggregate([]) == EmptyBlockData;
    }
  }

  /** The spent and created lists of a successful scan are the in-order
      concatenations of the per-transaction lists, and the posts are the
      present ones in transaction order. */
  lemma ScanBlockLists<Tx>(decodeTx: Decoder<Tx>, parse: TxParser<Tx>, net: Network, buf: seq<byte>)
    returns (header: BlockHeader, txs: seq<Tx>, sums: seq<TxSummary>)
    requires ScanBlock(decodeTx, parse, net, buf).Ok?
    ensures DecodesTo(decodeTx, net, buf, header, txs)
    ensures sums == Summaries(parse, header.time, net, txs)
    ensures ScanBlock(decodeTx, parse, net, buf).value.spent
            == Flatten(seq(|sums|, i requires 0 <= i < |sums| => sums[i].spent))
    ensures ScanBlock(decodeTx, parse, net, buf).value.created
            == Flatten(seq(|sums|, i requires 0 <= i < |sums| => sums[i].created))
    ensures ScanBlock(decodeTx, parse, net, buf).value.borkerTxs
            == Somes(seq(|sums|, i requires 0 <= i < |sums| => sums[i].bork))
    ensures |ScanBlock(decodeTx, parse, net, buf).value.spent|
            == TotalLength(seq(|sums|, i requires 0 <= i < |sums| => sums[i].spent))
    ensures |ScanBlock(decodeTx, parse, net, buf).value.created|
            == TotalLength(seq(|sums|, i requires 0 <= i < |sums| => sums[i].created))
  {
    var countAt, count;
    header, countAt, count, txs := ScanBlockSuccess(decodeTx, parse, net, buf);
    sums := Summaries(parse, header.time, net, txs);
    AggregateShape(sums);
  }

  /** `parse_tx` cannot abort a scan: whether a scan fails, and with which
      error, does not depend on how transactions are interpreted. */
  lemma ParseCannotAbort<Tx>(
    decodeTx: Decoder<Tx>, parse: TxParser<Tx>, other: TxParser<Tx>, net: Network, buf: seq<byte>)
    ensures ScanBlock(decodeTx, parse, net, buf).Ok? <==> ScanBlock(decodeTx, other, net, buf).Ok?
    ensures ScanBlock(decodeTx, parse, net, buf).Err? ==>
            ScanBlock(decodeTx, parse, net, buf).error == ScanBlock(decodeTx, other, net, buf).error
  {
    ScanBlockIsReference(decodeTx, parse, net, buf);
    ScanBlockIsReference(decodeTx, other, net, buf);
  }

  // Bytes after the last transaction.

  lemma ReadPreludeOfLonger<Tx>(decodeTx: Decoder<Tx>, net: Network, buf: seq<byte>, tail: seq<byte>)
    requires Streaming(decodeTx)
    requires ReadPrelude(decodeTx, net, buf).Ok?
    ensures ReadPrelude(decodeTx, net, buf + tail) == ReadPrelude(decodeTx, net, buf)
  {
    ReadHeaderOfLonger(buf, tail, 0);
    if AuxPowApplies(net, ReadHeader(buf, 0).value.value) {
      SkipAuxPowOfLonger(decodeTx, buf, tail, HeaderSize);
    }
  }

  lemma {:induction false} ScanTxsOfLonger<Tx>(
    decodeTx: Decoder<Tx>, parse: TxParser<Tx>, time: nat, net: Network,
    buf: seq<byte>, tail: seq<byte>, pos: nat, remaining: nat, acc: BlockData)
    requires Streaming(decodeTx)
    requires ScanTxs(decodeTx, parse, time, net, buf, pos, remaining, acc).Ok?
    ensures ScanTxs(decodeTx, parse, time, net, buf + tail, pos, remaining, acc)
            == ScanTxs(decodeTx, parse, time, net, buf, pos, remaining, acc)
    decreases remaining
  {
    if remaining > 0 {
      ReadWithOfLonger(decodeTx, buf, tail, pos);
      var tx := ReadWith(decodeTx, buf, pos).value;
      ScanTxsOfLonger(decodeTx, parse, time, net, buf, tail, tx.next, remaining - 1,
                      Absorb(acc, parse(tx.value, time, net)));
    }
  }

  /** With a decoder that reads like a stream, appending bytes to a block
      that scans successfully changes nothing. */
  lemma ScanBlockIgnoresAppendedBytes<Tx>(
    decodeTx: Decoder<Tx>, parse: TxParser<Tx>, net: Network, buf: seq<byte>, tail: seq<byte>)
    requires Streaming(decodeTx)
    requires ScanBlock(decodeTx, parse, net, buf).Ok?
    ensures ScanBlock(decodeTx, parse, net, buf + tail) == ScanBlock(decodeTx, parse, net, buf)
  {
    ReadPreludeOfLonger(decodeTx, net, buf, tail);
    var prelude := ReadPrelude(decodeTx, net, buf).value;
    ReadVarIntOfLonger(buf, tail, prelude.next);
    var count := ReadVarInt(buf, prelude.next).value;
    ScanTxsOfLonger(decodeTx, parse, prelude.value.time, net, buf, tail, count.next, count.value, EmptyBlockData);
  }

  lemma ReadPreludeOfPrefix<Tx>(decodeTx: Decoder<Tx>, net: Network, buf: seq<byte>, e: nat)
    requires ReadsOnlyUsed(decodeTx)
    requires ReadPrelude(decodeTx, net, buf).Ok?
    requires ReadPrelude(decodeTx, net, buf).value.next <= e <= |buf|
    ensures ReadPrelude(decodeTx, net, buf[..e]) == ReadPrelude(decodeTx, net, buf)
  {
    ReadHeaderOfPrefix(buf, e, 0);
    if AuxPowApplies(net, ReadHeader(buf, 0).value.value) {
      SkipAuxPowOfPrefix(decodeTx, buf, e, HeaderSize);
    }
  }

  /** The scan loop, started inside the buffer, ends inside it. */
  lemma {:induction false} ScanTxsInside<Tx>(
    decodeTx: Decoder<Tx>, parse: TxParser<Tx>, time: nat, net: Network,
    buf: seq<byte>, pos: nat, remaining: nat, acc: BlockData)
    requires ReadsOnlyUsed(decodeTx)
    requires ScanTxs(decodeTx, parse, time, net, buf, pos, remaining, acc).Ok?
    requires pos <= |buf|
    ensures ScanTxs(decodeTx, parse, time, net, buf, pos, remaining, acc).value.next <= |buf|
    decreases remaining
  {
    if remaining > 0 {
      ReadWithInside(decodeTx, buf, pos);
      var tx := ReadWith(decodeTx, buf, pos).value;
      ScanTxsInside(decodeTx, parse, time, net, buf, tx.next, remaining - 1,
                    Absorb(acc, parse(tx.value, time, net)));
    }
  }

  lemma {:induction false} ScanTxsOfPrefix<Tx>(
    decodeTx: Decoder<Tx>, parse: TxParser<Tx>, time: nat, net: Network,
    buf: seq<byte>, e: nat, pos: nat, remaining: nat, acc: BlockData)
    requires ReadsOnlyUsed(decodeTx)
    requires ScanTxs(decodeTx, parse, time, net, buf, pos, remaining, acc).Ok?
    requires ScanTxs(decodeTx, parse, time, net, buf, pos, remaining, acc).value.next <= e <= |buf|
    ensures ScanTxs(decodeTx, parse, time, net, buf[..e], pos, remaining, acc)
            == ScanTxs(decodeTx, parse, time, net, buf, pos, remaining, acc)
    decreases remaining
  {
    if remaining > 0 {
      var tx := ReadWith(decodeTx, buf, pos).value;
      var next := Absorb(acc, parse(tx.value, time, net));
      assert ScanTxs(decodeTx, parse, time, net, buf, tx.next, remaining - 1, next)
             == ScanTxs(decodeTx, parse, time, net, buf, pos, remaining, acc);
      ReadWithOfPrefix(decodeTx, buf, e, pos);
      ScanTxsOfPrefix(decodeTx, parse, time, net, buf, e, tx.next, remaining - 1, next);
    }
  }

  /** The counted transactions of `buf` end exactly at `e`. */
  ghost predicate TxsEndAt<Tx>(decodeTx: Decoder<Tx>, net: Network, buf: seq<byte>, e: nat) {
    && ReadPrelude(decodeTx, net, buf).Ok?
    && var countAt := ReadPrelude(decodeTx, net, buf).value.next;
       && ReadVarInt(buf, countAt).Ok?
       && var count := ReadVarInt(buf, countAt).value;
          && DecodeTxs(decodeTx, buf, count.next, count.value).Ok?
          && DecodeTxs(decodeTx, buf, count.next, count.value).value.next == e
  }

  /** Bytes after the last counted transaction are never inspected: with a
      decoder that reads only the bytes it uses, cutting a block that scans
      successfully right after its last transaction changes nothing. */
  lemma ScanBlockReadsOnlyCountedBytes<Tx>(
    decodeTx: Decoder<Tx>, parse: TxParser<Tx>, net: Network, buf: seq<byte>)
    returns (e: nat)
    requires ReadsOnlyUsed(decodeTx)
    requires ScanBlock(decodeTx, parse, net, buf).Ok?
    ensures TxsEndAt(decodeTx, net, buf, e)
    ensures e <= |buf|
    ensures ScanBlock(decodeTx, parse, net, buf[..e]) == ScanBlock(decodeTx, parse, net, buf)
  {
    var prelude := ReadPrelude(decodeTx, net, buf).value;
    var count := ReadVarInt(buf, prelude.next).value;
    var time := prelude.value.time;
    var scan := ScanTxs(decodeTx, parse, time, net, buf, count.next, count.value, EmptyBlockData);
    ScanTxsMatchesReference(decodeTx, parse, time, net, buf, count.next, count.value, EmptyBlockData);
    e := scan.value.next;
    ScanTxsInside(decodeTx, parse, time, net, buf, count.next, count.value, EmptyBlockData);
    assert ReadPrelude(decodeTx, net, buf[..e]) == Ok(prelude) by {
      ReadPreludeOfPrefix(decodeTx, net, buf, e);
    }
    assert ReadVarInt(buf[..e], prelude.next) == Ok(count) by {
      ReadVarIntOfPrefix(buf, e, prelude.next);
    }
    assert ScanTxs(decodeTx, parse, time, net, buf[..e], count.next, count.value, EmptyBlockData) == scan by {
      ScanTxsOfPrefix(decodeTx, parse, time, net, buf, e, count.next, count.value, EmptyBlockData);
    }
  }

  /** Two buffers that agree up to the end of the counted transactions scan
      alike, when the decoder reads like a stream and only the bytes it
      uses. */
  lemma ScanBlockIgnoresBytesAfterTxs<Tx>(
    decodeTx: Decoder<Tx>, parse: TxParser<Tx>, net: Network, buf: seq<byte>, other: seq<byte>, e: nat)
    requires Streaming(decodeTx) && ReadsOnlyUsed(decodeTx)
    requires ScanBlock(decodeTx, parse, net, buf).Ok?
    requires TxsEndAt(decodeTx, net, buf, e)
    requires e <= |buf| && e <= |other| && other[..e] == buf[..e]
    ensures ScanBlock(decodeTx, parse, net, other) == ScanBlock(decodeTx, parse, net, buf)
  {
    var end := ScanBlockReadsOnlyCountedBytes(decodeTx, parse, net, buf);
    assert end == e;
    var cut := buf[..e];
    assert ScanBlock(decodeTx, parse, net, cut) == ScanBlock(decodeTx, parse, net, buf);
    assert other == cut + other[e..];
    assert ScanBlock(decodeTx, parse, net, cut + other[e..]) == ScanBlock(decodeTx, parse, net, cut) by {
      ScanBlockIgnoresAppendedBytes(decodeTx, parse, net, cut, other[e..]);
    }
  }

  // The continuation.

  /** Any failure, of the hex decoding or of the scan, is the result, and
      the continuation plays no part in it: no partial data reaches it. */
  lemma ProcessBlockFailure<Tx, T>(
    block: string, net: Network, decodeTx: Decoder<Tx>, parse: TxParser<Tx>,
    process: BlockData -> Result<T>, other: BlockData -> Result<T>)
    requires HexDecode(block).Err? || ScanBlock(decodeTx, parse, net, HexDecode(block).value).Err?
    ensures ProcessBlock(block, net, decodeTx, parse, process).Err?
    ensures ProcessBlock(block, net, decodeTx, parse, process) == ProcessBlock(block, net, decodeTx, parse, other)
    ensures HexDecode(block).Err? ==>
            ProcessBlock(block, net, decodeTx, parse, process).error == HexDecode(block).error
    ensures HexDecode(block).Ok? ==>
            ProcessBlock(block, net, decodeTx, parse, process).error
            == ScanBlock(decodeTx, parse, net, HexDecode(block).value).error
  {
  }

  /** On success the result is the continuation applied to the aggregate of
      the decoded block's transactions, with its header's time. */
  lemma ProcessBlockSuccess<Tx, T>(
    block: string, net: Network, decodeTx: Decoder<Tx>, parse: TxParser<Tx>,
    process: BlockData -> Result<T>)
    returns (header: BlockHeader, txs: seq<Tx>)
    requires HexDecode(block).Ok? && ScanBlock(decodeTx, parse, net, HexDecode(block).value).Ok?
    ensures DecodesTo(decodeTx, net, HexDecode(block).value, header, txs)
    ensures ProcessBlock(block, net, decodeTx, parse, process)
            == process(Aggregate(Summaries(parse, header.time, net, txs)))
  {
    var countAt, count;
    header, countAt, count, txs := ScanBlockSuccess(decodeTx, parse, net, HexDecode(block).value);
  }

  /** Appending the hex encoding of further bytes to a block that scans
      successfully changes nothing. */
  lemma ProcessBlockIgnoresTrailingBytes<Tx, T>(
    block: string, tail: seq<byte>, net: Network, decodeTx: Decoder<Tx>, parse: TxParser<Tx>,
    process: BlockData -> Result<T>)
    requires Streaming(decodeTx)
    requires HexDecode(block).Ok? && ScanBlock(decodeTx, parse, net, HexDecode(block).value).Ok?
    ensures ProcessBlock(block + HexEncode(tail), net, decodeTx, parse, process)
            == ProcessBlock(block, net, decodeTx, parse, process)
  {
    HexDecodeAppend(block, tail);
    ScanBlockIgnoresAppendedBytes(decodeTx, parse, net, HexDecode(block).value, tail);
  }
}
