# borker-rs block scanner in Dafny

This project models `processBlock` from borker-rs. `processBlock` takes a hex-encoded
block of a Bitcoin-family chain (Dogecoin, Litecoin or Bitcoin) and works in these steps:

1. It decodes the hex text and reads the 80-byte block header.
2. On Dogecoin and Litecoin, when bit 8 of the header version is set, it skips the
   merge-mining (auxpow) region:
   - the parent coinbase transaction;
   - a 32-byte parent hash;
   - two merkle branches, each a CompactSize count of 32-byte hashes followed by a
     4-byte index;
   - the 80-byte parent header.
3. It reads the CompactSize transaction count and decodes exactly that many
   transactions.
4. It hands each transaction to the protocol's `parse_tx`, along with the block time
   and the network. It folds the results, in order, into a `BlockData`:
   - the posts that were found go into `borker_txs`;
   - every spent output reference goes into `spent`;
   - every new payable output goes into `created`.
5. It calls the caller's continuation with the `BlockData`, and only if every step
   before it succeeded.

Modules, one per component:

- `Wrappers`: the error values and `Result`/`Option`.
- `Bytes`: bytes and little-endian integers.
- `Hex`: hex decoding, with the error order of the `hex` crate: an odd length first,
  then the first character that is not a hex digit, with its index.
- `Cursor`: reading at a position that may lie past the end of the buffer. Reads past
  the end fail with `UnexpectedEof`, as reads through `std::io::Cursor` do.
- `CompactSize`: the CompactSize integer (`VarInt`).
- `Header`: the 80-byte block header and its auxpow flag.
- `Records`: `Network`, the record types, and the reference meaning of the
  aggregation.
- `AuxPow`: the auxpow skip.
- `Scanner`: the scan itself, and `ProcessBlock`.

Some collaborators are parameters of the model rather than code in it:

- **The transaction decoder** is a function from the remaining bytes to a value and
  the number of bytes it used. It stands for the consensus library's
  `Transaction::consensus_decode`.
- **`parse_tx`** is a total function from a transaction, the block time and the network
  to a `TxSummary`.
- **The continuation** is a function from `BlockData` to a `Result`.

The scan is written as the source's loop: `ScanTxs` absorbs one summary per decoded
transaction. It is proved equal to a reference definition, `ReferenceScan`, which
first decodes all transactions (`DecodeTxs`) and then aggregates them (`Aggregate`).

## Model

| member | source | states |
|---|---|---|
| Hex.HexDecode | src/lib.rs:48 | An odd-length string fails with `OddLength`. Decoding succeeds exactly when the length is even and every character is a hex digit, and then yields half as many bytes as there are characters. |
| Hex.FirstInvalidCharacter | src/lib.rs:48 | A failing decode of an even-length string reports a character that is not a hex digit, together with its index. Every character before that index is a hex digit, so the error names the first offending character. |
| Hex.HexRoundTrip | src/lib.rs:48 | Decoding the hex encoding of any byte string gives the bytes back. |
| Hex.DecodeConcat | src/lib.rs:48 | The decoding of a concatenation of two even-length, decodable strings is the concatenation of their decodings. |
| Hex.DecodePairsIsPairBytes | src/lib.rs:48 | A successful decoding yields, in order, the byte of each digit pair, high digit first. |
| Hex.PairBytesAppend | src/lib.rs:48 | The digit pairs of a concatenation of two even-length digit strings are those of the first, followed by those of the second. |
| Hex.HexDecodeAppend | src/lib.rs:48 | Appending the encoding of some bytes to a decodable string appends exactly those bytes to its decoding. |
| Bytes.ToLittleEndian | src/lib.rs:50 | The little-endian encoding of a number in a given width has that width and reads back as the number. |
| Bytes.LittleEndianReencodes | src/lib.rs:50 | Every byte string is the little-endian encoding, in its own width, of the value it reads as. |
| Header.ReadHeader | src/lib.rs:50 | A header read succeeds exactly when 80 bytes remain. It then moves the cursor by 80 and yields fields within their 32-bit ranges. Otherwise it fails with `UnexpectedEof`. |
| Header.HeaderRoundTrip | src/lib.rs:50 | Parsing the encoding of a well-formed header gives the header back. |
| Header.HeaderReencodes | src/lib.rs:50 | Encoding a header that was read gives back the 80 bytes it was read from, so no header field is lost. |
| Header.ParsedHeaderReencodes | src/lib.rs:50 | Any 80 bytes, parsed as a header and encoded again, give back the same bytes. |
| Header.AuxPowFlagIsBitMask | src/lib.rs:52 | The auxpow flag holds exactly when `version & (1 << 8)` is nonzero. |
| Header.AuxPowFlagIsSecondByteLowBit | src/lib.rs:52 | For a header read from bytes, the auxpow flag is the lowest bit of the header's second byte. |
| CompactSize.ReadVarInt | src/lib.rs:56 | A count read succeeds exactly when the marker byte and its 0, 2, 4 or 8 payload bytes are all present. It moves the cursor past them and yields a value below 2^64. Otherwise it fails with `UnexpectedEof`. |
| CompactSize.EncodeVarInt | src/lib.rs:56 | The shortest encoding of a number has the width its marker byte announces. |
| CompactSize.VarIntRoundTrip | src/lib.rs:56 | Reading the shortest encoding of a number yields the number and moves the cursor past the encoding. |
| CompactSize.VarIntReencodes | src/lib.rs:56 | A count read in its shortest width re-encodes to the bytes it was read from. |
| AuxPow.SkipBranch | src/lib.rs:56-58 | A branch skip succeeds exactly when its count can be read. It then lands at least five bytes further: one count byte and the 4-byte index. |
| AuxPow.SkipAuxPow | src/lib.rs:53-63 | A successful skip of the auxpow region lands inside the buffer. It lands at least a hash, two index-only branches and a parent header further on. |
| AuxPow.SkipMerkleLink | src/lib.rs:56-63 | A successful skip of the two branches and the parent header lands inside the buffer. It lands at least two index-only branches and a header further on. |
| AuxPow.SkipAuxPowRegion | src/lib.rs:53-63 | A successful skip finds the coinbase, the hash, two branches and a parent header laid out back to back. Each branch count is read where the sizes before it put it. The skip ends exactly at the end of that region, which lies inside the buffer. |
| AuxPow.RegionIsSkipped | src/lib.rs:53-63 | Conversely, a region laid out as described is skipped exactly to its end. |
| AuxPow.MerkleLinkSteps | src/lib.rs:56-63 | A successful link skip passes a branch, another branch and an 80-byte parent header, in that order. |
| AuxPow.SkipBranchIsBranch | src/lib.rs:56-58 | A successful branch skip moves past the count's width, 32 bytes per hash and a 4-byte index. |
| AuxPow.BranchIsSkipped | src/lib.rs:60-62 | A branch with a given count and count width is skipped by exactly that width, plus 32 bytes per hash, plus 4. |
| AuxPow.HashSkipPastEndFails | src/lib.rs:54-56 | If moving past the parent hash leaves no bytes, the skip fails with `UnexpectedEof` when it reads the first branch count. |
| AuxPow.BranchSkipPastEndFails | src/lib.rs:57-60 | If moving past a branch leaves no bytes, the next count read and the next header read fail with `UnexpectedEof`, and so does the link skip. |
| AuxPow.SkipAuxPowOfLonger | src/lib.rs:53-63 | With a decoder that reads like a stream, a successful auxpow skip is unchanged by bytes appended after the buffer. |
| AuxPow.SkipBranchWrapping | src/lib.rs:57-58 | The branch skip with wrapping 64-bit cursor arithmetic succeeds exactly when the count can be read, and always lands below 2^64. |
| AuxPow.WrappingSkipAcceptsMissingHashes | src/lib.rs:57-62 | The 14-byte buffer holds a branch that claims 2^59 hashes but holds none, then one more count byte. The wrapping arithmetic skips it to byte 13, where an empty branch would end, and the next count read there succeeds. The unbounded skip instead moves past the end, where the next read fails. |
| AuxPow.WrappingSkipAgreesWhenSmall | src/lib.rs:57-58 | When the skipped distance fits in 64 bits, the wrapping and unbounded skips agree. |
| Scanner.ReadPrelude | src/lib.rs:50-66 | A successful prelude has read the header at the start of the block. The count position it yields lies at or after the end of the header, and inside the buffer. |
| Scanner.CountFollowsHeader | src/lib.rs:51-68 | For Bitcoin, or when the header's auxpow bit (the low bit of its second byte) is clear, the count is read right after the 80-byte header. |
| Scanner.CountFollowsAuxPow | src/lib.rs:51-68 | On Dogecoin or Litecoin with the auxpow bit set, the count is read right after an auxpow region laid out as described. |
| Scanner.PreludeFailure | src/lib.rs:50-66 | The prelude fails exactly in two cases: fewer than 80 bytes are present, or the block is a Dogecoin or Litecoin block with the auxpow bit set and its region cannot be skipped. |
| Scanner.DecodeTxs | src/lib.rs:78-80 | A successful decode of a count of transactions yields exactly that many transactions. |
| Scanner.ScanTxs | src/lib.rs:73-89 | The scan loop never moves the cursor backwards. It only appends to the lists it was given, and adds at most one post per remaining transaction. Its full meaning is stated by `ScanTxsMatchesReference`. |
| Scanner.ScanBlock | src/lib.rs:50-89 | A successful scan needs a complete header followed by a readable count, and holds at most as many posts as that count. Its full meaning is stated by `ScanBlockIsReference` and `ScanBlockSuccess`. |
| Scanner.ProcessBlock | src/lib.rs:45-90 | A success needs a hex string that decodes and scans, and so holds at least a header and a count byte. Its failures and successes are stated by `ProcessBlockFailure` and `ProcessBlockSuccess`. |
| Cursor.ReadWith | src/lib.rs:80 | A decoding read never moves the cursor backwards. |
| Scanner.ScanTxsMatchesReference | src/lib.rs:73-89 | The loop succeeds exactly when the reference decode of the same number of transactions succeeds, and it fails with the same error. On success it ends at the same position, and the accumulator is extended by the aggregate of the summaries, in transaction order. |
| Scanner.ScanBlockIsReference | src/lib.rs:48-89 | The scan of a decoded block equals the reference: frame the prelude, read the count, decode that many transactions and aggregate their summaries. |
| Scanner.ScanBlockSuccess | src/lib.rs:68-89 | A successful scan read a count after the prelude and decoded exactly that many transactions right after it. Its data is the aggregate of their summaries, with the block's header time. It holds at most one post per transaction, and an empty block yields empty lists. |
| Scanner.ScanBlockLists | src/lib.rs:78-89 | The lists of a successful scan come from the block's own header and decoded transactions, through their `parse_tx` summaries. `spent` and `created` are the in-order concatenations of the per-transaction lists, with their total lengths. `borker_txs` is the present posts, in transaction order. |
| Scanner.ParseCannotAbort | src/lib.rs:79-83 | Whether a scan fails, and with which error, does not depend on `parse_tx`. |
| Scanner.ScanTxsOfLonger | src/lib.rs:78-89 | With a streaming decoder, a successful loop is unchanged by bytes appended after the buffer. |
| Scanner.ReadPreludeOfLonger | src/lib.rs:50-66 | With a streaming decoder, a successful prelude is unchanged by bytes appended after the buffer. |
| Scanner.ScanBlockIgnoresAppendedBytes | src/lib.rs:68-90 | With a streaming decoder, bytes appended after the buffer never change a successful scan. |
| Scanner.ScanBlockReadsOnlyCountedBytes | src/lib.rs:68-90 | With a decoder that reads only the bytes it uses, a successful scan stops at the end of the counted transactions, inside the buffer. Cutting the buffer there gives the same scan. |
| Scanner.ScanBlockIgnoresBytesAfterTxs | src/lib.rs:68-90 | With a decoder that reads like a stream and only the bytes it uses, any buffer that agrees with a successfully scanned one up to the end of its counted transactions scans the same, whatever follows. |
| Scanner.ReadPreludeOfPrefix | src/lib.rs:50-66 | A successful prelude is unchanged when the buffer is cut anywhere after the count position. |
| Scanner.ScanTxsInside | src/lib.rs:78-89 | The loop, started inside the buffer, ends inside it. |
| Scanner.ScanTxsOfPrefix | src/lib.rs:78-89 | A successful loop is unchanged when the buffer is cut anywhere after its last transaction. |
| Cursor.ReadWithInside | src/lib.rs:80 | A decoding read that starts inside the buffer ends inside it. |
| Cursor.ReadWithOfPrefix | src/lib.rs:80 | A successful read is unchanged when the buffer is cut anywhere after the bytes it used. |
| Cursor.RemainingOfPrefix | src/lib.rs:49 | The bytes seen at a position in a cut buffer are a prefix of those seen in the whole buffer, up to the cut. |
| CompactSize.ReadVarIntOfPrefix | src/lib.rs:68 | A successful count read is unchanged when the buffer is cut anywhere after the count. |
| Header.ReadHeaderOfPrefix | src/lib.rs:50 | A successful header read is unchanged when the buffer is cut anywhere after the header. |
| AuxPow.SkipMerkleLinkOfPrefix | src/lib.rs:56-63 | A successful link skip is unchanged when the buffer is cut anywhere after the parent header. |
| AuxPow.SkipAuxPowOfPrefix | src/lib.rs:53-63 | A successful auxpow skip is unchanged when the buffer is cut anywhere after the region. |
| Scanner.ProcessBlockFailure | src/lib.rs:45-90 | A hex or scan failure is the result, carrying the hex error or the scan error. The continuation plays no part in it. |
| Scanner.ProcessBlockSuccess | src/lib.rs:45-90 | On success the result is the continuation applied to the aggregate of the `parse_tx` summaries of exactly the block's counted, decoded transactions, with the block header's time. |
| Scanner.ProcessBlockIgnoresTrailingBytes | src/lib.rs:45-90 | Appending the hex encoding of further bytes to a block that scans successfully does not change the result. |
| Records.Absorb | src/lib.rs:84-88 | One loop pass pushes the post, if there is one, and extends `spent` and `created`. The old lists stay as prefixes, and the transaction's lists follow them. |
| Records.Somes | src/lib.rs:84-86 | The present posts are at most as many as the transactions. |
| Records.SomesMembership | src/lib.rs:84-86 | A post is among the present posts exactly when some transaction yielded it. |
| Records.SomesAppend | src/lib.rs:84-86 | The present posts of two runs of transactions are those of the first run, followed by those of the second. |
| Records.SomesAllPresent | src/lib.rs:84-86 | When every transaction yields a post, the posts are all of them, in order. |
| Records.FlattenAppend | src/lib.rs:87-88 | Joining two runs of lists is joining each run, then concatenating. |
| Records.FlattenLength | src/lib.rs:87-88 | The joined list is as long as the lists together. |
| Records.AggregateSnoc | src/lib.rs:78-89 | Aggregating one more transaction at the end absorbs its summary, as one loop pass does. |
| Records.AggregateAppend | src/lib.rs:78-89 | The aggregate of two runs of transactions is the first run's aggregate followed by the second's. |
| Records.AggregateCons | src/lib.rs:78-89 | Aggregating one more transaction in front puts its contribution in front. |
| Records.ConcatAbsorb | src/lib.rs:84-88 | Absorbing a summary and then appending the rest is the same as appending that summary's contribution followed by the rest. |
| Records.AggregateShape | src/lib.rs:73-89 | The aggregate holds at most one post per transaction, and a post exactly for each transaction that yields one. Its `spent` and `created` are as long as the per-transaction lists together. |
| Cursor.Remaining | src/lib.rs:49 | The bytes seen at a position are the buffer from that position on, and there are none past the end. |
| Cursor.ReadWithOfLonger | src/lib.rs:80 | With a streaming decoder, a successful read is unchanged by appended bytes. |
| Cursor.RemainingOfLonger | src/lib.rs:49 | The bytes seen at a position in a buffer are a prefix of those seen in any extension of it. |
| CompactSize.ReadVarIntOfLonger | src/lib.rs:68 | A successful count read is unchanged by appended bytes. |
| Header.ReadHeaderOfLonger | src/lib.rs:50 | A successful header read is unchanged by appended bytes. |
| AuxPow.SkipBranchOfLonger | src/lib.rs:56-58 | A successful branch skip is unchanged by appended bytes. |
| AuxPow.SkipMerkleLinkOfLonger | src/lib.rs:56-63 | A successful link skip is unchanged by appended bytes. |
| Scanner.SummariesCons | src/lib.rs:79-83 | The summary of one more transaction in front is that transaction's `parse_tx` result, put in front. |

## Left out

- Transaction decoding (`bitcoin::Transaction::consensus_decode`) is a parameter. The
  facts about trailing bytes assume it reads like a stream: once it succeeds on some
  bytes, it gives the same result on any extension of them. The facts about cutting the
  buffer after the last transaction also assume that it reads only the bytes it reports
  as used: it never uses more than it is given, and any input that still holds those
  bytes decodes the same. A stream reader without lookahead has both properties. Its own
  error messages are not modelled beyond being passed through.
- `protocol::parse_tx` is a total parameter that returns a `TxSummary`. Recognising
  posts, spent outputs and payable outputs belongs to the protocol module, which is not
  part of this model, so the field shapes of `BorkTxData`, `UtxoId` and `NewUtxo` are
  assumed.
- The block time is passed as the header's `time` field, a natural number below 2^32.
  The conversion to a `chrono::DateTime` at src/lib.rs:69-72 is not modelled.
- Serialisation of `BlockData` with serde, `Output` and `Output::as_tup`
  (src/lib.rs:25-35), and the wallet, big-array and macro modules are outside the scan.
- The JavaScript bindings, the procedural macros and the TypeScript wrappers only
  marshal arguments and results, so they are not modelled. Note that the generated
  binding returns only the first chunk of its result
  (js/bindings/src/lib.rs:80-84).
- CompactSize.ReadVarInt: non-shortest encodings are accepted. The consensus library
  at some versions rejects them, and this model does not.
- Hex.HexDecode: the input is a sequence of characters, and the odd-length test counts
  characters. The `hex` crate counts bytes of the UTF-8 string, so for non-ASCII input
  the two can differ. For example, "é" is `OddLength` here but an invalid-character
  error in the crate. Only ASCII input is modelled faithfully.
- Hex.FirstInvalidCharacter: the error index counts characters (`char`s). The `hex`
  crate counts them the same way for ASCII input; for input with multi-byte UTF-8
  characters, the byte-level behaviour is not modelled.
- The header version is kept as an unsigned 32-bit value. Bit 8 is the same whether
  the consensus library types it as signed or unsigned, so the sign plays no part in
  the auxpow test.
- The flag `version & 1 << 8` is the only auxpow signal used; the chain id in the upper
  version bits is not inspected, as in the source.
- The cursor position is unbounded in the main model. The wrapping 64-bit skip is kept
  separately, under Findings.

## Findings

| source | as written | input that shows it | evidently intended | confidence | as-written member | corrected member |
|---|---|---|---|---|---|---|
| src/lib.rs:57-62 | `cur.position() + 32 * len.0` and `pos + 4` are unchecked `u64` arithmetic, which wraps in a release build | a merkle branch count of 2^59 (`FF 00 00 00 00 00 00 00 08`) followed by a 4-byte index and no hashes: `32 * 2^59` wraps to 0, and reading goes on at the byte after the index | a branch whose hashes are not all present makes the block fail to parse | medium; not executed; a debug build panics instead | AuxPow.SkipBranchWrapping, AuxPow.WrappingSkipAcceptsMissingHashes | AuxPow.SkipBranch, AuxPow.BranchSkipPastEndFails |
