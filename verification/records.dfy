/** The records `processBlock` produces, and the meaning of its
    aggregation: what a block's `BlockData` must hold given the
    per-transaction results, in transaction order. */
module Records {
  import opened Wrappers
  import opened Bytes

  datatype Network = Dogecoin | Litecoin | Bitcoin

  /** The kind of a post; the protocol module defines further tags. */
  datatype BorkType = Bork | Comment | Rebork | Extension | OtherType(tag: byte)

  /** A post decoded from one transaction. The protocol module that builds
      it is not part of this model, so the field shapes are assumed. */
  datatype BorkTxData = BorkTxData(
    borkType: BorkType,
    content: Option<string>,
    nonce: Option<byte>,
    referenceId: Option<seq<byte>>,
    index: Option<byte>,
    time: nat)

  /** A spent output: previous transaction id and output index. */
  datatype UtxoId = UtxoId(txid: seq<byte>, index: nat)

  /** A newly created payable output. */
  datatype NewUtxo = NewUtxo(txid: seq<byte>, index: nat, address: string, value: nat)

  /** What `parse_tx` returns for one transaction. */
  datatype TxSummary = TxSummary(bork: Option<BorkTxData>, spent: seq<UtxoId>, created: seq<NewUtxo>)

  datatype BlockData = BlockData(borkerTxs: seq<BorkTxData>, spent: seq<UtxoId>, created: seq<NewUtxo>)

  const EmptyBlockData := BlockData([], [], [])

  /** One pass of the scan loop's body: push the post if there is one, then
      extend the spent and created lists. */
  function Absorb(data: BlockData, s: TxSummary): (r: BlockData)
    ensures |r.borkerTxs| == |data.borkerTxs| + (if s.bork.Some? then 1 else 0)
    ensures r.borkerTxs[..|data.borkerTxs|] == data.borkerTxs
    ensures s.bork.Some? ==> r.borkerTxs[|data.borkerTxs|] == s.bork.value
    ensures |r.spent| == |data.spent| + |s.spent| && |r.created| == |data.created| + |s.created|
    ensures r.spent[..|data.spent|] == data.spent && r.spent[|data.spent|..] == s.spent
    ensures r.created[..|data.created|] == data.created && r.created[|data.created|..] == s.created
  {
    BlockData(
      data.borkerTxs + (if s.bork.Some? then [s.bork.value] else []),
      data.spent + s.spent,
      data.created + s.created)
  }

  /** Lists of `a` followed by lists of `b`. */
  function Concat(a: BlockData, b: BlockData): BlockData {
    BlockData(a.borkerTxs + b.borkerTxs, a.spent + b.spent, a.created + b.created)
  }

  /** The values of the `Some` entries of `s`, in order. */
  function Somes<T>(s: seq<Option<T>>): (r: seq<T>)
    ensures |r| <= |s|
  {
    if s == [] then []
    else (if s[0].Some? then [s[0].value] else []) + Somes(s[1..])
  }

  /** The lists of `ss` joined end to end. */
  function Flatten<T>(ss: seq<seq<T>>): seq<T> {
    if ss == [] then [] else ss[0] + Flatten(ss[1..])
  }

  function TotalLength<T>(ss: seq<seq<T>>): nat {
    if ss == [] then 0 else |ss[0]| + TotalLength(ss[1..])
  }

  /** The reference aggregate: every post in transaction order, and the
      in-order concatenation of every spent and every created list. */
  function Aggregate(sums: seq<TxSummary>): BlockData {
    BlockData(
      Somes(seq(|sums|, i requires 0 <= i < |sums| => sums[i].bork)),
      Flatten(seq(|sums|, i requires 0 <= i < |sums| => sums[i].spent)),
      Flatten(seq(|sums|, i requires 0 <= i < |sums| => sums[i].created)))
  }

  lemma {:induction false} SomesAppend<T>(a: seq<Option<T>>, b: seq<Option<T>>)
    ensures Somes(a + b) == Somes(a) + Somes(b)
  {
    if a == [] {
      assert a + b == b;
    } else {
      assert (a + b)[0] == a[0] && (a + b)[1..] == a[1..] + b;
      SomesAppend(a[1..], b);
      var head := if a[0].Some? then [a[0].value] else [];
      assert head + (Somes(a[1..]) + Somes(b)) == (head + Somes(a[1..])) + Somes(b);
    }
  }

  /** `Somes` keeps exactly the values of the `Some` entries. */
  lemma {:induction false} SomesMembership<T>(s: seq<Option<T>>, x: T)
    ensures x in Somes(s) <==> Some(x) in s
  {
    if s != [] {
      SomesMembership(s[1..], x);
      assert s == [s[0]] + s[1..];
    }
  }

  /** When every entry is present, nothing is dropped: the result is every
      value, in order. */
  lemma {:induction false} SomesAllPresent<T>(s: seq<Option<T>>)
    requires forall i :: 0 <= i < |s| ==> s[i].Some?
    ensures |Somes(s)| == |s|
    ensures Somes(s) == seq(|s|, i requires 0 <= i < |s| => s[i].value)
  {
    if s != [] {
      var rest := s[1..];
      SomesAllPresent(rest);
      var whole := seq(|s|, i requires 0 <= i < |s| => s[i].value);
      var tail := seq(|rest|, i requires 0 <= i < |rest| => rest[i].value);
      assert whole == [s[0].value] + tail;
    }
  }

  lemma {:induction false} FlattenAppend<T>(a: seq<seq<T>>, b: seq<seq<T>>)
    ensures Flatten(a + b) == Flatten(a) + Flatten(b)
  {
    if a == [] {
      assert a + b == b;
    } else {
      assert (a + b)[1..] == a[1..] + b;
      FlattenAppend(a[1..], b);
    }
  }

  lemma {:induction false} FlattenLength<T>(ss: seq<seq<T>>)
    ensures |Flatten(ss)| == TotalLength(ss)
  {
    if ss != [] {
      FlattenLength(ss[1..]);
    }
  }

  /** The aggregate of a prefix followed by one more transaction is the
      loop body applied to the prefix's aggregate: the reference aggregate
      is what the scan loop builds. */
  lemma AggregateSnoc(sums: seq<TxSummary>, s: TxSummary)
    ensures Aggregate(sums + [s]) == Absorb(Aggregate(sums), s)
  {
    var all := sums + [s];
    var borks := seq(|sums|, i requires 0 <= i < |sums| => sums[i].bork);
    var spent := seq(|sums|, i requires 0 <= i < |sums| => sums[i].spent);
    var created := seq(|sums|, i requires 0 <= i < |sums| => sums[i].created);
    assert seq(|all|, i requires 0 <= i < |all| => all[i].bork) == borks + [s.bork];
    assert seq(|all|, i requires 0 <= i < |all| => all[i].spent) == spent + [s.spent];
    assert seq(|all|, i requires 0 <= i < |all| => all[i].created) == created + [s.created];
    SomesAppend(borks, [s.bork]);
    FlattenAppend(spent, [s.spent]);
    FlattenAppend(created, [s.created]);
    assert Flatten([s.spent]) == s.spent + Flatten<UtxoId>([]);
    assert Flatten([s.created]) == s.created + Flatten<NewUtxo>([]);
  }

  /** Aggregation distributes over splitting the transaction list. */
  lemma AggregateAppend(a: seq<TxSummary>, b: seq<TxSummary>)
    ensures Aggregate(a + b) == Concat(Aggregate(a), Aggregate(b))
  {
    var ab := a + b;
    assert seq(|ab|, i requires 0 <= i < |ab| => ab[i].bork)
        == seq(|a|, i requires 0 <= i < |a| => a[i].bork) + seq(|b|, i requires 0 <= i < |b| => b[i].bork);
    assert seq(|ab|, i requires 0 <= i < |ab| => ab[i].spent)
        == seq(|a|, i requires 0 <= i < |a| => a[i].spent) + seq(|b|, i requires 0 <= i < |b| => b[i].spent);
    assert seq(|ab|, i requires 0 <= i < |ab| => ab[i].created)
        == seq(|a|, i requires 0 <= i < |a| => a[i].created) + seq(|b|, i requires 0 <= i < |b| => b[i].created);
    SomesAppend(seq(|a|, i requires 0 <= i < |a| => a[i].bork), seq(|b|, i requires 0 <= i < |b| => b[i].bork));
    FlattenAppend(seq(|a|, i requires 0 <= i < |a| => a[i].spent), seq(|b|, i requires 0 <= i < |b| => b[i].spent));
    FlattenAppend(seq(|a|, i requires 0 <= i < |a| => a[i].created), seq(|b|, i requires 0 <= i < |b| => b[i].created));
  }

  /** Aggregating one more transaction in front adds its contribution in
      front. */
  lemma AggregateCons(s: TxSummary, sums: seq<TxSummary>)
    ensures Aggregate([s] + sums) == Prepend(s, Aggregate(sums))
  {
    AggregateAppend([s], sums);
    AggregateSnoc([], s);
    assert [] + [s] == [s];
    var e := Aggregate([]);
    assert e == EmptyBlockData;
    var b := if s.bork.Some? then [s.bork.value] else [];
    assert e.borkerTxs + b == b && e.spent + s.spent == s.spent && e.created + s.created == s.created;
    assert Aggregate([s]) == BlockData(b, s.spent, s.created);
  }

  /** The contribution of `s` put in front of `data`. */
  function Prepend(s: TxSummary, data: BlockData): BlockData {
    BlockData(
      (if s.bork.Some? then [s.bork.value] else []) + data.borkerTxs,
      s.spent + data.spent,
      s.created + data.created)
  }

  lemma ConcatAbsorb(acc: BlockData, s: TxSummary, rest: BlockData)
    ensures Concat(Absorb(acc, s), rest) == Concat(acc, Prepend(s, rest))
  {
    var b := if s.bork.Some? then [s.bork.value] else [];
    assert (acc.borkerTxs + b) + rest.borkerTxs == acc.borkerTxs + (b + rest.borkerTxs);
    assert (acc.spent + s.spent) + rest.spent == acc.spent + (s.spent + rest.spent);
    assert (acc.created + s.created) + rest.created == acc.created + (s.created + rest.created);
  }

  /** Bounds of the aggregate: at most one post per transaction, every list
      as long as the per-transaction lists together, and a post exactly for
      each transaction that yields one. */
  lemma AggregateShape(sums: seq<TxSummary>)
    ensures |Aggregate(sums).borkerTxs| <= |sums|
    ensures |Aggregate(sums).spent| == TotalLength(seq(|sums|, i requires 0 <= i < |sums| => sums[i].spent))
    ensures |Aggregate(sums).created| == TotalLength(seq(|sums|, i requires 0 <= i < |sums| => sums[i].created))
    ensures forall b :: b in Aggregate(sums).borkerTxs <==> exists i :: 0 <= i < |sums| && sums[i].bork == Some(b)
  {
    var borks := seq(|sums|, i requires 0 <= i < |sums| => sums[i].bork);
    FlattenLength(seq(|sums|, i requires 0 <= i < |sums| => sums[i].spent));
    FlattenLength(seq(|sums|, i requires 0 <= i < |sums| => sums[i].created));
    forall b
      ensures b in Aggregate(sums).borkerTxs <==> exists i :: 0 <= i < |sums| && sums[i].bork == Some(b)
    {
      SomesMembership(borks, b);
      if Some(b) in borks {
        var i :| 0 <= i < |borks| && borks[i] == Some(b);
        assert sums[i].bork == Some(b);
      }
      if exists i :: 0 <= i < |sums| && sums[i].bork == Some(b) {
        var i :| 0 <= i < |sums| && sums[i].bork == Some(b);
        assert borks[i] == Some(b);
      }
    }
  }
}
