/** What the blocks of a run are made of: which transactions are executed, cached and decoded, and the info read off. */
module DriverBlocks {
  import opened Prelude
  import opened Forks
  import opened Blocks
  import opened Driver
  import opened DriverProtocol
  import opened DriverTheorems

  // ---------------------------------------------------------------------------------------------
  // The retried payload

  /** The two attributes differ in their transactions only, and there the second keeps exactly the deposits. */
  ghost predicate StrippedTo(full: Attributes, stripped: Attributes) {
    && stripped.timestamp == full.timestamp && stripped.content == full.content
    && match full.transactions
       case None => stripped.transactions == None
       case Some(txs) =>
         && stripped.transactions.Some?
         && exists kept :: KeepsDeposits(txs, stripped.transactions.value, kept)
  }

  lemma DepositOnlyStrips(a: Attributes)
    ensures StrippedTo(a, DepositOnly(a))
  {
    if a.transactions.Some? {
      var kept := DepositsSubsequence(a.transactions.value);
    }
  }

  /**
   * Every execution of a run, in a conforming trace: of the attributes just derived, or, after a failed attempt at
   * those, with Holocene active at their timestamp and a flush acknowledged, of the same attributes with exactly their
   * deposits in order.
   */
  lemma ExecutionProvenance(env: Env, v: View, t: Trace, i: nat)
    requires Conforms(env, v, t) && i < |t| && t[i].Executed?
    ensures i >= 2
    ensures || DerivedAt(t, i - 2, t[i].attributes)
            || (&& i >= 5
                && t[i - 3].Executed? && t[i - 3].built.Err?
                && DerivedAt(t, i - 5, t[i - 3].attributes)
                && HoloceneActive(env.forks, t[i - 3].attributes.timestamp)
                && t[i - 2].Flushed? && t[i - 2].ack.Ok?
                && StrippedTo(t[i - 3].attributes, t[i].attributes))
  {
    ConformsAt(env, v, t, i);
    var before := DropLast(t[..i]);
    assert before == t[..i - 1];
    assert Last(before) == t[i - 2];
    if t[i - 2].Flushed? {
      var failed := DropLast(before);
      assert Back(failed, 1) == t[i - 3] && Back(failed, 3) == t[i - 5];
      DepositOnlyStrips(t[i - 3].attributes);
    }
    hide Conforms, DepositOnly, StrippedTo;
  }

  /** The transactions of attributes, where none are the same as an empty list. */
  predicate ListedIn(a: Attributes, txs: seq<Bytes>) {
    a.transactions == Some(txs) || (a.transactions == None && txs == [])
  }

  /** A committed block caches the whole list its execution was given, and decodes it one by one, in order. */
  lemma CommittedTransactions(env: Env, v: View, t: Trace, i: nat) returns (decoded: seq<Tx>)
    requires Conforms(env, v, t) && i < |t| && t[i].Committed?
    ensures i >= 5 && t[i - 3].Executed? && ListedIn(t[i - 3].attributes, t[i].artifacts.transactions)
    ensures |decoded| == |t[i].artifacts.transactions|
    ensures forall k | 0 <= k < |decoded| :: env.decodeTx(t[i].artifacts.transactions[k]) == Ok(decoded[k])
    ensures InfoOf(env, t[i].tip.header.inner, decoded, t[i].tip.l2SafeHead)
  {
    CommitAssembled(env, v, t, i);
    var txs := t[i].artifacts.transactions;
    DecodeAllExact(env, txs);
    decoded := DecodeAll(env, txs).value;
    hide Conforms, DecodeAll;
    FromBlockExact(env, t[i].tip.header.inner, decoded);
  }

  // ---------------------------------------------------------------------------------------------
  // Decoding a block

  lemma {:induction false} DecodeAllExact(env: Env, txs: seq<Bytes>)
    ensures DecodeAll(env, txs).Ok? <==> forall i | 0 <= i < |txs| :: env.decodeTx(txs[i]).Ok?
    ensures DecodeAll(env, txs).Ok? ==>
              && |DecodeAll(env, txs).value| == |txs|
              && forall i | 0 <= i < |txs| :: env.decodeTx(txs[i]) == Ok(DecodeAll(env, txs).value[i])
    decreases |txs|
  {
    if txs != [] {
      var rest := txs[1..];
      DecodeAllExact(env, rest);
      assert forall i | 0 <= i < |rest| :: rest[i] == txs[i + 1];
      if env.decodeTx(txs[0]).Ok? && DecodeAll(env, rest).Ok? {
        var out := DecodeAll(env, txs).value;
        forall i | 0 <= i < |txs|
          ensures env.decodeTx(txs[i]) == Ok(out[i])
        {
          assert i > 0 ==> txs[i] == rest[i - 1] && out[i] == DecodeAll(env, rest).value[i - 1];
        }
      } else if env.decodeTx(txs[0]).Ok? {
        var i :| 0 <= i < |rest| && env.decodeTx(rest[i]).Err?;
        assert env.decodeTx(txs[i + 1]).Err?;
      }
    }
  }

  /**
   * The info of a block: its own number, parent and time under the hash of its header; the genesis origin and zero for
   * the genesis block, which must have the genesis hash; and for any other the origin and sequence number that its
   * first transaction, a deposit, carries.
   */
  predicate InfoOf(env: Env, header: Header, txs: seq<Tx>, info: L2BlockInfo) {
    && info.blockInfo.number == header.number && info.blockInfo.parentHash == header.parentHash
    && info.blockInfo.timestamp == header.timestamp && info.blockInfo.hash == env.hashHeader(header)
    && if header.number == env.genesisL2.number then
         env.hashHeader(header) == env.genesisL2.hash && info.l1Origin == env.genesisL1 && info.seqNum == 0
       else
         && |txs| >= 1 && txs[0].kind == 0x7E
         && env.decodeL1Info(txs[0].input) == Ok((info.l1Origin, info.seqNum))
  }

  lemma FromBlockExact(env: Env, header: Header, txs: seq<Tx>)
    ensures forall info :: FromBlockAndGenesis(env, header, txs) == Ok(info) <==> InfoOf(env, header, txs, info)
  {
    forall info
      ensures FromBlockAndGenesis(env, header, txs) == Ok(info) <==> InfoOf(env, header, txs, info)
    {
      var made := BlockInfo(env.hashHeader(header), header.number, header.parentHash, header.timestamp);
      if InfoOf(env, header, txs, info) {
        assert info.blockInfo == made;
      }
    }
  }
}
