/** What consolidation puts in the place of the blocks it replaces, and what it leaves alone. */
module Replacements {
  import opened Prelude
  import opened Blocks
  import opened PreStates
  import opened Consolidation
  import DriverTheorems

  /** What one re-execution builds: the deposits of the block in their order, and then one replacement transaction. */
  ghost predicate Rebuilds(t: Tools, w: Work, chain: u64, i: nat, built: Sealed, root: Hash) {
    && chain in w.heads && i < |w.pending|
    && t.parentHeader(chain, w.heads[chain]).Ok? && t.transactions(w.heads[chain]).Ok?
    && exists deposits, kept ::
         && DriverTheorems.KeepsDeposits(t.transactions(w.heads[chain]).value, deposits, kept)
         && t.build(chain, w.heads[chain], t.parentHeader(chain, w.heads[chain]).value,
                    deposits + [t.replacement(w.heads[chain], w.pending[i].outputRoot)])
            == Ok((built, root))
  }

  /**
   * One re-execution: the first pending block with the head's hash gets the hash of the block built from its deposits
   * and the replacement, and the root the builder computed for it; the chain's head becomes that block; nothing else
   * changes.
   */
  lemma ReExecuteExact(t: Tools, w: Work, chain: u64) returns (i: nat, built: Sealed, root: Hash)
    requires ReExecute(t, w, chain).Again?
    ensures Rebuilds(t, w, chain, i, built, root)
    ensures w.pending[i].blockHash == w.heads[chain].hash
    ensures forall k | 0 <= k < i :: w.pending[k].blockHash != w.heads[chain].hash
    ensures ReExecute(t, w, chain).work
         == Work(w.pending[i := OptimisticBlock(built.hash, root)], w.heads[chain := built])
  {
    var header := w.heads[chain];
    var txs := t.transactions(header).value;
    i := Find(w.pending, header.hash).value;
    var kept := DriverTheorems.DepositsSubsequence(txs);
    hide DriverTheorems.KeepsDeposits;
    var w' := ReExecute(t, w, chain).work;
    built := w'.heads[chain];
    root := w'.pending[i].outputRoot;
  }

  predicate HasDepositsOnly(txs: seq<Bytes>) {
    forall i | 0 <= i < |txs| :: txs[i] != [] && txs[i][0] == 0x7E
  }

  /**
   * How a re-execution fails: on a chain without a head or without a pending block for it, on data that cannot be
   * loaded, on a chain that is not configured or has no provider, or in the builder. It panics exactly on a block that
   * holds nothing but deposits, once that block is loaded.
   */
  lemma ReExecuteFails(t: Tools, w: Work, chain: u64)
    ensures var out := ReExecute(t, w, chain);
            && (out.Panicked? <==>
                  && chain in w.heads && t.parentHeader(chain, w.heads[chain]).Ok?
                  && t.transactions(w.heads[chain]).Ok? && HasDepositsOnly(t.transactions(w.heads[chain]).value))
            && (out.Failed? ==>
                  match out.error
                  case EmptyDependencySet =>
                    || chain !in w.heads
                    || forall k | 0 <= k < |w.pending| :: w.pending[k].blockHash != w.heads[chain].hash
                  case OracleProvider(e) =>
                    && chain in w.heads
                    && (t.parentHeader(chain, w.heads[chain]) == Err(e) || t.transactions(w.heads[chain]) == Err(e))
                  case MissingRollupConfig(c) => c == chain && chain !in t.rollupConfigs
                  case MissingLocalProvider(c) => c == chain && chain !in t.providers
                  case Executor(_) => true
                  case Graph(_) => false)
            && (out.Again? ==> chain in t.rollupConfigs && chain in t.providers)
  {
  }

  // ---------------------------------------------------------------------------------------------
  // Over all rounds

  /** Every answer of the builder carries the root of the block it built. */
  ghost predicate Rooting(t: Tools, rootOf: Sealed -> Hash) {
    forall chain, header, parent, txs | t.build(chain, header, parent, txs).Ok? ::
      var (built, root) := t.build(chain, header, parent, txs).value;
      root == rootOf(built)
  }

  function AsSet(chains: seq<u64>): set<u64> {
    set c | c in chains
  }

  /** The chains in `bad` have a block and root of their new head; all others have what they had. */
  ghost predicate Replaces(rootOf: Sealed -> Hash, chains: seq<u64>, w: Work, w': Work, bad: set<u64>) {
    && |w.pending| == |w'.pending| == |chains|
    && w'.heads.Keys == w.heads.Keys
    && (forall i | 0 <= i < |chains| && chains[i] in bad ::
          chains[i] in w'.heads
          && w'.pending[i] == OptimisticBlock(w'.heads[chains[i]].hash, rootOf(w'.heads[chains[i]])))
    && (forall i | 0 <= i < |chains| && chains[i] !in bad :: w'.pending[i] == w.pending[i])
    && (forall c | c in w.heads && c !in bad :: w'.heads[c] == w.heads[c])
  }

  lemma ReExecuteReplaces(t: Tools, rootOf: Sealed -> Hash, chains: seq<u64>, w: Work, chain: u64)
    requires Honest(t) && Rooting(t, rootOf) && Paired(t, chains, w) && ReExecute(t, w, chain).Again?
    ensures Replaces(rootOf, chains, w, ReExecute(t, w, chain).work, {chain})
  {
    var i, built, root := ReExecuteExact(t, w, chain);
    assert root == rootOf(built);
    hide ReExecute, Rooting, Rebuilds;
    var k :| 0 <= k < |chains| && chains[k] == chain;
    assert chains[i] == t.owner(w.heads[chain].hash) == chains[k];
    assert i == k;
  }

  lemma PairedShape(t: Tools, rootOf: Sealed -> Hash, chains: seq<u64>, w: Work)
    requires Paired(t, chains, w)
    ensures forall k | k in chains :: k in w.heads
    ensures Replaces(rootOf, chains, w, w, {})
  {
  }

  lemma ReplacesJoin(rootOf: Sealed -> Hash, chains: seq<u64>, a: Work, b: Work, c: Work, x: set<u64>, y: set<u64>)
    requires Replaces(rootOf, chains, a, b, x) && Replaces(rootOf, chains, b, c, y)
    requires forall k | k in chains :: k in a.heads
    ensures Replaces(rootOf, chains, a, c, x + y)
  {
    forall i | 0 <= i < |chains| && chains[i] in x + y
      ensures chains[i] in c.heads
      ensures c.pending[i] == OptimisticBlock(c.heads[chains[i]].hash, rootOf(c.heads[chains[i]]))
    {
      if chains[i] !in y {
        assert c.pending[i] == b.pending[i];
        assert c.heads[chains[i]] == b.heads[chains[i]];
      }
    }
  }

  lemma {:induction false} ReExecuteAllReplaces(
    t: Tools, rootOf: Sealed -> Hash, chains: seq<u64>, w: Work, bad: seq<u64>)
    requires Honest(t) && Rooting(t, rootOf) && Paired(t, chains, w) && ReExecuteAll(t, w, bad).Again?
    ensures Replaces(rootOf, chains, w, ReExecuteAll(t, w, bad).work, AsSet(bad))
    decreases |bad|
  {
    hide Paired, Replaces, Honest, Rooting, ReExecute;
    PairedShape(t, rootOf, chains, w);
    if bad == [] {
      assert AsSet(bad) == {};
    } else {
      ReExecutePaired(t, chains, w, bad[0]);
      ReExecuteReplaces(t, rootOf, chains, w, bad[0]);
      var w' := ReExecute(t, w, bad[0]).work;
      ReExecuteAllReplaces(t, rootOf, chains, w', bad[1..]);
      assert AsSet(bad) == {bad[0]} + AsSet(bad[1..]);
      ReplacesJoin(rootOf, chains, w, w', ReExecuteAll(t, w, bad).work, {bad[0]}, AsSet(bad[1..]));
    }
  }

  /** The chains whose messages were found invalid in any of the first `n` rounds. */
  function Invalid(t: Tools, w: Work, n: nat): set<u64>
    decreases n
  {
    if n == 0 || t.invalidChains(w.heads).Err? then {}
    else
      var bad := AsSet(t.invalidChains(w.heads).value);
      match Round(t, w)
      case Again(w') => bad + Invalid(t, w', n - 1)
      case _ => bad
  }

  lemma LastRound(t: Tools, w: Work, n: nat)
    requires Rounds(t, w, n).Clean? && !Round(t, w).Again?
    ensures Rounds(t, w, n).work == w && Invalid(t, w, n) == {}
  {
  }

  lemma FurtherRound(t: Tools, rootOf: Sealed -> Hash, chains: seq<u64>, w: Work, n: nat) returns (bad: set<u64>)
    requires Honest(t) && Rooting(t, rootOf) && Paired(t, chains, w) && Rounds(t, w, n).Clean? && Round(t, w).Again?
    ensures n > 0 && Paired(t, chains, Round(t, w).work)
    ensures Rounds(t, w, n) == Rounds(t, Round(t, w).work, n - 1)
    ensures Replaces(rootOf, chains, w, Round(t, w).work, bad)
    ensures Invalid(t, w, n) == bad + Invalid(t, Round(t, w).work, n - 1)
  {
    hide Honest, Rooting, Paired, Replaces, ReExecuteAll;
    var found := t.invalidChains(w.heads).value;
    bad := AsSet(found);
    ReExecuteAllPaired(t, chains, w, found);
    ReExecuteAllReplaces(t, rootOf, chains, w, found);
  }

  lemma {:induction false} RoundsReplace(t: Tools, rootOf: Sealed -> Hash, chains: seq<u64>, w: Work, n: nat)
    requires Honest(t) && Rooting(t, rootOf) && Paired(t, chains, w) && Rounds(t, w, n).Clean?
    ensures Replaces(rootOf, chains, w, Rounds(t, w, n).work, Invalid(t, w, n))
    decreases n
  {
    hide Honest, Rooting, Paired, Replaces, Round, Rounds, Invalid;
    PairedShape(t, rootOf, chains, w);
    if Round(t, w).Again? {
      var bad := FurtherRound(t, rootOf, chains, w, n);
      var w' := Round(t, w).work;
      RoundsReplace(t, rootOf, chains, w', n - 1);
      ReplacesJoin(rootOf, chains, w, w', Rounds(t, w', n - 1).work, bad, Invalid(t, w', n - 1));
    } else {
      LastRound(t, w, n);
    }
  }

  /** The chains that a consolidation which ends finds invalid, in any round. */
  ghost function Replaced(t: Tools, w: Work): set<u64> {
    if exists n: nat :: EndsWithin(t, w, n) then
      var n: nat :| EndsWithin(t, w, n);
      Invalid(t, w, n)
    else {}
  }

  /**
   * A consolidation that succeeds has replaced, in every chain it ever found invalid, the pending block by the hash and
   * the root of the chain's new head, and has left every other chain's pending block and head as they were.
   */
  lemma ConsolidateReplaces(t: Tools, rootOf: Sealed -> Hash, chains: seq<u64>, w: Work)
    requires Honest(t) && Rooting(t, rootOf) && Paired(t, chains, w) && Consolidate(t, w).Clean?
    ensures Replaces(rootOf, chains, w, Consolidate(t, w).work, Replaced(t, w))
  {
    hide Honest, Rooting, Paired, Replaces, Rounds, Invalid;
    var n: nat :| EndsWithin(t, w, n) && Replaced(t, w) == Invalid(t, w, n);
    ConsolidateIs(t, w, n);
    RoundsReplace(t, rootOf, chains, w, n);
  }
}
