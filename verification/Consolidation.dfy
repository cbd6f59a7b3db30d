/**
 * The superchain consolidator: while the message graph over the local safe heads has invalid messages, the blocks
 * that hold them are re-executed with their deposits and a replacement transaction only.
 */
module Consolidation {
  import opened Prelude
  import opened Blocks
  import opened PreStates
  import Driver

  datatype Error =
    | EmptyDependencySet
    | OracleProvider(code: nat)
    | MissingRollupConfig(chain: u64)
    | MissingLocalProvider(chain: u64)
    | Graph(code: nat)
    | Executor(code: nat)

  type Heads = map<u64, Sealed>

  /** The components the consolidator works with. */
  datatype Tools = Tools(
    /** Derive and resolve the message graph: the chains with invalid messages, or a failure to derive it. */
    invalidChains: Heads -> Result<seq<u64>, nat>,
    parentHeader: (u64, Sealed) -> Result<Header, nat>,
    transactions: Sealed -> Result<seq<Bytes>, nat>,
    rollupConfigs: set<u64>,
    providers: set<u64>,
    /** The deposit that commits to the block being replaced. */
    replacement: (Sealed, Hash) -> Bytes,
    /** Build the block on its parent from the given transactions, and compute its output root. */
    build: (u64, Sealed, Header, seq<Bytes>) -> Result<(Sealed, Hash), nat>,
    /** The chain whose block a hash belongs to. */
    owner: Hash -> u64)

  /** What consolidation changes: the pending blocks of the pre-state and the heads the graph is derived from. */
  datatype Work = Work(pending: seq<OptimisticBlock>, heads: Heads)

  /** How a round, or all rounds together, end; rounds that never end are `Endless`. */
  datatype Outcome = Clean(work: Work) | Again(work: Work) | Failed(error: Error) | Panicked | Endless

  predicate AllDeposits(txs: seq<Bytes>) {
    forall i | 0 <= i < |txs| :: Driver.IsDeposit(txs[i])
  }

  function Find(pending: seq<OptimisticBlock>, hash: Hash): (i: Option<nat>)
    ensures i.Some? ==> i.value < |pending| && pending[i.value].blockHash == hash
    ensures i.Some? ==> forall k | 0 <= k < i.value :: pending[k].blockHash != hash
    ensures i.None? ==> forall k | 0 <= k < |pending| :: pending[k].blockHash != hash
  {
    if pending == [] then None
    else if pending[0].blockHash == hash then Some(0)
    else
      match Find(pending[1..], hash)
      case None => None
      case Some(i) => assert forall k | 1 <= k < |pending| :: pending[k] == pending[1..][k - 1]; Some(i + 1)
  }

  /** Re-execute the block of one chain with its deposits only. */
  function ReExecute(t: Tools, w: Work, chain: u64): (out: Outcome)
    ensures !out.Clean? && !out.Endless?
  {
    if chain !in w.heads then Failed(EmptyDependencySet)
    else
      var header := w.heads[chain];
      match t.parentHeader(chain, header)
      case Err(e) => Failed(OracleProvider(e))
      case Ok(parent) =>
        match t.transactions(header)
        case Err(e) => Failed(OracleProvider(e))
        case Ok(txs) =>
          if AllDeposits(txs) then Panicked
          else if chain !in t.rollupConfigs then Failed(MissingRollupConfig(chain))
          else if chain !in t.providers then Failed(MissingLocalProvider(chain))
          else
            match Find(w.pending, header.hash)
            case None => Failed(EmptyDependencySet)
            case Some(i) =>
              match t.build(chain, header, parent,
                            Driver.Deposits(txs) + [t.replacement(header, w.pending[i].outputRoot)])
              case Err(e) => Failed(Executor(e))
              case Ok((built, root)) =>
                Again(Work(w.pending[i := OptimisticBlock(built.hash, root)], w.heads[chain := built]))
  }

  function ReExecuteAll(t: Tools, w: Work, chains: seq<u64>): (out: Outcome)
    ensures !out.Clean? && !out.Endless?
    decreases |chains|
  {
    if chains == [] then Again(w)
    else
      match ReExecute(t, w, chains[0])
      case Again(w') => ReExecuteAll(t, w', chains[1..])
      case other => other
  }

  /** One round: done when no chain has invalid messages, else re-execute those that do and go round again. */
  function Round(t: Tools, w: Work): Outcome {
    match t.invalidChains(w.heads)
    case Err(e) => Failed(Graph(e))
    case Ok(chains) => if chains == [] then Clean(w) else ReExecuteAll(t, w, chains)
  }

  /** At most `n` rounds. */
  function Rounds(t: Tools, w: Work, n: nat): Outcome
    decreases n
  {
    if n == 0 then Again(w)
    else
      match Round(t, w)
      case Again(w') => Rounds(t, w', n - 1)
      case other => other
  }

  ghost predicate EndsWithin(t: Tools, w: Work, n: nat) {
    !Rounds(t, w, n).Again?
  }

  /** All rounds of the loop. */
  ghost function Consolidate(t: Tools, w: Work): Outcome {
    if exists n: nat :: EndsWithin(t, w, n) then
      var n: nat :| EndsWithin(t, w, n);
      Rounds(t, w, n)
    else Endless
  }

  /** Rounds that have ended stay as they ended. */
  lemma {:induction false} RoundsSettle(t: Tools, w: Work, m: nat, n: nat)
    requires EndsWithin(t, w, m) && m <= n
    ensures Rounds(t, w, n) == Rounds(t, w, m)
    decreases m
  {
    hide Round;
    if Round(t, w).Again? {
      RoundsSettle(t, Round(t, w).work, m - 1, n - 1);
    }
  }

  lemma ConsolidateIs(t: Tools, w: Work, n: nat)
    requires EndsWithin(t, w, n)
    ensures Consolidate(t, w) == Rounds(t, w, n)
  {
    hide Rounds;
    var m: nat :| EndsWithin(t, w, m) && Consolidate(t, w) == Rounds(t, w, m);
    RoundsSettle(t, w, if m < n then m else n, if m < n then n else m);
  }

  /** The loop unrolled by its first round. */
  lemma ConsolidateUnrolls(t: Tools, w: Work)
    ensures Consolidate(t, w) == if Round(t, w).Again? then Consolidate(t, Round(t, w).work) else Round(t, w)
  {
    hide Round, Consolidate;
    if !Round(t, w).Again? {
      assert Rounds(t, w, 1) == Round(t, w);
      ConsolidateIs(t, w, 1);
    } else {
      var w' := Round(t, w).work;
      if exists n: nat :: EndsWithin(t, w', n) {
        var n: nat :| EndsWithin(t, w', n);
        assert Rounds(t, w, n + 1) == Rounds(t, w', n);
        ConsolidateIs(t, w', n);
        ConsolidateIs(t, w, n + 1);
      } else {
        NeverEnds(t, w);
      }
    }
  }

  lemma NeverEnds(t: Tools, w: Work)
    requires Round(t, w).Again? && !exists n: nat :: EndsWithin(t, Round(t, w).work, n)
    ensures Consolidate(t, w) == Consolidate(t, Round(t, w).work) == Endless
  {
    hide Round;
    forall n: nat
      ensures !EndsWithin(t, w, n)
    {
      assert n > 0 ==> !EndsWithin(t, Round(t, w).work, n - 1);
    }
  }

  // ---------------------------------------------------------------------------------------------
  // What every consolidation keeps

  lemma {:induction false} ReExecuteAllKeeps(t: Tools, w: Work, chains: seq<u64>)
    requires ReExecuteAll(t, w, chains).Again?
    ensures var w' := ReExecuteAll(t, w, chains).work;
            w'.heads.Keys == w.heads.Keys && |w'.pending| == |w.pending|
    decreases |chains|
  {
    if chains != [] {
      assert ReExecute(t, w, chains[0]).work.heads.Keys == w.heads.Keys;
      hide ReExecute;
      ReExecuteAllKeeps(t, ReExecute(t, w, chains[0]).work, chains[1..]);
    }
  }

  lemma {:induction false} RoundsKeep(t: Tools, w: Work, n: nat)
    requires Rounds(t, w, n).Clean?
    ensures var w' := Rounds(t, w, n).work;
            && t.invalidChains(w'.heads) == Ok([])
            && w'.heads.Keys == w.heads.Keys && |w'.pending| == |w.pending|
    decreases n
  {
    if Round(t, w).Again? {
      ReExecuteAllKeeps(t, w, t.invalidChains(w.heads).value);
      hide Round;
      RoundsKeep(t, Round(t, w).work, n - 1);
    }
  }

  /** Consolidation that succeeds leaves no invalid message, and neither adds nor drops a chain or a pending block. */
  lemma ConsolidateClean(t: Tools, w: Work)
    ensures !Consolidate(t, w).Again?
    ensures var out := Consolidate(t, w);
            out.Clean? ==>
              && t.invalidChains(out.work.heads) == Ok([])
              && out.work.heads.Keys == w.heads.Keys
              && |out.work.pending| == |w.pending|
  {
    hide Rounds;
    if Consolidate(t, w).Clean? {
      var n: nat :| EndsWithin(t, w, n) && Consolidate(t, w) == Rounds(t, w, n);
      RoundsKeep(t, w, n);
    }
  }

  // ---------------------------------------------------------------------------------------------
  // Termination

  /** Builders use the transactions they are given, replacements are deposits, and hashes tell chains apart. */
  ghost predicate Honest(t: Tools) {
    && (forall chain, header, parent, txs | t.build(chain, header, parent, txs).Ok? ::
          var built := t.build(chain, header, parent, txs).value.0;
          t.transactions(built) == Ok(txs) && t.owner(built.hash) == chain)
    && (forall header, root :: Driver.IsDeposit(t.replacement(header, root)))
  }

  predicate Reducible(t: Tools, header: Sealed) {
    t.transactions(header).Ok? && !AllDeposits(t.transactions(header).value)
  }

  /** The chains whose block can still be reduced to deposits. */
  function Dirty(t: Tools, heads: Heads): set<u64> {
    set c | c in heads && Reducible(t, heads[c])
  }

  lemma {:induction false} DepositsAreDeposits(txs: seq<Bytes>)
    ensures AllDeposits(Driver.Deposits(txs))
    decreases |txs|
  {
    if txs != [] {
      DepositsAreDeposits(txs[1..]);
    }
  }

  /** Re-executing a chain takes exactly that chain off the list of those that can still be reduced. */
  lemma ReExecuteReduces(t: Tools, w: Work, chain: u64)
    requires Honest(t) && ReExecute(t, w, chain).Again?
    ensures var w' := ReExecute(t, w, chain).work;
            && chain in Dirty(t, w.heads)
            && w'.heads.Keys == w.heads.Keys
            && Dirty(t, w'.heads) == Dirty(t, w.heads) - {chain}
            && |w'.pending| == |w.pending|
  {
    var w' := ReExecute(t, w, chain).work;
    var txs := t.transactions(w.heads[chain]).value;
    DepositsAreDeposits(txs);
    assert AllDeposits(t.transactions(w'.heads[chain]).value);
  }

  lemma {:induction false} ReExecuteAllReduces(t: Tools, w: Work, chains: seq<u64>)
    requires Honest(t) && ReExecuteAll(t, w, chains).Again?
    ensures var w' := ReExecuteAll(t, w, chains).work;
            && (forall c | c in chains :: c in Dirty(t, w.heads))
            && w'.heads.Keys == w.heads.Keys
            && Dirty(t, w'.heads) == Dirty(t, w.heads) - (set c | c in chains)
            && |w'.pending| == |w.pending|
    decreases |chains|
  {
    hide Honest, Dirty, ReExecute;
    if chains != [] {
      ReExecuteReduces(t, w, chains[0]);
      ReExecuteAllReduces(t, ReExecute(t, w, chains[0]).work, chains[1..]);
      assert (set c | c in chains) == {chains[0]} + set c | c in chains[1..];
      assert forall c | c in chains :: c == chains[0] || c in chains[1..];
    }
  }

  /** A round that goes round again has reduced at least one block for good. */
  lemma RoundReduces(t: Tools, w: Work)
    requires Honest(t) && Round(t, w).Again?
    ensures Dirty(t, Round(t, w).work.heads) < Dirty(t, w.heads)
    ensures Round(t, w).work.heads.Keys == w.heads.Keys && |Round(t, w).work.pending| == |w.pending|
  {
    var chains := t.invalidChains(w.heads).value;
    ReExecuteAllReduces(t, w, chains);
    assert chains[0] in chains;
  }

  lemma SmallerSet(a: set<u64>, b: set<u64>)
    requires a < b
    ensures |a| < |b|
  {
    var rest := b - a;
    assert b == a + rest;
    assert rest != {};
  }

  /** With honest components the loop ends: every further round leaves fewer blocks that can be reduced. */
  lemma {:induction false} ConsolidateEnds(t: Tools, w: Work)
    requires Honest(t)
    ensures !Consolidate(t, w).Endless?
    ensures Consolidate(t, w).Clean? ==> Dirty(t, Consolidate(t, w).work.heads) <= Dirty(t, w.heads)
    decreases |Dirty(t, w.heads)|
  {
    ConsolidateUnrolls(t, w);
    if Round(t, w).Again? {
      RoundReduces(t, w);
      SmallerSet(Dirty(t, Round(t, w).work.heads), Dirty(t, w.heads));
      hide Round, Honest, Dirty, Consolidate;
      ConsolidateEnds(t, Round(t, w).work);
    } else {
      hide Consolidate;
    }
  }

  // ---------------------------------------------------------------------------------------------
  // Pending blocks and heads stay paired

  /** The `i`-th pending block is the head of the `i`-th chain. */
  predicate Paired(t: Tools, chains: seq<u64>, w: Work) {
    && |w.pending| == |chains|
    && (forall i | 0 <= i < |chains| ::
          && chains[i] in w.heads
          && w.pending[i].blockHash == w.heads[chains[i]].hash
          && t.owner(w.pending[i].blockHash) == chains[i])
    && (forall i, j | 0 <= i < j < |chains| :: chains[i] != chains[j])
    && (forall c | c in w.heads :: c in chains)
  }

  /** Re-execution replaces the pending block of its own chain and of no other. */
  lemma ReExecutePaired(t: Tools, chains: seq<u64>, w: Work, chain: u64)
    requires Honest(t) && Paired(t, chains, w) && ReExecute(t, w, chain).Again?
    ensures Paired(t, chains, ReExecute(t, w, chain).work)
    ensures forall i | 0 <= i < |chains| && chains[i] != chain ::
              ReExecute(t, w, chain).work.pending[i] == w.pending[i]
  {
    var k :| 0 <= k < |chains| && chains[k] == chain;
    var i := Find(w.pending, w.heads[chain].hash).value;
    assert chains[i] == t.owner(w.heads[chain].hash) == chains[k];
    assert i == k;
  }

  lemma {:induction false} ReExecuteAllPaired(t: Tools, chains: seq<u64>, w: Work, bad: seq<u64>)
    requires Honest(t) && Paired(t, chains, w) && ReExecuteAll(t, w, bad).Again?
    ensures Paired(t, chains, ReExecuteAll(t, w, bad).work)
    decreases |bad|
  {
    hide Honest, Paired, ReExecute;
    if bad != [] {
      ReExecutePaired(t, chains, w, bad[0]);
      ReExecuteAllPaired(t, chains, ReExecute(t, w, bad[0]).work, bad[1..]);
    }
  }

  /** After consolidation every pending block is still the head of its own chain. */
  lemma {:induction false} ConsolidatePaired(t: Tools, chains: seq<u64>, w: Work)
    requires Honest(t) && Paired(t, chains, w)
    ensures Consolidate(t, w).Clean? ==> Paired(t, chains, Consolidate(t, w).work)
    decreases |Dirty(t, w.heads)|
  {
    ConsolidateUnrolls(t, w);
    if Round(t, w).Again? {
      RoundReduces(t, w);
      SmallerSet(Dirty(t, Round(t, w).work.heads), Dirty(t, w.heads));
      ReExecuteAllPaired(t, chains, w, t.invalidChains(w.heads).value);
      hide Honest, Paired, Dirty, Consolidate;
      ConsolidatePaired(t, chains, Round(t, w).work);
    }
  }

  // ---------------------------------------------------------------------------------------------
  // The consolidator as it runs

  class SuperchainConsolidator {
    const tools: Tools
    var pending: seq<OptimisticBlock>
    var heads: Heads

    constructor (tools: Tools, pending: seq<OptimisticBlock>, heads: Heads)
      ensures this.tools == tools && this.pending == pending && this.heads == heads
    {
      this.tools := tools;
      this.pending := pending;
      this.heads := heads;
    }

    /** Re-execute the listed chains in order, stopping at the first that fails. */
    method ReExecuteDepositOnly(chains: seq<u64>) returns (out: Outcome)
      modifies this
      ensures out == ReExecuteAll(tools, old(Work(pending, heads)), chains)
      ensures out.Again? ==> out.work == Work(pending, heads)
    {
      var i := 0;
      ghost var start := Work(pending, heads);
      while i < |chains|
        invariant 0 <= i <= |chains|
        invariant ReExecuteAll(tools, start, chains) == ReExecuteAll(tools, Work(pending, heads), chains[i..])
      {
        var step := ReExecute(tools, Work(pending, heads), chains[i]);
        assert chains[i..][1..] == chains[i + 1..];
        if !step.Again? {
          return step;
        }
        pending, heads := step.work.pending, step.work.heads;
        i := i + 1;
      }
      out := Again(Work(pending, heads));
    }

    method Run() returns (out: Outcome)
      requires Honest(tools)
      modifies this
      ensures out == Consolidate(tools, old(Work(pending, heads)))
      ensures out.Clean? ==> out.work == Work(pending, heads)
    {
      while true
        invariant Consolidate(tools, old(Work(pending, heads))) == Consolidate(tools, Work(pending, heads))
        decreases |Dirty(tools, heads)|
      {
        ghost var before := Work(pending, heads);
        ConsolidateUnrolls(tools, before);
        hide Consolidate;
        var invalid := tools.invalidChains(heads);
        if invalid.Err? {
          return Failed(Graph(invalid.error));
        }
        if invalid.value == [] {
          return Clean(Work(pending, heads));
        }
        out := ReExecuteDepositOnly(invalid.value);
        if !out.Again? {
          return;
        }
        RoundReduces(tools, before);
        SmallerSet(Dirty(tools, heads), Dirty(tools, before.heads));
      }
    }
  }
}
