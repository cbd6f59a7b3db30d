/** What the call protocol means for whole runs of the driver: chain linkage, provenance, exhaustion, termination. */
module DriverTheorems {
  import opened Prelude
  import opened Forks
  import opened Blocks
  import Cursor
  import opened Driver
  import opened DriverProtocol

  // ---------------------------------------------------------------------------------------------
  // The deposit-only payload

  lemma {:induction false} DepositsConcat(a: seq<Bytes>, b: seq<Bytes>)
    ensures Deposits(a + b) == Deposits(a) + Deposits(b)
    decreases |a|
  {
    if a == [] {
      assert a + b == b;
    } else {
      assert (a + b)[1..] == a[1..] + b;
      DepositsConcat(a[1..], b);
    }
  }

  /** `out` is `txs` at the strictly increasing positions `kept`, which are those of its non-empty deposits. */
  predicate KeepsDeposits(txs: seq<Bytes>, out: seq<Bytes>, kept: seq<nat>) {
    && |kept| == |out|
    && (forall k | 0 <= k < |kept| :: kept[k] < |txs| && out[k] == txs[kept[k]])
    && (forall j, k | 0 <= j < k < |kept| :: kept[j] < kept[k])
    && (forall i | 0 <= i < |txs| :: i in kept <==> txs[i] != [] && txs[i][0] == 0x7E)
  }

  /** Stripping a payload keeps exactly its non-empty deposit-typed transactions, in their order. */
  lemma {:induction false} DepositsSubsequence(txs: seq<Bytes>) returns (kept: seq<nat>)
    ensures KeepsDeposits(txs, Deposits(txs), kept)
    decreases |txs|
  {
    kept := [];
    if txs != [] {
      var front, last := DropLast(txs), Last(txs);
      assert txs == front + [last];
      DepositsConcat(front, [last]);
      kept := DepositsSubsequence(front);
      assert forall i | 0 <= i < |front| :: txs[i] == front[i];
      assert |txs| - 1 !in kept;
      if IsDeposit(last) {
        kept := kept + [|txs| - 1];
      }
    }
  }

  // ---------------------------------------------------------------------------------------------
  // Flush discipline

  /** A flush comes only after a failed first attempt under Holocene, and nothing but a flush can follow one. */
  lemma FlushAnswersFailure(env: Env, v: View, t: Trace, i: nat)
    requires Conforms(env, v, t) && i < |t|
    ensures t[i].Flushed? <==> OwesFlush(env, t[..i])
  {
    ConformsAt(env, v, t, i);
  }

  // ---------------------------------------------------------------------------------------------
  // Chain linkage

  /** The executor builds the child of the head it was last set to, and seals it with its own hash. */
  ghost predicate BuildsOnHead(env: Env) {
    forall t: Trace, a: Attributes | t != [] && Last(t).SafeHeadUpdated? && env.execute(t, a).Ok? ::
      var parent, child := Last(t).header, env.execute(t, a).value.header;
      && child.inner.number == parent.inner.number + 1
      && child.inner.parentHash == parent.hash
      && child.hash == env.hashHeader(child.inner)
  }

  /** The starting tip followed by every committed tip, in order. */
  function Chain(v: View, t: Trace): seq<TipCursor> {
    if t == [] then [v.tip]
    else
      match Last(t)
      case Committed(_, tip, _) => Chain(v, DropLast(t)) + [tip]
      case _ => Chain(v, DropLast(t))
  }

  predicate Linked(chain: seq<TipCursor>) {
    forall i | 0 <= i < |chain| - 1 :: IsParentOf(chain[i].l2SafeHead.blockInfo, chain[i + 1].l2SafeHead.blockInfo)
  }

  /** A committed block is the child of the safe head it was executed on. */
  lemma CommitExtends(env: Env, v: View, t: Trace, e: Event)
    requires Conforms(env, v, t) && Legal(env, v, t, e) && e.Committed?
    requires BuildsOnHead(env) && TipAgrees(Replay(v, t).tip)
    ensures IsParentOf(Replay(v, t).tip.l2SafeHead.blockInfo, e.tip.l2SafeHead.blockInfo)
    ensures TipAgrees(e.tip)
  {
    hide Conforms, DecodeAll, Sanctioned;
    var k := |t| - 3;
    ConformsAt(env, v, t, k);
    assert Last(t[..k]) == Back(t, 4);
    assert env.execute(t[..k], t[k].attributes).Ok?;
  }

  lemma {:induction false} ChainLinked(env: Env, v: View, t: Trace)
    requires Conforms(env, v, t) && BuildsOnHead(env) && TipAgrees(v.tip)
    ensures Chain(v, t) != [] && Chain(v, t)[0] == v.tip && Last(Chain(v, t)) == Replay(v, t).tip
    ensures TipAgrees(Replay(v, t).tip)
    ensures Linked(Chain(v, t))
    decreases |t|
  {
    if t != [] {
      ChainLinked(env, v, DropLast(t));
      if Last(t).Committed? {
        CommitExtends(env, v, DropLast(t), Last(t));
      }
    }
  }

  /** Along a linked chain block numbers count up by one. */
  lemma {:induction false} LinkedNumbers(chain: seq<TipCursor>, i: nat)
    requires Linked(chain) && i < |chain|
    ensures chain[i].l2SafeHead.blockInfo.number == chain[0].l2SafeHead.blockInfo.number + i
  {
    if i > 0 {
      LinkedNumbers(chain, i - 1);
      assert IsParentOf(chain[i - 1].l2SafeHead.blockInfo, chain[i - 1 + 1].l2SafeHead.blockInfo);
    }
  }

  /**
   * Chain linkage over whole runs: the blocks committed by any run form a gapless parent-linked chain from the
   * starting tip, the cursor shows its last element, and that is what a successful run returns.
   */
  lemma RunLinked(env: Env, v: View, s: State, n: nat)
    requires OriginsAscend(env, v) && BuildsOnHead(env) && TipAgrees(v.tip)
    requires Mirrors(v, s) && s.trace == []
    ensures var c := Run(env, s, n); var chain := Chain(v, c.state.trace);
            && chain != [] && chain[0] == v.tip && Linked(chain)
            && (forall i | 0 <= i < |chain| ::
                  chain[i].l2SafeHead.blockInfo.number == v.tip.l2SafeHead.blockInfo.number + i)
            && Cursor.Ready(c.state.cursor) && Cursor.Tip(c.state.cursor) == Last(chain)
            && (c.Done? && c.answer.Ok? ==> c.answer.value == (Last(chain).l2SafeHead, Last(chain).outputRoot))
  {
    RunConforms(env, v, s, n);
    var c := Run(env, s, n);
    ChainLinked(env, v, c.state.trace);
    var chain := Chain(v, c.state.trace);
    forall i | 0 <= i < |chain|
      ensures chain[i].l2SafeHead.blockInfo.number == v.tip.l2SafeHead.blockInfo.number + i
    {
      LinkedNumbers(chain, i);
    }
    RunReturnsTip(env, s, n);
  }

  /** A successful run returns the tip its cursor shows, which has reached the target in force. */
  lemma {:induction false} RunReturnsTip(env: Env, s: State, n: nat)
    requires Cursor.Ready(s.cursor)
    ensures var c := Run(env, s, n);
            c.Done? && c.answer.Ok? ==>
              && Cursor.Ready(c.state.cursor)
              && c.answer.value == (Cursor.Tip(c.state.cursor).l2SafeHead, Cursor.Tip(c.state.cursor).outputRoot)
              && c.state.target.Some?
              && c.state.target.value <= c.answer.value.0.blockInfo.number
    decreases n
  {
    if n > 0 {
      StepKeepsReady(env, s);
      if Step(env, s).Next? {
        RunReturnsTip(env, Step(env, s).state, n - 1);
      }
    }
  }

  // ---------------------------------------------------------------------------------------------
  // Provenance and coherence

  /** The attributes the pipeline derived for the pass that event `i` belongs to. */
  predicate DerivedAt(t: Trace, i: nat, a: Attributes) {
    i < |t| && t[i].Produced? && t[i].payload == Ok(a)
  }

  /** How a committed block is put together: one execution on the current safe head, its origin and its root. */
  lemma CommitAssembled(env: Env, v: View, t: Trace, i: nat)
    requires Conforms(env, v, t) && i < |t| && t[i].Committed?
    ensures i >= 5
    ensures t[i - 4] == SafeHeadUpdated(Replay(v, t[..i]).tip.header)
    ensures t[i - 3].Executed? && t[i - 3].built == Ok(t[i].artifacts.outcome)
    ensures t[i - 2] == OriginRead(Some(t[i].at))
    ensures t[i - 1] == RootComputed(Ok(t[i].tip.outputRoot))
    ensures env.execute(t[..i - 3], t[i - 3].attributes) == Ok(t[i].artifacts.outcome)
    ensures env.outputRoot(t[..i - 1]) == Ok(t[i].tip.outputRoot)
    ensures t[i].tip.header == t[i].artifacts.outcome.header
    ensures t[i].artifacts.transactions == Transactions(t[i - 3].attributes)
    ensures DecodeAll(env, t[i].artifacts.transactions).Ok?
    ensures Ok(t[i].tip.l2SafeHead)
         == FromBlockAndGenesis(env, t[i].tip.header.inner, DecodeAll(env, t[i].artifacts.transactions).value)
  {
    ConformsAt(env, v, t, i);
    assert Back(t[..i], 1) == t[i - 1] && Back(t[..i], 3) == t[i - 3];
    ConformsAt(env, v, t, i - 1);
    ConformsAt(env, v, t, i - 3);
  }

  /**
   * Where a committed block comes from: it executed the attributes just derived, unchanged, or, after a failed
   * attempt at them under Holocene and a flush, the same attributes with nothing but their deposits.
   */
  lemma CommitProvenance(env: Env, v: View, t: Trace, i: nat)
    requires Conforms(env, v, t) && i < |t| && t[i].Committed?
    ensures i >= 5 && t[i - 3].Executed?
    ensures || DerivedAt(t, i - 5, t[i - 3].attributes)
            || (i >= 8
                && t[i - 6].Executed? && t[i - 6].built.Err?
                && DerivedAt(t, i - 8, t[i - 6].attributes)
                && HoloceneActive(env.forks, t[i - 6].attributes.timestamp)
                && t[i - 5].Flushed? && t[i - 5].ack.Ok?
                && t[i - 3].attributes == DepositOnly(t[i - 6].attributes))
  {
    CommitAssembled(env, v, t, i);
    ConformsAt(env, v, t, i - 3);
    var pre := t[..i - 4];
    assert DropLast(t[..i - 3]) == pre;
    assert Last(pre) == t[i - 5];
    if t[i - 5].Flushed? {
      var failed := DropLast(pre);
      assert Back(failed, 1) == t[i - 6] && Back(failed, 3) == t[i - 8];
    }
  }

  /** The position of the last commit in a trace that has one. */
  function LastCommit(t: Trace): (i: nat)
    requires exists k :: 0 <= k < |t| && t[k].Committed?
    ensures i < |t| && t[i].Committed?
    ensures forall j | i < j < |t| :: !t[j].Committed?
  {
    if Last(t).Committed? then |t| - 1
    else
      var k :| 0 <= k < |t| && t[k].Committed?;
      assert DropLast(t)[k].Committed?;
      LastCommit(DropLast(t))
  }

  lemma {:induction false} ReplayIsLastCommit(v: View, t: Trace)
    requires exists k :: 0 <= k < |t| && t[k].Committed?
    ensures var e := t[LastCommit(t)]; Replay(v, t) == View(e.tip, e.at.number, Some(e.artifacts))
    decreases |t|
  {
    if !Last(t).Committed? {
      var k :| 0 <= k < |t| && t[k].Committed?;
      assert DropLast(t)[k].Committed?;
      ReplayIsLastCommit(v, DropLast(t));
    }
  }

  /**
   * The commit at `i` produced this tip and these artifacts: the cached header is the tip's header, the cached
   * transactions are those its block info was computed from, and the tip's root is the root the executor reported
   * right after that very execution.
   */
  predicate Coherent(env: Env, t: Trace, i: nat, tip: TipCursor, kept: Artifacts) {
    && 5 <= i < |t|
    && kept.outcome.header == tip.header
    && DecodeAll(env, kept.transactions).Ok?
    && Ok(tip.l2SafeHead) == FromBlockAndGenesis(env, tip.header.inner, DecodeAll(env, kept.transactions).value)
    && t[i - 3].Executed?
    && kept.transactions == Transactions(t[i - 3].attributes)
    && Ok(kept.outcome) == env.execute(t[..i - 3], t[i - 3].attributes)
    && t[i - 1].RootComputed?
    && Ok(tip.outputRoot) == env.outputRoot(t[..i - 1])
  }

  lemma TraceCoherent(env: Env, v: View, t: Trace)
    requires Conforms(env, v, t)
    requires exists k :: 0 <= k < |t| && t[k].Committed?
    ensures Replay(v, t).artifacts.Some?
    ensures Coherent(env, t, LastCommit(t), Replay(v, t).tip, Replay(v, t).artifacts.value)
  {
    ReplayIsLastCommit(v, t);
    CommitAssembled(env, v, t, LastCommit(t));
    hide Conforms, Replay, DecodeAll, FromBlockAndGenesis, Transactions, LastCommit;
  }

  /** Coherence on every exit, successful or not: once a block has been committed, tip and artifacts agree. */
  lemma RunCoherent(env: Env, v: View, s: State, n: nat)
    requires OriginsAscend(env, v) && Mirrors(v, s) && s.trace == []
    requires var t := Run(env, s, n).state.trace; exists k :: 0 <= k < |t| && t[k].Committed?
    ensures var d := Run(env, s, n).state;
            && Cursor.Ready(d.cursor) && d.artifacts.Some?
            && Coherent(env, d.trace, LastCommit(d.trace), Cursor.Tip(d.cursor), d.artifacts.value)
  {
    RunConforms(env, v, s, n);
    hide Step, Run, Coherent, OriginsAscend;
    TraceCoherent(env, v, Run(env, s, n).state.trace);
    hide Conforms, Quiet, OwesFlush, LastCommit;
  }

  // ---------------------------------------------------------------------------------------------
  // Exhaustion and termination

  /** How many payloads the pipeline has delivered. */
  function Payloads(t: Trace): nat {
    if t == [] then 0
    else Payloads(DropLast(t)) + if Last(t).Produced? && Last(t).payload.Ok? then 1 else 0
  }

  /** The pipeline has reported the end of its source. */
  predicate Exhausted(t: Trace) {
    t != [] && (Exhausted(DropLast(t)) || (Last(t).Produced? && Last(t).payload == Err(Critical(EndOfSource))))
  }

  lemma Appended(t: Trace, e: Event)
    ensures Payloads(t + [e]) == Payloads(t) + if e.Produced? && e.payload.Ok? then 1 else 0
    ensures Exhausted(t + [e]) <==> Exhausted(t) || (e.Produced? && e.payload == Err(Critical(EndOfSource)))
  {
    assert DropLast(t + [e]) == t;
  }

  /** Calls to the executor neither deliver payloads nor exhaust the source. */
  predicate SameSource(t: Trace, u: Trace) {
    Payloads(t) == Payloads(u) && Exhausted(t) == Exhausted(u)
  }

  lemma AttemptSource(env: Env, t: Trace, head: Sealed, a: Attributes)
    ensures SameSource(t, Attempt(env, t, head, a).0)
  {
    var updated := t + [SafeHeadUpdated(head)];
    Appended(t, SafeHeadUpdated(head));
    Appended(updated, Executed(a, env.execute(updated, a)));
  }

  lemma ExecuteSource(env: Env, t: Trace, head: Sealed, a: Attributes)
    ensures SameSource(t, Execute(env, t, head, a).trace)
  {
    AttemptSource(env, t, head, a);
    var (u, _) := Attempt(env, t, head, a);
    var e := Flushed(env.flushChannel(u));
    Appended(u, e);
    AttemptSource(env, u + [e], head, DepositOnly(a));
  }

  lemma CommitSource(env: Env, s: State, t: Trace, a: Attributes, outcome: Outcome)
    requires Cursor.Ready(s.cursor)
    ensures var c := Commit(env, s, t, a, outcome); SameSource(t, c.state.trace) && c.state.target == s.target
  {
    var read := OriginRead(env.origin(t));
    Appended(t, read);
    var root := RootComputed(env.outputRoot(t + [read]));
    Appended(t + [read], root);
    forall e: Event | e.Committed?
      ensures SameSource(t + [read] + [root], t + [read] + [root] + [e])
    {
      Appended(t + [read] + [root], e);
    }
  }

  function Number(s: State): u64
    requires Cursor.Ready(s.cursor)
  {
    Cursor.Tip(s.cursor).l2SafeHead.blockInfo.number
  }

  predicate AtTarget(s: State)
    requires Cursor.Ready(s.cursor)
  {
    s.target.Some? && s.target.value <= Number(s)
  }

  /**
   * A pass that goes round again has used up one payload and kept the target, or has met the end of the source and
   * lowered the target to the block it stands on.
   */
  lemma PassProgress(env: Env, s: State)
    requires Cursor.Ready(s.cursor)
    requires Step(env, s).Next?
    ensures var s' := Step(env, s).state;
            || (env.produce(s.trace, Cursor.Tip(s.cursor).l2SafeHead).Ok?
                && Payloads(s'.trace) == Payloads(s.trace) + 1
                && Exhausted(s'.trace) == Exhausted(s.trace)
                && s'.target == s.target)
            || (Payloads(s'.trace) == Payloads(s.trace)
                && s'.trace == s.trace
                               + [Produced(Cursor.Tip(s.cursor).l2SafeHead, Err(Critical(EndOfSource)))]
                && s'.cursor == s.cursor && s'.artifacts == s.artifacts
                && s'.target == (if s.target.Some? then Some(Number(s)) else None)
                && !InteropActive(env.forks, Number(s)))
  {
    var tip := Cursor.Tip(s.cursor);
    var e := Produced(tip.l2SafeHead, env.produce(s.trace, tip.l2SafeHead));
    Appended(s.trace, e);
    if e.payload.Ok? {
      var t := s.trace + [e];
      ExecuteSource(env, t, tip.header, e.payload.value);
      var x := Execute(env, t, tip.header, e.payload.value);
      if x.Built? {
        CommitSource(env, s, x.trace, x.attributes, x.outcome);
      }
    }
  }

  /** The source delivers at most `budget` payloads. */
  ghost predicate FiniteSource(env: Env, budget: nat) {
    forall t: Trace, head | Payloads(t) >= budget :: env.produce(t, head).Err?
  }

  /**
   * Termination: with a target set and a source that delivers finitely many payloads, the loop returns after at most
   * one pass per remaining payload and two more.
   */
  lemma {:induction false} RunTerminates(env: Env, s: State, budget: nat, n: nat)
    requires Cursor.Ready(s.cursor) && s.target.Some?
    requires FiniteSource(env, budget) && Payloads(s.trace) <= budget
    requires n >= 1 && (AtTarget(s) || n >= budget - Payloads(s.trace) + 2)
    ensures Run(env, s, n).Done?
    decreases n
  {
    if Step(env, s).Next? {
      StepKeepsReady(env, s);
      PassProgress(env, s);
      RunTerminates(env, Step(env, s).state, budget, n - 1);
    }
  }

  /** Without a target no run ever returns a head; it returns an error or keeps going. */
  lemma {:induction false} NoTargetNeverSucceeds(env: Env, s: State, n: nat)
    requires Cursor.Ready(s.cursor) && s.target.None?
    ensures var c := Run(env, s, n); c.state.target.None? && (c.Done? ==> c.answer.Err?)
    decreases n
  {
    if n > 0 {
      StepKeepsReady(env, s);
      StepKeepsNoTarget(env, s);
      if Step(env, s).Next? {
        NoTargetNeverSucceeds(env, Step(env, s).state, n - 1);
      }
    }
  }

  lemma StepKeepsNoTarget(env: Env, s: State)
    requires Cursor.Ready(s.cursor) && s.target.None?
    ensures var c := Step(env, s); c.state.target.None? && (c.Done? ==> c.answer.Err?)
  {
  }

  /**
   * Without a target and outside interop, an exhausted source is asked again forever: the documented graceful halt
   * needs a target to lower.
   */
  lemma {:induction false} NoTargetSpins(env: Env, s: State, n: nat)
    requires Cursor.Ready(s.cursor) && s.target.None?
    requires forall t: Trace, head :: env.produce(t, head) == Err(Critical(EndOfSource))
    requires !InteropActive(env.forks, Number(s))
    ensures Run(env, s, n).Next? && Run(env, s, n).state.cursor == s.cursor
    ensures |Run(env, s, n).state.trace| == |s.trace| + n
    decreases n
  {
    if n > 0 {
      NoTargetSpins(env, Step(env, s).state, n - 1);
    }
  }

  // ---------------------------------------------------------------------------------------------
  // Where a run ends

  function Max(a: nat, b: nat): nat {
    if a < b then b else a
  }

  /** The state between two passes is sound. */
  ghost predicate Sound(env: Env, v: View, s: State) {
    && OriginsAscend(env, v) && BuildsOnHead(env)
    && Mirrors(v, s) && Conforms(env, v, s.trace) && Quiet(env, s.trace)
    && TipAgrees(v.tip)
  }

  /** A pass that goes round again stays on its block or moves to the next one, and moves only on a payload. */
  lemma PassNumber(env: Env, v: View, s: State)
    requires Sound(env, v, s) && Step(env, s).Next?
    ensures Sound(env, v, Step(env, s).state)
    ensures Number(s) <= Number(Step(env, s).state) <= Number(s) + 1
  {
    StepConforms(env, v, s);
    ChainLinked(env, v, s.trace);
    var tip := Cursor.Tip(s.cursor);
    var e := Produced(tip.l2SafeHead, env.produce(s.trace, tip.l2SafeHead));
    if e.payload.Ok? {
      var t := s.trace + [e];
      Extend(env, v, s.trace, e);
      NoCommit(v, s.trace, e);
      ExecuteConforms(env, v, t, tip.header, e.payload.value);
      var x := Execute(env, t, tip.header, e.payload.value);
      if x.Built? {
        CommitNumber(env, v, s, x);
      }
    }
  }

  lemma CommitNumber(env: Env, v: View, s: State, x: Execution)
    requires Sound(env, v, s) && TipAgrees(Replay(v, s.trace).tip)
    requires x.Built? && ExecutionSound(env, v, s.trace, x)
    ensures var c := Commit(env, s, x.trace, x.attributes, x.outcome);
            c.Next? ==> Cursor.Ready(c.state.cursor) && Number(c.state) == Number(s) + 1
  {
    hide Conforms, DecodeAll, Sanctioned, Quiet;
    CommitConforms(env, v, s, x);
    ConformsAt(env, v, x.trace, |x.trace| - 1);
    var before := DropLast(x.trace);
    assert before == x.trace[..|x.trace| - 1];
    assert Last(before) == Back(x.trace, 2);
    assert env.execute(before, x.attributes).Ok?;
    var c := Commit(env, s, x.trace, x.attributes, x.outcome);
    if c.Next? {
      assert Last(c.state.trace).tip.l2SafeHead.blockInfo.number == x.outcome.header.inner.number;
    }
  }

  /** How the target and the head relate while a run towards `goal` is under way. */
  predicate OnCourse(v: View, goal: u64, s: State)
    requires Cursor.Ready(s.cursor)
  {
    var from := v.tip.l2SafeHead.blockInfo.number;
    if Exhausted(s.trace) then
      && Last(s.trace) == Produced(Cursor.Tip(s.cursor).l2SafeHead, Err(Critical(EndOfSource)))
      && s.target == Some(Number(s))
      && from <= Number(s) < goal
    else
      s.target == Some(goal) && from <= Number(s) <= Max(from, goal)
  }

  lemma PassOnCourse(env: Env, v: View, goal: u64, s: State)
    requires Sound(env, v, s) && OnCourse(v, goal, s) && Step(env, s).Next?
    ensures Sound(env, v, Step(env, s).state) && OnCourse(v, goal, Step(env, s).state)
  {
    PassNumber(env, v, s);
    PassProgress(env, s);
    var s' := Step(env, s).state;
    if s'.trace == s.trace + [Produced(Cursor.Tip(s.cursor).l2SafeHead, Err(Critical(EndOfSource)))] {
      Appended(s.trace, Last(s'.trace));
    }
  }

  /** A pass succeeds only by finding the target reached, before any call. */
  lemma StepSucceeds(env: Env, s: State)
    requires Cursor.Ready(s.cursor)
    requires Step(env, s).Done? && Step(env, s).answer.Ok?
    ensures Step(env, s).state == s && AtTarget(s)
    ensures Step(env, s).answer.value.0 == Cursor.Tip(s.cursor).l2SafeHead
  {
  }

  predicate EndsRight(v: View, goal: u64, trace: Trace, head: L2BlockInfo) {
    if Exhausted(trace) then
      && Last(trace) == Produced(head, Err(Critical(EndOfSource)))
      && v.tip.l2SafeHead.blockInfo.number <= head.blockInfo.number < goal
    else
      head.blockInfo.number == Max(v.tip.l2SafeHead.blockInfo.number, goal)
  }

  lemma CourseEndsRight(env: Env, v: View, goal: u64, s: State)
    requires Cursor.Ready(s.cursor) && OnCourse(v, goal, s)
    requires Step(env, s).Done? && Step(env, s).answer.Ok?
    ensures EndsRight(v, goal, Step(env, s).state.trace, Step(env, s).answer.value.0)
  {
    StepSucceeds(env, s);
  }

  /** A run that returns does so in its last pass, from a state it reached by going round. */
  lemma {:induction false} LastPass(env: Env, s: State, n: nat) returns (m: nat)
    requires Cursor.Ready(s.cursor) && Run(env, s, n).Done?
    ensures m < n && Run(env, s, m).Next?
    ensures Cursor.Ready(Run(env, s, m).state.cursor)
    ensures Step(env, Run(env, s, m).state) == Run(env, s, n)
    decreases n
  {
    hide Step, Run;
    RunUnrolls(env, s, n);
    if Step(env, s).Next? {
      var k := LastPass(env, Step(env, s).state, n - 1);
      m := k + 1;
      RunUnrolls(env, s, m);
    } else {
      m := 0;
    }
  }

  lemma {:induction false} RunOnCourse(env: Env, v: View, goal: u64, s: State, n: nat)
    requires Sound(env, v, s) && OnCourse(v, goal, s)
    ensures Run(env, s, n).Next? ==>
              Cursor.Ready(Run(env, s, n).state.cursor) && OnCourse(v, goal, Run(env, s, n).state)
    decreases n
  {
    hide Step, Run;
    RunUnrolls(env, s, n);
    if n > 0 && Step(env, s).Next? {
      PassOnCourse(env, v, goal, s);
      RunOnCourse(env, v, goal, Step(env, s).state, n - 1);
    }
  }

  /**
   * The number a successful run ends on: the larger of start and target when the source was never exhausted, else
   * the head the source ran out at, below the target, with the exhaustion as the last call of the run.
   */
  lemma RunFinalNumber(env: Env, v: View, goal: u64, s: State, n: nat)
    requires Sound(env, v, s) && OnCourse(v, goal, s)
    ensures var c := Run(env, s, n);
            c.Done? && c.answer.Ok? ==> EndsRight(v, goal, c.state.trace, c.answer.value.0)
  {
    var c := Run(env, s, n);
    if c.Done? && c.answer.Ok? {
      var m := LastPass(env, s, n);
      RunOnCourse(env, v, goal, s, m);
      CourseEndsRight(env, v, goal, Run(env, s, m).state);
    }
  }

  /** The state a proof run starts in meets what the theorems about runs ask for. */
  lemma StartSound(env: Env, channelTimeout: u64, origin: BlockInfo, tip: TipCursor, goal: u64)
    requires var v := View(tip, origin.number, None); OriginsAscend(env, v) && BuildsOnHead(env) && TipAgrees(tip)
    ensures var v := View(tip, origin.number, None);
            var s := State(Cursor.Start(channelTimeout, origin, tip), None, Some(goal), []);
            Sound(env, v, s) && OnCourse(v, goal, s)
  {
    Cursor.StartShowsTip(channelTimeout, origin, tip);
    hide Cursor.Start;
  }

  // ---------------------------------------------------------------------------------------------
  // When origins do not ascend

  /**
   * The committed tip is the one shown exactly when its L1 origin is not below any entry the cache keeps, or the
   * highest of those entries already is that tip; otherwise the new block is filed away behind an older tip while its
   * artifacts are the ones cached. Tip and artifacts then have the same header only if the older tip happens to hold
   * it, and the root shown is still the older one.
   */
  lemma CommitCoherentIff(env: Env, s: State, t: Trace, a: Attributes, outcome: Outcome)
    requires Cursor.Ready(s.cursor) && Commit(env, s, t, a, outcome).Next?
    ensures env.origin(t).Some?
    ensures var s', kept := Commit(env, s, t, a, outcome).state, Cursor.Survivors(s.cursor);
            var onTop := forall k | k in kept :: k <= env.origin(t).value.number;
            && Cursor.Ready(s'.cursor) && s'.artifacts.Some?
            && s'.trace != [] && Last(s'.trace).Committed? && Last(s'.trace).tip.header == outcome.header
            && (onTop ==> Cursor.Tip(s'.cursor) == Last(s'.trace).tip)
            && (!onTop ==> kept.Keys != {} && Cursor.Tip(s'.cursor) == kept[MaxKey(kept.Keys)])
            && (Cursor.Tip(s'.cursor) == Last(s'.trace).tip
                <==> onTop || (kept.Keys != {} && kept[MaxKey(kept.Keys)] == Last(s'.trace).tip))
            && (Cursor.Tip(s'.cursor).header == s'.artifacts.value.outcome.header
                <==> onTop || (kept.Keys != {} && kept[MaxKey(kept.Keys)].header == outcome.header))
  {
    var s' := Commit(env, s, t, a, outcome).state;
    Cursor.AdvanceShowsTipIff(s.cursor, env.origin(t).value, Last(s'.trace).tip);
  }
}
