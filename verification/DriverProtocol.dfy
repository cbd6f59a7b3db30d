/**
 * The call protocol the driver owes the pipeline and the executor, stated on call traces alone, and the proof that
 * every run of the driver follows it.
 */
module DriverProtocol {
  import opened Prelude
  import opened Forks
  import opened Blocks
  import Cursor
  import opened Driver

  /** What the commits of a trace add up to: the safe head, its L1 block, and the cached artifacts. */
  datatype View = View(tip: TipCursor, top: nat, artifacts: Option<Artifacts>)

  function Replay(v: View, t: Trace): View {
    if t == [] then v
    else
      match Last(t)
      case Committed(at, tip, artifacts) => View(tip, at.number, Some(artifacts))
      case _ => Replay(v, DropLast(t))
  }

  /** The `k`-th event from the end of a trace, counting from one. */
  function Back(t: Trace, k: nat): Event
    requires 1 <= k <= |t|
  {
    t[|t| - k]
  }

  /** The trace ends between two passes of the loop. */
  predicate Quiet(env: Env, t: Trace) {
    t == [] ||
    match Last(t)
    case Committed(_, _, _) => true
    case Produced(_, payload) => payload == Err(Critical(EndOfSource))
    case Executed(a, built) => built.Err? && !HoloceneActive(env.forks, a.timestamp)
    case _ => false
  }

  /** The trace ends with a failed first attempt at attributes `a` fresh from the pipeline. */
  predicate FirstAttemptFailed(t: Trace, a: Attributes) {
    && |t| >= 3
    && Back(t, 1).Executed? && Back(t, 1).attributes == a && Back(t, 1).built.Err?
    && Back(t, 2).SafeHeadUpdated?
    && Back(t, 3).Produced? && Back(t, 3).payload == Ok(a)
  }

  /** The trace ends with a failed first attempt that Holocene answers with a channel flush. */
  predicate OwesFlush(env: Env, t: Trace) {
    && t != [] && Last(t).Executed?
    && FirstAttemptFailed(t, Last(t).attributes)
    && HoloceneActive(env.forks, Last(t).attributes.timestamp)
  }

  /** The attributes are what was derived, or its deposits after a failed attempt, a flush and Holocene. */
  predicate Sanctioned(env: Env, t: Trace, a: Attributes) {
    && |t| >= 1
    && match Last(t)
       case Produced(_, payload) => payload == Ok(a)
       case Flushed(ack) =>
         && ack.Ok?
         && OwesFlush(env, DropLast(t))
         && a == DepositOnly(Last(DropLast(t)).attributes)
       case _ => false
  }

  /** Whether event `e` may come after trace `t`: what must precede it, and that it reports the true answer. */
  predicate Legal(env: Env, v: View, t: Trace, e: Event) {
    match e
    case Produced(head, payload) =>
      Quiet(env, t) && head == Replay(v, t).tip.l2SafeHead && payload == env.produce(t, head)
    case SafeHeadUpdated(header) =>
      && header == Replay(v, t).tip.header
      && t != []
      && ((Last(t).Produced? && Last(t).payload.Ok?) || (Last(t).Flushed? && Last(t).ack.Ok?))
    case Executed(a, built) =>
      && t != [] && Last(t).SafeHeadUpdated?
      && Sanctioned(env, DropLast(t), a)
      && built == env.execute(t, a)
    case Flushed(ack) =>
      OwesFlush(env, t) && ack == env.flushChannel(t)
    case OriginRead(origin) =>
      t != [] && Last(t).Executed? && Last(t).built.Ok? && origin == env.origin(t)
    case RootComputed(root) =>
      && |t| >= 2
      && Back(t, 1).OriginRead? && Back(t, 1).origin.Some?
      && Back(t, 2).Executed? && Back(t, 2).built.Ok?
      && root == env.outputRoot(t)
    case Committed(at, tip, artifacts) =>
      && |t| >= 4
      && Back(t, 1) == RootComputed(Ok(tip.outputRoot))
      && Back(t, 2) == OriginRead(Some(at))
      && Back(t, 3).Executed? && Back(t, 3).built == Ok(artifacts.outcome)
      && Back(t, 4) == SafeHeadUpdated(Replay(v, t).tip.header)
      && tip.header == artifacts.outcome.header
      && artifacts.transactions == Transactions(Back(t, 3).attributes)
      && DecodeAll(env, artifacts.transactions).Ok?
      && Ok(tip.l2SafeHead)
         == FromBlockAndGenesis(env, tip.header.inner, DecodeAll(env, artifacts.transactions).value)
  }

  /** Every event of the trace was legal when it happened. */
  predicate Conforms(env: Env, v: View, t: Trace) {
    t == [] || (Conforms(env, v, DropLast(t)) && Legal(env, v, DropLast(t), Last(t)))
  }

  /** Conformance read event by event. */
  lemma {:induction false} ConformsAt(env: Env, v: View, t: Trace, i: nat)
    requires Conforms(env, v, t) && i < |t|
    ensures Conforms(env, v, t[..i]) && Legal(env, v, t[..i], t[i])
    decreases |t|
  {
    if i < |t| - 1 {
      ConformsAt(env, v, DropLast(t), i);
      assert DropLast(t)[..i] == t[..i];
    }
  }

  /** On every conforming trace, the pipeline's L1 origin is not below one that a block was already committed at. */
  ghost predicate OriginsAscend(env: Env, v: View) {
    forall t: Trace | Conforms(env, v, t) && env.origin(t).Some? ::
      Replay(v, t).top <= env.origin(t).value.number
  }

  /** The cursor and the cached artifacts are exactly what the trace has committed. */
  predicate Mirrors(v: View, s: State) {
    && Cursor.Ready(s.cursor)
    && Replay(v, s.trace) == View(Cursor.Tip(s.cursor), Cursor.TopKey(s.cursor), s.artifacts)
  }

  lemma Extend(env: Env, v: View, t: Trace, e: Event)
    requires Conforms(env, v, t) && Legal(env, v, t, e)
    ensures Conforms(env, v, t + [e])
  {
    assert DropLast(t + [e]) == t;
  }

  /** An event that is not a commit leaves the view of the trace alone. */
  lemma NoCommit(v: View, t: Trace, e: Event)
    ensures Last(t + [e]) == e && DropLast(t + [e]) == t
    ensures !e.Committed? ==> Replay(v, t + [e]) == Replay(v, t)
  {
    assert DropLast(t + [e]) == t;
  }

  /** Both events of an attempt are legal when the attributes are sanctioned. */
  lemma AttemptConforms(env: Env, v: View, t: Trace, head: Sealed, a: Attributes)
    requires Conforms(env, v, t) && Sanctioned(env, t, a)
    requires head == Replay(v, t).tip.header
    ensures var (u, built) := Attempt(env, t, head, a);
            && Conforms(env, v, u)
            && u == t + [SafeHeadUpdated(head)] + [Executed(a, built)]
            && Replay(v, u) == Replay(v, t)
  {
    var updated := t + [SafeHeadUpdated(head)];
    Extend(env, v, t, SafeHeadUpdated(head));
    NoCommit(v, t, SafeHeadUpdated(head));
    var e := Executed(a, env.execute(updated, a));
    Extend(env, v, updated, e);
    NoCommit(v, updated, e);
  }

  /** What holds of the trace of an execution, however it ended. */
  ghost predicate ExecutionSound(env: Env, v: View, t: Trace, x: Execution) {
    && Conforms(env, v, x.trace)
    && Replay(v, x.trace) == Replay(v, t)
    && !OwesFlush(env, x.trace)
    && (x.Discarded? ==> Quiet(env, x.trace))
    && (x.Built? ==>
          && |x.trace| >= 2
          && Back(x.trace, 1) == Executed(x.attributes, Ok(x.outcome))
          && Back(x.trace, 2) == SafeHeadUpdated(Replay(v, t).tip.header))
  }

  lemma RetryConforms(env: Env, v: View, t: Trace, head: Sealed, a: Attributes)
    requires Conforms(env, v, t) && FirstAttemptFailed(t, a)
    requires HoloceneActive(env.forks, a.timestamp)
    requires head == Replay(v, t).tip.header
    ensures ExecutionSound(env, v, t, Retry(env, t, head, a))
  {
    hide Conforms, Quiet, Replay;
    var e := Flushed(env.flushChannel(t));
    Extend(env, v, t, e);
    NoCommit(v, t, e);
    if e.ack.Ok? {
      AttemptConforms(env, v, t + [e], head, DepositOnly(a));
    }
  }

  lemma ExecuteConforms(env: Env, v: View, t: Trace, head: Sealed, a: Attributes)
    requires Conforms(env, v, t)
    requires t != [] && Last(t).Produced? && Last(t).payload == Ok(a)
    requires head == Replay(v, t).tip.header
    ensures ExecutionSound(env, v, t, Execute(env, t, head, a))
  {
    AttemptConforms(env, v, t, head, a);
    var (u, built) := Attempt(env, t, head, a);
    if built.Err? && HoloceneActive(env.forks, a.timestamp) {
      assert Back(u, 3) == Last(t);
      RetryConforms(env, v, u, head, a);
    }
  }

  /** What holds after a pass of the loop. */
  ghost predicate PassSound(env: Env, v: View, c: Control) {
    && Mirrors(v, c.state)
    && Conforms(env, v, c.state.trace)
    && !OwesFlush(env, c.state.trace)
    && (c.Next? ==> Quiet(env, c.state.trace))
  }

  lemma CommitConforms(env: Env, v: View, s: State, x: Execution)
    requires OriginsAscend(env, v) && Mirrors(v, s)
    requires x.Built? && ExecutionSound(env, v, s.trace, x)
    ensures PassSound(env, v, Commit(env, s, x.trace, x.attributes, x.outcome))
  {
    var t := x.trace;
    var decoded := DecodeAll(env, Transactions(x.attributes));
    if decoded.Ok? {
      var e := OriginRead(env.origin(t));
      Extend(env, v, t, e);
      NoCommit(v, t, e);
      if e.origin.Some? && FromBlockAndGenesis(env, x.outcome.header.inner, decoded.value).Ok? {
        CommitRoot(env, v, s, x, e.origin.value,
                   FromBlockAndGenesis(env, x.outcome.header.inner, decoded.value).value);
      }
    }
  }

  lemma CommitRoot(env: Env, v: View, s: State, x: Execution, at: BlockInfo, info: L2BlockInfo)
    requires OriginsAscend(env, v) && Mirrors(v, s)
    requires x.Built? && ExecutionSound(env, v, s.trace, x)
    requires env.origin(x.trace) == Some(at)
    requires DecodeAll(env, Transactions(x.attributes)).Ok?
    requires FromBlockAndGenesis(env, x.outcome.header.inner, DecodeAll(env, Transactions(x.attributes)).value)
          == Ok(info)
    requires Conforms(env, v, x.trace + [OriginRead(Some(at))])
    ensures PassSound(env, v, Commit(env, s, x.trace, x.attributes, x.outcome))
  {
    hide Conforms, DecodeAll, FromBlockAndGenesis, Sanctioned, Cursor.Advance;
    var read := x.trace + [OriginRead(Some(at))];
    NoCommit(v, x.trace, OriginRead(Some(at)));
    var e := RootComputed(env.outputRoot(read));
    var rooted := read + [e];
    Extend(env, v, read, e);
    NoCommit(v, read, e);
    if e.root.Ok? {
      var tip := TipCursor(info, x.outcome.header, e.root.value);
      var c := Committed(at, tip, Artifacts(x.outcome, Transactions(x.attributes)));
      assert Back(rooted, 3) == Back(x.trace, 1) && Back(rooted, 4) == Back(x.trace, 2);
      Extend(env, v, rooted, c);
      NoCommit(v, rooted, c);
      assert Replay(v, x.trace).top <= at.number;
      Cursor.AdvanceAscending(s.cursor, at, tip);
    }
  }

  /** One pass from a quiet, conforming state keeps to the protocol, whichever way it ends. */
  lemma StepConforms(env: Env, v: View, s: State)
    requires OriginsAscend(env, v) && Mirrors(v, s)
    requires Conforms(env, v, s.trace) && Quiet(env, s.trace)
    ensures PassSound(env, v, Step(env, s))
  {
    hide Execute, Commit, Conforms;
    var tip := Cursor.Tip(s.cursor);
    var head := tip.l2SafeHead;
    if !(s.target.Some? && head.blockInfo.number >= s.target.value) {
      var e := Produced(head, env.produce(s.trace, head));
      Extend(env, v, s.trace, e);
      NoCommit(v, s.trace, e);
      if e.payload.Ok? {
        var t := s.trace + [e];
        ExecuteConforms(env, v, t, tip.header, e.payload.value);
        var x := Execute(env, t, tip.header, e.payload.value);
        if x.Built? {
          CommitConforms(env, v, s, x);
        }
      }
    }
  }

  /**
   * Every run, cut off after any number of passes and however it ends, follows the protocol, and the cursor shows
   * the last block the trace committed.
   */
  lemma {:induction false} RunConforms(env: Env, v: View, s: State, n: nat)
    requires OriginsAscend(env, v) && Mirrors(v, s)
    requires Conforms(env, v, s.trace) && Quiet(env, s.trace)
    ensures PassSound(env, v, Run(env, s, n))
    decreases n
  {
    hide Step, Run, Conforms, Legal;
    RunUnrolls(env, s, n);
    if n > 0 {
      StepConforms(env, v, s);
      if Step(env, s).Next? {
        RunConforms(env, v, Step(env, s).state, n - 1);
      }
    }
  }
}
