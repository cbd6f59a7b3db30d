/** What the driver makes of the end of its source: an error, or an answer with the head it stands on. */
module DriverExhaustion {
  import opened Prelude
  import opened Forks
  import opened Blocks
  import Cursor
  import opened Driver
  import opened DriverTheorems

  const END_OF_SOURCE := Pipeline(Critical(EndOfSource))

  predicate EndsInFlush(t: Trace) {
    t != [] && Last(t).Flushed?
  }

  /**
   * What holds between passes on the way to `goal`: either the source has not ended and the goal stands, or its end
   * was the last event, outside interop, and the target was lowered to the head.
   */
  predicate Heading(env: Env, goal: u64, s: State)
    requires Cursor.Ready(s.cursor)
  {
    && !EndsInFlush(s.trace)
    && if Exhausted(s.trace) then
         && Last(s.trace) == Produced(Cursor.Tip(s.cursor).l2SafeHead, Err(Critical(EndOfSource)))
         && s.target == Some(Number(s)) && Number(s) < goal
         && !InteropActive(env.forks, Number(s))
       else s.target == Some(goal)
  }

  /** The answer of a run that met the end of its source. */
  function AtTheEnd(env: Env, tip: TipCursor): Answer {
    if InteropActive(env.forks, tip.l2SafeHead.blockInfo.number) then Err(END_OF_SOURCE)
    else Ok((tip.l2SafeHead, tip.outputRoot))
  }

  /** How a return relates to the end of the source. */
  predicate EndsByRule(env: Env, goal: u64, s: State, answer: Answer)
    requires Cursor.Ready(s.cursor)
  {
    && (Exhausted(s.trace) ==>
          && Last(s.trace) == Produced(Cursor.Tip(s.cursor).l2SafeHead, Err(Critical(EndOfSource)))
          && Number(s) < goal
          && answer == AtTheEnd(env, Cursor.Tip(s.cursor)))
    && (!Exhausted(s.trace) ==> (answer == Err(END_OF_SOURCE)
                                 <==> s.trace != [] && Last(s.trace) == Flushed(Err(Critical(EndOfSource)))))
  }

  /** An execution ends with an attempt, or with the flush whose error it reports. */
  lemma ExecuteShape(env: Env, t: Trace, head: Sealed, a: Attributes)
    ensures var x := Execute(env, t, head, a);
            && x.trace != []
            && (if EndsInFlush(x.trace) then
                  x.Failed? && Last(x.trace).ack.Err? && x.error == Pipeline(Last(x.trace).ack.error)
                else x.Failed? ==> x.error.Executor?)
  {
  }

  /** A commit neither flushes nor reports the end of the source. */
  lemma CommitShape(env: Env, s: State, t: Trace, a: Attributes, outcome: Outcome)
    requires Cursor.Ready(s.cursor) && !EndsInFlush(t)
    ensures var c := Commit(env, s, t, a, outcome);
            && !EndsInFlush(c.state.trace)
            && c.state.target == s.target
            && (c.Done? ==> c.state.cursor == s.cursor && c.answer.Err? && c.answer != Err(END_OF_SOURCE))
  {
  }

  /** A pass that gets a payload executes it and commits what was built. */
  lemma PayloadStep(env: Env, s: State, a: Attributes)
    requires Cursor.Ready(s.cursor) && !AtTarget(s)
    requires env.produce(s.trace, Cursor.Tip(s.cursor).l2SafeHead) == Ok(a)
    ensures var tip := Cursor.Tip(s.cursor);
            Step(env, s)
            == match Execute(env, s.trace + [Produced(tip.l2SafeHead, Ok(a))], tip.header, a)
               case Built(built, executed, outcome) => Commit(env, s, built, executed, outcome)
               case Discarded(tried) => Next(s.(trace := tried))
               case Failed(tried, e) => Done(s.(trace := tried), Err(e))
  {
    hide Execute, Commit;
  }

  /** A pass that executes a payload. */
  lemma PayloadHeading(env: Env, goal: u64, s: State, a: Attributes)
    requires Cursor.Ready(s.cursor) && Heading(env, goal, s) && !AtTarget(s)
    requires env.produce(s.trace, Cursor.Tip(s.cursor).l2SafeHead) == Ok(a)
    ensures Cursor.Ready(Step(env, s).state.cursor) && !Exhausted(Step(env, s).state.trace)
    ensures Step(env, s).Next? ==> Heading(env, goal, Step(env, s).state)
    ensures Step(env, s).Done? ==> EndsByRule(env, goal, Step(env, s).state, Step(env, s).answer)
  {
    StepKeepsReady(env, s);
    PayloadStep(env, s, a);
    hide Step, Execute, Commit, AtTheEnd;
    var tip := Cursor.Tip(s.cursor);
    var e := Produced(tip.l2SafeHead, Ok(a));
    var t := s.trace + [e];
    Appended(s.trace, e);
    hide Exhausted, Payloads;
    ExecuteSource(env, t, tip.header, a);
    ExecuteShape(env, t, tip.header, a);
    var x := Execute(env, t, tip.header, a);
    if x.Built? {
      CommitSource(env, s, x.trace, x.attributes, x.outcome);
      CommitShape(env, s, x.trace, x.attributes, x.outcome);
    }
  }

  /** A pass that finds its target reached. */
  lemma ReachedHeading(env: Env, goal: u64, s: State)
    requires Cursor.Ready(s.cursor) && Heading(env, goal, s) && AtTarget(s)
    ensures Step(env, s).Done? && Step(env, s).state == s
    ensures EndsByRule(env, goal, s, Step(env, s).answer)
  {
    assert Step(env, s) == Done(s, Ok((Cursor.Tip(s.cursor).l2SafeHead, Cursor.Tip(s.cursor).outputRoot)));
    hide Step, Exhausted;
  }

  /** A pass that gets no payload. */
  lemma DryHeading(env: Env, goal: u64, s: State, e: PipelineErrorKind)
    requires Cursor.Ready(s.cursor) && Heading(env, goal, s) && !AtTarget(s)
    requires env.produce(s.trace, Cursor.Tip(s.cursor).l2SafeHead) == Err(e)
    ensures Cursor.Ready(Step(env, s).state.cursor)
    ensures Step(env, s).Next? ==> Heading(env, goal, Step(env, s).state)
    ensures Step(env, s).Done? ==> EndsByRule(env, goal, Step(env, s).state, Step(env, s).answer)
  {
    Appended(s.trace, Produced(Cursor.Tip(s.cursor).l2SafeHead, Err(e)));
    assert !Exhausted(s.trace) && s.target == Some(goal);
    hide Execute, Commit, Exhausted, Payloads;
  }

  lemma PassHeading(env: Env, goal: u64, s: State)
    requires Cursor.Ready(s.cursor) && Heading(env, goal, s)
    ensures Cursor.Ready(Step(env, s).state.cursor)
    ensures Step(env, s).Next? ==> Heading(env, goal, Step(env, s).state)
    ensures Step(env, s).Done? ==> EndsByRule(env, goal, Step(env, s).state, Step(env, s).answer)
  {
    hide Step, Heading, EndsByRule, AtTarget;
    var payload := env.produce(s.trace, Cursor.Tip(s.cursor).l2SafeHead);
    if AtTarget(s) {
      ReachedHeading(env, goal, s);
    } else if payload.Ok? {
      PayloadHeading(env, goal, s, payload.value);
    } else {
      DryHeading(env, goal, s, payload.error);
    }
  }

  /**
   * How the end of the source decides a run, whatever the pipeline and the executor do. A run that met it stands below
   * its goal and returns an error exactly when interop is active at the number of the block it stands on, taken as a
   * timestamp; otherwise it returns that block. A run that did not meet it reports it only if a flush failed with it.
   */
  lemma {:induction false} RunEndsByRule(env: Env, goal: u64, s: State, n: nat)
    requires Cursor.Ready(s.cursor) && Heading(env, goal, s)
    ensures var c := Run(env, s, n);
            c.Done? ==> Cursor.Ready(c.state.cursor) && EndsByRule(env, goal, c.state, c.answer)
    decreases n
  {
    hide Step, Run, Heading, EndsByRule;
    RunUnrolls(env, s, n);
    PassHeading(env, goal, s);
    if n > 0 && Step(env, s).Next? {
      RunEndsByRule(env, goal, Step(env, s).state, n - 1);
    }
  }

  /** A run begins with its goal ahead and nothing called. */
  lemma StartHeading(env: Env, goal: u64, s: State)
    requires Cursor.Ready(s.cursor) && s.target == Some(goal) && s.trace == []
    ensures Heading(env, goal, s)
  {
  }

  /**
   * The documented halt at the end of the source, outside interop, is what a target brings about: the pass after the
   * one that met the end returns the head if and only if there is a target.
   */
  lemma HaltsIffTarget(env: Env, s: State)
    requires Cursor.Ready(s.cursor) && !AtTarget(s)
    requires env.produce(s.trace, Cursor.Tip(s.cursor).l2SafeHead) == Err(Critical(EndOfSource))
    requires !InteropActive(env.forks, Number(s))
    ensures var c := Run(env, s, 2);
            && (c.Done? && c.answer.Ok? <==> s.target.Some?)
            && (s.target.Some? ==>
                  c.answer == Ok((Cursor.Tip(s.cursor).l2SafeHead, Cursor.Tip(s.cursor).outputRoot))
                  && c.state.cursor == s.cursor)
  {
    if s.target.None? {
      NoTargetNeverSucceeds(env, s, 2);
    } else {
      var s' := Step(env, s).state;
      assert AtTarget(s');
      RunUnrolls(env, s, 2);
      RunUnrolls(env, s', 1);
      hide Run;
    }
  }

  // ---------------------------------------------------------------------------------------------
  // A source that ends before the first commit

  predicate HasCommit(t: Trace) {
    exists k :: 0 <= k < |t| && t[k].Committed?
  }

  predicate EndsFirst(t: Trace) {
    Exhausted(t) && !HasCommit(t)
  }

  lemma CommitAppended(t: Trace, e: Event)
    ensures HasCommit(t + [e]) <==> HasCommit(t) || e.Committed?
  {
    if HasCommit(t) {
      var k :| 0 <= k < |t| && t[k].Committed?;
      assert (t + [e])[k].Committed?;
    }
    assert (t + [e])[|t|] == e;
    assert forall k | 0 <= k < |t| :: (t + [e])[k] == t[k];
  }

  /**
   * What the pipeline and the executor answer, starting after trace `t`: at most `m` payloads, each of which fails
   * before Holocene and is discarded, and then the end of the source.
   */
  predicate Barren(env: Env, info: L2BlockInfo, header: Sealed, t: Trace, m: nat)
    decreases m
  {
    match env.produce(t, info)
    case Err(e) => e == Critical(EndOfSource)
    case Ok(a) =>
      && m > 0
      && !HoloceneActive(env.forks, a.timestamp)
      && var (tried, built) := Attempt(env, t + [Produced(info, Ok(a))], header, a);
         built.Err? && Barren(env, info, header, tried, m - 1)
  }

  lemma AttemptCommits(env: Env, t: Trace, head: Sealed, a: Attributes)
    ensures HasCommit(Attempt(env, t, head, a).0) <==> HasCommit(t)
  {
    var updated := t + [SafeHeadUpdated(head)];
    CommitAppended(t, SafeHeadUpdated(head));
    CommitAppended(updated, Executed(a, env.execute(updated, a)));
    hide HasCommit;
  }

  /** A pass over a payload that is discarded changes the trace only, and commits nothing. */
  lemma DiscardingPass(env: Env, s: State, a: Attributes)
    requires Cursor.Ready(s.cursor) && !AtTarget(s)
    requires env.produce(s.trace, Cursor.Tip(s.cursor).l2SafeHead) == Ok(a)
    requires !HoloceneActive(env.forks, a.timestamp)
    ensures var tip := Cursor.Tip(s.cursor);
            var (tried, built) := Attempt(env, s.trace + [Produced(tip.l2SafeHead, Ok(a))], tip.header, a);
            && (built.Err? ==> Step(env, s) == Next(s.(trace := tried)))
            && (HasCommit(tried) <==> HasCommit(s.trace))
  {
    var tip := Cursor.Tip(s.cursor);
    CommitAppended(s.trace, Produced(tip.l2SafeHead, Ok(a)));
    AttemptCommits(env, s.trace + [Produced(tip.l2SafeHead, Ok(a))], tip.header, a);
    hide HasCommit, Commit;
  }

  /** The pass that meets the end of the source, and what follows it. */
  lemma EndingPasses(env: Env, s: State, n: nat)
    requires Cursor.Ready(s.cursor) && s.target.Some? && !AtTarget(s) && n >= 2
    requires env.produce(s.trace, Cursor.Tip(s.cursor).l2SafeHead) == Err(Critical(EndOfSource))
    ensures var c := Run(env, s, n);
            && c.Done? && c.state.cursor == s.cursor && c.answer == AtTheEnd(env, Cursor.Tip(s.cursor))
            && Exhausted(c.state.trace) && (HasCommit(c.state.trace) <==> HasCommit(s.trace))
  {
    var tip := Cursor.Tip(s.cursor);
    var e := Produced(tip.l2SafeHead, Err(Critical(EndOfSource)));
    Appended(s.trace, e);
    CommitAppended(s.trace, e);
    hide HasCommit, Exhausted, Execute, Commit;
    RunUnrolls(env, s, n);
    var after := Step(env, s);
    assert after.state.trace == s.trace + [e] && after.state.cursor == s.cursor;
    if after.Next? {
      assert Step(env, after.state) == Done(after.state, Ok((tip.l2SafeHead, tip.outputRoot)));
      RunUnrolls(env, after.state, n - 1);
    }
    hide Run, Step;
  }

  /** On barren answers a run returns without a commit, as the end of the source on the starting tip has it. */
  lemma {:induction false} BarrenRuns(env: Env, s: State, m: nat)
    requires Cursor.Ready(s.cursor) && s.target.Some? && !AtTarget(s)
    requires Barren(env, Cursor.Tip(s.cursor).l2SafeHead, Cursor.Tip(s.cursor).header, s.trace, m)
    ensures var c := Run(env, s, m + 2);
            && c.Done? && c.state.cursor == s.cursor && c.answer == AtTheEnd(env, Cursor.Tip(s.cursor))
            && Exhausted(c.state.trace) && (HasCommit(c.state.trace) <==> HasCommit(s.trace))
    decreases m
  {
    var tip := Cursor.Tip(s.cursor);
    var payload := env.produce(s.trace, tip.l2SafeHead);
    hide HasCommit, Exhausted, AtTheEnd;
    if payload.Err? {
      EndingPasses(env, s, m + 2);
    } else {
      DiscardingPass(env, s, payload.value);
      RunUnrolls(env, s, m + 2);
      hide Step, Run;
      BarrenRuns(env, Step(env, s).state, m - 1);
    }
  }

  lemma StepExtends(env: Env, s: State)
    requires Cursor.Ready(s.cursor)
    ensures s.trace <= Step(env, s).state.trace
  {
  }

  lemma {:induction false} CommitsStay(env: Env, s: State, n: nat)
    requires Cursor.Ready(s.cursor) && HasCommit(s.trace)
    ensures HasCommit(Run(env, s, n).state.trace)
    decreases n
  {
    hide Step, Run;
    RunUnrolls(env, s, n);
    if n > 0 {
      StepExtends(env, s);
      var k :| 0 <= k < |s.trace| && s.trace[k].Committed?;
      assert Step(env, s).state.trace[k].Committed?;
      if Step(env, s).Next? {
        CommitsStay(env, Step(env, s).state, n - 1);
      }
    }
  }

  /** A pass on a payload that goes round again discarded it before Holocene, or committed. */
  lemma PayloadPass(env: Env, s: State, a: Attributes)
    requires Cursor.Ready(s.cursor) && !AtTarget(s) && Step(env, s).Next?
    requires env.produce(s.trace, Cursor.Tip(s.cursor).l2SafeHead) == Ok(a)
    ensures || HasCommit(Step(env, s).state.trace)
            || (&& !HoloceneActive(env.forks, a.timestamp)
                && var tip := Cursor.Tip(s.cursor);
                   var t := s.trace + [Produced(tip.l2SafeHead, Ok(a))];
                   Attempt(env, t, tip.header, a).1.Err?)
  {
    var tip := Cursor.Tip(s.cursor);
    var x := Execute(env, s.trace + [Produced(tip.l2SafeHead, Ok(a))], tip.header, a);
    if x.Built? {
      var c := Commit(env, s, x.trace, x.attributes, x.outcome);
      assert c.state.trace[|c.state.trace| - 1].Committed?;
    }
  }

  /** A run that meets the end of its source and gets no payload first meets it right away. */
  lemma DryFirst(env: Env, goal: u64, s: State, n: nat)
    requires Cursor.Ready(s.cursor) && Heading(env, goal, s) && !AtTarget(s)
    requires Run(env, s, n).Done? && Exhausted(Run(env, s, n).state.trace)
    requires env.produce(s.trace, Cursor.Tip(s.cursor).l2SafeHead).Err?
    ensures env.produce(s.trace, Cursor.Tip(s.cursor).l2SafeHead) == Err(Critical(EndOfSource))
  {
    var head := Cursor.Tip(s.cursor).l2SafeHead;
    Appended(s.trace, Produced(head, env.produce(s.trace, head)));
    assert !Exhausted(s.trace);
    RunUnrolls(env, s, n);
    hide Run, Exhausted, Execute, Commit;
  }

  /** A run that meets the end of its source and gets a payload first goes round, still on its way. */
  lemma PayloadFirst(env: Env, goal: u64, s: State, n: nat, a: Attributes)
    requires Cursor.Ready(s.cursor) && Heading(env, goal, s) && !AtTarget(s)
    requires Run(env, s, n).Done? && Exhausted(Run(env, s, n).state.trace)
    requires env.produce(s.trace, Cursor.Tip(s.cursor).l2SafeHead) == Ok(a)
    ensures n > 0 && Step(env, s).Next? && Cursor.Ready(Step(env, s).state.cursor)
    ensures Heading(env, goal, Step(env, s).state) && !Exhausted(Step(env, s).state.trace)
    ensures Run(env, s, n) == Run(env, Step(env, s).state, n - 1)
  {
    hide Run, Step, Heading, Exhausted, EndsByRule, AtTarget;
    PayloadHeading(env, goal, s, a);
    RunUnrolls(env, s, n);
  }

  /** A run that ends by exhaustion before any commit was given barren answers. */
  lemma {:induction false} EndsFirstBarren(env: Env, goal: u64, s: State, n: nat) returns (m: nat)
    requires Cursor.Ready(s.cursor) && Heading(env, goal, s) && !AtTarget(s) && !HasCommit(s.trace)
    requires Run(env, s, n).Done? && EndsFirst(Run(env, s, n).state.trace)
    ensures Barren(env, Cursor.Tip(s.cursor).l2SafeHead, Cursor.Tip(s.cursor).header, s.trace, m)
    decreases n
  {
    hide Run, Step, Heading, Exhausted, HasCommit;
    var payload := env.produce(s.trace, Cursor.Tip(s.cursor).l2SafeHead);
    if payload.Ok? {
      PayloadFirst(env, goal, s, n, payload.value);
      PayloadPass(env, s, payload.value);
      if HasCommit(Step(env, s).state.trace) {
        CommitsStay(env, Step(env, s).state, n - 1);
      }
      DiscardingPass(env, s, payload.value);
      var k := EndsFirstBarren(env, goal, Step(env, s).state, n - 1);
      m := k + 1;
    } else {
      DryFirst(env, goal, s, n);
      m := 0;
    }
  }

  // ---------------------------------------------------------------------------------------------
  // A source that ends short of the target

  /** After `k` passes the run stands below `goal` and the source has nothing more. */
  predicate ShortAfter(env: Env, goal: u64, s: State, k: nat)
    requires Cursor.Ready(s.cursor)
  {
    var c := Run(env, s, k);
    && c.Next? && Cursor.Ready(c.state.cursor) && Number(c.state) < goal
    && env.produce(c.state.trace, Cursor.Tip(c.state.cursor).l2SafeHead) == Err(Critical(EndOfSource))
  }

  /** A run that comes to stand short of its goal with nothing more to get has met the end of its source. */
  lemma {:induction false} ShortEnds(env: Env, goal: u64, s: State, k: nat)
    requires Cursor.Ready(s.cursor) && Heading(env, goal, s) && ShortAfter(env, goal, s, k)
    ensures Run(env, s, k + 2).Done? && Exhausted(Run(env, s, k + 2).state.trace)
    decreases k
  {
    hide Run, Step, EndsByRule;
    RunUnrolls(env, s, k);
    RunUnrolls(env, s, k + 2);
    if AtTarget(s) {
      ReachedHeading(env, goal, s);
    } else if k == 0 {
      EndingPasses(env, s, 2);
    } else {
      PassHeading(env, goal, s);
      hide Heading;
      ShortEnds(env, goal, Step(env, s).state, k - 1);
    }
  }

  /** A run that met the end of its source met it short of its goal. */
  lemma {:induction false} ExhaustedShort(env: Env, goal: u64, s: State, n: nat) returns (k: nat)
    requires Cursor.Ready(s.cursor) && Heading(env, goal, s) && !Exhausted(s.trace)
    requires Run(env, s, n).Done? && Exhausted(Run(env, s, n).state.trace)
    ensures ShortAfter(env, goal, s, k)
    decreases n
  {
    hide Run, Step, Exhausted, EndsByRule;
    if AtTarget(s) {
      ReachedHeading(env, goal, s);
      RunUnrolls(env, s, n);
      assert false;
    }
    var payload := env.produce(s.trace, Cursor.Tip(s.cursor).l2SafeHead);
    if payload.Ok? {
      PayloadFirst(env, goal, s, n, payload.value);
      hide Heading;
      var j := ExhaustedShort(env, goal, Step(env, s).state, n - 1);
      k := j + 1;
      RunUnrolls(env, s, k);
    } else {
      DryFirst(env, goal, s, n);
      k := 0;
      RunUnrolls(env, s, 0);
    }
  }
}
