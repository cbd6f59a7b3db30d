/** The driver as it runs: an object that owns the cursor and the cached artifacts, and the loop over its passes. */
module DriverLoop {
  import opened Prelude
  import opened Forks
  import opened Blocks
  import Cursor
  import opened Driver
  import opened DriverTheorems

  class DerivationDriver {
    const cursor: Cursor.PipelineCursor
    var safeHeadArtifacts: Option<Artifacts>
    /** The calls made by the invocation under way. */
    var calls: Trace

    function Value(target: Option<u64>): State
      reads this, cursor
    {
      State(cursor.Value(), safeHeadArtifacts, target, calls)
    }

    constructor (cursor: Cursor.PipelineCursor)
      ensures this.cursor == cursor && safeHeadArtifacts == None && calls == []
    {
      this.cursor := cursor;
      safeHeadArtifacts := None;
      calls := [];
    }

    method TryPayload(env: Env, head: Sealed, attributes: Attributes) returns (built: Result<Outcome, nat>)
      modifies this`calls
      ensures (calls, built) == Attempt(env, old(calls), head, attributes)
    {
      calls := calls + [SafeHeadUpdated(head)];
      built := env.execute(calls, attributes);
      calls := calls + [Executed(attributes, built)];
    }

    /** Execute the payload; on failure under Holocene flush the channel and retry with the deposits alone. */
    method ExecutePayload(env: Env, head: Sealed, derived: Attributes) returns (x: Execution)
      modifies this`calls
      ensures x == Execute(env, old(calls), head, derived) && calls == x.trace
    {
      var attributes := derived;
      var built := TryPayload(env, head, attributes);
      if built.Err? {
        if !HoloceneActive(env.forks, attributes.timestamp) {
          return Discarded(calls);
        }
        var ack := env.flushChannel(calls);
        calls := calls + [Flushed(ack)];
        if ack.Err? {
          return Failed(calls, Pipeline(ack.error));
        }
        attributes := DepositOnly(attributes);
        built := TryPayload(env, head, attributes);
        if built.Err? {
          return Failed(calls, Executor(built.error));
        }
      }
      x := Built(calls, attributes, built.value);
    }

    /** Turn an execution into the new tip; the error of the first step that fails, if any. */
    method CommitBlock(env: Env, attributes: Attributes, outcome: Outcome, ghost target: Option<u64>)
      returns (failure: Option<DriverError>)
      requires Cursor.Ready(cursor.Value())
      modifies this, cursor
      ensures var c := Commit(env, old(Value(target)), old(calls), attributes, outcome);
              && c.state == Value(target)
              && (failure.None? <==> c.Next?)
              && (failure.Some? ==> c.answer == Err(failure.value))
      ensures Cursor.Ready(cursor.Value())
    {
      var txs := DecodeAll(env, Transactions(attributes));
      if txs.Err? {
        return Some(Rlp(txs.error));
      }
      var origin := env.origin(calls);
      calls := calls + [OriginRead(origin)];
      if origin.None? {
        return Some(Pipeline(Critical(MissingOrigin)));
      }
      var info := FromBlockAndGenesis(env, outcome.header.inner, txs.value);
      if info.Err? {
        return Some(FromBlock(info.error));
      }
      var root := env.outputRoot(calls);
      calls := calls + [RootComputed(root)];
      if root.Err? {
        return Some(Executor(root.error));
      }
      var tip := TipCursor(info.value, outcome.header, root.value);
      cursor.AdvanceTo(origin.value, tip);
      var artifacts := Artifacts(outcome, Transactions(attributes));
      safeHeadArtifacts := Some(artifacts);
      calls := calls + [Committed(origin.value, tip, artifacts)];
      failure := None;
    }

    /** One pass of the loop; `goal` is the target in force after it. */
    method Pass(env: Env, target: Option<u64>) returns (goal: Option<u64>, answer: Option<Answer>)
      requires Cursor.Ready(cursor.Value())
      modifies this, cursor
      ensures var c := Step(env, old(Value(target)));
              && c.state == Value(goal)
              && (answer.None? <==> c.Next?)
              && (answer.Some? ==> c.answer == answer.value)
      ensures Cursor.Ready(cursor.Value())
    {
      hide Execute, Commit;
      goal := target;
      var tip := cursor.GetTip();
      var head := tip.l2SafeHead;
      if target.Some? && head.blockInfo.number >= target.value {
        return goal, Some(Ok((head, tip.outputRoot)));
      }
      var payload := env.produce(calls, head);
      calls := calls + [Produced(head, payload)];
      if payload.Err? {
        if payload.error != Critical(EndOfSource) {
          return goal, Some(Err(Pipeline(payload.error)));
        }
        if target.Some? {
          goal := Some(head.blockInfo.number);
        }
        if InteropActive(env.forks, head.blockInfo.number) {
          return goal, Some(Err(Pipeline(Critical(EndOfSource))));
        }
        return goal, None;
      }
      var x := ExecutePayload(env, tip.header, payload.value);
      match x
      case Discarded(_) => answer := None;
      case Failed(_, e) => answer := Some(Err(e));
      case Built(_, attributes, outcome) =>
        CommitReadsTrace(env, old(Value(target)), Value(target), calls, attributes, outcome);
        var failure := CommitBlock(env, attributes, outcome, target);
        answer := if failure.Some? then Some(Err(failure.value)) else None;
    }

    /** The first `limit` passes of the loop, with any target or none and any source; no answer if none returns. */
    method AdvancePasses(env: Env, target: Option<u64>, limit: nat) returns (goal: Option<u64>, answer: Option<Answer>)
      requires Cursor.Ready(cursor.Value())
      modifies this, cursor
      ensures Cursor.Ready(cursor.Value())
      ensures var c := Run(env, State(old(cursor.Value()), old(safeHeadArtifacts), target, []), limit);
              && c.state == Value(goal)
              && (answer.None? <==> c.Next?)
              && (answer.Some? ==> c.answer == answer.value)
    {
      hide Step, Run;
      calls := [];
      ghost var start := Value(target);
      goal, answer := target, None;
      RunUnrolls(env, start, 0);
      for i := 0 to limit
        invariant Cursor.Ready(cursor.Value())
        invariant Run(env, start, i) == Next(Value(goal)) && answer.None?
      {
        goal, answer := Pass(env, goal);
        RunExtends(env, start, i);
        if answer.Some? {
          RunStays(env, start, i + 1, limit);
          return;
        }
      }
    }

    /**
     * Advance to the target. The loop ends because each further pass uses up one of the payloads the source still
     * has, or finds the source exhausted and lowers the target to the block it stands on.
     */
    method AdvanceToTarget(env: Env, target: Option<u64>, ghost budget: nat)
      returns (answer: Answer, ghost passes: nat)
      requires Cursor.Ready(cursor.Value())
      requires target.Some? && FiniteSource(env, budget)
      modifies this, cursor
      ensures Cursor.Ready(cursor.Value())
      ensures var c := Run(env, State(old(cursor.Value()), old(safeHeadArtifacts), target, []), passes);
              && c.Done? && c.answer == answer
              && c.state.cursor == cursor.Value() && c.state.artifacts == safeHeadArtifacts && c.state.trace == calls
      ensures passes <= budget + 2
    {
      hide Step, Run;
      calls := [];
      ghost var start := Value(target);
      var goal := target;
      passes := 0;
      RunUnrolls(env, start, 0);
      while true
        invariant Cursor.Ready(cursor.Value())
        invariant goal.Some?
        invariant Run(env, start, passes) == Next(Value(goal))
        invariant Payloads(calls) <= budget
        invariant passes <= Payloads(calls) + if AtTarget(Value(goal)) then 1 else 0
        decreases budget - Payloads(calls), if AtTarget(Value(goal)) then 0 else 1
      {
        ghost var before := Value(goal);
        var result;
        goal, result := Pass(env, goal);
        RunExtends(env, start, passes);
        passes := passes + 1;
        if result.Some? {
          return result.value, passes;
        }
        PassProgress(env, before);
        StepStops(env, before);
      }
    }
  }

  /** A commit works on the trace it is given, not on the one in the state. */
  lemma CommitReadsTrace(env: Env, s: State, u: State, t: Trace, a: Attributes, outcome: Outcome)
    requires Cursor.Ready(s.cursor) && u == s.(trace := u.trace)
    ensures Commit(env, s, t, a, outcome) == Commit(env, u, t, a, outcome)
  {
  }

  /** A run extended by one more pass. */
  lemma {:induction false} RunExtends(env: Env, s: State, n: nat)
    requires Cursor.Ready(s.cursor) && Run(env, s, n).Next?
    ensures Cursor.Ready(Run(env, s, n).state.cursor)
    ensures Run(env, s, n + 1) == Step(env, Run(env, s, n).state)
    decreases n
  {
    hide Step;
    RunUnrolls(env, s, n + 1);
    if n == 0 {
      var s' := Step(env, s);
      if s'.Next? {
        RunUnrolls(env, s'.state, 0);
      }
    } else {
      RunExtends(env, Step(env, s).state, n - 1);
    }
  }

  /** A pass that goes round again did not start at its target. */
  lemma StepStops(env: Env, s: State)
    requires Cursor.Ready(s.cursor) && Step(env, s).Next?
    ensures !AtTarget(s)
  {
  }
}
