/**
 * One derivation run of a proof program: the driver, set up from the agreed safe head, runs towards a target block.
 * What its answer is the head and the output root of.
 */
module ProofRun {
  import opened Prelude
  import opened Forks
  import opened Blocks
  import Cursor
  import opened Driver
  import opened DriverProtocol
  import opened DriverTheorems
  import opened DriverExhaustion

  /** A derivation driver ready to run: its components and its start. */
  datatype Setup = Setup(env: Env, channelTimeout: u64, origin: BlockInfo, info: L2BlockInfo)

  /** The cursor starts on the agreed head with a root of zero. */
  function FirstTip(s: Setup, head: Sealed): TipCursor {
    TipCursor(s.info, head, 0)
  }

  function StartOf(s: Setup, head: Sealed, target: u64): State {
    State(Cursor.Start(s.channelTimeout, s.origin, FirstTip(s, head)), None, Some(target), [])
  }

  /** The first `n` passes of the run. */
  function RunFor(s: Setup, head: Sealed, target: u64, n: nat): Control {
    Cursor.StartShowsTip(s.channelTimeout, s.origin, FirstTip(s, head));
    Run(s.env, StartOf(s, head, target), n)
  }

  /** A number of passes after which the run has returned, if it ever does. */
  ghost function Passes(s: Setup, head: Sealed, target: u64): nat {
    if exists n: nat :: RunFor(s, head, target, n).Done? then
      var n: nat :| RunFor(s, head, target, n).Done?;
      n
    else 0
  }

  /** The run to its end; a run that never returns stays at its start here. */
  ghost function RunOf(s: Setup, head: Sealed, target: u64): Control {
    RunFor(s, head, target, Passes(s, head, target))
  }

  /** The driver's answer, if it ever returns. */
  ghost function DriverAnswer(s: Setup, head: Sealed, target: u64): Option<Answer> {
    match RunOf(s, head, target)
    case Done(_, answer) => Some(answer)
    case Next(_) => None
  }

  /** Whatever number of passes the run returns after, it is the same run. */
  lemma RunOfIs(s: Setup, head: Sealed, target: u64, n: nat)
    requires RunFor(s, head, target, n).Done?
    ensures RunOf(s, head, target) == RunFor(s, head, target, n)
  {
    Cursor.StartShowsTip(s.channelTimeout, s.origin, FirstTip(s, head));
    var m := Passes(s, head, target);
    assert RunFor(s, head, target, m).Done?;
    hide Run, Passes, Cursor.Start;
    RunStays(s.env, StartOf(s, head, target), if m < n then m else n, if m < n then n else m);
  }

  function ViewOf(s: Setup, head: Sealed): View {
    View(FirstTip(s, head), s.origin.number, None)
  }

  /** The calls the run makes. */
  ghost function TraceOf(s: Setup, head: Sealed, target: u64): Trace {
    RunOf(s, head, target).state.trace
  }

  /** The components do their part: origins ascend, blocks are built on the head, and the start is one block. */
  ghost predicate WellSetUp(s: Setup, head: Sealed) {
    && OriginsAscend(s.env, ViewOf(s, head))
    && BuildsOnHead(s.env)
    && TipAgrees(FirstTip(s, head))
  }

  // ---------------------------------------------------------------------------------------------
  // When there is an answer, and its block

  /** A finite source always gives an answer. */
  lemma AlwaysAnswers(s: Setup, head: Sealed, target: u64, budget: nat)
    requires FiniteSource(s.env, budget)
    ensures DriverAnswer(s, head, target).Some?
  {
    Cursor.StartShowsTip(s.channelTimeout, s.origin, FirstTip(s, head));
    RunTerminates(s.env, StartOf(s, head, target), budget, budget + 2);
    RunOfIs(s, head, target, budget + 2);
    hide Run, Cursor.Start, Passes;
  }

  /** At a target not above the safe head nothing is called: the answer carries the root the cursor started with. */
  lemma AnswerAtSafeHead(s: Setup, head: Sealed, target: u64)
    requires s.info.blockInfo.number >= target
    ensures DriverAnswer(s, head, target) == Some(Ok((s.info, 0))) && TraceOf(s, head, target) == []
  {
    Cursor.StartShowsTip(s.channelTimeout, s.origin, FirstTip(s, head));
    var start := StartOf(s, head, target);
    assert Step(s.env, start) == Done(start, Ok((s.info, 0)));
    RunUnrolls(s.env, start, 1);
    hide Run, Step, Cursor.Start, Passes;
    RunOfIs(s, head, target, 1);
  }

  /** A successful answer is about the target block, or, when the source ran out first, about the last block before. */
  lemma DerivedNumber(s: Setup, head: Sealed, target: u64)
    requires WellSetUp(s, head)
    requires DriverAnswer(s, head, target).Some? && DriverAnswer(s, head, target).value.Ok?
    ensures EndsRight(ViewOf(s, head), target, TraceOf(s, head, target), DriverAnswer(s, head, target).value.value.0)
  {
    Cursor.StartShowsTip(s.channelTimeout, s.origin, FirstTip(s, head));
    StartSound(s.env, s.channelTimeout, s.origin, FirstTip(s, head), target);
    RunFinalNumber(s.env, ViewOf(s, head), target, StartOf(s, head, target), Passes(s, head, target));
    hide Run, EndsRight, Cursor.Start, Sound, OnCourse;
  }

  // ---------------------------------------------------------------------------------------------
  // Whose root the answer carries

  /** `head` and `root` are those of the last commit, and the root is the executor's for that very execution. */
  predicate RootOfLastCommit(env: Env, t: Trace, head: L2BlockInfo, root: Hash)
    requires HasCommit(t)
  {
    var i := LastCommit(t);
    && i >= 5 && t[i - 3].Executed?
    && head == t[i].tip.l2SafeHead
    && env.execute(t[..i - 3], t[i - 3].attributes) == Ok(t[i].artifacts.outcome)
    && t[i].tip.header == t[i].artifacts.outcome.header
    && env.outputRoot(t[..i - 1]) == Ok(root)
  }

  /** The tip a conforming trace adds up to. */
  lemma TipOfTrace(env: Env, v: View, t: Trace)
    requires Conforms(env, v, t)
    ensures var tip := Replay(v, t).tip;
            if HasCommit(t) then RootOfLastCommit(env, t, tip.l2SafeHead, tip.outputRoot) else tip == v.tip
  {
    if HasCommit(t) {
      ReplayIsLastCommit(v, t);
      CommitAssembled(env, v, t, LastCommit(t));
      hide Conforms, Replay, LastCommit;
    } else {
      NoCommits(v, t);
    }
  }

  /** The tip a run ends with is that of its last commit, or the one it started with. */
  lemma TipOfRun(s: Setup, head: Sealed, target: u64)
    requires OriginsAscend(s.env, ViewOf(s, head))
    ensures var t, d := TraceOf(s, head, target), RunOf(s, head, target).state;
            && Cursor.Ready(d.cursor)
            && var tip := Cursor.Tip(d.cursor);
               if HasCommit(t) then RootOfLastCommit(s.env, t, tip.l2SafeHead, tip.outputRoot)
               else tip == FirstTip(s, head)
  {
    var v, start := ViewOf(s, head), StartOf(s, head, target);
    Cursor.StartShowsTip(s.channelTimeout, s.origin, FirstTip(s, head));
    hide Cursor.Start, Run, OriginsAscend, Cursor.Ready;
    RunConforms(s.env, v, start, Passes(s, head, target));
    hide Conforms, Replay, Quiet, OwesFlush, HasCommit, RootOfLastCommit;
    TipOfTrace(s.env, v, TraceOf(s, head, target));
  }

  lemma {:induction false} NoCommits(v: View, t: Trace)
    requires !HasCommit(t)
    ensures Replay(v, t) == v
    decreases |t|
  {
    if t != [] {
      assert !t[|t| - 1].Committed?;
      assert forall k | 0 <= k < |t| - 1 :: DropLast(t)[k] == t[k];
      NoCommits(v, DropLast(t));
    }
  }

  /**
   * What a successful answer is the head and the root of: the last block committed, with the root the executor
   * computed right after executing it, or, when nothing was committed, the starting head with a root of zero.
   */
  lemma AnswerRoot(s: Setup, head: Sealed, target: u64)
    requires OriginsAscend(s.env, ViewOf(s, head))
    requires DriverAnswer(s, head, target).Some? && DriverAnswer(s, head, target).value.Ok?
    ensures var t, (h, r) := TraceOf(s, head, target), DriverAnswer(s, head, target).value.value;
            if HasCommit(t) then RootOfLastCommit(s.env, t, h, r) else (h, r) == (s.info, 0)
  {
    TipOfRun(s, head, target);
    Cursor.StartShowsTip(s.channelTimeout, s.origin, FirstTip(s, head));
    RunReturnsTip(s.env, StartOf(s, head, target), Passes(s, head, target));
    hide Run, Cursor.Start, RootOfLastCommit, HasCommit;
  }

  lemma {:induction false} ChainGrows(v: View, t: Trace)
    ensures |Chain(v, t)| >= if HasCommit(t) then 2 else 1
    decreases |t|
  {
    if t != [] {
      ChainGrows(v, DropLast(t));
      if HasCommit(t) && !Last(t).Committed? {
        var k :| 0 <= k < |t| && t[k].Committed?;
        assert DropLast(t)[k].Committed?;
      }
    }
  }

  /** Something was committed exactly when the run ends above the block it started on. */
  lemma CommittedIffAdvanced(s: Setup, head: Sealed, target: u64)
    requires WellSetUp(s, head)
    ensures var d := RunOf(s, head, target).state;
            && Cursor.Ready(d.cursor)
            && s.info.blockInfo.number <= Number(d)
            && (HasCommit(TraceOf(s, head, target)) <==> s.info.blockInfo.number < Number(d))
  {
    var v, start := ViewOf(s, head), StartOf(s, head, target);
    Cursor.StartShowsTip(s.channelTimeout, s.origin, FirstTip(s, head));
    hide Cursor.Start, Run, OriginsAscend, BuildsOnHead, Cursor.Ready;
    RunLinked(s.env, v, start, Passes(s, head, target));
    TipOfRun(s, head, target);
    var t := TraceOf(s, head, target);
    ChainGrows(v, t);
    hide HasCommit, RootOfLastCommit, Chain, Linked;
    var chain := Chain(v, t);
    assert chain[|chain| - 1].l2SafeHead.blockInfo.number == s.info.blockInfo.number + |chain| - 1;
  }

  // ---------------------------------------------------------------------------------------------
  // A source that ends before the first commit

  /** The answer when nothing is committed: an error if interop is active at the head's number, else head and zero. */
  function Unmoved(s: Setup): Answer {
    if InteropActive(s.env.forks, s.info.blockInfo.number) then Err(END_OF_SOURCE) else Ok((s.info, 0))
  }

  lemma AnswerByRule(s: Setup, head: Sealed, target: u64)
    requires DriverAnswer(s, head, target).Some?
    ensures var d := RunOf(s, head, target).state;
            Cursor.Ready(d.cursor) && EndsByRule(s.env, target, d, DriverAnswer(s, head, target).value)
  {
    Cursor.StartShowsTip(s.channelTimeout, s.origin, FirstTip(s, head));
    var start := StartOf(s, head, target);
    StartHeading(s.env, target, start);
    hide Cursor.Start, Run, EndsByRule, Heading, Passes;
    RunEndsByRule(s.env, target, start, Passes(s, head, target));
  }

  /**
   * The source runs dry on the starting head: the pipeline and the executor answer with nothing but payloads that fail
   * before Holocene, and then with the end of the source.
   */
  ghost predicate RunsDry(s: Setup, head: Sealed) {
    exists m: nat :: Barren(s.env, s.info, head, [], m)
  }

  /** A source that runs dry decides the answer, whatever else the components would do. */
  lemma DryAnswer(s: Setup, head: Sealed, target: u64)
    requires s.info.blockInfo.number < target && RunsDry(s, head)
    ensures DriverAnswer(s, head, target) == Some(Unmoved(s)) && EndsFirst(TraceOf(s, head, target))
  {
    Cursor.StartShowsTip(s.channelTimeout, s.origin, FirstTip(s, head));
    var start := StartOf(s, head, target);
    var m: nat :| Barren(s.env, s.info, head, [], m);
    assert !HasCommit([]);
    hide Run, Cursor.Start, Passes, Barren, Exhausted, HasCommit;
    BarrenRuns(s.env, start, m);
    RunOfIs(s, head, target, m + 2);
  }

  /** A run above its start ends by exhaustion before any commit exactly when its source runs dry on the start. */
  lemma EndsFirstIff(s: Setup, head: Sealed, target: u64)
    requires s.info.blockInfo.number < target
    ensures EndsFirst(TraceOf(s, head, target)) <==> RunsDry(s, head)
  {
    if EndsFirst(TraceOf(s, head, target)) {
      Cursor.StartShowsTip(s.channelTimeout, s.origin, FirstTip(s, head));
      var start := StartOf(s, head, target);
      StartHeading(s.env, target, start);
      RunUnrolls(s.env, start, 0);
      assert !HasCommit([]) && !Exhausted([]);
      hide Run, Cursor.Start, Barren, Exhausted, HasCommit, Heading;
      var m := EndsFirstBarren(s.env, target, start, Passes(s, head, target));
    } else if RunsDry(s, head) {
      DryAnswer(s, head, target);
    }
  }

  /** The source is empty from the start. */
  lemma EmptySourceAnswer(s: Setup, head: Sealed, target: u64)
    requires s.info.blockInfo.number < target
    requires s.env.produce([], s.info) == Err(Critical(EndOfSource))
    ensures RunsDry(s, head) && DriverAnswer(s, head, target) == Some(Unmoved(s))
  {
    assert Barren(s.env, s.info, head, [], 0);
    hide DriverAnswer;
    DryAnswer(s, head, target);
  }

  /**
   * When a successful answer rests on no execution: the target is not above the start, or the source runs dry on it
   * while interop is not active at the number of the starting block.
   */
  lemma UnexecutedIff(s: Setup, head: Sealed, target: u64)
    requires WellSetUp(s, head)
    ensures (&& DriverAnswer(s, head, target).Some? && DriverAnswer(s, head, target).value.Ok?
             && !HasCommit(TraceOf(s, head, target)))
       <==> (|| target <= s.info.blockInfo.number
             || (RunsDry(s, head) && !InteropActive(s.env.forks, s.info.blockInfo.number)))
  {
    var t := TraceOf(s, head, target);
    assert !HasCommit([]);
    hide DriverAnswer, TraceOf, HasCommit, Exhausted, OriginsAscend, BuildsOnHead, RunsDry;
    if target <= s.info.blockInfo.number {
      AnswerAtSafeHead(s, head, target);
    } else {
      EndsFirstIff(s, head, target);
      if RunsDry(s, head) {
        DryAnswer(s, head, target);
      } else if DriverAnswer(s, head, target).Some? && DriverAnswer(s, head, target).value.Ok? && !HasCommit(t) {
        DerivedNumber(s, head, target);
        AnswerRoot(s, head, target);
      }
    }
  }

  /** On the way to the very next block the end of the source always comes before the first commit. */
  lemma NextBlockExhaustion(s: Setup, head: Sealed)
    requires WellSetUp(s, head) && s.info.blockInfo.number < U64_MAX
    requires DriverAnswer(s, head, s.info.blockInfo.number + 1).Some?
    ensures Exhausted(TraceOf(s, head, s.info.blockInfo.number + 1)) <==> RunsDry(s, head)
  {
    var target := s.info.blockInfo.number + 1;
    AnswerByRule(s, head, target);
    CommittedIffAdvanced(s, head, target);
    EndsFirstIff(s, head, target);
    hide RunOf, Exhausted, HasCommit, OriginsAscend, BuildsOnHead, AtTheEnd, RunsDry;
  }

  // ---------------------------------------------------------------------------------------------
  // A source that ends short of the target

  /** After some passes the run stands below its target and the source has nothing more. */
  ghost predicate FallsShort(s: Setup, head: Sealed, target: u64) {
    Cursor.StartShowsTip(s.channelTimeout, s.origin, FirstTip(s, head));
    exists k: nat :: ShortAfter(s.env, target, StartOf(s, head, target), k)
  }

  /** The run met the end of its source exactly when it came to stand short of its target. */
  lemma ExhaustedIff(s: Setup, head: Sealed, target: u64)
    ensures Exhausted(TraceOf(s, head, target)) <==> FallsShort(s, head, target)
    ensures FallsShort(s, head, target) ==> DriverAnswer(s, head, target).Some?
  {
    Cursor.StartShowsTip(s.channelTimeout, s.origin, FirstTip(s, head));
    var start := StartOf(s, head, target);
    StartHeading(s.env, target, start);
    RunUnrolls(s.env, start, 0);
    assert !Exhausted([]);
    hide Run, Cursor.Start, Exhausted, Heading, ShortAfter;
    if FallsShort(s, head, target) {
      var k: nat :| ShortAfter(s.env, target, start, k);
      ShortEnds(s.env, target, start, k);
      RunOfIs(s, head, target, k + 2);
    } else if Exhausted(TraceOf(s, head, target)) {
      var k := ExhaustedShort(s.env, target, start, Passes(s, head, target));
    }
  }

  /**
   * When a successful answer carries the executor's root of the target block itself: exactly when the target is above
   * the start and the source does not fall short of it.
   */
  lemma TargetRootIff(s: Setup, head: Sealed, target: u64)
    requires WellSetUp(s, head)
    requires DriverAnswer(s, head, target).Some? && DriverAnswer(s, head, target).value.Ok?
    ensures var t, (h, r) := TraceOf(s, head, target), DriverAnswer(s, head, target).value.value;
            HasCommit(t) && RootOfLastCommit(s.env, t, h, r) && h.blockInfo.number == target
            <==> s.info.blockInfo.number < target && !FallsShort(s, head, target)
  {
    assert !HasCommit([]);
    hide DriverAnswer, TraceOf, HasCommit, Exhausted, OriginsAscend, BuildsOnHead, FallsShort, RootOfLastCommit;
    DerivedNumber(s, head, target);
    AnswerRoot(s, head, target);
    ExhaustedIff(s, head, target);
    if target <= s.info.blockInfo.number {
      AnswerAtSafeHead(s, head, target);
    }
  }
}
