/**
 * The derivation driver: it asks the pipeline for payload attributes, executes them on the current safe head,
 * retries a failed block as a deposit-only block once Holocene is active, and advances the cursor.
 *
 * The pipeline and the executor are arbitrary: each answer is a function of every call made so far, so a statement
 * about all environments is a statement about all behaviours of both components.
 */
module Driver {
  import opened Prelude
  import opened Forks
  import opened Blocks
  import Cursor

  const DEPOSIT_TX_TYPE: byte := 0x7E

  datatype Attributes = Attributes(timestamp: u64, transactions: Option<seq<Bytes>>, content: nat)

  datatype Outcome = Outcome(header: Sealed, result: nat)

  datatype Artifacts = Artifacts(outcome: Outcome, transactions: seq<Bytes>)

  datatype Tx = Tx(kind: byte, input: Bytes, content: nat)

  datatype PipelineError = EndOfSource | MissingOrigin | OtherPipelineError(code: nat)

  datatype PipelineErrorKind = Temporary(code: nat) | Reset(code: nat) | Critical(error: PipelineError)

  datatype FromBlockError = InvalidGenesisHash | MissingL1InfoDeposit(hash: Hash) | FirstTxNonDeposit(kind: byte)
                          | BlockInfoDecodeError(code: nat)

  datatype DriverError = Pipeline(kind: PipelineErrorKind) | Executor(code: nat) | FromBlock(cause: FromBlockError)
                       | Rlp(code: nat)

  /** One call to the pipeline or the executor with its answer, or the commit that closes a pass. */
  datatype Event =
    | Produced(head: L2BlockInfo, payload: Result<Attributes, PipelineErrorKind>)
    | SafeHeadUpdated(header: Sealed)
    | Executed(attributes: Attributes, built: Result<Outcome, nat>)
    | Flushed(ack: Result<(), PipelineErrorKind>)
    | OriginRead(origin: Option<BlockInfo>)
    | RootComputed(root: Result<Hash, nat>)
    | Committed(at: BlockInfo, tip: TipCursor, artifacts: Artifacts)

  type Trace = seq<Event>

  datatype Env = Env(
    forks: HardForks,
    genesisL1: BlockId,
    genesisL2: BlockId,
    produce: (Trace, L2BlockInfo) -> Result<Attributes, PipelineErrorKind>,
    flushChannel: Trace -> Result<(), PipelineErrorKind>,
    origin: Trace -> Option<BlockInfo>,
    execute: (Trace, Attributes) -> Result<Outcome, nat>,
    outputRoot: Trace -> Result<Hash, nat>,
    decodeTx: Bytes -> Result<Tx, nat>,
    decodeL1Info: Bytes -> Result<(BlockId, u64), nat>,
    hashHeader: Header -> Hash)

  // ---------------------------------------------------------------------------------------------
  // Deposit-only retry

  predicate IsDeposit(tx: Bytes) {
    tx != [] && tx[0] == DEPOSIT_TX_TYPE
  }

  function Deposits(txs: seq<Bytes>): seq<Bytes> {
    if txs == [] then []
    else (if IsDeposit(txs[0]) then [txs[0]] else []) + Deposits(txs[1..])
  }

  function DepositOnly(attributes: Attributes): Attributes {
    attributes.(transactions := match attributes.transactions
                                case None => None
                                case Some(txs) => Some(Deposits(txs)))
  }

  // ---------------------------------------------------------------------------------------------
  // One pass of the loop

  function Transactions(attributes: Attributes): seq<Bytes> {
    if attributes.transactions.Some? then attributes.transactions.value else []
  }

  function DecodeAll(env: Env, txs: seq<Bytes>): Result<seq<Tx>, nat> {
    if txs == [] then Ok([])
    else
      match env.decodeTx(txs[0])
      case Err(e) => Err(e)
      case Ok(tx) =>
        match DecodeAll(env, txs[1..])
        case Err(e) => Err(e)
        case Ok(rest) => Ok([tx] + rest)
  }

  function BlockInfoOf(env: Env, header: Header): BlockInfo {
    BlockInfo(env.hashHeader(header), header.number, header.parentHash, header.timestamp)
  }

  function FromBlockAndGenesis(env: Env, header: Header, txs: seq<Tx>): Result<L2BlockInfo, FromBlockError> {
    var info := BlockInfoOf(env, header);
    if info.number == env.genesisL2.number then
      if info.hash != env.genesisL2.hash then Err(InvalidGenesisHash)
      else Ok(L2BlockInfo(info, env.genesisL1, 0))
    else if txs == [] then Err(MissingL1InfoDeposit(info.hash))
    else if txs[0].kind != DEPOSIT_TX_TYPE then Err(FirstTxNonDeposit(txs[0].kind))
    else
      match env.decodeL1Info(txs[0].input)
      case Err(e) => Err(BlockInfoDecodeError(e))
      case Ok((l1, seqNum)) => Ok(L2BlockInfo(info, l1, seqNum))
  }

  datatype State = State(
    cursor: Cursor.State, artifacts: Option<Artifacts>, target: Option<u64>, trace: Trace)

  type Answer = Result<(L2BlockInfo, Hash), DriverError>

  /** What one pass of the loop leads to: another pass, or a return. */
  datatype Control = Next(state: State) | Done(state: State, answer: Answer)

  /** Set the executor's safe head and run the payload on it. */
  function Attempt(env: Env, trace: Trace, head: Sealed, attributes: Attributes): (Trace, Result<Outcome, nat>) {
    var updated := trace + [SafeHeadUpdated(head)];
    var built := env.execute(updated, attributes);
    (updated + [Executed(attributes, built)], built)
  }

  datatype Execution =
    | Built(trace: Trace, attributes: Attributes, outcome: Outcome)
    | Discarded(trace: Trace)
    | Failed(trace: Trace, error: DriverError)

  function Execute(env: Env, trace: Trace, head: Sealed, attributes: Attributes): Execution {
    match Attempt(env, trace, head, attributes)
    case (tried, Ok(outcome)) => Built(tried, attributes, outcome)
    case (tried, Err(_)) =>
      if !HoloceneActive(env.forks, attributes.timestamp) then Discarded(tried)
      else Retry(env, tried, head, attributes)
  }

  function Retry(env: Env, trace: Trace, head: Sealed, attributes: Attributes): Execution {
    var ack := env.flushChannel(trace);
    var flushed := trace + [Flushed(ack)];
    match ack
    case Err(e) => Failed(flushed, Pipeline(e))
    case Ok(_) =>
      match Attempt(env, flushed, head, DepositOnly(attributes))
      case (tried, Ok(outcome)) => Built(tried, DepositOnly(attributes), outcome)
      case (tried, Err(e)) => Failed(tried, Executor(e))
  }

  function Commit(env: Env, s: State, trace: Trace, attributes: Attributes, outcome: Outcome): Control
    requires Cursor.Ready(s.cursor)
  {
    match DecodeAll(env, Transactions(attributes))
    case Err(e) => Done(s.(trace := trace), Err(Rlp(e)))
    case Ok(txs) =>
      var origin := env.origin(trace);
      var read := trace + [OriginRead(origin)];
      match origin
      case None => Done(s.(trace := read), Err(Pipeline(Critical(MissingOrigin))))
      case Some(at) =>
        match FromBlockAndGenesis(env, outcome.header.inner, txs)
        case Err(e) => Done(s.(trace := read), Err(FromBlock(e)))
        case Ok(info) =>
          var root := env.outputRoot(read);
          var rooted := read + [RootComputed(root)];
          match root
          case Err(e) => Done(s.(trace := rooted), Err(Executor(e)))
          case Ok(r) =>
            var tip := TipCursor(info, outcome.header, r);
            var artifacts := Artifacts(outcome, Transactions(attributes));
            Next(State(Cursor.Advance(s.cursor, at, tip), Some(artifacts), s.target,
                       rooted + [Committed(at, tip, artifacts)]))
  }

  function Step(env: Env, s: State): Control
    requires Cursor.Ready(s.cursor)
  {
    var tip := Cursor.Tip(s.cursor);
    var head := tip.l2SafeHead;
    if s.target.Some? && head.blockInfo.number >= s.target.value then Done(s, Ok((head, tip.outputRoot)))
    else
      var payload := env.produce(s.trace, head);
      var trace := s.trace + [Produced(head, payload)];
      match payload
      case Ok(attributes) =>
        (match Execute(env, trace, tip.header, attributes)
         case Built(built, executed, outcome) => Commit(env, s, built, executed, outcome)
         case Discarded(tried) => Next(s.(trace := tried))
         case Failed(tried, e) => Done(s.(trace := tried), Err(e)))
      case Err(e) =>
        if e != Critical(EndOfSource) then Done(s.(trace := trace), Err(Pipeline(e)))
        else
          var lowered := if s.target.Some? then Some(head.blockInfo.number) else None;
          var s' := s.(trace := trace, target := lowered);
          // The block number, not a timestamp, is what reaches the interop check.
          if InteropActive(env.forks, head.blockInfo.number) then Done(s', Err(Pipeline(Critical(EndOfSource))))
          else Next(s')
  }

  /** At most `n` passes of the loop from `s`. */
  function Run(env: Env, s: State, n: nat): Control
    requires Cursor.Ready(s.cursor)
    decreases n
  {
    if n == 0 then Next(s)
    else
      match Step(env, s)
      case Done(d, answer) => Done(d, answer)
      case Next(s') => StepKeepsReady(env, s); Run(env, s', n - 1)
  }

  lemma StepKeepsReady(env: Env, s: State)
    requires Cursor.Ready(s.cursor)
    ensures Cursor.Ready(Step(env, s).state.cursor)
  {
    forall at, tip
      ensures Cursor.Ready(Cursor.Advance(s.cursor, at, tip))
    {
      Cursor.AdvanceKeepsReady(s.cursor, at, tip);
    }
  }

  /** A run unrolled by its first pass. */
  lemma RunUnrolls(env: Env, s: State, n: nat)
    requires Cursor.Ready(s.cursor)
    ensures Run(env, s, 0) == Next(s)
    ensures Cursor.Ready(Step(env, s).state.cursor)
    ensures n > 0 && Step(env, s).Next? ==> Run(env, s, n) == Run(env, Step(env, s).state, n - 1)
    ensures n > 0 && Step(env, s).Done? ==> Run(env, s, n) == Step(env, s)
  {
    StepKeepsReady(env, s);
  }

  /** A run that has returned is not changed by allowing more passes. */
  lemma {:induction false} RunStays(env: Env, s: State, m: nat, n: nat)
    requires Cursor.Ready(s.cursor) && Run(env, s, m).Done? && m <= n
    ensures Run(env, s, n) == Run(env, s, m)
    decreases m
  {
    hide Step, Run;
    RunUnrolls(env, s, m);
    RunUnrolls(env, s, n);
    if Step(env, s).Next? {
      RunStays(env, Step(env, s).state, m - 1, n - 1);
    }
  }
}
