/** Consolidation of derived payload attributes with a block of the execution layer. */
module AttributesMatch {
  import opened Prelude
  import opened Forks

  type Tx = nat
  type Address = nat

  /** The four-byte denominator and the four-byte elasticity, big-endian. */
  type Params = p: Bytes | |p| == 8 witness [0, 0, 0, 0, 0, 0, 0, 0]

  /** The root of an empty trie. */
  const EMPTY_ROOT_HASH: Hash := 0x56e81f171bcc55a6ff8345e692c0f86e5b48e01b996cadc001622fb5e363b421

  datatype Attributes = Attributes(
    parentHash: Hash, timestamp: u64, prevRandao: Hash, transactions: Option<seq<Bytes>>, gasLimit: Option<u64>,
    withdrawals: Option<seq<nat>>, parentBeaconRoot: Option<Hash>, feeRecipient: Address, eip1559: Option<Params>)

  datatype BlockTransactions = Full(txs: seq<Tx>) | Hashes(hashes: seq<Hash>) | Uncle

  datatype Block = Block(
    parentHash: Hash, timestamp: u64, mixHash: Hash, gasLimit: u64, withdrawalsRoot: Option<Hash>,
    parentBeaconRoot: Option<Hash>, beneficiary: Address, extraData: Bytes,
    transactions: BlockTransactions, withdrawals: Option<seq<nat>>)

  datatype Config = Config(
    forks: HardForks, canyonDenominator: u64, elasticity: u64,
    decodeTx: Bytes -> Option<Tx>, txHash: Tx -> Hash)

  /** Elasticity multiplier and maximum change denominator. */
  datatype FeeParams = FeeParams(elasticity: nat, denominator: nat)

  datatype ParamError = InvalidVersion(version: byte) | InvalidExtraDataLength

  datatype Mismatch =
    | ParentHash(Hash, Hash)
    | Timestamp(u64, u64)
    | PrevRandao(Hash, Hash)
    | MalformedBlockTransactions
    | MalformedAttributesTransaction
    | TransactionLen(nat, nat)
    | TransactionContent(Hash, Hash)
    | MissingAttributesEip1559
    | MissingBlockEip1559
    | InvalidExtraDataVersion
    | UnknownExtraDataDecodingError(ParamError)
    | InvalidEip1559ParamsCombination
    | Eip1559Parameters(FeeParams, FeeParams)
    | GasLimit(u64, u64)
    | MissingAttributesGasLimit
    | FeeRecipient(Address, Address)
    | ParentBeaconBlockRoot(Option<Hash>, Option<Hash>)
    | CanyonWithdrawalsNotEmpty
    | CanyonNotEmptyHash
    | BedrockWithdrawals
    | IsthmusMissingWithdrawalsRoot

  /** The mismatch found, or none when everything matches. */
  type Check = Option<Mismatch>

  // ---------------------------------------------------------------------------------------------
  // The checks, in the order they are made

  function CheckWithdrawals(cfg: Config, a: Attributes, b: Block): Check {
    if CanyonActive(cfg.forks, b.timestamp) then
      if a.withdrawals.None? || a.withdrawals.value != [] then Some(CanyonWithdrawalsNotEmpty)
      else if b.withdrawals.None? || b.withdrawals.value != [] then Some(CanyonWithdrawalsNotEmpty)
      else if !IsthmusActive(cfg.forks, b.timestamp) then
        if b.withdrawalsRoot != Some(EMPTY_ROOT_HASH) then Some(CanyonNotEmptyHash) else None
      else if b.withdrawalsRoot.None? then Some(IsthmusMissingWithdrawalsRoot)
      else None
    else if a.withdrawals.Some? then Some(BedrockWithdrawals)
    else if IsthmusActive(cfg.forks, b.timestamp) && b.withdrawalsRoot.None? then Some(IsthmusMissingWithdrawalsRoot)
    else None
  }

  function CheckContents(cfg: Config, attrs: seq<Bytes>, txs: seq<Tx>): Check
    requires |attrs| == |txs|
    decreases |attrs|
  {
    if attrs == [] then None
    else
      match cfg.decodeTx(attrs[0])
      case None => Some(MalformedAttributesTransaction)
      case Some(tx) =>
        if tx != txs[0] then Some(TransactionContent(cfg.txHash(tx), cfg.txHash(txs[0])))
        else CheckContents(cfg, attrs[1..], txs[1..])
  }

  function CheckTransactions(cfg: Config, attrs: seq<Bytes>, b: Block): Check {
    match b.transactions
    case Uncle => Some(MalformedBlockTransactions)
    case Hashes(hashes) => if attrs == [] && hashes == [] then None else Some(MalformedBlockTransactions)
    case Full(txs) =>
      if attrs == [] && txs == [] then None
      else if |attrs| != |txs| then Some(TransactionLen(|attrs|, |txs|))
      else CheckContents(cfg, attrs, txs)
  }

  function DecodeParams(p: Params): FeeParams {
    FeeParams(BigEndian(p[4..8]), BigEndian(p[0..4]))
  }

  function DecodeHolocene(extra: Bytes): Result<FeeParams, ParamError> {
    if |extra| != 9 then Err(InvalidExtraDataLength)
    else if extra[0] != 0 then Err(InvalidVersion(extra[0]))
    else Ok(DecodeParams(extra[1..9]))
  }

  function DecodeJovian(extra: Bytes): Result<FeeParams, ParamError> {
    if |extra| != 17 then Err(InvalidExtraDataLength)
    else if extra[0] != 1 then Err(InvalidVersion(extra[0]))
    else Ok(DecodeParams(extra[1..9]))
  }

  function CheckEip1559(cfg: Config, a: Attributes, b: Block): Check {
    match a.eip1559
    case None => if HoloceneActive(cfg.forks, b.timestamp) then Some(MissingAttributesEip1559) else None
    case Some(params) =>
      var given := DecodeParams(params);
      if given.elasticity == 0 && given.denominator != 0 then Some(InvalidEip1559ParamsCombination)
      else
        var wanted := if given == FeeParams(0, 0) then FeeParams(cfg.elasticity, cfg.canyonDenominator) else given;
        if JovianActive(cfg.forks, b.timestamp) then CompareFees(wanted, DecodeJovian(b.extraData))
        else if HoloceneActive(cfg.forks, b.timestamp) then CompareFees(wanted, DecodeHolocene(b.extraData))
        else Some(MissingBlockEip1559)
  }

  function CompareFees(wanted: FeeParams, decoded: Result<FeeParams, ParamError>): Check {
    match decoded
    case Err(InvalidVersion(_)) => Some(InvalidExtraDataVersion)
    case Err(e) => Some(UnknownExtraDataDecodingError(e))
    case Ok(found) => if wanted != found then Some(Eip1559Parameters(wanted, found)) else None
  }

  function AttributeTransactions(a: Attributes): seq<Bytes> {
    if a.transactions.Some? then a.transactions.value else []
  }

  function CheckMatch(cfg: Config, a: Attributes, b: Block): Check {
    if a.parentHash != b.parentHash then Some(ParentHash(a.parentHash, b.parentHash))
    else if a.timestamp != b.timestamp then Some(Timestamp(a.timestamp, b.timestamp))
    else if a.prevRandao != b.mixHash then Some(PrevRandao(a.prevRandao, b.mixHash))
    else if CheckTransactions(cfg, AttributeTransactions(a), b).Some? then
      CheckTransactions(cfg, AttributeTransactions(a), b)
    else if a.gasLimit.None? then Some(MissingAttributesGasLimit)
    else if a.gasLimit.value != b.gasLimit then Some(GasLimit(a.gasLimit.value, b.gasLimit))
    else if CheckWithdrawals(cfg, a, b).Some? then CheckWithdrawals(cfg, a, b)
    else if a.parentBeaconRoot != b.parentBeaconRoot then
      Some(ParentBeaconBlockRoot(a.parentBeaconRoot, b.parentBeaconRoot))
    else if a.feeRecipient != b.beneficiary then Some(FeeRecipient(a.feeRecipient, b.beneficiary))
    else CheckEip1559(cfg, a, b)
  }

  // ---------------------------------------------------------------------------------------------
  // What a match means

  /** The transactions a block carries in a form that can be compared; an empty list of hashes counts as none. */
  function Carried(b: Block): Option<seq<Tx>> {
    match b.transactions
    case Full(txs) => Some(txs)
    case Hashes(hashes) => if hashes == [] then Some([]) else None
    case Uncle => None
  }

  /** The transactions that encoded attributes stand for, if all of them decode. */
  function DecodedList(cfg: Config, attrs: seq<Bytes>): Option<seq<Tx>> {
    if attrs == [] then Some([])
    else
      match (cfg.decodeTx(attrs[0]), DecodedList(cfg, attrs[1..]))
      case (Some(tx), Some(rest)) => Some([tx] + rest)
      case _ => None
  }

  predicate WithdrawalsMatch(cfg: Config, a: Attributes, b: Block) {
    if CanyonActive(cfg.forks, b.timestamp) then
      && a.withdrawals == Some([]) && b.withdrawals == Some([])
      && (if IsthmusActive(cfg.forks, b.timestamp) then b.withdrawalsRoot.Some?
          else b.withdrawalsRoot == Some(0x56e81f171bcc55a6ff8345e692c0f86e5b48e01b996cadc001622fb5e363b421))
    else
      a.withdrawals == None
  }

  /** The eight parameter bytes a header stores: after version 0 for Holocene, after version 1 for Jovian. */
  predicate HeaderStores(cfg: Config, b: Block, params: Params) {
    if JovianActive(cfg.forks, b.timestamp) then |b.extraData| == 17 && b.extraData[..9] == [1] + params
    else HoloceneActive(cfg.forks, b.timestamp) && b.extraData == [0] + params
  }

  /** The parameters the attributes ask for; all-zero stands for the Canyon constants, which may not fit. */
  function Wanted(cfg: Config, params: Params): Option<Params> {
    if params == [0, 0, 0, 0, 0, 0, 0, 0] then
      if cfg.canyonDenominator < 0x1_0000_0000 && cfg.elasticity < 0x1_0000_0000 then
        Some(Word(cfg.canyonDenominator) + Word(cfg.elasticity))
      else None
    else if params[4..8] == [0, 0, 0, 0] then None
    else Some(params)
  }

  /** Four bytes, big-endian. */
  function Word(n: nat): (b: Bytes)
    ensures |b| == 4
  {
    [n / 256 / 256 / 256 % 256, n / 256 / 256 % 256, n / 256 % 256, n % 256]
  }

  predicate FeesMatch(cfg: Config, a: Attributes, b: Block) {
    match a.eip1559
    case None => !HoloceneActive(cfg.forks, b.timestamp)
    case Some(params) => Wanted(cfg, params).Some? && HeaderStores(cfg, b, Wanted(cfg, params).value)
  }

  predicate Matches(cfg: Config, a: Attributes, b: Block) {
    && a.parentHash == b.parentHash
    && a.timestamp == b.timestamp
    && a.prevRandao == b.mixHash
    && (match a.transactions
        case None => Carried(b) == Some([])
        case Some(txs) => DecodedList(cfg, txs).Some? && Carried(b) == DecodedList(cfg, txs))
    && a.gasLimit == Some(b.gasLimit)
    && WithdrawalsMatch(cfg, a, b)
    && a.parentBeaconRoot == b.parentBeaconRoot
    && a.feeRecipient == b.beneficiary
    && FeesMatch(cfg, a, b)
  }

  // ---------------------------------------------------------------------------------------------
  // Transactions

  lemma {:induction false} ContentsExact(cfg: Config, attrs: seq<Bytes>, txs: seq<Tx>)
    requires |attrs| == |txs|
    ensures CheckContents(cfg, attrs, txs).None? <==> DecodedList(cfg, attrs) == Some(txs)
    decreases |attrs|
  {
    if attrs != [] {
      ContentsExact(cfg, attrs[1..], txs[1..]);
      assert txs == [txs[0]] + txs[1..];
    }
  }

  lemma {:induction false} DecodedLength(cfg: Config, attrs: seq<Bytes>)
    ensures DecodedList(cfg, attrs).Some? ==> |DecodedList(cfg, attrs).value| == |attrs|
    decreases |attrs|
  {
    if attrs != [] {
      DecodedLength(cfg, attrs[1..]);
    }
  }

  lemma TransactionsExact(cfg: Config, attrs: seq<Bytes>, b: Block)
    ensures CheckTransactions(cfg, attrs, b).None?
       <==> DecodedList(cfg, attrs).Some? && Carried(b) == DecodedList(cfg, attrs)
  {
    DecodedLength(cfg, attrs);
    if b.transactions.Full? && |attrs| == |b.transactions.txs| {
      ContentsExact(cfg, attrs, b.transactions.txs);
    }
  }

  // ---------------------------------------------------------------------------------------------
  // Fee parameters

  function Joined(a: nat, b: nat, c: nat, d: nat): nat {
    ((a * 256 + b) * 256 + c) * 256 + d
  }

  lemma BigEndian4(b: Bytes)
    requires |b| == 4
    ensures BigEndian(b) == Joined(b[0], b[1], b[2], b[3])
  {
    var b0: nat, b1: nat, b2: nat := b[0], b[1], b[2];
    assert b[..3][..2] == b[..2] && b[..2][..1] == b[..1] && b[..1][..0] == [];
    assert BigEndian(b[..1]) == b0;
    assert BigEndian(b[..2]) == b0 * 256 + b1;
    assert BigEndian(b[..3]) == (b0 * 256 + b1) * 256 + b2;
  }

  /** Four bytes are determined by their value. */
  lemma BigEndianInjective(a: Bytes, b: Bytes)
    requires |a| == |b| == 4
    ensures BigEndian(a) == BigEndian(b) <==> a == b
  {
    BigEndian4(a);
    BigEndian4(b);
    hide BigEndian;
    if BigEndian(a) == BigEndian(b) {
      assert a[0] == b[0] && a[1] == b[1] && a[2] == b[2] && a[3] == b[3];
    }
  }

  lemma WordValue(n: nat)
    requires n < 0x1_0000_0000
    ensures BigEndian(Word(n)) == n
  {
    BigEndian4(Word(n));
    hide BigEndian;
    var q1, q2, q3 := n / 256, n / 256 / 256, n / 256 / 256 / 256;
    assert n == q1 * 256 + n % 256 && q1 == q2 * 256 + q1 % 256 && q2 == q3 * 256 + q2 % 256;
    assert q3 < 256;
  }

  lemma ParamsInjective(p: Params, q: Params)
    ensures DecodeParams(p) == DecodeParams(q) <==> p == q
  {
    BigEndianInjective(p[0..4], q[0..4]);
    BigEndianInjective(p[4..8], q[4..8]);
    hide BigEndian;
    assert p == p[0..4] + p[4..8] && q == q[0..4] + q[4..8];
  }

  /** The header's parameters equal the wanted ones exactly when it stores their bytes after the right version. */
  lemma CompareExact(cfg: Config, b: Block, params: Params)
    requires HoloceneActive(cfg.forks, b.timestamp)
    ensures var decoded := if JovianActive(cfg.forks, b.timestamp) then DecodeJovian(b.extraData)
                           else DecodeHolocene(b.extraData);
            CompareFees(DecodeParams(params), decoded).None? <==> HeaderStores(cfg, b, params)
  {
    if |b.extraData| >= 9 {
      ParamsInjective(params, b.extraData[1..9]);
      assert b.extraData[..9] == [b.extraData[0]] + b.extraData[1..9];
      assert |b.extraData| == 9 ==> b.extraData[..9] == b.extraData;
    }
    hide DecodeParams, HoloceneActive, JovianActive;
  }

  /** A constant beyond 32 bits equals no decoded parameter. */
  lemma DecodedFits(p: Params)
    ensures DecodeParams(p).elasticity < 0x1_0000_0000 && DecodeParams(p).denominator < 0x1_0000_0000
  {
    BigEndian4(p[0..4]);
    BigEndian4(p[4..8]);
  }

  lemma ZeroParams(p: Params)
    ensures DecodeParams(p).elasticity == 0 <==> p[4..8] == [0, 0, 0, 0]
    ensures DecodeParams(p) == FeeParams(0, 0) <==> p == [0, 0, 0, 0, 0, 0, 0, 0]
  {
    BigEndian4([0, 0, 0, 0]);
    BigEndianInjective(p[4..8], [0, 0, 0, 0]);
    BigEndianInjective(p[0..4], [0, 0, 0, 0]);
    hide BigEndian;
    assert p == p[0..4] + p[4..8];
  }

  lemma CanyonWords(d: nat, e: nat)
    requires d < 0x1_0000_0000 && e < 0x1_0000_0000
    ensures DecodeParams(Word(d) + Word(e)) == FeeParams(e, d)
  {
    WordValue(d);
    WordValue(e);
    hide BigEndian, Word;
    assert (Word(d) + Word(e))[0..4] == Word(d) && (Word(d) + Word(e))[4..8] == Word(e);
  }

  lemma FeesExact(cfg: Config, a: Attributes, b: Block)
    ensures CheckEip1559(cfg, a, b).None? <==> FeesMatch(cfg, a, b)
  {
    if a.eip1559.Some? {
      var p := a.eip1559.value;
      ZeroParams(p);
      if !HoloceneActive(cfg.forks, b.timestamp) {
      } else if Wanted(cfg, p).Some? {
        if p == [0, 0, 0, 0, 0, 0, 0, 0] {
          CanyonWords(cfg.canyonDenominator, cfg.elasticity);
        }
        CompareExact(cfg, b, Wanted(cfg, p).value);
      } else if |b.extraData| >= 9 {
        DecodedFits(b.extraData[1..9]);
      }
      hide DecodeParams, Word, HeaderStores, HoloceneActive, JovianActive;
    }
  }

  // ---------------------------------------------------------------------------------------------
  // The main results

  lemma WithdrawalsExact(cfg: Config, a: Attributes, b: Block)
    ensures CheckWithdrawals(cfg, a, b).None? <==> WithdrawalsMatch(cfg, a, b)
  {
  }

  /** The check reports a match exactly when the attributes match the block field by field. */
  lemma CheckExact(cfg: Config, a: Attributes, b: Block)
    ensures CheckMatch(cfg, a, b).None? <==> Matches(cfg, a, b)
  {
    TransactionsExact(cfg, AttributeTransactions(a), b);
    WithdrawalsExact(cfg, a, b);
    FeesExact(cfg, a, b);
    assert DecodedList(cfg, []) == Some([]);
    hide CheckTransactions, CheckWithdrawals, CheckEip1559, DecodedList, Carried, WithdrawalsMatch, FeesMatch;
  }

  /**
   * Two blocks that match the same attributes agree on every field the attributes fix and on their transactions, and
   * on the header bytes that hold the fee parameters when the attributes set them.
   */
  lemma MatchDetermines(cfg: Config, a: Attributes, b: Block, c: Block)
    requires CheckMatch(cfg, a, b).None? && CheckMatch(cfg, a, c).None?
    ensures b.parentHash == c.parentHash && b.timestamp == c.timestamp && b.mixHash == c.mixHash
    ensures b.gasLimit == c.gasLimit && b.parentBeaconRoot == c.parentBeaconRoot && b.beneficiary == c.beneficiary
    ensures Carried(b).Some? && Carried(b) == Carried(c)
    ensures CanyonActive(cfg.forks, b.timestamp) ==> b.withdrawals == c.withdrawals == Some([])
    ensures a.eip1559.Some? ==>
              && |b.extraData| >= 9 && |c.extraData| >= 9
              && b.extraData[..9] == c.extraData[..9]
              && (!JovianActive(cfg.forks, b.timestamp) ==> b.extraData == c.extraData)
  {
    CheckExact(cfg, a, b);
    CheckExact(cfg, a, c);
    hide CheckMatch, DecodedList, Word;
  }

  /**
   * Under Holocene and before Jovian: parameters with a non-zero elasticity match exactly the header data made of the
   * zero version byte and those eight bytes; all-zero parameters match exactly the encoded Canyon constants, and
   * nothing when a constant exceeds 32 bits; a zero elasticity with a non-zero denominator matches nothing.
   */
  lemma HoloceneFees(cfg: Config, a: Attributes, b: Block)
    requires HoloceneActive(cfg.forks, b.timestamp) && !JovianActive(cfg.forks, b.timestamp) && a.eip1559.Some?
    ensures var p := a.eip1559.value; var ok := CheckEip1559(cfg, a, b).None?;
            && (p[4..8] != [0, 0, 0, 0] ==> (ok <==> b.extraData == [0] + p))
            && (p == [0, 0, 0, 0, 0, 0, 0, 0] ==>
                  (ok <==> (&& cfg.canyonDenominator < 0x1_0000_0000 && cfg.elasticity < 0x1_0000_0000
                            && b.extraData == [0] + Word(cfg.canyonDenominator) + Word(cfg.elasticity))))
            && (p[4..8] == [0, 0, 0, 0] && p[0..4] != [0, 0, 0, 0] ==> !ok)
  {
    FeesExact(cfg, a, b);
    hide CheckEip1559, Word, HoloceneActive, JovianActive;
    assert [0] + (Word(cfg.canyonDenominator) + Word(cfg.elasticity))
        == [0] + Word(cfg.canyonDenominator) + Word(cfg.elasticity);
  }

  /** What a reported mismatch says of the two sides. */
  predicate Differs(cfg: Config, a: Attributes, b: Block, m: Mismatch) {
    match m
    case ParentHash(x, y) => x == a.parentHash && y == b.parentHash && x != y
    case Timestamp(x, y) => x == a.timestamp && y == b.timestamp && x != y
    case PrevRandao(x, y) => x == a.prevRandao && y == b.mixHash && x != y
    case MalformedBlockTransactions => !b.transactions.Full?
    case MalformedAttributesTransaction =>
      a.transactions.Some? && exists i :: 0 <= i < |a.transactions.value| && cfg.decodeTx(a.transactions.value[i]).None?
    case TransactionLen(x, y) =>
      && b.transactions.Full? && y == |b.transactions.txs| && x != y
      && x == if a.transactions.Some? then |a.transactions.value| else 0
    case TransactionContent(x, y) =>
      && a.transactions.Some? && b.transactions.Full? && |a.transactions.value| == |b.transactions.txs|
      && exists i ::
           && 0 <= i < |b.transactions.txs|
           && DiffersAt(cfg, a.transactions.value, b.transactions.txs, i, x, y)
    case MissingAttributesGasLimit => a.gasLimit == None
    case GasLimit(x, y) => a.gasLimit == Some(x) && y == b.gasLimit && x != y
    case FeeRecipient(x, y) => x == a.feeRecipient && y == b.beneficiary && x != y
    case ParentBeaconBlockRoot(x, y) => x == a.parentBeaconRoot && y == b.parentBeaconRoot && x != y
    case CanyonWithdrawalsNotEmpty => a.withdrawals != Some([]) || b.withdrawals != Some([])
    case CanyonNotEmptyHash => !IsthmusActive(cfg.forks, b.timestamp) && b.withdrawalsRoot != Some(EMPTY_ROOT_HASH)
    case BedrockWithdrawals => !CanyonActive(cfg.forks, b.timestamp) && a.withdrawals != None
    case IsthmusMissingWithdrawalsRoot => IsthmusActive(cfg.forks, b.timestamp) && b.withdrawalsRoot == None
    case MissingAttributesEip1559 => a.eip1559 == None && HoloceneActive(cfg.forks, b.timestamp)
    case _ => a.eip1559.Some? && FeesDiffer(cfg, a.eip1559.value, b, m)
  }

  /** The same for the mismatches in the fee parameters, where Holocene writes version 0 and Jovian version 1. */
  predicate FeesDiffer(cfg: Config, p: Params, b: Block, m: Mismatch) {
    var version: byte := if JovianActive(cfg.forks, b.timestamp) then 1 else 0;
    var length := if JovianActive(cfg.forks, b.timestamp) then 17 else 9;
    match m
    case InvalidEip1559ParamsCombination => p[4..8] == [0, 0, 0, 0] && p[0..4] != [0, 0, 0, 0]
    case MissingBlockEip1559 => !HoloceneActive(cfg.forks, b.timestamp)
    case InvalidExtraDataVersion => |b.extraData| == length && b.extraData[0] != version
    case UnknownExtraDataDecodingError(e) => e == InvalidExtraDataLength && |b.extraData| != length
    case Eip1559Parameters(x, y) =>
      && |b.extraData| == length && x != y
      && y == FeeParams(BigEndian(b.extraData[5..9]), BigEndian(b.extraData[1..5]))
      && x == (if p == [0, 0, 0, 0, 0, 0, 0, 0] then FeeParams(cfg.elasticity, cfg.canyonDenominator)
               else FeeParams(BigEndian(p[4..8]), BigEndian(p[0..4])))
    case _ => false
  }

  lemma FeeMismatchIsReal(cfg: Config, a: Attributes, b: Block)
    requires a.eip1559.Some? && CheckEip1559(cfg, a, b).Some?
    ensures FeesDiffer(cfg, a.eip1559.value, b, CheckEip1559(cfg, a, b).value)
  {
    var p, extra := a.eip1559.value, b.extraData;
    ZeroParams(p);
    if |extra| >= 9 {
      assert extra[1..9][4..8] == extra[5..9] && extra[1..9][0..4] == extra[1..5];
    }
    if p[4..8] == [0, 0, 0, 0] && p[0..4] == [0, 0, 0, 0] {
      assert p == p[0..4] + p[4..8];
    }
    hide BigEndian, HoloceneActive, JovianActive;
  }

  predicate DiffersAt(cfg: Config, attrs: seq<Bytes>, txs: seq<Tx>, i: nat, x: Hash, y: Hash) {
    && i < |attrs| && i < |txs|
    && cfg.decodeTx(attrs[i]).Some? && cfg.decodeTx(attrs[i]).value != txs[i]
    && x == cfg.txHash(cfg.decodeTx(attrs[i]).value) && y == cfg.txHash(txs[i])
  }

  lemma {:induction false} ContentsDiffer(cfg: Config, attrs: seq<Bytes>, txs: seq<Tx>) returns (i: nat)
    requires |attrs| == |txs| && CheckContents(cfg, attrs, txs).Some?
    ensures i < |attrs|
    ensures match CheckContents(cfg, attrs, txs).value
            case MalformedAttributesTransaction => cfg.decodeTx(attrs[i]).None?
            case TransactionContent(x, y) => DiffersAt(cfg, attrs, txs, i, x, y)
            case _ => false
    decreases |attrs|
  {
    i := 0;
    if cfg.decodeTx(attrs[0]).Some? && cfg.decodeTx(attrs[0]).value == txs[0] {
      var k := ContentsDiffer(cfg, attrs[1..], txs[1..]);
      i := k + 1;
    }
  }

  lemma TransactionsDiffer(cfg: Config, a: Attributes, b: Block)
    requires CheckTransactions(cfg, AttributeTransactions(a), b).Some?
    ensures Differs(cfg, a, b, CheckTransactions(cfg, AttributeTransactions(a), b).value)
  {
    var attrs := AttributeTransactions(a);
    if b.transactions.Full? && |attrs| == |b.transactions.txs| {
      var i := ContentsDiffer(cfg, attrs, b.transactions.txs);
      hide CheckContents;
    }
  }

  lemma WithdrawalsDiffer(cfg: Config, a: Attributes, b: Block)
    requires CheckWithdrawals(cfg, a, b).Some?
    ensures Differs(cfg, a, b, CheckWithdrawals(cfg, a, b).value)
  {
    hide IsthmusActive, CanyonActive;
  }

  /** A mismatch names two values that were compared and differ, or a rule that is broken. */
  lemma MismatchIsReal(cfg: Config, a: Attributes, b: Block)
    requires CheckMatch(cfg, a, b).Some?
    ensures Differs(cfg, a, b, CheckMatch(cfg, a, b).value)
  {
    if CheckTransactions(cfg, AttributeTransactions(a), b).Some? {
      TransactionsDiffer(cfg, a, b);
    }
    if a.eip1559.Some? && CheckEip1559(cfg, a, b).Some? {
      FeeMismatchIsReal(cfg, a, b);
      hide CheckEip1559;
    }
    if CheckWithdrawals(cfg, a, b).Some? {
      WithdrawalsDiffer(cfg, a, b);
    }
    hide CheckTransactions, CheckWithdrawals, FeesDiffer, AttributeTransactions;
  }
}
