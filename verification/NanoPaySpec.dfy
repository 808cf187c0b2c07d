/** The NanoPay payment channel as values: what one call of the payer
    (`NanoPay`) or of the recipient (`NanoPayClaimer`) does to its fields.
    Replies of the chain (height, balance, acceptance of a transaction), random
    ids and the outcome of signing are arguments. Amounts are unbounded integers;
    block heights are `uint32` and wrap around as in the program. */
module NanoPaySpec {
  import opened Wrappers

  const SENDER_EXPIRATION_DELTA: uint32 := 5
  const RECEIVER_EXPIRATION_DELTA: uint32 := 3

  type uint32 = x: int | 0 <= x < 0x1_0000_0000
  type Hash = nat

  function AddU32(a: uint32, b: uint32): uint32 {
    (a + b) % 0x1_0000_0000
  }

  datatype Error =
    | ErrRpc | ErrMalformed | ErrNotNanoPay | ErrWrongRecipient | ErrInvalidTx | ErrBadSender
    | ErrNanoPayClosed | ErrInvalidAmount | ErrInsufficientBalance | ErrExpiredNanoPayTxn | ErrExpiredNanoPay
    | ErrParse | ErrBuild | ErrSign

  /** What a transaction unpacks to; `None` hashes are byte strings of the wrong size. */
  datatype Payload =
    | Malformed
    | OtherPayload
    | NanoPayPayload(sender: Option<Hash>, recipient: Option<Hash>, id: nat, amount: int,
                     txnExpiration: uint32, nanoPayExpiration: uint32)

  datatype Tx = Tx(payload: Payload, fee: int)

  function Amt(tx: Tx): int {
    if tx.payload.NanoPayPayload? then tx.payload.amount else 0
  }

  function IdOf(tx: Tx): nat {
    if tx.payload.NanoPayPayload? then tx.payload.id else 0
  }

  // ---------------------------------------------------------------- payer

  datatype Terms = Terms(duration: uint32, fee: int, sender: Hash, recipient: Hash)
  datatype Payer = Payer(id: nat, amount: int, expiration: uint32)

  datatype FeeArgument = DefaultFee | ExplicitFee(parsed: Option<int>)

  /** One call of IncrementAmount together with everything its environment decides. */
  datatype Call = Call(height: Option<uint32>, freshId: nat, delta: Option<int>, fee: FeeArgument,
                       built: bool, signed: bool)

  /** A failed height request leaves the height at zero. */
  function SeenHeight(call: Call): uint32 {
    if call.height.Some? then call.height.value else 0
  }

  predicate Stuck(p: Payer, call: Call) {
    call.height.None? && p.expiration == 0
  }

  predicate RollsOver(p: Payer, call: Call) {
    !Stuck(p, call)
    && (p.expiration == 0 || p.expiration <= AddU32(SeenHeight(call), SENDER_EXPIRATION_DELTA))
  }

  function Rolled(terms: Terms, p: Payer, call: Call): Payer {
    if RollsOver(p, call)
    then Payer(call.freshId, 0, AddU32(SeenHeight(call), terms.duration))
    else p
  }

  function Increment(terms: Terms, p: Payer, call: Call): (Payer, Result<Tx, Error>) {
    if Stuck(p, call) then (p, Err(ErrRpc))
    else
      var rolled := Rolled(terms, p, call);
      if call.delta.None? then (rolled, Err(ErrParse))
      else
        var raised := rolled.(amount := rolled.amount + call.delta.value);
        (raised, Issue(terms, raised, call))
  }

  function Issue(terms: Terms, p: Payer, call: Call): Result<Tx, Error> {
    if !call.built then Err(ErrBuild)
    else if call.fee.ExplicitFee? && call.fee.parsed.None? then Err(ErrParse)
    else if !call.signed then Err(ErrSign)
    else Ok(Tx(NanoPayPayload(Some(terms.sender), Some(terms.recipient), p.id, p.amount, p.expiration, p.expiration),
               if call.fee.ExplicitFee? then call.fee.parsed.value else terms.fee))
  }

  // -------------------------------------------------------------- claimer

  datatype Config = Config(recipient: Hash, minFlush: int)

  datatype Claimer = Claimer(amount: int, closed: bool, expiration: uint32, id: Option<nat>,
                             prevClaimed: int, prevFlush: int, tx: Option<Tx>)

  const NEW_CLAIMER := Claimer(0, false, 0, None, 0, 0, None)

  /** The figure reported by `Amount()`. */
  function Total(c: Claimer): int {
    c.prevClaimed + c.amount
  }

  /** What the environment decides during one Claim. */
  datatype ClaimEnv = ClaimEnv(height: Option<uint32>, verified: bool, senderAddressOk: bool,
                               sendOk: bool, balance: Option<int>)

  function Shut(c: Claimer): Claimer {
    c.(closed := true)
  }

  datatype FlushResult = FlushResult(c: Claimer, error: Option<Error>, sent: Option<Tx>)

  function Flush(cfg: Config, c: Claimer, force: bool, sendOk: bool): FlushResult {
    if !force && c.amount - c.prevFlush < cfg.minFlush then FlushResult(c, None, None)
    else if c.tx.None? then FlushResult(c, None, None)
    else match c.tx.value.payload
      case Malformed => FlushResult(Shut(c), Some(ErrMalformed), None)
      case OtherPayload => FlushResult(Shut(c), Some(ErrNotNanoPay), None)
      case NanoPayPayload(_, _, _, amount, _, _) =>
        if !sendOk then FlushResult(c, Some(ErrRpc), None)
        else FlushResult(c.(tx := None, expiration := 0, prevFlush := amount), None, c.tx)
  }

  /** The checks made before the lock is taken; each failure closes the claimer. */
  function Vet(cfg: Config, env: ClaimEnv, tx: Tx): Option<Error> {
    match tx.payload
    case Malformed => Some(ErrMalformed)
    case OtherPayload => Some(ErrNotNanoPay)
    case NanoPayPayload(sender, recipient, _, _, _, _) =>
      if recipient.None? then Some(ErrMalformed)
      else if recipient.value != cfg.recipient then Some(ErrWrongRecipient)
      else if !env.verified then Some(ErrInvalidTx)
      else if sender.None? || !env.senderAddressOk then Some(ErrBadSender)
      else None
  }

  datatype ClaimResult = ClaimResult(c: Claimer, reply: Result<int, Error>, sent: Option<Tx>, rolled: bool)

  predicate Supersedes(c: Claimer, tx: Tx) {
    c.id.Some? && c.id.value != IdOf(tx)
  }

  function RollOver(c: Claimer): Claimer {
    c.(id := None, prevClaimed := c.prevClaimed + c.amount, prevFlush := 0, amount := 0)
  }

  /** Claim from the balance request on. */
  function Admit(c: Claimer, env: ClaimEnv, height: uint32, tx: Tx): (Claimer, Result<int, Error>)
    requires tx.payload.NanoPayPayload?
  {
    var p := tx.payload;
    if env.balance.None? then (c, Err(ErrRpc))
    else if env.balance.value + c.prevFlush < p.amount + tx.fee then (Shut(c), Err(ErrInsufficientBalance))
    else if p.txnExpiration <= AddU32(height, RECEIVER_EXPIRATION_DELTA) then (Shut(c), Err(ErrExpiredNanoPayTxn))
    else if p.nanoPayExpiration <= AddU32(height, RECEIVER_EXPIRATION_DELTA) then (Shut(c), Err(ErrExpiredNanoPay))
    else
      var c' := c.(tx := Some(tx), id := Some(p.id), expiration := p.txnExpiration, amount := p.amount);
      (c', Ok(Total(c')))
  }

  function Claim(cfg: Config, c: Claimer, env: ClaimEnv, tx: Tx): ClaimResult {
    if env.height.None? then ClaimResult(c, Err(ErrRpc), None, false)
    else
      var flaw := Vet(cfg, env, tx);
      if flaw.Some? then ClaimResult(Shut(c), Err(flaw.value), None, false)
      else if c.closed then ClaimResult(c, Err(ErrNanoPayClosed), None, false)
      else if c.id == Some(IdOf(tx)) && c.amount >= Amt(tx) then ClaimResult(Shut(c), Err(ErrInvalidAmount), None, false)
      else if !Supersedes(c, tx) then
        var (c', reply) := Admit(c, env, env.height.value, tx);
        ClaimResult(c', reply, None, false)
      else
        var f := Flush(cfg, c, false, env.sendOk);
        if f.error.Some? then ClaimResult(Shut(f.c), Err(f.error.value), f.sent, false)
        else
          var (c', reply) := Admit(RollOver(f.c), env, env.height.value, tx);
          ClaimResult(c', reply, f.sent, true)
  }
}
