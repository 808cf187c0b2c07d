/** The payer and the claimer as objects updating their fields in the order of
    nanopay.go, each method proved against the functions of NanoPaySpec. */
module NanoPay {
  import opened Wrappers
  import opened NanoPaySpec
  import opened NanoPayHistory

  class PaymentChannel {
    const terms: Terms
    var id: nat
    var amount: int
    var expiration: uint32

    function State(): Payer
      reads this
    {
      Payer(id, amount, expiration)
    }

    constructor (terms: Terms, firstId: nat)
      ensures this.terms == terms && State() == Payer(firstId, 0, 0)
    {
      this.terms := terms;
      id, amount, expiration := firstId, 0, 0;
    }

    method IncrementAmount(call: Call) returns (r: Result<Tx, Error>)
      modifies this
      ensures (State(), r) == Increment(terms, old(State()), call)
    {
      var height: uint32 := 0;
      if call.height.Some? {
        height := call.height.value;
      } else if expiration == 0 {
        return Err(ErrRpc);
      }
      if expiration == 0 || expiration <= AddU32(height, SENDER_EXPIRATION_DELTA) {
        id := call.freshId;
        expiration := AddU32(height, terms.duration);
        amount := 0;
      }
      if call.delta.None? {
        return Err(ErrParse);
      }
      amount := amount + call.delta.value;
      if !call.built {
        return Err(ErrBuild);
      }
      var fee := terms.fee;
      if call.fee.ExplicitFee? {
        if call.fee.parsed.None? {
          return Err(ErrParse);
        }
        fee := call.fee.parsed.value;
      }
      if !call.signed {
        return Err(ErrSign);
      }
      return Ok(Tx(NanoPayPayload(Some(terms.sender), Some(terms.recipient), id, amount, expiration, expiration), fee));
    }
  }

  class NanoPayClaimer {
    const cfg: Config
    var amount: int
    var closed: bool
    var expiration: uint32
    var id: Option<nat>
    var prevClaimedAmount: int
    var prevFlushAmount: int
    var tx: Option<Tx>

    /** Channels already superseded, and what happened on the current one. */
    ghost var past: seq<Epoch>
    ghost var current: Epoch

    function State(): Claimer
      reads this
    {
      Claimer(amount, closed, expiration, id, prevClaimedAmount, prevFlushAmount, tx)
    }

    ghost function Log(): History
      reads this
    {
      History(State(), past, current)
    }

    constructor (cfg: Config)
      ensures this.cfg == cfg && Log() == START
    {
      this.cfg := cfg;
      amount, closed, expiration, id := 0, false, 0, None;
      prevClaimedAmount, prevFlushAmount, tx := 0, 0, None;
      past, current := [], [];
    }

    method Close()
      modifies this
      ensures Log() == Step(cfg, old(Log()), CloseEvent)
    {
      closed := true;
    }

    method FlushUnlessSmall(sendOk: bool) returns (error: Option<Error>)
      modifies this
      ensures var f := Flush(cfg, old(State()), false, sendOk);
        State() == f.c && error == f.error
        && past == old(past) && current == old(current) + Marks(f.sent, None)
    {
      if amount - prevFlushAmount < cfg.minFlush {
        return None;
      }
      if tx.None? {
        return None;
      }
      match tx.value.payload {
        case Malformed =>
          closed := true;
          return Some(ErrMalformed);
        case OtherPayload =>
          closed := true;
          return Some(ErrNotNanoPay);
        case NanoPayPayload(_, _, _, sentAmount, _, _) =>
          if !sendOk {
            return Some(ErrRpc);
          }
          current := current + [Submitted(tx.value)];
          tx := None;
          expiration := 0;
          prevFlushAmount := sentAmount;
          return None;
      }
    }

    method FlushNow(sendOk: bool) returns (error: Option<Error>)
      modifies this
      ensures Log() == Step(cfg, old(Log()), FlushEvent(sendOk))
      ensures error == Flush(cfg, old(State()), false, sendOk).error
    {
      error := FlushUnlessSmall(sendOk);
    }

    /** In a consistent state, which every run keeps, the figure is what the accepted
        transactions of all channels add up to. */
    method AmountSoFar() returns (total: int)
      ensures total == Total(State())
      ensures Consistent(cfg, Log()) ==> total == SumOwed(past + [current])
    {
      total := prevClaimedAmount + amount;
      SumOwedAppend(past, current);
    }

    method ClaimTx(env: ClaimEnv, t: Tx) returns (reply: Result<int, Error>)
      modifies this
      ensures Log() == Step(cfg, old(Log()), ClaimEvent(env, t))
      ensures reply == Claim(cfg, old(State()), env, t).reply
    {
      if env.height.None? {
        return Err(ErrRpc);
      }
      var flaw := Vet(cfg, env, t);
      if flaw.Some? {
        closed := true;
        return Err(flaw.value);
      }
      reply := ClaimVetted(env, t);
    }

    /** The part of Claim that runs under the lock. */
    method ClaimVetted(env: ClaimEnv, t: Tx) returns (reply: Result<int, Error>)
      requires env.height.Some? && Vet(cfg, env, t).None?
      modifies this
      ensures Log() == Step(cfg, old(Log()), ClaimEvent(env, t))
      ensures reply == Claim(cfg, old(State()), env, t).reply
    {
      if closed {
        return Err(ErrNanoPayClosed);
      }
      var p := t.payload;
      if id.Some? {
        if id.value == p.id {
          if amount >= p.amount {
            closed := true;
            return Err(ErrInvalidAmount);
          }
        } else {
          var error := FlushUnlessSmall(env.sendOk);
          if error.Some? {
            closed := true;
            return Err(error.value);
          }
          id := None;
          prevClaimedAmount := prevClaimedAmount + amount;
          prevFlushAmount := 0;
          amount := 0;
          past, current := past + [current], [];
        }
      }
      reply := AdmitTx(env, t);
    }

    /** The rest of Claim, from the balance request on. */
    method AdmitTx(env: ClaimEnv, t: Tx) returns (reply: Result<int, Error>)
      requires env.height.Some? && t.payload.NanoPayPayload?
      modifies this
      ensures (State(), reply) == Admit(old(State()), env, env.height.value, t)
      ensures past == old(past)
      ensures current == old(current) + Marks(None, if reply.Ok? then Some(t) else None)
    {
      var p := t.payload;
      if env.balance.None? {
        return Err(ErrRpc);
      }
      if env.balance.value + prevFlushAmount < p.amount + t.fee {
        closed := true;
        return Err(ErrInsufficientBalance);
      }
      if p.txnExpiration <= AddU32(env.height.value, RECEIVER_EXPIRATION_DELTA) {
        closed := true;
        return Err(ErrExpiredNanoPayTxn);
      }
      if p.nanoPayExpiration <= AddU32(env.height.value, RECEIVER_EXPIRATION_DELTA) {
        closed := true;
        return Err(ErrExpiredNanoPay);
      }
      tx := Some(t);
      id := Some(p.id);
      expiration := p.txnExpiration;
      amount := p.amount;
      current := current + [Accepted(t)];
      return Ok(prevClaimedAmount + amount);
    }
  }
}
