/** What one call of the payer and of the claimer does, said check by check and with
    the program's own numbers, and what that means over whole runs. */
module NanoPayChecks {
  import opened Wrappers
  import opened NanoPaySpec
  import opened NanoPayHistory

  // ---------------------------------------------------------------- payer

  /** The payer knows a height, or has a channel to fall back on. */
  predicate CanPay(p: Payer, call: Call) {
    call.height.Some? || p.expiration != 0
  }

  /** The channel has more than five blocks left; an unknown height counts as zero. */
  predicate Stays(p: Payer, call: Call) {
    var h := if call.height.Some? then call.height.value else 0;
    p.expiration != 0 && p.expiration > (h + 5) % 0x1_0000_0000
  }

  /** The channel a call works on, with the amount it starts from. */
  function Channel(terms: Terms, p: Payer, call: Call): Payer {
    if Stays(p, call) then p
    else var h := if call.height.Some? then call.height.value else 0;
         Payer(call.freshId, 0, (h + terms.duration) % 0x1_0000_0000)
  }

  /** The payer stays on its channel and adds to its amount as long as the channel has
      more than five blocks left, and otherwise opens one with the fresh id; the
      amount is raised even if no transaction comes of it. A transaction carries the
      state reached and the explicit fee, or the default one. */
  lemma IncrementExactly(terms: Terms, p: Payer, call: Call)
    ensures var (p', r) := Increment(terms, p, call);
      && (!CanPay(p, call) ==> p' == p && r == Err(ErrRpc))
      && (CanPay(p, call) ==>
            && p'.id == Channel(terms, p, call).id && p'.expiration == Channel(terms, p, call).expiration
            && p'.amount == Channel(terms, p, call).amount + (if call.delta.Some? then call.delta.value else 0)
            && (call.delta.None? ==> r == Err(ErrParse))
            && (call.delta.Some? && !call.built ==> r == Err(ErrBuild))
            && (call.delta.Some? && call.built && call.fee == ExplicitFee(None) ==> r == Err(ErrParse))
            && (call.delta.Some? && call.built && call.fee != ExplicitFee(None) ==>
                  r == if !call.signed then Err(ErrSign)
                       else Ok(Tx(NanoPayPayload(Some(terms.sender), Some(terms.recipient), p'.id, p'.amount,
                                                 p'.expiration, p'.expiration),
                                  if call.fee.ExplicitFee? then call.fee.parsed.value else terms.fee))))
  {
  }

  function PayAll(terms: Terms, p: Payer, calls: seq<Call>): Payer {
    if calls == [] then p else Increment(terms, PayAll(terms, p, calls[..|calls| - 1]), calls[|calls| - 1]).0
  }

  function Deltas(calls: seq<Call>): int {
    if calls == [] then 0
    else var d := calls[|calls| - 1].delta; Deltas(calls[..|calls| - 1]) + if d.Some? then d.value else 0
  }

  /** Any number of calls before the last five blocks stay on one channel, whose amount
      grows by exactly what the calls say, whatever becomes of their transactions. */
  lemma {:induction false} StaysAndAccumulates(terms: Terms, p: Payer, calls: seq<Call>)
    requires forall i :: 0 <= i < |calls| ==> Stays(p, calls[i])
    ensures PayAll(terms, p, calls) == Payer(p.id, p.amount + Deltas(calls), p.expiration)
  {
    if calls != [] {
      var init := calls[..|calls| - 1];
      StaysAndAccumulates(terms, p, init);
      assert Stays(p, calls[|calls| - 1]);
      IncrementExactly(terms, PayAll(terms, p, init), calls[|calls| - 1]);
    }
  }

  // -------------------------------------------------------------- claimer

  /** One check of Claim: the error if it fails, and whether that closes the claimer. */
  datatype Check = Check(passes: bool, error: Error, closes: bool)

  predicate SameChannel(c: Claimer, tx: Tx) {
    tx.payload.NanoPayPayload? && c.id == Some(tx.payload.id)
  }

  predicate OtherChannel(c: Claimer, tx: Tx) {
    tx.payload.NanoPayPayload? && c.id.Some? && c.id.value != tx.payload.id
  }

  /** A superseded channel has a transaction to submit and at least minFlush unsent. */
  predicate MustSend(cfg: Config, c: Claimer, tx: Tx) {
    OtherChannel(c, tx) && c.tx.Some? && c.amount - c.prevFlush >= cfg.minFlush
  }

  function Height(env: ClaimEnv): int {
    if env.height.Some? then env.height.value else 0
  }

  /** The checks in the order in which they are made. */
  function Checks(cfg: Config, c: Claimer, env: ClaimEnv, tx: Tx): seq<Check> {
    var p := tx.payload;
    var pays := p.NanoPayPayload?;
    var settled := if OtherChannel(c, tx) then 0 else c.prevFlush;
    [ Check(env.height.Some?, ErrRpc, false),
      Check(!p.Malformed?, ErrMalformed, true),
      Check(!p.OtherPayload?, ErrNotNanoPay, true),
      Check(pays && p.recipient.Some?, ErrMalformed, true),
      Check(pays && p.recipient == Some(cfg.recipient), ErrWrongRecipient, true),
      Check(env.verified, ErrInvalidTx, true),
      Check(pays && p.sender.Some? && env.senderAddressOk, ErrBadSender, true),
      Check(!c.closed, ErrNanoPayClosed, false),
      Check(SameChannel(c, tx) ==> pays && c.amount < p.amount, ErrInvalidAmount, true),
      Check(MustSend(cfg, c, tx) ==> env.sendOk, ErrRpc, true),
      Check(env.balance.Some?, ErrRpc, false),
      Check(pays && env.balance.Some? && env.balance.value + settled >= p.amount + tx.fee, ErrInsufficientBalance, true),
      Check(pays && p.txnExpiration > (Height(env) + 3) % 0x1_0000_0000, ErrExpiredNanoPayTxn, true),
      Check(pays && p.nanoPayExpiration > (Height(env) + 3) % 0x1_0000_0000, ErrExpiredNanoPay, true) ]
  }

  /** How many checks pass before the first that fails. */
  function Passed(checks: seq<Check>): (n: nat)
    ensures n <= |checks| && (forall i :: 0 <= i < n ==> checks[i].passes) && (n < |checks| ==> !checks[n].passes)
  {
    if checks == [] || !checks[0].passes then 0 else 1 + Passed(checks[1..])
  }

  /** A held transaction is a NanoPay one, as in every run. */
  predicate HoldsPayment(c: Claimer) {
    c.tx.Some? ==> c.tx.value.payload.NanoPayPayload?
  }

  /** The first failing check decides both the reply and whether the claimer closes;
      without one the transaction is accepted. */
  lemma FirstFailingCheckDecides(cfg: Config, c: Claimer, env: ClaimEnv, tx: Tx)
    requires HoldsPayment(c)
    ensures var checks, r := Checks(cfg, c, env, tx), Claim(cfg, c, env, tx); var n := Passed(checks);
      if n == |checks| then r.reply.Ok? && !r.c.closed
      else r.reply == Err(checks[n].error) && r.c.closed == (c.closed || checks[n].closes)
  {
    var checks := Checks(cfg, c, env, tx);
    var n := Passed(checks);
    assert n < 14 ==> !checks[n].passes;
    assert n > 0 ==> checks[0].passes;
    assert n > 1 ==> checks[1].passes;
    assert n > 2 ==> checks[2].passes;
    assert n > 3 ==> checks[3].passes;
    assert n > 4 ==> checks[4].passes;
    assert n > 5 ==> checks[5].passes;
    assert n > 6 ==> checks[6].passes;
    assert n > 7 ==> checks[7].passes;
    assert n > 8 ==> checks[8].passes;
    assert n > 9 ==> checks[9].passes;
    assert n > 10 ==> checks[10].passes;
    assert n > 11 ==> checks[11].passes;
    assert n > 12 ==> checks[12].passes;
    assert n > 13 ==> checks[13].passes;
  }

  /** An open claimer is closed by a Claim exactly if the Claim fails, the height was
      known, and it is not just the balance request that failed after every check
      before it passed. */
  lemma ClosesExactly(cfg: Config, c: Claimer, env: ClaimEnv, tx: Tx)
    requires HoldsPayment(c) && !c.closed
    ensures Claim(cfg, c, env, tx).c.closed <==>
      && Claim(cfg, c, env, tx).reply.Err? && env.height.Some?
      && !(env.balance.None? && Passed(Checks(cfg, c, env, tx)) == 10)
  {
    FirstFailingCheckDecides(cfg, c, env, tx);
    var checks := Checks(cfg, c, env, tx);
    assert Passed(checks) > 0 ==> checks[0].passes;
    assert Passed(checks) > 10 ==> checks[10].passes;
  }

  /** The fields before the check on a superseded channel has passed: none changes. */
  lemma FieldsBefore(cfg: Config, c: Claimer, env: ClaimEnv, tx: Tx)
    requires HoldsPayment(c) && Passed(Checks(cfg, c, env, tx)) < 10
    ensures var r := Claim(cfg, c, env, tx);
      r.c == c.(closed := r.c.closed) && r.sent.None? && !r.rolled
  {
    FirstFailingCheckDecides(cfg, c, env, tx);
    ClaimFailsInPlace(cfg, c, env, tx);
    CompleteUpTo(cfg, c, env, tx);
  }

  lemma CompleteUpTo(cfg: Config, c: Claimer, env: ClaimEnv, tx: Tx)
    requires HoldsPayment(c)
    ensures Claim(cfg, c, env, tx).rolled || Claim(cfg, c, env, tx).reply.Ok? ==> Passed(Checks(cfg, c, env, tx)) >= 10
    ensures Claim(cfg, c, env, tx).rolled ==> OtherChannel(c, tx)
    ensures Passed(Checks(cfg, c, env, tx)) >= 10 && OtherChannel(c, tx) ==> Claim(cfg, c, env, tx).rolled
  {
    var checks := Checks(cfg, c, env, tx);
    var n := Passed(checks);
    assert n < 14 ==> !checks[n].passes;
    assert n >= 10 ==> checks[0].passes && checks[1].passes && checks[2].passes && checks[3].passes && checks[4].passes
                       && checks[5].passes && checks[6].passes && checks[7].passes && checks[8].passes && checks[9].passes;
  }

  /** And from there on: a superseded channel is counted, its pending transaction
      submitted if enough of it is unsent, and an accepted transaction becomes
      the claimer's. */
  lemma FieldsAfter(cfg: Config, c: Claimer, env: ClaimEnv, tx: Tx)
    requires HoldsPayment(c) && Passed(Checks(cfg, c, env, tx)) >= 10
    ensures var r, left, sent := Claim(cfg, c, env, tx), OtherChannel(c, tx), MustSend(cfg, c, tx);
      && tx.payload.NanoPayPayload?
      && r.rolled == left && r.sent == (if sent then c.tx else None)
      && r.c.prevClaimed == c.prevClaimed + (if left then c.amount else 0)
      && r.c.prevFlush == (if left then 0 else c.prevFlush)
      && (r.reply.Ok? ==>
            && r.reply.value == r.c.prevClaimed + tx.payload.amount
            && r.c.tx == Some(tx) && r.c.id == Some(tx.payload.id)
            && r.c.amount == tx.payload.amount && r.c.expiration == tx.payload.txnExpiration)
      && (r.reply.Err? ==>
            && r.c.id == (if left then None else c.id) && r.c.amount == (if left then 0 else c.amount)
            && r.c.tx == (if sent then None else c.tx) && r.c.expiration == (if sent then 0 else c.expiration))
  {
    CompleteUpTo(cfg, c, env, tx);
    var checks := Checks(cfg, c, env, tx);
    assert checks[0].passes && checks[1].passes && checks[2].passes && checks[3].passes && checks[4].passes
           && checks[5].passes && checks[6].passes && checks[7].passes && checks[8].passes && checks[9].passes;
  }

  /** A Flush submits the held transaction exactly if at least minFlush of it is unsent;
      it fails exactly if that submission does, and then leaves everything as it is. */
  lemma FlushExactly(cfg: Config, c: Claimer, sendOk: bool)
    requires HoldsPayment(c)
    ensures var f, due := Flush(cfg, c, false, sendOk), c.tx.Some? && c.amount - c.prevFlush >= cfg.minFlush;
      && f.error == (if due && !sendOk then Some(ErrRpc) else None)
      && f.sent == (if due && sendOk then c.tx else None)
      && f.c == if due && sendOk then c.(tx := None, expiration := 0, prevFlush := Amt(c.tx.value)) else c
  {
  }

  // ------------------------------------------------------- runs that close

  /** Close, or a Claim whose first failing check is a closing one. */
  predicate ClosingEvent(cfg: Config, c: Claimer, ev: Event) {
    match ev
    case CloseEvent => true
    case FlushEvent(_) => false
    case ClaimEvent(env, tx) =>
      var checks := Checks(cfg, c, env, tx);
      Passed(checks) < |checks| && checks[Passed(checks)].closes
  }

  lemma StepCloses(cfg: Config, h: History, ev: Event)
    requires Consistent(cfg, h)
    ensures Step(cfg, h, ev).c.closed <==> h.c.closed || ClosingEvent(cfg, h.c, ev)
  {
    if ev.ClaimEvent? {
      FirstFailingCheckDecides(cfg, h.c, ev.env, ev.tx);
      var checks := Checks(cfg, h.c, ev.env, ev.tx);
      assert Passed(checks) > 7 ==> checks[7].passes;
      assert Step(cfg, h, ev).c == Claim(cfg, h.c, ev.env, ev.tx).c;
    }
  }

  /** Event i of the run is a closing one where it happens. */
  predicate ClosesAt(cfg: Config, evs: seq<Event>, i: nat) {
    i < |evs| && ClosingEvent(cfg, Run(cfg, START, evs[..i]).c, evs[i])
  }

  lemma LastEventCloses(cfg: Config, evs: seq<Event>)
    requires AllSane(evs) && evs != []
    ensures Run(cfg, START, evs).c.closed <==>
      Run(cfg, START, evs[..|evs| - 1]).c.closed || ClosesAt(cfg, evs, |evs| - 1)
  {
    RunKeepsConsistent(cfg, evs[..|evs| - 1]);
    StepCloses(cfg, Run(cfg, START, evs[..|evs| - 1]), evs[|evs| - 1]);
  }

  lemma ClosesAtPrefix(cfg: Config, evs: seq<Event>, n: nat, i: nat)
    requires i < n <= |evs|
    ensures ClosesAt(cfg, evs[..n], i) == ClosesAt(cfg, evs, i)
  {
    assert evs[..n][..i] == evs[..i];
  }

  ghost predicate SomeCloses(cfg: Config, evs: seq<Event>, n: nat) {
    exists i: nat :: i < n && ClosesAt(cfg, evs, i)
  }

  /** Over every run the claimer is closed exactly if some event of it was a closing one:
      neither a failed request for height or balance nor a failed Flush is. */
  lemma {:induction false} ClosedExactly(cfg: Config, evs: seq<Event>)
    requires AllSane(evs)
    ensures Run(cfg, START, evs).c.closed <==> SomeCloses(cfg, evs, |evs|)
  {
    if evs != [] {
      var k := |evs| - 1;
      ClosedExactly(cfg, evs[..k]);
      LastEventCloses(cfg, evs);
      forall i: nat | i < k
        ensures ClosesAt(cfg, evs[..k], i) == ClosesAt(cfg, evs, i)
      {
        ClosesAtPrefix(cfg, evs, k, i);
      }
      assert SomeCloses(cfg, evs[..k], k) == SomeCloses(cfg, evs, k);
    }
  }
}
