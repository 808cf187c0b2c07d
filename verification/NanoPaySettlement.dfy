/** What holds of a claimer over every run: accounting, monotonicity,
    submissions per channel epoch and the bound on what is never settled. */
module NanoPaySettlement {
  import opened Wrappers
  import opened NanoPaySpec
  import opened NanoPayHistory

  // ------------------------------------------------ settlement shortfall

  lemma {:induction false} ShortfallOfEpochs(cfg: Config, es: seq<Epoch>)
    requires forall i :: 0 <= i < |es| ==> Finished(cfg, es[i])
    ensures 0 <= SumOwed(es) - SumSettled(es) <= |es| * Slack(cfg)
  {
    if es != [] {
      var k, slack := |es| - 1, Slack(cfg);
      ShortfallOfEpochs(cfg, es[..k]);
      assert Finished(cfg, es[k]);
      assert (k + 1) * slack == k * slack + slack;
    }
  }

  /** Over every run, what was accepted on k superseded channels exceeds what was
      submitted for them by at most k * max(0, minFlush - 1), channel by channel
      and in total. */
  lemma {:induction false} ShortfallBound(cfg: Config, evs: seq<Event>)
    requires AllSane(evs)
    ensures var h := Run(cfg, START, evs);
      && (forall i :: 0 <= i < |h.past| ==> 0 <= Owed(h.past[i]) - Settled(h.past[i]) <= Slack(cfg))
      && 0 <= SumOwed(h.past) - SumSettled(h.past) <= |h.past| * Slack(cfg)
  {
    RunKeepsConsistent(cfg, evs);
    ShortfallOfEpochs(cfg, Run(cfg, START, evs).past);
  }

  /** The reported total is what the accepted transactions of all channels add up to. */
  lemma {:induction false} TotalIsOwed(cfg: Config, evs: seq<Event>)
    requires AllSane(evs)
    ensures var h := Run(cfg, START, evs); Total(h.c) == SumOwed(h.past + [h.current])
  {
    RunKeepsConsistent(cfg, evs);
    SumOwedAppend(Run(cfg, START, evs).past, Run(cfg, START, evs).current);
  }

  // ------------------------------------------------------------ accounting

  lemma ClaimAccounting(cfg: Config, c: Claimer, env: ClaimEnv, tx: Tx)
    requires c.id.None? ==> c.amount == 0
    ensures var r := Claim(cfg, c, env, tx);
      && (c.closed ==> r.c.closed && r.reply.Err?)
      && (r.reply.Err? ==> Total(r.c) == Total(c))
      && (r.reply.Ok? ==>
            && r.reply == Ok(Total(r.c)) && env.verified
            && Total(r.c) == Total(c) + Amt(tx) - (if c.id == Some(IdOf(tx)) then c.amount else 0)
            && (c.id == Some(IdOf(tx)) ==> c.amount < Amt(tx)))
  {
    ClaimFailsInPlace(cfg, c, env, tx);
  }

  /** A successful Claim raises the total by the payload amount less what the same
      channel had before; any other step leaves it alone, even if it rolled the
      channel over; a closed claimer stays closed. */
  lemma StepAccounting(cfg: Config, h: History, ev: Event)
    requires Consistent(cfg, h) && Sane(ev)
    ensures var h' := Step(cfg, h, ev);
      && (h.c.closed ==> h'.c.closed && Total(h'.c) == Total(h.c))
      && Total(h.c) <= Total(h'.c)
      && (!ev.ClaimEvent? || Claim(cfg, h.c, ev.env, ev.tx).reply.Err? ==> Total(h'.c) == Total(h.c))
      && (ev.ClaimEvent? && Claim(cfg, h.c, ev.env, ev.tx).reply.Ok? ==>
            && Claim(cfg, h.c, ev.env, ev.tx).reply == Ok(Total(h'.c))
            && Total(h'.c) == Total(h.c) + Amt(ev.tx) - (if h.c.id == Some(IdOf(ev.tx)) then h.c.amount else 0))
  {
    if ev.ClaimEvent? {
      ClaimAccounting(cfg, h.c, ev.env, ev.tx);
      assert Step(cfg, h, ev).c == Claim(cfg, h.c, ev.env, ev.tx).c;
    }
  }

  /** An accepted transaction names this recipient, was verified, and is covered by
      the payer's balance together with what its channel already settled. */
  lemma AcceptedIsCovered(cfg: Config, h: History, env: ClaimEnv, tx: Tx)
    requires Consistent(cfg, h) && Claim(cfg, h.c, env, tx).reply.Ok?
    ensures tx.payload.NanoPayPayload? && tx.payload.recipient == Some(cfg.recipient) && env.verified
    ensures env.balance.Some?
    ensures env.balance.value + (if h.c.id == Some(IdOf(tx)) then Settled(h.current) else 0) >= Amt(tx) + tx.fee
  {
  }

  lemma {:induction false} RunAppend(cfg: Config, h: History, a: seq<Event>, b: seq<Event>)
    ensures Run(cfg, h, a + b) == Run(cfg, Run(cfg, h, a), b)
    decreases |b|
  {
    if b == [] {
      assert a + b == a;
    } else {
      assert (a + b)[..|a + b| - 1] == a + b[..|b| - 1];
      RunAppend(cfg, h, a, b[..|b| - 1]);
    }
  }

  lemma {:induction false} RunFromConsistent(cfg: Config, h: History, evs: seq<Event>)
    requires Consistent(cfg, h) && AllSane(evs)
    ensures var h' := Run(cfg, h, evs);
      && Consistent(cfg, h')
      && Total(h.c) <= Total(h'.c)
      && (h.c.closed ==> h'.c.closed && Total(h'.c) == Total(h.c))
  {
    if evs != [] {
      var mid := Run(cfg, h, evs[..|evs| - 1]);
      RunFromConsistent(cfg, h, evs[..|evs| - 1]);
      StepKeepsConsistent(cfg, mid, evs[|evs| - 1]);
      StepAccounting(cfg, mid, evs[|evs| - 1]);
    }
  }

  /** Amount() never falls along a run, and never moves again once the claimer is closed. */
  lemma {:induction false} TotalMonotone(cfg: Config, evs: seq<Event>, i: nat, j: nat)
    requires AllSane(evs) && i <= j <= |evs|
    ensures var h, h' := Run(cfg, START, evs[..i]), Run(cfg, START, evs[..j]);
      && Total(h.c) <= Total(h'.c)
      && (h.c.closed ==> h'.c.closed && Total(h'.c) == Total(h.c))
  {
    assert evs[..j] == evs[..i] + evs[i..j];
    RunAppend(cfg, START, evs[..i], evs[i..j]);
    RunKeepsConsistent(cfg, evs[..i]);
    RunFromConsistent(cfg, Run(cfg, START, evs[..i]), evs[i..j]);
  }

  // ------------------------------------------------ submissions per epoch

  lemma {:induction false} OrderlyPrefix(cfg: Config, e: Epoch, n: nat)
    requires Orderly(cfg, e) && n <= |e|
    ensures Orderly(cfg, e[..n])
    decreases |e|
  {
    if n == |e| {
      assert e[..n] == e;
    } else {
      OrderlyPrefix(cfg, e[..|e| - 1], n);
      assert e[..|e| - 1][..n] == e[..n];
    }
  }

  lemma {:induction false} LatestSubmission(cfg: Config, e: Epoch, i: nat)
    requires Orderly(cfg, e) && i < |e| && e[i].Submitted?
    ensures LastSubmitted(e).Some? && Amt(e[i].tx) <= Settled(e)
    decreases |e|
  {
    if i < |e| - 1 {
      LatestSubmission(cfg, e[..|e| - 1], i);
    }
  }

  ghost predicate InRun(h: History, e: Epoch) {
    e == h.current || e in h.past
  }

  /** What an orderly epoch says about the submission at position j. */
  lemma AtSubmission(cfg: Config, e: Epoch, j: nat)
    requires Orderly(cfg, e) && j < |e| && e[j].Submitted?
    ensures Orderly(cfg, e[..j]) && LastAccepted(e[..j]) == Some(e[j].tx)
    ensures Amt(e[j].tx) - Settled(e[..j]) >= cfg.minFlush
    ensures LastSubmitted(e[..j]).Some? ==> Amt(e[j].tx) > Settled(e[..j])
  {
    OrderlyPrefix(cfg, e, j + 1);
    assert e[..j + 1][..j] == e[..j];
  }

  lemma SubmittedRightAfter(cfg: Config, e: Epoch, j: nat)
    requires Orderly(cfg, e) && j < |e| && e[j].Submitted?
    ensures j > 0 && e[j - 1] == Accepted(e[j].tx)
  {
    AtSubmission(cfg, e, j);
    assert e[..j] != [] && e[..j][j - 1] == e[j - 1];
    if e[j - 1].Submitted? {
      assert false;
    }
  }

  /** In every channel epoch of every run: a submitted transaction is the one
      accepted right before it; successive submissions strictly grow, so none is
      repeated, and the later one settles at least minFlush more. */
  lemma {:induction false} SubmissionsPerEpoch(cfg: Config, evs: seq<Event>, e: Epoch, j: nat)
    requires AllSane(evs) && InRun(Run(cfg, START, evs), e)
    requires j < |e| && e[j].Submitted?
    ensures j > 0 && e[j - 1] == Accepted(e[j].tx)
    ensures forall i :: 0 <= i < j && e[i].Submitted? ==>
              Amt(e[i].tx) < Amt(e[j].tx) && Amt(e[j].tx) - Amt(e[i].tx) >= cfg.minFlush
    ensures (forall i :: 0 <= i < j ==> e[i].Accepted?) ==> Amt(e[j].tx) >= cfg.minFlush
  {
    RunKeepsConsistent(cfg, evs);
    OrderlySubmissions(cfg, e, j);
  }

  lemma OrderlySubmissions(cfg: Config, e: Epoch, j: nat)
    requires Orderly(cfg, e) && j < |e| && e[j].Submitted?
    ensures j > 0 && e[j - 1] == Accepted(e[j].tx)
    ensures forall i :: 0 <= i < j && e[i].Submitted? ==>
              Amt(e[i].tx) < Amt(e[j].tx) && Amt(e[j].tx) - Amt(e[i].tx) >= cfg.minFlush
    ensures (forall i :: 0 <= i < j ==> e[i].Accepted?) ==> Amt(e[j].tx) >= cfg.minFlush
  {
    SubmittedRightAfter(cfg, e, j);
    AtSubmission(cfg, e, j);
    forall i | 0 <= i < j && e[i].Submitted?
      ensures Amt(e[i].tx) < Amt(e[j].tx) && Amt(e[j].tx) - Amt(e[i].tx) >= cfg.minFlush
    {
      LatestSubmission(cfg, e[..j], i);
    }
    if forall i :: 0 <= i < j ==> e[i].Accepted? {
      NothingSubmitted(e[..j]);
    }
  }

  lemma {:induction false} NothingSubmitted(e: Epoch)
    requires forall i :: 0 <= i < |e| ==> e[i].Accepted?
    ensures LastSubmitted(e).None?
  {
    if e != [] {
      NothingSubmitted(e[..|e| - 1]);
    }
  }

  // ---------------------------------------------------- expiration windows

  predicate Expired(r: Result<int, Error>) {
    r == Err(ErrExpiredNanoPayTxn) || r == Err(ErrExpiredNanoPay)
  }

  /** Claim reports expiration only for a transaction within the receiver's margin. */
  lemma ExpiredMeans(cfg: Config, c: Claimer, env: ClaimEnv, tx: Tx)
    requires Expired(Claim(cfg, c, env, tx).reply)
    ensures env.height.Some? && tx.payload.NanoPayPayload?
    ensures var limit := AddU32(env.height.value, RECEIVER_EXPIRATION_DELTA);
      tx.payload.txnExpiration <= limit || tx.payload.nanoPayExpiration <= limit
  {
  }

  /** A payer that knows height h and uses a duration above the sender margin issues
      transactions that no claimer, whatever its state, reports as expired up to
      height h + 2, provided no height involved wraps around. */
  lemma WindowsCompose(terms: Terms, p: Payer, call: Call, h: uint32, cfg: Config, c: Claimer, env: ClaimEnv)
    requires terms.duration > 5
    requires call.height == Some(h) && h + terms.duration < 0x1_0000_0000
    requires Increment(terms, p, call).1.Ok?
    requires env.height.Some? && env.height.value <= h + 2
    ensures !Expired(Claim(cfg, c, env, Increment(terms, p, call).1.value).reply)
  {
    if Expired(Claim(cfg, c, env, Increment(terms, p, call).1.value).reply) {
      ExpiredMeans(cfg, c, env, Increment(terms, p, call).1.value);
      assert false;
    }
  }

  /** Superseding the channel does not fail: it submits nothing, or succeeds in it. */
  predicate CanSupersede(cfg: Config, c: Claimer, sendOk: bool) {
    c.tx.Some? && c.amount - c.prevFlush >= cfg.minFlush ==> sendOk && c.tx.value.payload.NanoPayPayload?
  }

  /** The checks that come before the expirations: height, payload, recipient, validity,
      sender, open claimer, amount, flush of a superseded channel and balance. */
  predicate ReachesExpiration(cfg: Config, c: Claimer, env: ClaimEnv, tx: Tx) {
    && env.height.Some? && Vet(cfg, env, tx).None? && !c.closed
    && (c.id == Some(IdOf(tx)) ==> c.amount < Amt(tx))
    && (Supersedes(c, tx) ==> CanSupersede(cfg, c, env.sendOk))
    && env.balance.Some?
    && env.balance.value + (if Supersedes(c, tx) then 0 else c.prevFlush) >= Amt(tx) + tx.fee
  }

  predicate WithinMargin(env: ClaimEnv, tx: Tx)
    requires env.height.Some? && tx.payload.NanoPayPayload?
  {
    var limit := AddU32(env.height.value, RECEIVER_EXPIRATION_DELTA);
    tx.payload.txnExpiration <= limit || tx.payload.nanoPayExpiration <= limit
  }

  /** A Claim is refused for expiration exactly if it passes the earlier checks and one
      of the expirations is within the receiver's margin, and accepted exactly if
      it passes them and none is. */
  lemma ExpiredExactly(cfg: Config, c: Claimer, env: ClaimEnv, tx: Tx)
    ensures Vet(cfg, env, tx).None? ==> tx.payload.NanoPayPayload?
    ensures Expired(Claim(cfg, c, env, tx).reply) <==> ReachesExpiration(cfg, c, env, tx) && WithinMargin(env, tx)
    ensures Claim(cfg, c, env, tx).reply.Ok? <==> ReachesExpiration(cfg, c, env, tx) && !WithinMargin(env, tx)
  {
  }

  /** The window of a fresh channel is exact for every duration and height: opened at
      height h, it is reported expired from height h + duration - 3 on and not
      before. With the shortest admissible duration that is three blocks later. */
  lemma WindowIsTight(terms: Terms, p: Payer, call: Call, h: uint32, cfg: Config, c: Claimer, env: ClaimEnv)
    requires call.height == Some(h) && h + terms.duration < 0x1_0000_0000 && RollsOver(p, call)
    requires Increment(terms, p, call).1.Ok?
    requires env.height.Some? && env.height.value + 3 < 0x1_0000_0000
    requires ReachesExpiration(cfg, c, env, Increment(terms, p, call).1.value)
    ensures Expired(Claim(cfg, c, env, Increment(terms, p, call).1.value).reply) <==>
      env.height.value >= h + terms.duration - 3
  {
    ExpiredExactly(cfg, c, env, Increment(terms, p, call).1.value);
  }

  /** An accepted transaction has more than three blocks left, so its force-flush
      threshold, two blocks before it expires, is still ahead. */
  lemma AcceptedBeforeForceFlush(cfg: Config, c: Claimer, env: ClaimEnv, tx: Tx)
    requires env.height.Some? && env.height.value + 3 < 0x1_0000_0000
    requires Claim(cfg, c, env, tx).reply.Ok?
    ensures env.height.value + 3 < Claim(cfg, c, env, tx).c.expiration
    ensures tx.payload.NanoPayPayload? && Claim(cfg, c, env, tx).c.expiration == tx.payload.txnExpiration
  {
    ClaimFailsInPlace(cfg, c, env, tx);
  }

  // ------------------------------------------------- ids that come back

  /** The channel an epoch belongs to; an epoch without an acceptance has none. */
  function ChannelOf(e: Epoch): Option<nat> {
    if LastAccepted(e).Some? then Some(IdOf(LastAccepted(e).value)) else None
  }

  /** The channel of epoch i comes back in a later epoch. */
  predicate Returns(es: seq<Epoch>, i: nat) {
    i < |es| && exists j :: i < j < |es| && ChannelOf(es[j]) == ChannelOf(es[i])
  }

  /** What is owed if every channel id counts once, with its last epoch, among the
      first n epochs. */
  function OwedPerChannel(es: seq<Epoch>, n: nat): int
    requires n <= |es|
  {
    if n == 0 then 0 else OwedPerChannel(es, n - 1) + if Returns(es, n - 1) then 0 else Owed(es[n - 1])
  }

  predicate NothingReturns(es: seq<Epoch>, n: nat) {
    forall i :: 0 <= i < n && n <= |es| && Owed(es[i]) > 0 ==> !Returns(es, i)
  }

  lemma {:induction false} OverCount(es: seq<Epoch>, n: nat)
    requires n <= |es| && forall i :: 0 <= i < |es| ==> Owed(es[i]) >= 0
    ensures OwedPerChannel(es, n) <= SumOwed(es[..n])
    ensures OwedPerChannel(es, n) == SumOwed(es[..n]) <==> NothingReturns(es, n)
  {
    if n > 0 {
      OverCount(es, n - 1);
      assert es[..n] == es[..n - 1] + [es[n - 1]];
      SumOwedAppend(es[..n - 1], es[n - 1]);
      assert NothingReturns(es, n) <==> NothingReturns(es, n - 1) && (Owed(es[n - 1]) > 0 ==> !Returns(es, n - 1));
    }
  }

  lemma {:induction false} OwedNonNegative(cfg: Config, e: Epoch)
    requires Orderly(cfg, e)
    ensures Owed(e) >= 0
  {
    if e != [] && !e[|e| - 1].Accepted? {
      OwedNonNegative(cfg, e[..|e| - 1]);
    }
  }

  lemma EpochsOwe(cfg: Config, h: History)
    requires Consistent(cfg, h)
    ensures forall i :: 0 <= i < |h.past + [h.current]| ==> Owed((h.past + [h.current])[i]) >= 0
  {
    var es := h.past + [h.current];
    forall i | 0 <= i < |es|
      ensures Owed(es[i]) >= 0
    {
      if i < |h.past| {
        assert Finished(cfg, h.past[i]);
      }
      OwedNonNegative(cfg, es[i]);
    }
  }

  /** The claimer remembers only the current id. Over every run its total is at least
      what the channels owe when each id counts once, and exactly that if and only if
      no channel on which something was accepted comes back after being superseded. */
  predicate CountedOnce(h: History) {
    var es := h.past + [h.current];
    && OwedPerChannel(es, |es|) <= Total(h.c)
    && (Total(h.c) == OwedPerChannel(es, |es|) <==> NothingReturns(es, |es|))
  }

  lemma CountedOnceOf(cfg: Config, h: History)
    requires Consistent(cfg, h)
    ensures CountedOnce(h)
  {
    var es := h.past + [h.current];
    EpochsOwe(cfg, h);
    OverCount(es, |es|);
    assert es[..|es|] == es;
    SumOwedAppend(h.past, h.current);
  }

  lemma {:induction false} ChannelsCountedOnce(cfg: Config, evs: seq<Event>)
    requires AllSane(evs)
    ensures CountedOnce(Run(cfg, START, evs))
  {
    RunKeepsConsistent(cfg, evs);
    CountedOnceOf(cfg, Run(cfg, START, evs));
  }

  function Sample(id: nat, amount: int): Tx {
    Tx(NanoPayPayload(Some(1), Some(2), id, amount, 100, 100), 0)
  }

  /** For example, 10 and then 12 on channel 7, with a failed Claim on channel 8 in
      between, are reported as 22. */
  lemma ReturningIdIsCountedAgain()
    ensures var cfg := Config(2, 50);
      var rich := ClaimEnv(Some(0), true, true, true, Some(1000));
      var c1 := Claim(cfg, NEW_CLAIMER, rich, Sample(7, 10)).c;
      var c2 := Claim(cfg, c1, rich.(balance := None), Sample(8, 1)).c;
      Claim(cfg, c2, rich, Sample(7, 12)).reply == Ok(22)
  {
  }
}
