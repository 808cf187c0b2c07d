/** Whole runs of a claimer: any sequence of Claim, Flush and Close with any
    outcomes. The history keeps, per channel epoch, which transactions were
    accepted and which were successfully submitted to the chain. */
module NanoPayHistory {
  import opened Wrappers
  import opened NanoPaySpec

  datatype Mark = Accepted(tx: Tx) | Submitted(tx: Tx)
  type Epoch = seq<Mark>

  datatype History = History(c: Claimer, past: seq<Epoch>, current: Epoch)

  const START := History(NEW_CLAIMER, [], [])

  datatype Event = ClaimEvent(env: ClaimEnv, tx: Tx) | FlushEvent(sendOk: bool) | CloseEvent

  function Marks(sent: Option<Tx>, accepted: Option<Tx>): Epoch {
    (if sent.Some? then [Submitted(sent.value)] else [])
    + (if accepted.Some? then [Accepted(accepted.value)] else [])
  }

  function Step(cfg: Config, h: History, ev: Event): History {
    match ev
    case ClaimEvent(env, tx) =>
      var r := Claim(cfg, h.c, env, tx);
      var got := if r.reply.Ok? then Some(tx) else None;
      if r.rolled
      then History(r.c, h.past + [h.current + Marks(r.sent, None)], Marks(None, got))
      else History(r.c, h.past, h.current + Marks(r.sent, got))
    case FlushEvent(sendOk) =>
      var f := Flush(cfg, h.c, false, sendOk);
      History(f.c, h.past, h.current + Marks(f.sent, None))
    case CloseEvent => h.(c := Shut(h.c))
  }

  function Run(cfg: Config, h: History, evs: seq<Event>): History
    decreases |evs|
  {
    if evs == [] then h else Step(cfg, Run(cfg, h, evs[..|evs| - 1]), evs[|evs| - 1])
  }

  /** The one thing taken from transaction validation: amounts are not negative. */
  predicate Sane(ev: Event) {
    ev.ClaimEvent? && ev.env.verified ==> Amt(ev.tx) >= 0
  }

  predicate AllSane(evs: seq<Event>) {
    forall i :: 0 <= i < |evs| ==> Sane(evs[i])
  }

  function LastAccepted(e: Epoch): Option<Tx> {
    if e == [] then None
    else if e[|e| - 1].Accepted? then Some(e[|e| - 1].tx)
    else LastAccepted(e[..|e| - 1])
  }

  function LastSubmitted(e: Epoch): Option<Tx> {
    if e == [] then None
    else if e[|e| - 1].Submitted? then Some(e[|e| - 1].tx)
    else LastSubmitted(e[..|e| - 1])
  }

  function AmountOf(t: Option<Tx>): int {
    if t.Some? then Amt(t.value) else 0
  }

  /** What the payer owes for this channel, and how much of it has reached the chain. */
  function Owed(e: Epoch): int { AmountOf(LastAccepted(e)) }
  function Settled(e: Epoch): int { AmountOf(LastSubmitted(e)) }

  /** Accepted amounts grow on one channel id; a submission is the latest accepted
      transaction, exceeds the submission before it and settles at least minFlush more. */
  predicate Orderly(cfg: Config, e: Epoch) {
    e == []
    || var init, t := e[..|e| - 1], e[|e| - 1].tx;
       && Orderly(cfg, init)
       && (match e[|e| - 1]
           case Accepted(_) =>
             && t.payload.NanoPayPayload?
             && Amt(t) >= 0
             && (LastAccepted(init).Some? ==> IdOf(t) == IdOf(LastAccepted(init).value) && Amt(t) > Owed(init))
           case Submitted(_) =>
             && LastAccepted(init) == Some(t)
             && Amt(t) - Settled(init) >= cfg.minFlush
             && (LastSubmitted(init).Some? ==> Amt(t) > Settled(init)))
  }

  function Slack(cfg: Config): int {
    if cfg.minFlush > 0 then cfg.minFlush - 1 else 0
  }

  function SumOwed(es: seq<Epoch>): int {
    if es == [] then 0 else SumOwed(es[..|es| - 1]) + Owed(es[|es| - 1])
  }

  function SumSettled(es: seq<Epoch>): int {
    if es == [] then 0 else SumSettled(es[..|es| - 1]) + Settled(es[|es| - 1])
  }

  lemma SumOwedAppend(es: seq<Epoch>, e: Epoch)
    ensures SumOwed(es + [e]) == SumOwed(es) + Owed(e)
  {
    assert (es + [e])[..|es|] == es;
  }

  predicate Finished(cfg: Config, e: Epoch) {
    Orderly(cfg, e) && 0 <= Owed(e) - Settled(e) <= Slack(cfg)
  }

  /** Ties tx, expiration, id, amount and prevFlush together. A claimer without id may still
      hold the unsent transaction of the superseded channel, but only if
      minFlush is positive, so that no Flush can send it. */
  predicate Consistent(cfg: Config, h: History) {
    var c := h.c;
    && Orderly(cfg, h.current)
    && c.amount == Owed(h.current)
    && c.prevFlush == Settled(h.current)
    && 0 <= c.prevFlush <= c.amount
    && (c.id.None? ==> h.current == [] && (c.tx.Some? ==> cfg.minFlush > 0))
    && (c.id.Some? ==>
          && LastAccepted(h.current).Some?
          && IdOf(LastAccepted(h.current).value) == c.id.value
          && (c.tx.None? ==> c.prevFlush == c.amount)
          && (c.tx.Some? ==>
                && c.tx == LastAccepted(h.current)
                && (LastSubmitted(h.current).Some? ==> c.prevFlush < c.amount)))
    && (c.tx.Some? ==> c.tx.value.payload.NanoPayPayload? && c.expiration == c.tx.value.payload.txnExpiration)
    && (c.tx.None? ==> c.expiration == 0)
    && c.prevClaimed == SumOwed(h.past)
    && (forall i :: 0 <= i < |h.past| ==> Finished(cfg, h.past[i]))
  }

  lemma ExtendEpoch(e: Epoch, m: Mark)
    ensures (e + [m])[..|e|] == e
    ensures LastAccepted(e + [m]) == if m.Accepted? then Some(m.tx) else LastAccepted(e)
    ensures LastSubmitted(e + [m]) == if m.Submitted? then Some(m.tx) else LastSubmitted(e)
  {
    assert (e + [m])[..|e|] == e;
  }

  lemma FlushKeepsConsistent(cfg: Config, h: History, sendOk: bool)
    requires Consistent(cfg, h)
    ensures var f := Flush(cfg, h.c, false, sendOk);
      Consistent(cfg, History(f.c, h.past, h.current + Marks(f.sent, None)))
  {
    var f := Flush(cfg, h.c, false, sendOk);
    if f.sent.Some? {
      ExtendEpoch(h.current, Submitted(f.sent.value));
      assert h.current + Marks(f.sent, None) == h.current + [Submitted(f.sent.value)];
    } else {
      assert h.current + Marks(f.sent, None) == h.current;
    }
  }

  lemma AdmitKeepsConsistent(cfg: Config, h: History, env: ClaimEnv, height: uint32, tx: Tx)
    requires Consistent(cfg, h) && tx.payload.NanoPayPayload? && Amt(tx) >= 0
    requires h.c.id.None? || (h.c.id.value == IdOf(tx) && h.c.amount < Amt(tx))
    ensures var (c', reply) := Admit(h.c, env, height, tx);
      Consistent(cfg, History(c', h.past, h.current + Marks(None, if reply.Ok? then Some(tx) else None)))
  {
    var (c', reply) := Admit(h.c, env, height, tx);
    if reply.Ok? {
      assert h.current + Marks(None, Some(tx)) == h.current + [Accepted(tx)];
      AcceptKeepsConsistent(cfg, h, tx);
    } else {
      assert h.current + Marks(None, None) == h.current;
    }
  }

  lemma AcceptKeepsConsistent(cfg: Config, h: History, tx: Tx)
    requires Consistent(cfg, h) && tx.payload.NanoPayPayload? && Amt(tx) >= 0
    requires h.c.id.None? || (h.c.id.value == IdOf(tx) && h.c.amount < Amt(tx))
    ensures var p := tx.payload;
      Consistent(cfg, History(h.c.(tx := Some(tx), id := Some(p.id), expiration := p.txnExpiration, amount := p.amount),
                              h.past, h.current + [Accepted(tx)]))
  {
    ExtendEpoch(h.current, Accepted(tx));
  }

  /** Superseding a channel leaves less than minFlush of it unsent, or nothing. */
  lemma RollOverKeepsConsistent(cfg: Config, h: History, sendOk: bool)
    requires Consistent(cfg, h) && h.c.id.Some?
    requires Flush(cfg, h.c, false, sendOk).error.None?
    ensures var f := Flush(cfg, h.c, false, sendOk);
      Consistent(cfg, History(RollOver(f.c), h.past + [h.current + Marks(f.sent, None)], []))
  {
    FlushKeepsConsistent(cfg, h, sendOk);
    var f := Flush(cfg, h.c, false, sendOk);
    var e := h.current + Marks(f.sent, None);
    assert Finished(cfg, e);
    assert (h.past + [e])[..|h.past|] == h.past;
  }

  lemma ClaimKeepsConsistent(cfg: Config, h: History, env: ClaimEnv, tx: Tx)
    requires Consistent(cfg, h) && Sane(ClaimEvent(env, tx))
    ensures Consistent(cfg, Step(cfg, h, ClaimEvent(env, tx)))
  {
    var r := Claim(cfg, h.c, env, tx);
    var got := if r.reply.Ok? then Some(tx) else None;
    if r.rolled {
      RollOverKeepsConsistent(cfg, h, env.sendOk);
      var f := Flush(cfg, h.c, false, env.sendOk);
      var h1 := History(RollOver(f.c), h.past + [h.current + Marks(f.sent, None)], []);
      AdmitKeepsConsistent(cfg, h1, env, env.height.value, tx);
      assert h1.current + Marks(None, got) == Marks(None, got);
    } else if r.reply.Ok? {
      AdmitKeepsConsistent(cfg, h, env, env.height.value, tx);
    } else {
      ClaimFailsInPlace(cfg, h.c, env, tx);
      assert h.current + Marks(None, None) == h.current;
    }
  }

  /** A Claim that fails before rolling over only ever closes the claimer. */
  lemma ClaimFailsInPlace(cfg: Config, c: Claimer, env: ClaimEnv, tx: Tx)
    ensures var r := Claim(cfg, c, env, tx);
      !r.rolled && r.reply.Err? ==> r.sent.None? && (r.c == c || r.c == Shut(c))
  {
  }

  lemma StepKeepsConsistent(cfg: Config, h: History, ev: Event)
    requires Consistent(cfg, h) && Sane(ev)
    ensures Consistent(cfg, Step(cfg, h, ev))
  {
    match ev
    case CloseEvent =>
    case FlushEvent(sendOk) => FlushKeepsConsistent(cfg, h, sendOk);
    case ClaimEvent(env, tx) => ClaimKeepsConsistent(cfg, h, env, tx);
  }

  lemma {:induction false} RunKeepsConsistent(cfg: Config, evs: seq<Event>)
    requires AllSane(evs)
    ensures Consistent(cfg, Run(cfg, START, evs))
  {
    if evs != [] {
      RunKeepsConsistent(cfg, evs[..|evs| - 1]);
      StepKeepsConsistent(cfg, Run(cfg, START, evs[..|evs| - 1]), evs[|evs| - 1]);
    }
  }
}
