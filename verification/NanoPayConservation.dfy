/** Payer and claimer together. The network hands the issued transactions over in
    order and without duplicates and may lose any of them; the claimer's
    environment is arbitrary, and Flush and Close happen at any time. */
module NanoPayConservation {
  import opened Wrappers
  import opened NanoPaySpec
  import opened NanoPayHistory
  import S = NanoPaySettlement

  /** The payer with the sum of all its increments (`paid`), the part of it on
      channels it has left (`retired`) and the transactions it issued. */
  datatype Purse = Purse(payer: Payer, usedIds: set<nat>, paid: int, retired: int, issued: seq<Tx>)

  /** `cursor` is how many issued transactions were delivered or lost,
      `accepted` the positions of those the claimer took. */
  datatype World = World(purse: Purse, cursor: nat, accepted: set<nat>, h: History)

  datatype Action = Increase(call: Call) | Deliver(env: ClaimEnv) | Lose | FlushClaimer(sendOk: bool) | CloseClaimer

  function Genesis(firstId: nat): World {
    World(Purse(Payer(firstId, 0, 0), {}, 0, 0, []), 0, {}, START)
  }

  /** Positive increments and channel ids never used before. */
  predicate Admissible(s: Purse, a: Action) {
    a.Increase? ==>
      && (a.call.delta.Some? ==> a.call.delta.value > 0)
      && a.call.freshId !in s.usedIds
  }

  function Act(terms: Terms, cfg: Config, w: World, a: Action): World {
    match a
    case Increase(call) => w.(purse := Pay(terms, w.purse, call))
    case Deliver(env) => if w.cursor < |w.purse.issued| then ActDeliver(cfg, w, env) else w
    case Lose => if w.cursor < |w.purse.issued| then w.(cursor := w.cursor + 1) else w
    case FlushClaimer(sendOk) => w.(h := Step(cfg, w.h, FlushEvent(sendOk)))
    case CloseClaimer => w.(h := Step(cfg, w.h, CloseEvent))
  }

  function Pay(terms: Terms, s: Purse, call: Call): Purse {
    var (p, r) := Increment(terms, s.payer, call);
    var rolls := RollsOver(s.payer, call);
    Purse(p,
          if rolls then s.usedIds + {call.freshId} else s.usedIds,
          if !Stuck(s.payer, call) && call.delta.Some? then s.paid + call.delta.value else s.paid,
          if rolls then s.retired + s.payer.amount else s.retired,
          if r.Ok? then s.issued + [r.value] else s.issued)
  }

  function ActDeliver(cfg: Config, w: World, env: ClaimEnv): World
    requires w.cursor < |w.purse.issued|
  {
    var tx := w.purse.issued[w.cursor];
    World(w.purse, w.cursor + 1, Taken(w.accepted, w.cursor, Claim(cfg, w.h.c, env, tx).reply.Ok?),
          Step(cfg, w.h, ClaimEvent(env, tx)))
  }

  function Taken(accepted: set<nat>, n: nat, took: bool): set<nat> {
    if took then accepted + {n} else accepted
  }

  function Unfold(terms: Terms, cfg: Config, w: World, acts: seq<Action>): World
    decreases |acts|
  {
    if acts == [] then w else Act(terms, cfg, Unfold(terms, cfg, w, acts[..|acts| - 1]), acts[|acts| - 1])
  }

  predicate AllAdmissible(terms: Terms, cfg: Config, w: World, acts: seq<Action>) {
    acts == []
    || var init, last := acts[..|acts| - 1], acts[|acts| - 1];
       AllAdmissible(terms, cfg, w, init) && Admissible(Unfold(terms, cfg, w, init).purse, last)
  }

  // ------------------------------------------- the issued transactions

  /** Transaction i is the last one of its channel among the first n. */
  predicate Final(txs: seq<Tx>, n: nat, i: nat)
    requires i < n <= |txs|
  {
    i == n - 1 || IdOf(txs[i + 1]) != IdOf(txs[i])
  }

  /** Sum of the final amounts of the channels among the first n transactions,
      without the channel of transaction n - 1. */
  function ClosedSum(txs: seq<Tx>, n: nat): int
    requires n <= |txs|
  {
    if n <= 1 then 0
    else if IdOf(txs[n - 1]) == IdOf(txs[n - 2]) then ClosedSum(txs, n - 1)
    else ClosedSum(txs, n - 1) + Amt(txs[n - 2])
  }

  function ChannelSum(txs: seq<Tx>, n: nat): int
    requires n <= |txs|
  {
    if n == 0 then 0 else ClosedSum(txs, n) + Amt(txs[n - 1])
  }

  predicate Seen(txs: seq<Tx>, n: nat, id: nat)
    requires n <= |txs|
  {
    exists i :: 0 <= i < n && IdOf(txs[i]) == id
  }

  /** Transaction n either opens a channel not seen before or raises the one before it. */
  predicate Continues(txs: seq<Tx>, n: nat)
    requires n < |txs|
  {
    && txs[n].payload.NanoPayPayload? && Amt(txs[n]) > 0
    && (Seen(txs, n, IdOf(txs[n])) ==> IdOf(txs[n - 1]) == IdOf(txs[n]) && Amt(txs[n - 1]) < Amt(txs[n]))
  }

  predicate Channelled(txs: seq<Tx>) {
    forall n :: 0 <= n < |txs| ==> Continues(txs, n)
  }

  lemma SeenIgnoresSuffix(txs: seq<Tx>, t: Tx, n: nat, id: nat)
    requires n <= |txs|
    ensures Seen(txs + [t], n, id) == Seen(txs, n, id)
  {
    assert forall i :: 0 <= i < n ==> (txs + [t])[i] == txs[i];
    if Seen(txs, n, id) {
      var i :| 0 <= i < n && IdOf(txs[i]) == id;
      assert IdOf((txs + [t])[i]) == id;
    }
  }

  lemma {:induction false} SumsIgnoreSuffix(txs: seq<Tx>, t: Tx, n: nat)
    requires n <= |txs|
    ensures ClosedSum(txs + [t], n) == ClosedSum(txs, n) && ChannelSum(txs + [t], n) == ChannelSum(txs, n)
  {
    if n > 0 {
      SumsIgnoreSuffix(txs, t, n - 1);
    }
  }

  lemma ChannelledAppend(txs: seq<Tx>, t: Tx)
    requires Channelled(txs) && Continues(txs + [t], |txs|)
    ensures Channelled(txs + [t])
  {
    forall n | 0 <= n < |txs|
      ensures Continues(txs + [t], n)
    {
      assert Continues(txs, n);
      SeenIgnoresSuffix(txs, t, n, IdOf(txs[n]));
    }
  }

  // ------------------------------------------------------------ the payer

  /** What the payer has issued, against the channel it is on and what it retired. */
  predicate Billed(txs: seq<Tx>, p: Payer, retired: int) {
    var n := |txs|;
    if n > 0 && IdOf(txs[n - 1]) == p.id
    then ClosedSum(txs, n) <= retired && Amt(txs[n - 1]) <= p.amount
    else ChannelSum(txs, n) <= retired && !Seen(txs, n, p.id)
  }

  predicate PurseInv(s: Purse) {
    && Channelled(s.issued)
    && (forall i :: 0 <= i < |s.issued| ==> IdOf(s.issued[i]) in s.usedIds)
    && s.payer.amount >= 0
    && s.paid == s.retired + s.payer.amount
    && (s.payer.id in s.usedIds || s.payer.expiration == 0)
    && Billed(s.issued, s.payer, s.retired)
  }

  function LeaveChannel(terms: Terms, s: Purse, call: Call): Purse {
    if RollsOver(s.payer, call)
    then Purse(Rolled(terms, s.payer, call), s.usedIds + {call.freshId}, s.paid, s.retired + s.payer.amount, s.issued)
    else s
  }

  lemma LeaveKeepsPurse(terms: Terms, s: Purse, call: Call)
    requires PurseInv(s) && Admissible(s, Increase(call)) && !Stuck(s.payer, call)
    ensures PurseInv(LeaveChannel(terms, s, call))
    ensures LeaveChannel(terms, s, call).payer.id in LeaveChannel(terms, s, call).usedIds
  {
    if RollsOver(s.payer, call) {
      assert !Seen(s.issued, |s.issued|, call.freshId);
    }
  }

  /** The payer's next amount, and its transaction if one is issued. */
  function Raise(s: Purse, delta: int, r: Result<Tx, Error>): Purse {
    Purse(s.payer.(amount := s.payer.amount + delta), s.usedIds, s.paid + delta, s.retired,
          if r.Ok? then s.issued + [r.value] else s.issued)
  }

  lemma PayIsLeaveThenRaise(terms: Terms, s: Purse, call: Call)
    ensures var v := LeaveChannel(terms, s, call);
      Pay(terms, s, call) ==
        if Stuck(s.payer, call) then s
        else if call.delta.None? then v
        else Raise(v, call.delta.value, Issue(terms, v.payer.(amount := v.payer.amount + call.delta.value), call))
  {
  }

  lemma BilledAppend(txs: seq<Tx>, p: Payer, retired: int, delta: int, t: Tx)
    requires Billed(txs, p, retired) && p.amount >= 0 && delta > 0
    requires t.payload.NanoPayPayload? && IdOf(t) == p.id && Amt(t) == p.amount + delta
    ensures Continues(txs + [t], |txs|)
    ensures Billed(txs + [t], p.(amount := p.amount + delta), retired)
  {
    SumsIgnoreSuffix(txs, t, |txs|);
    SeenIgnoresSuffix(txs, t, |txs|, p.id);
  }

  lemma RaiseKeepsPurse(s: Purse, delta: int, r: Result<Tx, Error>)
    requires PurseInv(s) && delta > 0 && s.payer.id in s.usedIds
    requires r.Ok? ==> r.value.payload.NanoPayPayload? && IdOf(r.value) == s.payer.id
                       && Amt(r.value) == s.payer.amount + delta
    ensures PurseInv(Raise(s, delta, r))
  {
    if r.Ok? {
      BilledAppend(s.issued, s.payer, s.retired, delta, r.value);
      ChannelledAppend(s.issued, r.value);
    }
  }

  /** Positive increments on fresh channel ids issue contiguous growing channels
      whose final amounts never exceed what was paid in. */
  lemma PayKeepsPurse(terms: Terms, s: Purse, call: Call)
    requires PurseInv(s) && Admissible(s, Increase(call))
    ensures PurseInv(Pay(terms, s, call))
  {
    PayIsLeaveThenRaise(terms, s, call);
    if !Stuck(s.payer, call) {
      LeaveKeepsPurse(terms, s, call);
      if call.delta.Some? {
        var v := LeaveChannel(terms, s, call);
        RaiseKeepsPurse(v, call.delta.value, Issue(terms, v.payer.(amount := v.payer.amount + call.delta.value), call));
      }
    }
  }

  // ---------------------------------------------------------- the claimer

  /** Every channel closed within the first n transactions had its final one accepted. */
  predicate ClosedAccepted(txs: seq<Tx>, n: nat, accepted: set<nat>)
    requires n <= |txs|
  {
    forall i: nat :: i + 1 < n && Final(txs, n, i) ==> i in accepted
  }

  /** The claimer's figures against the first n transactions: at most their final
      amounts, and exactly those precisely when the final ones were accepted. */
  predicate Books(c: Claimer, txs: seq<Tx>, n: nat, accepted: set<nat>)
    requires n <= |txs|
  {
    if n > 0 && c.id == Some(IdOf(txs[n - 1])) then
      && c.amount <= Amt(txs[n - 1]) && (c.amount == Amt(txs[n - 1]) <==> n - 1 in accepted)
      && c.prevClaimed <= ClosedSum(txs, n)
      && (c.prevClaimed == ClosedSum(txs, n) <==> ClosedAccepted(txs, n, accepted))
    else
      && n - 1 !in accepted
      && Total(c) <= ClosedSum(txs, n)
      && (Total(c) == ClosedSum(txs, n) <==> ClosedAccepted(txs, n, accepted))
  }

  predicate ClaimerInv(c: Claimer, txs: seq<Tx>, n: nat, accepted: set<nat>) {
    && n <= |txs|
    && (forall i :: i in accepted ==> i < n)
    && (c.id.Some? ==> Seen(txs, n, c.id.value))
    && c.amount >= 0
    && (c.id.None? ==> c.amount == 0)
    && Books(c, txs, n, accepted)
  }

  predicate Inv(cfg: Config, w: World) {
    && PurseInv(w.purse)
    && ClaimerInv(w.h.c, w.purse.issued, w.cursor, w.accepted)
    && Consistent(cfg, w.h)
  }

  lemma IssueKeepsClaimer(c: Claimer, txs: seq<Tx>, n: nat, accepted: set<nat>, t: Tx)
    requires ClaimerInv(c, txs, n, accepted)
    ensures ClaimerInv(c, txs + [t], n, accepted)
  {
    SumsIgnoreSuffix(txs, t, n);
    assert forall i :: 0 <= i < n ==> (txs + [t])[i] == txs[i];
    assert forall i: nat :: i + 1 < n ==> (Final(txs + [t], n, i) <==> Final(txs, n, i));
    if c.id.Some? {
      SeenIgnoresSuffix(txs, t, n, c.id.value);
    }
  }

  /** Moving past a transaction on another channel closes the channel before it. */
  lemma AdvanceClosed(txs: seq<Tx>, n: nat, accepted: set<nat>, took: bool)
    requires 0 < n < |txs|
    ensures ClosedAccepted(txs, n + 1, Taken(accepted, n, took)) <==>
      ClosedAccepted(txs, n, accepted) && (IdOf(txs[n - 1]) != IdOf(txs[n]) ==> n - 1 in accepted)
  {
    assert forall i: nat :: i + 1 < n ==> (Final(txs, n, i) <==> Final(txs, n + 1, i));
    assert Final(txs, n + 1, n - 1) <==> IdOf(txs[n]) != IdOf(txs[n - 1]);
  }

  /** How a Claim, or the loss of a transaction, moves the claimer's figures. */
  predicate Moves(c: Claimer, c': Claimer, t: Tx, took: bool) {
    if took then
      && c'.id == Some(IdOf(t)) && c'.amount == Amt(t)
      && c'.prevClaimed == (if c.id == Some(IdOf(t)) then c.prevClaimed else Total(c))
    else
      && Total(c') == Total(c)
      && ((c'.id == c.id && c'.amount == c.amount) || (c'.id.None? && c.id != Some(IdOf(t)) && c'.amount == 0))
  }

  lemma ClaimMoves(cfg: Config, c: Claimer, env: ClaimEnv, t: Tx)
    requires c.id.None? ==> c.amount == 0
    ensures var r := Claim(cfg, c, env, t); Moves(c, r.c, t, r.reply.Ok?)
  {
    ClaimFailsInPlace(cfg, c, env, t);
  }

  lemma BooksAdvance(c: Claimer, c': Claimer, txs: seq<Tx>, n: nat, accepted: set<nat>, took: bool)
    requires n < |txs| && Amt(txs[n]) > 0 && Moves(c, c', txs[n], took)
    requires n > 0 ==> Amt(txs[n - 1]) > 0 && (IdOf(txs[n - 1]) == IdOf(txs[n]) ==> Amt(txs[n - 1]) < Amt(txs[n]))
    requires Books(c, txs, n, accepted) && n !in accepted && c.amount >= 0
    requires c.id.None? ==> c.amount == 0
    requires c.id == Some(IdOf(txs[n])) ==> n > 0 && IdOf(txs[n - 1]) == IdOf(txs[n])
    ensures Books(c', txs, n + 1, Taken(accepted, n, took))
  {
    if n > 0 {
      AdvanceClosed(txs, n, accepted, took);
    }
  }

  /** If the claimer is on the channel of the next transaction, then so is the
      transaction before it, and the next amount is larger. */
  lemma NextOnCurrentChannel(c: Claimer, txs: seq<Tx>, n: nat, accepted: set<nat>)
    requires Channelled(txs) && ClaimerInv(c, txs, n, accepted)
    requires n < |txs| && c.id == Some(IdOf(txs[n]))
    ensures n > 0 && IdOf(txs[n - 1]) == IdOf(txs[n]) && c.amount < Amt(txs[n])
  {
    assert Continues(txs, n);
  }

  lemma PassKeepsClaimer(c: Claimer, c': Claimer, txs: seq<Tx>, n: nat, accepted: set<nat>, took: bool)
    requires Channelled(txs) && ClaimerInv(c, txs, n, accepted) && n < |txs|
    requires Moves(c, c', txs[n], took)
    ensures ClaimerInv(c', txs, n + 1, Taken(accepted, n, took))
  {
    if c.id == Some(IdOf(txs[n])) {
      NextOnCurrentChannel(c, txs, n, accepted);
    }
    assert Continues(txs, n);
    if n > 0 {
      assert Continues(txs, n - 1);
      if IdOf(txs[n - 1]) == IdOf(txs[n]) {
        assert Seen(txs, n, IdOf(txs[n]));
      }
    }
    BooksAdvance(c, c', txs, n, accepted, took);
    if c'.id.Some? {
      assert IdOf(txs[n]) == c'.id.value || Seen(txs, n, c'.id.value);
    }
  }

  lemma DeliverKeepsInv(cfg: Config, w: World, env: ClaimEnv)
    requires Inv(cfg, w) && w.cursor < |w.purse.issued|
    ensures Inv(cfg, ActDeliver(cfg, w, env))
  {
    var txs, n := w.purse.issued, w.cursor;
    var r := Claim(cfg, w.h.c, env, txs[n]);
    assert Continues(txs, n);
    ClaimKeepsConsistent(cfg, w.h, env, txs[n]);
    ClaimMoves(cfg, w.h.c, env, txs[n]);
    PassKeepsClaimer(w.h.c, r.c, txs, n, w.accepted, r.reply.Ok?);
  }

  lemma FlushKeepsInv(cfg: Config, w: World, sendOk: bool)
    requires Inv(cfg, w)
    ensures Inv(cfg, w.(h := Step(cfg, w.h, FlushEvent(sendOk))))
  {
    FlushKeepsConsistent(cfg, w.h, sendOk);
  }

  lemma PayKeepsInv(terms: Terms, cfg: Config, w: World, call: Call)
    requires Inv(cfg, w) && Admissible(w.purse, Increase(call))
    ensures Inv(cfg, w.(purse := Pay(terms, w.purse, call)))
  {
    PayKeepsPurse(terms, w.purse, call);
    var r := Increment(terms, w.purse.payer, call).1;
    if r.Ok? {
      IssueKeepsClaimer(w.h.c, w.purse.issued, w.cursor, w.accepted, r.value);
    }
  }

  lemma ActKeepsInv(terms: Terms, cfg: Config, w: World, a: Action)
    requires Inv(cfg, w) && Admissible(w.purse, a)
    ensures Inv(cfg, Act(terms, cfg, w, a))
  {
    match a
    case Increase(call) => PayKeepsInv(terms, cfg, w, call);
    case Deliver(env) =>
      if w.cursor < |w.purse.issued| {
        DeliverKeepsInv(cfg, w, env);
      }
    case Lose =>
      if w.cursor < |w.purse.issued| {
        PassKeepsClaimer(w.h.c, w.h.c, w.purse.issued, w.cursor, w.accepted, false);
      }
    case FlushClaimer(sendOk) => FlushKeepsInv(cfg, w, sendOk);
    case CloseClaimer =>
  }

  lemma EmptyPurse(firstId: nat, txs: seq<Tx>)
    requires txs == []
    ensures PurseInv(Purse(Payer(firstId, 0, 0), {}, 0, 0, txs))
  {
    assert ChannelSum(txs, 0) == 0 && !Seen(txs, 0, firstId);
  }

  lemma NothingClaimed(txs: seq<Tx>, c: Claimer)
    requires txs == [] && c.id.None? && c.amount == 0 && c.prevClaimed == 0
    ensures ClaimerInv(c, txs, 0, {})
  {
    assert ClosedSum(txs, 0) == 0 && ClosedAccepted(txs, 0, {});
  }

  lemma GenesisInv(cfg: Config, firstId: nat)
    ensures Inv(cfg, Genesis(firstId))
  {
    EmptyPurse(firstId, []);
    NothingClaimed([], NEW_CLAIMER);
    RunKeepsConsistent(cfg, []);
  }

  lemma {:induction false} RunKeepsInv(terms: Terms, cfg: Config, firstId: nat, acts: seq<Action>)
    requires AllAdmissible(terms, cfg, Genesis(firstId), acts)
    ensures Inv(cfg, Unfold(terms, cfg, Genesis(firstId), acts))
  {
    if acts == [] {
      GenesisInv(cfg, firstId);
    } else {
      var k := |acts| - 1;
      RunKeepsInv(terms, cfg, firstId, acts[..k]);
      ActKeepsInv(terms, cfg, Unfold(terms, cfg, Genesis(firstId), acts[..k]), acts[k]);
    }
  }

  // --------------------------------------------------------- main results

  lemma {:induction false} ChannelSumGrows(txs: seq<Tx>, m: nat, n: nat)
    requires Channelled(txs) && m <= n <= |txs|
    ensures ChannelSum(txs, m) <= ChannelSum(txs, n)
    ensures m < n ==> ChannelSum(txs, m) < ChannelSum(txs, n)
    decreases n
  {
    if m < n {
      ChannelSumGrows(txs, m, n - 1);
      assert Continues(txs, n - 1);
      assert n > 1 && IdOf(txs[n - 2]) == IdOf(txs[n - 1]) ==> Seen(txs, n - 1, IdOf(txs[n - 1]));
    }
  }

  predicate AllFinalAccepted(txs: seq<Tx>, accepted: set<nat>) {
    forall i :: 0 <= i < |txs| && Final(txs, |txs|, i) ==> i in accepted
  }

  lemma {:induction false} ConservationOf(s: Purse, c: Claimer, n: nat, accepted: set<nat>)
    requires PurseInv(s) && ClaimerInv(c, s.issued, n, accepted)
    ensures Total(c) <= ChannelSum(s.issued, |s.issued|) <= s.paid
    ensures Total(c) == ChannelSum(s.issued, |s.issued|) <==> AllFinalAccepted(s.issued, accepted)
  {
    var txs, k := s.issued, |s.issued|;
    ChannelSumGrows(txs, n, k);
    if k > 0 {
      assert Final(txs, k, k - 1);
      assert Continues(txs, k - 1);
      if n == k {
        assert AllFinalAccepted(txs, accepted) <==> ClosedAccepted(txs, k, accepted) && k - 1 in accepted;
      }
      if n > 0 {
        assert Continues(txs, n - 1);
      }
    }
  }

  /** The total is at most the sum of the channels' final amounts, hence at most
      what was paid in, and equals the former exactly when the last issued
      transaction of every channel was accepted. */
  predicate Conserved(w: World) {
    var txs := w.purse.issued;
    && Total(w.h.c) <= ChannelSum(txs, |txs|) <= w.purse.paid
    && (Total(w.h.c) == ChannelSum(txs, |txs|) <==> AllFinalAccepted(txs, w.accepted))
  }

  lemma ConservationOfWorld(cfg: Config, w: World)
    requires Inv(cfg, w)
    ensures Conserved(w)
  {
    ConservationOf(w.purse, w.h.c, w.cursor, w.accepted);
  }

  /** Every run of the two parties conserves the payments. */
  lemma {:induction false} Conservation(terms: Terms, cfg: Config, firstId: nat, acts: seq<Action>)
    requires AllAdmissible(terms, cfg, Genesis(firstId), acts)
    ensures Conserved(Unfold(terms, cfg, Genesis(firstId), acts))
  {
    RunKeepsInv(terms, cfg, firstId, acts);
    ConservationOfWorld(cfg, Unfold(terms, cfg, Genesis(firstId), acts));
  }

  /** No transaction of such a run is ever refused for its amount. */
  lemma {:induction false} NeverInvalidAmount(terms: Terms, cfg: Config, firstId: nat, acts: seq<Action>, env: ClaimEnv)
    requires AllAdmissible(terms, cfg, Genesis(firstId), acts)
    ensures var w := Unfold(terms, cfg, Genesis(firstId), acts);
      w.cursor < |w.purse.issued| ==>
        Claim(cfg, w.h.c, env, w.purse.issued[w.cursor]).reply != Err(ErrInvalidAmount)
  {
    RunKeepsInv(terms, cfg, firstId, acts);
    var w := Unfold(terms, cfg, Genesis(firstId), acts);
    if w.cursor < |w.purse.issued| {
      InvalidAmountMeans(cfg, w.h.c, env, w.purse.issued[w.cursor]);
      if w.h.c.id == Some(IdOf(w.purse.issued[w.cursor])) {
        NextOnCurrentChannel(w.h.c, w.purse.issued, w.cursor, w.accepted);
      }
    }
  }

  lemma InvalidAmountMeans(cfg: Config, c: Claimer, env: ClaimEnv, t: Tx)
    ensures Claim(cfg, c, env, t).reply == Err(ErrInvalidAmount) ==> c.id == Some(IdOf(t)) && c.amount >= Amt(t)
  {
  }

  // ------------------------------------------------ nothing else is refused

  /** Transactions of one payer: parties filled in, one expiration for both purposes. */
  predicate Addressed(terms: Terms, t: Tx) {
    && t.payload.NanoPayPayload?
    && t.payload.sender == Some(terms.sender) && t.payload.recipient == Some(terms.recipient)
    && t.payload.txnExpiration == t.payload.nanoPayExpiration
  }

  predicate AllAddressed(terms: Terms, txs: seq<Tx>) {
    forall i :: 0 <= i < |txs| ==> Addressed(terms, txs[i])
  }

  lemma ActKeepsAddressed(terms: Terms, cfg: Config, w: World, a: Action)
    requires AllAddressed(terms, w.purse.issued)
    ensures AllAddressed(terms, Act(terms, cfg, w, a).purse.issued)
  {
  }

  lemma {:induction false} RunAddressed(terms: Terms, cfg: Config, firstId: nat, acts: seq<Action>)
    ensures AllAddressed(terms, Unfold(terms, cfg, Genesis(firstId), acts).purse.issued)
  {
    if acts != [] {
      RunAddressed(terms, cfg, firstId, acts[..|acts| - 1]);
      ActKeepsAddressed(terms, cfg, Unfold(terms, cfg, Genesis(firstId), acts[..|acts| - 1]), acts[|acts| - 1]);
    }
  }

  /** What an acceptance takes: height known, transaction valid, the balance together
      with what this channel already settled covers amount and fee, the expiration is
      beyond the margin, and what a superseded channel must still submit is taken. */
  predicate Acceptable(cfg: Config, h: History, env: ClaimEnv, t: Tx) {
    && env.height.Some? && env.verified && env.senderAddressOk && env.balance.Some?
    && env.balance.value + (if h.c.id == Some(IdOf(t)) then Settled(h.current) else 0) >= Amt(t) + t.fee
    && t.payload.NanoPayPayload? && t.payload.txnExpiration > AddU32(env.height.value, RECEIVER_EXPIRATION_DELTA)
    && (Supersedes(h.c, t) && h.c.tx.Some? && Owed(h.current) - Settled(h.current) >= cfg.minFlush ==> env.sendOk)
  }

  lemma AcceptedExactly(cfg: Config, terms: Terms, h: History, env: ClaimEnv, t: Tx)
    requires Consistent(cfg, h) && cfg.recipient == terms.recipient && Addressed(terms, t)
    requires h.c.id == Some(IdOf(t)) ==> h.c.amount < Amt(t)
    ensures Claim(cfg, h.c, env, t).reply.Ok? <==> !h.c.closed && Acceptable(cfg, h, env, t)
  {
    S.ExpiredExactly(cfg, h.c, env, t);
  }

  /** In every joint run the next transaction is accepted if and only if the claimer is
      open and its environment lets it: the protocol itself never refuses one. */
  predicate AcceptsExactly(cfg: Config, w: World, env: ClaimEnv) {
    w.cursor < |w.purse.issued| ==>
      var t := w.purse.issued[w.cursor];
      Claim(cfg, w.h.c, env, t).reply.Ok? <==> !w.h.c.closed && Acceptable(cfg, w.h, env, t)
  }

  lemma {:induction false} NextIsAccepted(terms: Terms, cfg: Config, firstId: nat, acts: seq<Action>, env: ClaimEnv)
    requires AllAdmissible(terms, cfg, Genesis(firstId), acts) && cfg.recipient == terms.recipient
    ensures AcceptsExactly(cfg, Unfold(terms, cfg, Genesis(firstId), acts), env)
  {
    RunKeepsInv(terms, cfg, firstId, acts);
    RunAddressed(terms, cfg, firstId, acts);
    var w := Unfold(terms, cfg, Genesis(firstId), acts);
    if w.cursor < |w.purse.issued| {
      if w.h.c.id == Some(IdOf(w.purse.issued[w.cursor])) {
        NextOnCurrentChannel(w.h.c, w.purse.issued, w.cursor, w.accepted);
      }
      AcceptedExactly(cfg, terms, w.h, env, w.purse.issued[w.cursor]);
    }
  }

  // ------------------------------------------------- what reaches the chain

  /** The sum of what the chain has taken for every channel epoch. */
  function OnChain(h: History): int {
    SumSettled(h.past) + Settled(h.current)
  }

  /** What is missing on the chain after a Flush that did not fail. */
  predicate FlushedBound(cfg: Config, h: History, sendOk: bool) {
    Flush(cfg, h.c, false, sendOk).error.None? ==>
      var h' := Step(cfg, h, FlushEvent(sendOk));
      Total(h'.c) == Total(h.c) && Total(h'.c) - OnChain(h') <= (|h'.past| + 1) * Slack(cfg)
  }

  /** The chain never takes more than was claimed, hence never more than was paid in.
      Superseded channels miss at most Slack each, and so does the current one after
      a Flush that did not fail. */
  predicate ChainBound(cfg: Config, w: World) {
    && OnChain(w.h) <= Total(w.h.c) <= w.purse.paid
    && Total(w.h.c) - OnChain(w.h) <= |w.h.past| * Slack(cfg) + (Owed(w.h.current) - Settled(w.h.current))
    && forall sendOk :: FlushedBound(cfg, w.h, sendOk)
  }

  lemma ChainShortfall(cfg: Config, h: History)
    requires Consistent(cfg, h)
    ensures OnChain(h) <= Total(h.c) <= OnChain(h) + |h.past| * Slack(cfg) + (Owed(h.current) - Settled(h.current))
  {
    S.ShortfallOfEpochs(cfg, h.past);
  }

  lemma FlushedShortfall(cfg: Config, h: History, sendOk: bool)
    requires Consistent(cfg, h)
    ensures FlushedBound(cfg, h, sendOk)
  {
    var h' := Step(cfg, h, FlushEvent(sendOk));
    FlushKeepsConsistent(cfg, h, sendOk);
    ChainShortfall(cfg, h');
    if Flush(cfg, h.c, false, sendOk).error.None? {
      assert h'.c.amount - h'.c.prevFlush <= Slack(cfg);
      var k, slack := |h'.past|, Slack(cfg);
      assert (k + 1) * slack == k * slack + slack;
    }
  }

  lemma ChainBoundOfWorld(cfg: Config, w: World)
    requires Inv(cfg, w)
    ensures ChainBound(cfg, w)
  {
    ConservationOfWorld(cfg, w);
    ChainShortfall(cfg, w.h);
    forall sendOk
      ensures FlushedBound(cfg, w.h, sendOk)
    {
      FlushedShortfall(cfg, w.h, sendOk);
    }
  }

  /** Over every joint run. */
  lemma {:induction false} SettledWithinPaid(terms: Terms, cfg: Config, firstId: nat, acts: seq<Action>)
    requires AllAdmissible(terms, cfg, Genesis(firstId), acts)
    ensures ChainBound(cfg, Unfold(terms, cfg, Genesis(firstId), acts))
  {
    RunKeepsInv(terms, cfg, firstId, acts);
    ChainBoundOfWorld(cfg, Unfold(terms, cfg, Genesis(firstId), acts));
  }

  // ------------------------------------------ when every increment is billed

  /** The call raised the amount without handing out a transaction. */
  predicate Unbilled(terms: Terms, s: Purse, a: Action) {
    a.Increase? && !Stuck(s.payer, a.call) && a.call.delta.Some? && Increment(terms, s.payer, a.call).1.Err?
  }

  predicate AllBilled(terms: Terms, cfg: Config, w: World, acts: seq<Action>) {
    acts == []
    || var init, last := acts[..|acts| - 1], acts[|acts| - 1];
       AllBilled(terms, cfg, w, init) && !Unbilled(terms, Unfold(terms, cfg, w, init).purse, last)
  }

  /** The issued transactions cover every increment so far. */
  predicate FullyBilled(txs: seq<Tx>, p: Payer, retired: int) {
    var n := |txs|;
    if n > 0 && IdOf(txs[n - 1]) == p.id
    then ClosedSum(txs, n) == retired && Amt(txs[n - 1]) == p.amount
    else ChannelSum(txs, n) == retired && p.amount == 0
  }

  lemma PayKeepsFullyBilled(terms: Terms, s: Purse, call: Call)
    requires PurseInv(s) && Admissible(s, Increase(call)) && !Unbilled(terms, s, Increase(call))
    requires FullyBilled(s.issued, s.payer, s.retired)
    ensures var s' := Pay(terms, s, call); FullyBilled(s'.issued, s'.payer, s'.retired)
  {
    PayIsLeaveThenRaise(terms, s, call);
    var v := LeaveChannel(terms, s, call);
    if !Stuck(s.payer, call) {
      LeaveKeepsPurse(terms, s, call);
      assert FullyBilled(v.issued, v.payer, v.retired);
      if call.delta.Some? {
        SumsIgnoreSuffix(v.issued, Increment(terms, s.payer, call).1.value, |v.issued|);
      }
    }
  }

  lemma {:induction false} RunFullyBilled(terms: Terms, cfg: Config, firstId: nat, acts: seq<Action>)
    requires AllAdmissible(terms, cfg, Genesis(firstId), acts) && AllBilled(terms, cfg, Genesis(firstId), acts)
    ensures var s := Unfold(terms, cfg, Genesis(firstId), acts).purse; FullyBilled(s.issued, s.payer, s.retired)
  {
    if acts != [] {
      var k := |acts| - 1;
      RunFullyBilled(terms, cfg, firstId, acts[..k]);
      RunKeepsInv(terms, cfg, firstId, acts[..k]);
      if acts[k].Increase? {
        PayKeepsFullyBilled(terms, Unfold(terms, cfg, Genesis(firstId), acts[..k]).purse, acts[k].call);
      }
    }
  }

  /** The claimer holds exactly what was paid in precisely when it accepted the last
      transaction of every channel. */
  predicate ExactlyConserved(w: World) {
    Total(w.h.c) == w.purse.paid <==> AllFinalAccepted(w.purse.issued, w.accepted)
  }

  lemma ExactConservationOfWorld(w: World)
    requires Conserved(w) && PurseInv(w.purse) && FullyBilled(w.purse.issued, w.purse.payer, w.purse.retired)
    ensures ExactlyConserved(w)
  {
    FullyBilledIsPaid(w.purse);
  }

  /** Every run in which no call raised the amount without handing out a transaction. */
  lemma {:induction false} ExactConservation(terms: Terms, cfg: Config, firstId: nat, acts: seq<Action>)
    requires AllAdmissible(terms, cfg, Genesis(firstId), acts) && AllBilled(terms, cfg, Genesis(firstId), acts)
    ensures ExactlyConserved(Unfold(terms, cfg, Genesis(firstId), acts))
  {
    Conservation(terms, cfg, firstId, acts);
    RunKeepsInv(terms, cfg, firstId, acts);
    RunFullyBilled(terms, cfg, firstId, acts);
    ExactConservationOfWorld(Unfold(terms, cfg, Genesis(firstId), acts));
  }

  lemma FullyBilledIsPaid(s: Purse)
    requires PurseInv(s) && FullyBilled(s.issued, s.payer, s.retired)
    ensures ChannelSum(s.issued, |s.issued|) == s.paid
  {
  }
}
