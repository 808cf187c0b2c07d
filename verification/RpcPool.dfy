/** RPCCall as a transition system: the feeder, n workers taking addresses from an
    unbuffered channel, the response mutex, the one-slot response channel and the
    cancellation flag. One step is one visible operation of one goroutine. Requests
    end, with a reply or an error: the configured timeout is positive. */
module RpcPool {
  import opened Wrappers

  /** What a node's reply body decodes to. Every decoding attempt may write `result`.
      The JSON value null decodes without an error and leaves the pointer to the
      response nil, so the worker's next access panics. */
  datatype Body = Undecodable | NullReply | ErrorReply | GoodReply

  /** Where a worker is. `job` is the index of the address it holds. */
  datatype Phase =
    | Idle                            // receiving from the address channel
    | Posting(job: nat)               // inside httpPost
    | Replied(job: nat, body: Body)   // waiting for respLock
    | Locked(job: nat, body: Body)    // holds the lock, before testing ctx.Done
    | Decoding(job: nat, body: Body)  // holds the lock, ctx was not done
    | Offering(job: nat, body: Body)  // holds the lock, about to send to the slot
    | Cancelling(job: nat)            // response placed, about to cancel
    | Unlocking                       // about to release the lock
    | Panicked(job: nat)              // holds the lock; nothing recovers the panic
    | Gone

  datatype Main = Feeding | Waiting | Returned(outcome: Outcome)
  datatype Outcome = Success | NodeError | AllFailed | Cancelled

  datatype Reply = Reply(job: nat, body: Body)

  /** `placed` and `writes` log the replies that entered the slot and those that
      were decoded into `result`; `tried` and `failed` the jobs handed out and
      those that ended in a transport or decoding failure. A panic ends the whole
      process (`crashed`). */
  datatype State = State(total: nat, next: nat, main: Main, workers: seq<Phase>, lock: Option<nat>,
                         slot: Option<Body>, done: bool, parentDone: bool, crashed: bool,
                         placed: seq<Reply>, writes: seq<Reply>, tried: seq<nat>, failed: set<nat>)

  /** n workers and `total` addresses. */
  function Init(total: nat, n: nat): State {
    State(total, 0, Feeding, seq(n, _ => Idle), None, None, false, false, false, [], [], [], {})
  }

  datatype Event =
    | Feed(w: nat) | Skip | CloseChannel | Return | ParentCancel
    | PostOk(w: nat, body: Body) | PostError(w: nat) | NoDialContext(w: nat)
    | Acquire(w: nat) | TestDone(w: nat) | Decode(w: nat) | Place(w: nat) | GiveUp(w: nat)
    | Cancel(w: nat) | Release(w: nat) | Drain(w: nat)

  function At(s: State, w: nat): Phase {
    if w < |s.workers| then s.workers[w] else Gone
  }

  /** `dialable` says whether the configuration exposes a dial context; without one a
      worker leaves as soon as it has taken an address. */
  predicate Enabled(dialable: bool, s: State, e: Event) {
    !s.crashed &&
    match e
    case Feed(w) => s.main.Feeding? && s.next < s.total && At(s, w).Idle?
    case Skip => s.main.Feeding? && s.next < s.total && s.done
    case CloseChannel => s.main.Feeding? && s.next == s.total
    case Return => s.main.Waiting? && forall i :: 0 <= i < |s.workers| ==> s.workers[i].Gone?
    case ParentCancel => !s.parentDone && !s.main.Returned?
    case PostOk(w, _) => dialable && At(s, w).Posting?
    case PostError(w) => dialable && At(s, w).Posting?
    case NoDialContext(w) => !dialable && At(s, w).Posting?
    case Acquire(w) => At(s, w).Replied? && s.lock.None?
    case TestDone(w) => At(s, w).Locked?
    case Decode(w) => At(s, w).Decoding?
    case Place(w) => At(s, w).Offering? && s.slot.None?
    case GiveUp(w) => At(s, w).Offering? && s.done
    case Cancel(w) => At(s, w).Cancelling?
    case Release(w) => At(s, w).Unlocking?
    case Drain(w) => At(s, w).Idle? && !s.main.Feeding?
  }

  function Put(s: State, w: nat, p: Phase): State
    requires w < |s.workers|
  {
    s.(workers := s.workers[w := p])
  }

  function Apply(dialable: bool, s: State, e: Event): State
    requires Enabled(dialable, s, e)
  {
    match e
    case Feed(w) => Put(s, w, Posting(s.next)).(next := s.next + 1, tried := s.tried + [s.next])
    case Skip => s.(next := s.next + 1)
    case CloseChannel => s.(main := Waiting)
    case Return => s.(main := Returned(if s.parentDone then Cancelled
                                       else if s.slot.None? then AllFailed
                                       else if s.slot.value.GoodReply? then Success else NodeError))
    case ParentCancel => s.(parentDone := true, done := true)
    case PostOk(w, body) => Put(s, w, Replied(s.workers[w].job, body))
    case PostError(w) =>
      Put(s, w, if s.done then Gone else Idle).(failed := s.failed + {s.workers[w].job})
    case NoDialContext(w) => Put(s, w, Gone)
    case Acquire(w) => Put(s, w, Locked(s.workers[w].job, s.workers[w].body)).(lock := Some(w))
    case TestDone(w) =>
      if s.done then Put(s, w, Gone).(lock := None)
      else Put(s, w, Decoding(s.workers[w].job, s.workers[w].body))
    case Decode(w) =>
      var job, body := s.workers[w].job, s.workers[w].body;
      var s' := s.(writes := s.writes + [Reply(job, body)]);
      if body.Undecodable? then Put(s', w, Idle).(lock := None, failed := s.failed + {job})
      else if body.NullReply? then Put(s', w, Panicked(job)).(crashed := true)
      else Put(s', w, Offering(job, body))
    case Place(w) =>
      var job, body := s.workers[w].job, s.workers[w].body;
      Put(s, w, Cancelling(job)).(slot := Some(body), placed := s.placed + [Reply(job, body)])
    case GiveUp(w) => Put(s, w, Unlocking)
    case Cancel(w) => Put(s, w, Unlocking).(done := true)
    case Release(w) => Put(s, w, Gone).(lock := None)
    case Drain(w) => Put(s, w, Gone)
  }

  /** A run: every event enabled where it happens. */
  predicate IsRun(dialable: bool, s: State, es: seq<Event>)
    decreases |es|
  {
    es == [] || (IsRun(dialable, s, es[..|es| - 1])
                 && Enabled(dialable, After(dialable, s, es[..|es| - 1]), es[|es| - 1]))
  }

  function After(dialable: bool, s: State, es: seq<Event>): State
    decreases |es|
  {
    if es == [] then s
    else var s' := After(dialable, s, es[..|es| - 1]);
         if Enabled(dialable, s', es[|es| - 1]) then Apply(dialable, s', es[|es| - 1]) else s'
  }

  // ------------------------------------------------------- single winner

  predicate Holding(p: Phase) {
    p.Locked? || p.Decoding? || p.Offering? || p.Cancelling? || p.Unlocking? || p.Panicked?
  }

  predicate IsResponse(b: Body) {
    b.ErrorReply? || b.GoodReply?
  }

  predicate LastIs(log: seq<Reply>, r: Reply) {
    log != [] && log[|log| - 1] == r
  }

  /** What worker w's phase says about the lock, the slot and the logs. */
  predicate PhaseOk(s: State, w: nat, p: Phase) {
    && (Holding(p) <==> s.lock == Some(w))
    && (p.Decoding? || p.Offering? ==> s.slot.None?)
    && (p.Offering? ==> LastIs(s.writes, Reply(p.job, p.body)) && IsResponse(p.body))
    && (p.Cancelling? ==> s.slot.Some?)
    && (p.Panicked? ==> s.crashed)
  }

  predicate WinnerInv(s: State) {
    && (forall w :: 0 <= w < |s.workers| ==> PhaseOk(s, w, s.workers[w]))
    && (s.lock.Some? ==> s.lock.value < |s.workers|)
    && (s.slot.None? ==> s.placed == [])
    && (s.slot.Some? ==> |s.placed| == 1 && s.placed[0].body == s.slot.value && LastIs(s.writes, s.placed[0]))
    && (s.slot.Some? && !s.done ==> s.lock.Some? && s.workers[s.lock.value].Cancelling?)
    && (s.slot.Some? ==> IsResponse(s.slot.value))
  }

  /** After the return no worker is left and the outcome tells what is in the slot. */
  predicate ReturnInv(s: State) {
    s.main.Returned? ==>
      && (forall w :: 0 <= w < |s.workers| ==> s.workers[w].Gone?)
      && (s.main.outcome.Success? ==> s.slot == Some(GoodReply))
      && (s.main.outcome.NodeError? ==> s.slot == Some(ErrorReply))
  }

  lemma StepKeepsReturn(dialable: bool, s: State, e: Event)
    requires WinnerInv(s) && ReturnInv(s) && Enabled(dialable, s, e)
    ensures ReturnInv(Apply(dialable, s, e)) && !s.main.Returned?
  {
  }

  /** Steps of the feeder and of the caller. */
  predicate IsGlobal(e: Event) {
    e.Skip? || e.CloseChannel? || e.Return? || e.ParentCancel?
  }

  /** Steps a worker takes without the lock, before and after. */
  predicate IsUnlocked(e: Event) {
    e.Feed? || e.PostOk? || e.PostError? || e.NoDialContext? || e.Drain?
  }

  lemma GlobalKeepsWinner(dialable: bool, s: State, e: Event)
    requires WinnerInv(s) && Enabled(dialable, s, e) && IsGlobal(e)
    ensures WinnerInv(Apply(dialable, s, e))
  {
  }

  lemma UnlockedKeepsWinner(dialable: bool, s: State, e: Event)
    requires WinnerInv(s) && Enabled(dialable, s, e) && IsUnlocked(e)
    ensures WinnerInv(Apply(dialable, s, e))
  {
  }

  lemma DecidingKeepsWinner(dialable: bool, s: State, e: Event)
    requires WinnerInv(s) && Enabled(dialable, s, e) && (e.Acquire? || e.TestDone? || e.Decode?)
    ensures WinnerInv(Apply(dialable, s, e))
  {
  }

  lemma AnsweringKeepsWinner(dialable: bool, s: State, e: Event)
    requires WinnerInv(s) && Enabled(dialable, s, e) && (e.Place? || e.GiveUp? || e.Cancel? || e.Release?)
    ensures WinnerInv(Apply(dialable, s, e))
  {
  }

  lemma StepKeepsWinner(dialable: bool, s: State, e: Event)
    requires WinnerInv(s) && Enabled(dialable, s, e)
    ensures WinnerInv(Apply(dialable, s, e))
  {
    if IsGlobal(e) {
      GlobalKeepsWinner(dialable, s, e);
    } else if IsUnlocked(e) {
      UnlockedKeepsWinner(dialable, s, e);
    } else if e.Acquire? || e.TestDone? || e.Decode? {
      DecidingKeepsWinner(dialable, s, e);
    } else {
      AnsweringKeepsWinner(dialable, s, e);
    }
  }

  lemma StepKeepsPlaced(dialable: bool, s: State, e: Event)
    requires WinnerInv(s) && Enabled(dialable, s, e) && s.slot.Some?
    ensures var s' := Apply(dialable, s, e); s'.slot == s.slot && s'.writes == s.writes && s'.placed == s.placed
  {
  }

  lemma {:induction false} RunKeepsWinner(dialable: bool, total: nat, n: nat, es: seq<Event>)
    requires IsRun(dialable, Init(total, n), es)
    ensures WinnerInv(After(dialable, Init(total, n), es)) && ReturnInv(After(dialable, Init(total, n), es))
  {
    if es != [] {
      var s := After(dialable, Init(total, n), es[..|es| - 1]);
      RunKeepsWinner(dialable, total, n, es[..|es| - 1]);
      StepKeepsWinner(dialable, s, es[|es| - 1]);
      StepKeepsReturn(dialable, s, es[|es| - 1]);
    }
  }

  /** At most one response is ever placed, a worker about to send finds the slot
      empty, and a nil return means the placed reply was good and was the last
      one decoded into `result`. */
  predicate OneWinner(s: State) {
    && |s.placed| <= 1
    && (forall w :: 0 <= w < |s.workers| && s.workers[w].Offering? ==> s.slot.None?)
    && (s.main == Returned(Success) ==>
          |s.placed| == 1 && s.placed[0].body.GoodReply? && LastIs(s.writes, s.placed[0]))
    && (s.main == Returned(NodeError) ==>
          |s.placed| == 1 && s.placed[0].body.ErrorReply? && LastIs(s.writes, s.placed[0]))
  }

  /** In every interleaving of any number of workers there is a single winner. */
  lemma {:induction false} SingleWinner(dialable: bool, total: nat, n: nat, es: seq<Event>)
    requires IsRun(dialable, Init(total, n), es)
    ensures OneWinner(After(dialable, Init(total, n), es))
  {
    RunKeepsWinner(dialable, total, n, es);
  }

  /** After a cancellation from outside, a worker about to send its response finds both
      cases of its select ready. */
  lemma MayGiveUp(dialable: bool, s: State, w: nat)
    requires WinnerInv(s) && !s.crashed && s.done && w < |s.workers| && s.workers[w].Offering?
    ensures Enabled(dialable, s, Place(w)) && Enabled(dialable, s, GiveUp(w))
  {
    assert PhaseOk(s, w, s.workers[w]);
  }

  /** What the call returns: an error if its caller cancelled it, and otherwise what the
      placed response says, or that all requests failed if there is none. */
  predicate OutcomeInv(s: State, cancelled: bool) {
    && s.parentDone == cancelled
    && (s.main.Returned? ==>
          && (s.main.outcome.Cancelled? <==> cancelled)
          && (!cancelled ==>
                && (s.main.outcome.AllFailed? <==> s.placed == [])
                && (s.main.outcome.Success? <==> s.placed != [] && s.placed[0].body.GoodReply?)
                && (s.main.outcome.NodeError? <==> s.placed != [] && s.placed[0].body.ErrorReply?)))
  }

  lemma StepKeepsOutcome(dialable: bool, s: State, e: Event, cancelled: bool)
    requires WinnerInv(s) && ReturnInv(s) && OutcomeInv(s, cancelled) && Enabled(dialable, s, e)
    ensures OutcomeInv(Apply(dialable, s, e), cancelled || e.ParentCancel?)
  {
    StepKeepsReturn(dialable, s, e);
  }

  lemma UncancelledLast(es: seq<Event>)
    requires es != []
    ensures Uncancelled(es) <==> Uncancelled(es[..|es| - 1]) && !es[|es| - 1].ParentCancel?
  {
  }

  /** Over every run; the cancellation of ctx by the winner itself plays no part. */
  lemma {:induction false} OutcomeExactly(dialable: bool, s0: State, total: nat, n: nat, es: seq<Event>)
    requires s0 == Init(total, n) && IsRun(dialable, s0, es)
    ensures OutcomeInv(After(dialable, s0, es), !Uncancelled(es))
  {
    if es != [] {
      var init, e := es[..|es| - 1], es[|es| - 1];
      OutcomeExactly(dialable, s0, total, n, init);
      RunKeepsWinner(dialable, total, n, init);
      StepKeepsOutcome(dialable, After(dialable, s0, init), e, !Uncancelled(init));
      UncancelledLast(es);
    }
  }

  /** The worker has its response, or is about its last request. */
  predicate Leaving(p: Phase, done: bool) {
    || p.Offering? || p.Cancelling? || p.Unlocking? || p.Panicked? || p.Gone?
    || (done && (p.Posting? || p.Replied? || p.Locked?))
  }

  lemma StepKeepsLeaving(dialable: bool, s: State, e: Event, w: nat)
    requires Enabled(dialable, s, e) && w < |s.workers| && Leaving(s.workers[w], s.done)
    ensures w < |Apply(dialable, s, e).workers| && Leaving(Apply(dialable, s, e).workers[w], Apply(dialable, s, e).done)
  {
  }

  /** A worker that decoded a response never takes another address, and once the call
      is cancelled, by the winner or from outside, neither does one with a request
      under way. */
  lemma {:induction false} LeavesForGood(dialable: bool, s0: State, es: seq<Event>, k: nat, w: nat)
    requires IsRun(dialable, s0, es) && k <= |es| && w < |After(dialable, s0, es[..k]).workers|
    requires var s := After(dialable, s0, es[..k]); Leaving(s.workers[w], s.done)
    ensures var s := After(dialable, s0, es); w < |s.workers| && Leaving(s.workers[w], s.done)
    decreases |es|
  {
    if k == |es| {
      assert es[..k] == es;
    } else {
      var init := es[..|es| - 1];
      assert init[..k] == es[..k];
      LeavesForGood(dialable, s0, init, k, w);
      StepKeepsLeaving(dialable, After(dialable, s0, init), es[|es| - 1], w);
    }
  }

  /** Once a response is placed, the slot and `result` never change again. */
  lemma {:induction false} PlacedIsFinal(dialable: bool, total: nat, n: nat, es: seq<Event>, k: nat)
    requires IsRun(dialable, Init(total, n), es) && k <= |es|
    requires After(dialable, Init(total, n), es[..k]).slot.Some?
    ensures var s, s' := After(dialable, Init(total, n), es[..k]), After(dialable, Init(total, n), es);
      s'.slot == s.slot && s'.writes == s.writes && s'.placed == s.placed
    decreases |es|
  {
    if k == |es| {
      assert es[..k] == es;
    } else {
      var init := es[..|es| - 1];
      assert init[..k] == es[..k];
      PlacedIsFinal(dialable, total, n, init, k);
      RunKeepsWinner(dialable, total, n, init);
      StepKeepsPlaced(dialable, After(dialable, Init(total, n), init), es[|es| - 1]);
    }
  }

  // -------------------------------------------------- exhaustive failover

  function JobOf(p: Phase): Option<nat> {
    match p
    case Idle => None
    case Unlocking => None
    case Gone => None
    case _ => Some(p.job)
  }

  /** Job k ended in failure or is still in some worker's hands. */
  predicate Accounted(s: State, k: nat) {
    k in s.failed || exists w :: 0 <= w < |s.workers| && JobOf(s.workers[w]) == Some(k)
  }

  predicate Increasing(log: seq<nat>, bound: nat) {
    && (forall i, j :: 0 <= i < j < |log| ==> log[i] < log[j])
    && (forall i :: 0 <= i < |log| ==> log[i] < bound)
  }

  /** The feeder hands addresses out in order, and only cancellation makes it skip one
      or a worker leave early. */
  predicate FeederInv(s: State) {
    && s.next <= s.total
    && Increasing(s.tried, s.next)
    && (s.done ==> s.parentDone || s.slot.Some?)
    && (s.parentDone ==> s.done)
    && (!s.main.Feeding? ==> s.next == s.total)
    && (!s.done ==>
          && (forall k: nat :: k < s.next ==> k in s.tried)
          && (forall w :: 0 <= w < |s.workers| ==>
                !s.workers[w].Unlocking? && (s.workers[w].Gone? ==> !s.main.Feeding?)))
  }

  /** Until somebody cancels, every job handed out is accounted for. */
  predicate FailoverInv(s: State) {
    && FeederInv(s)
    && (!s.done ==> forall k: nat :: k < s.next ==> Accounted(s, k))
    && (s.main == Returned(AllFailed) ==> forall k: nat :: k < s.total ==> k in s.tried && k in s.failed)
  }

  lemma StepKeepsFeeder(s: State, e: Event)
    requires WinnerInv(s) && FeederInv(s) && Enabled(true, s, e)
    ensures FeederInv(Apply(true, s, e))
  {
    if !IsGlobal(e) {
      WorkerStep(true, s, e);
    }
  }

  lemma StepKeepsAccounts(s: State, e: Event, k: nat)
    requires Enabled(true, s, e) && !Apply(true, s, e).done
    requires Accounted(s, k) || (e.Feed? && k == s.next)
    ensures Accounted(Apply(true, s, e), k)
  {
    var s' := Apply(true, s, e);
    if k !in s.failed {
      var w: nat :| w < |s.workers| && (JobOf(s.workers[w]) == Some(k) || (e.Feed? && k == s.next && w == e.w));
      assert k in s'.failed || JobOf(s'.workers[w]) == Some(k);
    }
  }

  lemma ReturnIsExhaustive(s: State)
    requires FailoverInv(s) && !s.done && s.main.Waiting?
    requires forall w :: 0 <= w < |s.workers| ==> s.workers[w].Gone?
    ensures forall k: nat :: k < s.total ==> k in s.tried && k in s.failed
  {
    forall k: nat | k < s.total
      ensures k in s.failed
    {
      assert Accounted(s, k);
    }
  }

  lemma StepKeepsFailover(s: State, e: Event)
    requires WinnerInv(s) && ReturnInv(s) && FailoverInv(s) && Enabled(true, s, e)
    ensures FailoverInv(Apply(true, s, e))
  {
    var s' := Apply(true, s, e);
    StepKeepsFeeder(s, e);
    StepKeepsReturn(true, s, e);
    if s'.main == Returned(AllFailed) {
      ReturnIsExhaustive(s);
    }
    if !s'.done {
      forall k: nat | k < s'.next
        ensures Accounted(s', k)
      {
        StepKeepsAccounts(s, e, k);
      }
    }
  }

  lemma {:induction false} RunKeepsFailover(total: nat, n: nat, es: seq<Event>)
    requires IsRun(true, Init(total, n), es)
    ensures FailoverInv(After(true, Init(total, n), es))
  {
    if es != [] {
      RunKeepsFailover(total, n, es[..|es| - 1]);
      RunKeepsWinner(true, total, n, es[..|es| - 1]);
      StepKeepsFailover(After(true, Init(total, n), es[..|es| - 1]), es[|es| - 1]);
    }
  }

  // ---------------------------------------------- without a dial context

  function Busy(ps: seq<Phase>): nat {
    if ps == [] then 0 else Busy(ps[..|ps| - 1]) + if ps[|ps| - 1].Idle? then 0 else 1
  }

  lemma {:induction false} BusyUpdate(ps: seq<Phase>, w: nat, p: Phase)
    requires w < |ps|
    ensures Busy(ps[w := p]) == Busy(ps) - (if ps[w].Idle? then 0 else 1) + (if p.Idle? then 0 else 1)
  {
    var k := |ps| - 1;
    if w == k {
      assert ps[w := p][..k] == ps[..k];
    } else {
      assert ps[w := p][..k] == ps[..k][w := p];
      BusyUpdate(ps[..k], w, p);
    }
  }

  lemma {:induction false} SomeIdle(ps: seq<Phase>) returns (w: nat)
    requires Busy(ps) < |ps|
    ensures w < |ps| && ps[w].Idle?
  {
    w := |ps| - 1;
    if !ps[w].Idle? {
      w := SomeIdle(ps[..w]);
    }
  }

  lemma {:induction false} BusyIdle(n: nat)
    ensures Busy(seq(n, _ => Idle)) == 0
  {
    if n > 0 {
      assert seq(n, _ => Idle)[..n - 1] == seq(n - 1, _ => Idle);
      BusyIdle(n - 1);
    }
  }

  /** No request is ever made: nothing fails, nothing is decoded, nothing is placed.
      A worker is used up by each address handed out. */
  predicate UndialedInv(s: State) {
    && s.next <= s.total && Increasing(s.tried, s.next)
    && (!s.main.Feeding? ==> s.next == s.total)
    && s.done == s.parentDone && s.slot.None? && s.failed == {} && s.writes == [] && s.placed == []
    && (forall w :: 0 <= w < |s.workers| ==> s.workers[w].Idle? || s.workers[w].Posting? || s.workers[w].Gone?)
    && (!s.done ==> forall k: nat :: k < s.next ==> k in s.tried)
    && (s.main.Feeding? ==> Busy(s.workers) <= s.next)
    && (s.main.Returned? ==> s.main.outcome == if s.parentDone then Cancelled else AllFailed)
  }

  lemma StepKeepsUndialed(s: State, e: Event)
    requires UndialedInv(s) && ReturnInv(s) && WinnerInv(s) && Enabled(false, s, e)
    ensures UndialedInv(Apply(false, s, e))
  {
    StepKeepsReturn(false, s, e);
    if !IsGlobal(e) {
      BusyUpdate(s.workers, e.w, Apply(false, s, e).workers[e.w]);
    }
  }

  lemma {:induction false} RunKeepsUndialed(total: nat, n: nat, es: seq<Event>)
    requires IsRun(false, Init(total, n), es)
    ensures UndialedInv(After(false, Init(total, n), es))
  {
    if es == [] {
      BusyIdle(n);
    } else {
      RunKeepsUndialed(total, n, es[..|es| - 1]);
      RunKeepsWinner(false, total, n, es[..|es| - 1]);
      StepKeepsUndialed(After(false, Init(total, n), es[..|es| - 1]), es[|es| - 1]);
    }
  }

  /** Without a dial context no request is made, and a call that returns reports
      "all rpc request failed" unless its caller cancelled it. */
  lemma {:induction false} NothingRequested(total: nat, n: nat, es: seq<Event>)
    requires IsRun(false, Init(total, n), es)
    ensures var s := After(false, Init(total, n), es);
      && s.failed == {} && s.writes == [] && s.placed == []
      && (s.main.Returned? ==> s.main.outcome == if s.parentDone then Cancelled else AllFailed)
  {
    RunKeepsUndialed(total, n, es);
  }

  // ------------------------------------------------------ any configuration

  /** Jobs in workers' hands and failed jobs were handed out before. */
  predicate JobsBelow(s: State) {
    && (forall w :: 0 <= w < |s.workers| && JobOf(s.workers[w]).Some? ==> JobOf(s.workers[w]).value < s.next)
    && (forall k :: k in s.failed ==> k < s.next)
    && (forall i :: 0 <= i < |s.writes| ==> s.writes[i].job < s.next)
  }

  lemma StepKeepsJobs(dialable: bool, s: State, e: Event)
    requires JobsBelow(s) && Enabled(dialable, s, e)
    ensures JobsBelow(Apply(dialable, s, e))
  {
    if !IsGlobal(e) {
      WorkerStep(dialable, s, e);
      assert JobOf(s.workers[e.w]).Some? ==> JobOf(s.workers[e.w]).value < s.next;
    }
  }

  lemma {:induction false} RunKeepsJobs(dialable: bool, total: nat, n: nat, es: seq<Event>)
    requires IsRun(dialable, Init(total, n), es)
    ensures JobsBelow(After(dialable, Init(total, n), es))
  {
    if es != [] {
      RunKeepsJobs(dialable, total, n, es[..|es| - 1]);
      StepKeepsJobs(dialable, After(dialable, Init(total, n), es[..|es| - 1]), es[|es| - 1]);
    }
  }

  /** Each address is handed out at most once, and "all rpc request failed" means that
      every one was; with a dial context each of them failed, without one none did. */
  predicate Exhausted(dialable: bool, s: State) {
    && (forall i, j :: 0 <= i < j < |s.tried| ==> s.tried[i] != s.tried[j])
    && (s.main == Returned(AllFailed) ==>
          && (forall k: nat :: k < s.total ==> k in s.tried && (k in s.failed <==> dialable))
          && (s.failed == {} <==> !dialable || s.total == 0))
  }

  lemma {:induction false} ExhaustiveFailover(dialable: bool, total: nat, n: nat, es: seq<Event>)
    requires IsRun(dialable, Init(total, n), es)
    ensures Exhausted(dialable, After(dialable, Init(total, n), es))
  {
    RunKeepsJobs(dialable, total, n, es);
    if dialable {
      RunKeepsFailover(total, n, es);
      ExhaustedDialed(After(true, Init(total, n), es));
    } else {
      RunKeepsUndialed(total, n, es);
      ExhaustedUndialed(After(false, Init(total, n), es));
    }
  }

  lemma ExhaustedDialed(s: State)
    requires FailoverInv(s) && JobsBelow(s)
    ensures Exhausted(true, s)
  {
    if s.main == Returned(AllFailed) && s.total > 0 {
      assert 0 in s.failed;
    }
  }

  lemma ExhaustedUndialed(s: State)
    requires UndialedInv(s)
    ensures Exhausted(false, s)
  {
  }

  // ------------------------------------------------ progress, termination

  function Weight(p: Phase): nat {
    match p
    case Idle => 1 case Posting(_) => 8 case Replied(_, _) => 7 case Locked(_, _) => 6 case Decoding(_, _) => 5
    case Offering(_, _) => 4 case Cancelling(_) => 3 case Unlocking => 2 case Panicked(_) => 1 case Gone => 0
  }

  function Weights(ps: seq<Phase>): nat {
    if ps == [] then 0 else Weights(ps[..|ps| - 1]) + Weight(ps[|ps| - 1])
  }

  lemma {:induction false} WeightsUpdate(ps: seq<Phase>, w: nat, p: Phase)
    requires w < |ps|
    ensures Weights(ps[w := p]) == Weights(ps) - Weight(ps[w]) + Weight(p)
  {
    var k := |ps| - 1;
    if w == k {
      assert ps[w := p][..k] == ps[..k];
    } else {
      assert ps[w := p][..k] == ps[..k][w := p];
      WeightsUpdate(ps[..k], w, p);
    }
  }

  function Measure(s: State): int {
    8 * (s.total - s.next) + Weights(s.workers)
    + (if s.main.Feeding? then 2 else if s.main.Waiting? then 1 else 0)
    + (if s.parentDone then 0 else 1)
  }

  /** A worker's step lowers its own weight, or takes an address and raises it by less
      than that address weighed. */
  lemma WorkerStep(dialable: bool, s: State, e: Event)
    requires Enabled(dialable, s, e) && !IsGlobal(e)
    ensures var s' := Apply(dialable, s, e);
      && e.w < |s.workers| && s'.workers == s.workers[e.w := s'.workers[e.w]]
      && s'.main == s.main && s'.parentDone == s.parentDone && s'.total == s.total
      && s'.next == s.next + (if e.Feed? then 1 else 0)
      && Weight(s'.workers[e.w]) < Weight(s.workers[e.w]) + (if e.Feed? then 8 else 0)
  {
  }

  lemma StepDecreases(dialable: bool, s: State, e: Event)
    requires Enabled(dialable, s, e)
    ensures Measure(Apply(dialable, s, e)) < Measure(s)
  {
    if !IsGlobal(e) {
      WorkerStep(dialable, s, e);
      WeightsUpdate(s.workers, e.w, Apply(dialable, s, e).workers[e.w]);
    }
  }

  lemma StepKeepsShape(dialable: bool, s: State, e: Event)
    requires Enabled(dialable, s, e) && s.next <= s.total
    ensures var s' := Apply(dialable, s, e); s'.next <= s'.total == s.total && |s'.workers| == |s.workers|
  {
  }

  /** The run used up at least one unit of measure per step. */
  predicate Spent(s: State, total: nat, n: nat, steps: nat) {
    steps + Measure(s) <= 8 * total + n + 3 && s.next <= s.total == total && |s.workers| == n
  }

  lemma {:induction false} RunDecreases(dialable: bool, total: nat, n: nat, es: seq<Event>)
    requires IsRun(dialable, Init(total, n), es)
    ensures Spent(After(dialable, Init(total, n), es), total, n, |es|)
  {
    if es == [] {
      WeightsIdle(n);
    } else {
      var s := After(dialable, Init(total, n), es[..|es| - 1]);
      RunDecreases(dialable, total, n, es[..|es| - 1]);
      StepDecreases(dialable, s, es[|es| - 1]);
      StepKeepsShape(dialable, s, es[|es| - 1]);
    }
  }

  lemma {:induction false} WeightsIdle(n: nat)
    ensures Weights(seq(n, _ => Idle)) == n
  {
    if n > 0 {
      assert seq(n, _ => Idle)[..n - 1] == seq(n - 1, _ => Idle);
      WeightsIdle(n - 1);
    }
  }

  /** Some goroutine of the call itself can move. */
  ghost predicate CanMove(dialable: bool, s: State) {
    exists e :: Enabled(dialable, s, e) && !e.ParentCancel?
  }

  lemma WorkerMoves(s: State, w: nat) returns (e: Event)
    requires WinnerInv(s) && !s.crashed && w < |s.workers| && !s.workers[w].Gone? && !s.workers[w].Idle?
    ensures Enabled(true, s, e) && !e.ParentCancel? && !e.PostOk?
  {
    var p := s.workers[w];
    e := if p.Posting? then PostError(w)
         else if !p.Replied? then Holder(w, p)
         else if s.lock.None? then Acquire(w)
         else Holder(s.lock.value, s.workers[s.lock.value]);
  }

  /** The next step of the worker that holds the lock. */
  function Holder(w: nat, p: Phase): Event {
    match p
    case Locked(_, _) => TestDone(w)
    case Decoding(_, _) => Decode(w)
    case Offering(_, _) => Place(w)
    case Cancelling(_) => Cancel(w)
    case _ => Release(w)
  }

  /** What it takes for the call to return: a worker for every address, or a dial
      context and a worker. */
  predicate MayReturn(dialable: bool, total: nat, n: nat) {
    total <= n || (dialable && n > 0)
  }

  lemma ProgressDialed(s: State) returns (e: Event)
    requires WinnerInv(s) && FeederInv(s) && !s.main.Returned? && !s.crashed
    requires MayReturn(true, s.total, |s.workers|)
    ensures Enabled(true, s, e) && !e.ParentCancel? && !e.PostOk?
  {
    if w: nat :| w < |s.workers| && !s.workers[w].Gone? && !s.workers[w].Idle? {
      e := WorkerMoves(s, w);
    } else if s.main.Feeding? {
      e := if s.next == s.total then CloseChannel else if s.done then Skip else Feed(0);
    } else {
      e := if w: nat :| w < |s.workers| && s.workers[w].Idle? then Drain(w) else Return;
    }
  }

  lemma ProgressUndialed(s: State)
    requires UndialedInv(s) && !s.main.Returned? && !s.crashed && s.total <= |s.workers|
    ensures CanMove(false, s)
  {
    if w: nat :| w < |s.workers| && s.workers[w].Posting? {
      assert Enabled(false, s, NoDialContext(w)) && !NoDialContext(w).ParentCancel?;
    } else if !s.main.Feeding? {
      var e := if w: nat :| w < |s.workers| && s.workers[w].Idle? then Drain(w) else Return;
      assert Enabled(false, s, e) && !e.ParentCancel?;
    } else if s.next == s.total {
      assert Enabled(false, s, CloseChannel) && !CloseChannel.ParentCancel?;
    } else {
      var w := SomeIdle(s.workers);
      assert Enabled(false, s, Feed(w)) && !Feed(w).ParentCancel?;
    }
  }

  /** In every reachable state before the return, unless a worker panicked, some step of
      the call is enabled. */
  lemma {:induction false} Progress(dialable: bool, total: nat, n: nat, es: seq<Event>)
    requires IsRun(dialable, Init(total, n), es) && MayReturn(dialable, total, n)
    requires !After(dialable, Init(total, n), es).main.Returned? && !After(dialable, Init(total, n), es).crashed
    ensures CanMove(dialable, After(dialable, Init(total, n), es))
  {
    RunDecreases(dialable, total, n, es);
    if dialable {
      RunKeepsWinner(true, total, n, es);
      RunKeepsFailover(total, n, es);
      var e := ProgressDialed(After(true, Init(total, n), es));
    } else {
      RunKeepsUndialed(total, n, es);
      ProgressUndialed(After(false, Init(total, n), es));
    }
  }

  /** Every run is at most 8 * addresses + workers + 3 steps long, whatever the
      configuration and the interleaving. */
  lemma {:induction false} Termination(dialable: bool, total: nat, n: nat, es: seq<Event>)
    requires IsRun(dialable, Init(total, n), es)
    ensures |es| <= 8 * total + n + 3
  {
    RunDecreases(dialable, total, n, es);
    MeasureNonNegative(After(dialable, Init(total, n), es));
  }

  lemma MeasureNonNegative(s: State)
    requires s.next <= s.total
    ensures Measure(s) >= 0
  {
  }

  // ---------------------------------------------------------- null replies

  predicate NullDecoded(log: seq<Reply>) {
    exists i :: 0 <= i < |log| && log[i].body.NullReply?
  }

  /** The process crashed exactly if a null reply was decoded; then nothing was placed
      and the call has not returned. */
  predicate CrashInv(s: State) {
    && (s.crashed <==> NullDecoded(s.writes))
    && (s.crashed ==> s.slot.None? && !s.main.Returned?)
  }

  lemma StepKeepsCrash(dialable: bool, s: State, e: Event)
    requires WinnerInv(s) && ReturnInv(s) && CrashInv(s) && Enabled(dialable, s, e)
    ensures CrashInv(Apply(dialable, s, e))
  {
    var s' := Apply(dialable, s, e);
    StepKeepsReturn(dialable, s, e);
    if e.Decode? {
      assert s'.writes[|s.writes|].body == s.workers[e.w].body;
      assert forall i :: 0 <= i < |s.writes| ==> s'.writes[i] == s.writes[i];
    }
  }

  /** Over every run. */
  lemma {:induction false} CrashedExactly(dialable: bool, total: nat, n: nat, es: seq<Event>)
    requires IsRun(dialable, Init(total, n), es)
    ensures CrashInv(After(dialable, Init(total, n), es))
  {
    if es != [] {
      var s := After(dialable, Init(total, n), es[..|es| - 1]);
      CrashedExactly(dialable, total, n, es[..|es| - 1]);
      RunKeepsWinner(dialable, total, n, es[..|es| - 1]);
      StepKeepsCrash(dialable, s, es[|es| - 1]);
    }
  }

  predicate HasReply(p: Phase) {
    p.Replied? || p.Locked? || p.Decoding?
  }

  predicate HasNull(p: Phase) {
    HasReply(p) && p.body.NullReply?
  }

  /** A worker in this phase may still place a response, possibly after taking a
      further address. */
  predicate MayAnswer(p: Phase, addressesLeft: bool) {
    || p.Posting? || p.Offering? || p.Cancelling?
    || (HasReply(p) && (IsResponse(p.body) || (p.body.Undecodable? && addressesLeft)))
    || (p.Idle? && addressesLeft)
  }

  predicate SomeMayAnswer(ps: seq<Phase>, addressesLeft: bool) {
    exists w :: 0 <= w < |ps| && MayAnswer(ps[w], addressesLeft)
  }

  /** The lock holder is past the test of ctx.Done with a null reply, or bound to pass it. */
  predicate Fatal(ps: seq<Phase>, done: bool) {
    exists w :: 0 <= w < |ps| && HasNull(ps[w]) && (ps[w].Decoding? || (ps[w].Locked? && !done))
  }

  /** A null reply waits for the lock and no other worker can cancel the call before it. */
  predicate Cornered(ps: seq<Phase>, done: bool, addressesLeft: bool) {
    !done && !SomeMayAnswer(ps, addressesLeft) && exists w :: 0 <= w < |ps| && HasNull(ps[w])
  }

  predicate Doomed(s: State) {
    Fatal(s.workers, s.done) || Cornered(s.workers, s.done, s.next < s.total)
  }

  /** Only a cancellation from outside can save a doomed call. */
  lemma FatalStays(s: State, e: Event)
    requires WinnerInv(s) && Enabled(true, s, e) && !e.ParentCancel? && Fatal(s.workers, s.done)
    ensures Apply(true, s, e).crashed || Fatal(Apply(true, s, e).workers, Apply(true, s, e).done)
  {
    var s' := Apply(true, s, e);
    var w :| 0 <= w < |s.workers| && HasNull(s.workers[w]) && (s.workers[w].Decoding? || (s.workers[w].Locked? && !s.done));
    assert PhaseOk(s, w, s.workers[w]);
    if !s'.crashed {
      assert HasNull(s'.workers[w]) && (s'.workers[w].Decoding? || (s'.workers[w].Locked? && !s'.done));
    }
  }

  lemma CorneredStays(s: State, e: Event)
    requires WinnerInv(s) && FeederInv(s) && Enabled(true, s, e) && !e.ParentCancel?
    requires Cornered(s.workers, s.done, s.next < s.total)
    ensures Apply(true, s, e).crashed || Doomed(Apply(true, s, e))
  {
    var s' := Apply(true, s, e);
    var w :| 0 <= w < |s.workers| && HasNull(s.workers[w]);
    if !s'.crashed {
      assert HasNull(s'.workers[w]);
      assert forall i :: 0 <= i < |s.workers| ==> !MayAnswer(s.workers[i], s.next < s.total);
      assert !SomeMayAnswer(s'.workers, s'.next < s'.total);
    }
  }

  lemma DoomedStays(s: State, e: Event)
    requires WinnerInv(s) && FeederInv(s) && Doomed(s) && Enabled(true, s, e) && !e.ParentCancel?
    ensures Apply(true, s, e).crashed || Doomed(Apply(true, s, e))
  {
    if Fatal(s.workers, s.done) {
      FatalStays(s, e);
    } else {
      CorneredStays(s, e);
    }
  }

  /** A call that is not doomed has a step that keeps it so. */
  lemma SafeMove(s: State) returns (e: Event)
    requires WinnerInv(s) && FeederInv(s) && !s.crashed && !Doomed(s) && !s.main.Returned?
    requires MayReturn(true, s.total, |s.workers|)
    ensures Enabled(true, s, e) && !e.ParentCancel? && !Apply(true, s, e).crashed && !Doomed(Apply(true, s, e))
  {
    if s.done || forall w :: 0 <= w < |s.workers| ==> !HasNull(s.workers[w]) {
      e := ProgressDialed(s);
      HarmlessMove(s, e);
    } else if s.lock.Some? {
      e := Holder(s.lock.value, s.workers[s.lock.value]);
      HolderMove(s);
    } else {
      var w :| 0 <= w < |s.workers| && MayAnswer(s.workers[w], s.next < s.total);
      assert PhaseOk(s, w, s.workers[w]);
      e := if s.workers[w].Idle? then Feed(w) else if s.workers[w].Posting? then PostOk(w, GoodReply) else Acquire(w);
      WinningMove(s, w, e);
    }
  }

  /** With the call cancelled, or no null reply at hand, any step but a reply is safe. */
  lemma HarmlessMove(s: State, e: Event)
    requires WinnerInv(s) && Enabled(true, s, e) && !e.PostOk? && !Fatal(s.workers, s.done)
    requires s.done || forall w :: 0 <= w < |s.workers| ==> !HasNull(s.workers[w])
    ensures !Apply(true, s, e).crashed && !Doomed(Apply(true, s, e))
  {
    var s' := Apply(true, s, e);
    NoNewNull(s, e);
    if !s.done {
      assert forall w :: 0 <= w < |s'.workers| ==> !HasNull(s'.workers[w]);
    }
  }

  /** A worker's step takes no null reply past the test of ctx.Done once that is set. */
  lemma NullPhase(s: State, e: Event)
    requires Enabled(true, s, e) && !e.PostOk? && !IsGlobal(e)
    ensures e.w < |s.workers| == |Apply(true, s, e).workers|
    ensures var p, p' := s.workers[e.w], Apply(true, s, e).workers[e.w];
      HasNull(p') ==> HasNull(p) && (p'.Decoding? ==> p.Decoding? || (p.Locked? && !s.done))
  {
  }

  lemma NoNewNull(s: State, e: Event)
    requires WinnerInv(s) && Enabled(true, s, e) && !e.PostOk?
    ensures var s' := Apply(true, s, e);
      && |s'.workers| == |s.workers| && (s.done ==> s'.done)
      && forall w :: 0 <= w < |s'.workers| && HasNull(s'.workers[w]) ==>
           HasNull(s.workers[w]) && (s'.workers[w].Decoding? ==> s.workers[w].Decoding? || (s.workers[w].Locked? && !s.done))
  {
    if !IsGlobal(e) {
      NullPhase(s, e);
      WorkerStep(true, s, e);
    }
  }

  lemma HolderMove(s: State)
    requires WinnerInv(s) && FeederInv(s) && !s.crashed && !Fatal(s.workers, s.done) && !s.done && s.lock.Some?
    requires SomeMayAnswer(s.workers, s.next < s.total)
    ensures var e := Holder(s.lock.value, s.workers[s.lock.value]);
      Enabled(true, s, e) && !e.ParentCancel? && !Apply(true, s, e).crashed && !Doomed(Apply(true, s, e))
  {
    var h := s.lock.value;
    var e := Holder(h, s.workers[h]);
    assert PhaseOk(s, h, s.workers[h]);
    var s' := Apply(true, s, e);
    var w :| 0 <= w < |s.workers| && MayAnswer(s.workers[w], s.next < s.total);
    assert s'.done || MayAnswer(s'.workers[w], s'.next < s'.total);
    assert !Fatal(s'.workers, s'.done);
  }

  /** The step brings a worker that may answer closer to answering. */
  lemma WinningMove(s: State, w: nat, e: Event)
    requires WinnerInv(s) && FeederInv(s) && !s.crashed && !Fatal(s.workers, s.done) && !s.done && s.lock.None?
    requires w < |s.workers| && MayAnswer(s.workers[w], s.next < s.total)
    requires e == if s.workers[w].Idle? then Feed(w) else if s.workers[w].Posting? then PostOk(w, GoodReply) else Acquire(w)
    ensures Enabled(true, s, e) && !Apply(true, s, e).crashed && !Doomed(Apply(true, s, e))
  {
    assert PhaseOk(s, w, s.workers[w]);
    var s' := Apply(true, s, e);
    assert MayAnswer(s'.workers[w], s'.next < s'.total);
    assert !Fatal(s'.workers, s'.done);
  }

  // --------------------------------------------------- when it does return

  predicate Uncancelled(es: seq<Event>) {
    forall i :: 0 <= i < |es| ==> !es[i].ParentCancel?
  }

  /** `more` continues the run `es`, without the caller's help, until the call returns. */
  predicate Completes(dialable: bool, s0: State, es: seq<Event>, more: seq<Event>) {
    IsRun(dialable, s0, es + more) && Uncancelled(more) && After(dialable, s0, es + more).main.Returned?
  }

  ghost predicate CanReturn(dialable: bool, s0: State, es: seq<Event>) {
    exists more :: Completes(dialable, s0, es, more)
  }

  /** No node replied null so far. */
  predicate NullFree(es: seq<Event>) {
    forall i :: 0 <= i < |es| && es[i].PostOk? ==> !es[i].body.NullReply?
  }

  /** Every run that its caller does not cancel can be continued until it returns;
      `nulls` says whether nodes may reply null. */
  ghost predicate AlwaysReturns(dialable: bool, total: nat, n: nat, nulls: bool) {
    forall es :: IsRun(dialable, Init(total, n), es) && Uncancelled(es) && (nulls || NullFree(es)) ==>
      CanReturn(dialable, Init(total, n), es)
  }

  lemma Continue(dialable: bool, s0: State, es: seq<Event>, e: Event)
    requires IsRun(dialable, s0, es) && Enabled(dialable, After(dialable, s0, es), e)
    ensures IsRun(dialable, s0, es + [e])
  {
    assert (es + [e])[..|es|] == es;
  }

  lemma CompletesBefore(dialable: bool, s0: State, es: seq<Event>, e: Event, more: seq<Event>)
    requires !e.ParentCancel? && Completes(dialable, s0, es + [e], more)
    ensures Completes(dialable, s0, es, [e] + more)
  {
    assert es + [e] + more == es + ([e] + more);
  }

  /** No worker can panic any more without another reply, and none did. */
  predicate Hopeful(s: State) {
    !s.crashed && !Doomed(s)
  }

  lemma UndialedIsHopeful(s: State)
    requires UndialedInv(s) && CrashInv(s)
    ensures Hopeful(s)
  {
  }

  lemma {:induction false} NextMove(dialable: bool, total: nat, n: nat, es: seq<Event>, s: State) returns (e: Event)
    requires IsRun(dialable, Init(total, n), es) && MayReturn(dialable, total, n)
    requires s == After(dialable, Init(total, n), es) && Hopeful(s) && !s.main.Returned?
    ensures Enabled(dialable, s, e) && !e.ParentCancel? && (dialable ==> Hopeful(Apply(dialable, s, e)))
  {
    if dialable {
      RunKeepsWinner(true, total, n, es);
      RunKeepsFailover(total, n, es);
      RunDecreases(true, total, n, es);
      e := SafeMove(s);
    } else {
      Progress(false, total, n, es);
      e :| Enabled(false, s, e) && !e.ParentCancel?;
    }
  }

  lemma {:induction false} StaysHopeful(dialable: bool, total: nat, n: nat, es: seq<Event>)
    requires IsRun(dialable, Init(total, n), es) && !dialable
    ensures Hopeful(After(dialable, Init(total, n), es))
  {
    RunKeepsUndialed(total, n, es);
    CrashedExactly(false, total, n, es);
    UndialedIsHopeful(After(false, Init(total, n), es));
  }

  /** Every run that is neither crashed nor doomed can be continued until it returns. */
  lemma {:induction false} Completion(dialable: bool, total: nat, n: nat, es: seq<Event>, s0: State) returns (more: seq<Event>)
    requires s0 == Init(total, n) && IsRun(dialable, s0, es) && MayReturn(dialable, total, n)
    requires Hopeful(After(dialable, s0, es))
    ensures Completes(dialable, s0, es, more)
    decreases 8 * total + n + 3 - |es|
  {
    var s := After(dialable, s0, es);
    if s.main.Returned? {
      more := [];
      assert es + more == es;
    } else {
      var e := NextMove(dialable, total, n, es, s);
      Continue(dialable, s0, es, e);
      Termination(dialable, total, n, es + [e]);
      if !dialable {
        StaysHopeful(dialable, total, n, es + [e]);
      }
      var rest := Completion(dialable, total, n, es + [e], s0);
      CompletesBefore(dialable, s0, es, e, rest);
      more := [e] + rest;
    }
  }

  lemma HopelessStep(s: State, e: Event)
    requires WinnerInv(s) && FeederInv(s) && !Hopeful(s) && Enabled(true, s, e) && !e.ParentCancel?
    ensures !Hopeful(Apply(true, s, e))
  {
    DoomedStays(s, e);
  }

  lemma RunSplit(dialable: bool, s0: State, es: seq<Event>, e: Event)
    requires IsRun(dialable, s0, es + [e])
    ensures IsRun(dialable, s0, es) && Enabled(dialable, After(dialable, s0, es), e)
    ensures After(dialable, s0, es + [e]) == Apply(dialable, After(dialable, s0, es), e)
  {
    assert (es + [e])[..|es|] == es;
  }

  lemma {:induction false} HopelessStays(total: nat, n: nat, es: seq<Event>, more: seq<Event>, s0: State)
    requires s0 == Init(total, n) && IsRun(true, s0, es + more) && Uncancelled(more)
    requires !Hopeful(After(true, s0, es))
    ensures !Hopeful(After(true, s0, es + more))
    decreases |more|
  {
    if more == [] {
      assert es + more == es;
    } else {
      var k := |more| - 1;
      var init := es + more[..k];
      assert es + more == init + [more[k]];
      RunSplit(true, s0, init, more[k]);
      HopelessStays(total, n, es, more[..k], s0);
      RunKeepsWinner(true, total, n, init);
      RunKeepsFailover(total, n, init);
      HopelessStep(After(true, s0, init), more[k]);
    }
  }

  lemma HopelessIsNoReturn(s: State)
    requires ReturnInv(s) && CrashInv(s) && !Hopeful(s)
    ensures !s.main.Returned?
  {
  }

  /** Given the workers it needs, a run can be continued until it returns if and only
      if no worker panicked and none is bound to. */
  lemma {:induction false} ReturnsUnlessDoomed(dialable: bool, total: nat, n: nat, es: seq<Event>)
    requires IsRun(dialable, Init(total, n), es) && MayReturn(dialable, total, n)
    ensures CanReturn(dialable, Init(total, n), es) <==> Hopeful(After(dialable, Init(total, n), es))
  {
    var s0 := Init(total, n);
    if Hopeful(After(dialable, s0, es)) {
      var more := Completion(dialable, total, n, es, s0);
    } else {
      if !dialable {
        StaysHopeful(dialable, total, n, es);
      }
      forall more
        ensures !Completes(dialable, s0, es, more)
      {
        if Completes(dialable, s0, es, more) {
          HopelessStays(total, n, es, more, s0);
          RunKeepsWinner(true, total, n, es + more);
          CrashedExactly(true, total, n, es + more);
          HopelessIsNoReturn(After(true, s0, es + more));
        }
      }
    }
  }

  /** No null reply at hand or decoded. */
  predicate Clean(s: State) {
    !s.crashed && forall w :: 0 <= w < |s.workers| ==> !HasNull(s.workers[w])
  }

  lemma StepKeepsClean(dialable: bool, s: State, e: Event)
    requires Clean(s) && Enabled(dialable, s, e) && (e.PostOk? ==> !e.body.NullReply?)
    ensures Clean(Apply(dialable, s, e))
  {
  }

  lemma {:induction false} NullFreeIsClean(dialable: bool, total: nat, n: nat, es: seq<Event>)
    requires IsRun(dialable, Init(total, n), es) && NullFree(es)
    ensures Clean(After(dialable, Init(total, n), es))
  {
    if es != [] {
      NullFreeIsClean(dialable, total, n, es[..|es| - 1]);
      StepKeepsClean(dialable, After(dialable, Init(total, n), es[..|es| - 1]), es[|es| - 1]);
    }
  }

  lemma CleanIsHopeful(s: State)
    requires Clean(s)
    ensures Hopeful(s)
  {
  }

  /** A call without addresses never sees a reply. */
  lemma {:induction false} NoAddressIsClean(dialable: bool, n: nat, es: seq<Event>)
    requires IsRun(dialable, Init(0, n), es)
    ensures Clean(After(dialable, Init(0, n), es))
  {
    RunKeepsJobs(dialable, 0, n, es);
    RunDecreases(dialable, 0, n, es);
    CrashedExactly(dialable, 0, n, es);
    NoJobIsClean(After(dialable, Init(0, n), es));
  }

  lemma NoJobIsClean(s: State)
    requires JobsBelow(s) && s.next == 0 && CrashInv(s)
    ensures Clean(s)
  {
    assert forall w :: 0 <= w < |s.workers| && HasNull(s.workers[w]) ==> JobOf(s.workers[w]).Some?;
  }

  /** One address, one worker and a null reply are enough for a panic. */
  function CrashingRun(): seq<Event> {
    [Feed(0)] + [PostOk(0, NullReply)] + [Acquire(0)] + [TestDone(0)] + [Decode(0)]
  }

  lemma NullReplyCrashes(total: nat, n: nat)
    requires total > 0 && n > 0
    ensures IsRun(true, Init(total, n), CrashingRun()) && Uncancelled(CrashingRun())
    ensures After(true, Init(total, n), CrashingRun()).crashed
  {
    var s0 := Init(total, n);
    var s1 := Apply(true, s0, Feed(0));
    var s2 := Apply(true, s1, PostOk(0, NullReply));
    var s3 := Apply(true, s2, Acquire(0));
    var s4 := Apply(true, s3, TestDone(0));
    Extend(true, s0, [], s0, Feed(0));
    assert [] + [Feed(0)] == [Feed(0)];
    Extend(true, s0, [Feed(0)], s1, PostOk(0, NullReply));
    Extend(true, s0, [Feed(0)] + [PostOk(0, NullReply)], s2, Acquire(0));
    Extend(true, s0, [Feed(0)] + [PostOk(0, NullReply)] + [Acquire(0)], s3, TestDone(0));
    Extend(true, s0, [Feed(0)] + [PostOk(0, NullReply)] + [Acquire(0)] + [TestDone(0)], s4, Decode(0));
  }

  lemma FirstTwoSteps(s0: State)
    requires s0.workers == [Idle] && s0.main.Feeding? && s0.next < s0.total && !s0.crashed
    ensures Enabled(true, s0, Feed(0)) && Enabled(true, Apply(true, s0, Feed(0)), PostOk(0, NullReply))
    ensures Apply(true, Apply(true, s0, Feed(0)), PostOk(0, NullReply)) ==
      s0.(workers := [Replied(s0.next, NullReply)], next := s0.next + 1, tried := s0.tried + [s0.next])
  {
  }

  lemma NullReplyReaches(s0: State)
    requires s0.workers == [Idle] && s0.main.Feeding? && s0.next < s0.total && !s0.crashed
    ensures Reaches(true, s0, [Feed(0)] + [PostOk(0, NullReply)],
                    s0.(workers := [Replied(s0.next, NullReply)], next := s0.next + 1, tried := s0.tried + [s0.next]))
  {
    FirstTwoSteps(s0);
    Extend(true, s0, [], s0, Feed(0));
    assert [] + [Feed(0)] == [Feed(0)];
    Extend(true, s0, [Feed(0)], Apply(true, s0, Feed(0)), PostOk(0, NullReply));
  }

  lemma LoneNullIsDoomed(s: State)
    requires s.workers == [Replied(0, NullReply)] && !s.done && s.next == s.total
    ensures Doomed(s)
  {
    assert HasNull(s.workers[0]);
  }

  /** With a single address and worker the null reply seals it: nobody panicked yet, and
      still the call can not return any more. */
  lemma NullReplyDooms()
    ensures var es := [Feed(0)] + [PostOk(0, NullReply)];
      && IsRun(true, Init(1, 1), es) && !After(true, Init(1, 1), es).crashed
      && !CanReturn(true, Init(1, 1), es)
  {
    assert Init(1, 1).workers == [Idle];
    NullReplyReaches(Init(1, 1));
    LoneNullIsDoomed(After(true, Init(1, 1), [Feed(0)] + [PostOk(0, NullReply)]));
    ReturnsUnlessDoomed(true, 1, 1, [Feed(0)] + [PostOk(0, NullReply)]);
  }

  lemma {:induction false} NoWayOut(dialable: bool, s0: State, es: seq<Event>, more: seq<Event>)
    requires IsRun(dialable, s0, es + more) && Uncancelled(more)
    requires !CanMove(dialable, After(dialable, s0, es))
    ensures more == []
    decreases |more|
  {
    assert es + [] == es;
    if more != [] {
      var k := |more| - 1;
      assert (es + more)[..|es + more| - 1] == es + more[..k];
      NoWayOut(dialable, s0, es, more[..k]);
      assert false;
    }
  }

  /** Without a dial context: worker after worker takes an address and leaves. */
  function UseUp(k: nat): seq<Event> {
    if k == 0 then [] else UseUp(k - 1) + [Feed(k - 1)] + [NoDialContext(k - 1)]
  }

  function UsedUp(total: nat, n: nat, k: nat): State {
    State(total, k, Feeding, seq(n, i => if i < k then Gone else Idle), None, None, false, false, false,
          [], [], seq(k, i => i), {})
  }

  /** An uncancelled run from s0 to s. */
  predicate Reaches(dialable: bool, s0: State, es: seq<Event>, s: State) {
    IsRun(dialable, s0, es) && After(dialable, s0, es) == s && Uncancelled(es)
  }

  lemma Extend(dialable: bool, s0: State, es: seq<Event>, s: State, e: Event)
    requires Reaches(dialable, s0, es, s) && Enabled(dialable, s, e) && !e.ParentCancel?
    ensures Reaches(dialable, s0, es + [e], Apply(dialable, s, e))
  {
    assert (es + [e])[..|es|] == es;
  }

  lemma UseOne(total: nat, n: nat, k: nat)
    requires k < n && k < total
    ensures var s := UsedUp(total, n, k);
      && Enabled(false, s, Feed(k))
      && Enabled(false, Apply(false, s, Feed(k)), NoDialContext(k))
      && Apply(false, Apply(false, s, Feed(k)), NoDialContext(k)) == UsedUp(total, n, k + 1)
  {
    var s2 := Apply(false, Apply(false, UsedUp(total, n, k), Feed(k)), NoDialContext(k));
    assert s2.workers == UsedUp(total, n, k + 1).workers;
    assert s2.tried == UsedUp(total, n, k + 1).tried;
  }

  lemma {:induction false} UsingUp(total: nat, n: nat, k: nat, s0: State)
    requires k <= n && k <= total && s0 == UsedUp(total, n, 0)
    ensures Reaches(false, s0, UseUp(k), UsedUp(total, n, k))
  {
    if k > 0 {
      var es, s := UseUp(k - 1), UsedUp(total, n, k - 1);
      UsingUp(total, n, k - 1, s0);
      UseOne(total, n, k - 1);
      Extend(false, s0, es, s, Feed(k - 1));
      Extend(false, s0, es + [Feed(k - 1)], Apply(false, s, Feed(k - 1)), NoDialContext(k - 1));
    }
  }

  lemma {:induction false} UseUpNullFree(k: nat)
    ensures NullFree(UseUp(k))
  {
    if k > 0 {
      UseUpNullFree(k - 1);
    }
  }

  /** With fewer workers than addresses, and no dial context or no worker at all, the
      feeder ends up waiting for ever, whatever the nodes reply. */
  lemma {:induction false} Stuck(dialable: bool, total: nat, n: nat, nulls: bool)
    requires !MayReturn(dialable, total, n)
    ensures !AlwaysReturns(dialable, total, n, nulls)
  {
    var es := if n == 0 then [] else UseUp(n);
    if n > 0 {
      assert Init(total, n).workers == UsedUp(total, n, 0).workers;
      UsingUp(total, n, n, Init(total, n));
      UseUpNullFree(n);
    }
    assert Reaches(dialable, Init(total, n), es, UsedUp(total, n, n));
    assert !CanMove(dialable, UsedUp(total, n, n));
    assert es + [] == es;
    forall more
      ensures !Completes(dialable, Init(total, n), es, more)
    {
      if Completes(dialable, Init(total, n), es, more) {
        NoWayOut(dialable, Init(total, n), es, more);
        assert false;
      }
    }
    assert !CanReturn(dialable, Init(total, n), es);
  }

  /** As long as no node replies null, every uncancelled run can be continued until the
      call returns exactly if there is a worker for every address, or a dial context
      and at least one worker. */
  lemma ReturnsExactly(dialable: bool, total: nat, n: nat)
    ensures AlwaysReturns(dialable, total, n, false) <==> MayReturn(dialable, total, n)
  {
    if MayReturn(dialable, total, n) {
      forall es | IsRun(dialable, Init(total, n), es) && NullFree(es)
        ensures CanReturn(dialable, Init(total, n), es)
      {
        NullFreeIsClean(dialable, total, n, es);
        CleanIsHopeful(After(dialable, Init(total, n), es));
        ReturnsUnlessDoomed(dialable, total, n, es);
      }
    } else {
      Stuck(dialable, total, n, false);
    }
  }

  /** Whatever the nodes reply, null included: only a call that makes no request. */
  lemma ReturnsWhateverTheReplies(dialable: bool, total: nat, n: nat)
    ensures AlwaysReturns(dialable, total, n, true) <==> total == 0 || (!dialable && total <= n)
  {
    if total == 0 || (!dialable && total <= n) {
      forall es | IsRun(dialable, Init(total, n), es)
        ensures CanReturn(dialable, Init(total, n), es)
      {
        if dialable {
          NoAddressIsClean(dialable, n, es);
          CleanIsHopeful(After(dialable, Init(total, n), es));
        } else {
          StaysHopeful(dialable, total, n, es);
        }
        ReturnsUnlessDoomed(dialable, total, n, es);
      }
    } else if !MayReturn(dialable, total, n) {
      Stuck(dialable, total, n, true);
    } else {
      NullReplyCrashes(total, n);
      ReturnsUnlessDoomed(true, total, n, CrashingRun());
      assert !CanReturn(true, Init(total, n), CrashingRun());
    }
  }
}
