/** Session demultiplexing. handleSessionMsg looks a session up (or creates it) under
    the session lock, releases the lock, and only then hands the data over and
    offers a new session to the accept queue; the two halves are separate steps
    that interleave freely with those of other messages. Strings are byte strings. */
module Sessions {
  import opened Wrappers
  import opened Identifier

  const ACCEPT_SESSION_BUF_SIZE: nat := 128

  datatype Error = ErrAddrNotAllowed | ErrNewSession

  datatype Session = Session(handle: nat, dialed: bool, addr: string, id: string)

  /** A message past the lookup: `created` says whether it made the session. */
  datatype Pending = Pending(session: Session, created: bool)

  /** `offered` lists the sessions that ever entered the accept queue. */
  datatype Table = Table(sessions: map<string, Session>, next: nat, pending: seq<Pending>,
                         queue: seq<Session>, offered: seq<Session>)

  const EMPTY := Table(map[], 0, [], [], [])

  datatype Event =
    | Lookup(src: string, id: string, allowed: bool, newOk: bool)
    | Deliver(k: nat, receiveOk: bool)
    | Dial(addr: string, dialId: string, dialOk: bool)
    | Accept

  function SessionKey(addr: string, id: string): string {
    addr + id
  }

  function Route(t: Table, src: string, id: string, allowed: bool, newOk: bool): Result<Pending, Error> {
    var addr := Strip(src);
    var key := SessionKey(addr, id);
    if key in t.sessions then Ok(Pending(t.sessions[key], false))
    else if !allowed then Err(ErrAddrNotAllowed)
    else if !newOk then Err(ErrNewSession)
    else Ok(Pending(Session(t.next, false, addr, id), true))
  }

  function Insert(t: Table, s: Session): Table {
    t.(sessions := t.sessions[SessionKey(s.addr, s.id) := s], next := t.next + 1)
  }

  function Offer(t: Table, s: Session): Table {
    if |t.queue| < ACCEPT_SESSION_BUF_SIZE then t.(queue := t.queue + [s], offered := t.offered + [s]) else t
  }

  function Step(t: Table, e: Event): Table {
    match e
    case Lookup(src, id, allowed, newOk) =>
      var r := Route(t, src, id, allowed, newOk);
      if r.Err? then t
      else
        var t' := if r.value.created then Insert(t, r.value.session) else t;
        t'.(pending := t.pending + [r.value])
    case Deliver(k, receiveOk) =>
      if k >= |t.pending| then t
      else
        var p, t' := t.pending[k], t.(pending := t.pending[..k] + t.pending[k + 1..]);
        if receiveOk && p.created then Offer(t', p.session) else t'
    case Dial(addr, dialId, dialOk) => if dialOk then Insert(t, Session(t.next, true, addr, dialId)) else t
    case Accept => if t.queue == [] then t else t.(queue := t.queue[1..])
  }

  class SessionTable {
    var sessions: map<string, Session>
    var next: nat
    var pending: seq<Pending>
    var acceptSession: seq<Session>
    ghost var offered: seq<Session>

    ghost function View(): Table
      reads this
    {
      Table(sessions, next, pending, acceptSession, offered)
    }

    constructor ()
      ensures View() == EMPTY
    {
      sessions, next, pending, acceptSession, offered := map[], 0, [], [], [];
    }

    /** The locked half of handleSessionMsg. */
    method LookupOrCreate(src: string, id: string, accept: string -> bool, newOk: bool)
      returns (r: Result<Pending, Error>)
      modifies this
      ensures r == Route(old(View()), src, id, accept(Strip(src)), newOk)
      ensures View() == Step(old(View()), Lookup(src, id, accept(Strip(src)), newOk))
      ensures r.Ok? && r.value.created ==> accept(r.value.session.addr)
    {
      var addr := RemoveIdentifier(src).0;
      var key := SessionKey(addr, id);
      var p: Pending;
      if key in sessions {
        p := Pending(sessions[key], false);
      } else {
        if !accept(addr) {
          return Err(ErrAddrNotAllowed);
        }
        if !newOk {
          return Err(ErrNewSession);
        }
        p := Pending(Session(next, false, addr, id), true);
        sessions := sessions[key := p.session];
        next := next + 1;
      }
      pending := pending + [p];
      return Ok(p);
    }

    /** The rest of handleSessionMsg, after the lock is released. */
    method ReceiveAndOffer(k: nat, receiveOk: bool)
      modifies this
      ensures View() == Step(old(View()), Deliver(k, receiveOk))
    {
      if k >= |pending| {
        return;
      }
      var p := pending[k];
      pending := pending[..k] + pending[k + 1..];
      if receiveOk && p.created && |acceptSession| < ACCEPT_SESSION_BUF_SIZE {
        acceptSession := acceptSession + [p.session];
        offered := offered + [p.session];
      }
    }

    method DialInsert(addr: string, id: string, newOk: bool)
      modifies this
      ensures View() == Step(old(View()), Dial(addr, id, newOk))
    {
      if newOk {
        sessions := sessions[SessionKey(addr, id) := Session(next, true, addr, id)];
        next := next + 1;
      }
    }

    method AcceptOne()
      modifies this
      ensures View() == Step(old(View()), Accept)
    {
      if acceptSession != [] {
        acceptSession := acceptSession[1..];
      }
    }
  }

  // ------------------------------------------------------------- all runs

  function After(es: seq<Event>): Table {
    if es == [] then EMPTY else Step(After(es[..|es| - 1]), es[|es| - 1])
  }

  /** Dialed ids are random: no session with that key exists yet. */
  predicate Fresh(t: Table, e: Event) {
    e.Dial? ==> SessionKey(e.addr, e.dialId) !in t.sessions
  }

  predicate FreshDials(es: seq<Event>) {
    es == [] || (FreshDials(es[..|es| - 1]) && Fresh(After(es[..|es| - 1]), es[|es| - 1]))
  }

  predicate Injective(t: Table) {
    && (forall k :: k in t.sessions ==> SessionKey(t.sessions[k].addr, t.sessions[k].id) == k && t.sessions[k].handle < t.next)
    && (forall k, k' :: k in t.sessions && k' in t.sessions && t.sessions[k].handle == t.sessions[k'].handle ==> k == k')
  }

  /** Nothing already stored is replaced. */
  predicate Extends(t: Table, t': Table) {
    forall k :: k in t.sessions ==> k in t'.sessions && t'.sessions[k] == t.sessions[k]
  }

  lemma InsertKeepsTable(t: Table, s: Session)
    requires Injective(t) && s.handle == t.next && SessionKey(s.addr, s.id) !in t.sessions
    ensures Injective(Insert(t, s)) && Extends(t, Insert(t, s))
  {
  }

  lemma StepKeepsTable(t: Table, e: Event)
    requires Injective(t) && Fresh(t, e)
    ensures Injective(Step(t, e)) && Extends(t, Step(t, e))
  {
    match e
    case Lookup(src, id, allowed, newOk) =>
      var r := Route(t, src, id, allowed, newOk);
      if r.Ok? && r.value.created {
        InsertKeepsTable(t, r.value.session);
      }
    case Dial(addr, dialId, dialOk) =>
      if dialOk {
        InsertKeepsTable(t, Session(t.next, true, addr, dialId));
      }
    case _ =>
  }

  lemma {:induction false} RunKeepsTable(es: seq<Event>, k: nat)
    requires FreshDials(es) && k <= |es|
    ensures Injective(After(es)) && Extends(After(es[..k]), After(es)) && FreshDials(es[..k])
    decreases |es|
  {
    if k == |es| {
      assert es[..k] == es;
      if es != [] {
        RunKeepsTable(es[..|es| - 1], 0);
        StepKeepsTable(After(es[..|es| - 1]), es[|es| - 1]);
      }
    } else {
      var init := es[..|es| - 1];
      assert init[..k] == es[..k];
      RunKeepsTable(init, k);
      StepKeepsTable(After(init), es[|es| - 1]);
    }
  }

  function Answer(es: seq<Event>, i: nat): Result<Pending, Error>
    requires i < |es| && es[i].Lookup?
  {
    Route(After(es[..i]), es[i].src, es[i].id, es[i].allowed, es[i].newOk)
  }

  function KeyAt(es: seq<Event>, i: nat): string
    requires i < |es| && es[i].Lookup?
  {
    SessionKey(Strip(es[i].src), es[i].id)
  }

  lemma AnswerIsStored(es: seq<Event>, i: nat)
    requires i < |es| && es[i].Lookup? && Answer(es, i).Ok?
    ensures var t := After(es[..i + 1]);
      KeyAt(es, i) in t.sessions && t.sessions[KeyAt(es, i)] == Answer(es, i).value.session
  {
    assert es[..i + 1][..i] == es[..i];
  }

  /** In any interleaving, two messages reach the same session exactly when their
      session keys agree. */
  lemma {:induction false} SameSessionIffSameKey(es: seq<Event>, i: nat, j: nat)
    requires FreshDials(es) && i < j < |es| && es[i].Lookup? && es[j].Lookup?
    requires Answer(es, i).Ok? && Answer(es, j).Ok?
    ensures Answer(es, i).value.session.handle == Answer(es, j).value.session.handle <==> KeyAt(es, i) == KeyAt(es, j)
  {
    AnswerIsStored(es, i);
    AnswerIsStored(es, j);
    RunKeepsTable(es, j + 1);
    assert es[..j + 1][..i + 1] == es[..i + 1];
    RunKeepsTable(es[..j + 1], i + 1);
  }

  /** The longer id spells out what the other base has in excess: base' is base and the
      first part of id, and id' is the rest of id. */
  predicate Absorbs(base: string, id: string, base': string, id': string) {
    |id| >= |id'| && base' == base + id[..|id| - |id'|] && id' == id[|id| - |id'|..]
  }

  /** Same base and id, or one base is the other extended by the surplus of the longer id. */
  predicate Meet(base: string, id: string, base': string, id': string) {
    Absorbs(base, id, base', id') || Absorbs(base', id', base, id)
  }

  lemma AbsorbsIsKeyEquality(base: string, id: string, base': string, id': string)
    requires |id| >= |id'|
    ensures SessionKey(base, id) == SessionKey(base', id') <==> Absorbs(base, id, base', id')
  {
    var d := |id| - |id'|;
    if base + id == base' + id' {
      assert base' == (base + id)[..|base'|] == base + id[..d];
      assert id' == (base + id)[|base'|..] == id[d..];
    }
    if Absorbs(base, id, base', id') {
      assert id == id[..d] + id[d..];
      assert base + id == (base + id[..d]) + id[d..];
    }
  }

  /** Exactly when two session keys are equal, for ids of any sizes; for ids of one
      size only if base and id are the same. */
  lemma KeysMeet(base: string, id: string, base': string, id': string)
    ensures SessionKey(base, id) == SessionKey(base', id') <==> Meet(base, id, base', id')
    ensures |id| == |id'| ==> (Meet(base, id, base', id') <==> base == base' && id == id')
  {
    if |id| >= |id'| {
      AbsorbsIsKeyEquality(base, id, base', id');
    }
    if |id'| >= |id| {
      AbsorbsIsKeyEquality(base', id', base, id);
    }
    if |id| == |id'| {
      assert base + id[..0] == base && base' + id'[..0] == base';
    }
  }

  /** In every interleaving two answered messages share a session exactly if they have
      the same base address and session id, whichever remote sub-client sent them,
      or one base is the other extended by the surplus of the longer id; the latter
      is impossible for ids of one size. */
  lemma {:induction false} Demultiplexing(es: seq<Event>, i: nat, j: nat)
    requires FreshDials(es) && i < j < |es| && es[i].Lookup? && es[j].Lookup?
    requires Answer(es, i).Ok? && Answer(es, j).Ok?
    ensures Answer(es, i).value.session.handle == Answer(es, j).value.session.handle <==>
      Meet(Strip(es[i].src), es[i].id, Strip(es[j].src), es[j].id)
    ensures |es[i].id| == |es[j].id| ==>
      (Answer(es, i).value.session.handle == Answer(es, j).value.session.handle <==>
         Strip(es[i].src) == Strip(es[j].src) && es[i].id == es[j].id)
  {
    SameSessionIffSameKey(es, i, j);
    KeysMeet(Strip(es[i].src), es[i].id, Strip(es[j].src), es[j].id);
  }

  lemma {:induction false} DialedIffSameKey(es: seq<Event>, i: nat, j: nat)
    requires FreshDials(es) && i < j < |es| && es[i].Dial? && es[i].dialOk && es[j].Lookup?
    requires Answer(es, j).Ok?
    ensures Answer(es, j).value.session == Session(After(es[..i]).next, true, es[i].addr, es[i].dialId) <==>
      KeyAt(es, j) == SessionKey(es[i].addr, es[i].dialId)
  {
    var key := SessionKey(es[i].addr, es[i].dialId);
    var dialed := Session(After(es[..i]).next, true, es[i].addr, es[i].dialId);
    assert es[..i + 1][..i] == es[..i];
    assert After(es[..i + 1]).sessions[key] == dialed;
    AnswerIsStored(es, j);
    RunKeepsTable(es, j + 1);
    assert es[..j + 1][..i + 1] == es[..i + 1];
    RunKeepsTable(es[..j + 1], i + 1);
    assert After(es[..j + 1]).sessions[key] == dialed;
  }

  /** An answer reaches the dialed session exactly under the same condition; with the
      dialed id's size, exactly if it carries that id and comes from a sub-client of
      the very address that was dialed. */
  lemma {:induction false} AnswersReachDialer(es: seq<Event>, i: nat, j: nat)
    requires FreshDials(es) && i < j < |es| && es[i].Dial? && es[i].dialOk && es[j].Lookup?
    requires Answer(es, j).Ok?
    ensures Answer(es, j).value.session == Session(After(es[..i]).next, true, es[i].addr, es[i].dialId) <==>
      Meet(Strip(es[j].src), es[j].id, es[i].addr, es[i].dialId)
    ensures |es[i].dialId| == |es[j].id| ==>
      (Answer(es, j).value.session == Session(After(es[..i]).next, true, es[i].addr, es[i].dialId) <==>
         Strip(es[j].src) == es[i].addr && es[j].id == es[i].dialId)
  {
    DialedIffSameKey(es, i, j);
    KeysMeet(Strip(es[j].src), es[j].id, es[i].addr, es[i].dialId);
  }

  lemma AnySubClient(base: string, a: int, b: int)
    requires Unprefixed(base)
    ensures Strip(AddIdentifier(base, a)) == Strip(AddIdentifier(base, b)) == base
  {
    StripsToBase(base, a);
    StripsToBase(base, b);
  }

  // ------------------------------------------------- two senders, one session

  /** A public key as it stands at the end of a client address. */
  predicate IsHexKey(s: string) {
    |s| == 64 && forall i :: 0 <= i < |s| ==> '0' <= s[i] <= '9' || 'a' <= s[i] <= 'f'
  }

  lemma HexKeyStrips(p: string, rest: string)
    requires IsHexKey(p)
    ensures Strip(p) == p && Strip(p + "." + rest) == p + "." + rest
  {
    assert '.' !in p;
    FirstDotOf(p, rest);
    assert (p + "." + rest)[..|p|] == p;
    assert !IsLabel(p) by {
      assert p[0] != '_' && p[..2][0] == p[0];
    }
  }

  /** What goes wrong with ids of different sizes. The client whose public key is p, and
      the client with identifier p and public key q, are different senders with
      different base addresses. If the first is let in and uses the session id
      "." + q + x, and the second uses the id x, then both messages reach one session,
      although the second sender is refused a session of its own. */
  lemma TwoSendersOneSession(p: string, q: string, x: string)
    requires IsHexKey(p) && IsHexKey(q)
    ensures var es := [Lookup(p, "." + q + x, true, true), Lookup(p + "." + q, x, false, false)];
      && FreshDials(es)
      && Strip(es[0].src) == p && Strip(es[1].src) == p + "." + q
      && Answer(es, 0).Ok? && Answer(es, 1).Ok?
      && Answer(es, 0).value.session == Answer(es, 1).value.session
  {
    var es := [Lookup(p, "." + q + x, true, true), Lookup(p + "." + q, x, false, false)];
    HexKeyStrips(p, q);
    assert es[..0] == [] && es[..1][..0] == [];
    assert FreshDials(es[..1]);
    AnswerIsStored(es, 0);
    assert KeyAt(es, 1) == KeyAt(es, 0) by {
      assert p + ("." + q + x) == (p + "." + q) + x;
    }
  }

  // --------------------------------------------------------- accept queue

  /** Created-and-pending sessions and offered ones are inbound, numbered below
      `next` and pairwise different; the queue holds the latest offered ones. */
  predicate QueueInv(t: Table) {
    && (forall i :: 0 <= i < |t.offered| ==> !t.offered[i].dialed && t.offered[i].handle < t.next)
    && (forall i :: 0 <= i < |t.pending| && t.pending[i].created ==>
          !t.pending[i].session.dialed && t.pending[i].session.handle < t.next)
    && (forall i, j :: 0 <= i < j < |t.offered| ==> t.offered[i].handle != t.offered[j].handle)
    && (forall i, j :: 0 <= i < j < |t.pending| && t.pending[i].created && t.pending[j].created ==>
          t.pending[i].session.handle != t.pending[j].session.handle)
    && (forall i, j :: 0 <= i < |t.offered| && 0 <= j < |t.pending| && t.pending[j].created ==>
          t.offered[i].handle != t.pending[j].session.handle)
    && |t.queue| <= 128
    && |t.queue| <= |t.offered| && t.queue == t.offered[|t.offered| - |t.queue|..]
  }

  lemma LookupKeepsQueue(t: Table, e: Event)
    requires QueueInv(t) && e.Lookup?
    ensures QueueInv(Step(t, e))
  {
  }

  /** Taking one pending message out leaves the others apart from it and each other. */
  lemma TakeKeepsQueue(t: Table, k: nat)
    requires QueueInv(t) && k < |t.pending|
    ensures var t' := t.(pending := t.pending[..k] + t.pending[k + 1..]);
      && QueueInv(t')
      && (t.pending[k].created ==>
            forall i :: 0 <= i < |t'.pending| && t'.pending[i].created ==>
              t'.pending[i].session.handle != t.pending[k].session.handle)
  {
    var rest := t.pending[..k] + t.pending[k + 1..];
    assert forall i :: 0 <= i < |rest| ==> rest[i] == if i < k then t.pending[i] else t.pending[i + 1];
  }

  lemma OfferKeepsQueue(t: Table, s: Session)
    requires QueueInv(t) && !s.dialed && s.handle < t.next
    requires forall i :: 0 <= i < |t.offered| ==> t.offered[i].handle != s.handle
    requires forall i :: 0 <= i < |t.pending| && t.pending[i].created ==> t.pending[i].session.handle != s.handle
    ensures QueueInv(Offer(t, s))
  {
  }

  lemma StepKeepsQueue(t: Table, e: Event)
    requires QueueInv(t)
    ensures QueueInv(Step(t, e))
  {
    match e
    case Lookup(_, _, _, _) => LookupKeepsQueue(t, e);
    case Deliver(k, receiveOk) =>
      if k < |t.pending| {
        TakeKeepsQueue(t, k);
        if receiveOk && t.pending[k].created {
          OfferKeepsQueue(t.(pending := t.pending[..k] + t.pending[k + 1..]), t.pending[k].session);
        }
      }
    case _ =>
  }

  /** Over every run: a session enters the accept queue at most once, a dialed one
      never does, the queue stays within its bound and is served in order. */
  lemma {:induction false} OfferedAtMostOnce(es: seq<Event>)
    ensures QueueInv(After(es))
  {
    if es != [] {
      OfferedAtMostOnce(es[..|es| - 1]);
      StepKeepsQueue(After(es[..|es| - 1]), es[|es| - 1]);
    }
  }

  // ----------------------------------------------------------- provenance

  /** Some message from the session's address, with its id, was let in. */
  predicate LetIn(es: seq<Event>, s: Session) {
    exists i :: 0 <= i < |es| && es[i].Lookup? && es[i].allowed && Strip(es[i].src) == s.addr && es[i].id == s.id
  }

  lemma LetInLater(es: seq<Event>, e: Event, s: Session)
    requires LetIn(es, s)
    ensures LetIn(es + [e], s)
  {
    var i :| 0 <= i < |es| && es[i].Lookup? && es[i].allowed && Strip(es[i].src) == s.addr && es[i].id == s.id;
    assert (es + [e])[i] == es[i];
  }

  /** Sessions not dialed, pending creations and offered sessions were all let in. */
  predicate Provenance(es: seq<Event>, t: Table) {
    && (forall k :: k in t.sessions && !t.sessions[k].dialed ==> LetIn(es, t.sessions[k]))
    && (forall i :: 0 <= i < |t.pending| && t.pending[i].created ==> LetIn(es, t.pending[i].session))
    && (forall i :: 0 <= i < |t.offered| ==> LetIn(es, t.offered[i]))
  }

  lemma ProvenanceLater(es: seq<Event>, e: Event, t: Table)
    requires Provenance(es, t)
    ensures Provenance(es + [e], t)
  {
    forall s | LetIn(es, s)
      ensures LetIn(es + [e], s)
    {
      LetInLater(es, e, s);
    }
  }

  lemma StepKeepsProvenance(es: seq<Event>, t: Table, e: Event)
    requires Provenance(es, t)
    ensures Provenance(es + [e], Step(t, e))
  {
    ProvenanceLater(es, e, t);
    if e.Lookup? {
      var r := Route(t, e.src, e.id, e.allowed, e.newOk);
      if r.Ok? && r.value.created {
        assert (es + [e])[|es|] == e;
        assert LetIn(es + [e], r.value.session);
      }
    }
  }

  /** Over every run: each session that was not dialed, and each one ever offered for
      acceptance, goes back to a message that was let in, from its own base address
      and with its own id. */
  lemma {:induction false} InboundWasLetIn(es: seq<Event>)
    ensures Provenance(es, After(es))
  {
    if es != [] {
      var init := es[..|es| - 1];
      InboundWasLetIn(init);
      StepKeepsProvenance(init, After(init), es[|es| - 1]);
      assert init + [es[|es| - 1]] == es;
    }
  }

  // --------------------------------------------------- whose session it is

  /** An answered message carries its session's own base address exactly if its id has
      the size of the session's id; then the ids agree too, and if the session was not
      dialed, a message from this very address was let in. */
  lemma {:induction false} OwnSender(es: seq<Event>, j: nat)
    requires FreshDials(es) && j < |es| && es[j].Lookup? && Answer(es, j).Ok?
    ensures var s := Answer(es, j).value.session;
      && (Strip(es[j].src) == s.addr <==> |es[j].id| == |s.id|)
      && (Strip(es[j].src) == s.addr ==> es[j].id == s.id)
      && (Strip(es[j].src) == s.addr && !s.dialed ==>
            exists i :: 0 <= i <= j && es[i].Lookup? && es[i].allowed && Strip(es[i].src) == Strip(es[j].src))
  {
    var s := Answer(es, j).value.session;
    AnswerIsStored(es, j);
    RunKeepsTable(es, j + 1);
    RunKeepsTable(es[..j + 1], j + 1);
    assert SessionKey(s.addr, s.id) == KeyAt(es, j);
    KeysMeet(Strip(es[j].src), es[j].id, s.addr, s.id);
    assert |Strip(es[j].src)| + |es[j].id| == |s.addr| + |s.id|;
    if Strip(es[j].src) == s.addr && !s.dialed {
      InboundWasLetIn(es[..j + 1]);
      assert LetIn(es[..j + 1], s);
    }
  }

  // ------------------------------------------- when a session is offered

  /** The event takes the message that created s out of those past the lookup. */
  predicate Takes(t: Table, e: Event, s: Session) {
    e.Deliver? && e.k < |t.pending| && t.pending[e.k] == Pending(s, true)
  }

  /** It was received, and the accept queue has room. */
  predicate Admits(t: Table, e: Event) {
    e.Deliver? && e.receiveOk && |t.queue| < 128
  }

  /** No message past the lookup created s, and none ever will. */
  predicate Decided(t: Table, s: Session) {
    && s.handle < t.next
    && forall i :: 0 <= i < |t.pending| && t.pending[i].created ==> t.pending[i].session.handle != s.handle
  }

  lemma TakingDecides(t: Table, e: Event, s: Session)
    requires QueueInv(t) && Takes(t, e, s)
    ensures Decided(Step(t, e), s)
    ensures s in Step(t, e).offered <==> Admits(t, e)
  {
    TakeKeepsQueue(t, e.k);
    assert s !in t.offered by {
      assert t.pending[e.k].created;
    }
  }

  lemma DecidedStays(t: Table, e: Event, s: Session)
    requires Decided(t, s)
    ensures Decided(Step(t, e), s) && (s in Step(t, e).offered <==> s in t.offered)
  {
    if e.Deliver? && e.k < |t.pending| {
      var rest := t.pending[..e.k] + t.pending[e.k + 1..];
      assert forall i :: 0 <= i < |rest| ==> rest[i] == if i < e.k then t.pending[i] else t.pending[i + 1];
    }
  }

  /** Over every run: a session is offered for acceptance if and only if, when the
      message that created it was handed over, that succeeded and the queue had room.
      Nothing later changes this. */
  lemma {:induction false} OfferedExactly(es: seq<Event>, d: nat, s: Session)
    requires d < |es| && Takes(After(es[..d]), es[d], s)
    ensures Decided(After(es), s)
    ensures s in After(es).offered <==> Admits(After(es[..d]), es[d])
    decreases |es|
  {
    var init := es[..|es| - 1];
    if d == |es| - 1 {
      OfferedAtMostOnce(init);
      TakingDecides(After(init), es[d], s);
    } else {
      assert init[..d] == es[..d];
      OfferedExactly(init, d, s);
      DecidedStays(After(init), es[|es| - 1], s);
    }
  }

  lemma NewlyOffered(t: Table, e: Event, s: Session)
    requires s in Step(t, e).offered && s !in t.offered
    ensures Takes(t, e, s) && Admits(t, e)
  {
  }

  predicate OfferedAt(es: seq<Event>, d: nat, s: Session) {
    d < |es| && Takes(After(es[..d]), es[d], s) && Admits(After(es[..d]), es[d])
  }

  /** Nor is it offered before, or if that message is never handed over. */
  lemma {:induction false} OfferedOnlyThen(es: seq<Event>, s: Session)
    requires s in After(es).offered
    ensures exists d: nat :: OfferedAt(es, d, s)
  {
    var k := |es| - 1;
    if s in After(es[..k]).offered {
      OfferedOnlyThen(es[..k], s);
      var d: nat :| OfferedAt(es[..k], d, s);
      assert es[..k][..d] == es[..d];
      assert OfferedAt(es, d, s);
    } else {
      NewlyOffered(After(es[..k]), es[k], s);
      assert OfferedAt(es, k, s);
    }
  }

  predicate Creates(es: seq<Event>, i: nat, s: Session) {
    i < |es| && es[i].Lookup? && Answer(es, i) == Ok(Pending(s, true))
  }

  lemma {:induction false} PendingWasCreated(es: seq<Event>, s: Session)
    requires Pending(s, true) in After(es).pending
    ensures exists i :: 0 <= i < |es| && Creates(es, i, s)
  {
    var k := |es| - 1;
    if Pending(s, true) in After(es[..k]).pending {
      PendingWasCreated(es[..k], s);
      var i :| 0 <= i < k && Creates(es[..k], i, s);
      assert es[..k][..i] == es[..i];
      assert Creates(es, i, s);
    } else {
      assert Creates(es, k, s);
    }
  }

  /** Offered or not, the session stays in the table and answers later messages, so one
      that was not offered is never offered: only a message that creates it would. */
  lemma {:induction false} StaysInTable(es: seq<Event>, d: nat, s: Session)
    requires FreshDials(es) && d < |es| && Takes(After(es[..d]), es[d], s)
    ensures exists i :: 0 <= i < d && Creates(es, i, s)
    ensures SessionKey(s.addr, s.id) in After(es).sessions && After(es).sessions[SessionKey(s.addr, s.id)] == s
  {
    PendingWasCreated(es[..d], s);
    var i :| 0 <= i < d && Creates(es[..d], i, s);
    assert es[..d][..i] == es[..i];
    assert Creates(es, i, s);
    AnswerIsStored(es, i);
    RunKeepsTable(es, i + 1);
  }

  // -------------------------------------------------- serving the queue

  /** How often Accept found a session waiting. */
  function Served(es: seq<Event>): nat {
    if es == [] then 0
    else var init := es[..|es| - 1];
         Served(init) + if es[|es| - 1].Accept? && After(init).queue != [] then 1 else 0
  }

  /** Over every run the queue holds what was offered and not yet served, so each Accept
      takes one session, the one offered longest ago. */
  lemma {:induction false} ServedInOrder(es: seq<Event>)
    ensures Served(es) <= |After(es).offered| && After(es).queue == After(es).offered[Served(es)..]
  {
    if es != [] {
      ServedInOrder(es[..|es| - 1]);
    }
  }

  /** Messages past the lookup, and messages handed over. */
  function Answered(es: seq<Event>): nat {
    if es == [] then 0
    else var k := |es| - 1;
         Answered(es[..k]) + if es[k].Lookup? && Answer(es, k).Ok? then 1 else 0
  }

  function HandedOver(es: seq<Event>): nat {
    if es == [] then 0
    else var k := |es| - 1;
         HandedOver(es[..k]) + if es[k].Deliver? && es[k].k < |After(es[..k]).pending| then 1 else 0
  }

  /** No answered message is lost or doubled before it is handed over. */
  lemma {:induction false} NothingLost(es: seq<Event>)
    ensures HandedOver(es) + |After(es).pending| == Answered(es)
  {
    if es != [] {
      NothingLost(es[..|es| - 1]);
    }
  }

  // ----------------------------------------------------- who gets an answer

  /** Event i puts a session under this key into the table, unless there is one. */
  predicate Introduces(e: Event, key: string) {
    || (e.Dial? && e.dialOk && e.addr + e.dialId == key)
    || (e.Lookup? && e.allowed && e.newOk && Strip(e.src) + e.id == key)
  }

  predicate Introduced(es: seq<Event>, n: nat, key: string) {
    exists i :: 0 <= i < n && i < |es| && Introduces(es[i], key)
  }

  lemma StepKnows(t: Table, e: Event, key: string)
    ensures key in Step(t, e).sessions <==> key in t.sessions || Introduces(e, key)
  {
  }

  lemma IntroducedNext(es: seq<Event>, k: nat, key: string)
    requires k < |es|
    ensures Introduced(es[..k], k, key) <==> Introduced(es, k, key)
    ensures Introduced(es, k + 1, key) <==> Introduced(es, k, key) || Introduces(es[k], key)
  {
    assert forall i :: 0 <= i < k ==> es[..k][i] == es[i];
  }

  lemma {:induction false} KnownExactly(es: seq<Event>, key: string)
    ensures key in After(es).sessions <==> Introduced(es, |es|, key)
  {
    if es != [] {
      var k := |es| - 1;
      KnownExactly(es[..k], key);
      IntroducedNext(es, k, key);
      StepKnows(After(es[..k]), es[k], key);
    }
  }

  /** Over every run a message is refused exactly if nothing before introduced its key
      and its address is not allowed or the session cannot be made, in this order;
      it creates the session exactly if it is answered and nothing before did. */
  lemma {:induction false} RefusedExactly(es: seq<Event>, j: nat)
    requires j < |es| && es[j].Lookup?
    ensures var known := Introduced(es, j, Strip(es[j].src) + es[j].id);
      Answer(es, j).Err? <==> !known && !(es[j].allowed && es[j].newOk)
    ensures Answer(es, j).Err? ==> Answer(es, j).error == if es[j].allowed then ErrNewSession else ErrAddrNotAllowed
    ensures Answer(es, j).Ok? ==>
      (Answer(es, j).value.created <==> !Introduced(es, j, Strip(es[j].src) + es[j].id))
  {
    var key := Strip(es[j].src) + es[j].id;
    KnownExactly(es[..j], key);
    IntroducedNext(es, j, key);
  }
}
