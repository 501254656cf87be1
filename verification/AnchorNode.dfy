/** An anchor's side of the survey: a session window that closes itself, and what each gateway
    command does to the anchor. */
module AnchorNode {
  import opened Addresses
  import opened Options
  import opened SurveyFit
  import opened SurveyTable
  import opened Gateway

  const REFRESH_S: int := 60
  const MAX_EXCHANGES: nat := 64
  const ANCHOR_ADDR_BASE: nat := 1
  const MAX_ANCHORS: nat := 4

  /** pos is what the anchor uses, stored what it finds after a reboot. A window session of 0
      is a closed window. */
  datatype Anchor = Anchor(
    addr: nat, eui: Eui, euiReady: bool, posValid: bool, pos: Vec, stored: Vec,
    winSession: nat, deadline: int, beginSeen: nat)

  /** Count, mean and deviation of a ranging batch. */
  datatype Batch = Batch(kept: nat, mean: int, sd: nat)

  /** Whether the window is open; an expired one closes here. */
  function Window(a: Anchor, now: int): (Anchor, bool) {
    if a.winSession == 0 then (a, false)
    else if now > a.deadline then (a.(winSession := 0), false)
    else (a, true)
  }

  function Refresh(a: Anchor, now: int): Anchor {
    if a.winSession != 0 then a.(deadline := now + 1000 * REFRESH_S) else a
  }

  function OnSurveyBegin(a: Anchor, now: int, session: nat, window: nat): (Anchor, Option<Frame>) {
    if session == 0 || !a.euiReady then (a, None)
    else
      var round := if session != a.winSession then 0 else a.beginSeen;
      (a.(beginSeen := if round < 255 then round + 1 else round, winSession := session, deadline := now + window * 1000),
       Some(Frame(a.addr, GATEWAY_ADDR, session, EnumRsp(a.eui, a.posValid, a.pos))))
  }

  /** Tests the session alone, not the deadline. */
  function OnSetPos(a: Anchor, now: int, session: nat, p: Vec, storeOk: bool): (Anchor, Option<Frame>) {
    if session != a.winSession then (a, None)
    else
      (Refresh(a, now).(pos := p, posValid := true, stored := if storeOk then p else a.stored),
       Some(Frame(a.addr, GATEWAY_ADDR, session, SetPosAck(p, storeOk))))
  }

  predicate Rangeable(a: Anchor, peer: nat) {
    peer != GATEWAY_ADDR && peer != a.addr && ANCHOR_ADDR_BASE <= peer < ANCHOR_ADDR_BASE + MAX_ANCHORS
  }

  /** Whether a command starts a ranging batch. */
  predicate Honours(a: Anchor, now: int, session: nat, peer: nat) {
    Window(a, now).1 && session == a.winSession && Rangeable(a, peer)
  }

  /** The clock is read once to test the window and once more to refresh it. */
  function OnRangeCmd(a: Anchor, now: int, later: int, session: nat, peer: nat, batch: Batch): (Anchor, Option<Frame>) {
    var (w, open) := Window(a, now);
    if !open || session != w.winSession then (w, None)
    else
      var r := Refresh(w, later);
      if !Rangeable(a, peer) then (r, None)
      else (r, Some(Frame(a.addr, GATEWAY_ADDR, session, RangeRsp(peer, batch.mean, batch.sd, batch.kept))))
  }

  function OnSurveyEnd(a: Anchor, session: nat): Anchor {
    if session != a.winSession then a else a.(winSession := 0, beginSeen := 0)
  }

  /** Everything an anchor's reaction depends on from outside: two readings of its clock, whether
      the flash write succeeds, and the batch its radio would measure. */
  datatype Local = Local(now: int, later: int, storeOk: bool, batch: Batch)

  /** One received frame: the new state and the reply, if any. */
  function Receive(a: Anchor, f: Frame, l: Local): (Anchor, Option<Frame>) {
    if f.src != GATEWAY_ADDR || (f.dest != BROADCAST && f.dest != a.addr) then (a, None)
    else match f.msg
      case SurveyBegin(window) => OnSurveyBegin(a, l.now, f.session, window)
      case SetPos(p) => OnSetPos(a, l.now, f.session, p, l.storeOk)
      case SurveyEnd => (OnSurveyEnd(a, f.session), None)
      case RangeCmd(peer, _) => OnRangeCmd(a, l.now, l.later, f.session, peer, l.batch)
      case _ => (a, None)
  }

  function Reboot(a: Anchor): Anchor {
    a.(pos := a.stored, winSession := 0, deadline := 0, beginSeen := 0)
  }

  // ---- The window over timed runs ----

  /** Whether the frame opens the window or extends it. */
  predicate Accepts(a: Anchor, f: Frame, l: Local) {
    && f.src == GATEWAY_ADDR && (f.dest == BROADCAST || f.dest == a.addr)
    && match f.msg
       case SurveyBegin(_) => f.session != 0 && a.euiReady
       case SetPos(_) => f.session == a.winSession
       case RangeCmd(_, _) => Window(a, l.now).1 && f.session == a.winSession
       case _ => false
  }

  /** What the radio hears: a survey frame, or one that is not the survey's, such as a beacon or
      a poll, on which the anchor asks whether its window is open. */
  datatype Arrival = Arrival(f: Frame, l: Local) | Alien(now: int)

  function Hear(a: Anchor, e: Arrival): Anchor {
    match e
    case Arrival(f, l) => Receive(a, f, l).0
    case Alien(now) => Window(a, now).0
  }

  /** An anchor, the time of the last frame it accepted, and the window the last accepted
      SURVEY_BEGIN asked for. */
  datatype Watch = Watch(a: Anchor, since: int, window: nat)

  function See(w: Watch, e: Arrival): Watch {
    var b := Hear(w.a, e);
    if e.Alien? || !Accepts(w.a, e.f, e.l) then w.(a := b)
    else Watch(b, if e.f.msg.RangeCmd? then e.l.later else e.l.now, if e.f.msg.SurveyBegin? then e.f.msg.window else w.window)
  }

  function SeeAll(w: Watch, es: seq<Arrival>): Watch
    decreases |es|
  {
    if es == [] then w else SeeAll(See(w, es[0]), es[1..])
  }

  function Reach(window: nat): int { 1000 * (if window > REFRESH_S then window else REFRESH_S) }

  ghost predicate WindowBound(w: Watch) { w.a.winSession != 0 ==> w.a.deadline <= w.since + Reach(w.window) }

  lemma SeeKeepsBound(w: Watch, e: Arrival)
    requires WindowBound(w)
    ensures WindowBound(See(w, e))
  {}

  lemma {:induction false} SeeAllKeepsBound(w: Watch, es: seq<Arrival>)
    requires WindowBound(w)
    ensures WindowBound(SeeAll(w, es))
    decreases |es|
  {
    if es != [] {
      SeeKeepsBound(w, es[0]);
      SeeAllKeepsBound(See(w, es[0]), es[1..]);
    }
  }

  /** An anchor that starts closed answers a RANGE_CMD with a batch only while its window is
      open, for the session that opened it, and no later after the last accepted gateway frame
      than the longer of the announced window and the refresh interval. */
  lemma RangingStaysInWindow(start: Anchor, es: seq<Arrival>, e: Arrival)
    requires start.winSession == 0 && e.Arrival? && e.f.msg.RangeCmd?
    ensures var w := SeeAll(Watch(start, 0, 0), es);
      Receive(w.a, e.f, e.l).1.Some? ==>
        && e.f.session == w.a.winSession != 0
        && e.l.now <= w.a.deadline
        && e.l.now <= w.since + Reach(w.window)
        && Honours(w.a, e.l.now, e.f.session, e.f.msg.peer)
  {
    SeeAllKeepsBound(Watch(start, 0, 0), es);
  }

  /** Coordinates are taken after the deadline too: a SETPOS takes effect with the window not
      open exactly when it names the session of a window that has expired but has not been
      asked about since (or session 0 with none open, which no gateway sends). */
  lemma SetPosOutsideWindow(a: Anchor, now: int, session: nat, p: Vec, storeOk: bool)
    ensures OnSetPos(a, now, session, p, storeOk).1.Some? && !Window(a, now).1
      <==> session == a.winSession && (a.winSession == 0 || now > a.deadline)
  {}

  predicate Addressed(addr: nat, f: Frame) { f.src == GATEWAY_ADDR && (f.dest == BROADCAST || f.dest == addr) }

  /** Whether the anchor asks about its window, or the session ends: a frame that is not the
      survey's, a RANGE_CMD of any session, or the session's own SURVEY_END. */
  predicate Closes(addr: nat, session: nat, e: Arrival) {
    e.Alien? || (Addressed(addr, e.f) && (e.f.msg.RangeCmd? || (e.f.msg.SurveyEnd? && e.f.session == session)))
  }

  /** A frame that opens a window or, as a late SETPOS does, opens the old one again. */
  predicate Reopens(addr: nat, session: nat, e: Arrival) {
    e.Arrival? && Addressed(addr, e.f) && (e.f.msg.SurveyBegin? || (e.f.msg.SetPos? && e.f.session == session))
  }

  function Moment(e: Arrival): int { match e case Arrival(_, l) => l.now case Alien(now) => now }

  lemma ExpiredStep(w: Watch, e: Arrival, session: nat)
    requires session != 0 && (w.a.winSession == 0 || w.a.winSession == session)
    requires Moment(e) > w.a.deadline && !Reopens(w.a.addr, session, e)
    ensures var a := See(w, e).a;
      && a.addr == w.a.addr && a.deadline == w.a.deadline && (a.winSession == 0 || a.winSession == session)
      && (a.winSession == session <==> w.a.winSession == session && !Closes(w.a.addr, session, e))
  {}

  lemma {:induction false} ExpiredStays(w: Watch, es: seq<Arrival>, session: nat)
    requires session != 0 && (w.a.winSession == 0 || w.a.winSession == session)
    requires forall e :: e in es ==> Moment(e) > w.a.deadline && !Reopens(w.a.addr, session, e)
    ensures var a := SeeAll(w, es).a;
      && a.deadline == w.a.deadline
      && (a.winSession == session <==> w.a.winSession == session && forall e :: e in es ==> !Closes(w.a.addr, session, e))
    decreases |es|
  {
    if es != [] {
      var rest := es[1..];
      assert es == [es[0]] + rest;
      ExpiredStep(w, es[0], session);
      ExpiredStays(See(w, es[0]), rest, session);
    }
  }

  /** After the deadline, and until a frame opens a window again, a SETPOS of the session is
      still taken if and only if nothing closed the window since: no frame that is not the
      survey's, no RANGE_CMD of any session, and no end of its own. */
  lemma LateSetPosTaken(start: Anchor, es: seq<Arrival>, now: int, p: Vec, storeOk: bool)
    requires start.winSession != 0 && now > start.deadline
    requires forall e :: e in es ==> Moment(e) > start.deadline && !Reopens(start.addr, start.winSession, e)
    ensures var a := SeeAll(Watch(start, 0, 0), es).a;
      && !Window(a, now).1
      && (OnSetPos(a, now, start.winSession, p, storeOk).1.Some? <==>
          forall e :: e in es ==> !Closes(start.addr, start.winSession, e))
  {
    ExpiredStays(Watch(start, 0, 0), es, start.winSession);
  }

  /** One beacon after the deadline is enough. */
  lemma BeaconClosesExample(p: Vec)
    ensures var a := Anchor(1, 7, true, false, ORIGIN, ORIGIN, 5, 1000, 1);
      && OnSetPos(SeeAll(Watch(a, 0, 0), []).a, 2000, 5, p, true).1.Some?
      && OnSetPos(SeeAll(Watch(a, 0, 0), [Alien(1001)]).a, 2000, 5, p, true).1.None?
  {
    var a := Anchor(1, 7, true, false, ORIGIN, ORIGIN, 5, 1000, 1);
    assert [Alien(1001)][1..] == [];
    assert SeeAll(Watch(a, 0, 0), [Alien(1001)]) == See(Watch(a, 0, 0), Alien(1001));
  }

  /** Such a late SETPOS re-opens the window. */
  lemma LateSetPosExample()
    ensures var a := Anchor(1, 7, true, false, ORIGIN, ORIGIN, 5, 1000, 1);
      var b := OnSetPos(a, 2000, 5, Vec(1.0, 2.0, 0.0), true).0;
      !Window(a, 2000).1 && b.pos == Vec(1.0, 2.0, 0.0) && Window(b, 62000).1
  {}

  // ---- Which commands are answered ----

  /** A RANGE_CMD is answered if and only if it is from the gateway to this anchor, the window is
      open for its session, and the peer is another anchor; the reply goes to the gateway in that
      session, names the peer and carries the batch, and the window is extended by 60 s. */
  lemma RangeCmdAnswered(a: Anchor, f: Frame, l: Local)
    requires f.msg.RangeCmd?
    ensures var (b, reply) := Receive(a, f, l);
      && (reply.Some? <==>
          && f.src == 0 && (f.dest == 0xFFFF || f.dest == a.addr)
          && a.winSession != 0 && f.session == a.winSession && l.now <= a.deadline
          && 1 <= f.msg.peer <= 4 && f.msg.peer != a.addr)
      && (reply.Some? ==>
          && reply.value == Frame(a.addr, 0, f.session, RangeRsp(f.msg.peer, l.batch.mean, l.batch.sd, l.batch.kept))
          && b == a.(deadline := l.later + 60000))
  {}

  /** A SURVEY_BEGIN is answered if and only if it is from the gateway to this anchor, of a session,
      and the anchor knows its identifier; it opens the window for as long as it says. */
  lemma SurveyBeginAnswered(a: Anchor, f: Frame, l: Local)
    requires f.msg.SurveyBegin?
    ensures var (b, reply) := Receive(a, f, l);
      && (reply.Some? <==> f.src == 0 && (f.dest == 0xFFFF || f.dest == a.addr) && f.session != 0 && a.euiReady)
      && (reply.Some? ==>
          && reply.value == Frame(a.addr, 0, f.session, EnumRsp(a.eui, a.posValid, a.pos))
          && b.winSession == f.session && b.deadline == l.now + 1000 * f.msg.window && b.pos == a.pos && b.stored == a.stored)
      && (reply.None? ==> b == a)
  {}

  /** A SETPOS is acknowledged if and only if it is from the gateway to this anchor and of the
      session of its window; the coordinates are then in use, and in flash if that could be
      written, as the acknowledgement says. */
  lemma SetPosAnswered(a: Anchor, f: Frame, l: Local)
    requires f.msg.SetPos?
    ensures var (b, reply) := Receive(a, f, l);
      && (reply.Some? <==> f.src == 0 && (f.dest == 0xFFFF || f.dest == a.addr) && f.session == a.winSession)
      && (reply.Some? ==>
          && reply.value == Frame(a.addr, 0, f.session, SetPosAck(f.msg.pos, l.storeOk))
          && b.pos == f.msg.pos && b.posValid && b.stored == (if l.storeOk then f.msg.pos else a.stored))
      && (reply.None? ==> b == a)
  {}

  // ---- How long they are answered ----

  /** Whether the anchor asks if its window has expired. */
  predicate Asks(addr: nat, e: Arrival) { e.Alien? || (Addressed(addr, e.f) && e.f.msg.RangeCmd?) }

  /** A frame of the session that sets the deadline anew. */
  predicate Renews(addr: nat, session: nat, e: Arrival) {
    e.Arrival? && Addressed(addr, e.f) && e.f.session == session && (e.f.msg.SetPos? || e.f.msg.RangeCmd?)
  }

  function Renewed(e: Arrival): int
    requires e.Arrival?
  {
    (if e.f.msg.RangeCmd? then e.l.later else e.l.now) + 60000
  }

  function NextLimit(addr: nat, session: nat, limit: int, e: Arrival): int { if Renews(addr, session, e) then Renewed(e) else limit }

  /** Nobody asks later than the deadline there is then: at first the given one, and after each
      SETPOS or RANGE_CMD of the session 60 s after that. */
  ghost predicate InTime(addr: nat, session: nat, limit: int, es: seq<Arrival>)
    decreases |es|
  {
    es != [] ==> (Asks(addr, es[0]) ==> Moment(es[0]) <= limit) && InTime(addr, session, NextLimit(addr, session, limit, es[0]), es[1..])
  }

  function LastLimit(addr: nat, session: nat, limit: int, es: seq<Arrival>): int
    decreases |es|
  {
    if es == [] then limit else LastLimit(addr, session, NextLimit(addr, session, limit, es[0]), es[1..])
  }

  /** Nothing ends the session or opens another one. */
  ghost predicate Undisturbed(addr: nat, session: nat, es: seq<Arrival>) {
    forall e :: e in es && e.Arrival? && Addressed(addr, e.f) ==> !e.f.msg.SurveyBegin? && !(e.f.msg.SurveyEnd? && e.f.session == session)
  }

  lemma WindowStep(w: Watch, e: Arrival, session: nat)
    requires session != 0 && Undisturbed(w.a.addr, session, [e])
    ensures var a := See(w, e).a;
      && a.addr == w.a.addr
      && (w.a.winSession == 0 ==> a.winSession == 0)
      && (w.a.winSession == session ==>
          if Asks(w.a.addr, e) && Moment(e) > w.a.deadline then a.winSession == 0
          else a.winSession == session && a.deadline == NextLimit(w.a.addr, session, w.a.deadline, e))
  {
    assert e in [e];
  }

  lemma {:induction false} ClosedStays(w: Watch, es: seq<Arrival>, session: nat)
    requires session != 0 && w.a.winSession == 0 && Undisturbed(w.a.addr, session, es)
    ensures SeeAll(w, es).a.winSession == 0
    decreases |es|
  {
    if es != [] {
      assert es[0] in es && forall e :: e in es[1..] ==> e in es;
      WindowStep(w, es[0], session);
      ClosedStays(See(w, es[0]), es[1..], session);
    }
  }

  /** The window stays open as long as it is asked about in time. */
  lemma {:induction false} WindowKept(w: Watch, es: seq<Arrival>, session: nat)
    requires session != 0 && w.a.winSession == session && Undisturbed(w.a.addr, session, es)
    ensures var a := SeeAll(w, es).a;
      && (InTime(w.a.addr, session, w.a.deadline, es) ==> a.winSession == session && a.deadline == LastLimit(w.a.addr, session, w.a.deadline, es))
      && (!InTime(w.a.addr, session, w.a.deadline, es) ==> a.winSession == 0)
      && a.addr == w.a.addr
    decreases |es|
  {
    if es != [] {
      assert es[0] in es && forall e :: e in es[1..] ==> e in es;
      WindowStep(w, es[0], session);
      if See(w, es[0]).a.winSession == session {
        WindowKept(See(w, es[0]), es[1..], session);
      } else {
        ClosedStays(See(w, es[0]), es[1..], session);
        AddressStays(See(w, es[0]), es[1..]);
      }
    }
  }

  lemma {:induction false} AddressStays(w: Watch, es: seq<Arrival>)
    ensures SeeAll(w, es).a.addr == w.a.addr
    decreases |es|
  {
    if es != [] { AddressStays(See(w, es[0]), es[1..]); }
  }

  /** A command for this anchor, of the session, about another anchor. */
  predicate Proper(addr: nat, session: nat, f: Frame) {
    Addressed(addr, f) && f.session == session && f.msg.RangeCmd? && 1 <= f.msg.peer <= 4 && f.msg.peer != addr
  }

  /** After a SURVEY_BEGIN, and with nothing that ends or replaces the session, a proper command
      is answered if and only if the window was asked about in time until then, the command
      included: within the announced time of the SURVEY_BEGIN, or 60 s of the last SETPOS or
      RANGE_CMD of the session. */
  lemma CommandsAnswered(a: Anchor, begin: Frame, l: Local, es: seq<Arrival>, e: Arrival)
    requires begin.msg.SurveyBegin? && Receive(a, begin, l).1.Some? && Undisturbed(a.addr, begin.session, es)
    requires e.Arrival? && Proper(a.addr, begin.session, e.f)
    ensures var w := SeeAll(Watch(Receive(a, begin, l).0, l.now, begin.msg.window), es);
      var limit := l.now + 1000 * begin.msg.window;
      Receive(w.a, e.f, e.l).1.Some? <==>
        InTime(a.addr, begin.session, limit, es) && e.l.now <= LastLimit(a.addr, begin.session, limit, es)
  {
    var b := Receive(a, begin, l).0;
    SurveyBeginAnswered(a, begin, l);
    WindowKept(Watch(b, l.now, begin.msg.window), es, begin.session);
    RangeCmdAnswered(SeeAll(Watch(b, l.now, begin.msg.window), es).a, e.f, e.l);
  }

  lemma {:induction false} LimitsStay(addr: nat, session: nat, limit: int, es: seq<Arrival>, from: int, now: int)
    requires limit >= now && from + 60000 >= now
    requires forall e :: e in es ==> from <= Moment(e) <= now && (e.Arrival? ==> e.l.later >= e.l.now)
    ensures InTime(addr, session, limit, es) && LastLimit(addr, session, limit, es) >= now
    decreases |es|
  {
    if es != [] {
      assert es[0] in es && forall e :: e in es[1..] ==> e in es;
      LimitsStay(addr, session, NextLimit(addr, session, limit, es[0]), es[1..], from, now);
    }
  }

  /** So every proper command is answered up to the announced time, or to 60 s if that is sooner. */
  lemma AnsweredAtFirst(a: Anchor, begin: Frame, l: Local, es: seq<Arrival>, e: Arrival)
    requires begin.msg.SurveyBegin? && Receive(a, begin, l).1.Some? && Undisturbed(a.addr, begin.session, es)
    requires e.Arrival? && Proper(a.addr, begin.session, e.f)
    requires forall x :: x in es ==> l.now <= Moment(x) <= e.l.now && (x.Arrival? ==> x.l.later >= x.l.now)
    requires e.l.now <= l.now + 1000 * (if begin.msg.window < 60 then begin.msg.window else 60)
    ensures Receive(SeeAll(Watch(Receive(a, begin, l).0, l.now, begin.msg.window), es).a, e.f, e.l).1.Some?
  {
    LimitsStay(a.addr, begin.session, l.now + 1000 * begin.msg.window, es, l.now, e.l.now);
    CommandsAnswered(a, begin, l, es, e);
  }

  /** A command does not only extend a window: after a SURVEY_BEGIN for 120 s, a command at 1 s
      makes one at 62 s go unanswered, which is answered without it. */
  lemma RenewalShortensExample(a: Anchor, batch: Batch)
    requires a.addr == 2 && a.euiReady
    ensures var begin, cmd := Frame(0, 0xFFFF, 5, SurveyBegin(120)), Frame(0, 2, 5, RangeCmd(1, 40));
      var at := (t: int) => Local(t, t, true, batch);
      var open := Watch(Receive(a, begin, at(0)).0, 0, 120);
      && Receive(SeeAll(open, []).a, cmd, at(62000)).1.Some?
      && Receive(SeeAll(open, [Arrival(cmd, at(1000))]).a, cmd, at(62000)).1.None?
  {
    var begin, cmd := Frame(0, 0xFFFF, 5, SurveyBegin(120)), Frame(0, 2, 5, RangeCmd(1, 40));
    var open := Watch(Receive(a, begin, Local(0, 0, true, batch)).0, 0, 120);
    var first := Arrival(cmd, Local(1000, 1000, true, batch));
    assert SeeAll(open, [first]) == SeeAll(See(open, first), [first][1..]);
    assert [first][1..] == [];
  }
}
