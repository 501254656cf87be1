/** A gateway, its anchors and a radio that may lose, repeat and reorder frames and deliver old
    ones at any time, with both ends rebooting. */
module SurveyNetwork {
  import opened Addresses
  import opened Options
  import opened SurveyFit
  import opened SurveyTable
  import opened Gateway
  import opened AnchorNode
  import opened GatewayOutcome

  /** sent holds every frame ever put on the air, sessions every session ever opened, acked the
      nodes counted as taken by the apply that is under way or was the last one (if applied). */
  datatype Net = Net(gw: Gw, anchors: map<nat, Anchor>, sent: set<Frame>, sessions: set<nat>, acked: set<nat>, applied: bool)

  datatype Event =
    | GwStep(t: Tick)
    | GwHears(f: Frame)
    | AnchorHears(addr: nat, f: Frame, l: Local, txOk: bool)
    | AnchorHearsAlien(addr: nat, now: int)
    | AnchorReboots(addr: nat)
    | GwReboots
    | EnumCommand(session: nat)
    | RunCommand(session: nat)
    | ApplyCommand(force: bool)
    | GaugeCommand(origin: int, xaxis: int, plane: int, up: int)
    | ZoffCommand(dz: real)

  function Air(sent: set<Frame>, f: Option<Frame>, onAir: bool): set<Frame> {
    if f.Some? && onAir then sent + {f.value} else sent
  }

  predicate Confirms(f: Frame, session: nat, addr: nat) {
    f.session == session && f.msg.SetPosAck? && f.msg.ok && f.src == addr
  }

  /** The anchor has confirmed its coordinates in the current session. */
  ghost predicate Confirmed(n: Net, addr: nat) { exists f :: f in n.sent && Confirms(f, n.gw.session, addr) }

  /** A SURVEY_BEGIN of an earlier session. */
  predicate StaleBegin(n: Net, f: Frame) { f.msg.SurveyBegin? && f.session != n.gw.session }

  /** What may happen next: a fitting answer of the solver, any frame ever sent, a new session
      number, 16-bit gauge addresses. The radio is trusted in one thing only: it brings no
      SURVEY_BEGIN of an earlier session to an anchor that has confirmed in this one. */
  ghost predicate Enabled(n: Net, e: Event) {
    match e
    case GwStep(t) => Fits(n.gw, t.solved)
    case GwHears(f) => f in n.sent
    case AnchorHears(addr, f, _, _) => addr in n.anchors && f in n.sent && !(StaleBegin(n, f) && Confirmed(n, addr))
    case AnchorHearsAlien(addr, _) => addr in n.anchors
    case AnchorReboots(addr) => addr in n.anchors
    case EnumCommand(session) => session != 0 && session !in n.sessions
    case RunCommand(session) => session != 0 && session !in n.sessions
    case GaugeCommand(o, x, p, _) => 0 <= o < 0x1_0000 && 0 <= x < 0x1_0000 && 0 <= p < 0x1_0000
    case _ => true
  }

  function Next(n: Net, e: Event): Net
    requires Inv(n.gw) && Enabled(n, e)
  {
    match e
    case GwStep(t) => var (gw, f) := Step(n.gw, t); n.(gw := gw, sent := Air(n.sent, f, t.txOk))
    case GwHears(f) =>
      var gw := OnRx(n.gw, f);
      n.(gw := gw, acked := if gw.ok != n.gw.ok then n.acked + {n.gw.applyIdx} else n.acked)
    case AnchorHears(addr, f, l, txOk) =>
      var (a, reply) := Receive(n.anchors[addr], f, l);
      n.(anchors := n.anchors[addr := a], sent := Air(n.sent, reply, txOk))
    case AnchorHearsAlien(addr, now) => n.(anchors := n.anchors[addr := Window(n.anchors[addr], now).0])
    case AnchorReboots(addr) => n.(anchors := n.anchors[addr := Reboot(n.anchors[addr])])
    case GwReboots => n.(gw := Restarted(n.gw), acked := {}, applied := false)
    case EnumCommand(session) => Opened(n, StartEnum(n.gw, session), session)
    case RunCommand(session) => Opened(n, StartRun(n.gw, session), session)
    case ApplyCommand(force) =>
      var (gw, r) := StartApply(n.gw, force);
      if r == Done then n.(gw := gw, acked := {}, applied := true) else n
    case GaugeCommand(o, x, p, u) => n.(gw := SetGauge(n.gw, o, x, p, u).0)
    case ZoffCommand(dz) => n.(gw := n.gw.(zoff := dz))
  }

  /** A gateway that has rebooted: only what is in flash is left. */
  function Restarted(gw: Gw): Gw { FRESH.(store := gw.store) }

  function Opened(n: Net, started: (Gw, Reply), session: nat): Net {
    if started.1 != Done then n
    else n.(gw := started.0, sessions := n.sessions + {session}, acked := {}, applied := false)
  }

  /** Whatever happens, the gateway's own invariant stays. */
  lemma NextKeepsGateway(n: Net, e: Event)
    requires Inv(n.gw) && Enabled(n, e)
    ensures Inv(Next(n, e).gw)
  {
    match e {
      case GwStep(t) => StepKeeps(n.gw, t);
      case GwHears(f) => OnRxKeeps(n.gw, f);
      case EnumCommand(session) => StartEnumKeeps(n.gw, session);
      case RunCommand(session) => StartRunKeeps(n.gw, session);
      case ApplyCommand(force) => StartApplyKeeps(n.gw, force);
      case GaugeCommand(o, x, p, u) => SettingKeeps(n.gw, GaugeAddrs(o, x, p, u), 0.0);
      case ZoffCommand(dz) => SettingKeeps(n.gw, n.gw.gauge, dz);
      case GwReboots => FreshKeeps();
      case _ =>
    }
  }

  // ---- What holds throughout ----

  ghost predicate AnchorsOk(n: Net) {
    forall a :: a in n.anchors ==> a != GATEWAY_ADDR && a != BROADCAST && n.anchors[a].addr == a
  }

  /** Whoever is in the table, or says so, is an anchor with that address and identifier. */
  ghost predicate GenuinePeers(n: Net) {
    && (forall p :: p in n.gw.tbl.peers ==> p.addr in n.anchors && n.anchors[p.addr].eui == p.eui)
    && (forall f :: f in n.sent && f.msg.EnumRsp? ==> f.src in n.anchors && n.anchors[f.src].eui == f.msg.eui)
  }

  ghost predicate SessionsOk(n: Net) {
    && (forall f :: f in n.sent ==> f.session in n.sessions && f.session != 0)
    && (n.gw.session != 0 ==> n.gw.session in n.sessions)
    && (n.gw.session == 0 ==> n.gw.phase == Idle && !n.gw.haveResult)
  }

  /** The gateway's own solution for the anchor with this address. */
  ghost predicate Solution(gw: Gw, addr: nat, p: Vec) {
    && gw.haveResult
    && exists k :: 0 <= k < |gw.tbl.peers| == |gw.res.nodes| && gw.tbl.peers[k].addr == addr && gw.res.nodes[k].at == p
  }

  ghost predicate Holds(n: Net, addr: nat, p: Vec) {
    addr in n.anchors && n.anchors[addr].pos == p && n.anchors[addr].stored == p
  }

  /** Frames of the current session carry the current solution, and an anchor that confirmed
      it holds it. */
  ghost predicate CurrentFrames(n: Net) {
    forall f :: f in n.sent && f.session == n.gw.session ==>
      && (f.msg.SetPos? ==> Solution(n.gw, f.dest, f.msg.pos))
      && (f.msg.SetPosAck? && f.msg.ok ==> Solution(n.gw, f.src, f.msg.pos) && Holds(n, f.src, f.msg.pos))
  }

  ghost predicate SameCoordinates(f: Frame, g: Frame) {
    f.msg.SetPos? && g.msg.SetPos? && f.session == g.session && f.dest == g.dest ==> f.msg.pos == g.msg.pos
  }

  ghost predicate FramesAgree(n: Net) {
    forall f, g :: f in n.sent && g in n.sent ==> SameCoordinates(f, g)
  }

  /** An anchor that has confirmed in the current session is in no other. */
  ghost predicate ConfirmedStay(n: Net) {
    forall a :: a in n.anchors && Confirmed(n, a) ==> n.anchors[a].winSession == 0 || n.anchors[a].winSession == n.gw.session
  }

  /** Every node counted as taken has confirmed. */
  ghost predicate CountedConfirmed(n: Net) {
    && (n.gw.phase == Apply ==> n.applied)
    && (n.applied ==>
        && n.gw.haveResult && |n.acked| == n.gw.ok
        && forall k :: k in n.acked ==>
          && 0 <= k < |n.gw.tbl.peers| == |n.gw.res.nodes| && (n.gw.phase == Apply ==> k < n.gw.applyIdx)
          && Confirmed(n, n.gw.tbl.peers[k].addr))
  }

  /** The response a stored measurement came from: sent by its initiator, about its responder. */
  ghost predicate Source(gw: Gw, f: Frame, m: Meas) {
    && f.session == gw.session && f.msg.RangeRsp? && f.msg == RangeRsp(f.msg.peer, m.mean, m.sd, m.nOk)
    && m.from < |gw.tbl.peers| && m.to < |gw.tbl.peers|
    && f.src == gw.tbl.peers[m.from].addr && f.msg.peer == gw.tbl.peers[m.to].addr
  }

  ghost predicate MeasurementsHaveSources(n: Net) {
    forall m :: m in n.gw.tbl.meas ==> exists f :: f in n.sent && Source(n.gw, f, m)
  }

  ghost predicate NetInv(n: Net) {
    && Inv(n.gw) && AnchorsOk(n) && GenuinePeers(n) && SessionsOk(n) && CurrentFrames(n) && FramesAgree(n)
    && ConfirmedStay(n) && CountedConfirmed(n) && MeasurementsHaveSources(n)
  }

  // ---- What the gateway's functions do to the parts the network cares about ----

  lemma StepSends(s: Gw, t: Tick)
    requires Inv(s) && Step(s, t).1.Some?
    ensures var f := Step(s, t).1.value;
      && s.phase != Idle && f.session == s.session
      && !f.msg.SetPosAck? && !f.msg.RangeRsp? && !f.msg.EnumRsp?
      && (f.msg.SetPos? ==> Solution(s, f.dest, f.msg.pos))
  {
    if s.phase == Apply && !s.awaiting && !s.reopen && !s.ending && t.now >= s.nextAction {
      var u := SkipNodes(s);
      if u.applyIdx < |u.res.nodes| { assert Step(s, t).1.value.msg.SetPos? && s.tbl.peers[u.applyIdx].addr == Step(s, t).1.value.dest; }
    }
  }

  lemma RxSource(s: Gw, f: Frame, m: Meas)
    requires Inv(s) && m in OnRx(s, f).tbl.meas
    ensures m in s.tbl.meas || (s.phase == Range && OnRx(s, f).tbl.peers == s.tbl.peers && Source(s, f, m))
  {
    if s.phase == Range && s.awaiting && f.msg.RangeRsp? && f.session == s.session && f.src == s.awaitFrom && f.msg.peer == s.awaitPeer {
      OnRangeRspStores(s, f);
      PairOfBijection(s.pairIdx, |s.tbl.peers|);
    }
    if f.msg.EnumRsp? { AddPeerKeeps(s.tbl, Peer(f.msg.eui, f.src, f.msg.posValid, f.msg.at.x, f.msg.at.y, f.msg.at.z)); }
  }

  lemma PeerAddedOrKept(t: Contents, q: Peer, p: Peer)
    requires Valid(t) && p in AddPeer(t, q).0.peers
    ensures p in t.peers || p == q
  {
    AddPeerKeeps(t, q);
    var (u, r) := AddPeer(t, q);
    if r.Slot? {
      var j :| 0 <= j < |u.peers| && u.peers[j] == p;
      assert j != r.k ==> j < |t.peers| && t.peers[j] == p;
    }
  }

  lemma RxPeers(s: Gw, f: Frame, p: Peer)
    requires Inv(s) && p in OnRx(s, f).tbl.peers
    ensures p in s.tbl.peers || (f.msg.EnumRsp? && p.addr == f.src && p.eui == f.msg.eui)
  {
    RxKeepsSurvey(s, f);
    if s.phase == Enum && f.msg.EnumRsp? && OnRx(s, f).tbl != s.tbl {
      PeerAddedOrKept(s.tbl, Peer(f.msg.eui, f.src, f.msg.posValid, f.msg.at.x, f.msg.at.y, f.msg.at.z), p);
    }
  }

  /** An address has one solution. */
  lemma SolutionUnique(gw: Gw, addr: nat, p: Vec, q: Vec)
    requires Inv(gw) && Solution(gw, addr, p) && Solution(gw, addr, q)
    ensures p == q
  {}

  // ---- Each event keeps it ----

  lemma GwStepKeeps(n: Net, t: Tick)
    requires NetInv(n) && Enabled(n, GwStep(t))
    ensures NetInv(Next(n, GwStep(t)))
  {
    var (gw, f) := Step(n.gw, t);
    var u := Next(n, GwStep(t));
    StepKeeps(n.gw, t);
    StepKeepsSurvey(n.gw, t);
    if f.Some? { StepSends(n.gw, t); }
    CurrentAfterStep(n, gw, f, u);
  }

  /** Nothing that matters to who has confirmed what changes. */
  lemma SameConfirmed(n: Net, u: Net)
    requires u.gw.session == n.gw.session && (forall f :: f in u.sent && f.msg.SetPosAck? <==> f in n.sent && f.msg.SetPosAck?)
    ensures forall a :: Confirmed(u, a) <==> Confirmed(n, a)
  {
    forall a ensures Confirmed(u, a) <==> Confirmed(n, a) {
      if f :| f in n.sent && Confirms(f, n.gw.session, a) { assert f in u.sent; }
      if f :| f in u.sent && Confirms(f, u.gw.session, a) { assert f in n.sent; }
    }
  }

  lemma SolutionKept(s: Gw, u: Gw, addr: nat, p: Vec)
    requires Solution(s, addr, p) && SameSurvey(s, u)
    ensures Solution(u, addr, p)
  {}

  /** The gateway's survey stays and at most one of its own frames is added. */
  lemma CurrentAfterStep(n: Net, gw: Gw, f: Option<Frame>, u: Net)
    requires NetInv(n) && Inv(gw) && SameSurvey(n.gw, gw) && gw.ok == n.gw.ok
    requires gw.phase == Apply ==> n.gw.phase == Apply && n.gw.applyIdx <= gw.applyIdx
    requires u.anchors == n.anchors && u.sessions == n.sessions && u.acked == n.acked && u.applied == n.applied && u.gw == gw
    requires u.sent == n.sent || (f.Some? && u.sent == n.sent + {f.value})
    requires gw.phase != Idle || gw.haveResult || f.Some? ==> n.gw.session != 0
    requires f.Some? ==>
      && f.value.session == n.gw.session && !f.value.msg.SetPosAck? && !f.value.msg.EnumRsp?
      && (f.value.msg.SetPos? ==> Solution(n.gw, f.value.dest, f.value.msg.pos))
    ensures NetInv(u)
  {
    forall g | g in u.sent && g.session == gw.session
      ensures g.msg.SetPos? ==> Solution(gw, g.dest, g.msg.pos)
      ensures g.msg.SetPosAck? && g.msg.ok ==> Solution(gw, g.src, g.msg.pos) && Holds(u, g.src, g.msg.pos)
    {
      if g.msg.SetPos? { SolutionKept(n.gw, gw, g.dest, g.msg.pos); }
      if g.msg.SetPosAck? && g.msg.ok { SolutionKept(n.gw, gw, g.src, g.msg.pos); }
    }
    SameConfirmed(n, u);
    AgreeWithNew(n, u.sent, f);
  }

  /** A new SETPOS that carries the solution agrees with every earlier one. */
  lemma AgreeWithNew(n: Net, sent: set<Frame>, f: Option<Frame>)
    requires NetInv(n) && (sent == n.sent || (f.Some? && sent == n.sent + {f.value}))
    requires f.Some? && f.value.msg.SetPos? ==> f.value.session == n.gw.session && Solution(n.gw, f.value.dest, f.value.msg.pos)
    ensures forall g, h :: g in sent && h in sent ==> SameCoordinates(g, h)
  {
    forall g, h | g in sent && h in sent ensures SameCoordinates(g, h) {
      if g.msg.SetPos? && h.msg.SetPos? && g.session == h.session && g.dest == h.dest {
        if g in n.sent && h in n.sent {
          assert SameCoordinates(g, h);
        } else {
          SolutionUnique(n.gw, g.dest, g.msg.pos, h.msg.pos);
        }
      }
    }
  }

  /** A frame of another session means nothing to the gateway. */
  lemma StaleIgnored(s: Gw, f: Frame)
    requires f.session != s.session
    ensures OnRx(s, f) == s
  {}

  lemma GwHearsKeeps(n: Net, f: Frame)
    requires NetInv(n) && f in n.sent
    ensures NetInv(Next(n, GwHears(f)))
  {
    if f.session != n.gw.session {
      StaleIgnored(n.gw, f);
      assert Next(n, GwHears(f)) == n;
    } else {
      GwHearsCurrent(n, f);
    }
  }

  lemma GwHearsCurrent(n: Net, f: Frame)
    requires NetInv(n) && f in n.sent && f.session == n.gw.session
    ensures NetInv(Next(n, GwHears(f)))
  {
    var gw := OnRx(n.gw, f);
    var u := Next(n, GwHears(f));
    OnRxKeeps(n.gw, f);
    RxKeepsSurvey(n.gw, f);
    SameConfirmed(n, u);
    CurrentKept(n, gw, u);
    SourcesAfterRx(n, f, gw);
    forall p | p in gw.tbl.peers ensures p.addr in u.anchors && u.anchors[p.addr].eui == p.eui { RxPeers(n.gw, f, p); }
    CountedAfterRx(n, f, gw, u);
  }

  lemma CurrentKept(n: Net, gw: Gw, u: Net)
    requires CurrentFrames(n) && gw.session == n.gw.session && (n.gw.haveResult ==> SameSurvey(n.gw, gw))
    requires u.gw == gw && u.sent == n.sent && u.anchors == n.anchors
    ensures CurrentFrames(u)
  {
    forall g | g in u.sent && g.session == gw.session
      ensures g.msg.SetPos? ==> Solution(gw, g.dest, g.msg.pos)
      ensures g.msg.SetPosAck? && g.msg.ok ==> Solution(gw, g.src, g.msg.pos) && Holds(u, g.src, g.msg.pos)
    {
      if g.msg.SetPos? { SolutionKept(n.gw, gw, g.dest, g.msg.pos); }
      if g.msg.SetPosAck? && g.msg.ok { SolutionKept(n.gw, gw, g.src, g.msg.pos); }
    }
  }

  lemma SourcesAfterRx(n: Net, f: Frame, gw: Gw)
    requires NetInv(n) && f in n.sent && gw == OnRx(n.gw, f)
    ensures forall m :: m in gw.tbl.meas ==> exists g :: g in n.sent && Source(gw, g, m)
  {
    RxKeepsSurvey(n.gw, f);
    forall m | m in gw.tbl.meas ensures exists g :: g in n.sent && Source(gw, g, m) {
      RxSource(n.gw, f, m);
      if m in n.gw.tbl.meas {
        var g :| g in n.sent && Source(n.gw, g, m);
        assert Source(gw, g, m);
      } else {
        assert Source(gw, f, m);
      }
    }
  }

  lemma CountedAfterRx(n: Net, f: Frame, gw: Gw, u: Net)
    requires NetInv(n) && f in n.sent && gw == OnRx(n.gw, f) && u == Next(n, GwHears(f)) && Inv(gw)
    requires gw.session == n.gw.session && (forall a :: Confirmed(u, a) <==> Confirmed(n, a))
    requires gw.haveResult == n.gw.haveResult && gw.res == n.gw.res && (n.gw.haveResult ==> gw.tbl == n.gw.tbl)
    requires gw.phase == Apply ==> n.gw.phase == Apply && n.gw.applyIdx <= gw.applyIdx
    ensures CountedConfirmed(u)
  {
    RxCounts(n.gw, f);
    if gw.ok != n.gw.ok {
      CountedOneMore(n, f, gw, u);
    } else {
      assert u.acked == n.acked;
    }
  }

  lemma CountedOneMore(n: Net, f: Frame, gw: Gw, u: Net)
    requires CountedConfirmed(n) && f in n.sent && n.gw.phase == Apply == gw.phase && u.gw == gw && u.applied == n.applied
    requires var k := n.gw.applyIdx;
      k < |n.gw.tbl.peers| == |n.gw.res.nodes| && u.acked == n.acked + {k} && Confirms(f, n.gw.session, n.gw.tbl.peers[k].addr)
    requires gw.ok == n.gw.ok + 1 && gw.applyIdx == n.gw.applyIdx + 1 && gw.haveResult && gw.res == n.gw.res && gw.tbl == n.gw.tbl
    requires forall a :: Confirmed(u, a) <==> Confirmed(n, a)
    ensures CountedConfirmed(u)
  {
    assert n.gw.applyIdx !in n.acked;
  }

  // ---- What a frame does to the anchor that hears it ----

  ghost predicate Takes(a: Anchor, f: Frame, b: Anchor) {
    f.msg.SetPos? && Addressed(a.addr, f) && f.session == a.winSession && b.pos == f.msg.pos && (b.stored == f.msg.pos || b.stored == a.stored)
  }

  /** Only a SETPOS of the anchor's session changes its coordinates or is acknowledged, and an
      acknowledgement repeats what was stored. */
  lemma AnchorTakes(a: Anchor, f: Frame, l: Local)
    ensures var (b, reply) := Receive(a, f, l);
      && b.addr == a.addr && b.eui == a.eui
      && (b.pos != a.pos || b.stored != a.stored || (reply.Some? && reply.value.msg.SetPosAck?) ==> Takes(a, f, b))
      && (reply.Some? ==>
          && reply.value.src == a.addr && reply.value.session == f.session && !reply.value.msg.SetPos?
          && (reply.value.msg.EnumRsp? ==> reply.value.msg.eui == a.eui)
          && (reply.value.msg.SetPosAck? ==>
              reply.value.msg.pos == f.msg.pos && (reply.value.msg.ok ==> b.stored == f.msg.pos)))
  {}

  /** An anchor enters a session only by its SURVEY_BEGIN. */
  lemma AnchorStays(a: Anchor, f: Frame, l: Local)
    ensures var b := Receive(a, f, l).0;
      b.winSession == a.winSession || b.winSession == 0 || (f.msg.SurveyBegin? && b.winSession == f.session)
  {}

  /** A SETPOS of the current session that an anchor takes carries its solution. */
  lemma TakesSolution(n: Net, addr: nat, f: Frame, b: Anchor)
    requires NetInv(n) && addr in n.anchors && f in n.sent && f.session == n.gw.session && Takes(n.anchors[addr], f, b)
    ensures Solution(n.gw, addr, f.msg.pos)
  {
    var k :| 0 <= k < |n.gw.tbl.peers| == |n.gw.res.nodes| && n.gw.tbl.peers[k].addr == f.dest && n.gw.res.nodes[k].at == f.msg.pos;
    assert n.gw.tbl.peers[k] in n.gw.tbl.peers;
  }

  lemma HeldStays(n: Net, addr: nat, f: Frame, l: Local, u: Net, other: nat, p: Vec)
    requires NetInv(n) && addr in n.anchors && f in n.sent
    requires u.anchors == n.anchors[addr := Receive(n.anchors[addr], f, l).0]
    requires Confirmed(n, other) && Holds(n, other, p) && Solution(n.gw, other, p)
    ensures Holds(u, other, p)
  {
    var a, b := n.anchors[addr], Receive(n.anchors[addr], f, l).0;
    AnchorTakes(a, f, l);
    if other == addr && Takes(a, f, b) {
      assert f.session == n.gw.session;
      TakesSolution(n, addr, f, b);
      SolutionUnique(n.gw, addr, p, f.msg.pos);
    }
  }

  lemma AnchorHearsKeeps(n: Net, addr: nat, f: Frame, l: Local, txOk: bool)
    requires NetInv(n) && Enabled(n, AnchorHears(addr, f, l, txOk))
    ensures NetInv(Next(n, AnchorHears(addr, f, l, txOk)))
  {
    var u := Next(n, AnchorHears(addr, f, l, txOk));
    var (a, reply) := Receive(n.anchors[addr], f, l);
    AnchorTakes(n.anchors[addr], f, l);
    CurrentAfterReply(n, addr, f, l, a, reply, u);
    ConfirmedAfterReply(n, addr, f, l, a, reply, u);
    AgreeWithNew(n, u.sent, reply);
    forall k | n.applied && k in n.acked ensures Confirmed(u, n.gw.tbl.peers[k].addr) { StillConfirmed(n, u, n.gw.tbl.peers[k].addr); }
    forall m | m in u.gw.tbl.meas ensures exists g :: g in u.sent && Source(u.gw, g, m) {
      var g :| g in n.sent && Source(n.gw, g, m);
      assert g in u.sent;
    }
  }

  lemma StillConfirmed(n: Net, u: Net, addr: nat)
    requires u.gw.session == n.gw.session && n.sent <= u.sent && Confirmed(n, addr)
    ensures Confirmed(u, addr)
  {
    var f :| f in n.sent && Confirms(f, n.gw.session, addr);
    assert f in u.sent;
  }

  lemma CurrentAfterReply(n: Net, addr: nat, f: Frame, l: Local, a: Anchor, reply: Option<Frame>, u: Net)
    requires NetInv(n) && addr in n.anchors && f in n.sent && (a, reply) == Receive(n.anchors[addr], f, l)
    requires u.gw == n.gw && u.anchors == n.anchors[addr := a]
    requires u.sent == n.sent || (reply.Some? && u.sent == n.sent + {reply.value})
    ensures CurrentFrames(u)
  {
    AnchorTakes(n.anchors[addr], f, l);
    forall g | g in u.sent && g.session == u.gw.session
      ensures g.msg.SetPos? ==> Solution(u.gw, g.dest, g.msg.pos)
      ensures g.msg.SetPosAck? && g.msg.ok ==> Solution(u.gw, g.src, g.msg.pos) && Holds(u, g.src, g.msg.pos)
    {
      if g.msg.SetPosAck? && g.msg.ok {
        if g in n.sent {
          assert Confirms(g, n.gw.session, g.src);
          HeldStays(n, addr, f, l, u, g.src, g.msg.pos);
        } else {
          TakesSolution(n, addr, f, a);
        }
      }
    }
  }

  lemma ConfirmedAfterReply(n: Net, addr: nat, f: Frame, l: Local, a: Anchor, reply: Option<Frame>, u: Net)
    requires NetInv(n) && addr in n.anchors && f in n.sent && (a, reply) == Receive(n.anchors[addr], f, l)
    requires !(StaleBegin(n, f) && Confirmed(n, addr))
    requires u.gw == n.gw && u.anchors == n.anchors[addr := a]
    requires u.sent == n.sent || (reply.Some? && u.sent == n.sent + {reply.value})
    ensures ConfirmedStay(u)
  {
    AnchorTakes(n.anchors[addr], f, l);
    AnchorStays(n.anchors[addr], f, l);
    forall b | b in u.anchors && Confirmed(u, b) ensures u.anchors[b].winSession == 0 || u.anchors[b].winSession == u.gw.session {
      var g :| g in u.sent && Confirms(g, u.gw.session, b);
      if g in n.sent { assert Confirmed(n, b); } else { assert g == reply.value; }
    }
  }

  /** An anchor that keeps its address, identifier and coordinates, and whose window stays or closes. */
  lemma QuietAnchorKeeps(n: Net, addr: nat, a: Anchor)
    requires NetInv(n) && addr in n.anchors
    requires a.addr == addr && a.eui == n.anchors[addr].eui && a.stored == n.anchors[addr].stored
    requires a.pos == n.anchors[addr].pos || a.pos == a.stored
    requires a.winSession == 0 || a.winSession == n.anchors[addr].winSession
    ensures NetInv(n.(anchors := n.anchors[addr := a]))
  {
    var u := n.(anchors := n.anchors[addr := a]);
    SameConfirmed(n, u);
    forall other, p | Holds(n, other, p) ensures Holds(u, other, p) {}
  }

  // ---- The one thing the radio is trusted in ----

  /** Why: any SURVEY_BEGIN of an old session, followed by a SETPOS of that session, replaces
      what an anchor has confirmed, in use and in flash. */
  lemma StaleBeginOverwrites(a: Anchor, begin: Frame, setPos: Frame, l: Local, m: Local)
    requires a.euiReady && begin.msg.SurveyBegin? && begin.session != 0 && Addressed(a.addr, begin)
    requires setPos.msg.SetPos? && setPos.session == begin.session && Addressed(a.addr, setPos)
    ensures var b := Receive(Receive(a, begin, l).0, setPos, m).0;
      b.pos == setPos.msg.pos && (m.storeOk ==> b.stored == setPos.msg.pos)
  {}

  lemma GwRebootsKeeps(n: Net)
    requires NetInv(n)
    ensures NetInv(Next(n, GwReboots))
  {
    FreshKeeps();
    var u := Next(n, GwReboots);
    assert forall f :: f in u.sent ==> f.session != u.gw.session;
  }

  lemma OpenedKeeps(n: Net, e: Event)
    requires NetInv(n) && Enabled(n, e) && (e.EnumCommand? || e.RunCommand?)
    ensures NetInv(Next(n, e))
  {
    StartEnumKeeps(n.gw, e.session);
    StartRunKeeps(n.gw, e.session);
  }

  /** A new apply starts with nothing counted. */
  lemma AppliedKeeps(n: Net, gw: Gw)
    requires NetInv(n) && Inv(gw) && n.gw.haveResult && gw.haveResult && gw.ok == 0
    requires gw.session == n.gw.session && gw.tbl == n.gw.tbl && gw.res == n.gw.res
    ensures NetInv(n.(gw := gw, acked := {}, applied := true))
  {
    var u := n.(gw := gw, acked := {}, applied := true);
    SameConfirmed(n, u);
    assert CurrentFrames(u);
    assert CountedConfirmed(u);
  }

  lemma ApplyCommandKeeps(n: Net, force: bool)
    requires NetInv(n)
    ensures NetInv(Next(n, ApplyCommand(force)))
  {
    StartApplyKeeps(n.gw, force);
    var (gw, r) := StartApply(n.gw, force);
    if r == Done { AppliedKeeps(n, gw); }
  }

  /** Alike but for settings the network never looks at. */
  ghost predicate SameRun(s: Gw, u: Gw) {
    && u.session == s.session && u.phase == s.phase && u.tbl == s.tbl && u.res == s.res
    && u.haveResult == s.haveResult && u.ok == s.ok && u.applyIdx == s.applyIdx
  }

  lemma SourcesKept(n: Net, gw: Gw)
    requires MeasurementsHaveSources(n) && SameRun(n.gw, gw)
    ensures MeasurementsHaveSources(n.(gw := gw))
  {
    forall m | m in gw.tbl.meas ensures exists f :: f in n.sent && Source(gw, f, m) {
      var f :| f in n.sent && Source(n.gw, f, m);
      assert Source(gw, f, m);
    }
  }

  lemma CountedKept(n: Net, gw: Gw)
    requires CountedConfirmed(n) && ConfirmedStay(n) && SameRun(n.gw, gw)
    ensures CountedConfirmed(n.(gw := gw)) && ConfirmedStay(n.(gw := gw))
  {
    SameConfirmed(n, n.(gw := gw));
  }

  lemma FramesKept(n: Net, gw: Gw)
    requires AnchorsOk(n) && GenuinePeers(n) && SessionsOk(n) && CurrentFrames(n) && FramesAgree(n) && SameRun(n.gw, gw)
    ensures var u := n.(gw := gw); AnchorsOk(u) && GenuinePeers(u) && SessionsOk(u) && CurrentFrames(u) && FramesAgree(u)
  {
    CurrentKept(n, gw, n.(gw := gw));
  }

  lemma SettingsKeep(n: Net, gw: Gw)
    requires NetInv(n) && Inv(gw) && SameRun(n.gw, gw)
    ensures NetInv(n.(gw := gw))
  {
    FramesKept(n, gw);
    SourcesKept(n, gw);
    CountedKept(n, gw);
  }

  lemma GaugeCommandKeeps(n: Net, origin: int, xaxis: int, plane: int, up: int)
    requires NetInv(n)
    ensures NetInv(n.(gw := SetGauge(n.gw, origin, xaxis, plane, up).0))
  {
    var g := GaugeAddrs(origin, xaxis, plane, up);
    SettingKeeps(n.gw, g, 0.0);
    SettingsKeep(n, n.gw.(gauge := g));
    assert n.(gw := n.gw) == n;
  }

  lemma ZoffCommandKeeps(n: Net, dz: real)
    requires NetInv(n)
    ensures NetInv(n.(gw := n.gw.(zoff := dz)))
  {
    SettingKeeps(n.gw, n.gw.gauge, dz);
    SettingsKeep(n, n.gw.(zoff := dz));
  }

  lemma NextKeeps(n: Net, e: Event)
    requires NetInv(n) && Enabled(n, e)
    ensures NetInv(Next(n, e))
  {
    match e {
      case GwStep(t) => GwStepKeeps(n, t);
      case GwHears(f) => GwHearsKeeps(n, f);
      case AnchorHears(addr, f, l, txOk) => AnchorHearsKeeps(n, addr, f, l, txOk);
      case AnchorHearsAlien(addr, now) => QuietAnchorKeeps(n, addr, Window(n.anchors[addr], now).0);
      case AnchorReboots(addr) => QuietAnchorKeeps(n, addr, Reboot(n.anchors[addr]));
      case GwReboots => GwRebootsKeeps(n);
      case EnumCommand(_) => OpenedKeeps(n, e);
      case RunCommand(_) => OpenedKeeps(n, e);
      case ApplyCommand(force) => ApplyCommandKeeps(n, force);
      case GaugeCommand(o, x, p, u) => GaugeCommandKeeps(n, o, x, p, u);
      case ZoffCommand(dz) => ZoffCommandKeeps(n, dz);
    }
  }

  // ---- Whole runs ----

  /** Anchors with their own addresses, nothing sent yet. */
  ghost predicate Start(n: Net)
    ensures Start(n) ==> Inv(n.gw)
  {
    FreshKeeps();
    n.gw == FRESH && n.sent == {} && n.sessions == {} && n.acked == {} && !n.applied && AnchorsOk(n)
  }

  ghost predicate Runs(n: Net, es: seq<Event>)
    requires Inv(n.gw)
    decreases |es|
  {
    es != [] ==> Enabled(n, es[0]) && (NextKeepsGateway(n, es[0]); Runs(Next(n, es[0]), es[1..]))
  }

  ghost function Final(n: Net, es: seq<Event>): Net
    requires Inv(n.gw) && Runs(n, es)
    decreases |es|
  {
    if es == [] then n else NextKeepsGateway(n, es[0]); Final(Next(n, es[0]), es[1..])
  }

  lemma {:induction false} RunKeeps(n: Net, es: seq<Event>)
    requires NetInv(n) && Runs(n, es)
    ensures NetInv(Final(n, es))
    decreases |es|
  {
    if es != [] {
      NextKeeps(n, es[0]);
      RunKeeps(Next(n, es[0]), es[1..]);
    }
  }

  /** After any run: every SETPOS ever sent to one address in one session carries the same
      coordinates; every node the current apply has counted as taken is held, in use and in
      flash, by the anchor with that node's address and identifier; and every stored
      measurement came from a response of this session by its initiator about its responder. */
  lemma SurveyAgreement(n: Net, es: seq<Event>)
    requires Start(n) && Runs(n, es)
    ensures var m := Final(n, es);
      && (forall f, g :: f in m.sent && g in m.sent ==> SameCoordinates(f, g))
      && (m.gw.phase == Apply ==> m.applied)
      && (m.applied ==> |m.acked| == m.gw.ok && forall k :: k in m.acked ==>
          && 0 <= k < |m.gw.tbl.peers| == |m.gw.res.nodes|
          && Holds(m, m.gw.tbl.peers[k].addr, m.gw.res.nodes[k].at)
          && m.anchors[m.gw.tbl.peers[k].addr].eui == m.gw.tbl.peers[k].eui)
      && MeasurementsHaveSources(m)
  {
    assert NetInv(n);
    RunKeeps(n, es);
    var m := Final(n, es);
    forall k | 0 <= k < |m.gw.tbl.peers| ensures m.gw.tbl.peers[k] in m.gw.tbl.peers {}
    forall k | m.applied && k in m.acked ensures Holds(m, m.gw.tbl.peers[k].addr, m.gw.res.nodes[k].at) { CountedIsHeld(m, k); }
  }

  /** An anchor that has confirmed holds the node's solution, since there is only one. */
  lemma CountedIsHeld(n: Net, k: nat)
    requires NetInv(n) && n.applied && k in n.acked
    ensures k < |n.gw.tbl.peers| == |n.gw.res.nodes| && Holds(n, n.gw.tbl.peers[k].addr, n.gw.res.nodes[k].at)
  {
    var addr := n.gw.tbl.peers[k].addr;
    var f :| f in n.sent && Confirms(f, n.gw.session, addr);
    assert Solution(n.gw, addr, n.gw.res.nodes[k].at);
    SolutionUnique(n.gw, addr, f.msg.pos, n.gw.res.nodes[k].at);
  }

  // ---- Every node accounted for ----

  /** The tally of the current or the last apply; it is complete once the apply is over. */
  ghost predicate TallyOk(n: Net) {
    n.applied ==> Tallied(n.gw) && (n.gw.phase != Apply ==> n.gw.applyIdx == |n.gw.res.nodes|)
  }

  lemma NextTallies(n: Net, e: Event)
    requires NetInv(n) && TallyOk(n) && Enabled(n, e)
    ensures TallyOk(Next(n, e))
  {
    match e {
      case GwStep(t) => if n.gw.phase == Apply { StepTallies(n.gw, t); }
      case GwHears(f) => if n.gw.phase == Apply { RxTallies(n.gw, f); }
      case _ =>
    }
  }

  lemma {:induction false} RunTallies(n: Net, es: seq<Event>)
    requires NetInv(n) && TallyOk(n) && Runs(n, es)
    ensures TallyOk(Final(n, es))
    decreases |es|
  {
    if es != [] {
      NextTallies(n, es[0]);
      NextKeeps(n, es[0]);
      RunTallies(Next(n, es[0]), es[1..]);
    }
  }

  /** After any run, the last apply has counted each node the cursor passed exactly once: as
      skipped, and those are the nodes never placed; as taken, and those are the ones the
      anchors hold; or as failed. When the apply is over that is every node. */
  lemma EveryNodeIsCounted(n: Net, es: seq<Event>)
    requires Start(n) && Runs(n, es) && Final(n, es).applied
    ensures var gw := Final(n, es).gw;
      && (gw.phase == Apply || gw.phase == Idle)
      && gw.applyIdx <= |gw.res.nodes| == |gw.tbl.peers| && (gw.phase == Idle ==> gw.applyIdx == |gw.res.nodes|)
      && gw.ok + gw.fail + gw.skip == gw.applyIdx
      && gw.skip == UnplacedBelow(gw.res.nodes, gw.applyIdx)
      && gw.ok == |Final(n, es).acked|
  {
    assert NetInv(n);
    RunTallies(n, es);
    RunKeeps(n, es);
  }
}
