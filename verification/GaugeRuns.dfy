/** The gauge the operator designates, and the one the solver is given when it resolves. */
module GaugeRuns {
  import opened Options
  import opened SurveyFit
  import opened SurveyTable
  import opened Gateway
  import opened GatewayOutcome
  import opened SurveyNetwork
  import S = Seeding

  /** An `up` designation that is unset or was told apart from the three others. */
  predicate UpApart(g: GaugeAddrs) {
    g.up == -1 || (g.up != 0 && g.up != g.origin && g.up != g.xaxis && g.up != g.plane)
  }

  /** A gauge that was never set, or names three distinct 16-bit addresses and an `up` apart. */
  predicate Designated(g: GaugeAddrs) {
    g == GaugeAddrs(0, 0, 0, -1) ||
    (0 < g.origin < 0x1_0000 && 0 < g.xaxis < 0x1_0000 && 0 < g.plane < 0x1_0000
     && g.origin != g.xaxis && g.origin != g.plane && g.xaxis != g.plane && UpApart(g))
  }

  /** Still apart when only the low 16 bits are kept. */
  predicate ApartIn16(g: GaugeAddrs) { Addr16(g.up) != g.origin && Addr16(g.up) != g.xaxis && Addr16(g.up) != g.plane }

  /** The gauge command accepts exactly such gauges, and changes nothing when it refuses. */
  lemma SetGaugeDesignates(s: Gw, origin: nat, xaxis: nat, plane: nat, up: int)
    requires s.phase == Idle && origin < 0x1_0000 && xaxis < 0x1_0000 && plane < 0x1_0000
    ensures var (u, r) := SetGauge(s, origin, xaxis, plane, up);
      && (r == Done <==> origin != 0 && Designated(GaugeAddrs(origin, xaxis, plane, up)))
      && (r == Done ==> u == s.(gauge := GaugeAddrs(origin, xaxis, plane, up))) && (r != Done ==> u == s)
  {}

  /** Addresses of peers differ exactly as their indices do. */
  lemma FoundApart(peers: seq<Peer>, a: nat, b: nat)
    requires FindAddr(peers, a).Some? && FindAddr(peers, b).Some?
    ensures FindAddr(peers, a).value < |peers| && (FindAddr(peers, a) == FindAddr(peers, b) <==> a == b)
  {
    FindAddrBounds(peers, a);
    FindAddrBounds(peers, b);
  }

  lemma FlatGaugeIsValid(peers: seq<Peer>, o: nat, x: nat, p: nat)
    requires FindAddr(peers, o).Some? && FindAddr(peers, x).Some? && FindAddr(peers, p).Some?
    requires o != x && o != p && x != p && |peers| <= MAX_NODES
    ensures S.GaugeValid(Gauge(FindAddr(peers, o).value, FindAddr(peers, x).value, FindAddr(peers, p).value, FindAddr(peers, o).value, Dim2), |peers|)
  {
    FoundApart(peers, o, x);
    FoundApart(peers, x, p);
    FoundApart(peers, p, o);
  }

  lemma UpGaugeIsValid(peers: seq<Peer>, o: nat, x: nat, p: nat, u: nat)
    requires FindAddr(peers, o).Some? && FindAddr(peers, x).Some? && FindAddr(peers, p).Some? && FindAddr(peers, u).Some?
    requires o != x && o != p && x != p && |peers| <= MAX_NODES
    ensures S.GaugeValid(Gauge(FindAddr(peers, o).value, FindAddr(peers, x).value, FindAddr(peers, p).value, FindAddr(peers, u).value, Dim3), |peers|)
      <==> u != o && u != x && u != p
  {
    FlatGaugeIsValid(peers, o, x, p);
    FoundApart(peers, u, o);
    FoundApart(peers, u, x);
    FoundApart(peers, u, p);
  }

  lemma ResolvedIsValid(peers: seq<Peer>, g: GaugeAddrs)
    requires |peers| <= MAX_NODES && Designated(g) && g.origin != 0 && Resolved(peers, g).Some?
    ensures S.GaugeValid(Resolved(peers, g).value, |peers|) <==> g.up == -1 || ApartIn16(g)
  {
    if g.up == -1 {
      FlatGaugeIsValid(peers, g.origin, g.xaxis, g.plane);
    } else {
      UpGaugeIsValid(peers, g.origin, g.xaxis, g.plane, Addr16(g.up));
    }
  }

  /** A designated gauge that resolves is one the solver accepts, if and only if the 16-bit
      form of `up` is still apart from the others. */
  lemma ResolvedGaugeIsValid(s: Gw)
    requires Inv(s) && Designated(s.gauge) && ResolveGauge(s).Some?
    ensures S.GaugeValid(ResolveGauge(s).value, |s.tbl.peers|) <==> s.gauge.up == -1 || ApartIn16(s.gauge)
  {
    FindAddrBounds(s.tbl.peers, Addr16(s.gauge.origin));
    ResolvedIsValid(s.tbl.peers, s.gauge);
  }

  lemma NarrowUp(g: GaugeAddrs)
    requires Designated(g) && 0 <= g.up < 0x1_0000
    ensures ApartIn16(g)
  {}

  /** The command takes an `up` of 65537 beside an origin of 1, and it resolves to the origin. */
  lemma WideUpExample(s: Gw, p: Peer, q: Peer, r: Peer, other: Peer)
    requires s.phase == Idle && s.tbl.peers == [p, q, r, other] && p.addr == 1 && q.addr == 2 && r.addr == 3
    ensures var (u, reply) := SetGauge(s, 1, 2, 3, 0x1_0001);
      && reply == Done && ResolveGauge(u) == Some(Gauge(0, 1, 2, 0, Dim3))
      && !S.GaugeValid(ResolveGauge(u).value, 4)
  {
    var peers := s.tbl.peers;
    assert peers[0].addr == 1 && peers[1].addr == 2 && peers[2].addr == 3;
    assert FindAddr(peers, 1) == Some(0) && FindAddr(peers, 2) == Some(1) && FindAddr(peers, 3) == Some(2);
  }

  // ---- Whole runs ----

  lemma NextDesignates(n: Net, e: Event)
    requires Inv(n.gw) && Enabled(n, e) && Designated(n.gw.gauge)
    ensures Designated(Next(n, e).gw.gauge)
  {
    match e {
      case GwStep(t) => StepKeepsSurvey(n.gw, t);
      case GwHears(f) => RxKeepsSurvey(n.gw, f);
      case GaugeCommand(o, x, p, u) => if n.gw.phase == Idle { SetGaugeDesignates(n.gw, o, x, p, u); }
      case _ =>
    }
  }

  lemma {:induction false} RunDesignates(n: Net, es: seq<Event>)
    requires Inv(n.gw) && Designated(n.gw.gauge) && Runs(n, es)
    ensures Inv(Final(n, es).gw) && Designated(Final(n, es).gw.gauge)
    decreases |es|
  {
    if es != [] {
      NextKeepsGateway(n, es[0]);
      NextDesignates(n, es[0]);
      RunDesignates(Next(n, es[0]), es[1..]);
    }
  }

  /** After any run, the solver refuses the gauge that resolves if and only if the low 16 bits
      of `up` are one of the three other addresses; it never does while `up` fits 16 bits. */
  lemma GaugeIsAccepted(n: Net, es: seq<Event>)
    requires Start(n) && Runs(n, es) && ResolveGauge(Final(n, es).gw).Some?
    ensures var gw := Final(n, es).gw; var g := gw.gauge;
      && (S.GaugeValid(ResolveGauge(gw).value, |gw.tbl.peers|) <==> g.up == -1 || ApartIn16(g))
      && (-1 <= g.up < 0x1_0000 ==> S.GaugeValid(ResolveGauge(gw).value, |gw.tbl.peers|))
  {
    RunDesignates(n, es);
    var gw := Final(n, es).gw;
    ResolvedGaugeIsValid(gw);
    if gw.gauge.up >= 0 && gw.gauge.up < 0x1_0000 { NarrowUp(gw.gauge); }
  }
}
