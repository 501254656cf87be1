/** What a survey leaves behind: every node accounted for, and the persisted survey. */
module GatewayOutcome {
  import opened SurveyFit
  import opened SurveyTable
  import opened Pigeonhole
  import opened Gateway

  /** Same session, peers and, if there is one, result. */
  ghost predicate SameSurvey(s: Gw, u: Gw) {
    && u.session == s.session && u.tbl == s.tbl
    && (s.haveResult ==> u.haveResult && u.res == s.res)
  }

  ghost predicate StepsTo(s: Gw, u: Gw) {
    && SameSurvey(s, u) && u.gauge == s.gauge && u.ok == s.ok
    && (u.phase == Apply ==> s.phase == Apply && s.applyIdx <= u.applyIdx)
  }

  lemma SendPairKeepsSurvey(s: Gw, now: int, txOk: bool)
    requires Inv(s) && s.phase == Range && s.pairIdx < s.pairTotal
    ensures StepsTo(s, SendPair(s, now, txOk).0)
  {}

  lemma SolveKeepsSurvey(s: Gw, solved: Solved)
    requires Inv(s) && s.phase == Range
    ensures StepsTo(s, DoSolve(s, solved))
  {}

  lemma StepRangeKeepsSurvey(s: Gw, t: Tick)
    requires Inv(s) && s.phase == Range
    ensures StepsTo(s, StepRange(s, t.avail, t.now, t.txOk, t.solved).0)
  {
    if !s.awaiting {
      if s.pairIdx < s.pairTotal { SendPairKeepsSurvey(s, t.now, t.txOk); } else { SolveKeepsSurvey(s, t.solved); }
    }
  }

  lemma SendNodeKeepsSurvey(s: Gw, now: int, txOk: bool)
    requires s.applyIdx < |s.res.nodes| == |s.tbl.peers|
    ensures StepsTo(s, SendNode(s, now, txOk).0)
  {}

  lemma PersistKeepsSurvey(s: Gw, avail: nat, saveOk: bool)
    requires |s.res.nodes| == |s.tbl.peers|
    ensures StepsTo(s, Persist(s, avail, saveOk))
  {}

  lemma SkipKeepsSurvey(s: Gw)
    requires s.applyIdx <= |s.res.nodes|
    ensures StepsTo(s, SkipNodes(s)) && |SkipNodes(s).res.nodes| == |s.res.nodes|
  {}

  lemma CursorKeepsSurvey(s: Gw, t: Tick)
    requires s.applyIdx <= |s.res.nodes| == |s.tbl.peers|
    ensures var u := SkipNodes(s);
      && |u.res.nodes| == |u.tbl.peers| && StepsTo(s, Persist(u, t.avail, t.saveOk))
      && (u.applyIdx < |u.res.nodes| ==> StepsTo(s, SendNode(u, t.now, t.txOk).0))
  {
    var u := SkipNodes(s);
    SkipKeepsSurvey(s);
    PersistKeepsSurvey(u, t.avail, t.saveOk);
    if u.applyIdx < |u.res.nodes| { SendNodeKeepsSurvey(u, t.now, t.txOk); }
  }

  lemma StepApplyKeepsSurvey(s: Gw, t: Tick)
    requires Inv(s) && s.phase == Apply
    ensures StepsTo(s, StepApply(s, t.avail, t.now, t.txOk, t.saveOk).0)
  {
    if !s.awaiting && !s.reopen && !s.ending && t.now >= s.nextAction { CursorKeepsSurvey(s, t); }
  }

  /** A step never changes the table or the session, never counts a success, and replaces the
      result only when there is none. */
  lemma StepKeepsSurvey(s: Gw, t: Tick)
    requires Inv(s)
    ensures StepsTo(s, Step(s, t).0)
  {
    match s.phase {
      case Range => StepRangeKeepsSurvey(s, t);
      case Apply => StepApplyKeepsSurvey(s, t);
      case _ =>
    }
  }

  /** A received frame never changes the result, adds peers only while enumerating, and adds
      measurements only while there is no result. */
  lemma RxKeepsSurvey(s: Gw, f: Frame)
    requires Inv(s)
    ensures var u := OnRx(s, f);
      && u.session == s.session && u.gauge == s.gauge && u.haveResult == s.haveResult && u.res == s.res
      && (s.haveResult ==> u.tbl == s.tbl)
      && (u.phase == Apply ==> s.phase == Apply && s.applyIdx <= u.applyIdx)
      && (s.phase != Enum ==> u.tbl.peers == s.tbl.peers)
      && (s.phase == Enum ==> u.tbl.meas == [])
  {
    match f.msg {
      case EnumRsp(_, _, _) => EnumRspKeepsSurvey(s, f);
      case RangeRsp(_, _, _, _) => RangeRspKeepsSurvey(s, f);
      case _ =>
    }
  }

  lemma EnumRspKeepsSurvey(s: Gw, f: Frame)
    requires Inv(s) && f.msg.EnumRsp?
    ensures var u := OnEnumRsp(s, f);
      && u == s.(phase := u.phase, tbl := u.tbl) && (s.phase != Enum ==> u == s)
      && (s.phase == Enum ==> u.tbl.meas == [] && (u.phase == Enum || u.phase == Idle))
  {
    AddPeerKeeps(s.tbl, Peer(f.msg.eui, f.src, f.msg.posValid, f.msg.at.x, f.msg.at.y, f.msg.at.z));
  }

  /** An answer to enumeration puts the anchor in the table as it describes itself, unless the
      table is full of others; it ends the survey exactly when another board holds its address. */
  lemma EnumRspRegisters(s: Gw, f: Frame)
    requires Inv(s) && s.phase == Enum && f.msg.EnumRsp? && f.dest == 0 && f.src != 0 && f.session == s.session
    ensures var u, p := OnRx(s, f), Peer(f.msg.eui, f.src, f.msg.posValid, f.msg.at.x, f.msg.at.y, f.msg.at.z);
      && (u.phase == Idle <==> exists q :: q in s.tbl.peers && q.addr == f.src && q.eui != f.msg.eui)
      && (u.phase != Idle ==> u.phase == Enum)
      && (u.phase == Enum && (|s.tbl.peers| < 8 || exists q :: q in s.tbl.peers && q.eui == f.msg.eui) ==> p in u.tbl.peers)
  {
    var p := Peer(f.msg.eui, f.src, f.msg.posValid, f.msg.at.x, f.msg.at.y, f.msg.at.z);
    AddPeerKeeps(s.tbl, p);
    var (tbl, r) := AddPeer(s.tbl, p);
    if q :| q in s.tbl.peers && q.eui == p.eui {
      var j :| 0 <= j < |s.tbl.peers| && s.tbl.peers[j] == q;
      assert EuiIndex(s.tbl.peers, p.eui) <= j;
    }
    if r.Slot? { assert tbl.peers[r.k] in tbl.peers; }
  }

  lemma RangeRspKeepsSurvey(s: Gw, f: Frame)
    requires Inv(s) && f.msg.RangeRsp?
    ensures var u := OnRangeRsp(s, f);
      && u.session == s.session && u.gauge == s.gauge && u.haveResult == s.haveResult && u.res == s.res && u.phase == s.phase
      && u.ok == s.ok && u.tbl.peers == s.tbl.peers && (s.phase != Range ==> u == s)
  {
    if s.phase == Range && s.awaiting && f.session == s.session && f.src == s.awaitFrom && f.msg.peer == s.awaitPeer {
      OnRangeRspStores(s, f);
    }
  }

  /** A success is counted only for the node at the cursor, on its own anchor's word. */
  lemma RxCounts(s: Gw, f: Frame)
    requires Inv(s)
    ensures var u := OnRx(s, f);
      u.ok != s.ok ==>
        && u.ok == s.ok + 1 && s.phase == Apply == u.phase && u.applyIdx == s.applyIdx + 1
        && f.session == s.session && f.msg.SetPosAck? && f.msg.ok
        && s.applyIdx < |s.tbl.peers| && f.src == s.tbl.peers[s.applyIdx].addr
  {
    match f.msg {
      case EnumRsp(_, _, _) => EnumRspKeepsSurvey(s, f);
      case RangeRsp(_, _, _, _) => RangeRspKeepsSurvey(s, f);
      case _ =>
    }
  }

  // ---- The tally of an apply ----

  function UnplacedBelow(nodes: seq<NodeOut>, k: nat): nat
    requires k <= |nodes|
  {
    if k == 0 then 0 else UnplacedBelow(nodes, k - 1) + if nodes[k - 1].state.Unplaced? then 1 else 0
  }

  /** Each node before the cursor is counted once, and the skipped ones are those not placed. */
  predicate Tallied(s: Gw) {
    && s.applyIdx <= |s.res.nodes| == |s.tbl.peers|
    && s.ok + s.fail + s.skip == s.applyIdx && s.skip == UnplacedBelow(s.res.nodes, s.applyIdx)
  }

  lemma {:induction false} UnplacedRun(nodes: seq<NodeOut>, i: nat, k: nat)
    requires i <= k <= |nodes| && forall j :: i <= j < k ==> nodes[j].state.Unplaced?
    ensures UnplacedBelow(nodes, k) == UnplacedBelow(nodes, i) + (k - i)
  {
    if i < k { UnplacedRun(nodes, i, k - 1); }
  }

  lemma SkipTallies(s: Gw)
    requires Tallied(s)
    ensures Tallied(SkipNodes(s))
  {
    UnplacedRun(s.res.nodes, s.applyIdx, SkipNodes(s).applyIdx);
  }

  /** The node at the cursor, which was placed, has failed. */
  lemma FailTallies(s: Gw)
    requires Tallied(s) && AtNode(s)
    ensures Tallied(NextNode(s.(fail := s.fail + 1)))
  {}

  lemma SameTally(s: Gw, u: Gw)
    requires Tallied(s) && u.tbl == s.tbl && u.res == s.res && u.applyIdx == s.applyIdx
    requires u.ok == s.ok && u.fail == s.fail && u.skip == s.skip
    ensures Tallied(u)
  {}

  lemma SendTallies(s: Gw, now: int, txOk: bool)
    requires Tallied(s) && AtNode(s)
    ensures Tallied(SendNode(s, now, txOk).0)
  {
    if txOk || s.txFails + 1 < TX_FAIL_LIMIT {
      SameTally(s, SendNode(s, now, txOk).0);
    } else {
      FailTallies(s.(awaitFrom := s.tbl.peers[s.applyIdx].addr));
    }
  }

  lemma PersistTallies(s: Gw, avail: nat, saveOk: bool)
    requires Tallied(s)
    ensures Tallied(Persist(s, avail, saveOk))
  {
    SameTally(s, Persist(s, avail, saveOk));
  }

  lemma CursorTallies(s: Gw, t: Tick)
    requires Inv(s) && s.phase == Apply && Tallied(s) && !s.awaiting && !s.reopen && !s.ending && t.now >= s.nextAction
    ensures var u := StepApply(s, t.avail, t.now, t.txOk, t.saveOk).0; u.phase == Apply && Tallied(u)
  {
    SkipTallies(s);
    SkipKeeps(s);
    var u := SkipNodes(s);
    if u.applyIdx < |u.res.nodes| { SendTallies(u, t.now, t.txOk); } else { PersistTallies(u, t.avail, t.saveOk); }
  }

  lemma AwaitingTallies(s: Gw, t: Tick)
    requires Inv(s) && s.phase == Apply && Tallied(s) && s.awaiting
    ensures var u := StepApply(s, t.avail, t.now, t.txOk, t.saveOk).0; u.phase == Apply && Tallied(u)
  {
    FailTallies(s);
    SameTally(s, s.(applyRetries := s.applyRetries + 1, awaiting := false));
  }

  /** A step keeps the tally, and the apply ends only with the cursor past the last node. */
  lemma StepTallies(s: Gw, t: Tick)
    requires Inv(s) && s.phase == Apply && Tallied(s)
    ensures var u := Step(s, t).0;
      Tallied(u) && (u.phase == Apply || (u.phase == Idle && u.applyIdx == |u.res.nodes|))
  {
    if s.awaiting {
      AwaitingTallies(s, t);
    } else if !s.reopen && !s.ending && t.now >= s.nextAction {
      CursorTallies(s, t);
    }
  }

  /** An acknowledgement counts the node at the cursor, which was placed. */
  lemma RxTallies(s: Gw, f: Frame)
    requires Inv(s) && s.phase == Apply && Tallied(s)
    ensures OnRx(s, f).phase == Apply && Tallied(OnRx(s, f))
  {}

  /** A skipped node was not placed, and a placed node is never skipped. */
  lemma OnlyUnplacedAreSkipped(s: Gw)
    requires Inv(s) && s.phase == Apply
    ensures var u := SkipNodes(s);
      && u.skip - s.skip == u.applyIdx - s.applyIdx
      && (forall i :: s.applyIdx <= i < u.applyIdx ==> s.res.nodes[i].state.Unplaced?)
      && (u.applyIdx < |s.res.nodes| ==> !s.res.nodes[u.applyIdx].state.Unplaced?)
  {}

  // ---- The persisted survey ----

  ghost predicate Increasing(s: seq<nat>) { forall i, j :: 0 <= i < j < |s| ==> s[i] < s[j] }

  lemma {:induction false} PlacedButIsSorted(nodes: seq<NodeOut>, but: nat, k: nat)
    requires k <= |nodes|
    ensures var r := PlacedBut(nodes, but, k);
      Increasing(r) && forall i :: i in r <==> k <= i < |nodes| && i != but && !nodes[i].state.Unplaced?
    decreases |nodes| - k
  {
    if k < |nodes| {
      PlacedButIsSorted(nodes, but, k + 1);
      var r, rest := PlacedBut(nodes, but, k), PlacedBut(nodes, but, k + 1);
      assert forall j :: 0 <= j < |rest| ==> rest[j] in rest;
      if k != but && !nodes[k].state.Unplaced? { assert r == [k] + rest; }
    }
  }

  /** Where each row of the saved survey comes from: the gauge's origin first, then every other
      placed node, in index order. */
  ghost function SavedOrder(s: Gw, origin: nat): (r: seq<nat>) { [origin] + PlacedBut(s.res.nodes, origin, 0) }

  ghost predicate RowOf(s: Gw, k: nat, row: SurveyNode)
    requires |s.res.nodes| == |s.tbl.peers|
  {
    k < |s.tbl.peers| && row.eui == s.tbl.peers[k].eui && row.addr == s.tbl.peers[k].addr && row.at == s.res.nodes[k].at
  }

  lemma FindAddrBounds(peers: seq<Peer>, addr: nat)
    ensures FindAddr(peers, addr).Some? ==> FindAddr(peers, addr).value < |peers| && peers[FindAddr(peers, addr).value].addr == addr
    ensures FindAddr(peers, addr).None? <==> forall p :: p in peers ==> p.addr != addr
  {}

  ghost predicate Answers(s: Gw, a: int) { exists p :: p in s.tbl.peers && p.addr == Addr16(a) }

  /** The gauge resolves exactly when every address it names answered enumeration. */
  lemma GaugeResolves(s: Gw)
    ensures ResolveGauge(s).Some? <==>
      Answers(s, s.gauge.origin) && Answers(s, s.gauge.xaxis) && Answers(s, s.gauge.plane) && (s.gauge.up == -1 || Answers(s, s.gauge.up))
    ensures ResolveGauge(s).Some? ==> var g := ResolveGauge(s).value.origin;
      g < |s.tbl.peers| && s.tbl.peers[g].addr == Addr16(s.gauge.origin)
  {
    var peers := s.tbl.peers;
    FindAddrBounds(peers, Addr16(s.gauge.origin));
    FindAddrBounds(peers, Addr16(s.gauge.xaxis));
    FindAddrBounds(peers, Addr16(s.gauge.plane));
    FindAddrBounds(peers, Addr16(s.gauge.up));
  }

  /** When it does, each designation is the row of the peer with that address, and the survey is
      in 2D exactly when none was designated up. */
  lemma ResolvedRows(s: Gw)
    requires ResolveGauge(s).Some?
    ensures var g, peers := ResolveGauge(s).value, s.tbl.peers;
      && g.origin < |peers| && peers[g.origin].addr == Addr16(s.gauge.origin)
      && g.xaxis < |peers| && peers[g.xaxis].addr == Addr16(s.gauge.xaxis)
      && g.plane < |peers| && peers[g.plane].addr == Addr16(s.gauge.plane)
      && (g.dim == Dim2 <==> s.gauge.up == -1)
      && (g.dim == Dim3 ==> g.up < |peers| && peers[g.up].addr == Addr16(s.gauge.up))
  {
    var peers := s.tbl.peers;
    FindAddrBounds(peers, Addr16(s.gauge.origin));
    FindAddrBounds(peers, Addr16(s.gauge.xaxis));
    FindAddrBounds(peers, Addr16(s.gauge.plane));
    FindAddrBounds(peers, Addr16(s.gauge.up));
  }

  /** The persisted survey starts with the anchor that is the gauge's origin now, then lists
      every other placed node exactly once in index order, and has room for all of them. It is
      refused exactly when the gauge does not resolve or its origin was not placed. */
  lemma SavedSurvey(s: Gw)
    requires Inv(s) && s.phase == Apply
    ensures SurveyToSave(s).None? <==>
      ResolveGauge(s).None? || s.res.nodes[ResolveGauge(s).value.origin].state.Unplaced?
    ensures SurveyToSave(s).Some? ==>
      var rows, g := SurveyToSave(s).value, ResolveGauge(s).value.origin;
      var order := SavedOrder(s, g);
      && 0 < |rows| == |order| <= MAX_NODES
      && order[0] == g && rows[0].addr == Addr16(s.gauge.origin)
      && (forall i :: 0 <= i < |rows| ==> RowOf(s, order[i], rows[i]))
      && Increasing(order[1..])
      && (forall k :: k in order <==> 0 <= k < |s.res.nodes| && !s.res.nodes[k].state.Unplaced?)
      && (forall i, j :: 0 <= i < j < |order| ==> order[i] != order[j])
  {
    GaugeResolves(s);
    if SurveyToSave(s).Some? { SavedRows(s, ResolveGauge(s).value.origin); }
  }

  lemma SavedRows(s: Gw, g: nat)
    requires Inv(s) && |s.res.nodes| == |s.tbl.peers| && g < |s.res.nodes| && !s.res.nodes[g].state.Unplaced?
    ensures var order := SavedOrder(s, g);
      && |order| <= MAX_NODES && order[0] == g
      && Increasing(order[1..])
      && (forall k :: k in order <==> 0 <= k < |s.res.nodes| && !s.res.nodes[k].state.Unplaced?)
      && (forall i, j :: 0 <= i < j < |order| ==> order[i] != order[j])
      && (forall i :: 0 <= i < |order| ==> RowOf(s, order[i], SaveOrder(s, order)[i]))
  {
    var rest := PlacedBut(s.res.nodes, g, 0);
    var order := SavedOrder(s, g);
    PlacedButIsSorted(s.res.nodes, g, 0);
    assert order[1..] == rest;
    forall i, j | 0 <= i < j < |order| ensures order[i] != order[j] {
      assert order[j] == rest[j - 1] && order[j] in rest;
      if i > 0 { assert order[i] == rest[i - 1]; }
    }
    forall i | 0 <= i < |order| ensures order[i] < |s.res.nodes| { assert order[i] in order; }
    DistinctBelow(order, |s.res.nodes|);
  }
}
