/** The gateway as it runs: the statics of the step machine, updated in place by commands,
    received frames and steps. */
module GatewayMachine {
  import opened Options
  import opened Addresses
  import opened SurveyFit
  import opened SurveyTable
  import opened SurveyResult
  import G = Gateway
  import E = SurveyEdges
  import L = SurveyLayout
  import R = Refinement
  import T3 = Trilateration

  class Machine {
    const tbl: Table
    var phase: G.Phase
    var session: nat
    var res: Fit
    var haveResult: bool
    var accepted: bool
    var gauge: G.GaugeAddrs
    var zoff: real
    var isRun: bool
    var enumRound: nat
    var nextAction: int
    var pairIdx: nat
    var pairTotal: nat
    var pairRetries: nat
    var txFails: nat
    var awaiting: bool
    var awaitFrom: nat
    var awaitPeer: nat
    var applyIdx: nat
    var applyRetries: nat
    var ok: nat
    var fail: nat
    var skip: nat
    var ending: bool
    var persisted: bool
    var reopen: bool
    var store: Option<seq<G.SurveyNode>>

    ghost function State(): G.Gw
      reads this, tbl
    {
      G.Gw(phase, session, Contents(tbl.peers, tbl.meas), res, haveResult, accepted, gauge, zoff, isRun, enumRound, nextAction,
           pairIdx, pairTotal, pairRetries, txFails, awaiting, awaitFrom, awaitPeer,
           applyIdx, applyRetries, ok, fail, skip, ending, persisted, reopen, store)
    }

    constructor ()
      ensures State() == G.FRESH && fresh(tbl)
    {
      tbl := new Table();
      phase, session, res, haveResult, accepted := G.Idle, 0, G.NO_FIT, false, false;
      gauge, zoff, isRun := G.GaugeAddrs(0, 0, 0, -1), 0.0, false;
      enumRound, nextAction, pairIdx, pairTotal, pairRetries, txFails := 0, 0, 0, 0, 0, 0;
      awaiting, awaitFrom, awaitPeer := false, 0, 0;
      applyIdx, applyRetries, ok, fail, skip := 0, 0, 0, 0, 0;
      ending, persisted, reopen, store := false, false, false, None;
    }

    // ---- Small updates, each a few fields ----

    method SetPhase(p: G.Phase)
      modifies this`phase
      ensures State() == old(State()).(phase := p)
    {
      phase := p;
    }

    method StopWaiting()
      modifies this`awaiting, this`txFails
      ensures State() == old(State()).(awaiting := false, txFails := 0)
    {
      awaiting, txFails := false, 0;
    }

    method WaitUntil(next: int)
      modifies this`awaiting, this`txFails, this`nextAction
      ensures State() == old(State()).(awaiting := true, txFails := 0, nextAction := next)
    {
      awaiting, txFails, nextAction := true, 0, next;
    }

    method ResetPairs(total: nat)
      modifies this`pairIdx, this`pairTotal, this`pairRetries
      ensures State() == old(State()).(pairIdx := 0, pairTotal := total, pairRetries := 0)
    {
      pairIdx, pairTotal, pairRetries := 0, total, 0;
    }

    method ForgetResult()
      modifies this`haveResult, this`accepted
      ensures State() == old(State()).(haveResult := false, accepted := false)
    {
      haveResult, accepted := false, false;
    }

    method ResetRounds(newSession: nat, run: bool)
      modifies this`session, this`enumRound, this`isRun
      ensures State() == old(State()).(session := newSession, enumRound := 0, isRun := run)
    {
      session, enumRound, isRun := newSession, 0, run;
    }

    method ResetTally()
      modifies this`ok, this`fail, this`skip
      ensures State() == old(State()).(ok := 0, fail := 0, skip := 0)
    {
      ok, fail, skip := 0, 0, 0;
    }

    method ResetApply()
      modifies this`ending, this`persisted, this`reopen
      ensures State() == old(State()).(ending := false, persisted := false, reopen := true)
    {
      ending, persisted, reopen := false, false, true;
    }

    method ResetNodes()
      modifies this`applyIdx, this`applyRetries
      ensures State() == old(State()).(applyIdx := 0, applyRetries := 0)
    {
      applyIdx, applyRetries := 0, 0;
    }

    method Schedule(next: int)
      modifies this`nextAction
      ensures State() == old(State()).(nextAction := next)
    {
      nextAction := next;
    }

    method Address(from: nat, peer: nat)
      modifies this`awaitFrom, this`awaitPeer
      ensures State() == old(State()).(awaitFrom := from, awaitPeer := peer)
    {
      awaitFrom, awaitPeer := from, peer;
    }

    method CountNode(taken: bool)
      modifies this`ok, this`fail
      ensures State() == if taken then old(State()).(ok := old(ok) + 1) else old(State()).(fail := old(fail) + 1)
    {
      if taken { ok := ok + 1; } else { fail := fail + 1; }
    }

    method CountTxFail()
      modifies this`txFails
      ensures State() == old(State()).(txFails := old(txFails) + 1)
    {
      txFails := txFails + 1;
    }

    // ---- Commands ----

    method StartEnum(newSession: nat) returns (r: G.Reply)
      modifies this, tbl
      ensures (State(), r) == G.StartEnum(old(State()), newSession)
    {
      if phase != G.Idle { return G.Busy; }
      tbl.Clear();
      ForgetResult();
      ResetRounds(newSession, false);
      Schedule(0);
      ResetPairs(0);
      StopWaiting();
      SetPhase(G.Enum);
      return G.Done;
    }

    method StartRun(newSession: nat) returns (r: G.Reply)
      modifies this, tbl
      ensures (State(), r) == G.StartRun(old(State()), newSession)
    {
      if phase != G.Idle { return G.Busy; }
      if gauge.origin == 0 || gauge.xaxis == 0 || gauge.plane == 0 { return G.Invalid; }
      r := StartEnum(newSession);
      res := G.NO_FIT;
      isRun := true;
    }

    method StartApply(force: bool) returns (r: G.Reply)
      modifies this
      ensures (State(), r) == G.StartApply(old(State()), force)
    {
      if phase != G.Idle { return G.Busy; }
      if !haveResult { return G.NoData; }
      if !accepted && !force { return G.Refused; }
      ResetNodes();
      ResetTally();
      ResetApply();
      StopWaiting();
      Schedule(0);
      SetPhase(G.Apply);
      return G.Done;
    }

    method SetGauge(origin: int, xaxis: int, plane: int, up: int) returns (r: G.Reply)
      modifies this`gauge
      ensures (State(), r) == G.SetGauge(old(State()), origin, xaxis, plane, up)
    {
      if phase != G.Idle { return G.Busy; }
      if origin == 0 || xaxis == 0 || plane == 0 || origin == xaxis || origin == plane || xaxis == plane { return G.Invalid; }
      if up != -1 && (up == 0 || up == origin || up == xaxis || up == plane) { return G.Invalid; }
      gauge := G.GaugeAddrs(origin, xaxis, plane, up);
      return G.Done;
    }

    // ---- Received frames ----

    method OnRx(f: G.Frame)
      modifies this, tbl
      ensures State() == G.OnRx(old(State()), f)
    {
      if phase == G.Idle || f.dest != GATEWAY_ADDR { return; }
      match f.msg {
        case EnumRsp(_, _, _) => OnEnumRsp(f);
        case RangeRsp(_, _, _, _) => OnRangeRsp(f);
        case SetPosAck(_, _) => OnSetPosAck(f);
        case _ =>
      }
    }

    method OnEnumRsp(f: G.Frame)
      requires f.msg.EnumRsp?
      modifies this`phase, tbl
      ensures State() == G.OnEnumRsp(old(State()), f)
    {
      if f.session != session || phase != G.Enum || f.src == GATEWAY_ADDR { return; }
      var r := tbl.PutPeer(Peer(f.msg.eui, f.src, f.msg.posValid, f.msg.at.x, f.msg.at.y, f.msg.at.z));
      if r.AddrInUse? { phase := G.Idle; }
      RefusedChangesNothing(old(tbl.Value()), Peer(f.msg.eui, f.src, f.msg.posValid, f.msg.at.x, f.msg.at.y, f.msg.at.z));
    }

    /** Moves on from the ordered pair at the cursor. */
    method NextPair()
      modifies this
      ensures State() == G.NextPair(old(State()))
    {
      StopWaiting();
      pairRetries, pairIdx := 0, pairIdx + 1;
    }

    method OnRangeRsp(f: G.Frame)
      requires f.msg.RangeRsp?
      modifies this, tbl
      ensures State() == G.OnRangeRsp(old(State()), f)
    {
      if f.session != session || !awaiting || phase != G.Range { return; }
      if f.src != awaitFrom || f.msg.peer != awaitPeer { return; }
      StoreRange(f.msg.mean, f.msg.sd, f.msg.nOk);
      NextPair();
      Schedule(0);
    }

    method StoreRange(mean: int, sd: nat, nOk: nat)
      modifies tbl
      ensures var from, to := FindAddr(old(tbl.peers), awaitFrom), FindAddr(old(tbl.peers), awaitPeer);
        tbl.Value() ==
          if nOk >= G.MIN_N_OK && mean > 0 && from.Some? && to.Some?
          then AddMeas(old(tbl.Value()), Meas(from.value, to.value, mean, sd, nOk)).0 else old(tbl.Value())
    {
      var from := tbl.IndexOfAddr(awaitFrom);
      var to := tbl.IndexOfAddr(awaitPeer);
      if nOk < G.MIN_N_OK {
      } else if mean <= 0 {
      } else if from.Some? && to.Some? {
        var r := tbl.PutMeas(Meas(from.value, to.value, mean, sd, nOk));
      }
    }

    /** Moves on from the node at the cursor. */
    method NextNode()
      modifies this
      ensures State() == G.NextNode(old(State()))
    {
      StopWaiting();
      applyRetries, applyIdx := 0, applyIdx + 1;
    }

    method OnSetPosAck(f: G.Frame)
      requires f.msg.SetPosAck?
      modifies this
      ensures State() == G.OnSetPosAck(old(State()), f)
    {
      if f.session != session || !awaiting || phase != G.Apply || f.src != awaitFrom { return; }
      CountNode(f.msg.ok);
      NextNode();
      Schedule(0);
    }

    // ---- Steps ----

    method StartRanging()
      requires |tbl.peers| > 0
      modifies this
      ensures State() == G.StartRanging(old(State()))
    {
      var n := |tbl.peers|;
      ResetPairs(n * (n - 1));
      StopWaiting();
      Schedule(0);
      SetPhase(G.Range);
    }

    method StepEnum(now: int) returns (sent: Option<G.Frame>)
      modifies this
      ensures (State(), sent) == G.StepEnum(old(State()), now)
    {
      if now < nextAction { return None; }
      if enumRound >= G.ENUM_ROUNDS {
        if !isRun {
          phase := G.Idle;
          return None;
        }
        var minNodes := if gauge.up == -1 then 3 else 4;
        var n := |tbl.peers|;
        if n < minNodes {
          phase := G.Idle;
          return None;
        }
        StartRanging();
        return None;
      }
      sent := Some(G.Frame(GATEWAY_ADDR, BROADCAST, session, G.SurveyBegin(G.WINDOW_S)));
      enumRound, nextAction := enumRound + 1, now + G.ENUM_GAP_MS;
    }

    method FindGauge() returns (g: Option<Gauge>)
      ensures g == G.ResolveGauge(State())
    {
      var o := tbl.IndexOfAddr(G.Addr16(gauge.origin));
      if o.None? { return None; }
      var x := tbl.IndexOfAddr(G.Addr16(gauge.xaxis));
      if x.None? { return None; }
      var p := tbl.IndexOfAddr(G.Addr16(gauge.plane));
      if p.None? { return None; }
      if gauge.up == -1 { return Some(Gauge(o.value, x.value, p.value, o.value, Dim2)); }
      var u := tbl.IndexOfAddr(G.Addr16(gauge.up));
      if u.None? { return None; }
      return Some(Gauge(o.value, x.value, p.value, u.value, Dim3));
    }

    /** Lifts every placed node by the height offset, in place. */
    method ShiftResult()
      modifies this`res
      ensures State() == old(State()).(res := G.Shift(old(res), zoff))
    {
      ghost var was := res.nodes;
      for k := 0 to |res.nodes|
        invariant |res.nodes| == |was| && res == old(res).(nodes := res.nodes)
        invariant forall j :: 0 <= j < k ==> res.nodes[j] == G.ShiftNode(was[j], zoff)
        invariant forall j :: k <= j < |was| ==> res.nodes[j] == was[j]
      {
        var n := res.nodes[k];
        if !n.state.Unplaced? {
          res := res.(nodes := res.nodes[k := NodeOut(Vec(n.at.x, n.at.y, n.at.z + zoff), n.state)]);
        }
      }
      assert res.nodes == G.Shift(old(res), zoff).nodes;
    }

    /** The solver's answer for the table as it stands. */
    method RunSolver(g: Gauge, sqrt: real -> real) returns (solved: G.Solved)
      requires T3.IsRoot(sqrt) && Valid(tbl.Value()) && G.ResolveGauge(State()) == Some(g)
      ensures G.Fits(State(), solved) && Grounded(State(), solved, sqrt) && (solved.ok <==> Solvable(State(), sqrt))
    {
      var t := Contents(tbl.peers, tbl.meas);
      E.EdgesFitBuffer(t, G.MIN_N_OK, sqrt);
      var edges := E.Symmetrise(t, E.MAX_EDGES, G.MIN_N_OK, sqrt);
      var lay := new L.Layout(0, g.dim);
      var code := R.Solve(lay, edges, |tbl.peers|, g, sqrt);
      solved := G.Solved(code == L.Ok, lay.Value());
    }

    /** Accepts or rejects the fit just made, and ends the run. */
    method Conclude()
      modifies this`haveResult, this`accepted, this`phase
      ensures State() == old(State()).(haveResult := true, accepted := G.Judge(res), phase := G.Idle)
    {
      haveResult := true;
      accepted := G.Judge(res);
      phase := G.Idle;
    }

    method SetResult(fit: Fit)
      modifies this`res
      ensures State() == old(State()).(res := fit)
    {
      res := fit;
    }

    method Adopt(answer: G.Solved)
      requires G.ResolveGauge(State()).Some?
      modifies this`res, this`haveResult, this`accepted, this`phase
      ensures State() == G.DoSolve(old(State()), answer)
    {
      AdoptedIs(State(), answer);
      SetResult(answer.fit);
      if !answer.ok {
        SetPhase(G.Idle);
      } else {
        Accept();
      }
    }

    /** The fit just made becomes the result, lifted by the height offset. */
    method Accept()
      modifies this`res, this`haveResult, this`accepted, this`phase
      ensures var fit := if zoff != 0.0 then G.Shift(old(res), zoff) else old(res);
        State() == old(State()).(res := fit).(haveResult := true, accepted := G.Judge(fit), phase := G.Idle)
    {
      if zoff != 0.0 { ShiftResult(); }
      Conclude();
    }

    method DoSolve(sqrt: real -> real) returns (ghost solved: G.Solved)
      requires T3.IsRoot(sqrt) && Valid(tbl.Value())
      modifies this
      ensures State() == G.DoSolve(old(State()), solved)
      ensures G.Fits(old(State()), solved) && Grounded(old(State()), solved, sqrt) && (solved.ok <==> Solvable(old(State()), sqrt))
    {
      solved := G.Solved(false, G.NO_FIT);
      var g := FindGauge();
      if g.None? {
        SetPhase(G.Idle);
      } else {
        var answer := RunSolver(g.value, sqrt);
        solved := answer;
        Adopt(answer);
      }
    }

    method SendPair(now: int, txOk: bool) returns (sent: Option<G.Frame>)
      requires |tbl.peers| >= 2 && pairIdx < |tbl.peers| * (|tbl.peers| - 1)
      modifies this
      ensures (State(), sent) == G.SendPair(old(State()), now, txOk)
    {
      PairOfBijection(pairIdx, |tbl.peers|);
      var p := PairOf(pairIdx, |tbl.peers|);
      Address(tbl.peers[p.from].addr, tbl.peers[p.to].addr);
      sent := Some(G.Frame(GATEWAY_ADDR, awaitFrom, session, G.RangeCmd(awaitPeer, G.N_EXCHANGES)));
      if txOk {
        WaitUntil(now + G.RANGE_TIMEOUT_MS);
      } else {
        CountTxFail();
        if txFails >= G.TX_FAIL_LIMIT { NextPair(); }
      }
    }

    method StepRange(avail: nat, now: int, txOk: bool, sqrt: real -> real) returns (sent: Option<G.Frame>, ghost solved: G.Solved)
      requires T3.IsRoot(sqrt) && Valid(tbl.Value())
      requires pairIdx < pairTotal ==> |tbl.peers| >= 2 && pairTotal <= |tbl.peers| * (|tbl.peers| - 1)
      modifies this
      ensures (State(), sent) == G.StepRange(old(State()), avail, now, txOk, solved)
      ensures G.Fits(old(State()), solved) && Grounded(old(State()), solved, sqrt)
      ensures !old(awaiting) && old(pairIdx) >= old(pairTotal) && avail >= G.SOLVE_BUDGET_UUS ==> (solved.ok <==> Solvable(old(State()), sqrt))
    {
      sent, solved := None, G.Solved(false, G.NO_FIT);
      if awaiting {
        if now < nextAction { return; }
        if pairRetries < G.RANGE_RETRIES {
          pairRetries, awaiting := pairRetries + 1, false;
        } else {
          NextPair();
        }
        return;
      }
      if pairIdx >= pairTotal {
        if avail < G.SOLVE_BUDGET_UUS { return; }
        solved := DoSolve(sqrt);
        return;
      }
      sent := SendPair(now, txOk);
    }
  
    // ---- Applying a survey ----

    /** Passes over the nodes that were not placed. */
    method SkipNodes()
      requires applyIdx <= |res.nodes|
      modifies this`applyIdx, this`skip
      ensures State() == G.SkipNodes(old(State()))
    {
      ghost var start, was := applyIdx, skip;
      while applyIdx < |res.nodes| && res.nodes[applyIdx].state.Unplaced?
        invariant start <= applyIdx <= |res.nodes| && skip == was + (applyIdx - start)
        invariant G.SkipUnplaced(res.nodes, applyIdx) == G.SkipUnplaced(res.nodes, start)
      {
        skip, applyIdx := skip + 1, applyIdx + 1;
      }
    }

    /** The survey as it is stored: two passes over the nodes, the origin in the first. */
    method ListSurvey(origin: nat) returns (saved: seq<G.SurveyNode>)
      requires |res.nodes| == |tbl.peers| && origin < |res.nodes| && !res.nodes[origin].state.Unplaced?
      ensures saved == G.SaveOrder(State(), [origin] + G.PlacedBut(res.nodes, origin, 0))
    {
      saved := [];
      ghost var order: seq<nat> := [];
      for pass := 0 to 2
        invariant saved == G.SaveOrder(State(), order)
        invariant order == if pass == 0 then [] else if pass == 1 then [origin] else [origin] + G.PlacedBut(res.nodes, origin, 0)
      {
        ghost var before := order;
        for k := 0 to |res.nodes|
          invariant saved == G.SaveOrder(State(), order)
          invariant pass == 0 ==> order == if k > origin then [origin] else []
          invariant pass == 1 ==> before == [origin] && order + G.PlacedBut(res.nodes, origin, k) == before + G.PlacedBut(res.nodes, origin, 0)
        {
          var isOrigin := k == origin;
          if (pass == 0) != isOrigin { continue; }
          if res.nodes[k].state.Unplaced? { continue; }
          saved := saved + [G.SurveyNode(tbl.peers[k].eui, tbl.peers[k].addr, res.nodes[k].at)];
          order := order + [k];
        }
      }
    }

    /** The rows to persist, if the gauge still resolves to an origin that was placed. */
    method CollectSurvey() returns (saved: Option<seq<G.SurveyNode>>)
      requires |res.nodes| == |tbl.peers|
      ensures saved == G.SurveyToSave(State())
    {
      var g := FindGauge();
      if g.None? { return None; }
      if res.nodes[g.value.origin].state.Unplaced? { return None; }
      var rows := ListSurvey(g.value.origin);
      return Some(rows);
    }

    method PersistSurvey(saveOk: bool) returns (done: bool)
      requires |res.nodes| == |tbl.peers|
      modifies this`store
      ensures var save := G.SurveyToSave(old(State()));
        && done == (save.Some? && saveOk)
        && State() == old(State()).(store := if done then save else old(store))
    {
      var saved := CollectSurvey();
      done := saved.Some? && saveOk;
      if done { store := saved; }
    }

    method Finish(avail: nat, saveOk: bool)
      requires |res.nodes| == |tbl.peers|
      modifies this
      ensures State() == G.Persist(old(State()), avail, saveOk)
    {
      if avail < G.SOLVE_BUDGET_UUS { return; }
      var done := PersistSurvey(saveOk);
      persisted, ending := done, true;
    }

    method SendNode(now: int, txOk: bool) returns (sent: Option<G.Frame>)
      requires applyIdx < |res.nodes| == |tbl.peers|
      modifies this
      ensures (State(), sent) == G.SendNode(old(State()), now, txOk)
    {
      Address(tbl.peers[applyIdx].addr, awaitPeer);
      sent := Some(G.Frame(GATEWAY_ADDR, awaitFrom, session, G.SetPos(res.nodes[applyIdx].at)));
      if txOk {
        WaitUntil(now + G.APPLY_TIMEOUT_MS);
      } else {
        CountTxFail();
        if txFails >= G.TX_FAIL_LIMIT {
          CountNode(false);
          NextNode();
        }
      }
    }

    /** The reply to a SETPOS has not come in time. */
    method NodeTimedOut()
      modifies this
      ensures State() ==
        if old(applyRetries) < G.APPLY_RETRIES then old(State()).(applyRetries := old(applyRetries) + 1, awaiting := false)
        else G.NextNode(old(State()).(fail := old(fail) + 1))
    {
      if applyRetries < G.APPLY_RETRIES {
        applyRetries, awaiting := applyRetries + 1, false;
      } else {
        CountNode(false);
        NextNode();
      }
    }

    method StepApply(avail: nat, now: int, txOk: bool, saveOk: bool) returns (sent: Option<G.Frame>)
      requires |res.nodes| == |tbl.peers| && applyIdx <= |res.nodes|
      modifies this
      ensures (State(), sent) == G.StepApply(old(State()), avail, now, txOk, saveOk)
    {
      sent := None;
      if awaiting {
        if now >= nextAction { NodeTimedOut(); }
        return;
      }
      if reopen {
        reopen, nextAction := false, now + G.APPLY_SETTLE_MS;
        return Some(G.Frame(GATEWAY_ADDR, BROADCAST, session, G.SurveyBegin(G.WINDOW_S)));
      }
      if now < nextAction { return; }
      if ending {
        ending, phase := false, G.Idle;
        return Some(G.Frame(GATEWAY_ADDR, BROADCAST, session, G.SurveyEnd));
      }
      sent := StepCursor(avail, now, txOk, saveOk);
    }

    /** On to the next placed node, or to the flash write when there is none. */
    method StepCursor(avail: nat, now: int, txOk: bool, saveOk: bool) returns (sent: Option<G.Frame>)
      requires |res.nodes| == |tbl.peers| && applyIdx <= |res.nodes|
      modifies this
      ensures var t := G.SkipNodes(old(State()));
        if t.applyIdx >= |t.res.nodes| then State() == G.Persist(t, avail, saveOk) && sent.None?
        else (State(), sent) == G.SendNode(t, now, txOk)
    {
      sent := None;
      SkipNodes();
      if applyIdx >= |res.nodes| {
        Finish(avail, saveOk);
      } else {
        sent := SendNode(now, txOk);
      }
    }

    // ---- One step ----

    /** A step is the transition the protocol model makes with the answer the solver gave. */
    method Step(avail: nat, now: int, txOk: bool, saveOk: bool, sqrt: real -> real) returns (sent: Option<G.Frame>, ghost solved: G.Solved)
      requires T3.IsRoot(sqrt) && G.Inv(State())
      modifies this
      ensures (State(), sent) == G.Step(old(State()), G.Tick(avail, now, txOk, solved, saveOk))
      ensures G.Fits(old(State()), solved) && Grounded(old(State()), solved, sqrt)
      ensures old(phase) == G.Range && !old(awaiting) && old(pairIdx) >= old(pairTotal) && avail >= G.SOLVE_BUDGET_UUS ==>
        (solved.ok <==> Solvable(old(State()), sqrt))
      ensures G.Inv(State())
    {
      sent, solved := None, G.Solved(false, G.NO_FIT);
      ghost var before := State();
      if phase != G.Idle && avail >= G.STEP_BUDGET_UUS {
        match phase {
          case Enum => sent := StepEnum(now);
          case Range => sent, solved := StepRange(avail, now, txOk, sqrt);
          case Apply => sent := StepApply(avail, now, txOk, saveOk);
          case Idle =>
        }
      }
      G.StepKeeps(before, G.Tick(avail, now, txOk, solved, saveOk));
    }
  }

  lemma AdoptedIs(s: G.Gw, answer: G.Solved)
    requires G.ResolveGauge(s).Some?
    ensures !answer.ok ==> G.DoSolve(s, answer) == s.(res := answer.fit).(phase := G.Idle)
    ensures answer.ok ==>
      var fit := if s.zoff != 0.0 then G.Shift(answer.fit, s.zoff) else answer.fit;
      G.DoSolve(s, answer) == s.(res := fit).(haveResult := true, accepted := G.Judge(fit), phase := G.Idle)
  {}

  lemma RefusedChangesNothing(t: Contents, p: Peer)
    ensures AddPeer(t, p).1.AddrInUse? ==> AddPeer(t, p).0 == t
  {}
}
