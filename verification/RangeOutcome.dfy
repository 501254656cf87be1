/** What the ranging of a survey achieves: every ordered pair gets its chances, and the solve at the
    end is the only way out. */
module RangeOutcome {
  import opened Addresses
  import opened SurveyFit
  import opened SurveyTable
  import opened Gateway
  import opened GatewayRuns

  // ---- The end of ranging ----

  lemma ShiftIsLift(f: Fit, dz: real)
    ensures Lifted(f, if dz != 0.0 then Shift(f, dz) else f, dz)
  {}

  lemma SolveIs(s: Gw, solved: Solved)
    ensures var u := DoSolve(s, solved);
      && u.phase == Idle && u.tbl == s.tbl && u.pairTotal == s.pairTotal
      && (!s.haveResult ==> (u.haveResult <==> ResolveGauge(s).Some? && solved.ok))
  {}

  lemma SolveGives(s: Gw, solved: Solved)
    requires ResolveGauge(s).Some? && solved.ok
    ensures var u := DoSolve(s, solved); u.accepted == Judge(solved.fit) && Lifted(solved.fit, u.res, s.zoff)
  {
    ShiftIsLift(solved.fit, s.zoff);
    JudgeOfLifted(solved.fit, if s.zoff != 0.0 then Shift(solved.fit, s.zoff) else solved.fit, s.zoff);
  }

  lemma JudgeOfLifted(f: Fit, u: Fit, dz: real)
    requires Lifted(f, u, dz)
    ensures Judge(u) == Judge(f)
  {}

  /** A step that does not solve keeps ranging, with the same table. */
  lemma OthersKeepRanging(s: Gw, t: Tick)
    requires Inv(s) && s.phase == Range && (!Solves(s) || t.avail < SOLVE_BUDGET_UUS)
    ensures var u := StepRange(s, t.avail, t.now, t.txOk, t.solved).0; u.phase == Range && u.tbl == s.tbl && u.pairTotal == s.pairTotal
  {
    if !s.awaiting && s.pairIdx < s.pairTotal { var u := SendPairIs(s, t.now, t.txOk); }
  }

  /** A gateway leaves ranging only by a solve, which it makes when every pair has been passed and
      there is the time for it. It then has a result if and only if the gauge resolves and the
      solver answered: the solver's nodes, the placed ones lifted by the height offset. */
  lemma RangingEnds(s: Gw, t: Tick)
    requires Inv(s) && s.phase == Range
    ensures var u := Step(s, t).0;
      && (u.phase != Range <==> Solves(s) && t.avail >= SOLVE_BUDGET_UUS)
      && (u.phase != Range ==>
          && u.phase == Idle && (u.haveResult <==> ResolveGauge(s).Some? && t.solved.ok)
          && (u.haveResult ==> u.accepted == Judge(t.solved.fit) && Lifted(t.solved.fit, u.res, s.zoff)))
  {
    if Solves(s) && t.avail >= SOLVE_BUDGET_UUS {
      SolveIs(s, t.solved);
      if ResolveGauge(s).Some? && t.solved.ok { SolveGives(s, t.solved); }
    } else {
      OthersKeepRanging(s, t);
    }
  }

  /** The same fit with every placed node at another height. */
  ghost predicate Lifted(f: Fit, u: Fit, dz: real) {
    && |u.nodes| == |f.nodes| && u == f.(nodes := u.nodes)
    && forall k :: 0 <= k < |f.nodes| ==>
      u.nodes[k] == if f.nodes[k].state.Unplaced? then f.nodes[k] else f.nodes[k].(at := Vec(f.nodes[k].at.x, f.nodes[k].at.y, f.nodes[k].at.z + dz))
  }

  /** No received frame ends ranging. */
  lemma RxKeepsRanging(s: Gw, f: Frame)
    requires Inv(s) && s.phase == Range
    ensures OnRx(s, f).phase == Range && OnRx(s, f).tbl.peers == s.tbl.peers && !OnRx(s, f).haveResult
  {
    RangeRspOnly(s, f);
  }

  lemma RangeRspOnly(s: Gw, f: Frame)
    requires Inv(s) && s.phase == Range
    ensures OnRx(s, f) == if f.dest == GATEWAY_ADDR && f.msg.RangeRsp? then OnRangeRsp(s, f) else s
  {}

  // ---- What became of each pair ----

  /** How often a pair's response did not come in time, how many of its commands in a row could
      not be transmitted, and whether a response of it was refused. */
  datatype Fate = Fate(timeouts: nat, fails: nat, refused: bool)

  /** A step that finds the deadline of the pair at the cursor past. */
  predicate TimesOut(s: Gw, e: Event) {
    e.Ticked? && s.phase == Range && s.awaiting && e.t.avail >= STEP_BUDGET_UUS && e.t.now >= s.nextAction
  }

  /** The answer to the command in flight. */
  predicate Responds(s: Gw, e: Event) {
    && e.Received? && s.phase == Range && s.awaiting && e.f.dest == GATEWAY_ADDR && e.f.session == s.session
    && e.f.msg.RangeRsp? && e.f.src == s.awaitFrom && e.f.msg.peer == s.awaitPeer
  }

  /** What an event does to the record of the i-th pair. */
  function Recorded(s: Gw, e: Event, i: nat, r: Fate): Fate
    requires Inv(s)
  {
    if s.phase != Range || s.pairIdx != i then r
    else if TimesOut(s, e) then r.(timeouts := r.timeouts + 1)
    else if TriesPair(s, e, i) then (if e.t.txOk then r.(fails := 0) else r.(fails := r.fails + 1))
    else if Responds(s, e) && (e.f.msg.nOk < 10 || e.f.msg.mean <= 0) then r.(refused := true)
    else r
  }

  /** The record of the i-th pair over a run. */
  function FateOf(s: Gw, es: seq<Event>, i: nat, r: Fate): Fate
    requires Inv(s) && Possible(s, es)
    decreases |es|
  {
    if es == [] then r else FateOf(After(s, es[0]), es[1..], i, Recorded(s, es[0], i, r))
  }

  ghost predicate Measured(s: Gw, i: nat)
    requires |s.tbl.peers| >= 2 && i < |s.tbl.peers| * (|s.tbl.peers| - 1)
  {
    var p := PairOf(i, |s.tbl.peers|);
    exists m :: m in s.tbl.meas && m.from == p.from && m.to == p.to
  }

  /** The pair is measured, or was given its chances. */
  ghost predicate Settled(s: Gw, i: nat, r: Fate)
    requires |s.tbl.peers| >= 2 && i < |s.tbl.peers| * (|s.tbl.peers| - 1)
  {
    Measured(s, i) || r.refused || r.timeouts == 2 || r.fails == 10
  }

  /** The record agrees with the cursor. */
  ghost predicate Tallies(s: Gw, i: nat, r: Fate)
    requires Inv(s) && s.phase == Range && i < s.pairTotal
  {
    if i < s.pairIdx then Settled(s, i, r)
    else if i == s.pairIdx then r == Fate(s.pairRetries, s.txFails, false)
    else r == Fate(0, 0, false)
  }

  lemma StepKeepsTable(s: Gw, t: Tick)
    requires Inv(s) && s.phase == Range
    ensures Step(s, t).0.tbl == s.tbl && Step(s, t).0.pairTotal == s.pairTotal
  {
    if Solves(s) && t.avail >= SOLVE_BUDGET_UUS { SolveIs(s, t.solved); } else { OthersKeepRanging(s, t); }
  }

  lemma MeasuredStays(s: Gw, u: Gw, i: nat)
    requires |s.tbl.peers| >= 2 && i < |s.tbl.peers| * (|s.tbl.peers| - 1) && u.tbl.peers == s.tbl.peers
    requires forall m :: m in s.tbl.meas ==> m in u.tbl.meas
    ensures Measured(s, i) ==> Measured(u, i)
  {}

  lemma SentTallies(s: Gw, u: Gw, txOk: bool, i: nat, r: Fate)
    requires Inv(s) && s.phase == Range && s.pairIdx < s.pairTotal && i < s.pairTotal && Tallies(s, i, r) && Inv(u) && Sent(s, u, txOk)
    ensures Tallies(u, i, if s.pairIdx != i then r else if txOk then r.(fails := 0) else r.(fails := r.fails + 1))
  {}

  ghost predicate Sent(s: Gw, u: Gw, txOk: bool) {
    && u.phase == s.phase && u.tbl == s.tbl && u.pairTotal == s.pairTotal
    && if txOk then u.pairIdx == s.pairIdx && u.pairRetries == s.pairRetries && u.txFails == 0
       else if s.txFails + 1 >= TX_FAIL_LIMIT then u.pairIdx == s.pairIdx + 1 && u.pairRetries == 0 && u.txFails == 0
       else u.pairIdx == s.pairIdx && u.pairRetries == s.pairRetries && u.txFails == s.txFails + 1
  }

  lemma SentIs(s: Gw, t: Tick)
    requires Inv(s) && s.phase == Range && !s.awaiting && s.pairIdx < s.pairTotal && t.avail >= STEP_BUDGET_UUS && Fits(s, t.solved)
    ensures Sent(s, After(s, Ticked(t)), t.txOk)
  {
    var v := SendPairIs(s, t.now, t.txOk);
  }

  /** The command for the pair at the cursor. */
  lemma SendTallies(s: Gw, t: Tick, i: nat, r: Fate)
    requires Inv(s) && s.phase == Range && !s.awaiting && s.pairIdx < s.pairTotal && t.avail >= STEP_BUDGET_UUS
    requires i < s.pairTotal && Tallies(s, i, r) && Fits(s, t.solved)
    ensures var u := After(s, Ticked(t)); u.phase == Range && u.pairTotal == s.pairTotal && Tallies(u, i, Recorded(s, Ticked(t), i, r))
  {
    SentIs(s, t);
    SendRecorded(s, t, i, r);
    SentTallies(s, After(s, Ticked(t)), t.txOk, i, r);
  }

  lemma SendRecorded(s: Gw, t: Tick, i: nat, r: Fate)
    requires Inv(s) && s.phase == Range && !s.awaiting && s.pairIdx < s.pairTotal && t.avail >= STEP_BUDGET_UUS
    ensures Recorded(s, Ticked(t), i, r) == if s.pairIdx != i then r else if t.txOk then r.(fails := 0) else r.(fails := r.fails + 1)
  {
    var v := SendPairIs(s, t.now, t.txOk);
  }

  lemma RetryTallies(s: Gw, i: nat, r: Fate)
    requires Inv(s) && s.phase == Range && s.awaiting && s.pairRetries < RANGE_RETRIES && i < s.pairTotal && Tallies(s, i, r)
    ensures var u := s.(pairRetries := s.pairRetries + 1, awaiting := false);
      Inv(u) && Tallies(u, i, if i == s.pairIdx then r.(timeouts := r.timeouts + 1) else r)
  {
    RetryPairKeeps(s);
  }

  lemma GiveUpTallies(s: Gw, i: nat, r: Fate)
    requires Inv(s) && s.phase == Range && s.awaiting && s.pairRetries == RANGE_RETRIES && i < s.pairTotal && Tallies(s, i, r)
    ensures Inv(NextPair(s)) && Tallies(NextPair(s), i, if i == s.pairIdx then r.(timeouts := r.timeouts + 1) else r)
  {
    NextPairKeeps(s);
  }

  lemma AwaitTallies(s: Gw, t: Tick, i: nat, r: Fate)
    requires Inv(s) && s.phase == Range && s.awaiting && i < s.pairTotal && Tallies(s, i, r) && Fits(s, t.solved)
    ensures var u := After(s, Ticked(t)); u.phase == Range && u.pairTotal == s.pairTotal && Tallies(u, i, Recorded(s, Ticked(t), i, r))
  {
    AwaitIs(s, t, i, r);
    if s.pairRetries < RANGE_RETRIES { RetryTallies(s, i, r); } else { GiveUpTallies(s, i, r); }
  }

  lemma AwaitIs(s: Gw, t: Tick, i: nat, r: Fate)
    requires Inv(s) && s.phase == Range && s.awaiting && Fits(s, t.solved)
    ensures After(s, Ticked(t)) ==
      if !TimesOut(s, Ticked(t)) then s
      else if s.pairRetries < RANGE_RETRIES then s.(pairRetries := s.pairRetries + 1, awaiting := false) else NextPair(s)
    ensures Recorded(s, Ticked(t), i, r) == if TimesOut(s, Ticked(t)) && i == s.pairIdx then r.(timeouts := r.timeouts + 1) else r
  {}

  lemma RxTallies(s: Gw, f: Frame, i: nat, r: Fate)
    requires Inv(s) && s.phase == Range && i < s.pairTotal && Tallies(s, i, r)
    ensures var u := After(s, Received(f)); u.phase == Range && u.pairTotal == s.pairTotal && Tallies(u, i, Recorded(s, Received(f), i, r))
  {
    RangeRspOnly(s, f);
    if Responds(s, Received(f)) {
      RespondedTallies(s, f, i, r);
    } else {
      assert OnRx(s, f) == s;
    }
  }

  lemma RespondedTallies(s: Gw, f: Frame, i: nat, r: Fate)
    requires Inv(s) && s.phase == Range && i < s.pairTotal && Tallies(s, i, r) && Responds(s, Received(f))
    ensures var u := OnRangeRsp(s, f); Inv(u) && u.phase == Range && u.pairTotal == s.pairTotal && Tallies(u, i, Recorded(s, Received(f), i, r))
  {
    OnRangeRspKeeps(s, f);
    OnRangeRspStores(s, f);
    var u := OnRangeRsp(s, f);
    MeasuredStays(s, u, i);
    if i == s.pairIdx && f.msg.nOk >= MIN_N_OK && f.msg.mean > 0 {
      var p := PairOf(i, |s.tbl.peers|);
      assert Meas(p.from, p.to, f.msg.mean, f.msg.sd, f.msg.nOk) in u.tbl.meas;
    }
  }

  /** Every event of ranging keeps the record in agreement with the cursor. */
  lemma EventTallies(s: Gw, e: Event, i: nat, r: Fate)
    requires Inv(s) && s.phase == Range && Fitting(s, e) && After(s, e).phase == Range && i < s.pairTotal && Tallies(s, i, r)
    ensures After(s, e).pairTotal == s.pairTotal && Tallies(After(s, e), i, Recorded(s, e, i, r))
  {
    match e {
      case Received(f) => RxTallies(s, f, i, r);
      case Ticked(t) =>
        if s.awaiting {
          AwaitTallies(s, t, i, r);
        } else if s.pairIdx < s.pairTotal && t.avail >= STEP_BUDGET_UUS {
          SendTallies(s, t, i, r);
        } else {
          WaitTallies(s, t, i, r);
        }
    }
  }

  /** No time for a step, or none for the solve. */
  lemma WaitTallies(s: Gw, t: Tick, i: nat, r: Fate)
    requires Inv(s) && s.phase == Range && !s.awaiting && Fits(s, t.solved) && i < s.pairTotal && Tallies(s, i, r)
    requires After(s, Ticked(t)).phase == Range && (s.pairIdx >= s.pairTotal || t.avail < STEP_BUDGET_UUS)
    ensures After(s, Ticked(t)) == s && Tallies(s, i, Recorded(s, Ticked(t), i, r))
  {}

  lemma {:induction false} RunTallies(s: Gw, es: seq<Event>, i: nat, r: Fate)
    requires Inv(s) && Possible(s, es) && s.phase == Range && Run(s, es).phase == Range && i < s.pairTotal && Tallies(s, i, r)
    ensures Run(s, es).pairTotal == s.pairTotal && Tallies(Run(s, es), i, FateOf(s, es, i, r))
    decreases |es|
  {
    if es != [] {
      var u := After(s, es[0]);
      NoWayBack(s, es);
      EventTallies(s, es[0], i, r);
      RunTallies(u, es[1..], i, Recorded(s, es[0], i, r));
    }
  }

  /** A run that is ranging at the end was ranging after its first event. */
  lemma NoWayBack(s: Gw, es: seq<Event>)
    requires Inv(s) && Possible(s, es) && s.phase == Range && es != [] && Run(s, es).phase == Range
    ensures After(s, es[0]).phase == Range
  {
    var u := After(s, es[0]);
    match es[0] {
      case Ticked(t) => RangingEnds(s, t);
      case Received(f) => RxKeepsRanging(s, f);
    }
    if u.phase == Idle { IdleStays(u, es[1..]); }
  }

  /** The state in which ranging starts. */
  predicate Starting(s: Gw) { s.phase == Range && s.pairIdx == 0 && s.pairRetries == 0 && s.txFails == 0 && !s.awaiting }

  /** Ranging starts there, and only after three rounds of a run with enough anchors. */
  lemma RangingStarts(s: Gw, t: Tick)
    requires Inv(s) && s.phase == Enum
    ensures Step(s, t).0.phase == Range <==>
      t.avail >= 10000 && t.now >= s.nextAction && s.enumRound >= 3 && s.isRun && |s.tbl.peers| >= (if s.gauge.up == -1 then 3 else 4)
    ensures Step(s, t).0.phase == Range ==> Starting(Step(s, t).0) && Step(s, t).0.tbl == s.tbl
  {}

  /** Whatever happens meanwhile, when the gateway comes to the solve every ordered pair of its
      anchors has a stored measurement, or had a response that rested on fewer than ten exchanges
      or was not positive, or was commanded twice and did not answer in time, or could not be
      commanded ten times in a row. */
  lemma EveryPairSettled(s: Gw, es: seq<Event>, i: nat)
    requires Inv(s) && Possible(s, es) && Starting(s)
    requires var u := Run(s, es); u.phase == Range && u.pairIdx >= u.pairTotal && i < |u.tbl.peers| * (|u.tbl.peers| - 1)
    ensures Settled(Run(s, es), i, FateOf(s, es, i, Fate(0, 0, false)))
  {
    SamePeers(s, es);
    RunTallies(s, es, i, Fate(0, 0, false));
  }

  lemma {:induction false} SamePeers(s: Gw, es: seq<Event>)
    requires Inv(s) && Possible(s, es) && s.phase == Range && Run(s, es).phase == Range
    ensures Run(s, es).tbl.peers == s.tbl.peers
    decreases |es|
  {
    if es != [] {
      NoWayBack(s, es);
      match es[0] {
        case Ticked(t) => StepKeepsTable(s, t);
        case Received(f) => RxKeepsRanging(s, f);
      }
      SamePeers(After(s, es[0]), es[1..]);
    }
  }
}
