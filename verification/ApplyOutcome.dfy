/** What the applying of a survey achieves: every placed node gets its chances. */
module ApplyOutcome {
  import opened Options
  import opened Addresses
  import opened SurveyTable
  import opened Gateway
  import opened GatewayRuns

  /** How often a node's acknowledgement did not come in time, how many of its SETPOS in a row
      could not be transmitted, and what it acknowledged. */
  datatype Fate = Fate(timeouts: nat, fails: nat, answer: Option<bool>)

  predicate TimesOut(s: Gw, e: Event) {
    e.Ticked? && s.phase == Apply && s.awaiting && e.t.avail >= STEP_BUDGET_UUS && e.t.now >= s.nextAction
  }

  predicate Acks(s: Gw, e: Event) {
    && e.Received? && s.phase == Apply && s.awaiting && e.f.dest == GATEWAY_ADDR && e.f.session == s.session
    && e.f.msg.SetPosAck? && e.f.src == s.awaitFrom
  }

  /** What an event does to the record of the k-th node. */
  function Recorded(s: Gw, e: Event, k: nat, r: Fate): Fate
    requires Inv(s)
  {
    if s.phase != Apply then r
    else if TriesNode(s, e, k) then (if e.t.txOk then r.(fails := 0) else r.(fails := r.fails + 1))
    else if s.applyIdx != k then r
    else if TimesOut(s, e) then r.(timeouts := r.timeouts + 1)
    else if Acks(s, e) then r.(answer := Some(e.f.msg.ok))
    else r
  }

  function FateOf(s: Gw, es: seq<Event>, k: nat, r: Fate): Fate
    requires Inv(s) && Possible(s, es)
    decreases |es|
  {
    if es == [] then r else FateOf(After(s, es[0]), es[1..], k, Recorded(s, es[0], k, r))
  }

  /** The node was not placed, or has answered, or was given its chances. */
  ghost predicate Settled(s: Gw, k: nat, r: Fate)
    requires k < |s.res.nodes|
  {
    if s.res.nodes[k].state.Unplaced? then r == Fate(0, 0, None) else r.answer.Some? || r.timeouts == 4 || r.fails == 10
  }

  /** The record agrees with the cursor. */
  ghost predicate Tallies(s: Gw, k: nat, r: Fate)
    requires k < |s.res.nodes|
  {
    if k < s.applyIdx then Settled(s, k, r)
    else if k == s.applyIdx then r == Fate(s.applyRetries, s.txFails, None)
    else r == Fate(0, 0, None)
  }

  // ---- Each kind of event keeps it ----

  lemma RetryTallies(s: Gw, k: nat, r: Fate)
    requires Inv(s) && s.phase == Apply && s.awaiting && s.applyRetries < APPLY_RETRIES && k < |s.res.nodes| && Tallies(s, k, r)
    ensures Tallies(s.(applyRetries := s.applyRetries + 1, awaiting := false), k, if k == s.applyIdx then r.(timeouts := r.timeouts + 1) else r)
  {}

  lemma GiveUpTallies(s: Gw, k: nat, r: Fate)
    requires Inv(s) && s.phase == Apply && s.awaiting && s.applyRetries == APPLY_RETRIES && k < |s.res.nodes| && Tallies(s, k, r)
    ensures Tallies(NextNode(s.(fail := s.fail + 1)), k, if k == s.applyIdx then r.(timeouts := r.timeouts + 1) else r)
  {}

  lemma AwaitIs(s: Gw, t: Tick)
    requires Inv(s) && s.phase == Apply && s.awaiting
    ensures Step(s, t) == (
      if !TimesOut(s, Ticked(t)) then s
      else if s.applyRetries < APPLY_RETRIES then s.(applyRetries := s.applyRetries + 1, awaiting := false)
      else NextNode(s.(fail := s.fail + 1)), None)
  {}

  lemma AwaitTallies(s: Gw, t: Tick, k: nat, r: Fate)
    requires Inv(s) && s.phase == Apply && s.awaiting && k < |s.res.nodes| && Tallies(s, k, r)
    ensures var u := Step(s, t).0; u.phase == Apply && u.res == s.res && Tallies(u, k, Recorded(s, Ticked(t), k, r))
  {
    AwaitIs(s, t);
    if s.applyRetries < APPLY_RETRIES { RetryTallies(s, k, r); } else { GiveUpTallies(s, k, r); }
  }

  lemma RxTallies(s: Gw, f: Frame, k: nat, r: Fate)
    requires Inv(s) && s.phase == Apply && k < |s.res.nodes| && Tallies(s, k, r)
    ensures var u := OnRx(s, f); u.phase == Apply && u.res == s.res && Tallies(u, k, Recorded(s, Received(f), k, r))
  {
    RxIs(s, f);
  }

  lemma RxIs(s: Gw, f: Frame)
    requires Inv(s) && s.phase == Apply
    ensures OnRx(s, f) ==
      if Acks(s, Received(f)) then NextNode((if f.msg.ok then s.(ok := s.ok + 1) else s.(fail := s.fail + 1)).(nextAction := 0)) else s
  {}

  lemma SkipTallies(s: Gw, k: nat, r: Fate)
    requires Inv(s) && s.phase == Apply && !s.awaiting && !s.reopen && !s.ending && k < |s.res.nodes| && Tallies(s, k, r)
    ensures Tallies(SkipNodes(s), k, r) && SkipNodes(s).res == s.res
  {}

  ghost predicate Sent(s: Gw, u: Gw, txOk: bool) {
    && u.phase == s.phase && u.res == s.res
    && if txOk then u.applyIdx == s.applyIdx && u.applyRetries == s.applyRetries && u.txFails == 0
       else if s.txFails + 1 >= TX_FAIL_LIMIT then u.applyIdx == s.applyIdx + 1 && u.applyRetries == 0 && u.txFails == 0
       else u.applyIdx == s.applyIdx && u.applyRetries == s.applyRetries && u.txFails == s.txFails + 1
  }

  lemma SendIs(s: Gw, now: int, txOk: bool)
    requires s.applyIdx < |s.res.nodes| == |s.tbl.peers|
    ensures Sent(s, SendNode(s, now, txOk).0, txOk)
    ensures SendNode(s, now, txOk).1.Some? && SendNode(s, now, txOk).1.value.msg.SetPos?
  {}

  lemma SentTallies(s: Gw, u: Gw, txOk: bool, k: nat, r: Fate)
    requires k < |s.res.nodes| && s.applyIdx < |s.res.nodes| && !s.res.nodes[s.applyIdx].state.Unplaced? && s.txFails < TX_FAIL_LIMIT
    requires Tallies(s, k, r) && Sent(s, u, txOk)
    ensures Tallies(u, k, if s.applyIdx != k then r else if txOk then r.(fails := 0) else r.(fails := r.fails + 1))
  {}

  /** On to the next placed node, or to the flash write. */
  lemma CursorTallies(s: Gw, t: Tick, k: nat, r: Fate)
    requires Inv(s) && s.phase == Apply && !s.awaiting && !s.reopen && !s.ending && t.now >= s.nextAction && t.avail >= STEP_BUDGET_UUS
    requires k < |s.res.nodes| && Tallies(s, k, r)
    ensures var u := Step(s, t).0; u.phase == Apply && u.res == s.res && Tallies(u, k, Recorded(s, Ticked(t), k, r))
  {
    SkipKeeps(s);
    SkipTallies(s, k, r);
    var v := SkipNodes(s);
    CursorIs(s, t);
    if v.applyIdx < |v.res.nodes| {
      SendIs(v, t.now, t.txOk);
      SentTallies(v, Step(s, t).0, t.txOk, k, r);
      CursorRecorded(s, t, k, r);
    }
  }

  lemma CursorIs(s: Gw, t: Tick)
    requires Inv(s) && s.phase == Apply && !s.awaiting && !s.reopen && !s.ending && t.now >= s.nextAction && t.avail >= STEP_BUDGET_UUS
    ensures var v := SkipNodes(s);
      if v.applyIdx < |v.res.nodes| then |v.res.nodes| == |v.tbl.peers| && Step(s, t) == SendNode(v, t.now, t.txOk)
      else Step(s, t).1.None? && Step(s, t).0.phase == Apply && Step(s, t).0.res == s.res && Step(s, t).0.applyIdx == v.applyIdx
  {}

  lemma CursorRecorded(s: Gw, t: Tick, k: nat, r: Fate)
    requires Inv(s) && s.phase == Apply && !s.awaiting && !s.reopen && !s.ending && t.now >= s.nextAction && t.avail >= STEP_BUDGET_UUS
    requires SkipNodes(s).applyIdx < |s.res.nodes|
    ensures Recorded(s, Ticked(t), k, r) ==
      if SkipNodes(s).applyIdx != k then r else if t.txOk then r.(fails := 0) else r.(fails := r.fails + 1)
  {
    CursorIs(s, t);
    SendIs(SkipNodes(s), t.now, t.txOk);
  }

  /** The opening and closing broadcasts, and steps that wait. */
  lemma QuietTallies(s: Gw, t: Tick, k: nat, r: Fate)
    requires Inv(s) && s.phase == Apply && !s.awaiting && k < |s.res.nodes| && Tallies(s, k, r)
    requires s.reopen || s.ending || t.now < s.nextAction || t.avail < STEP_BUDGET_UUS
    ensures var u := Step(s, t).0;
      && u.res == s.res && Tallies(u, k, Recorded(s, Ticked(t), k, r))
      && (u.phase != Apply ==> u.phase == Idle && u.applyIdx == |u.res.nodes|)
  {}

  /** Every event of an apply keeps the record in agreement with the cursor, and the apply ends
      only past the last node. */
  lemma EventTallies(s: Gw, e: Event, k: nat, r: Fate)
    requires Inv(s) && s.phase == Apply && Fitting(s, e) && k < |s.res.nodes| && Tallies(s, k, r)
    ensures var u := After(s, e);
      && u.res == s.res && Tallies(u, k, Recorded(s, e, k, r))
      && (u.phase != Apply ==> u.phase == Idle && u.applyIdx == |u.res.nodes|)
  {
    match e {
      case Received(f) => RxTallies(s, f, k, r);
      case Ticked(t) =>
        if s.awaiting {
          AwaitTallies(s, t, k, r);
        } else if s.reopen || s.ending || t.now < s.nextAction || t.avail < STEP_BUDGET_UUS {
          QuietTallies(s, t, k, r);
        } else {
          CursorTallies(s, t, k, r);
        }
    }
  }

  lemma {:induction false} IdleRecordsNothing(s: Gw, es: seq<Event>, k: nat, r: Fate)
    requires Inv(s) && Possible(s, es) && s.phase == Idle
    ensures FateOf(s, es, k, r) == r
    decreases |es|
  {
    if es != [] { IdleRecordsNothing(After(s, es[0]), es[1..], k, Recorded(s, es[0], k, r)); }
  }

  lemma {:induction false} RunTallies(s: Gw, es: seq<Event>, k: nat, r: Fate)
    requires Inv(s) && Possible(s, es) && k < |s.res.nodes| && Tallies(s, k, r)
    requires s.phase == Apply || (s.phase == Idle && s.applyIdx == |s.res.nodes|)
    ensures var u := Run(s, es);
      && u.res == s.res && Tallies(u, k, FateOf(s, es, k, r))
      && (u.phase != Apply ==> u.phase == Idle && u.applyIdx == |u.res.nodes|)
    decreases |es|
  {
    if s.phase == Idle {
      IdleStays(s, es);
      IdleRecordsNothing(s, es, k, r);
    } else if es != [] {
      EventTallies(s, es[0], k, r);
      RunTallies(After(s, es[0]), es[1..], k, Recorded(s, es[0], k, r));
    }
  }

  /** From the command on, whatever happens, once the apply is over every placed node has
      acknowledged its coordinates, taken or not, or was sent them four times without an answer in
      time, or could not be sent them ten times in a row; and an unplaced one was sent nothing. */
  lemma EveryNodeSettled(s: Gw, force: bool, es: seq<Event>, k: nat)
    requires Inv(s) && StartApply(s, force).1 == Done && k < |s.res.nodes|
    requires Inv(StartApply(s, force).0) && Possible(StartApply(s, force).0, es) && Run(StartApply(s, force).0, es).phase == Idle
    ensures var u := Run(StartApply(s, force).0, es);
      u.res == s.res && Settled(u, k, FateOf(StartApply(s, force).0, es, k, Fate(0, 0, None)))
  {
    RunTallies(StartApply(s, force).0, es, k, Fate(0, 0, None));
  }
}
