/** Whole runs of the gateway's step machine: it always returns to idle, and how often it may
    transmit to one anchor. */
module GatewayRuns {
  import opened SurveyTable
  import opened Gateway

  // ---- A measure of the work left ----

  /** Steps left for the pair at the cursor: a try costs at most nine failed transmissions, a
      successful one and a timeout, and there are two tries. */
  function PairLeft(s: Gw): int {
    (RANGE_RETRIES - s.pairRetries) * 11 + (if s.awaiting then 1 else 11 - s.txFails)
  }

  function NodeLeft(s: Gw): int {
    (APPLY_RETRIES - s.applyRetries) * 11 + (if s.awaiting then 1 else 11 - s.txFails)
  }

  const PER_PAIR: int := 22
  const PER_NODE: int := 44

  /** An upper bound on the steps that still make progress before the machine is idle. */
  function Rank(s: Gw): int {
    match s.phase
    case Idle => 0
    case Enum => (ENUM_ROUNDS - s.enumRound) + 1 + (if s.isRun then MAX_MEAS * PER_PAIR + 1 else 0)
    case Range => (s.pairTotal - s.pairIdx) * PER_PAIR - (PER_PAIR - PairLeft(s)) + 1
    case Apply =>
      (if s.reopen then 1 else 0) + (|s.res.nodes| - s.applyIdx) * PER_NODE - (PER_NODE - NodeLeft(s))
      + (if s.ending then 1 else 2)
  }

  /** The time the next step asks for: the solve and the flash write want the long budget. */
  function Need(s: Gw): nat
    requires Inv(s)
  {
    if Solves(s) || Persists(s) then SOLVE_BUDGET_UUS else STEP_BUDGET_UUS
  }

  predicate Solves(s: Gw) { s.phase == Range && !s.awaiting && s.pairIdx >= s.pairTotal }

  predicate Persists(s: Gw)
    requires Inv(s)
  {
    s.phase == Apply && !s.awaiting && !s.reopen && !s.ending && SkipUnplaced(s.res.nodes, s.applyIdx) == |s.res.nodes|
  }

  /** The step has the time it asks for and is past the deadline it waits for. */
  predicate Due(s: Gw, t: Tick)
    requires Inv(s)
  {
    t.avail >= Need(s) && t.now >= s.nextAction
  }

  lemma RankIsNatural(s: Gw)
    requires Inv(s)
    ensures Rank(s) >= 0 && (Rank(s) == 0 <==> s.phase == Idle)
    ensures Rank(s) <= 3 + 1 + MAX_MEAS * PER_PAIR + 1
  {
    if s.phase == Range { EightBySeven(|s.tbl.peers|); }
  }

  lemma StepEnumProgress(s: Gw, now: int)
    requires Inv(s) && s.phase == Enum
    ensures Rank(StepEnum(s, now).0) <= Rank(s)
    ensures now >= s.nextAction || StepEnum(s, now).1.Some? ==> Rank(StepEnum(s, now).0) < Rank(s)
  {
    EightBySeven(|s.tbl.peers|);
  }

  /** What SendPair does, whoever the two anchors are. */
  lemma SendPairIs(s: Gw, now: int, txOk: bool) returns (t: Gw)
    requires |s.tbl.peers| >= 2 && s.pairIdx < |s.tbl.peers| * (|s.tbl.peers| - 1)
    ensures t == s.(awaitFrom := t.awaitFrom, awaitPeer := t.awaitPeer)
    ensures SendPair(s, now, txOk).0 ==
      if txOk then t.(txFails := 0, awaiting := true, nextAction := now + RANGE_TIMEOUT_MS)
      else if s.txFails + 1 >= TX_FAIL_LIMIT then NextPair(t) else t.(txFails := s.txFails + 1)
    ensures SendPair(s, now, txOk).1.Some? && SendPair(s, now, txOk).1.value.msg.RangeCmd?
  {
    PairOfBijection(s.pairIdx, |s.tbl.peers|);
    var p := PairOf(s.pairIdx, |s.tbl.peers|);
    t := s.(awaitFrom := s.tbl.peers[p.from].addr, awaitPeer := s.tbl.peers[p.to].addr);
  }

  lemma AddressingKeepsRank(s: Gw, from: nat, peer: nat)
    ensures Rank(s.(awaitFrom := from, awaitPeer := peer)) == Rank(s)
  {}

  lemma SentPairLowersRank(t: Gw, next: int)
    requires t.phase == Range && !t.awaiting && t.pairRetries <= RANGE_RETRIES && t.txFails < TX_FAIL_LIMIT
    ensures Rank(t.(txFails := 0, awaiting := true, nextAction := next)) < Rank(t)
    ensures Rank(t.(txFails := t.txFails + 1)) < Rank(t) && Rank(NextPair(t)) < Rank(t)
  {}

  lemma SendPairProgress(s: Gw, now: int, txOk: bool)
    requires |s.tbl.peers| >= 2 && s.pairIdx < |s.tbl.peers| * (|s.tbl.peers| - 1)
    requires s.phase == Range && !s.awaiting && s.pairRetries <= RANGE_RETRIES && s.txFails < TX_FAIL_LIMIT
    ensures Rank(SendPair(s, now, txOk).0) < Rank(s)
  {
    var t := SendPairIs(s, now, txOk);
    AddressingKeepsRank(s, t.awaitFrom, t.awaitPeer);
    SentPairLowersRank(t, now + RANGE_TIMEOUT_MS);
  }

  lemma StepRangeProgress(s: Gw, avail: nat, now: int, txOk: bool, solved: Solved)
    requires Inv(s) && s.phase == Range
    ensures var (u, f) := StepRange(s, avail, now, txOk, solved);
      && Rank(u) <= Rank(s)
      && ((avail >= Need(s) && now >= s.nextAction) || f.Some? ==> Rank(u) < Rank(s))
  {
    if !s.awaiting && s.pairIdx < s.pairTotal { SendPairProgress(s, now, txOk); }
  }

  lemma SkipProgress(s: Gw)
    requires Inv(s) && s.phase == Apply && !s.awaiting && !s.reopen && !s.ending
    ensures Rank(SkipNodes(s)) <= Rank(s)
  {}

  lemma SendNodeProgress(s: Gw, now: int, txOk: bool)
    requires Inv(s) && s.phase == Apply && !s.awaiting && AtNode(s)
    ensures Rank(SendNode(s, now, txOk).0) < Rank(s)
  {}

  lemma PersistProgress(s: Gw, avail: nat, saveOk: bool)
    requires Inv(s) && s.phase == Apply && !s.awaiting && !s.ending
    ensures Rank(Persist(s, avail, saveOk)) <= Rank(s)
    ensures avail >= SOLVE_BUDGET_UUS ==> Rank(Persist(s, avail, saveOk)) < Rank(s)
  {}

  lemma StepApplyProgress(s: Gw, avail: nat, now: int, txOk: bool, saveOk: bool)
    requires Inv(s) && s.phase == Apply
    ensures var (u, f) := StepApply(s, avail, now, txOk, saveOk);
      && Rank(u) <= Rank(s)
      && ((avail >= Need(s) && now >= s.nextAction) || f.Some? ==> Rank(u) < Rank(s))
  {
    if !s.awaiting && !s.reopen && !s.ending && now >= s.nextAction {
      SkipKeeps(s);
      SkipProgress(s);
      var t := SkipNodes(s);
      if t.applyIdx >= |t.res.nodes| { PersistProgress(t, avail, saveOk); } else { SendNodeProgress(t, now, txOk); }
    }
  }

  /** No step adds work; one that is due, or that transmits, takes some away. */
  lemma StepProgress(s: Gw, t: Tick)
    requires Inv(s)
    ensures Rank(Step(s, t).0) <= Rank(s)
    ensures (s.phase != Idle && Due(s, t)) || Step(s, t).1.Some? ==> Rank(Step(s, t).0) < Rank(s)
  {
    match s.phase {
      case Idle =>
      case Enum => StepEnumProgress(s, t.now);
      case Range => StepRangeProgress(s, t.avail, t.now, t.txOk, t.solved);
      case Apply => StepApplyProgress(s, t.avail, t.now, t.txOk, t.saveOk);
    }
  }

  lemma EnumRspProgress(s: Gw, f: Frame)
    requires Inv(s) && f.msg.EnumRsp?
    ensures Rank(OnEnumRsp(s, f)) <= Rank(s)
  {}

  lemma RangeRspProgress(s: Gw, f: Frame)
    requires Inv(s) && f.msg.RangeRsp?
    ensures Rank(OnRangeRsp(s, f)) <= Rank(s)
  {}

  lemma AckProgress(s: Gw, f: Frame)
    requires Inv(s) && f.msg.SetPosAck?
    ensures Rank(OnSetPosAck(s, f)) <= Rank(s)
  {}

  lemma RxProgress(s: Gw, f: Frame)
    requires Inv(s)
    ensures Rank(OnRx(s, f)) <= Rank(s)
  {
    match f.msg {
      case EnumRsp(_, _, _) => EnumRspProgress(s, f);
      case RangeRsp(_, _, _, _) => RangeRspProgress(s, f);
      case SetPosAck(_, _) => AckProgress(s, f);
      case _ =>
    }
  }

  // ---- Runs ----

  datatype Event = Ticked(t: Tick) | Received(f: Frame)

  /** The solver's answer, if it is asked, has one node for each peer. */
  ghost predicate Fitting(s: Gw, e: Event) { e.Ticked? ==> Fits(s, e.t.solved) }

  function After(s: Gw, e: Event): (u: Gw)
    requires Inv(s) && Fitting(s, e)
    ensures Inv(u)
  {
    match e
    case Ticked(t) => StepKeeps(s, t); Step(s, t).0
    case Received(f) => OnRxKeeps(s, f); OnRx(s, f)
  }

  /** Nothing is asked of a run but that the solver's answers fit. */
  ghost predicate Possible(s: Gw, es: seq<Event>)
    requires Inv(s)
    decreases |es|
  {
    es != [] ==> Fitting(s, es[0]) && Possible(After(s, es[0]), es[1..])
  }

  function Run(s: Gw, es: seq<Event>): (u: Gw)
    requires Inv(s) && Possible(s, es)
    ensures Inv(u)
    decreases |es|
  {
    if es == [] then s else Run(After(s, es[0]), es[1..])
  }

  /** How many steps of the run were due when they came. */
  function DueSteps(s: Gw, es: seq<Event>): nat
    requires Inv(s) && Possible(s, es)
    decreases |es|
  {
    if es == [] then 0
    else (if es[0].Ticked? && Due(s, es[0].t) then 1 else 0) + DueSteps(After(s, es[0]), es[1..])
  }

  /** How many frames the run tried to transmit. */
  function Attempts(s: Gw, es: seq<Event>): nat
    requires Inv(s) && Possible(s, es)
    decreases |es|
  {
    if es == [] then 0
    else (if es[0].Ticked? && Step(s, es[0].t).1.Some? then 1 else 0) + Attempts(After(s, es[0]), es[1..])
  }

  lemma {:induction false} IdleStays(s: Gw, es: seq<Event>)
    requires Inv(s) && Possible(s, es) && s.phase == Idle
    ensures Run(s, es) == s
    decreases |es|
  {
    if es != [] { IdleStays(After(s, es[0]), es[1..]); }
  }

  /** Whatever is received and however often steps are skipped, the machine is idle once as
      many due steps have come as its measure says, and it never tries more frames than that. */
  lemma {:induction false} AlwaysReturnsToIdle(s: Gw, es: seq<Event>)
    requires Inv(s) && Possible(s, es)
    ensures DueSteps(s, es) >= Rank(s) ==> Run(s, es).phase == Idle
    ensures Attempts(s, es) <= Rank(s)
    decreases |es|
  {
    RankIsNatural(s);
    if s.phase == Idle {
      IdleStays(s, es);
    }
    if es != [] {
      match es[0] {
        case Ticked(t) => StepProgress(s, t);
        case Received(f) => RxProgress(s, f);
      }
      AlwaysReturnsToIdle(After(s, es[0]), es[1..]);
    }
  }

  // ---- How often one pair is commanded and one node is sent its coordinates ----

  /** The event tries to command the i-th ordered pair. */
  predicate TriesPair(s: Gw, e: Event, i: nat)
    requires Inv(s)
  {
    e.Ticked? && Step(s, e.t).1.Some? && Step(s, e.t).1.value.msg.RangeCmd? && s.pairIdx == i
  }

  /** The event tries to send the k-th node its coordinates. */
  predicate TriesNode(s: Gw, e: Event, k: nat)
    requires Inv(s)
  {
    e.Ticked? && Step(s, e.t).1.Some? && Step(s, e.t).1.value.msg.SetPos? && SkipUnplaced(s.res.nodes, s.applyIdx) == k
  }

  /** (tries, frames on the air) of the run that command the i-th pair. */
  function PairTraffic(s: Gw, es: seq<Event>, i: nat): (nat, nat)
    requires Inv(s) && Possible(s, es)
    decreases |es|
  {
    if es == [] then (0, 0)
    else
      var (tries, onAir) := PairTraffic(After(s, es[0]), es[1..], i);
      if TriesPair(s, es[0], i) then (tries + 1, if es[0].t.txOk then onAir + 1 else onAir) else (tries, onAir)
  }

  function NodeTraffic(s: Gw, es: seq<Event>, k: nat): (nat, nat)
    requires Inv(s) && Possible(s, es)
    decreases |es|
  {
    if es == [] then (0, 0)
    else
      var (tries, onAir) := NodeTraffic(After(s, es[0]), es[1..], k);
      if TriesNode(s, es[0], k) then (tries + 1, if es[0].t.txOk then onAir + 1 else onAir) else (tries, onAir)
  }

  /** (tries, frames on the air) the i-th pair may still take. */
  function PairBudget(s: Gw, i: nat): (int, int) {
    if s.phase == Enum || (s.phase == Range && i > s.pairIdx) then (20, 2)
    else if s.phase == Range && i == s.pairIdx then
      ((RANGE_RETRIES - s.pairRetries) * TX_FAIL_LIMIT + (if s.awaiting then 0 else TX_FAIL_LIMIT - s.txFails),
       RANGE_RETRIES - s.pairRetries + (if s.awaiting then 0 else 1))
    else (0, 0)
  }

  function NodeBudget(s: Gw, k: nat): (int, int) {
    if s.phase == Apply && k > s.applyIdx then (40, 4)
    else if s.phase == Apply && k == s.applyIdx then
      ((APPLY_RETRIES - s.applyRetries) * TX_FAIL_LIMIT + (if s.awaiting then 0 else TX_FAIL_LIMIT - s.txFails),
       APPLY_RETRIES - s.applyRetries + (if s.awaiting then 0 else 1))
    else (0, 0)
  }

  function Spent(before: (int, int), after: (int, int), tried: bool, onAir: bool): bool {
    && after.0 + (if tried then 1 else 0) <= before.0
    && after.1 + (if tried && onAir then 1 else 0) <= before.1
  }

  lemma PairBudgetBounds(s: Gw, i: nat)
    requires Inv(s)
    ensures 0 <= PairBudget(s, i).0 <= 20 && 0 <= PairBudget(s, i).1 <= 2
  {}

  lemma NodeBudgetBounds(s: Gw, k: nat)
    requires Inv(s)
    ensures 0 <= NodeBudget(s, k).0 <= 40 && 0 <= NodeBudget(s, k).1 <= 4
  {}

  lemma RxSpendsPair(s: Gw, f: Frame, i: nat)
    requires Inv(s)
    ensures Spent(PairBudget(s, i), PairBudget(OnRx(s, f), i), false, false)
  {}

  lemma EnumSpendsPair(s: Gw, now: int, i: nat)
    requires Inv(s) && s.phase == Enum
    ensures Spent(PairBudget(s, i), PairBudget(StepEnum(s, now).0, i), false, false)
    ensures StepEnum(s, now).1.Some? ==> StepEnum(s, now).1.value.msg.SurveyBegin?
  {}

  lemma NextPairSpends(s: Gw, i: nat)
    requires Inv(s) && s.phase == Range && s.awaiting
    ensures Spent(PairBudget(s, i), PairBudget(NextPair(s), i), false, false)
  {}

  lemma RetrySpendsPair(s: Gw, i: nat)
    requires Inv(s) && s.phase == Range && s.awaiting && s.pairRetries < RANGE_RETRIES
    ensures Spent(PairBudget(s, i), PairBudget(s.(pairRetries := s.pairRetries + 1, awaiting := false), i), false, false)
  {}

  lemma SentPairSpends(s: Gw, i: nat, next: int)
    requires s.phase == Range && !s.awaiting && s.pairRetries <= RANGE_RETRIES && s.txFails < TX_FAIL_LIMIT
    ensures Spent(PairBudget(s, i), PairBudget(s.(txFails := 0, awaiting := true, nextAction := next), i), s.pairIdx == i, true)
    ensures Spent(PairBudget(s, i), PairBudget(s.(txFails := s.txFails + 1), i), s.pairIdx == i, false)
    ensures Spent(PairBudget(s, i), PairBudget(NextPair(s), i), s.pairIdx == i, false)
  {}

  lemma AddressingSpendsNoPair(s: Gw, from: nat, peer: nat, i: nat)
    ensures PairBudget(s.(awaitFrom := from, awaitPeer := peer), i) == PairBudget(s, i)
  {}

  lemma SendPairSpends(s: Gw, now: int, txOk: bool, i: nat)
    requires |s.tbl.peers| >= 2 && s.pairIdx < |s.tbl.peers| * (|s.tbl.peers| - 1)
    requires s.phase == Range && !s.awaiting && s.pairRetries <= RANGE_RETRIES && s.txFails < TX_FAIL_LIMIT
    ensures Spent(PairBudget(s, i), PairBudget(SendPair(s, now, txOk).0, i), s.pairIdx == i, txOk)
    ensures SendPair(s, now, txOk).1.Some? && SendPair(s, now, txOk).1.value.msg.RangeCmd?
  {
    var t := SendPairIs(s, now, txOk);
    AddressingSpendsNoPair(s, t.awaitFrom, t.awaitPeer, i);
    SentPairSpends(t, i, now + RANGE_TIMEOUT_MS);
  }

  lemma IdleSpends(s: Gw, i: nat)
    requires s.phase == Idle
    ensures PairBudget(s, i) == (0, 0)
  {}

  lemma RangeSpends(s: Gw, t: Tick, i: nat)
    requires Inv(s) && s.phase == Range
    ensures var (u, f) := StepRange(s, t.avail, t.now, t.txOk, t.solved);
      Spent(PairBudget(s, i), PairBudget(u, i), f.Some? && s.pairIdx == i, t.txOk)
  {
    PairBudgetBounds(s, i);
    if s.awaiting {
      NextPairSpends(s, i);
      if s.pairRetries < RANGE_RETRIES { RetrySpendsPair(s, i); }
    } else if s.pairIdx < s.pairTotal {
      SendPairSpends(s, t.now, t.txOk, i);
    } else {
      IdleSpends(DoSolve(s, t.solved), i);
    }
  }

  lemma ApplySendsNoPair(s: Gw, t: Tick, i: nat)
    requires Inv(s) && s.phase == Apply
    ensures PairBudget(Step(s, t).0, i) == (0, 0)
    ensures Step(s, t).1.Some? ==> !Step(s, t).1.value.msg.RangeCmd?
  {}

  lemma PairSpends(s: Gw, e: Event, i: nat)
    requires Inv(s) && Fitting(s, e)
    ensures Spent(PairBudget(s, i), PairBudget(After(s, e), i), TriesPair(s, e, i), e.Ticked? && e.t.txOk)
  {
    PairBudgetBounds(s, i);
    match e {
      case Received(f) => RxSpendsPair(s, f, i);
      case Ticked(t) =>
        if s.phase == Enum { EnumSpendsPair(s, t.now, i); }
        if s.phase == Range { RangeSpends(s, t, i); }
        if s.phase == Apply { ApplySendsNoPair(s, t, i); }
    }
  }

  lemma AckSpendsNode(s: Gw, f: Frame, k: nat)
    requires Inv(s) && f.msg.SetPosAck?
    ensures Spent(NodeBudget(s, k), NodeBudget(OnSetPosAck(s, f), k), false, false)
  {
    NodeBudgetBounds(s, k);
  }

  /** No other frame is for a gateway that applies, or makes it one. */
  lemma OthersSpendNoNode(s: Gw, f: Frame, k: nat)
    requires Inv(s)
    ensures f.msg.EnumRsp? ==> NodeBudget(OnEnumRsp(s, f), k) == NodeBudget(s, k)
    ensures f.msg.RangeRsp? ==> NodeBudget(OnRangeRsp(s, f), k) == NodeBudget(s, k)
  {}

  lemma RxSpendsNode(s: Gw, f: Frame, k: nat)
    requires Inv(s)
    ensures Spent(NodeBudget(s, k), NodeBudget(OnRx(s, f), k), false, false)
  {
    NodeBudgetBounds(s, k);
    if f.msg.SetPosAck? { AckSpendsNode(s, f, k); } else { OthersSpendNoNode(s, f, k); }
  }

  lemma SendPairSendsNoNode(s: Gw, now: int, txOk: bool)
    requires Inv(s) && s.phase == Range && !s.awaiting && s.pairIdx < s.pairTotal
    ensures SendPair(s, now, txOk).0.phase == Range
    ensures SendPair(s, now, txOk).1.Some? && SendPair(s, now, txOk).1.value.msg.RangeCmd?
  {
    var t := SendPairIs(s, now, txOk);
  }

  lemma RangeSendsNoNode(s: Gw, t: Tick)
    requires Inv(s) && s.phase == Range
    ensures var (u, f) := StepRange(s, t.avail, t.now, t.txOk, t.solved);
      u.phase != Apply && (f.Some? ==> !f.value.msg.SetPos?)
  {
    if !s.awaiting && s.pairIdx < s.pairTotal { SendPairSendsNoNode(s, t.now, t.txOk); }
  }

  lemma OthersSendNoNode(s: Gw, t: Tick, k: nat)
    requires Inv(s) && s.phase != Apply
    ensures NodeBudget(Step(s, t).0, k) == (0, 0)
    ensures Step(s, t).1.Some? ==> !Step(s, t).1.value.msg.SetPos?
  {
    if s.phase == Range { RangeSendsNoNode(s, t); }
  }

  lemma NextNodeSpends(s: Gw, k: nat)
    requires Inv(s) && s.phase == Apply && s.awaiting
    ensures Spent(NodeBudget(s, k), NodeBudget(NextNode(s.(fail := s.fail + 1)), k), false, false)
  {}

  lemma RetrySpendsNode(s: Gw, k: nat)
    requires Inv(s) && s.phase == Apply && s.awaiting && s.applyRetries < APPLY_RETRIES
    ensures Spent(NodeBudget(s, k), NodeBudget(s.(applyRetries := s.applyRetries + 1, awaiting := false), k), false, false)
  {}

  lemma SkipSpends(s: Gw, k: nat)
    requires Inv(s) && s.phase == Apply && !s.awaiting && !s.reopen
    ensures Spent(NodeBudget(s, k), NodeBudget(SkipNodes(s), k), false, false)
  {}

  lemma SendNodeSpends(s: Gw, now: int, txOk: bool, k: nat)
    requires Inv(s) && s.phase == Apply && !s.awaiting && AtNode(s)
    ensures Spent(NodeBudget(s, k), NodeBudget(SendNode(s, now, txOk).0, k), s.applyIdx == k, txOk)
  {
    var u := s.(awaitFrom := s.tbl.peers[s.applyIdx].addr);
    assert NodeBudget(u, k) == NodeBudget(s, k);
    var sent := u.(txFails := 0, awaiting := true, nextAction := now + APPLY_TIMEOUT_MS);
    assert Spent(NodeBudget(u, k), NodeBudget(sent, k), s.applyIdx == k, true);
    assert Spent(NodeBudget(u, k), NodeBudget(NextNode(u.(fail := u.fail + 1)), k), s.applyIdx == k, false);
  }

  lemma PersistSpends(s: Gw, avail: nat, saveOk: bool, k: nat)
    requires s.phase == Apply && |s.res.nodes| == |s.tbl.peers|
    ensures NodeBudget(Persist(s, avail, saveOk), k) == NodeBudget(s, k)
  {}

  lemma CursorSpends(s: Gw, t: Tick, k: nat)
    requires Inv(s) && s.phase == Apply && !s.awaiting && !s.reopen && !s.ending
    ensures var u := SkipNodes(s);
      && |u.res.nodes| == |u.tbl.peers|
      && Spent(NodeBudget(s, k), NodeBudget(Persist(u, t.avail, t.saveOk), k), false, false)
      && (u.applyIdx < |u.res.nodes| ==>
          Spent(NodeBudget(s, k), NodeBudget(SendNode(u, t.now, t.txOk).0, k), u.applyIdx == k, t.txOk))
  {
    SkipSpends(s, k);
    SkipKeeps(s);
    var u := SkipNodes(s);
    PersistSpends(u, t.avail, t.saveOk, k);
    if u.applyIdx < |u.res.nodes| { SendNodeSpends(u, t.now, t.txOk, k); }
  }

  lemma AwaitingSpends(s: Gw, t: Tick, k: nat)
    requires Inv(s) && s.phase == Apply && s.awaiting
    ensures var (u, f) := StepApply(s, t.avail, t.now, t.txOk, t.saveOk);
      f.None? && Spent(NodeBudget(s, k), NodeBudget(u, k), false, false)
  {
    NodeBudgetBounds(s, k);
    NextNodeSpends(s, k);
    if s.applyRetries < APPLY_RETRIES { RetrySpendsNode(s, k); }
  }

  /** The opening and closing broadcasts. */
  lemma QuietSpends(s: Gw, t: Tick, k: nat)
    requires Inv(s) && s.phase == Apply && !s.awaiting && (s.reopen || s.ending || t.now < s.nextAction)
    ensures var (u, f) := StepApply(s, t.avail, t.now, t.txOk, t.saveOk);
      (f.Some? ==> !f.value.msg.SetPos?) && Spent(NodeBudget(s, k), NodeBudget(u, k), false, false)
  {
    NodeBudgetBounds(s, k);
  }

  lemma ApplySpends(s: Gw, t: Tick, k: nat)
    requires Inv(s) && s.phase == Apply
    ensures var (u, f) := StepApply(s, t.avail, t.now, t.txOk, t.saveOk);
      Spent(NodeBudget(s, k), NodeBudget(u, k),
            f.Some? && f.value.msg.SetPos? && SkipUnplaced(s.res.nodes, s.applyIdx) == k, t.txOk)
  {
    if s.awaiting {
      AwaitingSpends(s, t, k);
    } else if s.reopen || s.ending || t.now < s.nextAction {
      QuietSpends(s, t, k);
    } else {
      CursorSpends(s, t, k);
    }
  }

  lemma NodeSpends(s: Gw, e: Event, k: nat)
    requires Inv(s) && Fitting(s, e)
    ensures Spent(NodeBudget(s, k), NodeBudget(After(s, e), k), TriesNode(s, e, k), e.Ticked? && e.t.txOk)
  {
    NodeBudgetBounds(s, k);
    match e {
      case Received(f) => RxSpendsNode(s, f, k);
      case Ticked(t) => if s.phase == Apply { ApplySpends(s, t, k); } else { OthersSendNoNode(s, t, k); }
    }
  }

  /** In any run without a new command, an ordered pair is commanded on the air at most twice,
      in at most twenty tries, and a node is sent its coordinates on the air at most four
      times, in at most forty. */
  lemma {:induction false} TrafficIsBounded(s: Gw, es: seq<Event>, i: nat)
    requires Inv(s) && Possible(s, es)
    ensures PairTraffic(s, es, i).0 <= PairBudget(s, i).0 <= 20 && PairTraffic(s, es, i).1 <= PairBudget(s, i).1 <= 2
    ensures NodeTraffic(s, es, i).0 <= NodeBudget(s, i).0 <= 40 && NodeTraffic(s, es, i).1 <= NodeBudget(s, i).1 <= 4
    decreases |es|
  {
    var e := if es == [] then Received(Frame(0, 0, 0, SurveyEnd)) else es[0];
    PairBudgetBounds(s, i);
    NodeBudgetBounds(s, i);
    PairSpends(s, e, i);
    NodeSpends(s, e, i);
    if es != [] { TrafficIsBounded(After(s, e), es[1..], i); }
  }
}
