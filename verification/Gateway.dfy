/** The gateway's survey step machine: enumerate, range every ordered pair, solve, push the
    answer back. One state value, and a function for each command, step and received frame. */
module Gateway {
  import opened Addresses
  import opened Options
  import opened SurveyFit
  import opened SurveyTable

  const WINDOW_S: nat := 120
  const ENUM_ROUNDS: nat := 3
  const ENUM_GAP_MS: int := 400
  const STEP_BUDGET_UUS: nat := 10000
  const SOLVE_BUDGET_UUS: nat := 150000
  const N_EXCHANGES: nat := 40
  const RANGE_TIMEOUT_MS: int := 3000
  const RANGE_RETRIES: nat := 1
  const TX_FAIL_LIMIT: nat := 10
  const APPLY_TIMEOUT_MS: int := 1500
  const APPLY_SETTLE_MS: int := 400
  const APPLY_RETRIES: nat := 3
  const MIN_N_OK: nat := 10

  // ---- Frames ----

  datatype Msg =
    | SurveyBegin(window: nat)
    | EnumRsp(eui: Eui, posValid: bool, at: Vec)
    | RangeCmd(peer: nat, exchanges: nat)
    | RangeRsp(peer: nat, mean: int, sd: nat, nOk: nat)
    | SetPos(pos: Vec)
    | SetPosAck(pos: Vec, ok: bool)
    | SurveyEnd

  datatype Frame = Frame(src: nat, dest: nat, session: nat, msg: Msg)

  // ---- The solved survey ----

  /** What the geometry solver answered: a fit, or an error with whatever it left behind. */
  datatype Solved = Solved(ok: bool, fit: Fit)

  datatype SurveyNode = SurveyNode(eui: Eui, addr: nat, at: Vec)

  // ---- State ----

  datatype Phase = Idle | Enum | Range | Apply

  /** Operator designations as short addresses; 0 is unset, up == -1 selects 2D. */
  datatype GaugeAddrs = GaugeAddrs(origin: int, xaxis: int, plane: int, up: int)

  datatype Gw = Gw(
    phase: Phase, session: nat, tbl: Contents, res: Fit, haveResult: bool, accepted: bool,
    gauge: GaugeAddrs, zoff: real, isRun: bool, enumRound: nat, nextAction: int,
    pairIdx: nat, pairTotal: nat, pairRetries: nat, txFails: nat,
    awaiting: bool, awaitFrom: nat, awaitPeer: nat,
    applyIdx: nat, applyRetries: nat, ok: nat, fail: nat, skip: nat,
    ending: bool, persisted: bool, reopen: bool, store: Option<seq<SurveyNode>>)

  const NO_FIT: Fit := Fit([], 0, 0, Dim3, 0.0, 0.0)

  const FRESH: Gw := Gw(Idle, 0, Contents([], []), NO_FIT, false, false,
    GaugeAddrs(0, 0, 0, -1), 0.0, false, 0, 0, 0, 0, 0, 0, false, 0, 0, 0, 0, 0, 0, 0, false, false, false, None)

  // ---- Commands ----

  datatype Reply = Done | Busy | Invalid | NoData | Refused

  function StartEnum(s: Gw, session: nat): (Gw, Reply) {
    if s.phase != Idle then (s, Busy)
    else
      (s.(phase := Enum, session := session, tbl := Contents([], []), haveResult := false, accepted := false,
          enumRound := 0, nextAction := 0, isRun := false, pairIdx := 0, pairTotal := 0, pairRetries := 0,
          txFails := 0, awaiting := false), Done)
  }

  predicate GaugeSet(s: Gw) { s.gauge.origin != 0 && s.gauge.xaxis != 0 && s.gauge.plane != 0 }

  function StartRun(s: Gw, session: nat): (Gw, Reply) {
    if s.phase != Idle then (s, Busy)
    else if !GaugeSet(s) then (s, Invalid)
    else (StartEnum(s, session).0.(res := NO_FIT, isRun := true), Done)
  }

  function StartApply(s: Gw, force: bool): (Gw, Reply) {
    if s.phase != Idle then (s, Busy)
    else if !s.haveResult then (s, NoData)
    else if !s.accepted && !force then (s, Refused)
    else
      (s.(phase := Apply, applyIdx := 0, applyRetries := 0, ok := 0, fail := 0, skip := 0, ending := false,
          persisted := false, reopen := true, awaiting := false, txFails := 0, nextAction := 0), Done)
  }

  function SetGauge(s: Gw, origin: int, xaxis: int, plane: int, up: int): (Gw, Reply) {
    if s.phase != Idle then (s, Busy)
    else if origin == 0 || xaxis == 0 || plane == 0 || origin == xaxis || origin == plane || xaxis == plane then (s, Invalid)
    else if up != -1 && (up == 0 || up == origin || up == xaxis || up == plane) then (s, Invalid)
    else (s.(gauge := GaugeAddrs(origin, xaxis, plane, up)), Done)
  }

  // ---- Received frames ----

  function OnEnumRsp(s: Gw, f: Frame): Gw
    requires f.msg.EnumRsp?
  {
    if f.session != s.session || s.phase != Enum || f.src == GATEWAY_ADDR then s
    else
      var (tbl, r) := AddPeer(s.tbl, Peer(f.msg.eui, f.src, f.msg.posValid, f.msg.at.x, f.msg.at.y, f.msg.at.z));
      if r.AddrInUse? then s.(phase := Idle) else s.(tbl := tbl)
  }

  /** Moves on from the ordered pair at the cursor. */
  function NextPair(s: Gw): Gw {
    s.(awaiting := false, pairRetries := 0, txFails := 0, pairIdx := s.pairIdx + 1)
  }

  function OnRangeRsp(s: Gw, f: Frame): Gw
    requires f.msg.RangeRsp?
  {
    if f.session != s.session || !s.awaiting || s.phase != Range then s
    else if f.src != s.awaitFrom || f.msg.peer != s.awaitPeer then s
    else
      var from, to := FindAddr(s.tbl.peers, s.awaitFrom), FindAddr(s.tbl.peers, s.awaitPeer);
      var tbl :=
        if f.msg.nOk >= MIN_N_OK && f.msg.mean > 0 && from.Some? && to.Some?
        then AddMeas(s.tbl, Meas(from.value, to.value, f.msg.mean, f.msg.sd, f.msg.nOk)).0
        else s.tbl;
      NextPair(s.(tbl := tbl, nextAction := 0))
  }

  /** Moves on from the node at the cursor. */
  function NextNode(s: Gw): Gw {
    s.(awaiting := false, applyRetries := 0, txFails := 0, applyIdx := s.applyIdx + 1)
  }

  function OnSetPosAck(s: Gw, f: Frame): Gw
    requires f.msg.SetPosAck?
  {
    if f.session != s.session || !s.awaiting || s.phase != Apply || f.src != s.awaitFrom then s
    else
      var t := if f.msg.ok then s.(ok := s.ok + 1) else s.(fail := s.fail + 1);
      NextNode(t.(nextAction := 0))
  }

  function OnRx(s: Gw, f: Frame): Gw {
    if s.phase == Idle || f.dest != GATEWAY_ADDR then s
    else match f.msg
      case EnumRsp(_, _, _) => OnEnumRsp(s, f)
      case RangeRsp(_, _, _, _) => OnRangeRsp(s, f)
      case SetPosAck(_, _) => OnSetPosAck(s, f)
      case _ => s
  }

  // ---- Steps. The frame is the one a step tries to transmit; it is on the air iff txOk ----

  function BeginFrame(s: Gw): Frame { Frame(GATEWAY_ADDR, BROADCAST, s.session, SurveyBegin(WINDOW_S)) }

  function GaugeDim(g: GaugeAddrs): Dim { if g.up == -1 then Dim2 else Dim3 }

  function MinNodes(d: Dim): nat { if d == Dim2 then 3 else 4 }

  function StartRanging(s: Gw): Gw
    requires |s.tbl.peers| > 0
  {
    var n := |s.tbl.peers|;
    s.(phase := Range, pairTotal := n * (n - 1), pairIdx := 0, pairRetries := 0, txFails := 0,
       awaiting := false, nextAction := 0)
  }

  function StepEnum(s: Gw, now: int): (Gw, Option<Frame>) {
    if now < s.nextAction then (s, None)
    else if s.enumRound >= ENUM_ROUNDS then
      if !s.isRun || |s.tbl.peers| < MinNodes(GaugeDim(s.gauge)) then (s.(phase := Idle), None)
      else (StartRanging(s), None)
    else (s.(enumRound := s.enumRound + 1, nextAction := now + ENUM_GAP_MS), Some(BeginFrame(s)))
  }

  /** An address of the gauge as stored in 16 bits. */
  function Addr16(a: int): nat { a % 0x1_0000 }

  /** The designations as indices of peers, if all of them are known. */
  function Resolved(peers: seq<Peer>, g: GaugeAddrs): Option<Gauge> {
    var o, x, p := FindAddr(peers, Addr16(g.origin)), FindAddr(peers, Addr16(g.xaxis)), FindAddr(peers, Addr16(g.plane));
    if o.None? || x.None? || p.None? then None
    else if g.up == -1 then Some(Gauge(o.value, x.value, p.value, o.value, Dim2))
    else
      var u := FindAddr(peers, Addr16(g.up));
      if u.None? then None else Some(Gauge(o.value, x.value, p.value, u.value, Dim3))
  }

  function ResolveGauge(s: Gw): Option<Gauge> { Resolved(s.tbl.peers, s.gauge) }

  function ShiftNode(n: NodeOut, dz: real): NodeOut {
    if n.state.Unplaced? then n else n.(at := Vec(n.at.x, n.at.y, n.at.z + dz))
  }

  function Shift(f: Fit, dz: real): Fit {
    f.(nodes := seq(|f.nodes|, k requires 0 <= k < |f.nodes| => ShiftNode(f.nodes[k], dz)))
  }

  /** The acceptance thresholds: everything placed, nothing guessed, 50 mm RMS, and no edge
      beyond three times the RMS plus 50 mm. */
  predicate Judge(f: Fit) {
    f.nPlaced == |f.nodes| && f.nAmbiguous == 0 && f.rms * 1000.0 < 50.0 && f.worst <= 3.0 * f.rms + 0.05
  }

  function DoSolve(s: Gw, solved: Solved): (u: Gw)
    ensures u.phase == Idle && u.tbl == s.tbl
  {
    if ResolveGauge(s).None? then s.(phase := Idle)
    else if !solved.ok then s.(phase := Idle, res := solved.fit)
    else
      var fit := if s.zoff != 0.0 then Shift(solved.fit, s.zoff) else solved.fit;
      s.(phase := Idle, res := fit, haveResult := true, accepted := Judge(fit))
  }

  /** Commands the pair at the cursor. */
  function SendPair(s: Gw, now: int, txOk: bool): (Gw, Option<Frame>)
    requires |s.tbl.peers| >= 2 && s.pairIdx < |s.tbl.peers| * (|s.tbl.peers| - 1)
  {
    PairOfBijection(s.pairIdx, |s.tbl.peers|);
    var p := PairOf(s.pairIdx, |s.tbl.peers|);
    var t := s.(awaitFrom := s.tbl.peers[p.from].addr, awaitPeer := s.tbl.peers[p.to].addr);
    var cmd := Frame(GATEWAY_ADDR, t.awaitFrom, s.session, RangeCmd(t.awaitPeer, N_EXCHANGES));
    if txOk then (t.(txFails := 0, awaiting := true, nextAction := now + RANGE_TIMEOUT_MS), Some(cmd))
    else if s.txFails + 1 >= TX_FAIL_LIMIT then (NextPair(t), Some(cmd))
    else (t.(txFails := s.txFails + 1), Some(cmd))
  }

  function StepRange(s: Gw, avail: nat, now: int, txOk: bool, solved: Solved): (Gw, Option<Frame>)
    requires s.pairIdx < s.pairTotal ==> |s.tbl.peers| >= 2 && s.pairTotal <= |s.tbl.peers| * (|s.tbl.peers| - 1)
  {
    if s.awaiting then
      if now < s.nextAction then (s, None)
      else if s.pairRetries < RANGE_RETRIES then (s.(pairRetries := s.pairRetries + 1, awaiting := false), None)
      else (NextPair(s), None)
    else if s.pairIdx >= s.pairTotal then
      if avail < SOLVE_BUDGET_UUS then (s, None) else (DoSolve(s, solved), None)
    else SendPair(s, now, txOk)
  }

  /** Index of the first placed node from k on. */
  function SkipUnplaced(nodes: seq<NodeOut>, k: nat): (j: nat)
    requires k <= |nodes|
    ensures k <= j <= |nodes|
    ensures forall i :: k <= i < j ==> nodes[i].state.Unplaced?
    ensures j < |nodes| ==> !nodes[j].state.Unplaced?
    decreases |nodes| - k
  {
    if k < |nodes| && nodes[k].state.Unplaced? then SkipUnplaced(nodes, k + 1) else k
  }

  /** The placed nodes from k on, but for one, in order. */
  function PlacedBut(nodes: seq<NodeOut>, but: nat, k: nat): seq<nat>
    requires k <= |nodes|
    decreases |nodes| - k
  {
    if k == |nodes| then []
    else if k != but && !nodes[k].state.Unplaced? then [k] + PlacedBut(nodes, but, k + 1)
    else PlacedBut(nodes, but, k + 1)
  }

  /** The survey to persist, origin first; None when the gauge no longer resolves or its
      origin was not placed. */
  function SurveyToSave(s: Gw): Option<seq<SurveyNode>>
    requires |s.res.nodes| == |s.tbl.peers|
  {
    match ResolveGauge(s)
    case None => None
    case Some(g) =>
      if s.res.nodes[g.origin].state.Unplaced? then None
      else Some(SaveOrder(s, [g.origin] + PlacedBut(s.res.nodes, g.origin, 0)))
  }

  function SaveOrder(s: Gw, order: seq<nat>): seq<SurveyNode>
    requires |s.res.nodes| == |s.tbl.peers|
  {
    seq(|order|, i requires 0 <= i < |order| =>
      if order[i] < |s.tbl.peers| then SurveyNode(s.tbl.peers[order[i]].eui, s.tbl.peers[order[i]].addr, s.res.nodes[order[i]].at)
      else SurveyNode(0, 0, ORIGIN))
  }

  /** All nodes are done: persist, unless too little time is left before the beacon. */
  function Persist(s: Gw, avail: nat, saveOk: bool): Gw
    requires |s.res.nodes| == |s.tbl.peers|
  {
    if avail < SOLVE_BUDGET_UUS then s
    else
      var save := SurveyToSave(s);
      s.(persisted := save.Some? && saveOk, ending := true, store := if save.Some? && saveOk then save else s.store)
  }

  /** Pushes its coordinates to the node at the cursor. */
  function SendNode(s: Gw, now: int, txOk: bool): (Gw, Option<Frame>)
    requires s.applyIdx < |s.res.nodes| == |s.tbl.peers|
  {
    var u := s.(awaitFrom := s.tbl.peers[s.applyIdx].addr);
    var cmd := Frame(GATEWAY_ADDR, u.awaitFrom, s.session, SetPos(s.res.nodes[s.applyIdx].at));
    if txOk then (u.(txFails := 0, awaiting := true, nextAction := now + APPLY_TIMEOUT_MS), Some(cmd))
    else if s.txFails + 1 >= TX_FAIL_LIMIT then (NextNode(u.(fail := u.fail + 1)), Some(cmd))
    else (u.(txFails := s.txFails + 1), Some(cmd))
  }

  function SkipNodes(s: Gw): Gw
    requires s.applyIdx <= |s.res.nodes|
  {
    var k := SkipUnplaced(s.res.nodes, s.applyIdx);
    s.(applyIdx := k, skip := s.skip + (k - s.applyIdx))
  }

  function StepApply(s: Gw, avail: nat, now: int, txOk: bool, saveOk: bool): (Gw, Option<Frame>)
    requires |s.res.nodes| == |s.tbl.peers| && s.applyIdx <= |s.res.nodes|
  {
    if s.awaiting then
      if now < s.nextAction then (s, None)
      else if s.applyRetries < APPLY_RETRIES then (s.(applyRetries := s.applyRetries + 1, awaiting := false), None)
      else (NextNode(s.(fail := s.fail + 1)), None)
    else if s.reopen then (s.(reopen := false, nextAction := now + APPLY_SETTLE_MS), Some(BeginFrame(s)))
    else if now < s.nextAction then (s, None)
    else if s.ending then (s.(ending := false, phase := Idle), Some(Frame(GATEWAY_ADDR, BROADCAST, s.session, SurveyEnd)))
    else
      var t := SkipNodes(s);
      if t.applyIdx >= |t.res.nodes| then (Persist(t, avail, saveOk), None) else SendNode(t, now, txOk)
  }

  /** Everything a step depends on from outside: the time left before the beacon, the clock,
      whether a transmission succeeds, what the solver answers, whether the flash write succeeds. */
  datatype Tick = Tick(avail: nat, now: int, txOk: bool, solved: Solved, saveOk: bool)

  function Step(s: Gw, t: Tick): (Gw, Option<Frame>)
    requires Inv(s)
  {
    if s.phase == Idle || t.avail < STEP_BUDGET_UUS then (s, None)
    else match s.phase
      case Enum => StepEnum(s, t.now)
      case Range => StepRange(s, t.avail, t.now, t.txOk, t.solved)
      case Apply => StepApply(s, t.avail, t.now, t.txOk, t.saveOk)
      case Idle => (s, None)
  }

  // ---- What every command, step and frame keeps ----

  ghost predicate TableOk(s: Gw) {
    Valid(s.tbl) && forall p :: p in s.tbl.peers ==> p.addr != GATEWAY_ADDR
  }

  /** Every stored measurement is positive, rests on enough samples, and is of an ordered pair
      the cursor has passed. */
  ghost predicate OnlyPassedPairs(s: Gw) {
    && |s.tbl.meas| <= s.pairIdx
    && forall m :: m in s.tbl.meas ==>
      && |s.tbl.peers| >= 2 && m.from != m.to && PairIndex(Pair(m.from, m.to), |s.tbl.peers|) < s.pairIdx
      && m.mean > 0 && m.nOk >= MIN_N_OK
  }

  ghost predicate EnumOk(s: Gw) {
    s.tbl.meas == [] && s.pairIdx == 0 && s.enumRound <= ENUM_ROUNDS && !s.haveResult && !s.awaiting
  }

  /** The command in flight is for the pair at the cursor. */
  ghost predicate RangeOk(s: Gw) {
    var n := |s.tbl.peers|;
    && n >= 3 && !s.haveResult && s.pairTotal == n * (n - 1) && s.pairIdx <= s.pairTotal
    && s.pairRetries <= RANGE_RETRIES && s.txFails < TX_FAIL_LIMIT
    && (s.awaiting ==> s.txFails == 0 && AwaitingPair(s))
    && (s.pairIdx == s.pairTotal ==> s.pairRetries == 0 && s.txFails == 0)
  }

  ghost predicate AwaitingPair(s: Gw) {
    var n := |s.tbl.peers|;
    && n >= 2 && s.pairIdx < n * (n - 1)
    && var p := PairOf(s.pairIdx, n);
      p.from < n && p.to < n && s.awaitFrom == s.tbl.peers[p.from].addr && s.awaitPeer == s.tbl.peers[p.to].addr
  }

  /** Every node before the cursor is counted once, and the command in flight is for the node at it. */
  ghost predicate ApplyOk(s: Gw) {
    && s.haveResult && |s.res.nodes| == |s.tbl.peers| && s.applyIdx <= |s.res.nodes| && s.ok + s.fail + s.skip == s.applyIdx
    && s.applyRetries <= APPLY_RETRIES && s.txFails < TX_FAIL_LIMIT
    && (s.awaiting ==> s.txFails == 0 && AtNode(s) && s.awaitFrom == s.tbl.peers[s.applyIdx].addr)
    && (s.applyRetries > 0 || s.txFails > 0 ==> AtNode(s))
    && (s.ending ==> s.applyIdx == |s.res.nodes| && !s.awaiting && !s.reopen)
  }

  /** The re-opening broadcast is out and the cursor is at a placed node. */
  ghost predicate AtNode(s: Gw) {
    !s.reopen && s.applyIdx < |s.res.nodes| == |s.tbl.peers| && !s.res.nodes[s.applyIdx].state.Unplaced?
  }

  ghost predicate Inv(s: Gw) {
    && TableOk(s) && OnlyPassedPairs(s)
    && (s.haveResult ==> |s.res.nodes| == |s.tbl.peers|)
    && (s.phase == Enum ==> EnumOk(s))
    && (s.phase == Range ==> RangeOk(s))
    && (s.phase == Apply ==> ApplyOk(s))
  }

  /** A fit the solver may answer: one node for each peer. */
  ghost predicate Fits(s: Gw, solved: Solved) { solved.ok ==> |solved.fit.nodes| == |s.tbl.peers| }

  lemma FreshKeeps()
    ensures Inv(FRESH)
  {}

  lemma StartEnumKeeps(s: Gw, session: nat)
    requires Inv(s)
    ensures Inv(StartEnum(s, session).0)
  {}

  lemma StartRunKeeps(s: Gw, session: nat)
    requires Inv(s)
    ensures Inv(StartRun(s, session).0)
  {}

  lemma StartApplyKeeps(s: Gw, force: bool)
    requires Inv(s)
    ensures Inv(StartApply(s, force).0)
    ensures var t := StartApply(s, force).0; t.session == s.session && t.tbl == s.tbl && t.res == s.res && t.haveResult == s.haveResult
    ensures StartApply(s, force).1 == Done ==> StartApply(s, force).0.phase == Apply && StartApply(s, force).0.ok == 0 && s.haveResult
  {}

  lemma SettingKeeps(s: Gw, g: GaugeAddrs, dz: real)
    requires Inv(s)
    ensures Inv(s.(gauge := g)) && Inv(s.(zoff := dz))
  {}

  lemma OnEnumRspKeeps(s: Gw, f: Frame)
    requires Inv(s) && f.msg.EnumRsp?
    ensures Inv(OnEnumRsp(s, f))
  {
    if f.session == s.session && s.phase == Enum && f.src != GATEWAY_ADDR {
      AddPeerKeeps(s.tbl, Peer(f.msg.eui, f.src, f.msg.posValid, f.msg.at.x, f.msg.at.y, f.msg.at.z));
    }
  }

  /** A response is stored under the pair at the cursor, which no earlier response has used. */
  lemma OnRangeRspStores(s: Gw, f: Frame)
    requires Inv(s) && f.msg.RangeRsp? && s.phase == Range && s.awaiting && f.session == s.session
    requires f.src == s.awaitFrom && f.msg.peer == s.awaitPeer
    ensures var p := PairOf(s.pairIdx, |s.tbl.peers|);
      && OnRangeRsp(s, f).tbl.peers == s.tbl.peers
      && OnRangeRsp(s, f).tbl.meas == s.tbl.meas +
         (if f.msg.nOk >= MIN_N_OK && f.msg.mean > 0 then [Meas(p.from, p.to, f.msg.mean, f.msg.sd, f.msg.nOk)] else [])
      && PairIndex(p, |s.tbl.peers|) == s.pairIdx
  {
    var n := |s.tbl.peers|;
    var p := PairOf(s.pairIdx, n);
    PairOfBijection(s.pairIdx, n);
    FindAddrOfPeer(s.tbl.peers, p.from);
    FindAddrOfPeer(s.tbl.peers, p.to);
    forall m | m in s.tbl.meas ensures m.from != p.from || m.to != p.to {}
    EightBySeven(n);
  }

  lemma OnRangeRspKeeps(s: Gw, f: Frame)
    requires Inv(s) && f.msg.RangeRsp?
    ensures Inv(OnRangeRsp(s, f))
  {
    if s.phase == Range && s.awaiting && f.session == s.session && f.src == s.awaitFrom && f.msg.peer == s.awaitPeer {
      OnRangeRspStores(s, f);
      var p := PairOf(s.pairIdx, |s.tbl.peers|);
      PairOfBijection(s.pairIdx, |s.tbl.peers|);
      AddMeasKeeps(s.tbl, Meas(p.from, p.to, f.msg.mean, f.msg.sd, f.msg.nOk));
    }
  }

  lemma OnRxKeeps(s: Gw, f: Frame)
    requires Inv(s)
    ensures Inv(OnRx(s, f))
  {
    match f.msg {
      case EnumRsp(_, _, _) => OnEnumRspKeeps(s, f);
      case RangeRsp(_, _, _, _) => OnRangeRspKeeps(s, f);
      case _ =>
    }
  }

  lemma NextPairKeeps(s: Gw)
    requires Inv(s) && s.phase == Range && s.pairIdx < s.pairTotal
    ensures Inv(NextPair(s))
  {}

  lemma RetryPairKeeps(s: Gw)
    requires Inv(s) && s.phase == Range && s.awaiting && s.pairRetries < RANGE_RETRIES
    ensures Inv(s.(pairRetries := s.pairRetries + 1, awaiting := false))
  {}

  lemma AbortKeeps(s: Gw, fit: Fit)
    requires Inv(s) && !s.haveResult
    ensures Inv(s.(phase := Idle)) && Inv(s.(phase := Idle, res := fit))
  {}

  lemma ResultKeeps(s: Gw, fit: Fit, accepted: bool)
    requires Inv(s) && |fit.nodes| == |s.tbl.peers|
    ensures Inv(s.(phase := Idle, res := fit, haveResult := true, accepted := accepted))
  {}

  lemma DoSolveKeeps(s: Gw, solved: Solved)
    requires Inv(s) && s.phase == Range && Fits(s, solved)
    ensures Inv(DoSolve(s, solved))
  {
    AbortKeeps(s, solved.fit);
    if solved.ok {
      var fit := if s.zoff != 0.0 then Shift(solved.fit, s.zoff) else solved.fit;
      ResultKeeps(s, fit, Judge(fit));
    }
  }

  /** The command for the pair at the cursor, before it is known whether it gets out. */
  lemma AddressedPairKeeps(s: Gw, from: nat, peer: nat)
    requires Inv(s) && s.phase == Range && !s.awaiting
    ensures Inv(s.(awaitFrom := from, awaitPeer := peer))
  {}

  lemma SentPairKeeps(s: Gw, next: int)
    requires Inv(s) && s.phase == Range && !s.awaiting && AwaitingPair(s)
    ensures Inv(s.(txFails := 0, awaiting := true, nextAction := next))
  {}

  lemma UnsentPairKeeps(s: Gw)
    requires Inv(s) && s.phase == Range && !s.awaiting && s.pairIdx < s.pairTotal && s.txFails + 1 < TX_FAIL_LIMIT
    ensures Inv(s.(txFails := s.txFails + 1))
  {}

  lemma SendPairKeeps(s: Gw, now: int, txOk: bool)
    requires Inv(s) && s.phase == Range && !s.awaiting && s.pairIdx < s.pairTotal
    ensures Inv(SendPair(s, now, txOk).0)
  {
    PairOfBijection(s.pairIdx, |s.tbl.peers|);
    var p := PairOf(s.pairIdx, |s.tbl.peers|);
    var t := s.(awaitFrom := s.tbl.peers[p.from].addr, awaitPeer := s.tbl.peers[p.to].addr);
    AddressedPairKeeps(s, t.awaitFrom, t.awaitPeer);
    SentPairKeeps(t, now + RANGE_TIMEOUT_MS);
    NextPairKeeps(t);
    if s.txFails + 1 < TX_FAIL_LIMIT { UnsentPairKeeps(t); }
  }

  lemma StepRangeKeeps(s: Gw, avail: nat, now: int, txOk: bool, solved: Solved)
    requires Inv(s) && s.phase == Range && Fits(s, solved)
    ensures Inv(StepRange(s, avail, now, txOk, solved).0)
  {
    if s.awaiting {
      NextPairKeeps(s);
      if s.pairRetries < RANGE_RETRIES { RetryPairKeeps(s); }
    } else if s.pairIdx >= s.pairTotal {
      DoSolveKeeps(s, solved);
    } else {
      SendPairKeeps(s, now, txOk);
    }
  }

  lemma NextNodeKeeps(s: Gw, t: Gw)
    requires Inv(s) && s.phase == Apply && AtNode(s) && !s.ending
    requires t == s.(fail := s.fail + 1) || t == s.(ok := s.ok + 1)
    ensures Inv(NextNode(t))
  {}

  lemma RetryNodeKeeps(s: Gw)
    requires Inv(s) && s.phase == Apply && s.awaiting && s.applyRetries < APPLY_RETRIES
    ensures Inv(s.(applyRetries := s.applyRetries + 1, awaiting := false))
  {}

  lemma SkipKeeps(s: Gw)
    requires Inv(s) && s.phase == Apply && !s.awaiting && !s.reopen && !s.ending
    ensures Inv(SkipNodes(s)) && (SkipNodes(s).applyIdx < |s.res.nodes| ==> AtNode(SkipNodes(s)))
  {}

  lemma PersistKeeps(s: Gw, avail: nat, saveOk: bool)
    requires Inv(s) && s.phase == Apply && !s.awaiting && !s.reopen && s.applyIdx == |s.res.nodes|
    ensures Inv(Persist(s, avail, saveOk))
  {}

  lemma AddressedNodeKeeps(s: Gw, from: nat)
    requires Inv(s) && s.phase == Apply && !s.awaiting
    ensures Inv(s.(awaitFrom := from))
  {}

  lemma SentNodeKeeps(s: Gw, next: int)
    requires Inv(s) && s.phase == Apply && !s.awaiting && !s.ending && AtNode(s) && s.awaitFrom == s.tbl.peers[s.applyIdx].addr
    ensures Inv(s.(txFails := 0, awaiting := true, nextAction := next))
    ensures s.txFails + 1 < TX_FAIL_LIMIT ==> Inv(s.(txFails := s.txFails + 1))
  {}

  lemma SendNodeKeeps(s: Gw, now: int, txOk: bool)
    requires Inv(s) && s.phase == Apply && !s.awaiting && !s.ending && AtNode(s)
    ensures Inv(SendNode(s, now, txOk).0)
  {
    var u := s.(awaitFrom := s.tbl.peers[s.applyIdx].addr);
    AddressedNodeKeeps(s, u.awaitFrom);
    SentNodeKeeps(u, now + APPLY_TIMEOUT_MS);
    NextNodeKeeps(u, u.(fail := u.fail + 1));
  }

  lemma QuietKeeps(s: Gw, next: int)
    requires Inv(s) && s.phase == Apply && !s.awaiting
    ensures s.reopen ==> Inv(s.(reopen := false, nextAction := next))
    ensures s.ending ==> Inv(s.(ending := false, phase := Idle))
  {}

  lemma StepApplyKeeps(s: Gw, avail: nat, now: int, txOk: bool, saveOk: bool)
    requires Inv(s) && s.phase == Apply
    ensures Inv(StepApply(s, avail, now, txOk, saveOk).0)
  {
    if s.awaiting {
      NextNodeKeeps(s, s.(fail := s.fail + 1));
      if s.applyRetries < APPLY_RETRIES { RetryNodeKeeps(s); }
    } else if s.reopen || s.ending {
      QuietKeeps(s, now + APPLY_SETTLE_MS);
    } else if now >= s.nextAction {
      SkipKeeps(s);
      var t := SkipNodes(s);
      if t.applyIdx >= |t.res.nodes| { PersistKeeps(t, avail, saveOk); } else { SendNodeKeeps(t, now, txOk); }
    }
  }

  lemma StartRangingKeeps(s: Gw)
    requires Inv(s) && s.phase == Enum && |s.tbl.peers| >= 3
    ensures Inv(StartRanging(s))
  {}

  lemma RoundKeeps(s: Gw, next: int)
    requires Inv(s) && s.phase == Enum && s.enumRound < ENUM_ROUNDS
    ensures Inv(s.(enumRound := s.enumRound + 1, nextAction := next))
  {}

  lemma StepEnumKeeps(s: Gw, now: int)
    requires Inv(s) && s.phase == Enum
    ensures Inv(StepEnum(s, now).0)
  {
    AbortKeeps(s, s.res);
    if |s.tbl.peers| >= 3 { StartRangingKeeps(s); }
    if s.enumRound < ENUM_ROUNDS { RoundKeeps(s, now + ENUM_GAP_MS); }
  }

  lemma StepKeeps(s: Gw, t: Tick)
    requires Inv(s) && Fits(s, t.solved)
    ensures Inv(Step(s, t).0)
  {
    match s.phase {
      case Enum => StepEnumKeeps(s, t.now);
      case Range => StepRangeKeeps(s, t.avail, t.now, t.txOk, t.solved);
      case Apply => StepApplyKeeps(s, t.avail, t.now, t.txOk, t.saveOk);
      case Idle =>
    }
  }
}
