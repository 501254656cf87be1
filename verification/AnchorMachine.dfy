/** An anchor as it runs: the statics of the survey window, updated in place by each frame. */
module AnchorMachine {
  import opened Options
  import opened Addresses
  import opened SurveyFit
  import opened SurveyTable
  import G = Gateway
  import A = AnchorNode
  import B = BatchStats

  /** The statistics reported for the distances a batch measured. */
  ghost predicate Reports(b: A.Batch, s: seq<int>) {
    if s == [] then b == A.Batch(0, 0, 0)
    else
      && B.Kept(s) != [] && b.kept == |B.Kept(s)| <= B.MAX_EXCHANGES
      && b.mean == B.Mean(s) && B.IsDeviation(B.Kept(s), b.mean, b.sd) && b.sd <= 300
  }

  /** The distances a batch of the asked length measures, from its clock readings and exchanges. */
  function Measured(asked: nat, start: int, clock: nat -> int, range: nat -> Option<int>): (s: seq<int>)
    ensures |s| <= B.MAX_EXCHANGES
  {
    B.Worked(range, B.Tried(if asked > B.MAX_EXCHANGES then B.MAX_EXCHANGES else asked, clock, start + B.DEADLINE_MS))
  }

  class Node {
    const addr: nat
    const eui: Eui
    const euiReady: bool
    const batch: array<int>
    var posValid: bool
    var pos: Vec
    var stored: Vec
    var winSession: nat
    var deadline: int
    var beginSeen: nat

    ghost function State(): A.Anchor
      reads this
    {
      A.Anchor(addr, eui, euiReady, posValid, pos, stored, winSession, deadline, beginSeen)
    }

    constructor (a: nat, e: Eui, ready: bool, valid: bool, at: Vec)
      ensures State() == A.Anchor(a, e, ready, valid, at, at, 0, 0, 0)
      ensures fresh(batch) && batch.Length == B.MAX_EXCHANGES
    {
      addr, eui, euiReady, posValid, pos, stored := a, e, ready, valid, at, at;
      winSession, deadline, beginSeen := 0, 0, 0;
      batch := new int[B.MAX_EXCHANGES];
    }

    /** Asking whether the window is open closes one that has expired. */
    method WindowOpen(now: int) returns (open: bool)
      modifies this`winSession
      ensures (State(), open) == A.Window(old(State()), now)
    {
      if winSession == 0 { return false; }
      if now > deadline {
        winSession := 0;
        return false;
      }
      return true;
    }

    method Refresh(now: int)
      modifies this`deadline
      ensures State() == A.Refresh(old(State()), now)
    {
      if winSession != 0 { deadline := now + 1000 * A.REFRESH_S; }
    }

    method HandleSurveyBegin(now: int, session: nat, window: nat) returns (reply: Option<G.Frame>)
      modifies this
      ensures (State(), reply) == A.OnSurveyBegin(old(State()), now, session, window)
    {
      if session == 0 || !euiReady { return None; }
      if session != winSession { beginSeen := 0; }
      if beginSeen < 255 { beginSeen := beginSeen + 1; }
      winSession, deadline := session, now + window * 1000;
      return Some(G.Frame(addr, GATEWAY_ADDR, session, G.EnumRsp(eui, posValid, pos)));
    }

    method HandleSetPos(now: int, session: nat, p: Vec, storeOk: bool) returns (reply: Option<G.Frame>)
      modifies this
      ensures (State(), reply) == A.OnSetPos(old(State()), now, session, p, storeOk)
    {
      if session != winSession { return None; }
      Refresh(now);
      pos, posValid := p, true;
      if storeOk { stored := pos; }
      return Some(G.Frame(addr, GATEWAY_ADDR, session, G.SetPosAck(pos, storeOk)));
    }

    method HandleSurveyEnd(session: nat)
      modifies this
      ensures State() == A.OnSurveyEnd(old(State()), session)
    {
      if session != winSession { return; }
      winSession, beginSeen := 0, 0;
    }

    method HandleRangeCmd(now: int, later: int, session: nat, peer: nat, asked: nat, start: int, clock: nat -> int, range: nat -> Option<int>)
      returns (reply: Option<G.Frame>, ghost b: A.Batch)
      requires batch.Length == B.MAX_EXCHANGES
      requires A.Honours(State(), now, session, peer) ==> B.NoOverflow(Measured(asked, start, clock, range))
      modifies this, batch
      ensures (State(), reply) == A.OnRangeCmd(old(State()), now, later, session, peer, b)
      ensures reply.Some? ==> Reports(b, Measured(asked, start, clock, range))
    {
      reply, b := None, A.Batch(0, 0, 0);
      var open := WindowOpen(now);
      if !open || session != winSession { return; }
      Refresh(later);
      if peer == GATEWAY_ADDR || peer == addr || peer < A.ANCHOR_ADDR_BASE || peer >= A.ANCHOR_ADDR_BASE + A.MAX_ANCHORS { return; }
      var valid := B.Collect(asked, start, clock, range, batch);
      var kept, mean, sd := B.Stats(batch, valid);
      assert batch[..valid] == Measured(asked, start, clock, range);
      b := A.Batch(kept, mean, sd);
      reply := Some(G.Frame(addr, GATEWAY_ADDR, session, G.RangeRsp(peer, mean, sd, kept)));
    }

    /** A survey frame, which is dispatched once it is seen to be from the gateway and for this
        anchor; or any other frame, on which the window is asked for. */
    method OnRx(e: A.Arrival, start: int, clock: nat -> int, range: nat -> Option<int>) returns (reply: Option<G.Frame>, ghost b: A.Batch)
      requires batch.Length == B.MAX_EXCHANGES
      requires e.Arrival? && e.f.msg.RangeCmd? && A.Honours(State(), e.l.now, e.f.session, e.f.msg.peer) ==>
        B.NoOverflow(Measured(e.f.msg.exchanges, start, clock, range))
      modifies this, batch
      ensures e.Alien? ==> State() == A.Hear(old(State()), e) && reply.None?
      ensures e.Arrival? ==> (State(), reply) == A.Receive(old(State()), e.f, e.l.(batch := b))
      ensures reply.Some? && e.f.msg.RangeCmd? ==> Reports(b, Measured(e.f.msg.exchanges, start, clock, range))
    {
      reply, b := None, A.Batch(0, 0, 0);
      match e {
        case Alien(now) =>
          var open := WindowOpen(now);
        case Arrival(f, l) =>
          if f.src != GATEWAY_ADDR { return; }
          if f.dest != BROADCAST && f.dest != addr { return; }
          match f.msg {
            case SurveyBegin(window) => reply := HandleSurveyBegin(l.now, f.session, window);
            case SetPos(p) => reply := HandleSetPos(l.now, f.session, p, l.storeOk);
            case SurveyEnd => HandleSurveyEnd(f.session);
            case RangeCmd(peer, asked) => reply, b := HandleRangeCmd(l.now, l.later, f.session, peer, asked, start, clock, range);
            case _ =>
          }
      }
    }
  }
}
