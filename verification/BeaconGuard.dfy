/** Keeping transmissions clear of the gateway's beacon: a prediction in wrapping 32-bit time
    that rolls forward past beacons it did not hear. */
module BeaconGuard {
  const MAX_MISSES: nat := 4
  const WRAP: int := 0x1_0000_0000
  const HALF: int := 0x8000_0000

  function Wrap(x: int): (r: nat)
    ensures r < WRAP
  {
    x % WRAP
  }

  /** The difference of two 32-bit times, read as a signed 32-bit number. */
  function SignedDiff(a: int, b: int): (r: int)
    ensures -HALF <= r < HALF
  {
    var d := Wrap(a - b);
    if d < HALF then d else d - WRAP
  }

  datatype Params = Params(period: nat, guard: nat, occupancy: nat)

  datatype State = State(next: nat, misses: nat, locked: bool)

  const UNLOCKED: State := State(0, 0, false)

  function Heard(p: Params, at: int): State { State(Wrap(at + p.period), 0, true) }

  /** Rolls the prediction past every beacon window that ends before the given time. */
  function Roll(p: Params, s: State, at: int): State
    decreases MAX_MISSES - s.misses
  {
    if SignedDiff(at, s.next + p.occupancy + p.guard) <= 0 then s
    else if s.misses >= MAX_MISSES then s.(locked := false)
    else Roll(p, State(Wrap(s.next + p.period), s.misses + 1, s.locked), at)
  }

  /** (the state after the question, whether transmitting is allowed). */
  function Ask(p: Params, s: State, at: int): (State, bool) {
    if !s.locked then (s, true)
    else
      var r := Roll(p, s, at);
      (r, !r.locked || SignedDiff(at, r.next - p.guard) < 0)
  }

  class Guard {
    const p: Params
    var next: nat
    var misses: nat
    var locked: bool

    ghost function Value(): State
      reads this
    {
      State(next, misses, locked)
    }

    constructor (params: Params)
      ensures p == params && Value() == UNLOCKED
    {
      p, next, misses, locked := params, 0, 0, false;
    }

    method Beacon(at: nat)
      modifies this
      ensures Value() == Heard(p, at)
    {
      next, misses, locked := Wrap(at + p.period), 0, true;
    }

    method TxAllowed(at: nat) returns (ok: bool)
      modifies this
      ensures (Value(), ok) == Ask(p, old(Value()), at)
    {
      if !locked { return true; }
      while SignedDiff(at, next + p.occupancy + p.guard) > 0
        invariant locked && Roll(p, Value(), at) == Roll(p, old(Value()), at)
        decreases MAX_MISSES - misses
      {
        if misses >= MAX_MISSES {
          locked := false;
          return true;
        }
        misses := misses + 1;
        next := Wrap(next + p.period);
      }
      return SignedDiff(at, next - p.guard) < 0;
    }
  }

  // ---- The same in unbounded time ----

  ghost predicate Sane(p: Params) {
    p.period + p.occupancy + p.guard <= HALF && p.occupancy + 2 * p.guard < HALF
  }

  /** When the k-th beacon after one at b is due. */
  function Due(p: Params, b: int, k: nat): int { b + k * p.period }

  predicate InWindow(p: Params, b: int, k: nat, t: int) {
    Due(p, b, k) - p.guard <= t <= Due(p, b, k) + p.occupancy + p.guard
  }

  /** A prediction is trusted until the fifth beacon window has passed unheard. */
  predicate Trusted(p: Params, b: int, t: int) { t <= Due(p, b, MAX_MISSES + 1) + p.occupancy + p.guard }

  /** Whether time t is clear of every beacon predicted from one heard at b. */
  ghost predicate Clear(p: Params, b: int, t: int) {
    Trusted(p, b, t) ==> forall k: nat :: 1 <= k <= MAX_MISSES + 1 ==> !InWindow(p, b, k, t)
  }

  /** The state is that of a guard that last heard a beacon at b and was last asked about t. */
  ghost predicate Tracks(p: Params, s: State, b: int, t: int) {
    && s.locked == Trusted(p, b, t)
    && (s.locked ==> AtWindow(p, s, b) && t <= Due(p, b, s.misses + 1) + p.occupancy + p.guard)
    && (s.locked && s.misses > 0 ==> t > Due(p, b, s.misses) + p.occupancy + p.guard)
  }

  /** The state predicts the next beacon after as many misses as it has counted. */
  ghost predicate AtWindow(p: Params, s: State, b: int) {
    s.misses <= MAX_MISSES && s.next == Wrap(Due(p, b, s.misses + 1))
  }

  lemma WrapPlus(x: int, y: int)
    ensures Wrap(Wrap(x) + y) == Wrap(x + y)
  {
    var q := x / WRAP;
    assert x == q * WRAP + Wrap(x);
    WrapMultiple(Wrap(x) + y, q);
  }

  lemma {:induction false} WrapMultiple(x: int, q: int)
    ensures Wrap(x + q * WRAP) == Wrap(x)
    decreases if q < 0 then -q else q
  {
    if q > 0 { WrapMultiple(x, q - 1); }
    if q < 0 { WrapMultiple(x, q + 1); }
  }

  /** Comparing wrapped times by signed difference is right for times less than half the range apart. */
  lemma SignedDiffIsExact(a: int, x: int, y: int)
    requires -HALF <= a - (x + y) < HALF
    ensures SignedDiff(Wrap(a), Wrap(x) + y) == a - (x + y)
  {
    WrapPlus(x, y);
    var q, r := (x + y) / WRAP, a / WRAP;
    var qx := x / WRAP;
    assert a == r * WRAP + Wrap(a) && x == qx * WRAP + Wrap(x);
    WrapMultiple(a - (x + y), qx - r);
    assert (qx - r) * WRAP == qx * WRAP - r * WRAP;
    assert Wrap(Wrap(a) - (Wrap(x) + y)) == Wrap(a - (x + y));
  }

  lemma DueNext(p: Params, b: int, k: nat)
    ensures Due(p, b, k + 1) == Due(p, b, k) + p.period
  {}

  lemma {:induction false} DueGrows(p: Params, b: int, j: nat, k: nat)
    requires j <= k
    ensures Due(p, b, j) <= Due(p, b, k)
  {
    if j < k {
      DueGrows(p, b, j, k - 1);
      DueNext(p, b, k - 1);
    }
  }

  lemma {:induction false} RollTracks(p: Params, s: State, b: int, t: int)
    requires Sane(p) && s.locked && AtWindow(p, s, b)
    requires -HALF <= t - Due(p, b, s.misses + 1) - p.occupancy - p.guard < HALF
    requires s.misses > 0 ==> t > Due(p, b, s.misses) + p.occupancy + p.guard
    ensures Tracks(p, Roll(p, s, Wrap(t)), b, t)
    decreases MAX_MISSES - s.misses
  {
    var due := Due(p, b, s.misses + 1);
    SignedDiffIsExact(t, due, p.occupancy + p.guard);
    DueGrows(p, b, s.misses + 1, MAX_MISSES + 1);
    if t > due + p.occupancy + p.guard && s.misses < MAX_MISSES {
      DueNext(p, b, s.misses + 1);
      WrapPlus(due, p.period);
      RollTracks(p, State(Wrap(s.next + p.period), s.misses + 1, s.locked), b, t);
    }
  }

  /** The window a tracking guard looks at is the only one that can hold the time. */
  lemma OneWindow(p: Params, s: State, b: int, t: int)
    requires Tracks(p, s, b, t) && s.locked
    ensures Clear(p, b, t) <==> t < Due(p, b, s.misses + 1) - p.guard
  {
    if t < Due(p, b, s.misses + 1) - p.guard {
      forall k: nat | 1 <= k <= MAX_MISSES + 1 ensures !InWindow(p, b, k, t) {
        if k <= s.misses { DueGrows(p, b, k, s.misses); } else { DueGrows(p, b, s.misses + 1, k); }
      }
    } else {
      assert InWindow(p, b, s.misses + 1, t);
    }
  }

  /** The final comparison of a question is the comparison with the start of that window. */
  lemma Decides(p: Params, r: State, b: int, t: int)
    requires Sane(p) && Tracks(p, r, b, t) && r.locked && t >= Due(p, b, r.misses + 1) - HALF
    ensures SignedDiff(Wrap(t), r.next - p.guard) < 0 <==> Clear(p, b, t)
  {
    OneWindow(p, r, b, t);
    SignedDiffIsExact(t, Due(p, b, r.misses + 1), 0 - p.guard);
  }

  /** One question, asked no earlier than the last one and within half the range of it, is
      answered as unbounded time would have it. */
  lemma AskTracks(p: Params, s: State, b: int, last: int, t: int)
    requires Sane(p) && Tracks(p, s, b, last) && b <= last <= t < last + HALF
    ensures Tracks(p, Ask(p, s, Wrap(t)).0, b, t)
    ensures Ask(p, s, Wrap(t)).1 <==> Clear(p, b, t)
  {
    if s.locked {
      DueNext(p, b, 0);
      DueNext(p, b, s.misses);
      RollTracks(p, s, b, t);
      var r := Roll(p, s, Wrap(t));
      if r.locked {
        DueNext(p, b, r.misses);
        Decides(p, r, b, t);
      }
    }
  }

  // ---- Whole runs ----

  datatype Event = Hear(at: int) | Query(at: int)

  /** The answers a guard gives to the questions of a run. */
  function Answers(p: Params, s: State, es: seq<Event>): seq<bool>
    decreases |es|
  {
    if es == [] then []
    else match es[0]
      case Hear(b) => Answers(p, Heard(p, Wrap(b)), es[1..])
      case Query(t) => var (u, ok) := Ask(p, s, Wrap(t)); [ok] + Answers(p, u, es[1..])
  }

  function After(p: Params, s: State, es: seq<Event>): State
    decreases |es|
  {
    if es == [] then s
    else match es[0]
      case Hear(b) => After(p, Heard(p, Wrap(b)), es[1..])
      case Query(t) => After(p, Ask(p, s, Wrap(t)).0, es[1..])
  }

  /** What they should be: everything is allowed until a beacon is heard, and then whatever is
      clear of the beacons predicted from the last one heard, in unbounded time. */
  ghost function Wanted(p: Params, heard: bool, b: int, es: seq<Event>): seq<bool>
    decreases |es|
  {
    if es == [] then []
    else match es[0]
      case Hear(at) => Wanted(p, true, at, es[1..])
      case Query(t) => [heard ==> Clear(p, b, t)] + Wanted(p, heard, b, es[1..])
  }

  /** Time never runs backwards nor leaps by half the 32-bit range. */
  ghost predicate Steady(last: int, es: seq<Event>)
    decreases |es|
  {
    es != [] ==> last <= es[0].at < last + HALF && Steady(es[0].at, es[1..])
  }

  lemma HeardTracks(p: Params, b: int)
    requires Sane(p)
    ensures Tracks(p, Heard(p, Wrap(b)), b, b)
  {
    WrapPlus(b, p.period);
    DueNext(p, b, 0);
    DueGrows(p, b, 1, MAX_MISSES + 1);
  }

  ghost predicate Follows(p: Params, s: State, heard: bool, b: int, last: int) {
    if heard then b <= last && Tracks(p, s, b, last) else !s.locked
  }

  /** Over any run of beacons and questions, 32-bit arithmetic gives the answers of unbounded time. */
  lemma {:induction false} RunsAsUnbounded(p: Params, s: State, heard: bool, b: int, last: int, es: seq<Event>)
    requires Sane(p) && Follows(p, s, heard, b, last) && Steady(last, es)
    ensures Answers(p, s, es) == Wanted(p, heard, b, es)
    decreases |es|
  {
    if es != [] {
      match es[0] {
        case Hear(at) =>
          HeardTracks(p, at);
          RunsAsUnbounded(p, Heard(p, Wrap(at)), true, at, at, es[1..]);
        case Query(t) =>
          if heard { AskTracks(p, s, b, last, t); }
          RunsAsUnbounded(p, Ask(p, s, Wrap(t)).0, heard, b, t, es[1..]);
      }
    }
  }

  lemma {:induction false} QuestionsTrack(p: Params, s: State, b: int, last: int, es: seq<Event>)
    requires Sane(p) && b <= last && Tracks(p, s, b, last) && Steady(last, es) && forall e :: e in es ==> e.Query?
    ensures Tracks(p, After(p, s, es), b, if es == [] then last else es[|es| - 1].at)
    decreases |es|
  {
    if es != [] {
      assert es[0] in es;
      AskTracks(p, s, b, last, es[0].at);
      forall e | e in es[1..] ensures e.Query? { assert e in es; }
      QuestionsTrack(p, Ask(p, s, Wrap(es[0].at)).0, b, es[0].at, es[1..]);
    }
  }

  /** Questions leave no trace: after any number of them, a guard that heard a beacon at b
      answers like one that has just heard it, and both still trust the prediction exactly
      until the fifth beacon window has passed. */
  lemma QuestionsDoNotMatter(p: Params, b: int, es: seq<Event>, t: int)
    requires Sane(p) && Steady(b, es) && forall e :: e in es ==> e.Query?
    requires (if es == [] then b else es[|es| - 1].at) <= t < b + HALF
    ensures var asked, anew := Ask(p, After(p, Heard(p, Wrap(b)), es), Wrap(t)), Ask(p, Heard(p, Wrap(b)), Wrap(t));
      && (asked.1 <==> anew.1)
      && (asked.0.locked <==> anew.0.locked)
      && (anew.0.locked <==> Trusted(p, b, t))
  {
    HeardTracks(p, b);
    QuestionsTrack(p, Heard(p, Wrap(b)), b, b, es);
    var last := if es == [] then b else es[|es| - 1].at;
    LastIsLater(b, es);
    AskTracks(p, After(p, Heard(p, Wrap(b)), es), b, last, t);
    AskTracks(p, Heard(p, Wrap(b)), b, b, t);
  }

  lemma {:induction false} LastIsLater(last: int, es: seq<Event>)
    requires Steady(last, es)
    ensures es != [] ==> last <= es[|es| - 1].at
    decreases |es|
  {
    if es != [] { LastIsLater(es[0].at, es[1..]); }
  }

  // ---- After any silence whatever ----

  /** The time nearest to b that 32 bits cannot tell from t. */
  function Seen(b: int, t: int): (r: int)
    ensures b - HALF <= r < b + HALF && Wrap(r) == Wrap(t)
  {
    var q := (t - b) / WRAP;
    var d := SignedDiff(t, b);
    assert t - b == q * WRAP + Wrap(t - b);
    WrapMultiple(t, -q);
    WrapMultiple(t, -q - 1);
    assert t - q * WRAP == t + (-q) * WRAP && t - q * WRAP - WRAP == t + (-q - 1) * WRAP;
    b + d
  }

  /** All the windows fit well inside half the range. */
  ghost predicate Short(p: Params) { (MAX_MISSES + 1) * p.period + p.occupancy + p.guard < HALF }

  /** A time that looks more than half the range past the first window: every later window looks
      passed too, and the lock is given up. */
  lemma {:induction false} RollPast(p: Params, s: State, b: int, t: int)
    requires Sane(p) && Short(p) && s.locked && AtWindow(p, s, b)
    requires b + HALF <= t < Due(p, b, 1) + p.occupancy + p.guard + HALF
    ensures !Roll(p, s, Wrap(t)).locked
    decreases MAX_MISSES - s.misses
  {
    var due := Due(p, b, s.misses + 1);
    DueGrows(p, b, 1, s.misses + 1);
    DueGrows(p, b, s.misses + 1, MAX_MISSES + 1);
    SignedDiffIsExact(t, due, p.occupancy + p.guard);
    if s.misses < MAX_MISSES {
      DueNext(p, b, s.misses + 1);
      WrapPlus(due, p.period);
      RollPast(p, State(Wrap(s.next + p.period), s.misses + 1, s.locked), b, t);
    }
  }

  /** A window that has not ended is not rolled past. */
  lemma RollStays(p: Params, s: State, b: int, t: int)
    requires AtWindow(p, s, b) && -HALF <= t - Due(p, b, s.misses + 1) - p.occupancy - p.guard <= 0
    ensures Roll(p, s, Wrap(t)) == s
  {
    SignedDiffIsExact(t, Due(p, b, s.misses + 1), p.occupancy + p.guard);
  }

  lemma AskJustBefore(p: Params, b: int, t: int)
    requires Sane(p) && Short(p) && t < b && t - Due(p, b, 1) - p.occupancy - p.guard >= -HALF
    ensures Ask(p, Heard(p, Wrap(b)), Wrap(t)).1 <==> Clear(p, b, t)
  {
    var s := Heard(p, Wrap(b));
    HeardTracks(p, b);
    DueNext(p, b, 0);
    DueGrows(p, b, 1, MAX_MISSES + 1);
    RollStays(p, s, b, t);
    assert Tracks(p, s, b, t);
    Decides(p, s, b, t);
  }

  lemma AskLongBefore(p: Params, b: int, t: int)
    requires Sane(p) && Short(p) && b - HALF <= t && t - Due(p, b, 1) - p.occupancy - p.guard < -HALF
    ensures Ask(p, Heard(p, Wrap(b)), Wrap(t)).1 && Clear(p, b, t)
  {
    HeardTracks(p, b);
    DueNext(p, b, 0);
    WrapMultiple(t, 1);
    RollPast(p, Heard(p, Wrap(b)), b, t + WRAP);
    forall k: nat | 1 <= k <= MAX_MISSES + 1 ensures !InWindow(p, b, k, t) { DueGrows(p, b, 1, k); }
  }

  /** A guard asked about a time that looks earlier than the beacon answers as if it were. */
  lemma AskBefore(p: Params, b: int, t: int)
    requires Sane(p) && Short(p) && b - HALF <= t < b
    ensures Ask(p, Heard(p, Wrap(b)), Wrap(t)).1 <==> Clear(p, b, t)
  {
    if t - Due(p, b, 1) - p.occupancy - p.guard >= -HALF { AskJustBefore(p, b, t); } else { AskLongBefore(p, b, t); }
  }

  /** However long ago the beacon at b was heard, a question about t is answered as it would be
      about the nearest time to b with the same 32 bits. */
  lemma AskIsAsSeen(p: Params, b: int, t: int)
    requires Sane(p) && Short(p)
    ensures Ask(p, Heard(p, Wrap(b)), Wrap(t)).1 <==> Clear(p, b, Seen(b, t))
  {
    var r := Seen(b, t);
    HeardTracks(p, b);
    if r >= b { AskTracks(p, Heard(p, Wrap(b)), b, b, r); } else { AskBefore(p, b, r); }
  }

  /** So the answer differs from that of unbounded time if and only if the fifth window has
      passed and the time as seen falls in one of the five; and then it forbids what is allowed. */
  lemma WrongExactlyWhen(p: Params, b: int, t: int)
    requires Sane(p) && Short(p) && b <= t
    ensures var ok := Ask(p, Heard(p, Wrap(b)), Wrap(t)).1;
      && ((ok <==> Clear(p, b, t)) <==>
          Trusted(p, b, t) || forall k: nat :: 1 <= k <= MAX_MISSES + 1 ==> !InWindow(p, b, k, Seen(b, t)))
      && (ok ==> Clear(p, b, t))
  {
    AskIsAsSeen(p, b, t);
    if t < b + HALF { SeenSoon(b, t); }
    NoneAfter(p, b, Seen(b, t));
  }

  lemma SeenSoon(b: int, t: int)
    requires b <= t < b + HALF
    ensures Seen(b, t) == t
  {
    assert Wrap(t - b) == t - b;
  }

  /** Past the fifth window there is none to fall in. */
  lemma NoneAfter(p: Params, b: int, t: int)
    ensures Clear(p, b, t) <==> forall k: nat :: 1 <= k <= MAX_MISSES + 1 ==> !InWindow(p, b, k, t)
  {
    if !Trusted(p, b, t) {
      forall k: nat | 1 <= k <= MAX_MISSES + 1 ensures !InWindow(p, b, k, t) { DueGrows(p, b, k, MAX_MISSES + 1); }
    }
  }

  /** A silence of a whole 32-bit period is not noticed: a beacon predicted long ago still
      blocks a transmission. */
  lemma LeapExample()
    ensures var p := Params(1000, 10, 20);
      && Sane(p) && Clear(p, 0, WRAP + 1000)
      && !Ask(p, Heard(p, 0), Wrap(WRAP + 1000)).1
  {
    var p := Params(1000, 10, 20);
    assert Due(p, 0, 5) == 5000;
    assert Heard(p, 0) == State(1000, 0, true) && Wrap(WRAP + 1000) == 1000;
    assert Wrap(-30) == WRAP - 30 && SignedDiff(1000, 1030) == -30 && SignedDiff(1000, 990) == 10;
  }
}
