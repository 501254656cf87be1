/** A register that takes in a message byte by byte, for any kind of register. */
module ByteRegister {
  function Repeat<R>(f: R -> R, n: nat, x: R): R { if n == 0 then x else Repeat(f, n - 1, f(x)) }

  /** The register after a run of bytes. */
  function Feed<R, B>(step: (R, B) -> R, c: R, data: seq<B>): R
    decreases |data|
  {
    if data == [] then c else Feed(step, step(c, data[0]), data[1..])
  }

  ghost predicate Injective<R(!new), B(!new)>(step: (R, B) -> R) {
    forall c, d, b :: step(c, b) == step(d, b) ==> c == d
  }

  /** Four bytes cannot be told apart from other four bytes only if they are the same. */
  ghost predicate SeparatesFour<R(!new), B(!new)>(step: (R, B) -> R) {
    forall c, w, v :: |w| == |v| == 4 && Feed(step, c, w) == Feed(step, c, v) ==> w == v
  }

  /** From different registers the same bytes lead to different registers. */
  lemma {:induction false} FeedInjective<R(!new), B(!new)>(step: (R, B) -> R, c: R, d: R, data: seq<B>)
    requires Injective(step) && Feed(step, c, data) == Feed(step, d, data)
    ensures c == d
    decreases |data|
  {
    if data != [] { FeedInjective(step, step(c, data[0]), step(d, data[0]), data[1..]); }
  }

  lemma {:induction false} FeedConcat<R, B>(step: (R, B) -> R, c: R, a: seq<B>, b: seq<B>)
    ensures Feed(step, c, a + b) == Feed(step, Feed(step, c, a), b)
    decreases |a|
  {
    if a == [] {
      assert a + b == b;
    } else {
      assert (a + b)[0] == a[0] && (a + b)[1..] == a[1..] + b;
      FeedConcat(step, step(c, a[0]), a[1..], b);
    }
  }

  lemma {:induction false} FeedAlong<R, B>(step: (R, B) -> R, data: seq<B>, regs: seq<R>)
    requires |regs| == |data| + 1 && forall k :: 0 <= k < |data| ==> regs[k + 1] == step(regs[k], data[k])
    ensures Feed(step, regs[0], data) == regs[|data|]
    decreases |data|
  {
    if data != [] { FeedAlong(step, data[1..], regs[1..]); }
  }

  /** The messages differ, and only within four consecutive bytes from position i on. */
  ghost predicate BurstAt<B>(a: seq<B>, b: seq<B>, i: nat) {
    && |a| == |b| && i <= |a| && a != b
    && forall k :: 0 <= k < |a| && !(i <= k < i + 4) ==> a[k] == b[k]
  }

  lemma FeedFour<R, B>(step: (R, B) -> R, c: R, w: seq<B>)
    requires |w| == 4
    ensures Feed(step, c, w) == step(step(step(step(c, w[0]), w[1]), w[2]), w[3])
  {
    var c1 := step(c, w[0]);
    var c2 := step(c1, w[1]);
    var c3 := step(c2, w[2]);
    assert w[1..][1..] == [w[2], w[3]] && [w[2], w[3]][1..] == [w[3]] && [w[3]][1..] == [];
    assert Feed(step, c1, w[1..]) == Feed(step, c2, [w[2], w[3]]);
    assert Feed(step, c3, [w[3]]) == step(c3, w[3]);
  }

  lemma SeparatesUptoFour<R(!new), B(!new)>(step: (R, B) -> R, c: R, w: seq<B>, v: seq<B>, some: B)
    requires SeparatesFour(step) && |w| == |v| <= 4 && Feed(step, c, w) == Feed(step, c, v)
    ensures w == v
  {
    var pad := seq(4 - |w|, _ => some);
    FeedConcat(step, c, w, pad);
    FeedConcat(step, c, v, pad);
    assert w == (w + pad)[..|w|] && v == (v + pad)[..|w|];
  }

  /** Messages that differ only within four consecutive bytes leave different registers. */
  lemma BurstChangesFeed<R(!new), B(!new)>(step: (R, B) -> R, c: R, a: seq<B>, b: seq<B>, i: nat)
    requires Injective(step) && SeparatesFour(step) && BurstAt(a, b, i)
    ensures Feed(step, c, a) != Feed(step, c, b)
  {
    var j := if i + 4 <= |a| then i + 4 else |a|;
    var pre, w, v, suf := a[..i], a[i..j], b[i..j], a[j..];
    assert a == pre + (w + suf);
    assert b == pre + (v + suf);
    var d := Feed(step, c, pre);
    FeedConcat(step, c, pre, w + suf);
    FeedConcat(step, c, pre, v + suf);
    FeedConcat(step, d, w, suf);
    FeedConcat(step, d, v, suf);
    if Feed(step, c, a) == Feed(step, c, b) {
      FeedInjective(step, Feed(step, d, w), Feed(step, d, v), suf);
      SeparatesUptoFour(step, d, w, v, a[0]);
      assert false;
    }
  }

  // ---- Steps that shift what has not reached the bottom ----

  ghost predicate ShiftLaw<R(!new)>(f: R -> R, xor: (R, R) -> R, half: R -> R, even: R -> bool) {
    forall x, y :: even(y) ==> f(xor(x, y)) == xor(f(x), half(y))
  }

  /** A shift register with a feedback tap obeys the law. */
  lemma TappedShift<R(!new)>(f: R -> R, xor: (R, R) -> R, half: R -> R, tap: R -> R, even: R -> bool)
    requires forall x :: f(x) == xor(half(x), tap(x))
    requires forall x, y :: half(xor(x, y)) == xor(half(x), half(y))
    requires forall x, y :: even(y) ==> tap(xor(x, y)) == tap(x)
    requires forall x, y, z :: xor(xor(x, y), z) == xor(xor(x, z), y)
    ensures ShiftLaw(f, xor, half, even)
  {
    forall x, y | even(y) ensures f(xor(x, y)) == xor(f(x), half(y)) {
      assert xor(xor(half(x), half(y)), tap(x)) == xor(xor(half(x), tap(x)), half(y));
    }
  }

  ghost predicate EvenFor<R>(half: R -> R, even: R -> bool, n: nat, y: R) {
    forall k: nat :: k < n ==> even(Repeat(half, k, y))
  }

  lemma {:induction false} RepeatShifts<R(!new)>(f: R -> R, xor: (R, R) -> R, half: R -> R, even: R -> bool, n: nat, x: R, y: R)
    requires ShiftLaw(f, xor, half, even) && EvenFor(half, even, n, y)
    ensures Repeat(f, n, xor(x, y)) == xor(Repeat(f, n, x), Repeat(half, n, y))
  {
    if n > 0 {
      assert even(Repeat(half, 0, y));
      forall k: nat | k < n - 1 ensures even(Repeat(half, k, half(y))) { assert Repeat(half, k + 1, y) == Repeat(half, k, half(y)); }
      RepeatShifts(f, xor, half, even, n - 1, f(x), half(y));
    }
  }

  lemma {:induction false} RepeatInjective<R(!new)>(f: R -> R, n: nat, x: R, y: R)
    requires forall a, b :: f(a) == f(b) ==> a == b
    requires Repeat(f, n, x) == Repeat(f, n, y)
    ensures x == y
  {
    if n > 0 { RepeatInjective(f, n - 1, f(x), f(y)); }
  }

  lemma RepeatMixInjective<R(!new), B(!new)>(f: R -> R, n: nat, mix: (R, B) -> R, step: (R, B) -> R)
    requires forall x, y :: f(x) == f(y) ==> x == y
    requires Injective(mix) && forall c, b :: step(c, b) == Repeat(f, n, mix(c, b))
    ensures Injective(step)
  {
    forall c, d, b | step(c, b) == step(d, b) ensures c == d { RepeatInjective(f, n, mix(c, b), mix(d, b)); }
  }

  /** s lists a value and its halvings, all even but the last. */
  ghost predicate Halvings<R>(half: R -> R, even: R -> bool, s: seq<R>) {
    forall k :: 0 <= k < |s| - 1 ==> even(s[k]) && s[k + 1] == half(s[k])
  }

  lemma {:induction false} HalvingsRepeat<R(!new)>(half: R -> R, even: R -> bool, s: seq<R>)
    requires |s| > 0 && Halvings(half, even, s)
    ensures EvenFor(half, even, |s| - 1, s[0]) && Repeat(half, |s| - 1, s[0]) == s[|s| - 1]
    decreases |s|
  {
    if |s| > 1 {
      assert even(s[0]) && s[1] == half(s[0]);
      forall k | 0 <= k < |s[1..]| - 1 ensures even(s[1..][k]) && s[1..][k + 1] == half(s[1..][k]) {
        assert even(s[k + 1]) && s[k + 2] == half(s[k + 1]);
      }
      HalvingsRepeat(half, even, s[1..]);
      forall k: nat | k < |s| - 1 ensures even(Repeat(half, k, s[0])) {
        if k > 0 { assert Repeat(half, k, s[0]) == Repeat(half, k - 1, s[1..][0]); }
      }
    }
  }

  ghost predicate UpLaw<R(!new)>(e: R -> R, xor: (R, R) -> R, up: R -> R, clear: R -> bool) {
    forall x, r :: clear(r) ==> e(xor(x, up(r))) == xor(e(x), r)
  }

  /** Four bytes as one word on top of a register, the first byte lowest. */
  ghost function Join<R, B>(xor: (R, R) -> R, up: R -> R, widen: B -> R, c: R, w: seq<B>): R
    requires |w| == 4
  {
    xor(xor(xor(xor(c, widen(w[0])), up(widen(w[1]))), up(up(widen(w[2])))), up(up(up(widen(w[3])))))
  }

  /** Four bytes, each xored in at the bottom, act as one word xored in at the start. */
  lemma FourAsOne<R(!new), B(!new)>(step: (R, B) -> R, e: R -> R, xor: (R, R) -> R, up: R -> R, clear: R -> bool, widen: B -> R, c: R, w: seq<B>)
    requires UpLaw(e, xor, up, clear) && |w| == 4
    requires forall c, b :: step(c, b) == e(xor(c, widen(b)))
    requires forall b :: clear(widen(b)) && clear(up(widen(b))) && clear(up(up(widen(b))))
    ensures Feed(step, c, w) == Repeat(e, 4, Join(xor, up, widen, c, w))
  {
    FeedFour(step, c, w);
    var b1, b2, b3 := widen(w[1]), widen(w[2]), widen(w[3]);
    var c0 := xor(c, widen(w[0]));
    var x := xor(xor(c0, up(b1)), up(up(b2)));
    assert xor(e(c0), b1) == e(xor(c0, up(b1)));
    assert xor(e(e(xor(c0, up(b1)))), b2) == e(e(x));
    assert xor(e(e(e(x))), b3) == e(e(e(xor(x, up(up(up(b3)))))));
  }

  lemma StepSeparates<R(!new), B(!new)>(step: (R, B) -> R, e: R -> R, xor: (R, R) -> R, up: R -> R, clear: R -> bool, widen: B -> R)
    requires UpLaw(e, xor, up, clear)
    requires forall x, y :: e(x) == e(y) ==> x == y
    requires forall c, b :: step(c, b) == e(xor(c, widen(b)))
    requires forall b :: clear(widen(b)) && clear(up(widen(b))) && clear(up(up(widen(b))))
    requires forall c, w, v :: |w| == |v| == 4 && Join(xor, up, widen, c, w) == Join(xor, up, widen, c, v) ==> w == v
    ensures SeparatesFour(step)
  {
    forall c, w, v | |w| == |v| == 4 && Feed(step, c, w) == Feed(step, c, v) ensures w == v {
      FourAsOne(step, e, xor, up, clear, widen, c, w);
      FourAsOne(step, e, xor, up, clear, widen, c, v);
      RepeatInjective(e, 4, Join(xor, up, widen, c, w), Join(xor, up, widen, c, v));
    }
  }

  // ---- Doublings undone by halvings ----

  /** While there is room, a doubling leaves one place less. */
  ghost predicate Room<R(!new)>(double: R -> R, clear: (R, nat) -> bool) {
    forall x, k: nat :: k < 7 && clear(x, k) ==> clear(double(x), k + 1)
  }

  lemma RepeatEight<R>(f: R -> R, x: R)
    ensures Repeat(f, 8, x) == f(f(f(f(f(f(f(f(x))))))))
  {
    assert Repeat(f, 4, f(f(f(f(x))))) == f(f(f(f(f(f(f(f(x))))))));
  }

  lemma {:induction false} RepeatLast<R>(f: R -> R, n: nat, x: R)
    ensures Repeat(f, n + 1, x) == f(Repeat(f, n, x))
  {
    if n > 0 { RepeatLast(f, n - 1, f(x)); }
  }

  lemma {:induction false} StaysClear<R(!new)>(double: R -> R, clear: (R, nat) -> bool, r: R, k: nat)
    requires Room(double, clear) && clear(r, 0) && k < 8
    ensures clear(Repeat(double, k, r), k)
  {
    if k > 0 {
      StaysClear(double, clear, r, k - 1);
      RepeatLast(double, k - 1, r);
    }
  }

  function Descending<R>(double: R -> R, r: R): (s: seq<R>)
    ensures |s| == 9
  {
    seq(9, i requires 0 <= i < 9 => Repeat(double, 8 - i, r))
  }

  lemma DoublingsHalve<R(!new)>(double: R -> R, half: R -> R, even: R -> bool, clear: (R, nat) -> bool, r: R)
    requires Room(double, clear) && clear(r, 0)
    requires forall x, k: nat :: k < 8 && clear(x, k) ==> even(double(x)) && half(double(x)) == x
    ensures EvenFor(half, even, 8, Repeat(double, 8, r)) && Repeat(half, 8, Repeat(double, 8, r)) == r
  {
    var s := Descending(double, r);
    forall k | 0 <= k < 8 ensures even(s[k]) && s[k + 1] == half(s[k]) {
      StaysClear(double, clear, r, 7 - k);
      RepeatLast(double, 7 - k, r);
    }
    HalvingsRepeat(half, even, s);
  }
}

/** CRC-32 with the frame-check polynomial of IEEE 802.3 (section 3.2.9), bit by bit. */
module Crc32 {
  import opened ByteRegister

  const ONES: bv32 := 0xFFFF_FFFF

  function Xor(x: bv32, y: bv32): bv32 { x ^ y }

  function Halve(y: bv32): bv32 { y >> 1 }

  /** The polynomial, if the bit about to leave the register is set. */
  function Tap(c: bv32): bv32 { 0xEDB8_8320 & (0 - (c & 1)) }

  function BitStep(c: bv32): bv32 { Xor(Halve(c), Tap(c)) }

  function Widen(b: bv8): bv32 { b as bv32 }

  function Mix(c: bv32, b: bv8): bv32 { Xor(c, Widen(b)) }

  /** Eight bit steps. */
  function ByteBits(x: bv32): bv32 { Repeat(BitStep, 8, x) }

  function ByteStep(c: bv32, b: bv8): bv32 { ByteBits(Mix(c, b)) }

  function Crc(data: seq<bv8>): bv32 { !Feed(ByteStep, ONES, data) }

  method Compute(data: array<bv8>, len: nat) returns (r: bv32)
    requires len <= data.Length
    ensures r == Crc(data[..len])
  {
    var crc := ONES;
    for i := 0 to len
      invariant Feed(ByteStep, crc, data[i..len]) == Feed(ByteStep, ONES, data[..len])
    {
      assert data[i..len][0] == data[i] && data[i..len][1..] == data[i + 1..len];
      crc := TakeByte(crc, data[i]);
    }
    assert data[len..len] == [];
    return !crc;
  }

  method TakeByte(crc: bv32, b: bv8) returns (r: bv32)
    ensures r == ByteStep(crc, b)
  {
    r := Mix(crc, b);
    for k := 0 to 8
      invariant Repeat(BitStep, 8 - k, r) == ByteStep(crc, b)
    {
      var mask: bv32 := 0 - (r & 1);
      r := Xor(r >> 1, 0xEDB8_8320 & mask);
    }
  }

  // ---- Bits ----

  lemma BitStepInjective(c: bv32, d: bv32)
    requires BitStep(c) == BitStep(d)
    ensures c == d
  {}

  predicate Even(y: bv32) { y & 1 == 0 }

  lemma HalveXor(x: bv32, y: bv32)
    ensures Halve(Xor(x, y)) == Xor(Halve(x), Halve(y))
  {}

  lemma TapXor(x: bv32, y: bv32)
    requires Even(y)
    ensures Tap(Xor(x, y)) == Tap(x)
  {}

  lemma RawSwap(x: bv32, y: bv32, z: bv32)
    ensures Xor(x ^ y, z) == Xor(x ^ z, y)
  {}

  lemma XorSwap(x: bv32, y: bv32, z: bv32)
    ensures Xor(Xor(x, y), z) == Xor(Xor(x, z), y)
  {
    RawSwap(x, y, z);
  }

  lemma BitStepShifts()
    ensures ShiftLaw(BitStep, Xor, Halve, Even)
  {
    forall x, y ensures Halve(Xor(x, y)) == Xor(Halve(x), Halve(y)) { HalveXor(x, y); }
    forall x, y | Even(y) ensures Tap(Xor(x, y)) == Tap(x) { TapXor(x, y); }
    forall x, y, z ensures Xor(Xor(x, y), z) == Xor(Xor(x, z), y) { XorSwap(x, y, z); }
    TappedShift(BitStep, Xor, Halve, Tap, Even);
  }

  lemma MixInjective(c: bv32, d: bv32, b: bv8)
    requires Mix(c, b) == Mix(d, b)
    ensures c == d
  {}

  lemma ByteStepInjective()
    ensures Injective(ByteStep)
  {
    forall x, y | BitStep(x) == BitStep(y) ensures x == y { BitStepInjective(x, y); }
    forall c, d, b | Mix(c, b) == Mix(d, b) ensures c == d { MixInjective(c, d, b); }
    RepeatMixInjective(BitStep, 8, Mix, ByteStep);
  }

  lemma BitsShift(n: nat, x: bv32, y: bv32)
    requires EvenFor(Halve, Even, n, y)
    ensures Repeat(BitStep, n, Xor(x, y)) == Xor(Repeat(BitStep, n, x), Repeat(Halve, n, y))
  {
    BitStepShifts();
    RepeatShifts(BitStep, Xor, Halve, Even, n, x, y);
  }

  function Up(r: bv32): bv32 { r << 8 }

  predicate Clear(r: bv32) { r & 0xFF00_0000 == 0 }

  function Double(x: bv32): bv32 { x << 1 }

  /** The bits that are still clear after k doublings. */
  function TopBits(k: nat): bv32 {
    match k
    case 0 => 0xFF00_0000
    case 1 => 0xFE00_0000
    case 2 => 0xFC00_0000
    case 3 => 0xF800_0000
    case 4 => 0xF000_0000
    case 5 => 0xE000_0000
    case 6 => 0xC000_0000
    case 7 => 0x8000_0000
    case _ => 0
  }

  predicate ClearAt(x: bv32, k: nat) { x & TopBits(k) == 0 }

  lemma DoubleClears(x: bv32, m: bv32)
    requires x & m == 0
    ensures (x << 1) & (m << 1) == 0
  {}

  lemma DoublesClear(x: bv32, k: nat)
    requires k < 7 && ClearAt(x, k)
    ensures ClearAt(Double(x), k + 1)
  {
    DoubleClears(x, TopBits(k));
  }

  lemma HalveDouble(x: bv32, k: nat)
    requires k < 8 && ClearAt(x, k)
    ensures Even(Double(x)) && Halve(Double(x)) == x
  {}

  lemma EightDoublings(r: bv32)
    ensures Double(Double(Double(Double(Double(Double(Double(Double(r)))))))) == Up(r)
  {}

  lemma UpHalvings(r: bv32)
    requires Clear(r)
    ensures EvenFor(Halve, Even, 8, Up(r)) && Repeat(Halve, 8, Up(r)) == r
  {
    forall x, k: nat | k < 7 && ClearAt(x, k) ensures ClearAt(Double(x), k + 1) { DoublesClear(x, k); }
    forall x, k: nat | k < 8 && ClearAt(x, k) ensures Even(Double(x)) && Halve(Double(x)) == x { HalveDouble(x, k); }
    EightDoublings(r);
    RepeatEight(Double, r);
    DoublingsHalve(Double, Halve, Even, ClearAt, r);
  }

  lemma ByteBitsShift()
    ensures UpLaw(ByteBits, Xor, Up, Clear)
  {
    forall x, r | Clear(r) ensures ByteBits(Xor(x, Up(r))) == Xor(ByteBits(x), r) {
      UpHalvings(r);
      BitsShift(8, x, Up(r));
    }
  }

  lemma BytesAreClear(b: bv8)
    ensures Clear(Widen(b)) && Clear(Up(Widen(b))) && Clear(Up(Up(Widen(b))))
  {}

  /** The word four bytes amount to, on top of a register. */
  function Joined(c: bv32, a: bv32, b1: bv32, b2: bv32, b3: bv32): bv32 {
    (((c ^ a) ^ (b1 << 8)) ^ (b2 << 16)) ^ (b3 << 24)
  }

  lemma JoinedInjective(c: bv32, a0: bv8, a1: bv8, a2: bv8, a3: bv8, b0: bv8, b1: bv8, b2: bv8, b3: bv8)
    requires Joined(c, Widen(a0), Widen(a1), Widen(a2), Widen(a3)) == Joined(c, Widen(b0), Widen(b1), Widen(b2), Widen(b3))
    ensures a0 == b0 && a1 == b1 && a2 == b2 && a3 == b3
  {}

  lemma UpTwice(r: bv32)
    ensures Up(r << 8) == r << 16
  {}

  lemma UpThrice(r: bv32)
    ensures Up(r << 16) == r << 24
  {}

  lemma JoinedIs(c: bv32, a: bv32, b1: bv32, b2: bv32, b3: bv32)
    ensures Xor(Xor(Xor(Xor(c, a), Up(b1)), Up(Up(b2))), Up(Up(Up(b3)))) == Joined(c, a, b1, b2, b3)
  {
    UpTwice(b2);
    UpTwice(b3);
    UpThrice(b3);
  }

  lemma WidenedJoin(c: bv32, w: seq<bv8>)
    requires |w| == 4
    ensures Join(Xor, Up, Widen, c, w) == Joined(c, Widen(w[0]), Widen(w[1]), Widen(w[2]), Widen(w[3]))
  {
    JoinedIs(c, Widen(w[0]), Widen(w[1]), Widen(w[2]), Widen(w[3]));
  }

  lemma JoinInjective(c: bv32, w: seq<bv8>, v: seq<bv8>)
    requires |w| == |v| == 4 && Join(Xor, Up, Widen, c, w) == Join(Xor, Up, Widen, c, v)
    ensures w == v
  {
    WidenedJoin(c, w);
    WidenedJoin(c, v);
    JoinedInjective(c, w[0], w[1], w[2], w[3], v[0], v[1], v[2], v[3]);
  }

  lemma ByteBitsInjective(x: bv32, y: bv32)
    requires ByteBits(x) == ByteBits(y)
    ensures x == y
  {
    forall x, y | BitStep(x) == BitStep(y) ensures x == y { BitStepInjective(x, y); }
    RepeatInjective(BitStep, 8, x, y);
  }

  lemma FeedFourBytes(c: bv32, w: seq<bv8>)
    requires |w| == 4
    ensures Feed(ByteStep, c, w) == Repeat(ByteBits, 4, Join(Xor, Up, Widen, c, w))
  {
    ByteBitsShift();
    forall b ensures Clear(Widen(b)) && Clear(Up(Widen(b))) && Clear(Up(Up(Widen(b)))) { BytesAreClear(b); }
    FourAsOne(ByteStep, ByteBits, Xor, Up, Clear, Widen, c, w);
  }

  lemma ByteStepSeparates()
    ensures SeparatesFour(ByteStep)
  {
    ByteBitsShift();
    forall x, y | ByteBits(x) == ByteBits(y) ensures x == y { ByteBitsInjective(x, y); }
    forall b ensures Clear(Widen(b)) && Clear(Up(Widen(b))) && Clear(Up(Up(Widen(b)))) { BytesAreClear(b); }
    forall c, w, v | |w| == |v| == 4 && Join(Xor, Up, Widen, c, w) == Join(Xor, Up, Widen, c, v) ensures w == v { JoinInjective(c, w, v); }
    StepSeparates(ByteStep, ByteBits, Xor, Up, Clear, Widen);
  }

  // ---- What the checksum detects ----

  lemma NotInjective(x: bv32, y: bv32)
    requires !x == !y
    ensures x == y
  {}

  /** Messages of any length that differ only within four consecutive bytes have different checksums. */
  lemma BurstIsDetected(a: seq<bv8>, b: seq<bv8>, i: nat)
    requires BurstAt(a, b, i)
    ensures Crc(a) != Crc(b)
  {
    BurstChangesRegister(a, b, i);
    if Crc(a) == Crc(b) { NotInjective(Feed(ByteStep, ONES, a), Feed(ByteStep, ONES, b)); }
  }

  lemma BurstChangesRegister(a: seq<bv8>, b: seq<bv8>, i: nat)
    requires BurstAt(a, b, i)
    ensures Feed(ByteStep, ONES, a) != Feed(ByteStep, ONES, b)
  {
    ByteStepInjective();
    ByteStepSeparates();
    BurstChangesFeed(ByteStep, ONES, a, b, i);
  }

  function LE32(x: bv32): (r: seq<bv8>)
    ensures |r| == 4
  {
    [(x & 0xFF) as bv8, ((x >> 8) & 0xFF) as bv8, ((x >> 16) & 0xFF) as bv8, (x >> 24) as bv8]
  }

  lemma JoinedLE32(c: bv32, b0: bv8, b1: bv8, b2: bv8, b3: bv8, x: bv32)
    requires b0 == (x & 0xFF) as bv8 && b1 == ((x >> 8) & 0xFF) as bv8 && b2 == ((x >> 16) & 0xFF) as bv8 && b3 == (x >> 24) as bv8
    ensures Joined(c, Widen(b0), Widen(b1), Widen(b2), Widen(b3)) == c ^ x
  {}

  lemma LE32Injective(x: bv32, y: bv32)
    requires LE32(x) == LE32(y)
    ensures x == y
  {
    assert LE32(x)[0] == LE32(y)[0] && LE32(x)[1] == LE32(y)[1] && LE32(x)[2] == LE32(y)[2] && LE32(x)[3] == LE32(y)[3];
  }

  /** The register once a message is followed by its own checksum, whatever the message. */
  ghost function Residue(): bv32 { Repeat(ByteBits, 4, ONES) }

  lemma JoinLE32(c: bv32, x: bv32)
    ensures Join(Xor, Up, Widen, c, LE32(x)) == c ^ x
  {
    var w := LE32(x);
    WidenedJoin(c, w);
    JoinedLE32(c, w[0], w[1], w[2], w[3], x);
  }

  lemma OwnChecksum(c: bv32, x: bv32)
    requires c ^ x == ONES
    ensures Feed(ByteStep, c, LE32(x)) == Residue()
  {
    FeedFourBytes(c, LE32(x));
    JoinLE32(c, x);
  }

  lemma XorNot(c: bv32)
    ensures c ^ !c == ONES
  {}

  lemma OnlyOwnChecksum(c: bv32, x: bv32, y: bv32)
    requires Feed(ByteStep, c, LE32(x)) == Feed(ByteStep, c, LE32(y))
    ensures x == y
  {
    ByteStepSeparates();
    LE32Injective(x, y);
  }

  lemma ResidueAt(c: bv32, x: bv32, y: bv32)
    requires c ^ y == ONES
    ensures x == y <==> Feed(ByteStep, c, LE32(x)) == Residue()
  {
    OwnChecksum(c, y);
    if Feed(ByteStep, c, LE32(x)) == Residue() { OnlyOwnChecksum(c, x, y); }
  }

  lemma CrcComplements(data: seq<bv8>)
    ensures Feed(ByteStep, ONES, data) ^ Crc(data) == ONES
  {
    XorNot(Feed(ByteStep, ONES, data));
  }

  /** A message followed by four bytes drives the register to the residue exactly when the four
      bytes are its checksum. */
  lemma ResidueMeansValid(data: seq<bv8>, x: bv32)
    ensures x == Crc(data) <==> Feed(ByteStep, ONES, data + LE32(x)) == Residue()
  {
    FeedConcat(ByteStep, ONES, data, LE32(x));
    ChecksumResidue(Feed(ByteStep, ONES, data), data, x);
  }

  lemma ChecksumResidue(c: bv32, data: seq<bv8>, x: bv32)
    requires c == Feed(ByteStep, ONES, data)
    ensures x == Crc(data) <==> Feed(ByteStep, c, LE32(x)) == Residue()
  {
    CrcComplements(data);
    ResidueAt(c, x, Crc(data));
  }

  lemma EightSteps(c: bv32, b: bv8)
    ensures ByteStep(c, b) == BitStep(BitStep(BitStep(BitStep(BitStep(BitStep(BitStep(BitStep(Mix(c, b)))))))))
  {
    RepeatEight(BitStep, Mix(c, b));
  }

  lemma FirstKnownSteps()
    ensures ByteStep(0xFFFF_FFFF, 0x31) == 0x7C23_1048
    ensures ByteStep(0x7C23_1048, 0x32) == 0xB0AC_BB32
    ensures ByteStep(0xB0AC_BB32, 0x33) == 0x77B7_9C2D
  {
    EightSteps(0xFFFF_FFFF, 0x31);
    EightSteps(0x7C23_1048, 0x32);
    EightSteps(0xB0AC_BB32, 0x33);
  }

  lemma MiddleKnownSteps()
    ensures ByteStep(0x77B7_9C2D, 0x34) == 0x641C_1F5C
    ensures ByteStep(0x641C_1F5C, 0x35) == 0x340A_C5E3
    ensures ByteStep(0x340A_C5E3, 0x36) == 0xF68D_2C9E
  {
    EightSteps(0x77B7_9C2D, 0x34);
    EightSteps(0x641C_1F5C, 0x35);
    EightSteps(0x340A_C5E3, 0x36);
  }

  lemma LastKnownSteps()
    ensures ByteStep(0xF68D_2C9E, 0x37) == 0xAFFC_9660
    ensures ByteStep(0xAFFC_9660, 0x38) == 0x651F_2550
    ensures ByteStep(0x651F_2550, 0x39) == 0x340B_C6D9
  {
    EightSteps(0xF68D_2C9E, 0x37);
    EightSteps(0xAFFC_9660, 0x38);
    EightSteps(0x651F_2550, 0x39);
  }

  /** The check value of the standard: the checksum of the digits 1 to 9. */
  lemma KnownAnswer()
    ensures Crc([0x31, 0x32, 0x33, 0x34, 0x35, 0x36, 0x37, 0x38, 0x39]) == 0xCBF4_3926
  {
    FirstKnownSteps();
    MiddleKnownSteps();
    LastKnownSteps();
    FeedAlong(ByteStep, [0x31, 0x32, 0x33, 0x34, 0x35, 0x36, 0x37, 0x38, 0x39],
              [0xFFFF_FFFF, 0x7C23_1048, 0xB0AC_BB32, 0x77B7_9C2D, 0x641C_1F5C, 0x340A_C5E3,
               0xF68D_2C9E, 0xAFFC_9660, 0x651F_2550, 0x340B_C6D9]);
  }
}
