/** The Source window trigger of trigger/source_window.go: a pure machine from high watermarks to journal windows.
    Sequence numbers are 64-bit integers and their addition wraps around, as in the source. */
module SourceWindow {
  import opened Wrappers

  const MAX_INT64: int := 0x7FFF_FFFF_FFFF_FFFF
  const TWO_TO_64: int := 0x1_0000_0000_0000_0000

  predicate IsInt64(n: int) { -MAX_INT64 - 1 <= n <= MAX_INT64 }

  /** Two's complement addition. */
  function Add64(a: int, b: int): (r: int)
    requires IsInt64(a) && IsInt64(b)
    ensures IsInt64(r) && (r - (a + b)) % TWO_TO_64 == 0
  {
    var sum := a + b;
    if sum > MAX_INT64 then sum - TWO_TO_64 else if sum < -MAX_INT64 - 1 then sum + TWO_TO_64 else sum
  }

  datatype HighWatermark = HighWatermark(sequence: int, limit: int)

  /** NewSourceHighWatermark accepts it. */
  predicate ValidSignal(s: HighWatermark) {
    IsInt64(s.sequence) && IsInt64(s.limit) && s.sequence >= 0 && s.limit >= 1
  }

  /** The journal positions after `after`, up to and including `through`. */
  datatype Window = Window(after: int, through: int)

  datatype Transition = Transition(state: int, actions: seq<Window>)

  /** SourceWindowPolicy.Activate */
  function Activate(signal: HighWatermark, cursor: int): Transition
    requires ValidSignal(signal) && IsInt64(cursor)
  {
    if signal.sequence <= cursor then Transition(cursor, [])
    else
      var bound := Add64(cursor, signal.limit);
      var through := if signal.sequence < bound then signal.sequence else bound;
      Transition(through, [Window(cursor, through)])
  }

  function Min(a: int, b: int): int { if a < b then a else b }

  /** A transition that never moves back, and emits either nothing or the one non-empty window it moves over. */
  predicate Sound(signal: HighWatermark, cursor: int, t: Transition) {
    if signal.sequence <= cursor then t == Transition(cursor, [])
    else
      && t.actions == [Window(cursor, t.state)]
      && cursor < t.state == Min(signal.sequence, cursor + signal.limit)
  }

  /** The addition of the cursor and the limit stays within 64 bits. */
  predicate Fits(signal: HighWatermark, cursor: int) {
    signal.sequence <= cursor || cursor + signal.limit <= MAX_INT64
  }

  /** Activation is sound exactly when the addition does not overflow; otherwise the cursor falls. */
  lemma ActivateSoundIff(signal: HighWatermark, cursor: int)
    requires ValidSignal(signal) && IsInt64(cursor)
    ensures Fits(signal, cursor) <==> Sound(signal, cursor, Activate(signal, cursor))
    ensures !Fits(signal, cursor) ==> Activate(signal, cursor).state < 0
  {}

  /** The smallest overflow: a cursor of one and the largest limit. */
  lemma OverflowExample()
    ensures ValidSignal(HighWatermark(2, MAX_INT64))
    ensures Activate(HighWatermark(2, MAX_INT64), 1) == Transition(-MAX_INT64 - 1, [Window(1, -MAX_INT64 - 1)])
  {}

  // ---------- runs ----------

  /** Every signal is valid and fits where it arrives. */
  predicate FitsAll(signals: seq<HighWatermark>, cursor: int)
    decreases |signals|
  {
    signals != [] ==>
      && ValidSignal(signals[0]) && IsInt64(cursor) && Fits(signals[0], cursor)
      && FitsAll(signals[1..], Activate(signals[0], cursor).state)
  }

  /** What a caller can check beforehand: no watermark plus any limit leaves 64 bits. */
  lemma {:induction false} BoundedSignalsFit(signals: seq<HighWatermark>, cursor: int, watermark: int, limit: int)
    requires IsInt64(cursor) && watermark + limit <= MAX_INT64
    requires forall i | 0 <= i < |signals| ::
               ValidSignal(signals[i]) && signals[i].sequence <= watermark && signals[i].limit <= limit
    ensures FitsAll(signals, cursor)
    decreases |signals|
  {
    if signals != [] {
      BoundedSignalsFit(signals[1..], Activate(signals[0], cursor).state, watermark, limit);
    }
  }

  /** The final cursor and everything emitted on the way. */
  function Run(signals: seq<HighWatermark>, cursor: int): Transition
    requires FitsAll(signals, cursor)
    decreases |signals|
  {
    if signals == [] then Transition(cursor, []) else
    var first := Activate(signals[0], cursor);
    var rest := Run(signals[1..], first.state);
    Transition(rest.state, first.actions + rest.actions)
  }

  /** Consecutive non-empty windows from `from` to `to`. */
  predicate Tiles(windows: seq<Window>, from: int, to: int) {
    if windows == [] then from == to
    else windows[0].after == from && windows[0].after < windows[0].through && Tiles(windows[1..], windows[0].through, to)
  }

  predicate AtMost(signals: seq<HighWatermark>, bound: int) {
    forall i | 0 <= i < |signals| :: signals[i].sequence <= bound
  }

  /** Over any run the emitted windows tile the journal from the first cursor to the last; the cursor never falls,
      and passes no watermark it has not been shown. */
  lemma {:induction false} RunTiles(signals: seq<HighWatermark>, cursor: int, bound: int)
    requires FitsAll(signals, cursor) && AtMost(signals, bound) && cursor <= bound
    ensures var r := Run(signals, cursor);
            Tiles(r.actions, cursor, r.state) && cursor <= r.state <= bound
    decreases |signals|
  {
    if signals != [] {
      var first := Activate(signals[0], cursor);
      ActivateSoundIff(signals[0], cursor);
      RunTiles(signals[1..], first.state, bound);
      var rest := Run(signals[1..], first.state);
      if first.actions != [] {
        assert (first.actions + rest.actions)[1..] == rest.actions;
      } else {
        assert first.actions + rest.actions == rest.actions;
      }
    }
  }

  /** Position `p` lies in the window. */
  predicate Covers(w: Window, p: int) { w.after < p <= w.through }

  /** Tiling windows are disjoint and together cover each position exactly once. */
  lemma {:induction false} TilesCoverOnce(windows: seq<Window>, from: int, to: int, p: int) returns (at: nat)
    requires Tiles(windows, from, to) && from < p <= to
    ensures at < |windows| && Covers(windows[at], p)
    ensures forall i | 0 <= i < |windows| && i != at :: !Covers(windows[i], p)
  {
    if windows == [] {
      assert false;
    } else if p <= windows[0].through {
      at := 0;
      forall i | 1 <= i < |windows| ensures !Covers(windows[i], p) {
        TilesFrom(windows[1..], windows[0].through, to, i - 1);
      }
    } else {
      var k := TilesCoverOnce(windows[1..], windows[0].through, to, p);
      at := k + 1;
      forall i | 0 <= i < |windows| && i != at ensures !Covers(windows[i], p) {
        if i > 0 { assert windows[i] == windows[1..][i - 1]; }
      }
    }
  }

  lemma {:induction false} TilesFrom(windows: seq<Window>, from: int, to: int, i: nat)
    requires Tiles(windows, from, to) && i < |windows|
    ensures from <= windows[i].after
  {
    if i > 0 {
      TilesFrom(windows[1..], windows[0].through, to, i - 1);
    }
  }

  /** The signals of a run that lie ahead of the cursor they find, in order. */
  function Causes(signals: seq<HighWatermark>, cursor: int): seq<HighWatermark>
    requires FitsAll(signals, cursor)
    decreases |signals|
  {
    if signals == [] then [] else
    var rest := Causes(signals[1..], Activate(signals[0], cursor).state);
    if signals[0].sequence > cursor then [signals[0]] + rest else rest
  }

  /** Each window runs to the watermark of its cause or, if that is nearer, as far as the limit of its cause. */
  predicate CausedBy(windows: seq<Window>, causes: seq<HighWatermark>) {
    && |windows| == |causes|
    && forall i | 0 <= i < |windows| :: windows[i].through == Min(causes[i].sequence, windows[i].after + causes[i].limit)
  }

  /** Windows and the signals ahead of the cursor correspond one to one; so no window is longer than the limit of the
      signal that caused it, and none is shorter unless it reaches the watermark. */
  lemma {:induction false} WindowsRespectLimits(signals: seq<HighWatermark>, cursor: int)
    requires FitsAll(signals, cursor)
    ensures CausedBy(Run(signals, cursor).actions, Causes(signals, cursor))
    decreases |signals|
  {
    if signals != [] {
      var first := Activate(signals[0], cursor);
      ActivateSoundIff(signals[0], cursor);
      WindowsRespectLimits(signals[1..], first.state);
      CausesConcat(first.actions, if signals[0].sequence > cursor then [signals[0]] else [],
                   Run(signals[1..], first.state).actions, Causes(signals[1..], first.state));
      assert [] + Causes(signals[1..], first.state) == Causes(signals[1..], first.state);
    }
  }

  lemma CausesConcat(w1: seq<Window>, c1: seq<HighWatermark>, w2: seq<Window>, c2: seq<HighWatermark>)
    requires CausedBy(w1, c1) && CausedBy(w2, c2)
    ensures CausedBy(w1 + w2, c1 + c2)
  {}

  // ---------- a fixed watermark ----------

  function Repeat(signal: HighWatermark, n: nat): seq<HighWatermark> {
    seq(n, i requires 0 <= i < n => signal)
  }

  /** ceil((watermark - cursor) / limit) */
  function StepsNeeded(signal: HighWatermark, cursor: int): nat
    requires ValidSignal(signal)
  {
    if signal.sequence <= cursor then 0 else (signal.sequence - cursor + signal.limit - 1) / signal.limit
  }

  /** One step leaves one step fewer. */
  lemma OneStepLess(distance: int, limit: int)
    requires distance > 0 && limit > 0
    ensures (distance + limit - 1) / limit >= 1
    ensures distance > limit ==> (distance - limit + limit - 1) / limit == (distance + limit - 1) / limit - 1
    ensures distance <= limit ==> (distance + limit - 1) / limit == 1
  {
    if distance > limit {
      assert distance + limit - 1 == (distance - limit + limit - 1) + limit;
      DivideShifted(distance - limit + limit - 1, limit);
    } else {
      DivideShifted(distance - 1, limit);
      SmallQuotient(distance - 1, limit);
    }
  }

  lemma DivideShifted(x: int, d: int)
    requires d > 0
    ensures (x + d) / d == x / d + 1
  {
    var q, p := x / d, (x + d) / d;
    QuotientGap(p, q, d, (x + d) % d - x % d);
  }

  /** Quotients of numbers that differ by d, with remainders below d, differ by one. */
  lemma QuotientGap(p: int, q: int, d: int, e: int)
    requires d > 0 && -d < e < d && p * d + e == q * d + d
    ensures p == q + 1
  {
    var k := p - q - 1;
    assert k * d == -e by { assert (p - q - 1) * d == p * d - q * d - d; }
    MultipleIsLarge(k, d);
  }

  lemma MultipleIsLarge(k: int, d: int)
    requires d > 0
    ensures (k >= 1 ==> k * d >= d) && (k <= -1 ==> k * d <= -d)
  {}

  lemma SmallQuotient(x: int, d: int)
    requires 0 <= x < d
    ensures x / d == 0
  {}

  /** A fixed watermark H with limit L is reached in exactly ceil((H - cursor) / L) activations, each emitting one
      window, and further activations emit nothing. */
  lemma {:induction false} FixedWatermark(signal: HighWatermark, cursor: int, n: nat)
    requires ValidSignal(signal) && FitsAll(Repeat(signal, n), cursor)
    ensures var r := Run(Repeat(signal, n), cursor);
            var needed := StepsNeeded(signal, cursor);
            && |r.actions| == Min(n, needed)
            && (needed > 0 ==> (r.state == signal.sequence <==> n >= needed))
            && (needed == 0 ==> r.state == cursor)
    decreases n
  {
    if n > 0 {
      assert Repeat(signal, n)[0] == signal && Repeat(signal, n)[1..] == Repeat(signal, n - 1);
      ActivateSoundIff(signal, cursor);
      FixedWatermark(signal, Activate(signal, cursor).state, n - 1);
      if signal.sequence > cursor {
        OneStepLess(signal.sequence - cursor, signal.limit);
      }
    } else if signal.sequence > cursor {
      OneStepLess(signal.sequence - cursor, signal.limit);
    }
  }
}
