/** The full-bandwidth test that ends the startup gain, and the rule that brings it back (src/congestion.rs). */
module Startup {
  import opened Bytes

  const GROWTH_PERCENT: nat := 125
  const SAMPLES_WITHOUT_GROWTH: nat := 3
  const FALLEN_PERCENT: nat := 50
  const RISES_TO_RESTART: nat := 3

  datatype State = State(ended: bool, grownTo: nat, flat: nat, congested: bool, peak: nat, last: nat, rises: nat)

  const FRESH: State := State(false, 0, 0, false, 0, 0, 0)

  /** A closed sample interval with the estimate after it, or a congestion event inside the current one. */
  datatype Event = Interval(estimate: nat, appLimited: bool) | Congestion

  /** At least a quarter above the mark. */
  predicate Grows(estimate: nat, mark: nat) { estimate * 100 >= mark * GROWTH_PERCENT }

  predicate Fallen(last: nat, peak: nat) { last * 100 < peak * FALLEN_PERCENT }

  function CountRise(s: State, estimate: nat): State {
    var rises := if Fallen(s.last, s.peak) && estimate > s.last then s.rises + 1 else 0;
    if rises >= RISES_TO_RESTART then FRESH.(grownTo := estimate, peak := s.peak, last := estimate)
    else s.(last := estimate, rises := rises)
  }

  function OnInterval(s0: State, estimate: nat, appLimited: bool): State {
    var congested := s0.congested;
    var s := s0.(congested := false, peak := Max(s0.peak, estimate));
    if s.ended then (if appLimited then s else CountRise(s, estimate))
    else
      var t := if appLimited then s else s.(last := estimate);
      if appLimited && !congested then t
      else if Grows(estimate, t.grownTo) then t.(grownTo := estimate, flat := 0)
      else if congested then t.(ended := true)
      else t.(flat := t.flat + 1, ended := t.flat + 1 >= SAMPLES_WITHOUT_GROWTH)
  }

  function Step(s: State, e: Event): State {
    match e
    case Congestion => s.(congested := true)
    case Interval(estimate, appLimited) => OnInterval(s, estimate, appLimited)
  }

  function Run(s: State, es: seq<Event>): State {
    if es == [] then s else Step(Run(s, es[..|es| - 1]), es[|es| - 1])
  }

  lemma RunAppends(s: State, es: seq<Event>, e: Event)
    ensures Run(s, es + [e]) == Step(Run(s, es), e)
  {
    assert (es + [e])[..|es|] == es;
  }

  // ---------------------------------------------------------------- the startup ends

  /** At least a quarter above the mark, in whole numbers. */
  predicate Quarter(estimate: nat, mark: nat) { 4 * estimate >= 5 * mark }

  /** The intervals the test looks at: not app-limited, or congested. */
  predicate Counted(s: State, e: Event) { e.Interval? && (!e.appLimited || s.congested) }

  function CountedIn(s: State, es: seq<Event>): nat {
    if es == [] then 0 else
    var init, e := es[..|es| - 1], es[|es| - 1];
    CountedIn(s, init) + if Counted(Run(s, init), e) then 1 else 0
  }

  /** How many of them grew the estimate by a quarter. */
  function GrowthsIn(s: State, es: seq<Event>): nat {
    if es == [] then 0 else
    var init, e := es[..|es| - 1], es[|es| - 1];
    GrowthsIn(s, init) + if Counted(Run(s, init), e) && Quarter(e.estimate, Run(s, init).grownTo) then 1 else 0
  }

  /** The startup does not end anywhere in these events. */
  ghost predicate Starting(s: State, es: seq<Event>) {
    forall n :: 0 <= n <= |es| ==> !Run(s, es[..n]).ended
  }

  function Pow(b: nat, n: nat): (p: nat)
    ensures b >= 1 ==> p >= 1
  {
    if n == 0 then 1 else b * Pow(b, n - 1)
  }

  lemma StartingPrefix(s: State, es: seq<Event>)
    requires es != [] && Starting(s, es)
    ensures Starting(s, es[..|es| - 1]) && !Run(s, es).ended && !Run(s, es[..|es| - 1]).ended
  {
    var init := es[..|es| - 1];
    assert es[..|es|] == es;
    forall n | 0 <= n <= |init| ensures !Run(s, init[..n]).ended {
      assert init[..n] == es[..n];
    }
  }

  /** What a startup phase keeps: few flat intervals per growth, and a mark that grew by a quarter each time. */
  lemma {:induction false} PhaseBound(s: State, es: seq<Event>)
    requires Starting(s, es) && s.flat < 3 && 0 < s.grownTo <= s.peak
    ensures var t, k := Run(s, es), GrowthsIn(s, es);
      && t.flat < 3 && 0 < t.grownTo <= t.peak
      && CountedIn(s, es) + s.flat <= 3 * k + t.flat
      && Pow(5, k) * s.grownTo <= Pow(4, k) * t.grownTo
  {
    assert es[..|es|] == es;
    if es != [] {
      var init, e := es[..|es| - 1], es[|es| - 1];
      StartingPrefix(s, es);
      PhaseBound(s, init);
      var before, k := Run(s, init), GrowthsIn(s, init);
      if Counted(before, e) && Quarter(e.estimate, before.grownTo) {
        GrowthStep(Pow(5, k), Pow(4, k), s.grownTo, before.grownTo, e.estimate);
      }
    }
  }

  lemma GrowthStep(five: nat, four: nat, g0: nat, g: nat, estimate: nat)
    requires five * g0 <= four * g && estimate * 100 >= g * 125
    ensures (5 * five) * g0 <= (4 * four) * estimate
  {
    assert 4 * estimate >= 5 * g;
    TimesMonotone(four, 5 * g, 4 * estimate);
    assert (5 * five) * g0 == 5 * (five * g0);
    assert four * (5 * g) == 5 * (four * g);
    assert four * (4 * estimate) == (4 * four) * estimate;
  }

  /**
   While the startup lasts, with its growth mark at g0 > 0 when we start to watch: after k growths there
   have been at most 3k + 2 counted intervals, and 5^k * g0 <= 4^k * peak. So it ends within 3(k + 1).
   */
  lemma StartupIsBounded(s: State, es: seq<Event>)
    requires Starting(s, es) && s.flat < 3 && 0 < s.grownTo <= s.peak
    ensures var k := GrowthsIn(s, es);
      && CountedIn(s, es) < 3 * (k + 1)
      && Pow(5, k) * s.grownTo <= Pow(4, k) * Run(s, es).peak
  {
    PhaseBound(s, es);
    TimesMonotone(Pow(4, GrowthsIn(s, es)), Run(s, es).grownTo, Run(s, es).peak);
  }

  lemma TwentyFiveGrowths()
    ensures Pow(5, 25) >= 256 * Pow(4, 25)
  {
    assert Pow(5, 5) == 3125 && Pow(4, 5) == 1024;
    assert Pow(5, 10) == 9765625 && Pow(4, 10) == 1048576;
    assert Pow(5, 15) == 30517578125 && Pow(4, 15) == 1073741824;
    assert Pow(5, 20) == 95367431640625 && Pow(4, 20) == 1099511627776;
    assert Pow(5, 25) == 298023223876953125 && Pow(4, 25) == 1125899906842624;
  }

  lemma PowUnfolds(b: nat, n: nat)
    ensures Pow(b, 0) == 1 && Pow(b, n + 1) == b * Pow(b, n)
  {
  }

  lemma {:induction false} PowAdd(b: nat, m: nat, n: nat)
    ensures Pow(b, m + n) == Pow(b, m) * Pow(b, n)
    decreases n
  {
    if n != 0 {
      PowAdd(b, m, n - 1);
      assert Pow(b, m) * (b * Pow(b, n - 1)) == b * (Pow(b, m) * Pow(b, n - 1));
    }
  }

  lemma {:induction false} BlocksOfGrowths(blocks: nat)
    ensures Pow(5, 25 * blocks) >= Pow(256, blocks) * Pow(4, 25 * blocks)
  {
    hide Pow;
    if blocks == 0 {
      PowUnfolds(5, 0);
      PowUnfolds(256, 0);
      PowUnfolds(4, 0);
    } else {
      var n := 25 * (blocks - 1);
      assert 25 * blocks == n + 25;
      BlocksOfGrowths(blocks - 1);
      TwentyFiveGrowths();
      PowAdd(5, n, 25);
      PowAdd(4, n, 25);
      PowUnfolds(256, blocks - 1);
      Products(Pow(5, n), Pow(256, blocks - 1), Pow(4, n), Pow(5, 25), 256, Pow(4, 25));
    }
  }

  lemma Products(a: nat, b: nat, c: nat, x: nat, y: nat, z: nat)
    requires a >= b * c && x >= y * z
    ensures a * x >= (y * b) * (c * z)
  {
    TimesMonotone(x, b * c, a);
    TimesMonotone(b * c, y * z, x);
    assert (b * c) * (y * z) == (y * b) * (c * z);
    assert x * a == a * x && x * (b * c) == (b * c) * x;
  }

  lemma {:induction false} MoreGrowthsMoreRatio(k: nat)
    requires k >= 200
    ensures Pow(5, k) >= Pow(256, 8) * Pow(4, k)
  {
    if k == 200 {
      BlocksOfGrowths(8);
    } else {
      MoreGrowthsMoreRatio(k - 1);
      var a, b, c := Pow(5, k - 1), Pow(256, 8), Pow(4, k - 1);
      assert b * (4 * c) == 4 * (b * c);
    }
  }

  lemma TwoToThe64()
    ensures Pow(256, 8) == 0x1_0000_0000_0000_0000
  {
    assert Pow(256, 2) == 0x1_0000 && Pow(256, 4) == 0x1_0000_0000;
    assert Pow(256, 6) == 0x1_0000_0000_0000;
  }

  /** Estimates are 64-bit, so at most 199 growths fit, and a startup ends within 600 counted intervals. */
  lemma StartupEndsWithin600(s: State, es: seq<Event>)
    requires Starting(s, es) && s.flat < 3 && 0 < s.grownTo <= s.peak
    requires Run(s, es).peak < 0x1_0000_0000_0000_0000
    ensures CountedIn(s, es) < 600
  {
    hide Pow, CountedIn, GrowthsIn, Run, Starting;
    StartupIsBounded(s, es);
    var k, peak := GrowthsIn(s, es), Run(s, es).peak;
    TwoToThe64();
    if k >= 200 {
      MoreGrowthsMoreRatio(k);
      TooManyGrowths(Pow(5, k), Pow(4, k), s.grownTo, peak);
    }
  }

  lemma TooManyGrowths(five: nat, four: nat, g0: nat, peak: nat)
    requires five >= 0x1_0000_0000_0000_0000 * four && four >= 1 && g0 >= 1 && peak < 0x1_0000_0000_0000_0000
    ensures five * g0 > four * peak
  {
    TimesMonotone(five, 1, g0);
    TimesMonotone(four, peak + 1, 0x1_0000_0000_0000_0000);
    assert four * (peak + 1) == four * peak + four;
  }

  /** Every counted interval so far had estimate zero. */
  ghost predicate NothingMeasured(es: seq<Event>) {
    forall i :: 0 <= i < |es| && Counted(Run(FRESH, es[..i]), es[i]) ==> es[i].estimate == 0
  }

  lemma MeasuredStep(es: seq<Event>, e: Event)
    ensures NothingMeasured(es + [e]) <==> NothingMeasured(es) && (Counted(Run(FRESH, es), e) ==> e.estimate == 0)
  {
    var all := es + [e];
    assert forall i :: 0 <= i <= |es| ==> all[..i] == es[..i];
    assert es[..|es|] == es && all[|es|] == e;
    assert forall i :: 0 <= i < |es| ==> all[i] == es[i];
  }

  /** On every history the mark is zero exactly when nothing was measured, and then the startup has not ended. */
  lemma {:induction false} MarkIsZeroExactlyWhen(es: seq<Event>)
    ensures Run(FRESH, es).grownTo == 0 <==> NothingMeasured(es)
    ensures Run(FRESH, es).grownTo == 0 ==> !Run(FRESH, es).ended
  {
    hide NothingMeasured;
    if es == [] {
      NothingAtFirst();
    } else {
      var init, e := es[..|es| - 1], es[|es| - 1];
      assert es == init + [e];
      MarkIsZeroExactlyWhen(init);
      MeasuredStep(init, e);
      StateTracksHistory(init);
    }
  }

  lemma NothingAtFirst()
    ensures NothingMeasured([])
  {
  }

  function Zeros(n: nat): seq<Event> { seq(n, _ => Interval(0, false)) }

  /** From any state with no mark there is no bound: zero estimates are counted, and count as growth, for ever. */
  lemma {:induction false} ZeroEstimatesNeverEnd(s: State, n: nat)
    requires !s.ended && s.grownTo == 0
    ensures Starting(s, Zeros(n)) && CountedIn(s, Zeros(n)) == n
    ensures var t := Run(s, Zeros(n)); !t.ended && t.grownTo == 0 && t.peak == s.peak
  {
    var es := Zeros(n);
    if n == 0 {
      assert Run(s, es[..0]) == s;
    } else {
      ZeroEstimatesNeverEnd(s, n - 1);
      assert es[..n - 1] == Zeros(n - 1);
      forall k | 0 <= k <= n ensures !Run(s, es[..k]).ended {
        if k < n {
          assert es[..k] == Zeros(n - 1)[..k];
        } else {
          assert es[..n] == es;
        }
      }
    }
  }

  /** There are startup phases as long as one likes from this state, with all estimates 64-bit. */
  ghost predicate Unbounded(s: State) { forall n: nat :: CanLast(s, n) }

  ghost predicate CanLast(s: State, n: nat) { exists es :: LastsFor(s, es, n) }

  ghost predicate LastsFor(s: State, es: seq<Event>, n: nat) {
    Starting(s, es) && CountedIn(s, es) >= n && Run(s, es).peak < 0x1_0000_0000_0000_0000
  }

  /** A startup phase has a bound exactly when its mark is positive, that is, when something was measured. */
  lemma BoundedExactlyWhenMeasured(history: seq<Event>)
    requires !Run(FRESH, history).ended && Run(FRESH, history).peak < 0x1_0000_0000_0000_0000
    ensures Unbounded(Run(FRESH, history)) <==> NothingMeasured(history)
  {
    hide Run, CountedIn, Starting, NothingMeasured, Peak, Last, Moves, Trailing;
    var s := Run(FRESH, history);
    MarkIsZeroExactlyWhen(history);
    StateTracksHistory(history);
    if s.grownTo == 0 {
      forall n: nat ensures CanLast(s, n) {
        ZeroEstimatesNeverEnd(s, n);
        assert LastsFor(s, Zeros(n), n);
      }
    } else if Unbounded(s) {
      assert CanLast(s, 600);
      var es :| LastsFor(s, es, 600);
      StartupEndsWithin600(s, es);
    }
  }

  /** The counted intervals without growth since the last one with growth, or since we started to watch. */
  function FlatIn(s: State, es: seq<Event>): nat {
    if es == [] then 0 else
    var init, e := es[..|es| - 1], es[|es| - 1];
    if !Counted(Run(s, init), e) then FlatIn(s, init)
    else if Quarter(e.estimate, Run(s, init).grownTo) then 0
    else FlatIn(s, init) + 1
  }

  /** The estimate at the last growth, or the mark we started to watch with. */
  function MarkIn(mark: nat, s: State, es: seq<Event>): nat {
    if es == [] then mark else
    var init, e := es[..|es| - 1], es[|es| - 1];
    if Counted(Run(s, init), e) && Quarter(e.estimate, MarkIn(mark, s, init)) then e.estimate else MarkIn(mark, s, init)
  }

  /** A congestion event came after the last interval. */
  predicate CongestedNow(es: seq<Event>) { es != [] && es[|es| - 1].Congestion? }

  lemma {:induction false} PhaseState(s: State, es: seq<Event>)
    requires Starting(s, es) && s.flat == 0 && !s.congested
    ensures Run(s, es).flat == FlatIn(s, es) && Run(s, es).congested == CongestedNow(es)
    ensures Run(s, es).grownTo == MarkIn(s.grownTo, s, es)
  {
    if es != [] {
      StartingPrefix(s, es);
      PhaseState(s, es[..|es| - 1]);
    }
  }

  /**
   A startup phase, watched from its beginning, ends exactly at an interval that did not grow by a quarter and
   that either had a congestion event, app-limited or not, or is the third in a row, not counting app-limited ones.
   */
  lemma PhaseEndsExactlyWithoutGrowth(s: State, es: seq<Event>, e: Event)
    requires Starting(s, es) && s.flat == 0 && !s.congested
    ensures Step(Run(s, es), e).ended <==>
      && e.Interval? && !Quarter(e.estimate, MarkIn(s.grownTo, s, es))
      && (CongestedNow(es) || (!e.appLimited && FlatIn(s, es) >= 2))
  {
    PhaseState(s, es);
    assert es[..|es|] == es;
  }

  // ---------------------------------------------------------------- the startup returns

  /** The largest estimate of the events so far. */
  function Peak(es: seq<Event>): nat {
    if es == [] then 0 else
    Max(Peak(es[..|es| - 1]), match es[|es| - 1] case Interval(e, _) => e case Congestion => 0)
  }

  /** The estimate after the last interval that was not app-limited. */
  function Last(es: seq<Event>): nat {
    if es == [] then 0 else
    match es[|es| - 1]
    case Interval(e, false) => e
    case _ => Last(es[..|es| - 1])
  }

  /** A rise from below half of the peak so far. */
  datatype Move = Move(from: nat, to: nat, peak: nat)
  {
    predicate Qualifies() { from < to && 2 * from < peak }
  }

  /** Every interval that was not app-limited, with the estimate before it, after it, and the peak by then. */
  function Moves(es: seq<Event>): seq<Move> {
    if es == [] then [] else
    var init := es[..|es| - 1];
    match es[|es| - 1]
    case Interval(e, false) => Moves(init) + [Move(Last(init), e, Peak(es))]
    case _ => Moves(init)
  }

  /** The last `r` moves all qualify. */
  ghost predicate Trailing(ms: seq<Move>, r: nat) {
    r <= |ms| && forall i :: |ms| - r <= i < |ms| ==> ms[i].Qualifies()
  }

  lemma {:induction false} StateTracksHistory(es: seq<Event>)
    ensures var s := Run(FRESH, es);
      && s.peak == Peak(es) && s.last == Last(es)
      && s.rises < 3 && (!s.ended ==> s.rises == 0)
      && Trailing(Moves(es), s.rises)
      && s.flat <= 3 && (!s.ended ==> s.flat < 3) && s.grownTo <= s.peak
  {
    if es != [] {
      StateTracksHistory(es[..|es| - 1]);
    }
  }

  /**
   The startup comes back only at an interval that was not app-limited, and only when it and the two such
   intervals before it were rises, each from below half of the highest estimate so far.
   */
  lemma RestartNeedsThreeRises(es: seq<Event>, e: Event)
    requires Run(FRESH, es).ended && !Step(Run(FRESH, es), e).ended
    ensures e.Interval? && !e.appLimited
    ensures Trailing(Moves(es + [e]), 3)
    ensures Step(Run(FRESH, es), e).grownTo == e.estimate
  {
    StateTracksHistory(es);
    var all := es + [e];
    assert all[..|all| - 1] == es && all[|all| - 1] == e;
    var ms := Moves(es);
    assert Moves(all) == ms + [Move(Last(es), e.estimate, Peak(all))];
  }

  /** How many of the last moves, in a row, qualify. */
  function Streak(ms: seq<Move>): nat {
    if ms == [] || !ms[|ms| - 1].Qualifies() then 0 else 1 + Streak(ms[..|ms| - 1])
  }

  /** The moves since the startup last ended. */
  function SinceEnd(es: seq<Event>): seq<Move> {
    if es == [] then [] else
    var init := es[..|es| - 1];
    if !Run(FRESH, es).ended || !Run(FRESH, init).ended then [] else
    match es[|es| - 1]
    case Interval(e, false) => SinceEnd(init) + [Move(Last(init), e, Peak(es))]
    case _ => SinceEnd(init)
  }

  lemma {:induction false} RisesAreTheStreak(es: seq<Event>)
    ensures Run(FRESH, es).ended ==> Run(FRESH, es).rises == Streak(SinceEnd(es))
  {
    if es != [] {
      var init, e := es[..|es| - 1], es[|es| - 1];
      RisesAreTheStreak(init);
      StateTracksHistory(init);
      if Run(FRESH, es).ended && Run(FRESH, init).ended && e.Interval? && !e.appLimited {
        var ms := SinceEnd(init);
        StreakGrows(ms, Move(Last(init), e.estimate, Peak(es)));
      }
    }
  }

  lemma StreakGrows(ms: seq<Move>, m: Move)
    ensures Streak(ms + [m]) == if m.Qualifies() then Streak(ms) + 1 else 0
  {
    assert (ms + [m])[..|ms|] == ms;
  }

  /** An ended startup returns exactly at the third rise in a row, each from below half of the peak, since it ended. */
  lemma RestartsExactlyAfterThreeRises(es: seq<Event>, e: Event)
    requires Run(FRESH, es).ended
    ensures !Step(Run(FRESH, es), e).ended <==>
      && e.Interval? && !e.appLimited
      && Streak(SinceEnd(es) + [Move(Last(es), e.estimate, Peak(es + [e]))]) >= 3
  {
    StateTracksHistory(es);
    RisesAreTheStreak(es);
    var all := es + [e];
    assert all[..|es|] == es && all[|es|] == e;
    if e.Interval? {
      StreakGrows(SinceEnd(es), Move(Last(es), e.estimate, Peak(all)));
    }
  }

  lemma StartsUnended(s: State, es: seq<Event>)
    requires Starting(s, es)
    ensures !s.ended
  {
    assert es[..0] == [] && Run(s, es[..0]) == s;
  }

  /** So every startup phase, the first with a positive mark or a later one, meets the bound above. */
  lemma EveryPhaseIsBounded(history: seq<Event>, phase: seq<Event>)
    requires Run(FRESH, history).grownTo > 0 && Starting(Run(FRESH, history), phase)
    requires Run(Run(FRESH, history), phase).peak < 0x1_0000_0000_0000_0000
    ensures CountedIn(Run(FRESH, history), phase) < Min(600, 3 * (GrowthsIn(Run(FRESH, history), phase) + 1))
  {
    hide Run, CountedIn, GrowthsIn, Pow, Peak, Last, Moves, Starting, Trailing;
    StateTracksHistory(history);
    var s := Run(FRESH, history);
    StartsUnended(s, phase);
    StartupIsBounded(s, phase);
    StartupEndsWithin600(s, phase);
  }

  // ---------------------------------------------------------------- the object

  class Test {
    var ended: bool
    var grownTo: nat
    var flat: nat
    var congested: bool
    var peak: nat
    var last: nat
    var rises: nat

    function View(): State reads this { State(ended, grownTo, flat, congested, peak, last, rises) }

    constructor ()
      ensures View() == FRESH
    {
      ended, grownTo, flat, congested, peak, last, rises := false, 0, 0, false, 0, 0, 0;
    }

    method OnCongestion()
      modifies this
      ensures View() == Step(old(View()), Congestion)
    {
      congested := true;
    }

    method CloseInterval(estimate: nat, appLimited: bool)
      modifies this
      ensures View() == Step(old(View()), Interval(estimate, appLimited))
    {
      var wasCongested := congested;
      congested := false;
      peak := Max(peak, estimate);
      if ended {
        if !appLimited {
          RecordRise(estimate);
        }
        return;
      }
      if !appLimited {
        last := estimate;
      }
      if appLimited && !wasCongested {
        return;
      }
      if estimate * 100 >= grownTo * GROWTH_PERCENT {
        grownTo, flat := estimate, 0;
      } else if wasCongested {
        ended := true;
      } else {
        flat := flat + 1;
        ended := flat >= SAMPLES_WITHOUT_GROWTH;
      }
    }

    method RecordRise(estimate: nat)
      modifies this
      ensures View() == CountRise(old(View()), estimate)
    {
      var before := last;
      last := estimate;
      rises := if before * 100 < peak * FALLEN_PERCENT && estimate > before then rises + 1 else 0;
      if rises >= RISES_TO_RESTART {
        ended, grownTo, flat, congested, rises := false, estimate, 0, false, 0;
      }
    }
  }
}
