/** The minimum-RTT tracker of src/congestion.rs and its probe cycle. Instants and durations are nanoseconds. */
module MinRtt {
  import opened Bytes
  import opened DeliveryRate

  /** Ten seconds. */
  const LIFETIME: nat := 10_000_000_000
  /** 200 milliseconds. */
  const PROBE_TIME: nat := 200_000_000

  /** A minimum and when it was taken. */
  datatype Held = Held(rtt: nat, at: nat)

  /** The lowest sample of a probe, and when it ends once in-flight data has fallen to its window. */
  datatype Probe = Probe(min: nat, ends: Option<nat>)

  datatype Tracker = Tracker(held: Option<Held>, probe: Option<Probe>, srtt: nat)

  const FRESH: Tracker := Tracker(None, None, 0)

  /** An acknowledged packet, or the end of an ACK batch with the window limit in force then. */
  datatype Event =
    | Ack(now: nat, sent: nat, appLimited: bool, srtt: nat)
    | End(now: nat, inFlight: nat, cap: Option<nat>)
  {
    function Rtt(): nat
      requires Ack?
    {
      Since(now, sent)
    }

    /** The end of a batch that found in-flight data at or below the limit, or no limit. */
    predicate Fits() { End? && (cap.None? || inFlight <= cap.value) }
  }

  function OnAck(t0: Tracker, e: Event): Tracker
    requires e.Ack?
  {
    var t := t0.(srtt := e.srtt);
    if t.probe.Some? then t.(probe := Some(t.probe.value.(min := Min(t.probe.value.min, e.Rtt()))))
    else if t.held.Some? && e.Rtt() > t.held.value.rtt then
      if !e.appLimited && Since(e.now, t.held.value.at) > LIFETIME then t.(probe := Some(Probe(e.Rtt(), None))) else t
    else t.(held := Some(Held(e.Rtt(), e.now)))
  }

  function OnEnd(t: Tracker, e: Event): Tracker
    requires e.End?
  {
    if t.probe.None? then t
    else match t.probe.value.ends
      case None =>
        if e.cap.None? || e.inFlight <= e.cap.value then
          t.(probe := Some(t.probe.value.(ends := Some(e.now + Max(PROBE_TIME, t.srtt)))))
        else t
      case Some(ends) => if e.now >= ends then t.(held := Some(Held(t.probe.value.min, e.now)), probe := None) else t
  }

  function Step(t: Tracker, e: Event): Tracker { if e.Ack? then OnAck(t, e) else OnEnd(t, e) }

  function Run(es: seq<Event>): Tracker {
    if es == [] then FRESH else Step(Run(es[..|es| - 1]), es[|es| - 1])
  }

  lemma RunAppends(es: seq<Event>, e: Event)
    ensures Run(es + [e]) == Step(Run(es), e)
  {
    assert (es + [e])[..|es|] == es;
  }

  // ---------------------------------------------------------------- what an observer sees of a run

  /** A probe is in progress. */
  predicate Probing(es: seq<Event>) { Run(es).probe.Some? }

  /** The event that began the probe in progress; the end of the run when there is none. */
  function ProbeFrom(es: seq<Event>): (i: nat)
    ensures i <= |es|
  {
    if !Probing(es) then |es|
    else if Probing(es[..|es| - 1]) then ProbeFrom(es[..|es| - 1]) else |es| - 1
  }

  /** The event that began the last finished probe; the start of the run when none finished. */
  function SinceProbe(es: seq<Event>): (i: nat)
    ensures i <= |es|
  {
    if es == [] then 0
    else if Probing(es[..|es| - 1]) && !Probing(es) then ProbeFrom(es[..|es| - 1]) else SinceProbe(es[..|es| - 1])
  }

  /** `m` is the lowest RTT sample among events `from` to `to`. */
  ghost predicate IsLeast(es: seq<Event>, from: nat, to: nat, m: nat)
    requires to <= |es|
  {
    && (exists j :: from <= j < to && es[j].Ack? && es[j].Rtt() == m)
    && (forall j :: from <= j < to && es[j].Ack? ==> m <= es[j].Rtt())
  }

  ghost predicate NoSample(es: seq<Event>, from: nat, to: nat)
    requires to <= |es|
  {
    forall j :: from <= j < to ==> !es[j].Ack?
  }

  /** What the tracker holds, said of the run alone. */
  ghost predicate HoldsMinimum(es: seq<Event>) {
    var t, from, to := Run(es), SinceProbe(es), ProbeFrom(es);
    && from <= to
    && (t.held.None? ==> NoSample(es, from, to) && !Probing(es) && from == 0)
    && (t.held.Some? ==> IsLeast(es, from, to, t.held.value.rtt))
    && (t.probe.Some? ==> to < |es| && IsLeast(es, to, |es|, t.probe.value.min))
  }

  lemma LeastExtends(es: seq<Event>, e: Event, from: nat, to: nat, m: nat)
    requires from <= to <= |es|
    ensures IsLeast(es, from, to, m) ==> IsLeast(es + [e], from, to, m)
    ensures NoSample(es, from, to) ==> NoSample(es + [e], from, to)
    ensures IsLeast(es, from, |es|, m) && e.Ack? ==> IsLeast(es + [e], from, |es| + 1, Min(m, e.Rtt()))
    ensures IsLeast(es, from, |es|, m) && !e.Ack? ==> IsLeast(es + [e], from, |es| + 1, m)
    ensures NoSample(es, from, |es|) && e.Ack? ==> IsLeast(es + [e], from, |es| + 1, e.Rtt())
    ensures NoSample(es, from, |es|) && !e.Ack? ==> NoSample(es + [e], from, |es| + 1)
    ensures e.Ack? ==> IsLeast(es + [e], |es|, |es| + 1, e.Rtt())
  {
    var all := es + [e];
    assert forall j :: 0 <= j < |es| ==> all[j] == es[j];
    assert all[|es|] == e;
    if IsLeast(es, from, |es|, m) {
      var j :| from <= j < |es| && es[j].Ack? && es[j].Rtt() == m;
      assert all[j] == es[j];
    }
  }

  /**
   On every run the held minimum is the lowest sample since the start of the last finished probe, leaving
   out those of a probe still going on, whose own lowest sample the probe keeps.
   */
  lemma {:induction false} HeldIsTheMinimum(es: seq<Event>)
    ensures HoldsMinimum(es)
  {
    if es != [] {
      var init, e := es[..|es| - 1], es[|es| - 1];
      assert es == init + [e];
      HeldIsTheMinimum(init);
      MinimumStep(init, e);
    }
  }

  /** A minimum is held exactly when there was a sample. */
  lemma SampledExactly(es: seq<Event>)
    ensures Run(es).held.None? <==> NoSample(es, 0, |es|)
  {
    HeldIsTheMinimum(es);
  }

  lemma MinimumStep(es: seq<Event>, e: Event)
    requires HoldsMinimum(es)
    ensures HoldsMinimum(es + [e])
  {
    var all := es + [e];
    assert all[..|all| - 1] == es;
    var t, from, to := Run(es), SinceProbe(es), ProbeFrom(es);
    assert Run(all) == Step(t, e);
    hide IsLeast, NoSample;
    if t.held.Some? {
      LeastExtends(es, e, from, to, t.held.value.rtt);
    } else {
      LeastExtends(es, e, from, to, 0);
    }
    if t.probe.Some? {
      LeastExtends(es, e, to, to, t.probe.value.min);
    }
  }

  // ---------------------------------------------------------------- when a probe starts

  /** Event `k` finished a probe, or was a sample at or below `m` outside a probe. */
  predicate Refreshes(es: seq<Event>, k: nat, m: nat) {
    && k < |es|
    && (if Probing(es[..k]) then !Probing(es[..k + 1]) else es[k].Ack? && es[k].Rtt() <= m)
  }

  /** The last event that did. */
  ghost predicate LastRefresh(es: seq<Event>, k: nat, m: nat) {
    k < |es| && Refreshes(es, k, m) && forall j :: k < j < |es| ==> !Refreshes(es, j, m)
  }

  lemma RefreshExtends(es: seq<Event>, e: Event, j: nat, m: nat)
    requires j < |es|
    ensures Refreshes(es + [e], j, m) == Refreshes(es, j, m)
  {
    assert (es + [e])[..j] == es[..j] && (es + [e])[..j + 1] == es[..j + 1];
  }

  /** The time the tracker holds is that of the last refresh. */
  lemma {:induction false} HeldSinceLastRefresh(es: seq<Event>) returns (k: nat)
    ensures Run(es).held.Some? ==> LastRefresh(es, k, Run(es).held.value.rtt) && es[k].now == Run(es).held.value.at
  {
    k := 0;
    if es != [] {
      var init, e := es[..|es| - 1], es[|es| - 1];
      assert es == init + [e] && es[..|es|] == es;
      k := HeldSinceLastRefresh(init);
      var t, u := Run(init), Run(es);
      if u.held.Some? {
        var m := u.held.value.rtt;
        if Refreshes(es, |init|, m) {
          k := |init|;
        } else {
          assert t.held == u.held;
          forall j | 0 <= j < |init| ensures Refreshes(es, j, m) == Refreshes(init, j, m) {
            RefreshExtends(init, e, j, m);
          }
        }
      }
    }
  }

  /**
   Outside a probe, with `m` the minimum of the samples that count: a probe starts exactly at an ACK that is
   not app-limited, above the minimum, and more than ten seconds after the last refresh of it.
   */
  lemma ProbeStartsExactlyWhenStale(es: seq<Event>, e: Event, m: nat)
    requires !Probing(es) && IsLeast(es, SinceProbe(es), |es|, m)
    ensures Probing(es + [e]) <==>
      e.Ack? && !e.appLimited && e.Rtt() > m && exists k: nat :: LastRefresh(es, k, m) && es[k].now + 10_000_000_000 < e.now
  {
    HeldIsTheMinimum(es);
    var k := HeldSinceLastRefresh(es);
    assert (es + [e])[..|es|] == es;
    assert Run(es).held.Some? && Run(es).held.value.rtt == m;
    forall i: nat | LastRefresh(es, i, m) ensures i == k {
      assert i < k ==> !Refreshes(es, k, m);
    }
  }

  /** Before the first sample there is nothing to probe for. */
  lemma NoProbeBeforeASample(es: seq<Event>, e: Event)
    requires !Probing(es) && NoSample(es, SinceProbe(es), |es|)
    ensures !Probing(es + [e])
  {
    HeldIsTheMinimum(es);
    assert (es + [e])[..|es|] == es;
  }

  ghost predicate Monotone(es: seq<Event>) { forall i, j :: 0 <= i < j < |es| ==> es[i].now <= es[j].now }

  /** With a clock that does not run backwards: no sample of the ten seconds before was at or below the minimum. */
  lemma ProbeFollowsTenQuietSeconds(es: seq<Event>, e: Event, m: nat, j: nat)
    requires Monotone(es) && !Probing(es) && Probing(es + [e]) && IsLeast(es, SinceProbe(es), |es|, m)
    requires j < |es| && es[j].Ack? && es[j].now + 10_000_000_000 >= e.now
    ensures es[j].Rtt() > m && !Probing(es[..j])
  {
    hide Run, SinceProbe, IsLeast, Refreshes;
    ProbeStartsExactlyWhenStale(es, e, m);
    var k: nat :| LastRefresh(es, k, m) && es[k].now + 10_000_000_000 < e.now;
    QuietSinceRefresh(es, k, m, j);
  }

  /** After the last refresh no probe ran, unless one runs now. */
  lemma {:induction false} QuietSinceRefresh(es: seq<Event>, k: nat, m: nat, j: nat)
    requires LastRefresh(es, k, m) && !Probing(es) && k < j < |es|
    ensures !Probing(es[..j]) && (es[j].Ack? ==> es[j].Rtt() > m)
    decreases |es| - j
  {
    assert !Refreshes(es, j, m);
    if j + 1 < |es| {
      QuietSinceRefresh(es, k, m, j + 1);
    } else {
      assert es[..j + 1] == es;
    }
  }

  // ---------------------------------------------------------------- when a probe ends

  /** The smoothed RTT before the latest ACK. */
  function Srtt(es: seq<Event>): nat {
    if es == [] then 0 else if es[|es| - 1].Ack? then es[|es| - 1].srtt else Srtt(es[..|es| - 1])
  }

  /** The first batch end of the probe in progress that found in-flight data within the probe's window. */
  ghost predicate Fell(es: seq<Event>, f: nat) {
    && ProbeFrom(es) < f < |es| && es[f].Fits()
    && forall j :: ProbeFrom(es) < j < f ==> !es[j].Fits()
  }

  /** When the probe may end: 200 ms or one smoothed RTT, the longer, after in-flight data fell. */
  function EndsAt(es: seq<Event>, f: nat): nat
    requires f < |es|
  {
    es[f].now + Max(200_000_000, Srtt(es[..f]))
  }

  ghost predicate ClockIsSet(es: seq<Event>) {
    && Run(es).srtt == Srtt(es)
    && (Probing(es) ==> ProbeFrom(es) < |es|)
    && (Probing(es) && Run(es).probe.value.ends.None? ==> forall j :: ProbeFrom(es) < j < |es| ==> !es[j].Fits())
    && (Probing(es) && Run(es).probe.value.ends.Some? ==>
          exists f: nat :: Fell(es, f) && Run(es).probe.value.ends.value == EndsAt(es, f))
  }

  lemma ClockStep(es: seq<Event>, e: Event)
    requires ClockIsSet(es)
    ensures ClockIsSet(es + [e])
  {
    var all := es + [e];
    assert all[..|es|] == es;
    var t, u := Run(es), Run(all);
    assert u == Step(t, e);
    if Probing(all) && Probing(es) {
      assert ProbeFrom(all) == ProbeFrom(es);
      if t.probe.value.ends.Some? {
        var f: nat :| Fell(es, f) && t.probe.value.ends.value == EndsAt(es, f);
        assert all[..f] == es[..f];
        assert Fell(all, f) && u.probe.value.ends.value == EndsAt(all, f);
      } else if e.Fits() {
        assert Fell(all, |es|) && u.probe.value.ends.value == EndsAt(all, |es|);
      }
    }
  }

  lemma {:induction false} ClockHolds(es: seq<Event>)
    ensures ClockIsSet(es)
  {
    if es != [] {
      ClockHolds(es[..|es| - 1]);
      ClockStep(es[..|es| - 1], es[|es| - 1]);
      assert es == es[..|es| - 1] + [es[|es| - 1]];
    }
  }

  /**
   A probe ends exactly at a batch end that comes max(200 ms, smoothed RTT) or more after the first batch
   end of the probe that found in-flight data at or below the probe's window.
   */
  lemma ProbeEndsExactlyAfterItsTime(es: seq<Event>, e: Event)
    requires Probing(es)
    ensures !Probing(es + [e]) <==> e.End? && exists f: nat :: Fell(es, f) && e.now >= EndsAt(es, f)
  {
    ClockHolds(es);
    assert (es + [e])[..|es|] == es;
  }
}
