/**
 The capped congestion controller of src/congestion.rs, put together from its estimator, its startup test and
 its minimum-RTT tracker. The window of the wrapped controller is a parameter wherever it is asked for.
 */
module BbrCapped {
  import opened Bytes
  import DeliveryRate
  import Startup
  import MinRtt

  const CWND_GAIN: nat := 1250
  const PROBE_GAIN: nat := 500
  const STARTUP_GAIN: nat := 2885
  const PROBE_MIN_PACKETS: nat := 4
  const U64_MAX: nat := 0xffff_ffff_ffff_ffff

  // ---------------------------------------------------------------- the limit

  function Gain(probing: bool, ended: bool): nat {
    if probing then PROBE_GAIN else if ended then CWND_GAIN else STARTUP_GAIN
  }

  function Floor(probing: bool, initialWindow: nat, mtu: nat): nat {
    if probing then PROBE_MIN_PACKETS * mtu else initialWindow
  }

  /** A gain in per mille times bytes per second times microseconds. */
  function Product(bandwidth: nat, micros: nat, gain: nat): nat { bandwidth * micros * gain }

  function Limit(bandwidth: nat, micros: nat, gain: nat, floor: nat): nat {
    Max(Min(Product(bandwidth, micros, gain) / 1_000_000_000, U64_MAX), floor)
  }

  /** The limit, once there is an estimate and a minimum RTT to compute it from. */
  function CapOf(bandwidth: nat, held: Option<MinRtt.Held>, probing: bool, ended: bool, initialWindow: nat, mtu: nat)
    : Option<nat>
  {
    if bandwidth == 0 || held.None? then None
    else Some(Limit(bandwidth, DeliveryRate.Micros(held.value.rtt), Gain(probing, ended),
                    Floor(probing, initialWindow, mtu)))
  }

  lemma ProductGrows(b: nat, c: nat, m: nat, n: nat, g: nat, h: nat)
    requires b <= c && m <= n && g <= h
    ensures Product(b, m, g) <= Product(c, n, h)
  {
    TimesMonotone(b, m, n);
    TimesMonotone(n, b, c);
    assert b * m <= c * n;
    TimesMonotone(g, b * m, c * n);
    TimesMonotone(c * n, g, h);
    assert g * (b * m) == b * m * g && g * (c * n) == (c * n) * g;
  }

  /** For RTTs under 2^52 microseconds the product stays within 128 bits. */
  lemma ProductFits(bandwidth: nat, micros: nat, probing: bool, ended: bool)
    requires bandwidth <= U64_MAX && micros < 0x10_0000_0000_0000
    ensures Product(bandwidth, micros, Gain(probing, ended)) < 0x1_0000_0000_0000_0000_0000_0000_0000_0000
  {
    ProductGrows(bandwidth, U64_MAX, micros, 0x10_0000_0000_0000, Gain(probing, ended), 4095);
    assert Product(U64_MAX, 0x10_0000_0000_0000, 4095) < 0x1_0000_0000_0000_0000_0000_0000_0000_0000;
  }

  /**
   Between its floor and saturation the limit is, to the byte, 5/4 of the bandwidth-delay product, 2.885
   times it in a startup, and half of it in a probe.
   */
  lemma LimitIsTheProduct(bandwidth: nat, micros: nat, probing: bool, ended: bool, floor: nat)
    requires floor < Limit(bandwidth, micros, Gain(probing, ended), floor) < U64_MAX
    ensures var c, product := Limit(bandwidth, micros, Gain(probing, ended), floor), bandwidth * micros;
      && (probing ==> 2_000_000 * c <= product < 2_000_000 * (c + 1))
      && (!probing && ended ==> 4_000_000 * c <= 5 * product < 4_000_000 * (c + 1))
      && (!probing && !ended ==> 1_000_000_000 * c <= 2885 * product < 1_000_000_000 * (c + 1))
  {
    var product := Product(bandwidth, micros, Gain(probing, ended));
    assert product == (bandwidth * micros) * Gain(probing, ended);
    assert product == 1_000_000_000 * (product / 1_000_000_000) + product % 1_000_000_000;
  }

  /** The limit in full: `q` is the product in whole bytes, kept within 64 bits and not below the phase's floor. */
  lemma LimitExactly(bandwidth: nat, micros: nat, probing: bool, ended: bool, initialWindow: nat, mtu: nat, q: nat)
    requires var gain := if probing then 500 else if ended then 1250 else 2885;
      1_000_000_000 * q <= bandwidth * micros * gain < 1_000_000_000 * q + 1_000_000_000
    ensures Limit(bandwidth, micros, Gain(probing, ended), Floor(probing, initialWindow, mtu)) ==
      Max(Min(q, 0xffff_ffff_ffff_ffff), if probing then 4 * mtu else initialWindow)
  {
    var product := Product(bandwidth, micros, Gain(probing, ended));
    assert product / 1_000_000_000 == q;
  }

  /** A larger estimate or minimum never lowers the limit. */
  lemma LimitGrows(b: nat, c: nat, m: nat, n: nat, gain: nat, floor: nat)
    requires b <= c && m <= n
    ensures Limit(b, m, gain, floor) <= Limit(c, n, gain, floor)
  {
    ProductGrows(b, c, m, n, gain, gain);
  }

  /** A probe lowers the limit and a startup raises it, as long as four packets are within the initial window. */
  lemma PhasesAreOrdered(bandwidth: nat, micros: nat, ended: bool, initialWindow: nat, mtu: nat)
    requires PROBE_MIN_PACKETS * mtu <= initialWindow
    ensures Limit(bandwidth, micros, Gain(true, ended), Floor(true, initialWindow, mtu))
         <= Limit(bandwidth, micros, Gain(false, true), Floor(false, initialWindow, mtu))
         <= Limit(bandwidth, micros, Gain(false, false), Floor(false, initialWindow, mtu))
  {
    ProductGrows(bandwidth, bandwidth, micros, micros, PROBE_GAIN, CWND_GAIN);
    ProductGrows(bandwidth, bandwidth, micros, micros, CWND_GAIN, STARTUP_GAIN);
  }

  // ---------------------------------------------------------------- the controller

  class Controller {
    const rate: DeliveryRate.Estimator
    const startup: Startup.Test
    var held: Option<MinRtt.Held>
    var probe: Option<MinRtt.Probe>
    var srtt: nat
    var mtu: nat
    const initialWindow: nat
    /** Every ACK and batch end so far. */
    ghost var history: seq<MinRtt.Event>
    /** Every closed interval and congestion event so far. */
    ghost var tests: seq<Startup.Event>
    /** An ACK of the current sample interval was recorded during a probe. */
    ghost var probed: bool

    ghost predicate Valid()
      reads this, rate, rate.samples, rate.storedAt, startup
    {
      && rate.Valid()
      && MinRtt.Tracker(held, probe, srtt) == MinRtt.Run(history)
      && startup.View() == Startup.Run(Startup.FRESH, tests)
      && (probed ==> rate.appLimited)
    }

    /** The bandwidth estimate; zero when there is none. */
    ghost function Bandwidth(): nat
      reads rate.samples
    {
      DeliveryRate.MaxOf(rate.samples[..])
    }

    ghost function Cap(): Option<nat>
      reads this, rate.samples, startup
    {
      CapOf(Bandwidth(), held, probe.Some?, startup.ended, initialWindow, mtu)
    }

    /** The limit said of the run alone: the windowed maximum rate times the minimum RTT that counts. */
    ghost predicate IsLimitOfRun(c: nat)
      reads this, rate, startup
    {
      exists bandwidth, rtt :: IsLimitFrom(c, bandwidth, rtt)
    }

    ghost predicate IsLimitFrom(c: nat, bandwidth: nat, rtt: nat)
      reads this, rate, startup
    {
      && bandwidth > 0 && DeliveryRate.IsWindowMax(rate.log, bandwidth)
      && MinRtt.IsLeast(history, MinRtt.SinceProbe(history), MinRtt.ProbeFrom(history), rtt)
      && c == Limit(bandwidth, DeliveryRate.Micros(rtt),
                    Gain(MinRtt.Probing(history), Startup.Run(Startup.FRESH, tests).ended),
                    Floor(MinRtt.Probing(history), initialWindow, mtu))
    }

    constructor (initialWindow: nat, mtu: nat)
      ensures Valid() && fresh(rate) && fresh(rate.samples) && fresh(rate.storedAt) && fresh(startup)
      ensures history == [] && tests == [] && !probed && this.initialWindow == initialWindow && this.mtu == mtu
    {
      rate := new DeliveryRate.Estimator();
      startup := new Startup.Test();
      held, probe, srtt := None, None, 0;
      this.initialWindow, this.mtu := initialWindow, mtu;
      history, tests, probed := [], [], false;
    }

    /** The part of `on_ack` that is this controller's own. */
    method RecordAck(now: nat, sent: nat, acked: nat, appLimited: bool, smoothed: nat)
      requires Valid()
      modifies this, rate
      ensures Valid() && history == old(history) + [MinRtt.Ack(now, sent, appLimited, smoothed)]
      ensures tests == old(tests) && mtu == old(mtu) && rate.log == old(rate.log)
      ensures probed == (old(probed) || MinRtt.Probing(old(history)))
      ensures rate.bytes == Min(old(rate.bytes) + acked, U64_MAX)
      ensures rate.appLimited == (old(rate.appLimited) || appLimited || MinRtt.Probing(old(history)))
    {
      hide Startup.Run, DeliveryRate.Ring, MinRtt.Run, DeliveryRate.Ordered;
      ghost var e := MinRtt.Ack(now, sent, appLimited, smoothed);
      MinRtt.RunAppends(history, e);
      srtt := smoothed;
      var probing := probe.Some?;
      rate.OnAck(sent, acked, appLimited || probing);
      probed := probed || probing;
      history := history + [e];
      var rtt := DeliveryRate.Since(now, sent);
      if probing {
        probe := Some(probe.value.(min := Min(probe.value.min, rtt)));
        return;
      }
      if held.Some? && rtt > held.value.rtt {
        if !appLimited && DeliveryRate.Since(now, held.value.at) > MinRtt.LIFETIME {
          probe := Some(MinRtt.Probe(rtt, None));
        }
      } else {
        held := Some(MinRtt.Held(rtt, now));
      }
    }

    /** The window limit in force. */
    method CurrentCap() returns (c: Option<nat>)
      requires Valid()
      ensures c == Cap() && (c.Some? ==> IsLimitOfRun(c.value))
      ensures c.Some? && !MinRtt.Probing(history) ==> c.value >= initialWindow
      ensures c.None? <==> DeliveryRate.IsWindowMax(rate.log, 0) || MinRtt.NoSample(history, 0, |history|)
    {
      hide MinRtt.IsLeast, DeliveryRate.IsWindowMax, Limit, DeliveryRate.Ring;
      var estimate := rate.Estimate();
      MinRtt.HeldIsTheMinimum(history);
      MinRtt.SampledExactly(history);
      if estimate.None? || held.None? {
        return None;
      }
      DeliveryRate.PositiveMaximum(rate.log, estimate.value);
      var gain := if probe.Some? then PROBE_GAIN else if startup.ended then CWND_GAIN else STARTUP_GAIN;
      var floor := if probe.Some? then PROBE_MIN_PACKETS * mtu else initialWindow;
      c := Some(Limit(estimate.value, DeliveryRate.Micros(held.value.rtt), gain, floor));
      assert IsLimitFrom(c.value, estimate.value, held.value.rtt);
      NotBelowFloor(estimate.value, DeliveryRate.Micros(held.value.rtt), gain, floor);
    }

    /** Starts the probe's clock, or ends the probe. */
    method UpdateProbe(now: nat, inFlight: nat)
      requires Valid()
      modifies this
      ensures Valid() && history == old(history) + [MinRtt.End(now, inFlight, old(Cap()))]
      ensures tests == old(tests) && probed == old(probed) && mtu == old(mtu)
    {
      hide Startup.Run, DeliveryRate.Ring, Limit, DeliveryRate.MaxOf, MinRtt.Run, DeliveryRate.Ordered;
      var cap := CurrentCap();
      ghost var e := MinRtt.End(now, inFlight, cap);
      MinRtt.RunAppends(history, e);
      history := history + [e];
      if probe.None? {
        return;
      }
      if probe.value.ends.None? {
        if cap.None? || inFlight <= cap.value {
          probe := Some(probe.value.(ends := Some(now + Max(MinRtt.PROBE_TIME, srtt))));
        }
      } else if now >= probe.value.ends.value {
        held := Some(MinRtt.Held(probe.value.min, now));
        probe := None;
      }
    }

    /**
     The end of an ACK batch. An interval with an ACK recorded during a probe never lowers the estimate;
     a closed interval, and no other, is put to the startup test with the estimate after it.
     */
    method OnEndAcks(now: nat, inFlight: nat, appLimited: bool)
      requires Valid()
      modifies this, rate, rate.samples, rate.storedAt, startup
      ensures Valid() && mtu == old(mtu)
      ensures var cap := CapOf(Bandwidth(), old(held), old(probe).Some?, startup.ended, initialWindow, mtu);
        history == old(history) + [MinRtt.End(now, inFlight, cap)]
      ensures var closes := old(rate.started).Some? &&
          DeliveryRate.Since(now, old(rate.started).value) >= Max(old(srtt), 1);
        && tests == old(tests) + (if closes
             then [Startup.Interval(Bandwidth(), old(rate.appLimited) || appLimited)] else [])
        && (if closes then rate.intervals == old(rate.intervals) + 1
            else rate.log == old(rate.log) && Bandwidth() == old(Bandwidth()))
        && (closes || old(rate.started).None? ==> !probed)
      ensures old(rate.appLimited) || appLimited ==> Bandwidth() >= old(Bandwidth())
      ensures old(probed) ==> Bandwidth() >= old(Bandwidth())
    {
      hide MinRtt.Run, Startup.Run, Startup.Step, DeliveryRate.Ring, DeliveryRate.Ordered, DeliveryRate.IsWindowMax;
      hide Limit, DeliveryRate.MaxOf, DeliveryRate.Rate;
      var first := rate.started.None?;
      var sample := rate.OnEndAcks(now, appLimited, srtt);
      probed := probed && !first && sample.None?;
      if sample.Some? {
        var estimate := rate.Estimate();
        var value := if estimate.Some? then estimate.value else 0;
        startup.CloseInterval(value, sample.value.appLimited);
        ghost var closed := Startup.Interval(value, sample.value.appLimited);
        Startup.RunAppends(Startup.FRESH, tests, closed);
        tests := tests + [closed];
      }
      UpdateProbe(now, inFlight);
    }

    method OnCongestionEvent()
      requires Valid()
      modifies this, startup
      ensures Valid() && tests == old(tests) + [Startup.Congestion]
      ensures history == old(history) && probed == old(probed) && mtu == old(mtu)
    {
      assert (tests + [Startup.Congestion])[..|tests|] == tests;
      startup.OnCongestion();
      tests := tests + [Startup.Congestion];
    }

    method OnMtuUpdate(newMtu: nat)
      requires Valid()
      modifies this`mtu
      ensures Valid() && mtu == newMtu
    {
      mtu := newMtu;
    }

    /** The window: the wrapped controller's, under the limit. */
    method Window(inner: nat) returns (w: nat)
      requires Valid()
      ensures w == if Cap().Some? then Min(inner, Cap().value) else inner
      ensures w < inner ==> IsLimitOfRun(w)
      ensures !MinRtt.Probing(history) ==> w >= Min(inner, initialWindow)
    {
      var cap := CurrentCap();
      w := if cap.Some? then Min(inner, cap.value) else inner;
    }
  }

  lemma NotBelowFloor(bandwidth: nat, micros: nat, gain: nat, floor: nat)
    ensures Limit(bandwidth, micros, gain, floor) >= floor
  {
  }
}
