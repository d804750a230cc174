/** The delivery-rate estimator of src/congestion.rs. Instants and durations are nanoseconds. */
module DeliveryRate {
  import opened Bytes

  const SAMPLES: nat := 10
  const U64_MAX: nat := 0xffff_ffff_ffff_ffff

  /** The time from one instant to another, and none when they are the other way round. */
  function Since(now: nat, earlier: nat): (d: nat)
    ensures earlier + d == Max(now, earlier)
  {
    if now >= earlier then now - earlier else 0
  }

  /** Whole microseconds. */
  function Micros(d: nat): (us: nat)
    ensures 1000 * us <= d < 1000 * us + 1000
  {
    d / 1000
  }

  // ---------------------------------------------------------------- the windowed maximum

  /** A stored sample and the interval count when it was stored. */
  datatype Stored = Stored(rate: nat, at: nat)

  /** When the latest positive sample was stored. */
  function LatestPositive(log: seq<Stored>): Option<nat> {
    if log == [] then None
    else if log[|log| - 1].rate > 0 then Some(log[|log| - 1].at)
    else LatestPositive(log[..|log| - 1])
  }

  /** Stored ten or more intervals before the latest positive sample. */
  predicate Expired(log: seq<Stored>, j: nat)
    requires j < |log|
  {
    LatestPositive(log).Some? && LatestPositive(log).value >= log[j].at + 10
  }

  /** Among the last ten stored, and not expired. */
  predicate Kept(log: seq<Stored>, j: nat) {
    |log| <= j + 10 && j < |log| && !Expired(log, j)
  }

  /** The largest kept sample; zero when there is none. */
  ghost predicate IsWindowMax(log: seq<Stored>, m: nat) {
    && (forall j: nat :: Kept(log, j) ==> log[j].rate <= m)
    && (m == 0 || exists j: nat :: Kept(log, j) && log[j].rate == m)
  }

  /** Interval counts only grow. */
  ghost predicate Ordered(log: seq<Stored>, intervals: nat) {
    && (forall j :: 0 <= j < |log| ==> log[j].at < intervals)
    && (forall i, j :: 0 <= i < j < |log| ==> log[i].at < log[j].at)
  }

  /** What the ring's slots hold: each kept sample in its place, and zero everywhere else. */
  ghost predicate Ring(samples: seq<nat>, storedAt: seq<nat>, next: nat, log: seq<Stored>) {
    && |samples| == |storedAt| == SAMPLES && next == |log| % SAMPLES
    && (forall j :: 0 <= j < |log| && |log| <= j + SAMPLES ==>
          storedAt[j % SAMPLES] == log[j].at && samples[j % SAMPLES] == if Expired(log, j) then 0 else log[j].rate)
    && (forall i :: |log| <= i < SAMPLES ==> samples[i] == 0)
  }

  function MaxOf(s: seq<nat>): (m: nat)
    ensures forall i :: 0 <= i < |s| ==> s[i] <= m
    ensures m == 0 || m in s
  {
    if s == [] then 0 else Max(MaxOf(s[..|s| - 1]), s[|s| - 1])
  }

  /** The slot a ring index stands for. */
  lemma SlotOf(n: nat, i: nat) returns (j: nat)
    requires i < SAMPLES && i < n
    ensures j < n <= j + SAMPLES && j % SAMPLES == i
  {
    j := n - 1 - (n - 1 - i) % SAMPLES;
  }

  /** The ring's maximum is the window's. */
  lemma RingMaximum(samples: seq<nat>, storedAt: seq<nat>, next: nat, log: seq<Stored>)
    requires Ring(samples, storedAt, next, log)
    ensures IsWindowMax(log, MaxOf(samples))
  {
    hide LatestPositive;
    var m := MaxOf(samples);
    forall j: nat | Kept(log, j) ensures log[j].rate <= m {
      assert samples[j % SAMPLES] == log[j].rate;
    }
    if m > 0 {
      var i :| 0 <= i < |samples| && samples[i] == m;
      var j := SlotOf(|log|, i);
      assert Kept(log, j) && log[j].rate == m;
    }
  }

  lemma PositiveMaximum(log: seq<Stored>, m: nat)
    requires IsWindowMax(log, m) && m > 0
    ensures !IsWindowMax(log, 0)
  {
  }

  lemma {:induction false} LatestPositiveBefore(log: seq<Stored>, intervals: nat)
    requires Ordered(log, intervals)
    ensures LatestPositive(log).Some? ==> LatestPositive(log).value < intervals
  {
    if log != [] && log[|log| - 1].rate == 0 {
      var init := log[..|log| - 1];
      assert forall j :: 0 <= j < |init| ==> init[j] == log[j];
      LatestPositiveBefore(init, intervals);
    }
  }

  /** Storing a sample: older ones expire against a positive one; a zero one expires nothing. */
  lemma ExpiryMoves(log: seq<Stored>, intervals: nat, sample: nat, j: nat)
    requires Ordered(log, intervals) && j < |log|
    ensures var longer := log + [Stored(sample, intervals)];
      Expired(longer, j) <==> if sample > 0 then intervals >= log[j].at + SAMPLES else Expired(log, j)
    ensures Expired(log, j) ==> intervals >= log[j].at + SAMPLES
  {
    var longer := log + [Stored(sample, intervals)];
    assert longer[..|longer| - 1] == log && longer[j] == log[j];
    LatestPositiveBefore(log, intervals);
  }

  /** The slots after expiry. */
  function Cleared(samples: seq<nat>, storedAt: seq<nat>, intervals: nat, sample: nat): (r: seq<nat>)
    requires |samples| == |storedAt|
    ensures |r| == |samples|
  {
    if sample == 0 then samples
    else seq(|samples|, i requires 0 <= i < |samples| => if Since(intervals, storedAt[i]) >= SAMPLES then 0 else samples[i])
  }

  lemma StoringKeepsRing(samples: seq<nat>, storedAt: seq<nat>, next: nat, log: seq<Stored>, intervals: nat, sample: nat)
    requires Ring(samples, storedAt, next, log) && Ordered(log, intervals)
    ensures var longer := log + [Stored(sample, intervals)];
      && Ring(Cleared(samples, storedAt, intervals, sample)[next := sample], storedAt[next := intervals],
              (next + 1) % SAMPLES, longer)
      && Ordered(longer, intervals + 1)
  {
    hide LatestPositive;
    var longer := log + [Stored(sample, intervals)];
    var s, a := Cleared(samples, storedAt, intervals, sample)[next := sample], storedAt[next := intervals];
    forall j | 0 <= j < |longer| && |longer| <= j + SAMPLES
      ensures a[j % SAMPLES] == longer[j].at && s[j % SAMPLES] == if Expired(longer, j) then 0 else longer[j].rate
    {
      if j < |log| {
        hide Expired;
        ExpiryMoves(log, intervals, sample, j);
        OtherSlot(j, |log|);
      } else {
        NewestIsKept(log, intervals, sample);
      }
    }
  }

  /** Fewer than ten apart, two samples have different slots. */
  lemma OtherSlot(i: nat, j: nat)
    requires i < j < i + SAMPLES
    ensures i % SAMPLES != j % SAMPLES
  {
  }

  lemma NewestIsKept(log: seq<Stored>, intervals: nat, sample: nat)
    requires Ordered(log, intervals)
    ensures !Expired(log + [Stored(sample, intervals)], |log|)
  {
    var longer := log + [Stored(sample, intervals)];
    assert longer[..|longer| - 1] == log;
    LatestPositiveBefore(log, intervals);
  }

  /** A stored sample above the estimate becomes the estimate, so an app-limited interval never lowers it. */
  lemma HigherSampleWins(samples: seq<nat>, storedAt: seq<nat>, next: nat, intervals: nat, sample: nat)
    requires |samples| == |storedAt| && next < |samples| && sample > MaxOf(samples)
    ensures MaxOf(Cleared(samples, storedAt, intervals, sample)[next := sample]) == sample
  {
    var s := Cleared(samples, storedAt, intervals, sample)[next := sample];
    assert s[next] == sample;
    forall i | 0 <= i < |s| ensures s[i] <= sample {
      assert i != next ==> s[i] == 0 || s[i] == samples[i];
    }
  }

  // ---------------------------------------------------------------- the estimator

  /** One closed interval. */
  datatype Sample = Sample(rate: nat, appLimited: bool, stored: bool)

  /** Bytes over the longer of the ACK interval and the send interval, in bytes per second. */
  function Rate(bytes: nat, elapsed: nat, sentAtStart: Option<nat>, sent: Option<nat>): (r: nat)
    ensures r <= U64_MAX
  {
    var sendElapsed := if sentAtStart.Some? && sent.Some? then Since(sent.value, sentAtStart.value) else 0;
    Min(bytes * 1_000_000 / Max(Micros(Max(elapsed, sendElapsed)), 1), U64_MAX)
  }

  /** The time between the latest sends, when there was one before the interval, in nanoseconds. */
  function SendTime(sentAtStart: Option<nat>, sent: Option<nat>): nat {
    if sentAtStart.Some? && sent.Some? && sent.value > sentAtStart.value then sent.value - sentAtStart.value else 0
  }

  /**
   Below saturation the sample is, to the byte, the bytes over the longer of the two intervals, that one in whole
   microseconds and at least one; it saturates exactly when that quotient passes 2^64 - 1. So it is never more than
   the bytes over the ACK interval, nor over the send interval; with no send before it, the first alone counts.
   */
  lemma RateIsBytesOverTime(bytes: nat, elapsed: nat, sentAtStart: Option<nat>, sent: Option<nat>, time: nat)
    requires 1000 * time <= Max(elapsed, SendTime(sentAtStart, sent)) < 1000 * time + 1000
    ensures var r, t := Rate(bytes, elapsed, sentAtStart, sent), Max(time, 1);
      && (r < 0xffff_ffff_ffff_ffff ==> r * t <= 1_000_000 * bytes < (r + 1) * t)
      && (r == 0xffff_ffff_ffff_ffff <==> 1_000_000 * bytes >= 0xffff_ffff_ffff_ffff * t)
      && r <= 0xffff_ffff_ffff_ffff
    ensures sentAtStart.None? || sent.None? ==> 1000 * time <= elapsed < 1000 * time + 1000
    ensures forall us: nat :: 1000 * us <= elapsed || 1000 * us <= SendTime(sentAtStart, sent) ==>
      Rate(bytes, elapsed, sentAtStart, sent) * us <= 1_000_000 * bytes
  {
    hide Micros, Since;
    var longer := Max(elapsed, SendTime(sentAtStart, sent));
    var t, product := Max(time, 1), 1_000_000 * bytes;
    assert Micros(longer) == time;
    var r := Rate(bytes, elapsed, sentAtStart, sent);
    assert r == Min(product / t, U64_MAX);
    QuotientBounds(product, t, r, 0xffff_ffff_ffff_ffff);
    forall us: nat | 1000 * us <= elapsed || 1000 * us <= SendTime(sentAtStart, sent) ensures r * us <= product {
      TimesMonotone(r, us, t);
    }
  }

  lemma QuotientBounds(product: nat, t: nat, r: nat, top: nat)
    requires t >= 1 && r == Min(product / t, top)
    ensures r * t <= product
    ensures r < top ==> product < (r + 1) * t
    ensures r == top <==> product >= top * t
  {
    var q := product / t;
    Quotient(product, t, q);
    TimesMonotone(t, r, q);
    TimesMonotone(t, q + 1, top);
    TimesMonotone(t, top, q);
  }

  lemma Quotient(product: nat, t: nat, q: nat)
    requires t >= 1 && q == product / t
    ensures q * t <= product < (q + 1) * t
  {
    assert product == t * q + product % t;
    assert (q + 1) * t == q * t + t;
  }

  class Estimator {
    var started: Option<nat>
    var bytes: nat
    var appLimited: bool
    var sent: Option<nat>
    var sentAtStart: Option<nat>
    const samples: array<nat>
    const storedAt: array<nat>
    var next: nat
    var intervals: nat
    /** Every sample ever stored. */
    ghost var log: seq<Stored>

    ghost predicate Valid()
      reads this, samples, storedAt
    {
      && samples != storedAt && Ring(samples[..], storedAt[..], next, log) && Ordered(log, intervals)
      && (forall j :: 0 <= j < |log| ==> log[j].rate <= U64_MAX)
    }

    constructor ()
      ensures Valid() && fresh(samples) && fresh(storedAt)
      ensures log == [] && intervals == 0 && started == None && bytes == 0 && !appLimited && sent == None
    {
      started, bytes, appLimited, sent, sentAtStart, next, intervals, log := None, 0, false, None, None, 0, 0, [];
      samples := new nat[SAMPLES](_ => 0);
      storedAt := new nat[SAMPLES](_ => 0);
    }

    /** The bandwidth estimate; `None` before any sample above zero. */
    method Estimate() returns (r: Option<nat>)
      requires Valid()
      ensures IsWindowMax(log, if r.Some? then r.value else 0) && (r.Some? ==> r.value > 0)
      ensures r == (if MaxOf(samples[..]) > 0 then Some(MaxOf(samples[..])) else None)
      ensures r.Some? ==> r.value <= U64_MAX
    {
      var best := 0;
      for i := 0 to samples.Length
        invariant best == MaxOf(samples[..i])
      {
        assert samples[..i + 1][..i] == samples[..i];
        best := Max(best, samples[i]);
      }
      assert samples[..samples.Length] == samples[..];
      RingMaximum(samples[..], storedAt[..], next, log);
      r := if best > 0 then Some(best) else None;
    }

    /** One acknowledged packet. */
    method OnAck(sentAt: nat, acked: nat, limited: bool)
      requires Valid()
      modifies this
      ensures Valid() && log == old(log) && started == old(started)
      ensures sentAtStart == old(sentAtStart) && next == old(next) && intervals == old(intervals)
      ensures bytes == Min(old(bytes) + acked, U64_MAX) && appLimited == (old(appLimited) || limited)
      ensures sent == Some(if old(sent).Some? then Max(old(sent).value, sentAt) else sentAt)
    {
      bytes := Min(bytes + acked, U64_MAX);
      appLimited := appLimited || limited;
      sent := Some(if sent.Some? then Max(sent.value, sentAt) else sentAt);
    }

    method Restart(now: nat)
      requires Valid()
      modifies this
      ensures Valid() && log == old(log) && sent == old(sent) && next == old(next) && intervals == old(intervals)
      ensures started == Some(now) && sentAtStart == sent && bytes == 0 && !appLimited
    {
      started := Some(now);
      sentAtStart := sent;
      bytes := 0;
      appLimited := false;
    }

    /** Clears the slots a positive sample expires. */
    method Expire(sample: nat)
      requires samples != storedAt && samples.Length == storedAt.Length == SAMPLES
      modifies samples
      ensures samples[..] == Cleared(old(samples[..]), storedAt[..], intervals, sample)
    {
      if sample > 0 {
        for i := 0 to SAMPLES
          invariant forall k :: 0 <= k < i ==>
            samples[k] == if Since(intervals, storedAt[k]) >= SAMPLES then 0 else old(samples[k])
          invariant forall k :: i <= k < SAMPLES ==> samples[k] == old(samples[k])
        {
          if Since(intervals, storedAt[i]) >= SAMPLES {
            samples[i] := 0;
          }
        }
      }
    }

    /** Expires old samples and writes the new one over the oldest slot. */
    method Store(sample: nat)
      requires Valid() && sample <= U64_MAX
      modifies this`next, this`log, this`intervals, samples, storedAt
      ensures Valid() && intervals == old(intervals) + 1
      ensures log == old(log) + [Stored(sample, old(intervals))]
      ensures sample > old(MaxOf(samples[..])) ==> MaxOf(samples[..]) == sample
    {
      hide Cleared, Ordered, MaxOf;
      ghost var was, wasAt := samples[..], storedAt[..];
      Expire(sample);
      samples[next] := sample;
      storedAt[next] := intervals;
      assert samples[..] == Cleared(was, wasAt, intervals, sample)[next := sample];
      assert storedAt[..] == wasAt[next := intervals];
      StoringKeepsRing(was, wasAt, next, log, intervals, sample);
      if sample > MaxOf(was) {
        HigherSampleWins(was, wasAt, next, intervals, sample);
      }
      next := (next + 1) % SAMPLES;
      log := log + [Stored(sample, intervals)];
      intervals := intervals + 1;
    }

    /** Ends the interval once it has lasted a round trip, and then returns its sample. */
    method OnEndAcks(now: nat, limited: bool, round: nat) returns (r: Option<Sample>)
      requires Valid()
      modifies this, samples, storedAt
      ensures Valid() && sent == old(sent)
      ensures r.Some? <==> old(started).Some? && Since(now, old(started).value) >= Max(round, 1)
      ensures r.None? ==> log == old(log) && intervals == old(intervals) && samples[..] == old(samples[..])
      ensures r.None? && old(started).Some? ==>
        started == old(started) && bytes == old(bytes) && appLimited == (old(appLimited) || limited)
      ensures r.None? && old(started).Some? ==> sentAtStart == old(sentAtStart)
      ensures r.Some? || old(started).None? ==> started == Some(now) && bytes == 0 && !appLimited && sentAtStart == sent
      ensures r.Some? ==> intervals == old(intervals) + 1
      ensures r.Some? ==> r.value.appLimited == (old(appLimited) || limited)
      ensures r.Some? ==> r.value.rate == Rate(old(bytes), Since(now, old(started).value), old(sentAtStart), old(sent))
      ensures r.Some? ==> r.value.stored == (!r.value.appLimited || r.value.rate > old(MaxOf(samples[..])))
      ensures r.Some? ==>
        log == if r.value.stored then old(log) + [Stored(r.value.rate, old(intervals))] else old(log)
      ensures r.Some? && r.value.appLimited ==> MaxOf(samples[..]) >= old(MaxOf(samples[..]))
    {
      hide Ring, IsWindowMax, MaxOf, Rate;
      appLimited := appLimited || limited;
      if started == None {
        Restart(now);
        return None;
      }
      var elapsed := Since(now, started.value);
      if elapsed == 0 || elapsed < round {
        return None;
      }
      var sample := Rate(bytes, elapsed, sentAtStart, sent);
      var estimate := Estimate();
      var stored := !appLimited || sample > (if estimate.Some? then estimate.value else 0);
      if stored {
        Store(sample);
      } else {
        intervals := intervals + 1;
      }
      r := Some(Sample(sample, appLimited, stored));
      Restart(now);
    }
  }
}
