/** The per-connection rate sampler, whose minute and second counters share
    memory, and the frame limits built on it. */
module Sampling {
  import opened Common

  const HOUR := 3600
  const ZONE := 28800

  /** Accepted frames are logged with the local second they were recorded in. */
  ghost function InSecond(log: seq<int>, t: int): nat
  {
    if log == [] then 0 else InSecond(log[..|log| - 1], t) + if log[|log| - 1] == t then 1 else 0
  }

  ghost function InMinute(log: seq<int>, m: int): nat
  {
    if log == [] then 0 else InMinute(log[..|log| - 1], m) + if log[|log| - 1] / 60 == m then 1 else 0
  }

  ghost function InHour(log: seq<int>, h: int): nat
  {
    if log == [] then 0 else InHour(log[..|log| - 1], h) + if log[|log| - 1] / HOUR == h then 1 else 0
  }

  /** What cell `k` of the shared array holds in hour `h`: the frames of its
      second, plus, for the first sixty cells, the frames of its minute. */
  ghost function Cell(log: seq<int>, h: int, k: int): nat
  {
    InSecond(log, h * HOUR + k) + if k < 60 then InMinute(log, h * 60 + k) else 0
  }

  datatype Sample = Sample(second: nat, minute: nat, hour: nat)

  class Sampler {
    var total: nat
    var cells: array<nat>
    var hour: int
    var hourBegin: int
    /** All samples ever taken. */
    ghost var log: seq<int>

    ghost predicate Valid()
      reads this, cells
    {
      && cells.Length == HOUR
      && hourBegin == hour * HOUR
      && (forall i :: 0 <= i < |log| ==> log[i] / HOUR <= hour)
      && total == InHour(log, hour)
      && (forall k :: 0 <= k < HOUR ==> cells[k] == Cell(log, hour, k))
    }

    /** Nothing was recorded after `t`. */
    ghost predicate NotAfter(t: int)
      reads this
    {
      hour <= t / HOUR && forall i :: 0 <= i < |log| ==> log[i] <= t
    }

    constructor (utc: nat)
      ensures Valid() && log == [] && NotAfter(utc + ZONE) && fresh(cells)
    {
      var zero := new nat[HOUR](_ => 0);
      cells, total, log := zero, 0, [];
      hour := (utc + ZONE) / HOUR;
      hourBegin := (utc + ZONE) / HOUR * HOUR;
    }

    /** fixSampleSpace: a new hour starts from zero. */
    method FixSpace(t: int)
      requires Valid() && NotAfter(t)
      modifies this`total, this`hour, this`hourBegin, cells
      ensures Valid() && NotAfter(t) && hour == t / HOUR
    {
      var h := t / HOUR;
      if h != hour {
        forall k | 0 <= k < HOUR {
          cells[k] := 0;
        }
        total, hour, hourBegin := 0, h, h * HOUR;
        NothingYet(log, h);
      }
    }

    /** sample: counts the frame in its hour, its second and its minute; the
        last two may be the same cell. */
    method Take(utc: nat)
      requires Valid() && NotAfter(utc + ZONE)
      modifies this`total, this`hour, this`hourBegin, this`log, cells
      ensures Valid() && NotAfter(utc + ZONE)
      ensures log == old(log) + [utc + ZONE]
    {
      hide InSecond, InMinute, InHour;
      var t := utc + ZONE;
      FixSpace(t);
      var s := t - hourBegin;
      var m := s / 60;
      Counted(log, t);
      ghost var before := cells[..];
      total := total + 1;
      cells[s] := cells[s] + 1;
      cells[m] := cells[m] + 1;
      log := log + [t];
    }

    /** getSample: the three counters as they stand. */
    method Report(utc: nat) returns (sample: Sample)
      requires Valid() && NotAfter(utc + ZONE)
      modifies this`total, this`hour, this`hourBegin, cells
      ensures Valid() && NotAfter(utc + ZONE)
      ensures var t := utc + ZONE;
        && sample.second == Cell(log, t / HOUR, t % HOUR)
        && sample.minute == Cell(log, t / HOUR, t % HOUR / 60)
        && sample.hour == InHour(log, t / HOUR)
    {
      var t := utc + ZONE;
      FixSpace(t);
      var s := t - hourBegin;
      var m := s / 60;
      sample := Sample(cells[s], cells[m], total);
    }
  }

  /** Samples of earlier hours count in no cell of this one. */
  lemma {:induction false} NothingYet(log: seq<int>, h: int)
    requires forall i :: 0 <= i < |log| ==> log[i] / HOUR < h
    ensures InHour(log, h) == 0
    ensures forall k :: 0 <= k < HOUR ==> Cell(log, h, k) == 0
  {
    if log != [] {
      var n := |log| - 1;
      var t := log[n];
      NothingYet(log[..n], h);
      assert t < h * HOUR;
      forall k | 0 <= k < HOUR
        ensures Cell(log, h, k) == 0
      {
        assert Cell(log[..n], h, k) == 0;
        assert t / 60 < h * 60;
      }
    }
  }

  /** One more sample adds one to its second, minute and hour and to no other. */
  lemma Counted(log: seq<int>, t: int)
    ensures forall u :: InSecond(log + [t], u) == InSecond(log, u) + if u == t then 1 else 0
    ensures forall m :: InMinute(log + [t], m) == InMinute(log, m) + if m == t / 60 then 1 else 0
    ensures forall h :: InHour(log + [t], h) == InHour(log, h) + if h == t / HOUR then 1 else 0
  {
    assert (log + [t])[..|log|] == log;
  }

  /** A report is never below the true count, and is the true count exactly when
      the other count sharing its cell is zero. */
  lemma ReportNeverUndercounts(log: seq<int>, h: int, s: int)
    requires 0 <= s < HOUR
    ensures Cell(log, h, s) >= InSecond(log, h * HOUR + s)
    ensures Cell(log, h, s) == InSecond(log, h * HOUR + s) <==> s >= 60 || InMinute(log, h * 60 + s) == 0
    ensures Cell(log, h, s / 60) >= InMinute(log, h * 60 + s / 60)
    ensures Cell(log, h, s / 60) == InMinute(log, h * 60 + s / 60) <==> InSecond(log, h * HOUR + s / 60) == 0
  {
  }

  /** A second's and a minute's frames are among their hour's. */
  lemma {:induction false} WithinHour(log: seq<int>, t: int)
    ensures InSecond(log, t) <= InHour(log, t / HOUR)
    ensures InMinute(log, t / 60) <= InHour(log, t / HOUR)
  {
    if log != [] {
      WithinHour(log[..|log| - 1], t);
      var u := log[|log| - 1];
      if u / 60 == t / 60 {
        assert u / HOUR == u / 60 / 60;
      }
    }
  }

  /** What lies in the future has no samples yet. */
  lemma {:induction false} NoneLater(log: seq<int>, now: int, t: int)
    requires forall i :: 0 <= i < |log| ==> log[i] <= now
    ensures now < t ==> InSecond(log, t) == 0
    ensures now / 60 < t / 60 ==> InMinute(log, t / 60) == 0
    ensures now / HOUR < t / HOUR ==> InHour(log, t / HOUR) == 0
  {
    if log != [] {
      NoneLater(log[..|log| - 1], now, t);
    }
  }

  // ---- Frame limits ----

  datatype Limits = Limits(second: nat, minute: nat, hour: nat)

  /** At most one frame more than each limit in any second, minute and hour. */
  ghost predicate Respects(log: seq<int>, limits: Limits)
  {
    && (forall t :: InSecond(log, t) <= limits.second + 1)
    && (forall m :: InMinute(log, m) <= limits.minute + 1)
    && (forall h :: InHour(log, h) <= limits.hour + 1)
  }

  /** The frame handler's test against a report taken at local time `t`. */
  ghost predicate Admits(log: seq<int>, t: int, limits: Limits)
  {
    && Cell(log, t / HOUR, t % HOUR) <= limits.second
    && Cell(log, t / HOUR, t % HOUR / 60) <= limits.minute
    && InHour(log, t / HOUR) <= limits.hour
  }

  /** Admitted at `t` and recorded at the same time or later, a frame still
      respects the limits. */
  lemma AdmittedRespects(log: seq<int>, t: int, u: int, limits: Limits)
    requires Respects(log, limits) && Admits(log, t, limits) && t <= u
    requires forall i :: 0 <= i < |log| ==> log[i] <= t
    ensures Respects(log + [u], limits)
  {
    hide InSecond, InMinute, InHour;
    Counted(log, u);
    NoneLater(log, t, u);
    assert t / HOUR * HOUR + t % HOUR == t && t / HOUR * 60 + t % HOUR / 60 == t / 60;
    assert InSecond(log, t) <= limits.second && InMinute(log, t / 60) <= limits.minute;
  }

  /** The true counts at local time `t` are within the limits. */
  ghost predicate Within(log: seq<int>, t: int, limits: Limits)
  {
    && InSecond(log, t) <= limits.second
    && InMinute(log, t / 60) <= limits.minute
    && InHour(log, t / HOUR) <= limits.hour
  }

  /** What else is counted in the second's and in the minute's cell. */
  ghost function BesidesSecond(log: seq<int>, t: int): nat
  {
    if t % HOUR < 60 then InMinute(log, t / HOUR * 60 + t % HOUR) else 0
  }

  ghost function BesidesMinute(log: seq<int>, t: int): nat
  {
    InSecond(log, t / HOUR * HOUR + t % HOUR / 60)
  }

  /** A frame is refused exactly when a true count is over its limit or what shares
      its cell takes it there. */
  lemma AdmitsExactly(log: seq<int>, t: int, limits: Limits)
    ensures Admits(log, t, limits) ==> Within(log, t, limits)
    ensures Within(log, t, limits) && !Admits(log, t, limits) <==>
      Within(log, t, limits)
      && (InSecond(log, t) + BesidesSecond(log, t) > limits.second
          || InMinute(log, t / 60) + BesidesMinute(log, t) > limits.minute)
  {
    hide InSecond, InMinute, InHour;
    assert t / HOUR * HOUR + t % HOUR == t && t / HOUR * 60 + t % HOUR / 60 == t / 60;
  }

  /** Frames that all fall into one second of an hour. */
  lemma {:induction false} OneSecond(log: seq<int>, t: int)
    requires forall i :: 0 <= i < |log| ==> log[i] == t
    ensures InSecond(log, t) == InMinute(log, t / 60) == InHour(log, t / HOUR) == |log|
    ensures t % HOUR == 0 ==> BesidesSecond(log, t) == BesidesMinute(log, t) == |log|
  {
    if log != [] {
      OneSecond(log[..|log| - 1], t);
      assert t % HOUR == 0 ==> t / HOUR * 60 == t / 60;
    }
  }

  /** How many frames of a burst in the first second of an hour are accepted: the
      first sixty cells of the hour count each of them twice. */
  function FirstSecondQuota(limits: Limits): nat
  {
    1 + Min(Min(limits.second / 2, limits.minute / 2), limits.hour)
  }

  /** A connection object's limiter. It outlives connections: a reused object
      keeps its counts. */
  class Limiter {
    const limits: Limits
    const sampler: Sampler
    var clock: nat

    ghost predicate Valid()
      reads this, sampler, sampler.cells
    {
      sampler.Valid() && sampler.NotAfter(clock + ZONE) && Respects(sampler.log, limits)
    }

    constructor (limits: Limits, now: nat)
      ensures Valid() && this.limits == limits && clock == now && sampler.log == []
      ensures fresh(sampler) && fresh(sampler.cells)
    {
      this.limits := limits;
      clock := now;
      sampler := new Sampler(now);
    }

    /** whenReceivedFrame: the limits are tested at one reading of the clock and
        the frame recorded at a later one. */
    method Receive(now: nat, later: nat) returns (ok: bool)
      requires Valid() && clock <= now <= later
      modifies this, sampler, sampler.cells
      ensures Valid() && clock == later && sampler.cells == old(sampler.cells)
      ensures ok <==> Admits(old(sampler.log), now + ZONE, limits)
      ensures sampler.log == old(sampler.log) + if ok then [later + ZONE] else []
    {
      hide Cell, InHour, Respects;
      var stat := sampler.Report(now);
      ok := !(stat.second > limits.second || stat.minute > limits.minute || stat.hour > limits.hour);
      if ok {
        AdmittedRespects(sampler.log, now + ZONE, later + ZONE, limits);
        sampler.Take(later);
      }
      clock := later;
    }
  }

  /** No counter reaches 2^32: the unsigned int cells never wrap. */
  lemma CountersFit(log: seq<int>, limits: Limits, h: int, k: int)
    requires Respects(log, limits) && limits.hour < 0x4000_0000 && 0 <= k < HOUR
    ensures InHour(log, h) < 0x1_0000_0000 && Cell(log, h, k) < 0x1_0000_0000
  {
    WithinHour(log, h * HOUR + k);
    assert (h * HOUR + k) / HOUR == h;
    if k < 60 {
      WithinHour(log, (h * 60 + k) * 60);
      assert (h * 60 + k) * 60 / 60 == h * 60 + k && (h * 60 + k) * 60 / HOUR == h;
    }
  }

  /** Any sequence of frames on any monotone clock: the accepted ones respect the
      limits. */
  method ReceiveAll(limits: Limits, start: nat, times: seq<(nat, nat)>) returns (accepted: seq<int>)
    requires forall i :: 0 <= i < |times| ==> start <= times[i].0 <= times[i].1
    requires forall i, j :: 0 <= i < j < |times| ==> times[i].1 <= times[j].0
    ensures Respects(accepted, limits)
    ensures forall t :: t in accepted ==> exists i :: 0 <= i < |times| && t == times[i].1 + ZONE
  {
    hide Respects;
    var limiter := new Limiter(limits, start);
    accepted := [];
    for i := 0 to |times|
      invariant limiter.limits == limits && limiter.Valid() && accepted == limiter.sampler.log
      invariant fresh(limiter) && fresh(limiter.sampler) && fresh(limiter.sampler.cells)
      invariant limiter.clock == if i == 0 then start else times[i - 1].1
      invariant forall t :: t in accepted ==> exists j :: 0 <= j < i && t == times[j].1 + ZONE
    {
      var ok := limiter.Receive(times[i].0, times[i].1);
      if ok {
        accepted := accepted + [times[i].1 + ZONE];
      }
    }
  }

  lemma FirstSecondAdmits(log: seq<int>, t: int, limits: Limits)
    requires t % HOUR == 0 && forall i :: 0 <= i < |log| ==> log[i] == t
    ensures Admits(log, t, limits) <==> |log| < FirstSecondQuota(limits)
    ensures Within(log, t, limits) <==> |log| <= Min(Min(limits.second, limits.minute), limits.hour)
  {
    OneSecond(log, t);
    AdmitsExactly(log, t, limits);
    hide InSecond, InMinute, InHour, Cell;
  }

  /** A burst in the first second of an hour: only about half of what the limits
      allow is accepted. */
  method FirstSecondBurst(limits: Limits, utc: nat, n: nat) returns (accepted: nat)
    requires (utc + ZONE) % HOUR == 0
    ensures accepted == Min(n, FirstSecondQuota(limits))
  {
    hide Respects, Admits, Within, FirstSecondQuota;
    var limiter := new Limiter(limits, utc);
    accepted := 0;
    ghost var log: seq<int> := [];
    for i := 0 to n
      invariant limiter.limits == limits && limiter.Valid() && limiter.clock == utc
      invariant fresh(limiter) && fresh(limiter.sampler) && fresh(limiter.sampler.cells)
      invariant log == limiter.sampler.log && accepted == |log| == Min(i, FirstSecondQuota(limits))
      invariant forall j :: 0 <= j < |log| ==> log[j] == utc + ZONE
    {
      FirstSecondAdmits(log, utc + ZONE, limits);
      var ok := limiter.Receive(utc, utc);
      if ok {
        accepted := accepted + 1;
      }
      log := limiter.sampler.log;
    }
  }

  /** With a limit of 10 a second, after six frames in the first second of an hour
      the next is refused although no true count is over its limit. */
  lemma RefusedWithinLimits(log: seq<int>, t: int, limits: Limits)
    requires limits == Limits(10, 100, 1000) && |log| == 6
    requires t % HOUR == 0 && forall i :: 0 <= i < |log| ==> log[i] == t
    ensures Within(log, t, limits) && !Admits(log, t, limits)
  {
    FirstSecondAdmits(log, t, limits);
  }
}
