/** The health of one proxied host: its counters, the two thresholds that make it change queue, and
    what the counters mean in terms of the call results that were reported for it. */
module Health {

  /** The [loadbalance] settings. The two streak limits and the initial counts are stored where the
      program keeps them as unsigned ints; initErr is read by set_overload but is missing from the
      struct the program declares, so here it is one more setting. */
  datatype Config = Config(
    probeNum: int, initSucc: nat, initErr: nat, errRate: real, succRate: real,
    continErrLimit: nat, continSuccLimit: nat)

  datatype Counters = Counters(
    vsucc: nat, verr: nat, rsucc: nat, rerr: nat, continSucc: nat, continErr: nat, overload: bool)

  /** A new host_info, and also what set_idle leaves. */
  function Idle(cfg: Config): Counters {
    Counters(cfg.initSucc, 0, 0, 0, 0, 0, false)
  }

  /** What set_overload leaves. */
  function Overloaded(cfg: Config): Counters {
    Counters(0, cfg.initErr, 0, 0, 0, 0, true)
  }

  function Counted(c: Counters, ok: bool): Counters {
    if ok then
      c.(vsucc := c.vsucc + 1, rsucc := c.rsucc + 1, continSucc := c.continSucc + 1, continErr := 0)
    else
      c.(verr := c.verr + 1, rerr := c.rerr + 1, continErr := c.continErr + 1, continSucc := 0)
  }

  function Rate(part: nat, whole: nat): real
    requires 0 < whole
  {
    part as real / whole as real
  }

  predicate TurnsOverload(cfg: Config, c: Counters)
    requires 0 < c.vsucc + c.verr
  {
    Rate(c.verr, c.vsucc + c.verr) > cfg.errRate || c.continErr >= cfg.continErrLimit
  }

  predicate TurnsIdle(cfg: Config, c: Counters)
    requires 0 < c.vsucc + c.verr
  {
    Rate(c.vsucc, c.vsucc + c.verr) > cfg.succRate || c.continSucc >= cfg.continSuccLimit
  }

  /** The effect of one reported call on the counters of the host it was made to. */
  function Report(cfg: Config, c: Counters, ok: bool): Counters {
    var d := Counted(c, ok);
    if !d.overload && !ok && TurnsOverload(cfg, d) then Overloaded(cfg)
    else if d.overload && ok && TurnsIdle(cfg, d) then Idle(cfg)
    else d
  }

  /** The counters after a whole history of reported results, oldest first. */
  function Reports(cfg: Config, c: Counters, history: seq<bool>): Counters {
    if history == [] then c
    else Report(cfg, Reports(cfg, c, history[..|history| - 1]), history[|history| - 1])
  }

  // ---------------------------------------------------------------- what the counters mean

  function Occurrences(s: seq<bool>, x: bool): nat {
    if s == [] then 0 else Occurrences(s[..|s| - 1], x) + if s[|s| - 1] == x then 1 else 0
  }

  /** The length of the longest suffix of s that consists of x only. */
  function Streak(s: seq<bool>, x: bool): nat {
    if s == [] || s[|s| - 1] != x then 0 else 1 + Streak(s[..|s| - 1], x)
  }

  /** The part of the history reported since the host last changed queue. */
  function SinceFlip(cfg: Config, c: Counters, history: seq<bool>): seq<bool> {
    if history == [] then []
    else
      var before := history[..|history| - 1];
      if Reports(cfg, c, history).overload != Reports(cfg, c, before).overload then []
      else SinceFlip(cfg, c, before) + [history[|history| - 1]]
  }

  /** The number of occurrences is what the name says. */
  lemma {:induction false} OccurrencesMeaning(s: seq<bool>, x: bool)
    ensures Occurrences(s, x) == multiset(s)[x]
    ensures Occurrences(s, true) + Occurrences(s, false) == |s|
  {
    if s != [] {
      var before := s[..|s| - 1];
      OccurrencesMeaning(before, x);
      assert s == before + [s[|s| - 1]];
    }
  }

  /** The flag after the first i results. */
  predicate FlagAt(cfg: Config, c: Counters, history: seq<bool>, i: int)
    requires 0 <= i <= |history|
  {
    Reports(cfg, c, history[..i]).overload
  }

  lemma FlagBefore(cfg: Config, c: Counters, history: seq<bool>, m: nat, i: nat)
    requires i <= m <= |history|
    ensures FlagAt(cfg, c, history[..m], i) == FlagAt(cfg, c, history, i)
  {
    assert history[..m][..i] == history[..i];
  }

  lemma SinceFlipStep(cfg: Config, c: Counters, history: seq<bool>)
    requires history != []
    ensures var m := |history| - 1;
            SinceFlip(cfg, c, history) ==
              if FlagAt(cfg, c, history, m + 1) != FlagAt(cfg, c, history, m) then []
              else SinceFlip(cfg, c, history[..m]) + [history[m]]
  {
    assert history[..|history|] == history;
  }

  /** Place n is where the flag took its present value. */
  ghost predicate StandsSince(cfg: Config, c: Counters, history: seq<bool>, n: int) {
    && 0 <= n <= |history|
    && (forall i :: n <= i <= |history| ==> FlagAt(cfg, c, history, i) == FlagAt(cfg, c, history, |history|))
    && (0 < n ==> FlagAt(cfg, c, history, n - 1) != FlagAt(cfg, c, history, |history|))
  }

  lemma StandsStep(cfg: Config, c: Counters, history: seq<bool>, n: int)
    requires history != [] && StandsSince(cfg, c, history[..|history| - 1], n)
    ensures var m := |history| - 1;
            StandsSince(cfg, c, history,
                        if FlagAt(cfg, c, history, m + 1) != FlagAt(cfg, c, history, m) then m + 1 else n)
  {
    hide FlagAt;
    var m := |history| - 1;
    forall i: nat | i <= m
      ensures FlagAt(cfg, c, history[..m], i) == FlagAt(cfg, c, history, i)
    {
      FlagBefore(cfg, c, history, m, i);
    }
  }

  /** The stretch since the last flip is the longest end of the history over which the flag stood still. */
  lemma {:induction false} SinceFlipMeaning(cfg: Config, c: Counters, history: seq<bool>)
    ensures var n := |history| - |SinceFlip(cfg, c, history)|;
            StandsSince(cfg, c, history, n) && SinceFlip(cfg, c, history) == history[n..]
  {
    if history == [] {
      assert SinceFlip(cfg, c, history) == [] == history[0..];
    } else {
      var m := |history| - 1;
      SinceFlipMeaning(cfg, c, history[..m]);
      SinceFlipStep(cfg, c, history);
      var n := m - |SinceFlip(cfg, c, history[..m])|;
      hide SinceFlip, FlagAt, Reports;
      StandsStep(cfg, c, history, n);
      if FlagAt(cfg, c, history, m + 1) == FlagAt(cfg, c, history, m) {
        assert history[n..] == history[..m][n..] + [history[m]];
      } else {
        assert history[m + 1..] == [];
      }
    }
  }

  /** The counters of a host are exactly the statistics of the results since it last changed queue, and the
      initial count of its side. */
  lemma {:induction false} CountersRefineHistory(cfg: Config, history: seq<bool>)
    ensures var c, s := Reports(cfg, Idle(cfg), history), SinceFlip(cfg, Idle(cfg), history);
            && c.rsucc == Occurrences(s, true) && c.rerr == Occurrences(s, false)
            && c.vsucc == Occurrences(s, true) + (if c.overload then 0 else cfg.initSucc)
            && c.verr == Occurrences(s, false) + (if c.overload then cfg.initErr else 0)
            && c.continSucc == Streak(s, true) && c.continErr == Streak(s, false)
  {
    if history != [] {
      var before := history[..|history| - 1];
      CountersRefineHistory(cfg, before);
      var s := SinceFlip(cfg, Idle(cfg), before);
      var s' := SinceFlip(cfg, Idle(cfg), history);
      assert s' == [] || s'[..|s'| - 1] == s;
    }
  }

  lemma {:induction false} StreakMeaning(s: seq<bool>, x: bool)
    ensures Streak(s, x) <= |s|
    ensures forall i :: |s| - Streak(s, x) <= i < |s| ==> s[i] == x
    ensures Streak(s, x) < |s| ==> s[|s| - Streak(s, x) - 1] != x
    ensures Streak(s, x) == 0 || Streak(s, !x) == 0
  {
    if s != [] && s[|s| - 1] == x {
      StreakMeaning(s[..|s| - 1], x);
    }
  }

  // ---------------------------------------------------------------- the thresholds

  /** No idle host is over its failure thresholds and no overloaded host over its recovery ones. */
  predicate WithinThresholds(cfg: Config, c: Counters) {
    if c.overload then
      (0 < c.vsucc + c.verr ==> Rate(c.vsucc, c.vsucc + c.verr) <= cfg.succRate) && c.continSucc < cfg.continSuccLimit
    else
      (0 < c.vsucc + c.verr ==> Rate(c.verr, c.vsucc + c.verr) <= cfg.errRate) && c.continErr < cfg.continErrLimit
  }

  predicate Sane(cfg: Config) {
    0.0 <= cfg.errRate && 0.0 <= cfg.succRate && 0 < cfg.continErrLimit && 0 < cfg.continSuccLimit
  }

  lemma RateAbove(part: nat, whole: nat, limit: real)
    requires 0 < whole
    ensures Rate(part, whole) > limit <==> part as real > limit * whole as real
  {
    var q := Rate(part, whole);
    assert q * whole as real == part as real;
    if q > limit {
      assert (q - limit) * whole as real > 0.0;
    } else {
      assert (limit - q) * whole as real >= 0.0;
    }
  }

  predicate Exceeds(part: nat, rate: real, whole: nat) {
    part as real > rate * whole as real
  }

  lemma FlipOfCounters(cfg: Config, c: Counters, ok: bool)
    ensures Report(cfg, c, ok).overload != c.overload <==>
              if c.overload then
                ok && (Exceeds(c.vsucc + 1, cfg.succRate, c.vsucc + 1 + c.verr)
                       || c.continSucc + 1 >= cfg.continSuccLimit)
              else
                !ok && (Exceeds(c.verr + 1, cfg.errRate, c.vsucc + c.verr + 1)
                        || c.continErr + 1 >= cfg.continErrLimit)
  {
    hide Rate;
    if c.overload && ok {
      RateAbove(c.vsucc + 1, c.vsucc + 1 + c.verr, cfg.succRate);
    } else if !c.overload && !ok {
      RateAbove(c.verr + 1, c.vsucc + c.verr + 1, cfg.errRate);
    }
  }

  lemma FlipsByCounters(cfg: Config, history: seq<bool>, ok: bool)
    ensures var c, c' := Reports(cfg, Idle(cfg), history), Reports(cfg, Idle(cfg), history + [ok]);
            var s := SinceFlip(cfg, Idle(cfg), history) + [ok];
            c'.overload != c.overload <==>
              if c.overload then
                ok && (Exceeds(Occurrences(s, true), cfg.succRate, cfg.initErr + |s|)
                       || Streak(s, true) >= cfg.continSuccLimit)
              else
                !ok && (Exceeds(Occurrences(s, false), cfg.errRate, cfg.initSucc + |s|)
                        || Streak(s, false) >= cfg.continErrLimit)
  {
    hide Report, Reports, SinceFlip, Exceeds;
    var c, before := Reports(cfg, Idle(cfg), history), SinceFlip(cfg, Idle(cfg), history);
    var s := before + [ok];
    CountersRefineHistory(cfg, history);
    ReportsOneMore(cfg, Idle(cfg), history, ok);
    FlipOfCounters(cfg, c, ok);
    OccurrencesMeaning(before, true);
    assert s[..|before|] == before;
    assert Occurrences(s, ok) == Occurrences(before, ok) + 1 && Streak(s, ok) == Streak(before, ok) + 1;
    assert c.vsucc + c.verr == |before| + if c.overload then cfg.initErr else cfg.initSucc;
  }

  lemma ExceedsMeans(part: nat, rate: real, whole: nat)
    ensures Exceeds(part, rate, whole) <==> rate * (whole as real) < part as real
  {
  }

  /** When a host changes queue, for any history: an idle one at a failure that makes the failures since the
      last change exceed err_rate times the virtual calls, or completes a streak of contin_err_limit; an
      overloaded one at the mirror image of that; and never otherwise. */
  lemma FlipsExactly(cfg: Config, history: seq<bool>, ok: bool)
    ensures var c, c' := Reports(cfg, Idle(cfg), history), Reports(cfg, Idle(cfg), history + [ok]);
            var s := SinceFlip(cfg, Idle(cfg), history) + [ok];
            c'.overload != c.overload <==>
              if c.overload then
                ok && (cfg.succRate * ((cfg.initErr + |s|) as real) < Occurrences(s, true) as real
                       || Streak(s, true) >= cfg.continSuccLimit)
              else
                !ok && (cfg.errRate * ((cfg.initSucc + |s|) as real) < Occurrences(s, false) as real
                        || Streak(s, false) >= cfg.continErrLimit)
  {
    hide Reports, SinceFlip, Exceeds, Occurrences, Streak;
    var s := SinceFlip(cfg, Idle(cfg), history) + [ok];
    FlipsByCounters(cfg, history, ok);
    ExceedsMeans(Occurrences(s, true), cfg.succRate, cfg.initErr + |s|);
    ExceedsMeans(Occurrences(s, false), cfg.errRate, cfg.initSucc + |s|);
  }

  /** One more success can only lower a failure rate (and the other way round). */
  lemma RateFalls(part: nat, whole: nat, limit: real)
    requires 0.0 <= limit
    requires 0 < whole ==> Rate(part, whole) <= limit
    requires part <= whole
    ensures Rate(part, whole + 1) <= limit
  {
    RateAbove(part, whole + 1, limit);
    if 0 < whole {
      RateAbove(part, whole, limit);
    }
    assert limit * (whole + 1) as real == limit * whole as real + limit;
  }

  lemma {:induction false} ThresholdsStep(cfg: Config, c: Counters, ok: bool)
    requires Sane(cfg) && WithinThresholds(cfg, c)
    ensures WithinThresholds(cfg, Report(cfg, c, ok))
  {
    if c.overload && !ok {
      RateFalls(c.vsucc, c.vsucc + c.verr, cfg.succRate);
    } else if !c.overload && ok {
      RateFalls(c.verr, c.vsucc + c.verr, cfg.errRate);
    }
  }

  /** After every report, whatever the history, the host is on the side of the thresholds its queue
      stands for. */
  lemma {:induction false} AlwaysWithinThresholds(cfg: Config, history: seq<bool>)
    requires Sane(cfg)
    ensures WithinThresholds(cfg, Reports(cfg, Idle(cfg), history))
  {
    if history != [] {
      AlwaysWithinThresholds(cfg, history[..|history| - 1]);
      ThresholdsStep(cfg, Reports(cfg, Idle(cfg), history[..|history| - 1]), history[|history| - 1]);
    }
  }

  // ---------------------------------------------------------------- flip bounds

  function Repeat(ok: bool, n: nat): seq<bool> {
    seq(n, _ => ok)
  }

  /** The queue flag changes at the n-th of a run of equal results and not before. */
  ghost predicate FirstFlipAt(cfg: Config, c: Counters, ok: bool, n: nat) {
    !FlagKept(cfg, c, ok, n) && forall j: nat :: j < n ==> FlagKept(cfg, c, ok, j)
  }

  lemma FlipPrefix(cfg: Config, c: Counters, ok: bool, n: nat, j: nat)
    requires FirstFlipAt(cfg, c, ok, n) && j < n
    ensures FlagKept(cfg, c, ok, j)
  {
  }

  /** n equal results in a row have left the host in its queue. */
  predicate FlagKept(cfg: Config, c: Counters, ok: bool, n: nat) {
    Reports(cfg, c, Repeat(ok, n)).overload == c.overload
  }

  /** The n-th consecutive failure of a fresh idle host trips a threshold. */
  predicate TripsOverload(cfg: Config, n: nat) {
    0 < n && (n >= cfg.continErrLimit || n as real > cfg.errRate * (cfg.initSucc + n) as real)
  }

  predicate TripsIdle(cfg: Config, n: nat) {
    0 < n && (n >= cfg.continSuccLimit || n as real > cfg.succRate * (n + cfg.initErr) as real)
  }

  ghost predicate LeastOverloadTrip(cfg: Config, n: nat) {
    TripsOverload(cfg, n) && forall j: nat :: j < n ==> !TripsOverload(cfg, j)
  }

  ghost predicate LeastIdleTrip(cfg: Config, n: nat) {
    TripsIdle(cfg, n) && forall j: nat :: j < n ==> !TripsIdle(cfg, j)
  }

  lemma RepeatInit(ok: bool, n: nat)
    requires 0 < n
    ensures Repeat(ok, n)[..n - 1] == Repeat(ok, n - 1)
  {
  }

  /** While the flag has not changed, a run of equal results just counts up. */
  lemma {:induction false} RunOfFailures(cfg: Config, c: Counters, n: nat)
    requires !c.overload
    requires forall j: nat :: j < n ==> FlagKept(cfg, c, false, j)
    ensures 0 < n ==> Reports(cfg, c, Repeat(false, n)) ==
                        Report(cfg, c.(verr := c.verr + n - 1, rerr := c.rerr + n - 1, continErr := c.continErr + n - 1,
                                       continSucc := if n == 1 then c.continSucc else 0), false)
  {
    if 0 < n {
      RepeatInit(false, n);
      RunOfFailures(cfg, c, n - 1);
      assert FlagKept(cfg, c, false, n - 1);
    }
  }

  lemma {:induction false} RunOfSuccesses(cfg: Config, c: Counters, n: nat)
    requires c.overload
    requires forall j: nat :: j < n ==> FlagKept(cfg, c, true, j)
    ensures 0 < n ==> Reports(cfg, c, Repeat(true, n)) ==
                        Report(cfg, c.(vsucc := c.vsucc + n - 1, rsucc := c.rsucc + n - 1,
                          continSucc := c.continSucc + n - 1,
                                       continErr := if n == 1 then c.continErr else 0), true)
  {
    if 0 < n {
      RepeatInit(true, n);
      RunOfSuccesses(cfg, c, n - 1);
      assert FlagKept(cfg, c, true, n - 1);
    }
  }

  lemma FailureStep(cfg: Config, n: nat)
    requires 0 < n
    requires forall j: nat :: j < n ==> FlagKept(cfg, Idle(cfg), false, j)
    ensures FlagKept(cfg, Idle(cfg), false, n) <==> !TripsOverload(cfg, n)
  {
    RunOfFailures(cfg, Idle(cfg), n);
    RateAbove(n, cfg.initSucc + n, cfg.errRate);
  }

  lemma SuccessStep(cfg: Config, n: nat)
    requires 0 < n
    requires forall j: nat :: j < n ==> FlagKept(cfg, Overloaded(cfg), true, j)
    ensures FlagKept(cfg, Overloaded(cfg), true, n) <==> !TripsIdle(cfg, n)
  {
    RunOfSuccesses(cfg, Overloaded(cfg), n);
    RateAbove(n, n + cfg.initErr, cfg.succRate);
  }

  lemma {:induction false} NoFlipBefore(cfg: Config, n: nat)
    requires forall j: nat :: j < n ==> !TripsOverload(cfg, j)
    ensures forall j: nat :: j < n ==> FlagKept(cfg, Idle(cfg), false, j)
  {
    if 0 < n {
      NoFlipBefore(cfg, n - 1);
      if 1 < n {
        FailureStep(cfg, n - 1);
      }
    }
  }

  lemma {:induction false} NoRecoveryBefore(cfg: Config, n: nat)
    requires forall j: nat :: j < n ==> !TripsIdle(cfg, j)
    ensures forall j: nat :: j < n ==> FlagKept(cfg, Overloaded(cfg), true, j)
  {
    if 0 < n {
      NoRecoveryBefore(cfg, n - 1);
      if 1 < n {
        SuccessStep(cfg, n - 1);
      }
    }
  }

  /** A fresh idle host that only fails goes to overload exactly at the least n that reaches the
      streak limit or exceeds errRate * (initSucc + n). */
  lemma FreshHostFlip(cfg: Config, n: nat)
    ensures FirstFlipAt(cfg, Idle(cfg), false, n) <==> LeastOverloadTrip(cfg, n)
  {
    if FirstFlipAt(cfg, Idle(cfg), false, n) {
      forall j: nat | j < n
        ensures !TripsOverload(cfg, j)
      {
        if 0 < j {
          FailureStep(cfg, j);
        }
      }
      FailureStep(cfg, n);
    } else if LeastOverloadTrip(cfg, n) {
      NoFlipBefore(cfg, n);
      FailureStep(cfg, n);
      assert false;
    }
  }

  /** The mirror image: recovery of a host that just went to overload and then only succeeds. */
  lemma OverloadedHostFlip(cfg: Config, n: nat)
    ensures FirstFlipAt(cfg, Overloaded(cfg), true, n) <==> LeastIdleTrip(cfg, n)
  {
    if FirstFlipAt(cfg, Overloaded(cfg), true, n) {
      forall j: nat | j < n
        ensures !TripsIdle(cfg, j)
      {
        if 0 < j {
          SuccessStep(cfg, j);
        }
      }
      SuccessStep(cfg, n);
    } else if LeastIdleTrip(cfg, n) {
      NoRecoveryBefore(cfg, n);
      SuccessStep(cfg, n);
      assert false;
    }
  }

  /** Whatever the counters of an idle host, a run of max(1, continErrLimit) failures contains the
      flip. */
  lemma FailuresAlwaysFlip(cfg: Config, c: Counters)
    requires !c.overload
    ensures var limit := if cfg.continErrLimit == 0 then 1 else cfg.continErrLimit;
            exists n: nat :: 0 < n <= limit && FirstFlipAt(cfg, c, false, n)
  {
    var limit := if cfg.continErrLimit == 0 then 1 else cfg.continErrLimit;
    FindFlip(cfg, c, false, limit);
    if forall j: nat :: j < limit ==> FlagKept(cfg, c, false, j) {
      RunOfFailures(cfg, c, limit);
      assert !FlagKept(cfg, c, false, limit);
    }
  }

  lemma SuccessesAlwaysFlip(cfg: Config, c: Counters)
    requires c.overload
    ensures var limit := if cfg.continSuccLimit == 0 then 1 else cfg.continSuccLimit;
            exists n: nat :: 0 < n <= limit && FirstFlipAt(cfg, c, true, n)
  {
    var limit := if cfg.continSuccLimit == 0 then 1 else cfg.continSuccLimit;
    FindFlip(cfg, c, true, limit);
    if forall j: nat :: j < limit ==> FlagKept(cfg, c, true, j) {
      RunOfSuccesses(cfg, c, limit);
      assert !FlagKept(cfg, c, true, limit);
    }
  }

  /** Either the flag is unchanged through n results or the first change is among them. */
  lemma {:induction false} FindFlip(cfg: Config, c: Counters, ok: bool, n: nat)
    ensures (forall j: nat :: j <= n ==> FlagKept(cfg, c, ok, j))
            || exists k: nat :: 0 < k <= n && FirstFlipAt(cfg, c, ok, k)
  {
    if 0 < n {
      FindFlip(cfg, c, ok, n - 1);
      if forall j: nat :: j <= n - 1 ==> FlagKept(cfg, c, ok, j) {
        if !FlagKept(cfg, c, ok, n) {
          assert FirstFlipAt(cfg, c, ok, n);
        }
      }
    }
  }

  // ---------------------------------------------------------------- when the thresholds are kept

  lemma ReportsOneMore(cfg: Config, c: Counters, history: seq<bool>, ok: bool)
    ensures Reports(cfg, c, history + [ok]) == Report(cfg, Reports(cfg, c, history), ok)
  {
    assert (history + [ok])[..|history|] == history;
  }

  lemma OverloadIsReachable(cfg: Config) returns (history: seq<bool>)
    ensures Reports(cfg, Idle(cfg), history) == Overloaded(cfg)
  {
    FailuresAlwaysFlip(cfg, Idle(cfg));
    var n: nat :| 0 < n && FirstFlipAt(cfg, Idle(cfg), false, n);
    history := Repeat(false, n);
    RepeatInit(false, n);
    FlipPrefix(cfg, Idle(cfg), false, n, n - 1);
  }

  /** A host is within its thresholds after every history exactly when both rates are non-negative
      and both streak limits positive. */
  lemma WithinThresholdsIff(cfg: Config)
    ensures (forall history :: WithinThresholds(cfg, Reports(cfg, Idle(cfg), history))) <==> Sane(cfg)
  {
    if Sane(cfg) {
      forall history
        ensures WithinThresholds(cfg, Reports(cfg, Idle(cfg), history))
      {
        AlwaysWithinThresholds(cfg, history);
      }
    } else {
      var down := OverloadIsReachable(cfg);
      ReportsOneMore(cfg, Idle(cfg), [], true);
      ReportsOneMore(cfg, Idle(cfg), down, false);
      assert Reports(cfg, Idle(cfg), []) == Idle(cfg);
      assert !WithinThresholds(cfg, Reports(cfg, Idle(cfg), []))
             || !WithinThresholds(cfg, Reports(cfg, Idle(cfg), [true]))
             || !WithinThresholds(cfg, Reports(cfg, Idle(cfg), down))
             || !WithinThresholds(cfg, Reports(cfg, Idle(cfg), down + [false]));
    }
  }
}
