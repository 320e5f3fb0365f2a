/** Which host the i-th of a row of choices returns, with no reports or updates in between. */
module Schedule {
  import opened Packing
  import opened Health
  import opened Balance
  import opened Division

  predicate HasHosts(q: Queues) {
    q.idle != [] || q.over != []
  }

  /** The queues after k choices. */
  function After(b: Build, cfg: Config, q: Queues, k: nat): (r: Queues)
    requires HasHosts(q)
    ensures HasHosts(r)
  {
    if k == 0 then q else Choose(b, cfg, After(b, cfg, q, k - 1)).0
  }

  /** What choice number i (from 0) returns. */
  function Pick(b: Build, cfg: Config, q: Queues, i: nat): Choice
    requires HasHosts(q)
  {
    Choose(b, cfg, After(b, cfg, q, i)).1
  }

  function Rotate<T>(s: seq<T>, k: nat): (t: seq<T>)
    requires s != []
    ensures |t| == |s|
  {
    var r := k % |s|;
    s[r..] + s[..r]
  }

  lemma TurnRotates<T>(s: seq<T>, k: nat)
    requires s != []
    ensures Turn(Rotate(s, k)) == Rotate(s, k + 1)
    ensures Rotate(s, k)[0] == s[k % |s|]
  {
    NextQuotient(k, |s|);
  }

  // ---------------------------------------------------------------- no host overloaded

  lemma {:induction false} RoundRobinState(b: Build, cfg: Config, q: Queues, k: nat)
    requires q.idle != [] && q.over == []
    ensures After(b, cfg, q, k) == q.(idle := Rotate(q.idle, k))
  {
    hide Rotate, Turn;
    if k == 0 {
      AtStart(cfg, q);
    } else {
      RoundRobinState(b, cfg, q, k - 1);
      TurnRotates(q.idle, k - 1);
    }
  }

  /** With no overloaded host, choice i returns host i modulo n of the starting list; the list after
      k choices is its rotation by k, and any n consecutive choices go once through that list. */
  lemma RoundRobin(b: Build, cfg: Config, q: Queues, k: nat)
    requires q.idle != [] && q.over == []
    ensures Pick(b, cfg, q, k) == Picked(q.idle[k % |q.idle|])
    ensures After(b, cfg, q, k).idle == Rotate(q.idle, k)
    ensures forall i: nat :: i < |q.idle| ==> Pick(b, cfg, q, k + i) == Picked(After(b, cfg, q, k).idle[i])
  {
    hide Rotate, Turn;
    RoundRobinState(b, cfg, q, k);
    TurnRotates(q.idle, k);
    forall i: nat | i < |q.idle|
      ensures Pick(b, cfg, q, k + i) == Picked(After(b, cfg, q, k).idle[i])
    {
      RoundRobinState(b, cfg, q, k + i);
      TurnRotates(q.idle, k + i);
      RotateIndex(q.idle, k, i);
    }
  }

  lemma {:induction false} RotateIndex<T>(s: seq<T>, k: nat, i: nat)
    requires i < |s|
    ensures Rotate(s, k)[i] == s[(k + i) % |s|]
  {
    var n := |s|;
    var d, r := k / n, k % n;
    assert k == d * n + r;
    if r + i < n {
      Quotient(k + i, n, d, r + i);
    } else {
      assert k + i == (d + 1) * n + (r + i - n);
      Quotient(k + i, n, d + 1, r + i - n);
    }
  }

  // ---------------------------------------------------------------- probing

  function Period(cfg: Config): nat {
    if cfg.probeNum < 0 then 1 else cfg.probeNum + 1
  }

  /** The number of choices before the first probe. */
  function Wait(cfg: Config, q: Queues): nat {
    if cfg.probeNum <= q.access then 0 else cfg.probeNum - q.access
  }

  predicate IsProbe(cfg: Config, q: Queues, i: nat) {
    Wait(cfg, q) <= i && (i - Wait(cfg, q)) % Period(cfg) == 0
  }

  /** The number of probes among the first k choices. */
  function Probes(cfg: Config, q: Queues, k: nat): nat {
    if k <= Wait(cfg, q) then 0 else (k - Wait(cfg, q) - 1) / Period(cfg) + 1
  }

  function AccessAfter(cfg: Config, q: Queues, k: nat): int {
    if k <= Wait(cfg, q) then q.access + k else (k - Wait(cfg, q) - 1) % Period(cfg)
  }

  lemma ProbesStep(cfg: Config, q: Queues, k: nat)
    ensures Probes(cfg, q, k + 1) == Probes(cfg, q, k) + (if IsProbe(cfg, q, k) then 1 else 0)
    ensures IsProbe(cfg, q, k) <==> cfg.probeNum <= AccessAfter(cfg, q, k)
    ensures AccessAfter(cfg, q, k + 1) == if IsProbe(cfg, q, k) then 0 else AccessAfter(cfg, q, k) + 1
  {
    var w, p := Wait(cfg, q), Period(cfg);
    if w < k {
      NextQuotient(k - w - 1, p);
    } else if k == w {
      Quotient(0, p, 0, 0);
    }
  }

  lemma {:induction false} ProbesBound(cfg: Config, q: Queues, k: nat)
    ensures Probes(cfg, q, k) <= k
  {
    if 0 < k {
      ProbesBound(cfg, q, k - 1);
      ProbesStep(cfg, q, k - 1);
    }
  }

  lemma AtStart(cfg: Config, q: Queues)
    ensures Probes(cfg, q, 0) == 0 && AccessAfter(cfg, q, 0) == q.access
    ensures q.over != [] ==> Rotate(q.over, 0) == q.over
    ensures q.idle != [] ==> Rotate(q.idle, 0) == q.idle
  {
  }

  /** One choice that may probe, by whether the probe is due. */
  lemma ChooseByDue(b: Build, cfg: Config, q: Queues)
    requires q.over != [] && (q.idle == [] || b == AsDocumented)
    ensures var due := cfg.probeNum <= q.access;
            Choose(b, cfg, q) ==
            if due then (q.(access := 0, over := Turn(q.over)), Picked(q.over[0]))
            else if q.idle == [] then (q.(access := q.access + 1), NoneFree)
            else (q.(access := q.access + 1, idle := Turn(q.idle)), Picked(q.idle[0]))
  {
  }

  /** The same for the program as written with both queues non-empty. */
  lemma ChooseTwiceByDue(cfg: Config, q: Queues)
    requires q.over != [] && q.idle != []
    ensures var due := cfg.probeNum <= q.access;
            Choose(AsWritten, cfg, q) ==
            if due then (q.(access := 0, over := Turn(q.over), idle := Turn(q.idle)), Picked(q.idle[0]))
            else (q.(access := q.access + 1, idle := Turn(Turn(q.idle))), Picked(Turn(q.idle)[0]))
  {
  }

  /** The state after k choices when there are overloaded hosts: all builds if no host is idle, the
      documented one otherwise. */
  lemma {:induction false} ProbeState(b: Build, cfg: Config, q: Queues, k: nat)
    requires q.over != [] && (q.idle == [] || b == AsDocumented)
    ensures Probes(cfg, q, k) <= k
    ensures After(b, cfg, q, k) ==
            q.(access := AccessAfter(cfg, q, k), over := Rotate(q.over, Probes(cfg, q, k)),
               idle := if q.idle == [] then [] else Rotate(q.idle, k - Probes(cfg, q, k)))
  {
    hide Rotate, Probes, AccessAfter, IsProbe, Choose, Turn;
    ProbesBound(cfg, q, k);
    if k == 0 {
      AtStart(cfg, q);
    } else {
      ProbeState(b, cfg, q, k - 1);
      ChooseByDue(b, cfg, After(b, cfg, q, k - 1));
      ProbesBound(cfg, q, k - 1);
      ProbesStep(cfg, q, k - 1);
      TurnRotates(q.over, Probes(cfg, q, k - 1));
      if q.idle != [] {
        TurnRotates(q.idle, k - 1 - Probes(cfg, q, k - 1));
      }
    }
  }

  /** What choice i returns: at a probe the next overloaded host in turn, otherwise the next idle
      host in turn, or the overload answer when there is none. */
  lemma ProbePick(b: Build, cfg: Config, q: Queues, i: nat)
    requires q.over != [] && (q.idle == [] || b == AsDocumented)
    ensures Probes(cfg, q, i) <= i
    ensures Pick(b, cfg, q, i) ==
            if IsProbe(cfg, q, i) then Picked(q.over[Probes(cfg, q, i) % |q.over|])
            else if q.idle == [] then NoneFree
            else Picked(q.idle[(i - Probes(cfg, q, i)) % |q.idle|])
  {
    ProbeState(b, cfg, q, i);
    ProbesStep(cfg, q, i);
    TurnRotates(q.over, Probes(cfg, q, i));
    if q.idle != [] {
      TurnRotates(q.idle, i - Probes(cfg, q, i));
    }
  }

  lemma ProbeNumber(cfg: Config, q: Queues, j: nat)
    ensures var i := Wait(cfg, q) + j * Period(cfg); IsProbe(cfg, q, i) && Probes(cfg, q, i) == j
  {
    var p := Period(cfg);
    Quotient(j * p, p, j, 0);
    if 0 < j {
      assert j * p - 1 == (j - 1) * p + (p - 1);
      Quotient(j * p - 1, p, j - 1, p - 1);
    }
  }

  lemma {:induction false} ProbesMonotone(cfg: Config, q: Queues, i: nat, j: nat)
    requires i <= j
    ensures Probes(cfg, q, i) <= Probes(cfg, q, j)
    decreases j - i
  {
    if i < j {
      ProbesMonotone(cfg, q, i, j - 1);
      ProbesStep(cfg, q, j - 1);
    }
  }

  lemma OneMoreProbe(cfg: Config, q: Queues, i: nat)
    requires Wait(cfg, q) < i + Period(cfg)
    ensures Probes(cfg, q, i + Period(cfg)) == Probes(cfg, q, i) + 1
    ensures i <= Wait(cfg, q) + Probes(cfg, q, i) * Period(cfg) < i + Period(cfg)
  {
    var w, p := Wait(cfg, q), Period(cfg);
    if i <= w {
      Quotient(i + p - w - 1, p, 0, i + p - w - 1);
    } else {
      var x := i - w - 1;
      assert x == x / p * p + x % p;
      assert x + p == (x / p + 1) * p + x % p;
      Quotient(x + p, p, x / p + 1, x % p);
    }
  }

  /** Any period of probeNum + 1 choices that reaches the first probe contains exactly one probe. */
  lemma OneProbePerPeriod(cfg: Config, q: Queues, i: nat)
    requires Wait(cfg, q) < i + Period(cfg)
    ensures exists j: nat :: i <= j < i + Period(cfg) && IsProbe(cfg, q, j)
    ensures forall j: nat, j': nat :: i <= j < j' < i + Period(cfg) && IsProbe(cfg, q, j) ==> !IsProbe(cfg, q, j')
  {
    OneMoreProbe(cfg, q, i);
    ProbeNumber(cfg, q, Probes(cfg, q, i));
    forall j: nat, j': nat | i <= j < j' < i + Period(cfg) && IsProbe(cfg, q, j)
      ensures !IsProbe(cfg, q, j')
    {
      ProbesStep(cfg, q, j);
      ProbesStep(cfg, q, j');
      ProbesMonotone(cfg, q, i, j);
      ProbesMonotone(cfg, q, j + 1, j');
      ProbesMonotone(cfg, q, j' + 1, i + Period(cfg));
    }
  }

  /** The overloaded hosts are probed in turn: the first probe comes when the counter has reached probeNum,
      and then every choice number probeNum + 1; probe number j returns host j modulo m. So m periods
      return each of m overloaded hosts exactly once. */
  lemma ProbesGoRound(b: Build, cfg: Config, q: Queues, j: nat)
    requires q.over != [] && (q.idle == [] || b == AsDocumented)
    ensures Pick(b, cfg, q, Wait(cfg, q) + j * Period(cfg)) == Picked(q.over[j % |q.over|])
    ensures Wait(cfg, q) == if q.access < cfg.probeNum then cfg.probeNum - q.access else 0
    ensures 0 <= cfg.probeNum ==> Period(cfg) == cfg.probeNum + 1
  {
    ProbeNumber(cfg, q, j);
    ProbePick(b, cfg, q, Wait(cfg, q) + j * Period(cfg));
  }

  lemma ProbeIndex(cfg: Config, q: Queues, j: nat)
    requires IsProbe(cfg, q, j)
    ensures j == Wait(cfg, q) + Probes(cfg, q, j) * Period(cfg)
  {
    var x, p := j - Wait(cfg, q), Period(cfg);
    assert x == x / p * p;
    ProbeNumber(cfg, q, x / p);
  }

  /** Which probes fall among the m periods from choice i on: the next m ones. */
  lemma ProbesOfRound(cfg: Config, q: Queues, i: nat, j: nat, m: nat)
    requires Wait(cfg, q) < i + Period(cfg) && IsProbe(cfg, q, j)
    ensures i <= j < i + m * Period(cfg) <==> Probes(cfg, q, i) <= Probes(cfg, q, j) < Probes(cfg, q, i) + m
  {
    hide Wait, Period, Probes, IsProbe;
    OneMoreProbe(cfg, q, i);
    ProbeIndex(cfg, q, j);
    WindowAt(i, Wait(cfg, q), Period(cfg), Probes(cfg, q, i), Probes(cfg, q, j), m);
  }

  /** Over m * (probeNum + 1) choices that reach the first probe, each of the m overloaded hosts is
      returned exactly once. */
  lemma EachProbedOnce(b: Build, cfg: Config, q: Queues, i: nat, h: UInt64)
    requires Wf(q) && h in q.over && (q.idle == [] || b == AsDocumented)
    requires Wait(cfg, q) < i + Period(cfg)
    ensures var n := |q.over| * Period(cfg);
            exists j: nat :: i <= j < i + n && Pick(b, cfg, q, j) == Picked(h)
                             && forall j': nat :: i <= j' < i + n && Pick(b, cfg, q, j') == Picked(h) ==> j' == j
  {
    hide Wait, Period, Probes, IsProbe, Pick, Wf;
    var m := |q.over|;
    var c: nat :| c < m && q.over[c] == h;
    var k := ResidueOnce(Probes(cfg, q, i), c, m);
    var j := Wait(cfg, q) + k * Period(cfg);
    ProbeNumber(cfg, q, k);
    ProbesOfRound(cfg, q, i, j, m);
    ProbesGoRound(b, cfg, q, k);
    forall j': nat | i <= j' < i + m * Period(cfg) && Pick(b, cfg, q, j') == Picked(h)
      ensures j' == j
    {
      OnlyProbesReturnOverloaded(b, cfg, q, j', h);
      ProbesOfRound(cfg, q, i, j', m);
      ProbeIndex(cfg, q, j');
      SameHost(q, Probes(cfg, q, j') % m, c);
    }
  }

  lemma SameHost(q: Queues, c: nat, c': nat)
    requires Wf(q) && c < |q.over| && c' < |q.over| && q.over[c] == q.over[c']
    ensures c == c'
  {
  }

  /** A choice returns an overloaded host only as a probe, and then the one whose turn it is. */
  lemma OnlyProbesReturnOverloaded(b: Build, cfg: Config, q: Queues, i: nat, h: UInt64)
    requires Wf(q) && h in q.over && (q.idle == [] || b == AsDocumented)
    requires Pick(b, cfg, q, i) == Picked(h)
    ensures IsProbe(cfg, q, i) && q.over[Probes(cfg, q, i) % |q.over|] == h
  {
    hide Pick;
    ProbePick(b, cfg, q, i);
  }

  /** With every host overloaded, a choice succeeds exactly when it is a probe. */
  lemma OnlyProbesSucceed(b: Build, cfg: Config, q: Queues, i: nat)
    requires q.over != [] && q.idle == []
    ensures Pick(b, cfg, q, i).Picked? <==> IsProbe(cfg, q, i)
  {
    ProbePick(b, cfg, q, i);
  }

  // ---------------------------------------------------------------- the mixed case as written

  /** As written, an overloaded host is returned exactly when no host is idle and a probe is due:
      while any host is idle the probe is taken and thrown away. */
  lemma OverloadedReturnedIff(cfg: Config, q: Queues)
    requires Wf(q) && HasHosts(q)
    ensures var c := Choose(AsWritten, cfg, q).1;
            (c.Picked? && c.key in q.over) <==> q.idle == [] && cfg.probeNum <= q.access
  {
    if q.idle != [] {
      TurnMeaning(q.idle);
      assert Turn(q.idle)[0] in Turn(q.idle) && q.idle[0] in q.idle;
    }
  }

  lemma {:induction false} MixedState(cfg: Config, q: Queues, k: nat)
    requires q.over != [] && q.idle != []
    ensures Probes(cfg, q, k) <= k
    ensures After(AsWritten, cfg, q, k) ==
            q.(access := AccessAfter(cfg, q, k), over := Rotate(q.over, Probes(cfg, q, k)),
               idle := Rotate(q.idle, 2 * k - Probes(cfg, q, k)))
  {
    hide Rotate, Probes, AccessAfter, IsProbe, Choose, Turn;
    ProbesBound(cfg, q, k);
    if k == 0 {
      AtStart(cfg, q);
    } else {
      MixedState(cfg, q, k - 1);
      ChooseTwiceByDue(cfg, After(AsWritten, cfg, q, k - 1));
      ProbesBound(cfg, q, k - 1);
      ProbesStep(cfg, q, k - 1);
      var turns := 2 * (k - 1) - Probes(cfg, q, k - 1);
      TurnRotates(q.over, Probes(cfg, q, k - 1));
      TurnRotates(q.idle, turns);
      TurnRotates(q.idle, turns + 1);
    }
  }

  /** After the first probe the access counter stays in [0, probeNum], wherever it started. */
  lemma AccessRange(b: Build, cfg: Config, q: Queues, k: nat)
    requires q.over != [] && Wait(cfg, q) < k && 0 <= cfg.probeNum
    ensures 0 <= After(b, cfg, q, k).access <= cfg.probeNum
  {
    if q.idle == [] || b == AsDocumented {
      ProbeState(b, cfg, q, k);
    } else {
      MixedState(cfg, q, k);
    }
  }

  /** The exact schedule of the program as written while both queues are non-empty: an ordinary
      choice turns the idle queue twice, a probe once, and always an idle host is returned. */
  lemma MixedPick(cfg: Config, q: Queues, i: nat)
    requires q.over != [] && q.idle != []
    ensures Probes(cfg, q, i) <= i
    ensures Pick(AsWritten, cfg, q, i) ==
            Picked(q.idle[(2 * i - Probes(cfg, q, i) + if IsProbe(cfg, q, i) then 0 else 1) % |q.idle|])
  {
    hide Rotate, Turn, Probes, IsProbe, Choose;
    MixedState(cfg, q, i);
    ChooseTwiceByDue(cfg, After(AsWritten, cfg, q, i));
    ProbesStep(cfg, q, i);
    var turns := 2 * i - Probes(cfg, q, i);
    TurnRotates(q.idle, turns);
    TurnRotates(q.idle, turns + 1);
  }

  lemma OddIndex(i: nat, n: nat)
    requires 0 < n && n % 2 == 0
    ensures (2 * i + 1) % n % 2 == 1
  {
    var x := 2 * i + 1;
    var h := n / 2;
    assert x == x / n * n + x % n;
    assert x / n * n == 2 * (x / n * h);
  }

  /** A consequence: with an even number of idle hosts, every choice before the first probe falls on
      an odd position, so half of the idle hosts get no calls. With two idle hosts one gets all. */
  lemma EvenIdleStarves(cfg: Config, q: Queues, i: nat)
    requires q.over != [] && q.idle != [] && |q.idle| % 2 == 0
    requires i < Wait(cfg, q)
    ensures var j := (2 * i + 1) % |q.idle|;
            j % 2 == 1 && Pick(AsWritten, cfg, q, i) == Picked(q.idle[j])
  {
    MixedPick(cfg, q, i);
    OddIndex(i, |q.idle|);
  }
}
