/** What one DNS answer and one status report mean for the queues as a whole. */
module Reconcile {
  import opened Packing
  import opened Health
  import opened Balance

  function KeySequence(rsp: seq<Address>): seq<UInt64> {
    seq(|rsp|, i requires 0 <= i < |rsp| => KeyOf(rsp[i]))
  }

  /** The keys not known before, each at its first occurrence, in order. */
  function FirstSeen(keys: seq<UInt64>, known: set<UInt64>): seq<UInt64> {
    if keys == [] then []
    else if keys[0] in known then FirstSeen(keys[1..], known)
    else [keys[0]] + FirstSeen(keys[1..], known + {keys[0]})
  }

  lemma {:induction false} FirstSeenAtEnd(keys: seq<UInt64>, k: UInt64, known: set<UInt64>)
    ensures FirstSeen(keys + [k], known) == FirstSeen(keys, known) + if k in known || k in keys then [] else [k]
    decreases |keys|
  {
    if keys == [] {
      assert keys + [k] == [k];
      assert [k][1..] == [];
    } else {
      assert (keys + [k])[1..] == keys[1..] + [k];
      FirstSeenAtEnd(keys[1..], k, if keys[0] in known then known else known + {keys[0]});
      assert k in keys <==> k == keys[0] || k in keys[1..];
    }
  }

  lemma KeySequenceMembers(rsp: seq<Address>)
    ensures forall k :: k in KeySequence(rsp) <==> k in Keys(rsp)
  {
    hide KeyOf;
    forall k
      ensures k in KeySequence(rsp) <==> k in Keys(rsp)
    {
      if k in Keys(rsp) {
        var i :| 0 <= i < |rsp| && KeyOf(rsp[i]) == k;
        assert KeySequence(rsp)[i] == k;
      }
    }
  }

  lemma {:induction false} InsertAllIdle(cfg: Config, q: Queues, rsp: seq<Address>)
    ensures InsertAll(cfg, q, rsp).idle == q.idle + FirstSeen(KeySequence(rsp), q.hosts.Keys)
  {
    hide KeyOf;
    if rsp != [] {
      var n := |rsp| - 1;
      InsertAllIdle(cfg, q, rsp[..n]);
      InsertAllHosts(cfg, q, rsp[..n]);
      KeySequenceMembers(rsp[..n]);
      FirstSeenAtEnd(KeySequence(rsp[..n]), KeyOf(rsp[n]), q.hosts.Keys);
      assert KeySequence(rsp) == KeySequence(rsp[..n]) + [KeyOf(rsp[n])];
    }
  }

  lemma {:induction false} WithoutAppend(s: seq<UInt64>, t: seq<UInt64>, gone: set<UInt64>)
    ensures Without(s + t, gone) == Without(s, gone) + Without(t, gone)
  {
    if s == [] {
      assert s + t == t;
    } else {
      assert (s + t)[1..] == s[1..] + t;
      WithoutAppend(s[1..], t, gone);
    }
  }

  lemma {:induction false} WithoutNothing(s: seq<UInt64>, gone: set<UInt64>)
    requires forall k :: k in s ==> k !in gone
    ensures Without(s, gone) == s
  {
    if s != [] {
      WithoutNothing(s[1..], gone);
    }
  }

  lemma {:induction false} FirstSeenMembers(keys: seq<UInt64>, known: set<UInt64>)
    ensures forall k :: k in FirstSeen(keys, known) <==> k in keys && k !in known
    decreases |keys|
  {
    if keys != [] {
      FirstSeenMembers(keys[1..], if keys[0] in known then known else known + {keys[0]});
      assert forall k :: k in keys <==> k == keys[0] || k in keys[1..];
    }
  }

  /** The queues after an update, in either build: the survivors in their old order, and behind the
      idle ones the newcomers in the order of the answer, each once. Survivors keep their counters
      and flag, newcomers start fresh. */
  lemma UpdateReconciles(b: Build, cfg: Config, q: Queues, rsp: seq<Address>)
    requires Wf(q) && Vanished(q, rsp) !! q.freed
    ensures var q' := Update(b, cfg, q, rsp);
            && q'.idle == Without(q.idle, Vanished(q, rsp)) + FirstSeen(KeySequence(rsp), q.hosts.Keys)
            && q'.over == Without(q.over, Vanished(q, rsp))
            && q'.access == q.access
            && q'.freed == (if b == AsDocumented then q.freed - Vanished(q, rsp) else q.freed + Vanished(q, rsp))
            && (forall k :: k in Keys(rsp) ==>
                 k in q'.hosts
                 && if k in q.hosts then q'.hosts[k] == q.hosts[k]
                    else q'.hosts[k].counters == Idle(cfg) && Pack(q'.hosts[k].ip, q'.hosts[k].port) == k)
    ensures Update(AsDocumented, cfg, q, rsp).hosts.Keys == Keys(rsp)
    ensures Update(AsWritten, cfg, q, rsp).hosts.Keys == q.hosts.Keys + Keys(rsp)
  {
    hide KeyOf, Pack;
    var gone := Vanished(q, rsp);
    InsertAllKeepsWf(cfg, q, rsp);
    InsertAllHosts(cfg, q, rsp);
    InsertAllIdle(cfg, q, rsp);
    RemoveKeepsWf(b, InsertAll(cfg, q, rsp), gone);
    var newcomers := FirstSeen(KeySequence(rsp), q.hosts.Keys);
    WithoutAppend(q.idle, newcomers, gone);
    KeySequenceMembers(rsp);
    FirstSeenMembers(KeySequence(rsp), q.hosts.Keys);
    WithoutNothing(newcomers, gone);
  }

  /** Applying the same answer twice changes nothing more (the documented program; as written, the
      second application is defined only if the first dropped nothing). */
  lemma UpdateTwice(cfg: Config, q: Queues, rsp: seq<Address>)
    requires Wf(q) && q.freed == {}
    ensures var q' := Update(AsDocumented, cfg, q, rsp);
            Defined(cfg, q', Updating(rsp)) && Update(AsDocumented, cfg, q', rsp) == q'
  {
    hide KeyOf, Update;
    var q' := Update(AsDocumented, cfg, q, rsp);
    assert Step(AsDocumented, cfg, q, Updating(rsp)) == q' by { assert Defined(cfg, q, Updating(rsp)); }
    StepKeepsWf(AsDocumented, cfg, q, Updating(rsp));
    UpdateReconciles(AsDocumented, cfg, q, rsp);
    assert Vanished(q', rsp) == {};
    NoChange(cfg, q', rsp);
  }

  lemma NoChange(cfg: Config, q: Queues, rsp: seq<Address>)
    requires Wf(q) && q.freed == {} && q.hosts.Keys == Keys(rsp)
    ensures Update(AsDocumented, cfg, q, rsp) == q
  {
    hide KeyOf, Update, Wf, Keys, Without, FirstSeen, KeySequence;
    assert Vanished(q, rsp) == {};
    UpdateReconciles(AsDocumented, cfg, q, rsp);
    KeySequenceMembers(rsp);
    FirstSeenMembers(KeySequence(rsp), q.hosts.Keys);
    EmptyOrMember(FirstSeen(KeySequence(rsp), q.hosts.Keys));
    WithoutNothing(q.idle, {});
    WithoutNothing(q.over, {});
    assert forall k :: k in q.hosts ==> Update(AsDocumented, cfg, q, rsp).hosts[k] == q.hosts[k];
    assert Update(AsDocumented, cfg, q, rsp).hosts == q.hosts;
  }

  // ---------------------------------------------------------------- the status report

  datatype CallResult = CallResult(ip: Int32, port: Int32, succ: nat, err: nat, overload: bool)

  function ResultOf(h: Host, overload: bool): CallResult {
    CallResult(ToInt32(h.ip), h.port, h.counters.rsucc, h.counters.rerr, overload)
  }

  /** The results commit() sends: the idle queue flagged false, then the overload queue flagged true. */
  function Status(q: Queues): seq<CallResult>
    requires (forall k :: k in q.idle ==> k in q.hosts) && (forall k :: k in q.over ==> k in q.hosts)
  {
    seq(|q.idle|, i requires 0 <= i < |q.idle| => ResultOf(q.hosts[q.idle[i]], false))
    + seq(|q.over|, i requires 0 <= i < |q.over| => ResultOf(q.hosts[q.over[i]], true))
  }

  /** Every allocated host is reported exactly once, idle ones first: with its own ip, port, real successes,
      real failures and flag. */
  lemma StatusReportsEachHostOnce(q: Queues)
    requires Wf(q)
    ensures var keys := q.idle + q.over;
            && NoDuplicates(keys)
            && (forall k :: k in keys <==> k in q.hosts && k !in q.freed)
            && |Status(q)| == |keys|
            && forall i :: 0 <= i < |keys| ==>
                 && keys[i] in q.hosts
                 && var r, h := Status(q)[i], q.hosts[keys[i]];
                    && ToUInt32(r.ip) == h.ip && r.port == h.port
                    && r.succ == h.counters.rsucc && r.err == h.counters.rerr && r.overload == h.counters.overload
  {
    var keys := q.idle + q.over;
    forall i | 0 <= i < |keys|
      ensures keys[i] in q.hosts && Status(q)[i] == ResultOf(q.hosts[keys[i]], q.hosts[keys[i]].counters.overload)
    {
      if i < |q.idle| {
        assert keys[i] in q.idle;
      } else {
        assert keys[i] in q.over;
      }
    }
    forall i, j | 0 <= i < j < |keys|
      ensures keys[i] != keys[j]
    {
      if i < |q.idle| <= j {
        assert keys[i] in q.idle && keys[j] in q.over;
      }
    }
  }

  // ---------------------------------------------------------------- what was reported, over runs

  /** The results reported for each host of the map since it was put in, oldest first. */
  type Histories = map<UInt64, seq<bool>>

  /** The histories after one more call, given the keys of the map it leaves. */
  function Recorded(hist: Histories, e: Event, keys: set<UInt64>): Histories {
    match e
    case Choosing => hist
    case Reporting(a, ok) => if KeyOf(a) in hist then hist[KeyOf(a) := hist[KeyOf(a)] + [ok]] else hist
    case Updating(_) => map k | k in keys :: if k in hist then hist[k] else []
  }

  function HistoriesAfter(b: Build, cfg: Config, q: Queues, hist: Histories, es: seq<Event>): Histories
    requires Run(b, cfg, q, es).Reached?
    decreases |es|
  {
    if es == [] then hist
    else
      var q' := Step(b, cfg, q, es[0]);
      HistoriesAfter(b, cfg, q', Recorded(hist, es[0], q'.hosts.Keys), es[1..])
  }

  /** Each host stands under the key of its address, with the counters its own history gives. */
  ghost predicate Accounted(cfg: Config, q: Queues, hist: Histories) {
    && hist.Keys == q.hosts.Keys
    && forall k :: k in q.hosts ==>
         Pack(q.hosts[k].ip, q.hosts[k].port) == k && q.hosts[k].counters == Reports(cfg, Idle(cfg), hist[k])
  }

  lemma ReportAccounts(cfg: Config, q: Queues, a: Address, ok: bool, hist: Histories)
    requires Accounted(cfg, q, hist)
    ensures Accounted(cfg, ReportTo(cfg, q, a, ok), Recorded(hist, Reporting(a, ok), q.hosts.Keys))
  {
    hide KeyOf, Pack, Health.Report, Health.Reports, ReportTo;
    ReportMoves(cfg, q, a, ok);
    if KeyOf(a) in q.hosts {
      ReportsOneMore(cfg, Idle(cfg), hist[KeyOf(a)], ok);
    }
  }

  lemma UpdateAccounts(b: Build, cfg: Config, q: Queues, rsp: seq<Address>, hist: Histories)
    requires Wf(q) && Vanished(q, rsp) !! q.freed && Accounted(cfg, q, hist)
    ensures var q' := Update(b, cfg, q, rsp); Accounted(cfg, q', Recorded(hist, Updating(rsp), q'.hosts.Keys))
  {
    hide KeyOf, Pack, Health.Reports, Update, Wf, InsertAll;
    ReportsNothing(cfg);
    InsertAllHosts(cfg, q, rsp);
    StaysOrNew(b, cfg, q, rsp);
  }

  lemma StepAccounts(b: Build, cfg: Config, q: Queues, e: Event, hist: Histories)
    requires Wf(q) && Defined(cfg, q, e) && Accounted(cfg, q, hist)
    ensures Accounted(cfg, Step(b, cfg, q, e), Recorded(hist, e, Step(b, cfg, q, e).hosts.Keys))
  {
    hide Accounted, Update, ReportTo;
    match e
    case Choosing =>
      ChooseKeepsWf(b, cfg, q);
      SameHosts(cfg, q, Step(b, cfg, q, e), hist);
    case Reporting(a, ok) =>
      ReportAccounts(cfg, q, a, ok, hist);
      SameRecord(hist, e, q.hosts.Keys, Step(b, cfg, q, e).hosts.Keys);
    case Updating(rsp) =>
      UpdateAccounts(b, cfg, q, rsp, hist);
  }

  lemma SameHosts(cfg: Config, q: Queues, q': Queues, hist: Histories)
    requires q'.hosts == q.hosts
    ensures Accounted(cfg, q, hist) == Accounted(cfg, q', hist)
  {
  }

  lemma SameRecord(hist: Histories, e: Event, keys: set<UInt64>, keys': set<UInt64>)
    requires e.Reporting?
    ensures Recorded(hist, e, keys) == Recorded(hist, e, keys')
  {
  }

  lemma ReportsNothing(cfg: Config)
    ensures Reports(cfg, Idle(cfg), []) == Idle(cfg)
  {
  }

  lemma StaysOrNew(b: Build, cfg: Config, q: Queues, rsp: seq<Address>)
    ensures forall k :: k in Update(b, cfg, q, rsp).hosts ==>
              k in InsertAll(cfg, q, rsp).hosts
              && Update(b, cfg, q, rsp).hosts[k] == InsertAll(cfg, q, rsp).hosts[k]
  {
    hide InsertAll;
  }

  lemma {:induction false} RunAccounts(b: Build, cfg: Config, q: Queues, es: seq<Event>, hist: Histories)
    requires Wf(q) && Accounted(cfg, q, hist) && Run(b, cfg, q, es).Reached?
    ensures Wf(Run(b, cfg, q, es).q)
    ensures Accounted(cfg, Run(b, cfg, q, es).q, HistoriesAfter(b, cfg, q, hist, es))
    decreases |es|
  {
    hide Step, Defined, Wf, Accounted, Recorded;
    if es != [] {
      StepKeepsWf(b, cfg, q, es[0]);
      StepAccounts(b, cfg, q, es[0], hist);
      var q' := Step(b, cfg, q, es[0]);
      RunAccounts(b, cfg, q', es[1..], Recorded(hist, es[0], q'.hosts.Keys));
    }
  }

  /** Over every run of a balancer, in either build: a status report says of each host under its own address
      how many of the results reported for it since it last changed queue were successes and failures. */
  lemma StatusOfRun(b: Build, cfg: Config, access: int, es: seq<Event>)
    requires Run(b, cfg, Empty(access), es).Reached?
    ensures var q := Run(b, cfg, Empty(access), es).q;
            var hist := HistoriesAfter(b, cfg, Empty(access), map[], es);
            && Wf(q) && hist.Keys == q.hosts.Keys
            && |Status(q)| == |q.idle + q.over|
            && forall i :: 0 <= i < |Status(q)| ==>
                    var k, r := (q.idle + q.over)[i], Status(q)[i];
                    && k in hist && Pack(ToUInt32(r.ip), r.port) == k
                    && var s := SinceFlip(cfg, Idle(cfg), hist[k]);
                       r.succ == Occurrences(s, true) && r.err == Occurrences(s, false)
  {
    hide Pack, Wf, Status, Run, HistoriesAfter, SinceFlip, Occurrences, ToUInt32;
    EmptyIsWf(access);
    RunAccounts(b, cfg, Empty(access), es, map[]);
    var q := Run(b, cfg, Empty(access), es).q;
    var hist := HistoriesAfter(b, cfg, Empty(access), map[], es);
    StatusReportsEachHostOnce(q);
    WfMeans(q);
    forall k | k in q.hosts
      ensures q.hosts[k].counters.rsucc == Occurrences(SinceFlip(cfg, Idle(cfg), hist[k]), true)
      ensures q.hosts[k].counters.rerr == Occurrences(SinceFlip(cfg, Idle(cfg), hist[k]), false)
    {
      CountersRefineHistory(cfg, hist[k]);
    }
  }

  lemma WfMeans(q: Queues)
    requires Wf(q)
    ensures (forall k :: k in q.idle ==> k in q.hosts) && (forall k :: k in q.over ==> k in q.hosts)
  {
  }
}
