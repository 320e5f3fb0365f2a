/** The two queues of one (modid, cmdid) as a value: what choosing, reporting and updating do to them.

    Two places of the program differ from its own comments. An update frees the hosts that vanished
    from the answer but leaves their keys in the host map, and a choice made while both queues are
    non-empty takes a second idle host and returns that one. Build selects which text is meant:
    AsWritten is the code, AsDocumented erases the key and chooses once. */
module Balance {
  import opened Packing
  import opened Health

  datatype Build = AsWritten | AsDocumented

  datatype Address = Address(ip: Int32, port: Int32)

  /** One host_info: the address is stored with an unsigned ip. */
  datatype Host = Host(ip: UInt32, port: Int32, counters: Counters)

  /** freed holds the keys whose host_info was deleted while the map still points to it. */
  datatype Queues = Queues(hosts: map<UInt64, Host>, idle: seq<UInt64>, over: seq<UInt64>, access: int,
    freed: set<UInt64>)

  datatype Choice = NoneFree | Picked(key: UInt64)

  function KeyOf(a: Address): UInt64 {
    Pack(a.ip, a.port)
  }

  function Keys(rsp: seq<Address>): set<UInt64> {
    set a | a in rsp :: KeyOf(a)
  }

  function NewHost(cfg: Config, a: Address): Host {
    Host(ToUInt32(a.ip), a.port, Idle(cfg))
  }

  /** A load_balance object that was just constructed; the access counter is whatever it was. */
  function Empty(access: int): Queues {
    Queues(map[], [], [], access, {})
  }

  // ---------------------------------------------------------------- choosing

  function Turn<T>(s: seq<T>): seq<T>
    requires s != []
  {
    s[1..] + [s[0]]
  }

  /** front() is taken on a non-empty list. */
  predicate CanChoose(cfg: Config, q: Queues) {
    q.idle == [] && cfg.probeNum <= q.access ==> q.over != []
  }

  /** The queue the choice is made from, and the state it leaves. */
  function ChooseOnce(cfg: Config, q: Queues): (r: (Queues, Choice))
    requires CanChoose(cfg, q)
  {
    if q.idle == [] && q.access < cfg.probeNum then
      (q.(access := q.access + 1), NoneFree)
    else if q.idle == [] || (q.over != [] && cfg.probeNum <= q.access) then
      (q.(access := 0, over := Turn(q.over)), Picked(q.over[0]))
    else
      (q.(access := if q.over == [] then q.access else q.access + 1, idle := Turn(q.idle)), Picked(q.idle[0]))
  }

  function Choose(b: Build, cfg: Config, q: Queues): (r: (Queues, Choice))
    requires CanChoose(cfg, q)
  {
    var (q1, c) := ChooseOnce(cfg, q);
    if b == AsWritten && q.idle != [] && q.over != [] then
      (q1.(idle := Turn(q1.idle)), Picked(q1.idle[0]))
    else
      (q1, c)
  }

  // ---------------------------------------------------------------- reporting

  function Without(s: seq<UInt64>, gone: set<UInt64>): seq<UInt64> {
    if s == [] then []
    else (if s[0] in gone then [] else [s[0]]) + Without(s[1..], gone)
  }

  /** Stores new counters for a host and moves it to the other queue when its flag changed. */
  function Move(q: Queues, key: UInt64, now: Host): Queues
    requires key in q.hosts
  {
    var q1 := q.(hosts := q.hosts[key := now]);
    if now.counters.overload == q.hosts[key].counters.overload then q1
    else if now.counters.overload then q1.(idle := Without(q.idle, {key}), over := q.over + [key])
    else q1.(over := Without(q.over, {key}), idle := q.idle + [key])
  }

  function ReportTo(cfg: Config, q: Queues, a: Address, ok: bool): Queues {
    var key := KeyOf(a);
    if key !in q.hosts then q
    else
      Move(q, key, q.hosts[key].(counters := Report(cfg, q.hosts[key].counters, ok)))
  }

  // ---------------------------------------------------------------- updating

  function Insert(cfg: Config, q: Queues, a: Address): Queues {
    if KeyOf(a) in q.hosts then q
    else q.(hosts := q.hosts[KeyOf(a) := NewHost(cfg, a)], idle := q.idle + [KeyOf(a)])
  }

  function InsertAll(cfg: Config, q: Queues, rsp: seq<Address>): Queues {
    if rsp == [] then q
    else Insert(cfg, InsertAll(cfg, q, rsp[..|rsp| - 1]), rsp[|rsp| - 1])
  }

  /** The keys of the map that the answer no longer contains. */
  function Vanished(q: Queues, rsp: seq<Address>): set<UInt64> {
    q.hosts.Keys - Keys(rsp)
  }

  function Flagged(q: Queues, keys: set<UInt64>, overload: bool): set<UInt64> {
    set k | k in keys && k in q.hosts && q.hosts[k].counters.overload == overload
  }

  function Remove(b: Build, q: Queues, gone: set<UInt64>): Queues {
    Queues(
      if b == AsDocumented then q.hosts - gone else q.hosts,
      Without(q.idle, Flagged(q, gone, false)),
      Without(q.over, Flagged(q, gone, true)),
      q.access,
      if b == AsDocumented then q.freed - gone else q.freed + gone)
  }

  function Update(b: Build, cfg: Config, q: Queues, rsp: seq<Address>): Queues {
    Remove(b, InsertAll(cfg, q, rsp), Vanished(q, rsp))
  }

  // ---------------------------------------------------------------- the invariant

  ghost predicate NoDuplicates<T(!new)>(s: seq<T>) {
    forall i, j :: 0 <= i < j < |s| ==> s[i] != s[j]
  }

  /** The queues are duplicate-free and disjoint, hold exactly the hosts that are still allocated,
      and every host stands in the queue its flag names. */
  ghost predicate Wf(q: Queues) {
    && NoDuplicates(q.idle)
    && NoDuplicates(q.over)
    && q.freed <= q.hosts.Keys
    && (forall k :: k in q.idle <==> k in q.hosts && k !in q.freed && !q.hosts[k].counters.overload)
    && (forall k :: k in q.over <==> k in q.hosts && k !in q.freed && q.hosts[k].counters.overload)
  }

  /** The two queues partition the host map. */
  ghost predicate Partition(q: Queues) {
    && NoDuplicates(q.idle)
    && NoDuplicates(q.over)
    && (forall k :: k in q.idle ==> k !in q.over)
    && (forall k :: k in q.hosts <==> k in q.idle || k in q.over)
    && (forall k :: k in q.hosts ==> (q.hosts[k].counters.overload <==> k in q.over))
  }

  lemma PartitionIff(q: Queues)
    requires Wf(q)
    ensures Partition(q) <==> q.freed == {}
  {
    if q.freed != {} {
      var k :| k in q.freed;
      assert k in q.hosts && k !in q.idle && k !in q.over;
    }
  }

  lemma {:induction false} WithoutMembers(s: seq<UInt64>, gone: set<UInt64>)
    ensures forall k :: k in Without(s, gone) <==> k in s && k !in gone
  {
    if s != [] {
      assert s == [s[0]] + s[1..];
      WithoutMembers(s[1..], gone);
    }
  }

  lemma {:induction false} WithoutMeaning(s: seq<UInt64>, gone: set<UInt64>)
    ensures forall k :: k in Without(s, gone) <==> k in s && k !in gone
    ensures NoDuplicates(s) ==> NoDuplicates(Without(s, gone))
  {
    WithoutMembers(s, gone);
    if s != [] {
      WithoutMeaning(s[1..], gone);
      if NoDuplicates(s) {
        var rest := Without(s[1..], gone);
        assert forall i :: 0 <= i < |s[1..]| ==> s[1..][i] == s[i + 1];
        assert s[0] !in rest;
      }
    }
  }

  lemma TurnMeaning<T(!new)>(s: seq<T>)
    requires s != []
    ensures forall x :: x in Turn(s) <==> x in s
    ensures NoDuplicates(s) ==> NoDuplicates(Turn(s))
    ensures |Turn(s)| == |s|
  {
    assert s == [s[0]] + s[1..];
    if NoDuplicates(s) {
      assert forall i :: 0 <= i < |s| - 1 ==> Turn(s)[i] == s[i + 1];
    }
  }

  lemma ChooseKeepsWf(b: Build, cfg: Config, q: Queues)
    requires Wf(q) && CanChoose(cfg, q)
    ensures Wf(Choose(b, cfg, q).0)
    ensures Choose(b, cfg, q).0.hosts == q.hosts && Choose(b, cfg, q).0.freed == q.freed
    ensures Choose(b, cfg, q).1.Picked? ==> Choose(b, cfg, q).1.key in q.hosts && Choose(b, cfg, q).1.key !in q.freed
  {
    if q.idle != [] {
      TurnMeaning(q.idle);
      TurnMeaning(Turn(q.idle));
      assert Turn(q.idle)[0] in Turn(q.idle);
    }
    if q.over != [] {
      TurnMeaning(q.over);
    }
    var (q', c) := Choose(b, cfg, q);
    assert forall k :: k in q'.idle <==> k in q.idle;
    assert forall k :: k in q'.over <==> k in q.over;
  }

  lemma OneLessOneMore(from: seq<UInt64>, to: seq<UInt64>, key: UInt64)
    requires NoDuplicates(from) && NoDuplicates(to) && key !in to
    ensures NoDuplicates(Without(from, {key})) && NoDuplicates(to + [key])
    ensures forall k :: k in Without(from, {key}) <==> k in from && k != key
    ensures forall k :: k in to + [key] <==> k in to || k == key
  {
    WithoutMeaning(from, {key});
  }

  lemma MoveKeepsWf(q: Queues, key: UInt64, now: Host)
    requires Wf(q) && key in q.hosts && key !in q.freed
    ensures Wf(Move(q, key, now))
  {
    hide Without, NoDuplicates;
    if now.counters.overload == q.hosts[key].counters.overload {
    } else if now.counters.overload {
      OneLessOneMore(q.idle, q.over, key);
    } else {
      OneLessOneMore(q.over, q.idle, key);
    }
  }

  lemma ReportKeepsWf(cfg: Config, q: Queues, a: Address, ok: bool)
    requires Wf(q)
    requires KeyOf(a) !in q.freed
    ensures Wf(ReportTo(cfg, q, a, ok))
    ensures ReportTo(cfg, q, a, ok).hosts.Keys == q.hosts.Keys
    ensures ReportTo(cfg, q, a, ok).freed == q.freed
  {
    hide KeyOf, Report;
    var key := KeyOf(a);
    if key in q.hosts {
      MoveKeepsWf(q, key, q.hosts[key].(counters := Report(cfg, q.hosts[key].counters, ok)));
    }
  }

  /** A report about an unknown address changes nothing. One about a known host touches no other host; the
      host keeps its place while its flag stands still, and otherwise goes to the end of the other queue. */
  lemma ReportMoves(cfg: Config, q: Queues, a: Address, ok: bool)
    ensures KeyOf(a) !in q.hosts ==> ReportTo(cfg, q, a, ok) == q
    ensures KeyOf(a) in q.hosts ==>
              var k, q' := KeyOf(a), ReportTo(cfg, q, a, ok);
              var h, h' := q.hosts[k], q'.hosts[k];
              && q'.hosts == q.hosts[k := h'] && q'.access == q.access && q'.freed == q.freed
              && h'.ip == h.ip && h'.port == h.port && h'.counters == Health.Report(cfg, h.counters, ok)
              && (h'.counters.overload == h.counters.overload ==> q'.idle == q.idle && q'.over == q.over)
              && (h'.counters.overload && !h.counters.overload ==>
                    q'.idle == Without(q.idle, {k}) && q'.over == q.over + [k])
              && (!h'.counters.overload && h.counters.overload ==>
                    q'.over == Without(q.over, {k}) && q'.idle == q.idle + [k])
  {
    hide KeyOf, Health.Report, Without;
  }

  lemma InsertKeepsWf(cfg: Config, q: Queues, a: Address)
    requires Wf(q)
    ensures Wf(Insert(cfg, q, a))
  {
    hide KeyOf;
    var q' := Insert(cfg, q, a);
    assert forall k :: k in q'.idle <==> k in q.idle || (k == KeyOf(a) && k !in q.hosts);
  }

  lemma {:induction false} InsertAllKeepsWf(cfg: Config, q: Queues, rsp: seq<Address>)
    requires Wf(q)
    ensures Wf(InsertAll(cfg, q, rsp))
  {
    hide Wf, Insert;
    if rsp != [] {
      InsertAllKeepsWf(cfg, q, rsp[..|rsp| - 1]);
      InsertKeepsWf(cfg, InsertAll(cfg, q, rsp[..|rsp| - 1]), rsp[|rsp| - 1]);
    }
  }

  lemma KeyOfHost(cfg: Config, a: Address)
    ensures var h := NewHost(cfg, a); Pack(h.ip, h.port) == KeyOf(a)
  {
    PackUnsigned(a.ip, a.port);
  }

  /** Inserting adds the unknown addresses with fresh counters, each under the key of its own ip and port,
      and leaves every known host alone. */
  lemma {:induction false} InsertAllHosts(cfg: Config, q: Queues, rsp: seq<Address>)
    ensures var q' := InsertAll(cfg, q, rsp);
            && q'.freed == q.freed && q'.over == q.over && q'.access == q.access
            && q'.hosts.Keys == q.hosts.Keys + Keys(rsp)
            && (forall k :: k in q.hosts ==> q'.hosts[k] == q.hosts[k])
            && (forall k :: k in q'.hosts && k !in q.hosts ==>
                              q'.hosts[k].counters == Idle(cfg) && Pack(q'.hosts[k].ip, q'.hosts[k].port) == k)
  {
    hide KeyOf, Pack;
    if rsp != [] {
      var n := |rsp| - 1;
      InsertAllHosts(cfg, q, rsp[..n]);
      assert rsp == rsp[..n] + [rsp[n]];
      assert Keys(rsp) == Keys(rsp[..n]) + {KeyOf(rsp[n])};
      KeyOfHost(cfg, rsp[n]);
    }
  }

  lemma RemoveKeepsWf(b: Build, q: Queues, gone: set<UInt64>)
    requires Wf(q) && gone <= q.hosts.Keys && gone !! q.freed
    ensures Wf(Remove(b, q, gone))
    ensures Remove(b, q, gone).idle == Without(q.idle, gone)
    ensures Remove(b, q, gone).over == Without(q.over, gone)
  {
    WithoutMeaning(q.idle, Flagged(q, gone, false));
    WithoutMeaning(q.over, Flagged(q, gone, true));
    WithoutSame(q.idle, Flagged(q, gone, false), gone);
    WithoutSame(q.over, Flagged(q, gone, true), gone);
  }

  lemma {:induction false} WithoutSame(s: seq<UInt64>, a: set<UInt64>, b: set<UInt64>)
    requires forall k :: k in s ==> (k in a <==> k in b)
    ensures Without(s, a) == Without(s, b)
  {
    if s != [] {
      WithoutSame(s[1..], a, b);
    }
  }

  // ---------------------------------------------------------------- runs

  datatype Event = Choosing | Reporting(a: Address, ok: bool) | Updating(rsp: seq<Address>)

  /** The caller chooses only from a balancer that has hosts and passes non-empty answers. */
  predicate Callable(q: Queues, e: Event) {
    match e
    case Choosing => q.hosts != map[]
    case Reporting(_, _) => true
    case Updating(rsp) => rsp != []
  }

  /** The call has defined behaviour: it touches no freed host and takes no front of an empty list. */
  predicate Defined(cfg: Config, q: Queues, e: Event) {
    match e
    case Choosing => CanChoose(cfg, q)
    case Reporting(a, _) => KeyOf(a) !in q.freed
    case Updating(rsp) => Vanished(q, rsp) !! q.freed
  }

  function Step(b: Build, cfg: Config, q: Queues, e: Event): Queues
    requires Defined(cfg, q, e)
  {
    match e
    case Choosing => Choose(b, cfg, q).0
    case Reporting(a, ok) => ReportTo(cfg, q, a, ok)
    case Updating(rsp) => Update(b, cfg, q, rsp)
  }

  /** The state after a run, or nothing once some call's behaviour is undefined. */
  datatype Outcome = Undefined | Reached(q: Queues)

  function Run(b: Build, cfg: Config, q: Queues, es: seq<Event>): Outcome
    decreases |es|
  {
    if es == [] then Reached(q)
    else if !Defined(cfg, q, es[0]) then Undefined
    else Run(b, cfg, Step(b, cfg, q, es[0]), es[1..])
  }

  predicate Drops(q: Queues, e: Event) {
    e.Updating? && Vanished(q, e.rsp) != {}
  }

  /** No update of the run leaves out a host the balancer knows. */
  predicate NeverDrops(b: Build, cfg: Config, q: Queues, es: seq<Event>)
    decreases |es|
  {
    es == [] ||
    (!Drops(q, es[0]) && (Defined(cfg, q, es[0]) ==> NeverDrops(b, cfg, Step(b, cfg, q, es[0]), es[1..])))
  }

  predicate AllCallable(b: Build, cfg: Config, q: Queues, es: seq<Event>)
    decreases |es|
  {
    es == [] ||
    (Callable(q, es[0]) && (Defined(cfg, q, es[0]) ==> AllCallable(b, cfg, Step(b, cfg, q, es[0]), es[1..])))
  }

  lemma StepKeepsWf(b: Build, cfg: Config, q: Queues, e: Event)
    requires Wf(q) && Defined(cfg, q, e)
    ensures Wf(Step(b, cfg, q, e))
    ensures b == AsDocumented && q.freed == {} ==> Step(b, cfg, q, e).freed == {}
    ensures b == AsWritten ==> Step(b, cfg, q, e).freed == q.freed + (if e.Updating? then Vanished(q, e.rsp) else {})
  {
    hide KeyOf;
    match e
    case Choosing =>
      ChooseKeepsWf(b, cfg, q);
    case Reporting(a, ok) =>
      ReportKeepsWf(cfg, q, a, ok);
    case Updating(rsp) =>
      InsertAllKeepsWf(cfg, q, rsp);
      InsertAllHosts(cfg, q, rsp);
      RemoveKeepsWf(b, InsertAll(cfg, q, rsp), Vanished(q, rsp));
  }

  /** A balancer that lost no host to a dangling entry is never asked for undefined behaviour. */
  lemma IntactIsDefined(cfg: Config, q: Queues, e: Event)
    requires Wf(q) && q.freed == {} && Callable(q, e)
    ensures Defined(cfg, q, e)
  {
    if e.Choosing? {
      var k :| k in q.hosts;
      assert k in q.idle || k in q.over;
    }
  }

  /** The documented program: over every run of calls the behaviour is defined and the two queues
      partition the host map. */
  lemma {:induction false} DocumentedRunsKeepPartition(cfg: Config, q: Queues, es: seq<Event>)
    requires Wf(q) && q.freed == {}
    requires AllCallable(AsDocumented, cfg, q, es)
    ensures Run(AsDocumented, cfg, q, es).Reached?
    ensures Partition(Run(AsDocumented, cfg, q, es).q)
    decreases |es|
  {
    if es == [] {
      PartitionIff(q);
    } else {
      IntactIsDefined(cfg, q, es[0]);
      StepKeepsWf(AsDocumented, cfg, q, es[0]);
      DocumentedRunsKeepPartition(cfg, Step(AsDocumented, cfg, q, es[0]), es[1..]);
    }
  }

  /** The program as written, while no update drops a host: same guarantee. */
  lemma {:induction false} WrittenRunsKeepPartition(cfg: Config, q: Queues, es: seq<Event>)
    requires Wf(q) && q.freed == {}
    requires AllCallable(AsWritten, cfg, q, es) && NeverDrops(AsWritten, cfg, q, es)
    ensures Run(AsWritten, cfg, q, es).Reached?
    ensures Partition(Run(AsWritten, cfg, q, es).q)
    decreases |es|
  {
    if es == [] {
      PartitionIff(q);
    } else {
      IntactIsDefined(cfg, q, es[0]);
      StepKeepsWf(AsWritten, cfg, q, es[0]);
      WrittenRunsKeepPartition(cfg, Step(AsWritten, cfg, q, es[0]), es[1..]);
    }
  }

  /** A host freed while still queued stays so: no event takes its entry away again. */
  lemma {:induction false} DanglingForever(cfg: Config, q: Queues, es: seq<Event>)
    requires Wf(q) && q.freed != {}
    ensures var r := Run(AsWritten, cfg, q, es); r.Reached? ==> q.freed <= r.q.freed && !Partition(r.q)
    decreases |es|
  {
    if es == [] {
      PartitionIff(q);
    } else if Defined(cfg, q, es[0]) {
      StepKeepsWf(AsWritten, cfg, q, es[0]);
      DanglingForever(cfg, Step(AsWritten, cfg, q, es[0]), es[1..]);
    }
  }

  /** The program as written keeps the queues a partition of the map exactly on the runs in which no
      update leaves out a known host; on all others the partition is lost for good, if the run is
      defined at all. */
  lemma {:induction false} WrittenPartitionIff(cfg: Config, q: Queues, es: seq<Event>)
    requires Wf(q) && q.freed == {}
    requires AllCallable(AsWritten, cfg, q, es)
    ensures var r := Run(AsWritten, cfg, q, es);
            (r.Reached? && Partition(r.q)) <==> NeverDrops(AsWritten, cfg, q, es)
    decreases |es|
  {
    if NeverDrops(AsWritten, cfg, q, es) {
      WrittenRunsKeepPartition(cfg, q, es);
    } else {
      IntactIsDefined(cfg, q, es[0]);
      StepKeepsWf(AsWritten, cfg, q, es[0]);
      if Drops(q, es[0]) {
        DanglingForever(cfg, Step(AsWritten, cfg, q, es[0]), es[1..]);
      } else {
        WrittenPartitionIff(cfg, Step(AsWritten, cfg, q, es[0]), es[1..]);
      }
    }
  }

  /** As written, the same answer can be applied twice exactly when it drops nothing: otherwise the
      second update frees the vanished hosts again. */
  lemma SecondUpdateDefinedIff(cfg: Config, q: Queues, rsp: seq<Address>)
    requires Wf(q) && Vanished(q, rsp) !! q.freed
    ensures Defined(cfg, Update(AsWritten, cfg, q, rsp), Updating(rsp)) <==> Vanished(q, rsp) == {}
  {
    InsertAllKeepsWf(cfg, q, rsp);
    InsertAllHosts(cfg, q, rsp);
    var q' := Update(AsWritten, cfg, q, rsp);
    assert Vanished(q', rsp) == Vanished(q, rsp);
  }

  /** Three answers A, B, A leave both queues empty although the map is not, and the choice that is
      due for a probe then takes the front of an empty list. */
  lemma AlternatingAnswersEmptyTheQueues(cfg: Config, a: Address, b: Address, access: int)
    requires KeyOf(a) != KeyOf(b)
    requires cfg.probeNum <= access
    ensures var es := [Updating([a]), Updating([b]), Updating([a])];
            var r := Run(AsWritten, cfg, Empty(access), es);
            && r.Reached? && r.q.idle == [] && r.q.over == [] && r.q.hosts.Keys == {KeyOf(a), KeyOf(b)}
            && Run(AsWritten, cfg, Empty(access), es + [Choosing]) == Undefined
  {
    hide *;
    var q0 := Empty(access);
    EmptyIsWf(access);
    var q1 := OneAddress(cfg, q0, a);
    var q2 := OneAddress(cfg, q1, b);
    var q3 := OneAddress(cfg, q2, a);
    var ea, eb := Updating([a]), Updating([b]);
    RunNothing(AsWritten, cfg, q0);
    RunAppend(AsWritten, cfg, q0, [], ea);
    RunAppend(AsWritten, cfg, q0, [ea], eb);
    RunAppend(AsWritten, cfg, q0, [ea, eb], ea);
    RunAppend(AsWritten, cfg, q0, [ea, eb, ea], Choosing);
    assert [] + [ea] == [ea] && [ea] + [eb] == [ea, eb] && [ea, eb] + [ea] == [ea, eb, ea];
    assert q3.freed == q3.hosts.Keys;
    NothingLeft(cfg, q3);
  }

  lemma EmptyIsWf(access: int)
    ensures Wf(Empty(access))
    ensures Empty(access).hosts.Keys == {} && Empty(access).freed == {} && Empty(access).access == access
  {
  }

  lemma RunNothing(b: Build, cfg: Config, q: Queues)
    ensures Run(b, cfg, q, []) == Reached(q)
  {
  }

  /** When every host is dangling the queues are empty and a due probe has no host to take. */
  lemma NothingLeft(cfg: Config, q: Queues)
    requires Wf(q) && q.freed == q.hosts.Keys
    ensures q.idle == [] && q.over == []
    ensures Defined(cfg, q, Choosing) <==> q.access < cfg.probeNum
  {
    assert forall k :: k !in q.idle && k !in q.over;
    EmptyOrMember(q.idle);
    EmptyOrMember(q.over);
  }

  lemma EmptyOrMember(s: seq<UInt64>)
    ensures s == [] || exists k :: k in s
  {
    if s != [] {
      assert s[0] in s;
    }
  }

  lemma {:induction false} RunAppend(b: Build, cfg: Config, q: Queues, es: seq<Event>, e: Event)
    ensures var r := Run(b, cfg, q, es);
            Run(b, cfg, q, es + [e]) ==
            if r.Reached? && Defined(cfg, r.q, e) then Reached(Step(b, cfg, r.q, e)) else Undefined
    decreases |es|
  {
    hide Defined, Step;
    if es == [] {
      assert es + [e] == [e];
      assert [e][1..] == [];
    } else {
      assert (es + [e])[1..] == es[1..] + [e];
      if Defined(cfg, q, es[0]) {
        RunAppend(b, cfg, Step(b, cfg, q, es[0]), es[1..], e);
      }
    }
  }

  /** An answer with a single address, spelled out. */
  lemma OneAddress(cfg: Config, q: Queues, a: Address) returns (q': Queues)
    requires Wf(q) && q.freed !! (q.hosts.Keys - {KeyOf(a)})
    ensures Defined(cfg, q, Updating([a])) && q' == Step(AsWritten, cfg, q, Updating([a]))
    ensures q'.hosts.Keys == q.hosts.Keys + {KeyOf(a)}
    ensures q'.freed == q.freed + (q.hosts.Keys - {KeyOf(a)}) && q'.access == q.access
    ensures Wf(q')
  {
    hide KeyOf;
    assert Keys([a]) == {KeyOf(a)};
    q' := Update(AsWritten, cfg, q, [a]);
    InsertAllKeepsWf(cfg, q, [a]);
    InsertAllHosts(cfg, q, [a]);
    RemoveKeepsWf(AsWritten, InsertAll(cfg, q, [a]), Vanished(q, [a]));
  }
}
