/** Why every rule is there. Each lemma gives one run of the service with a single client and a single
    loop thread that breaks exactly one rule, comes to rest, and leaves the client with an old route. */
module DnsCounterexamples {
  import BufferPool
  import Framing
  import opened Packing
  import opened RouteIndex
  import opened Subscriptions
  import opened DnsProtocol
  import opened Wrappers

  const CLIENT: Fd := 7

  /** At rest, with a client that asked for m and has a route for it that is not the current one. */
  ghost predicate LostUpdate(s: State, m: Mod) {
    Quiet(s) && CLIENT in s.conns && m in s.conns[CLIENT].mods && m in s.conns[CLIENT].seen && !UpToDate(s, CLIENT, m)
  }

  function Start(version: int): State {
    State([], version, [], map[], map[], 0, Booting, map[], map[], map[], [Thread(0, Waiting)])
  }

  function Table(ip: UInt32): seq<Row> {
    [Row(1, 1, ip, 80)]
  }

  function Module(): Mod {
    Pack(1, 1)
  }

  ghost predicate Reached(s0: State, es: seq<Step>, s: State, but: Option<Rule>) {
    CanRun(s0, es) && Run(s0, es) == s && Disciplined(s0, es, but)
  }

  lemma {:induction false} Then(s0: State, es: seq<Step>, s: State, e: Step, but: Option<Rule>)
    returns (es': seq<Step>, s': State)
    requires Reached(s0, es, s, but) && Enabled(s, e)
    requires forall rule :: Some(rule) != but ==> Obeys(s, e, rule)
    ensures es' == es + [e] && s' == Apply(s, e)
    ensures Reached(s0, es', s', but)
    decreases |es|
  {
    hide Enabled, Apply, Obeys;
    es', s' := es + [e], Apply(s, e);
    if es == [] {
      assert es' == [e] && es'[1..] == [];
      assert CanRun(s', es'[1..]) && Run(s', es'[1..]) == s' && Disciplined(s', es'[1..], but);
    } else {
      assert es'[1..] == es[1..] + [e] && es'[0] == es[0];
      var tail, _ := Then(Apply(s0, es[0]), es[1..], s, e, but);
      assert tail == es'[1..];
    }
  }

  /** A step that no rule is about, or a message that finds room. */
  predicate Calm(s: State, e: Step)
    requires Enabled(s, e)
  {
    match e
    case Edit(_, _, _) => false
    case LoadData(_) => false
    case LoadChanges(_) => false
    case Publish => false
    case Reply(_, _, _) => !IsRefused(s, e) && !IsUnheard(s, e)
    case PushSend(_, _, _) => !IsRefused(s, e) && !IsUnheard(s, e)
    case _ => true
  }

  lemma ThenCalm(s0: State, es: seq<Step>, s: State, e: Step, but: Option<Rule>) returns (es': seq<Step>, s': State)
    requires Reached(s0, es, s, but) && Enabled(s, e)
    requires
      || Calm(s, e)
      || (but == Some(SendsAccepted) && (e.Reply? || e.PushSend?) && !IsUnheard(s, e))
      || (but == Some(AnswersFit) && (e.Reply? || e.PushSend?) && !IsRefused(s, e))
    ensures es' == es + [e] && s' == Apply(s, e)
    ensures Reached(s0, es', s', but)
  {
    es', s' := Then(s0, es, s, e, but);
  }

  /** A client connects and asks for m. */
  lemma Asks(s0: State, es: seq<Step>, s: State, m: Mod, but: Option<Rule>) returns (es': seq<Step>, s': State)
    requires Reached(s0, es, s, but) && s.conns == map[] && s.sub == map[] && s.threads == [Thread(0, Waiting)]
    ensures Reached(s0, es', s', but)
    ensures s' == s.(conns := map[CLIENT := Conn(0, {m}, map[], 0, false, false)], sub := map[m := {CLIENT}],
                     threads := [Thread(0, Subscribing(CLIENT, m))])
  {
    hide Reached, Obeys;
    es', s' := ThenCalm(s0, es, s, Open(CLIENT, 0), but);
    assert s'.conns == map[CLIENT := Conn(0, {}, map[], 0, false, false)];
    es', s' := ThenCalm(s0, es', s', Request(CLIENT, m), but);
    var nobody: set<Fd>, nothing: set<Mod> := {}, {};
    assert nobody + {CLIENT} == {CLIENT} && nothing + {m} == {m};
    assert s'.sub == map[m := {CLIENT}];
    assert s'.conns == map[CLIENT := Conn(0, {m}, map[], 0, false, false)];
  }

  /** A client connects, asks for m and gets what the index has. */
  lemma Hello(s0: State, es: seq<Step>, s: State, m: Mod, but: Option<Rule>) returns (es': seq<Step>, s': State)
    requires Reached(s0, es, s, but) && s.conns == map[] && s.sub == map[] && s.threads == [Thread(0, Waiting)]
    ensures Reached(s0, es', s', but)
    ensures s' == s.(conns := map[CLIENT := Conn(0, {m}, map[m := Lookup(s.data, m)], 0, false, false)],
                     sub := map[m := {CLIENT}])
  {
    hide Reached, Lookup, Obeys;
    es', s' := Asks(s0, es, s, m, but);
    es', s' := ThenCalm(s0, es', s', Fetch(0), but);
    es', s' := ThenCalm(s0, es', s', Reply(0, 24, false), but);
    es', s' := ThenCalm(s0, es', s', Write(CLIENT, 32), but);
  }

  /** The second half of the publisher's loop, with a single loop thread. */
  lemma Announce(s0: State, es: seq<Step>, s: State, but: Option<Rule>) returns (es': seq<Step>, s': State)
    requires Reached(s0, es, s, but) && s.pc.Changed? && |s.threads| == 1
    requires but == Some(NoCollision) || Obeys(s, Publish, NoCollision)
    ensures Reached(s0, es', s', but)
    ensures s' == s.(pub := Published(s.sub, s.pub, Elements(s.pc.list)), pc := Polling,
                     rows := ChangesAbove(s.rows, s.version),
                     threads := [s.threads[0].(tasks := s.threads[0].tasks + 1)])
  {
    hide Reached, Published, ChangesAbove;
    es', s' := Then(s0, es, s, Publish, but);
    es', s' := Then(s0, es', s', SendTask, but);
    es', s' := Then(s0, es', s', RemoveChanges(true), but);
  }

  /** The first half, when the queries succeed. */
  lemma Load(s0: State, es: seq<Step>, s: State, but: Option<Rule>) returns (es': seq<Step>, s': State)
    requires Reached(s0, es, s, but) && s.pc == Polling && s.version != s.dbVersion
    ensures Reached(s0, es', s', but)
    ensures s' == s.(version := s.dbVersion, data := Group(s.table), temp := s.data,
                     pc := Changed(ModsUpTo(s.rows, s.dbVersion)))
  {
    hide Reached, Group, ModsUpTo;
    es', s' := Then(s0, es, s, LoadVersion, but);
    es', s' := Then(s0, es', s', LoadData(true), but);
    es', s' := Then(s0, es', s', Swap, but);
    es', s' := Then(s0, es', s', LoadChanges(true), but);
  }

  lemma LoadWithoutTable(s0: State, es: seq<Step>, s: State) returns (es': seq<Step>, s': State)
    requires Reached(s0, es, s, Some(DataLoads)) && s.pc == Polling && s.version != s.dbVersion
    ensures Reached(s0, es', s', Some(DataLoads))
    ensures s' == s.(version := s.dbVersion, temp := map[], pc := Changed(ModsUpTo(s.rows, s.dbVersion)))
  {
    hide Reached, Group, ModsUpTo;
    es', s' := Then(s0, es, s, LoadVersion, Some(DataLoads));
    es', s' := Then(s0, es', s', LoadData(false), Some(DataLoads));
    es', s' := Then(s0, es', s', LoadChanges(true), Some(DataLoads));
  }

  lemma LoadWithoutChanges(s0: State, es: seq<Step>, s: State) returns (es': seq<Step>, s': State)
    requires Reached(s0, es, s, Some(ChangesLoad)) && s.pc == Polling && s.version != s.dbVersion
    ensures Reached(s0, es', s', Some(ChangesLoad))
    ensures s' == s.(version := s.dbVersion, data := Group(s.table), temp := s.data, pc := Changed([]))
  {
    hide Reached, Group, ModsUpTo;
    es', s' := Then(s0, es, s, LoadVersion, Some(ChangesLoad));
    es', s' := Then(s0, es', s', LoadData(true), Some(ChangesLoad));
    es', s' := Then(s0, es', s', Swap, Some(ChangesLoad));
    es', s' := Then(s0, es', s', LoadChanges(false), Some(ChangesLoad));
  }

  /** A push task that finds nothing to push. */
  lemma IdlePush(s0: State, es: seq<Step>, s: State, but: Option<Rule>) returns (es': seq<Step>, s': State)
    requires Reached(s0, es, s, but) && s.threads == [Thread(1, Waiting)]
    requires Restricted(s.pub, Online(s, 0)) == map[]
    ensures Reached(s0, es', s', but)
    ensures s' == s.(threads := [Thread(0, Waiting)])
  {
    hide Obeys, Reached;
    es', s' := ThenCalm(s0, es, s, StartPush(0), but);
    es', s' := ThenCalm(s0, es', s', EndPush(0), but);
  }

  /** A push task that has fetched the one pending module. */
  lemma PushStart(s0: State, es: seq<Step>, s: State, m: Mod, but: Option<Rule>) returns (es': seq<Step>, s': State)
    requires Reached(s0, es, s, but) && s.threads == [Thread(1, Waiting)]
    requires Restricted(s.pub, Online(s, 0)) == map[CLIENT := {m}]
    ensures Reached(s0, es', s', but)
    ensures s' == s.(threads := [Thread(0, Pushing(map[CLIENT := {}],
                                                   Holding(CLIENT, m, Lookup(s.data, Repack(m)))))])
  {
    hide Obeys, Reached, Repack, Lookup, Restricted, Online;
    es', s' := ThenCalm(s0, es, s, StartPush(0), but);
    var todo := map[CLIENT := {m}];
    assert s'.threads == [Thread(0, Pushing(todo, Between))];
    es', s' := ThenCalm(s0, es', s', PushFetch(0, CLIENT, m), but);
    assert todo[CLIENT] - {m} == {} && todo[CLIENT := {}] == map[CLIENT := {}];
  }

  lemma ToldWith(s: State, threads: seq<Thread>, m: Mod, hosts: Hosts, length: nat, cut: bool)
    ensures Told(s.(threads := threads), CLIENT, m, hosts, length, cut).threads == threads
    ensures Told(s.(threads := threads), CLIENT, m, hosts, length, cut)
         == Told(s, CLIENT, m, hosts, length, cut).(threads := threads)
  {
  }

  lemma OneOnline(s: State, m: Mod)
    requires s.pub == map[CLIENT := {m}] && s.conns.Keys == {CLIENT} && s.conns[CLIENT].owner == 0
    ensures Restricted(s.pub, Online(s, 0)) == map[CLIENT := {m}]
  {
    assert Online(s, 0) == {CLIENT};
  }

  /** A push task up to the moment before it erases the client's entry; its message has this length. */
  lemma PushHalf(s0: State, es: seq<Step>, s: State, m: Mod, length: nat, cut: bool, but: Option<Rule>)
    returns (es': seq<Step>, s': State)
    requires Reached(s0, es, s, but) && s.threads == [Thread(1, Waiting)] && s.pub == map[CLIENT := {m}]
    requires s.conns.Keys == {CLIENT} && s.conns[CLIENT].owner == 0
    requires !s.conns[CLIENT].broken && !s.conns[CLIENT].deaf
    requires but == Some(SendsAccepted) || !Framing.Refused(s.conns[CLIENT].queued, length)
    requires but == Some(AnswersFit) || !Framing.Fatal(length, cut)
    ensures Reached(s0, es', s', but)
    ensures s' == Told(s, CLIENT, Repack(m), Lookup(s.data, Repack(m)), length, cut).(
                    threads := [Thread(0, Pushing(map[CLIENT := {}], Sent(CLIENT)))])
  {
    hide Obeys, Reached, Repack, Lookup;
    OneOnline(s, m);
    hide Restricted, Online, Told, Framing.Refused, Framing.Fatal;
    es', s' := PushStart(s0, es, s, m, but);
    assert s'.conns == s.conns && s'.data == s.data;
    var e := PushSend(0, length, cut);
    assert Enabled(s', e) && Receiver(s', e) == CLIENT;
    ToldWith(s, s'.threads, Repack(m), Lookup(s.data, Repack(m)), length, cut);
    assert s' == s.(threads := s'.threads);
    es', s' := ThenCalm(s0, es', s', e, but);
  }

  lemma PushRest(s0: State, es: seq<Step>, s: State, but: Option<Rule>) returns (es': seq<Step>, s': State)
    requires Reached(s0, es, s, but) && |s.threads| == 1
        && s.threads[0].activity == Pushing(map[CLIENT := {}], Sent(CLIENT))
    requires CLIENT in s.conns && s.conns[CLIENT].owner == 0 && !s.conns[CLIENT].broken
    ensures Reached(s0, es', s', but)
    ensures s' == s.(pub := s.pub - {CLIENT}, threads := [s.threads[0].(activity := Waiting)],
                     conns := s.conns[CLIENT := s.conns[CLIENT].(queued := 0)])
  {
    hide Obeys, Reached;
    es', s' := ThenCalm(s0, es, s, PushErase(0), but);
    es', s' := ThenCalm(s0, es', s', EndPush(0), but);
    es', s' := ThenCalm(s0, es', s', Write(CLIENT, s.conns[CLIENT].queued), but);
  }

  /** A whole push task for one client and one module, and everything written out afterwards. */
  lemma PushAll(s0: State, es: seq<Step>, s: State, m: Mod, length: nat, cut: bool, but: Option<Rule>)
    returns (es': seq<Step>, s': State)
    requires Reached(s0, es, s, but) && s.threads == [Thread(1, Waiting)] && s.pub == map[CLIENT := {m}]
    requires s.conns.Keys == {CLIENT} && s.conns[CLIENT].owner == 0
    requires !s.conns[CLIENT].broken && !s.conns[CLIENT].deaf
    requires but == Some(SendsAccepted) || !Framing.Refused(s.conns[CLIENT].queued, length)
    requires but == Some(AnswersFit) || !Framing.Fatal(length, cut)
    requires Framing.Refused(s.conns[CLIENT].queued, length) ==> Framing.TakenBack(s.conns[CLIENT].queued)
    ensures Reached(s0, es', s', but)
    ensures var c := AfterSend(s.conns[CLIENT], Repack(m), Lookup(s.data, Repack(m)), length, cut);
            s' == s.(pub := map[], threads := [Thread(0, Waiting)], conns := map[CLIENT := c.(queued := 0)])
  {
    hide Reached, Repack, Lookup, Framing.Refused, Framing.Fatal, Framing.TakenBack;
    es', s' := PushHalf(s0, es, s, m, length, cut, but);
    var none: PubMap := map[];
    assert map[CLIENT := {m}] - {CLIENT} == none;
    es', s' := PushRest(s0, es', s', but);
    var c := AfterSend(s.conns[CLIENT], Repack(m), Lookup(s.data, Repack(m)), length, cut);
    assert s'.conns == map[CLIENT := c.(queued := 0)];
  }

  // ---------------------------------------------------------------- facts about the little tables

  lemma TableFacts(m: Mod, r: Row)
    requires ModOf(r) == m
    ensures HostsOf([], m) == {} && HostsOf([r], m) == {HostOf(r)}
    ensures Lookup(Group([]), m) == {} && Lookup(Group([r]), m) == {HostOf(r)}
  {
    hide Pack;
    GroupAgreesWithTable([]);
    GroupAgreesWithTable([r]);
  }

  lemma OneChange(m: Mod, v: int)
    ensures [] + RowsFor([m], v) == [Change(m, v)]
    ensures ModsUpTo([Change(m, v)], v) == [m] && ChangesAbove([Change(m, v)], v) == []
    ensures ModsUpTo([], v) == [] && ChangesAbove([], v) == []
  {
    assert RowsFor([m], v) == [Change(m, v)];
    assert [Change(m, v)][1..] == [];
  }

  /** Only the edited module differs between the empty table and one with a single row. */
  lemma EditIsHonest(before: seq<Row>, after: seq<Row>, m: Mod)
    requires forall r :: r in before + after ==> ModOf(r) == m
    ensures forall k :: HostsOf(before, k) != HostsOf(after, k) ==> k in [m]
  {
    hide Pack;
    forall k | k != m
      ensures HostsOf(before, k) == HostsOf(after, k)
    {
      assert HostsOf(before, k) == {};
      assert HostsOf(after, k) == {};
    }
  }

  lemma PublishOne(m: Mod)
    ensures Published(map[m := {CLIENT}], map[], Elements([m])) == map[CLIENT := {m}]
    ensures Published(map[m := {CLIENT}], map[], Elements([])) == map[]
  {
    assert Elements([m]) == {m};
    var sub := map[m := {CLIENT}];
    AllSubscribersOneMore(sub, {}, m);
    assert {} + {m} == {m} && AllSubscribers(sub, {}) == {};
    assert Affected(map[m := {CLIENT}], {m}, CLIENT) == {m};
    PublishedNothing(map[m := {CLIENT}], map[]);
  }

  // ---------------------------------------------------------------- one run per broken rule

  /** An edit that reuses the version number the publisher has read last (the deployed scripts take the time
      in seconds) is never noticed. */
  lemma SameVersionIsLost()
    ensures exists s0, es, s :: Initial(s0) && Reached(s0, es, s, Some(FreshVersions)) && LostUpdate(s, Module())
  {
    hide Pack, Reached, HostsOf, Group;
    var m, r, but := Module(), Table(1)[0], Some(FreshVersions);
    TableFacts(m, r);
    EditIsHonest([], [r], m);
    var s0 := Start(0);
    NothingYet(0, but);
    var es, s := Then(s0, [], s0, Boot(true), but);
    es, s := Hello(s0, es, s, m, but);
    es, s := Then(s0, es, s, Edit(Table(1), [m], 0), but);
    assert LostUpdate(s, m);
  }

  /** An edit that writes no change row is loaded but announced to nobody. The scripts that fill and empty
      the route table are such edits; a row written after the publisher has read the version stays unread
      in the same way. */
  lemma MissingChangeRowIsLost()
    ensures exists s0, es, s :: Initial(s0) && Reached(s0, es, s, Some(ChangeRows)) && LostUpdate(s, Module())
  {
    hide Pack, Reached, HostsOf, Group, Published, ChangesAbove, ModsUpTo, Lookup, Addressable;
    var m, r, but := Module(), Table(1)[0], Some(ChangeRows);
    TableFacts(m, r);
    OneChange(m, 1);
    PublishOne(m);
    var es, s := Settled(but);
    es, s := Then(Start(0), es, s, Edit(Table(1), [], 1), but);
    assert RowsFor([], 1) == [] && s.rows == [];
    es, s := Load(Start(0), es, s, but);
    es, s := Announce(Start(0), es, s, but);
    es, s := IdlePush(Start(0), es, s, but);
    assert LostUpdate(s, m);
  }

  /** A client that has not read its last 262144 answers is refused the push of a change, which is then
      erased; when it has read everything it still holds the old route. */
  lemma RefusedPushIsLost()
    ensures exists s0, es, s :: Initial(s0) && Reached(s0, es, s, Some(SendsAccepted)) && LostUpdate(s, Module())
  {
    hide Pack, Reached, HostsOf, Group, Published, ChangesAbove, ModsUpTo, Repack, Lookup, Addressable;
    var m, r, but := Module(), Table(1)[0], Some(SendsAccepted);
    TableFacts(m, r);
    OneChange(m, 1);
    EditIsHonest([], [r], m);
    PublishOne(m);
    var es, s := UnreadAnswers(262144, but);
    es, s := Then(Start(0), es, s, Edit(Table(1), [m], 1), but);
    es, s := Load(Start(0), es, s, but);
    es, s := Announce(Start(0), es, s, but);
    es, s := PushAll(Start(0), es, s, m, 24, false, but);
    assert LostUpdate(s, m);
  }

  /** A push that its client does not survive, of more than 65527 bytes or of none at the end of a read, is
      accepted and erased like any other. */
  lemma OversizedAnswerIsLost(length: nat, cut: bool)
    requires Framing.Fatal(length, cut) && !Framing.Refused(0, length)
    ensures exists s0, es, s :: Initial(s0) && Reached(s0, es, s, Some(AnswersFit)) && LostUpdate(s, Module())
  {
    hide Pack, Reached, HostsOf, Group, Published, ChangesAbove, ModsUpTo, Repack, Lookup, Addressable;
    var m, r, but := Module(), Table(1)[0], Some(AnswersFit);
    TableFacts(m, r);
    ModuleIsAddressable();
    var es, s := Announced(m, r, but);
    es, s := PushAll(Start(0), es, s, m, length, cut, but);
    assert LostUpdate(s, m);
  }

  /** An edit under a version below that of an edit the publisher has not read yet overtakes it: the table
      is loaded as a whole, but the older change row stays unread. */
  lemma OvertakenRowIsLost()
    ensures exists s0, es, s :: Initial(s0) && Reached(s0, es, s, Some(FreshVersions)) && LostUpdate(s, Module())
  {
    hide Pack, Reached, HostsOf, Group, Published, ChangesAbove, ModsUpTo, Lookup, Addressable;
    var m, r, but := Module(), Table(1)[0], Some(FreshVersions);
    TableFacts(m, r);
    OneChange(m, 5);
    EditIsHonest([], [r], m);
    PublishOne(m);
    var es, s := Settled(but);
    es, s := Then(Start(0), es, s, Edit(Table(1), [m], 5), but);
    es, s := Then(Start(0), es, s, Edit(Table(1), [], 3), but);
    OvertakenRow(m);
    es, s := Load(Start(0), es, s, but);
    es, s := Announce(Start(0), es, s, but);
    es, s := IdlePush(Start(0), es, s, but);
    assert LostUpdate(s, m);
  }

  lemma OvertakenRow(m: Mod)
    ensures [Change(m, 5)] + RowsFor([], 3) == [Change(m, 5)]
    ensures ModsUpTo([Change(m, 5)], 3) == [] && ChangesAbove([Change(m, 5)], 3) == [Change(m, 5)]
  {
    assert [Change(m, 5)][1..] == [];
  }

  /** An edit made after the index was built and before the publisher's first step loses its change
      row. */
  lemma EditAtBootIsLost()
    ensures exists s0, es, s :: Initial(s0) && Reached(s0, es, s, Some(QuietBoot)) && LostUpdate(s, Module())
  {
    hide Pack, Reached, HostsOf, Group, Published, ChangesAbove, ModsUpTo;
    var m, r, but := Module(), Table(1)[0], Some(QuietBoot);
    TableFacts(m, r);
    OneChange(m, 1);
    EditIsHonest([], [r], m);
    PublishOne(m);
    var s0 := Start(0);
    NothingYet(0, but);
    var es, s := Hello(s0, [], s0, m, but);
    es, s := Then(s0, es, s, Edit(Table(1), [m], 1), but);
    es, s := Then(s0, es, s, Boot(true), but);
    es, s := Load(s0, es, s, but);
    es, s := Announce(s0, es, s, but);
    es, s := IdlePush(s0, es, s, but);
    assert LostUpdate(s, m);
  }

  /** When the table query fails the publisher still announces the change and deletes its row; the
      clients are pushed the old route. */
  lemma FailedLoadIsLost()
    ensures exists s0, es, s :: Initial(s0) && Reached(s0, es, s, Some(DataLoads)) && LostUpdate(s, Module())
  {
    hide Pack, Reached, HostsOf, Group, Published, ChangesAbove, ModsUpTo, Repack, Lookup, Addressable;
    var m, r, but := Module(), Table(1)[0], Some(DataLoads);
    TableFacts(m, r);
    OneChange(m, 1);
    EditIsHonest([], [r], m);
    PublishOne(m);
    ModuleIsAddressable();
    var es, s := Settled(but);
    es, s := Then(Start(0), es, s, Edit(Table(1), [m], 1), but);
    es, s := LoadWithoutTable(Start(0), es, s);
    es, s := Announce(Start(0), es, s, but);
    es, s := PushAll(Start(0), es, s, m, 24, false, but);
    assert LostUpdate(s, m);
  }

  /** When the change query fails nothing is announced and the rows are deleted all the same. */
  lemma FailedChangesIsLost()
    ensures exists s0, es, s :: Initial(s0) && Reached(s0, es, s, Some(ChangesLoad)) && LostUpdate(s, Module())
  {
    hide Pack, Reached, HostsOf, Group, Published, ChangesAbove, ModsUpTo, Lookup, Addressable;
    var m, r, but := Module(), Table(1)[0], Some(ChangesLoad);
    TableFacts(m, r);
    OneChange(m, 1);
    EditIsHonest([], [r], m);
    PublishOne(m);
    var es, s := Settled(but);
    es, s := Then(Start(0), es, s, Edit(Table(1), [m], 1), but);
    es, s := LoadWithoutChanges(Start(0), es, s);
    es, s := Announce(Start(0), es, s, but);
    es, s := IdlePush(Start(0), es, s, but);
    assert LostUpdate(s, m);
  }

  /** A change published between a push task's read and its erase is erased unsent. */
  lemma CollisionIsLost()
    ensures exists s0, es, s :: Initial(s0) && Reached(s0, es, s, Some(NoCollision)) && LostUpdate(s, Module())
  {
    hide Pack, Reached, HostsOf, Group, Published, ChangesAbove, ModsUpTo, Repack, Lookup, Addressable;
    var m, r, r2, but := Module(), Table(1)[0], Table(2)[0], Some(NoCollision);
    TableFacts(m, r);
    TableFacts(m, r2);
    OneChange(m, 2);
    EditIsHonest([r], [r2], m);
    PublishAgain(m);
    ModuleIsAddressable();
    DistinctHosts();
    var es, s := Announced(m, r, but);
    es, s := PushHalf(Start(0), es, s, m, 24, false, but);
    es, s := Then(Start(0), es, s, Edit(Table(2), [m], 2), but);
    es, s := Load(Start(0), es, s, but);
    es, s := Announce(Start(0), es, s, but);
    es, s := PushRest(Start(0), es, s, but);
    es, s := IdlePush(Start(0), es, s, but);
    assert LostUpdate(s, m);
  }

  /** Without breaking any rule: a module whose low half is negative is pushed under another key, so
      its subscribers are never told. */
  lemma NegativeModuleIsLost()
    ensures exists s0, es, s ::
              Initial(s0) && Reached(s0, es, s, None) && LostUpdate(s, Pack(0, -1)) && !Addressable(Pack(0, -1))
  {
    hide Pack, Reached, HostsOf, Group, Published, ChangesAbove, ModsUpTo, Repack, Lookup, Addressable;
    var m, r := Pack(0, -1), Row(0, -1, 1, 80);
    TableFacts(m, r);
    UnpackPack(0, -1);
    RepackIff(m);
    var es, s := Announced(m, r, None);
    es, s := PushAll(Start(0), es, s, m, 24, false, None);
    assert LostUpdate(s, m);
  }

  /** A pending entry survives its connection; a new connection with the same descriptor inherits it,
      and nothing is queued that would push it. */
  lemma ReusedDescriptorIsStuck()
    ensures exists s0, es, s ::
              Initial(s0) && Reached(s0, es, s, None) && Quiet(s) && CLIENT in s.conns && CLIENT in s.pub
  {
    hide Pack, Reached, HostsOf, Group, Published, ChangesAbove, ModsUpTo, Repack, Lookup, Addressable;
    var es, s := Announced(Module(), Table(1)[0], None);
    es, s := Then(Start(0), es, s, Close(CLIENT), None);
    assert s.conns == map[] && Online(s, 0) == {};
    es, s := IdlePush(Start(0), es, s, None);
    es, s := Then(Start(0), es, s, Open(CLIENT, 0), None);
  }

  // ---------------------------------------------------------------- pieces of those runs

  /** The first row of module m was added and announced; the client's entry is pending and the push task
      is queued. */
  lemma Announced(m: Mod, r: Row, but: Option<Rule>) returns (es: seq<Step>, s: State)
    requires ModOf(r) == m
    ensures Initial(Start(0)) && Reached(Start(0), es, s, but)
    ensures s.conns == map[CLIENT := Conn(0, {m}, map[m := {}], 0, false, false)] && s.pub == map[CLIENT := {m}]
    ensures s.threads == [Thread(1, Waiting)] && s.pc == Polling && s.version == s.dbVersion == 1 && s.table == [r]
    ensures s.sub == map[m := {CLIENT}] && s.data == Group([r]) && s.rows == []
  {
    hide Pack, Reached, HostsOf, Group, Published, ChangesAbove, ModsUpTo, Repack, Lookup, Addressable, ModOf;
    TableFacts(m, r);
    OneChange(m, 1);
    EditIsHonest([], [r], m);
    PublishOne(m);
    NothingYet(0, but);
    es, s := Then(Start(0), [], Start(0), Boot(true), but);
    es, s := Hello(Start(0), es, s, m, but);
    es, s := Then(Start(0), es, s, Edit([r], [m], 1), but);
    es, s := Load(Start(0), es, s, but);
    es, s := Announce(Start(0), es, s, but);
  }

  lemma NothingYet(version: nat, but: Option<Rule>)
    ensures Initial(Start(version)) && Reached(Start(version), [], Start(version), but)
  {
  }

  lemma ModuleIsAddressable()
    ensures Addressable(Module()) && Repack(Module()) == Module()
        && forall ip: UInt32 :: ModOf(Table(ip)[0]) == Module()
  {
    hide Pack;
    UnpackPack(1, 1);
    RepackIff(Module());
  }

  lemma DistinctHosts()
    ensures HostOf(Table(1)[0]) != HostOf(Table(2)[0])
  {
    hide Pack;
    PackInjective(1, 80, 2, 80);
  }

  /** The service runs and the client has the route of the empty table. */
  lemma Settled(but: Option<Rule>) returns (es: seq<Step>, s: State)
    ensures Initial(Start(0)) && Reached(Start(0), es, s, but)
    ensures s == Start(0).(pc := Polling,
                           conns := map[CLIENT := Conn(0, {Module()}, map[Module() := {}], 0, false, false)],
                           sub := map[Module() := {CLIENT}])
  {
    hide Pack, Reached;
    NothingYet(0, but);
    es, s := Then(Start(0), [], Start(0), Boot(true), but);
    es, s := Hello(Start(0), es, s, Module(), but);
  }

  /** The client has asked again and again without reading the answers, of 32 bytes each. */
  lemma {:induction false} UnreadAnswers(k: nat, but: Option<Rule>) returns (es: seq<Step>, s: State)
    requires 32 * k <= BufferPool.M8M
    ensures Initial(Start(0)) && Reached(Start(0), es, s, but)
    ensures s == Start(0).(pc := Polling,
                           conns := map[CLIENT := Conn(0, {Module()}, map[Module() := {}], 32 * k, false, false)],
                           sub := map[Module() := {CLIENT}])
  {
    if k == 0 {
      es, s := Settled(but);
    } else {
      es, s := UnreadAnswers(k - 1, but);
      es, s := AskAgain(es, s, 32 * (k - 1), but);
    }
  }

  lemma AskAgain(es: seq<Step>, s: State, queued: nat, but: Option<Rule>) returns (es': seq<Step>, s': State)
    requires Reached(Start(0), es, s, but) && queued + 32 <= BufferPool.M8M && s.data == map[]
    requires s.conns == map[CLIENT := Conn(0, {Module()}, map[Module() := {}], queued, false, false)]
    requires s.threads == [Thread(0, Waiting)]
    ensures Reached(Start(0), es', s', but)
    ensures s' == s.(conns := map[CLIENT := Conn(0, {Module()}, map[Module() := {}], queued + 32, false, false)])
  {
    hide Obeys, Pack, Reached;
    var m := Module();
    assert {m} + {m} == {m};
    es', s' := ThenCalm(Start(0), es, s, Request(CLIENT, m), but);
    assert s'.conns == s.conns && s'.sub == s.sub;
    es', s' := ThenCalm(Start(0), es', s', Fetch(0), but);
    var none: Hosts := {};
    assert s'.threads[0].activity == Fetched(CLIENT, m, none) && map[m := none][m := none] == map[m := none];
    es', s' := ThenCalm(Start(0), es', s', Reply(0, 24, false), but);
  }

  lemma PublishAgain(m: Mod)
    ensures Published(map[m := {CLIENT}], map[CLIENT := {m}], Elements([m])) == map[CLIENT := {m}]
  {
    var sub := map[m := {CLIENT}];
    assert Elements([m]) == {m};
    AllSubscribersOneMore(sub, {}, m);
    assert {} + {m} == {m} && AllSubscribers(sub, {}) == {};
    assert Affected(sub, {m}, CLIENT) == {m};
  }
}
