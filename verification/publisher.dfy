/** The publisher thread as the program has it, over the shared objects: one pass of its polling loop,
    without interference, takes exactly the publisher's steps of the protocol. */
module Publishing {
  import opened RouteIndex
  import opened Subscriptions
  import opened DnsProtocol
  import Threads

  const WAIT_TIME := 10

  /** Which of the four queries of one pass succeed. */
  datatype Queries = Queries(version: bool, data: bool, changes: bool, remove: bool)

  datatype Push = PushChangeTask

  // ---------------------------------------------------------------- the steps of one pass

  predicate NewVersion(s: State, q: Queries) {
    q.version && s.dbVersion != s.version
  }

  function Tasks(n: nat): seq<Step> {
    seq(n, _ => SendTask)
  }

  function Reload(ok: bool): seq<Step> {
    [LoadData(ok)] + if ok then [Swap] else []
  }

  /** One pass: due says that the last load is ten seconds old. */
  function Pass(s: State, q: Queries, due: bool): seq<Step> {
    if NewVersion(s, q) then
      [LoadVersion] + Reload(q.data) + [LoadChanges(q.changes), Publish] + Tasks(|s.threads|)
        + [RemoveChanges(q.remove)]
    else if due then Reload(q.data)
    else []
  }

  function OneMoreTask(threads: seq<Thread>, n: nat): (r: seq<Thread>)
    requires n <= |threads|
    ensures |r| == |threads|
  {
    seq(|threads|, i requires 0 <= i < |threads| =>
      if i < n then threads[i].(tasks := threads[i].tasks + 1) else threads[i])
  }

  function Reloaded(s: State, ok: bool): State {
    if ok then s.(data := Group(s.table), temp := s.data) else s.(temp := map[])
  }

  /** What one pass amounts to. */
  function AfterPass(s: State, q: Queries, due: bool): State {
    if NewVersion(s, q) then
      var r := Reloaded(s.(version := s.dbVersion), q.data);
      var list := if q.changes then ModsUpTo(s.rows, s.dbVersion) else [];
      r.(pub := Published(s.sub, s.pub, Elements(list)), threads := OneMoreTask(s.threads, |s.threads|),
         rows := if q.remove then ChangesAbove(s.rows, s.dbVersion) else s.rows)
    else if due then Reloaded(s, q.data)
    else s
  }

  lemma {:induction false} RunConcat(s: State, es: seq<Step>, fs: seq<Step>)
    requires CanRun(s, es) && CanRun(Run(s, es), fs)
    ensures CanRun(s, es + fs) && Run(s, es + fs) == Run(Run(s, es), fs)
    decreases |es|
  {
    hide Enabled, Apply;
    if es == [] {
      assert es + fs == fs;
    } else {
      RunConcat(Apply(s, es[0]), es[1..], fs);
      assert (es + fs)[0] == es[0] && (es + fs)[1..] == es[1..] + fs;
    }
  }

  lemma RunOne(s: State, e: Step)
    requires Enabled(s, e)
    ensures CanRun(s, [e]) && Run(s, [e]) == Apply(s, e)
  {
    assert [e][1..] == [];
    assert CanRun(Apply(s, e), []);
  }

  lemma RunReload(s: State, ok: bool)
    requires s.pc == Polling || s.pc == Versioned
    ensures CanRun(s, Reload(ok))
    ensures Run(s, Reload(ok)) == Reloaded(s, ok).(pc := if s.pc == Versioned then Swapped else Polling)
  {
    RunOne(s, LoadData(ok));
    var s1 := Apply(s, LoadData(ok));
    if ok {
      RunOne(s1, Swap);
      RunConcat(s, [LoadData(ok)], [Swap]);
    } else {
      assert Reload(ok) == [LoadData(ok)];
    }
  }

  lemma {:induction false} RunTasks(s: State, n: nat)
    requires s.pc == Sending(0) && n <= |s.threads|
    ensures CanRun(s, Tasks(n)) && Run(s, Tasks(n)) == s.(threads := OneMoreTask(s.threads, n), pc := Sending(n))
  {
    if n == 0 {
      assert OneMoreTask(s.threads, 0) == s.threads;
    } else {
      RunTasks(s, n - 1);
      RunOne(Run(s, Tasks(n - 1)), SendTask);
      RunConcat(s, Tasks(n - 1), [SendTask]);
      assert Tasks(n) == Tasks(n - 1) + [SendTask];
      assert OneMoreTask(s.threads, n) == Apply(Run(s, Tasks(n - 1)), SendTask).threads;
    }
  }

  /** A pass up to the moment when publish sends its tasks. */
  function Announcing(s: State, q: Queries): State {
    var r := Reloaded(s.(version := s.dbVersion), q.data);
    var list := if q.changes then ModsUpTo(s.rows, s.dbVersion) else [];
    r.(pub := Published(s.sub, s.pub, Elements(list)), pc := Sending(0))
  }

  lemma RunHead(s: State, q: Queries)
    requires s.pc == Polling && NewVersion(s, q)
    ensures var es := [LoadVersion] + Reload(q.data) + [LoadChanges(q.changes), Publish];
            CanRun(s, es) && Run(s, es) == Announcing(s, q)
  {
    hide Published, Group, ModsUpTo, Elements, Reload;
    RunOne(s, LoadVersion);
    var s1 := Apply(s, LoadVersion);
    RunReload(s1, q.data);
    RunConcat(s, [LoadVersion], Reload(q.data));
    var es := [LoadVersion] + Reload(q.data);
    var s2 := Run(s, es);
    RunOne(s2, LoadChanges(q.changes));
    RunConcat(s, es, [LoadChanges(q.changes)]);
    es := es + [LoadChanges(q.changes)];
    RunOne(Run(s, es), Publish);
    RunConcat(s, es, [Publish]);
    assert es + [Publish] == [LoadVersion] + Reload(q.data) + [LoadChanges(q.changes), Publish];
  }

  /** The steps of a pass can be taken from the top of the loop, end there, and amount to AfterPass. */
  lemma PassRuns(s: State, q: Queries, due: bool)
    requires s.pc == Polling
    ensures CanRun(s, Pass(s, q, due)) && Run(s, Pass(s, q, due)) == AfterPass(s, q, due)
  {
    hide Published, Group, ModsUpTo, ChangesAbove, Elements, Reload, Tasks, OneMoreTask;
    if NewVersion(s, q) {
      RunHead(s, q);
      var es := [LoadVersion] + Reload(q.data) + [LoadChanges(q.changes), Publish];
      RunTasks(Announcing(s, q), |s.threads|);
      RunConcat(s, es, Tasks(|s.threads|));
      es := es + Tasks(|s.threads|);
      RunOne(Run(s, es), RemoveChanges(q.remove));
      RunConcat(s, es, [RemoveChanges(q.remove)]);
    } else if due {
      RunReload(s, q.data);
    }
  }

  // ---------------------------------------------------------------- the thread

  class Publisher {
    const route: Route
    const subs: SubscribeList
    const pool: Threads.ThreadPool<Push>
    var lastLoadTime: int

    constructor (route: Route, subs: SubscribeList, pool: Threads.ThreadPool<Push>, now: int)
      ensures this.route == route && this.subs == subs && this.pool == pool && lastLoadTime == now
    {
      this.route, this.subs, this.pool, lastLoadTime := route, subs, pool, now;
    }

    /** The shared objects as a state of the protocol, with the publisher at the given point; the
        connections and threads are not its own. */
    ghost function Abstract(db: Database, pc: DnsProtocol.Publisher, conns: map<Fd, Conn>, threads: seq<Thread>): State
      reads db, route, route.data, route.temp, subs
    {
      State(db.routeData, if db.routeVersion.Some? then db.routeVersion.value else route.version, db.routeChange,
            route.data.routes, route.temp.routes, route.version, pc, subs.subList, subs.pubList, conns, threads)
    }

    /** Before the loop: all change rows are deleted. */
    method Start(db: Database, ok: bool, ghost conns: map<Fd, Conn>, ghost threads: seq<Thread>)
      modifies db`routeChange
      ensures Abstract(db, Polling, conns, threads) == Apply(old(Abstract(db, Booting, conns, threads)), Boot(ok))
    {
      route.RemoveChanges(db, ok, true);
    }

    /** One pass of the loop refines the publisher's steps of the protocol; in the pool, every thread has
        one more push task if and only if a new version was found. */
    method Poll(db: Database, now: int, q: Queries, ghost conns: map<Fd, Conn>, ghost threads: seq<Thread>)
      requires route.Valid() && pool.Valid() && |threads| == |pool.queues|
      modifies this, route, route.data, route.temp, subs`pubList, db`routeChange, pool.queues
      ensures route.Valid() && pool.Valid()
      ensures var s := old(Abstract(db, Polling, conns, threads));
              var due := now - old(lastLoadTime) >= WAIT_TIME;
              && CanRun(s, Pass(s, q, due))
              && Abstract(db, Polling, conns, Run(s, Pass(s, q, due)).threads) == Run(s, Pass(s, q, due))
              && (forall i :: 0 <= i < |pool.queues| ==>
                   pool.queues[i].queue == old(pool.queues[i].queue)
                     + if NewVersion(s, q) then [Threads.NewTask(PushChangeTask)] else [])
              && lastLoadTime == if q.data && (NewVersion(s, q) || due) then now else old(lastLoadTime)
    {
      hide Group, Published, ModsUpTo, ChangesAbove, Elements, Pass, Run, CanRun, OneMoreTask, Apply, Enabled;
      hide Threads.ThreadPool.Valid;
      PassRuns(Abstract(db, Polling, conns, threads), q, now - lastLoadTime >= WAIT_TIME);
      var _, _, _ := Check(db, now, q);
    }

    /** The body of the loop, object by object. What is published, is published when readers already get the
        new index, and the tasks that push it are sent when it is pending. */
    method Check(db: Database, now: int, q: Queries)
      returns (found: bool, ghost served: RouteMap, ghost pending: PubMap)
      requires route.Valid() && pool.Valid()
      modifies this, route, route.data, route.temp, subs`pubList, db`routeChange, pool.queues
      ensures route.Valid() && pool.Valid()
      ensures found <==> q.version && db.routeVersion.Some? && db.routeVersion.value != old(route.version)
      ensures var reload := found || now - old(lastLoadTime) >= 10;
              && lastLoadTime == (if reload && q.data then now else old(lastLoadTime))
              && route.data.routes == (if reload && q.data then Group(db.routeData) else old(route.data.routes))
              && route.temp.routes == (if !reload then old(route.temp.routes)
                                       else if q.data then old(route.data.routes) else map[])
      ensures route.version == if found then db.routeVersion.value else old(route.version)
      ensures subs.pubList == if !found then old(subs.pubList) else
                Published(subs.subList, old(subs.pubList),
                          Elements(if q.changes then ModsUpTo(old(db.routeChange), route.version) else []))
      ensures found ==> served == route.data.routes && pending == subs.pubList
      ensures db.routeChange == if found && q.remove then ChangesAbove(old(db.routeChange), route.version)
                                else old(db.routeChange)
      ensures forall i :: 0 <= i < |pool.queues| ==>
                pool.queues[i].queue == old(pool.queues[i].queue)
                  + if found then [Threads.NewTask(PushChangeTask)] else []
    {
      hide Group, Published, ModsUpTo, ChangesAbove, Elements;
      var ret := route.LoadVersion(db, q.version);
      found, served, pending := ret == 1, map[], map[];
      if found {
        Load(db, now, q.data);
        served, pending := Announce(db, q);
      } else if now - lastLoadTime >= WAIT_TIME {
        Load(db, now, q.data);
      }
    }

    /** Loads the table and, if that works, makes it the one readers see. */
    method Load(db: Database, now: int, ok: bool)
      requires route.Valid()
      modifies this`lastLoadTime, route, route.data, route.temp
      ensures route.Valid() && route.version == old(route.version)
      ensures {route.data, route.temp} == old({route.data, route.temp})
      ensures route.data.routes == if ok then Group(db.routeData) else old(route.data.routes)
      ensures route.temp.routes == if ok then old(route.data.routes) else map[]
      ensures lastLoadTime == if ok then now else old(lastLoadTime)
    {
      hide Group;
      var loaded := route.LoadRouteData(db, ok);
      if loaded == 0 {
        route.Swap();
        lastLoadTime := now;
      }
    }

    /** publish(), up to its tasks; served is the index that readers get meanwhile. */
    method Publish(changes: seq<Mod>) returns (ghost served: RouteMap)
      modifies subs`pubList
      ensures subs.pubList == Published(subs.subList, old(subs.pubList), Elements(changes))
      ensures served == route.data.routes
    {
      hide Published, Elements;
      subs.Publish(changes);
      served := route.data.routes;
    }

    /** The end of publish(): a task for every thread; pending is what they find to be pushed. */
    method SendTasks() returns (ghost pending: PubMap)
      requires pool.Valid()
      modifies pool.queues
      ensures pool.Valid() && pending == subs.pubList
      ensures forall i :: 0 <= i < |pool.queues| ==>
                pool.queues[i].queue == old(pool.queues[i].queue) + [Threads.NewTask(PushChangeTask)]
    {
      pending := subs.pubList;
      pool.SendTask(PushChangeTask);
    }

    /** Publishes what changed, hands every thread a push task, and deletes the change rows it has read. */
    method Announce(db: Database, q: Queries) returns (ghost served: RouteMap, ghost pending: PubMap)
      requires pool.Valid()
      modifies subs`pubList, db`routeChange, pool.queues
      ensures pool.Valid()
      ensures subs.pubList == Published(subs.subList, old(subs.pubList),
                                        Elements(if q.changes then ModsUpTo(old(db.routeChange), route.version)
                                          else []))
      ensures served == route.data.routes && pending == subs.pubList
      ensures db.routeChange == if q.remove then ChangesAbove(old(db.routeChange), route.version)
          else old(db.routeChange)
      ensures forall i :: 0 <= i < |pool.queues| ==>
                pool.queues[i].queue == old(pool.queues[i].queue) + [Threads.NewTask(PushChangeTask)]
    {
      hide Published, ModsUpTo, ChangesAbove, Elements;
      var changes := route.LoadChanges(db, q.changes, []);
      assert changes == if q.changes then ModsUpTo(db.routeChange, route.version) else [];
      served := Publish(changes);
      pending := SendTasks();
      route.RemoveChanges(db, q.remove, false);
    }
  }
}
