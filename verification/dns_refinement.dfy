/** The callbacks of the route service, run without interference, take exactly the steps of the protocol. */
module DnsRefinement {
  import opened Packing
  import opened RouteIndex
  import opened Subscriptions
  import opened DnsProtocol
  import opened DnsService
  import opened Wrappers

  /** What the protocol's state says about the shared objects and the connections. */
  ghost predicate Represents(s: State, svc: Service, conns: map<Fd, Connection>)
    reads svc.subs, svc.route, svc.route.data, conns.Values
  {
    && s.sub == svc.subs.subList && s.pub == svc.subs.pubList && s.data == svc.route.data.routes
    && s.conns.Keys == conns.Keys
    && (forall fd :: fd in conns ==> conns[fd].fd == fd && conns[fd].param == Some(s.conns[fd].mods))
    && forall fd, fd' :: fd in conns && fd' in conns && fd != fd' ==> conns[fd] != conns[fd']
  }

  // ---------------------------------------------------------------- get_request

  function RequestSteps(t: nat, fd: Fd, m: Mod, length: nat, cut: bool): seq<Step> {
    [Request(fd, m), Fetch(t), Reply(t, length, cut)]
  }

  /** The client is subscribed and sent what the index has; its thread is idle again. */
  function Requested(s: State, fd: Fd, m: Mod, length: nat, cut: bool): State
    requires fd in s.conns
  {
    var c := s.conns[fd];
    s.(sub := if m in c.mods then s.sub else Subscribed(s.sub, m, fd),
       conns := s.conns[fd := AfterSend(c.(mods := c.mods + {m}), m, Lookup(s.data, m), length, cut)])
  }

  lemma RequestStep(s: State, fd: Fd, m: Mod)
    requires fd in s.conns && IsWaiting(s, s.conns[fd].owner)
    ensures Enabled(s, Request(fd, m))
    ensures var c := s.conns[fd];
            Apply(s, Request(fd, m)) ==
              Doing(s.(sub := if m in c.mods then s.sub else Subscribed(s.sub, m, fd),
                       conns := s.conns[fd := c.(mods := c.mods + {m})]), c.owner, Subscribing(fd, m))
  {
    hide Subscribed;
  }

  lemma RequestRun(s: State, fd: Fd, m: Mod, length: nat, cut: bool)
    requires fd in s.conns && IsWaiting(s, s.conns[fd].owner) && !s.conns[fd].broken
    ensures var es := RequestSteps(s.conns[fd].owner, fd, m, length, cut);
            CanRun(s, es) && Run(s, es) == Requested(s, fd, m, length, cut)
  {
    var t := s.conns[fd].owner;
    var es := RequestSteps(t, fd, m, length, cut);
    RequestStep(s, fd, m);
    var s1 := Apply(s, es[0]);
    FetchedStep(s1, t, fd, m);
    var s2 := Apply(s1, es[1]);
    RepliedStep(s2, t, fd, m, Lookup(s.data, m), length, cut);
    var s3 := Apply(s2, es[2]);
    hide Enabled, Apply, AfterSend, Lookup, Subscribed;
    assert s3.threads == s.threads;
    RunThree(s, es);
  }

  lemma FetchedStep(s: State, t: nat, fd: Fd, m: Mod)
    requires t < |s.threads| && s.threads[t].activity == Subscribing(fd, m)
    ensures Enabled(s, Fetch(t)) && Apply(s, Fetch(t)) == Doing(s, t, Fetched(fd, m, Lookup(s.data, m)))
  {
    hide Lookup;
  }

  lemma RepliedStep(s: State, t: nat, fd: Fd, m: Mod, hosts: Hosts, length: nat, cut: bool)
    requires t < |s.threads| && s.threads[t].activity == Fetched(fd, m, hosts) && fd in s.conns && !s.conns[fd].broken
    ensures var e := Reply(t, length, cut);
            && Enabled(s, e)
            && Apply(s, e)
            == Doing(s.(conns := s.conns[fd := AfterSend(s.conns[fd], m, hosts, length, cut)]), t, Waiting)
  {
    hide AfterSend;
  }

  lemma RunThree(s: State, es: seq<Step>)
    requires |es| == 3 && Enabled(s, es[0]) && Enabled(Apply(s, es[0]), es[1])
    requires Enabled(Apply(Apply(s, es[0]), es[1]), es[2])
    ensures CanRun(s, es) && Run(s, es) == Apply(Apply(Apply(s, es[0]), es[1]), es[2])
  {
    hide Enabled, Apply;
    var s1 := Apply(s, es[0]);
    var s2 := Apply(s1, es[1]);
    assert CanRun(Apply(s2, es[2]), es[3..]) && es[2..][1..] == es[3..];
    assert CanRun(s2, es[2..]) && Run(s2, es[2..]) == Apply(s2, es[2]) && es[1..][1..] == es[2..];
    assert CanRun(s1, es[1..]) && Run(s1, es[1..]) == Apply(s2, es[2]);
  }

  /** get_request for a connected client takes the steps Request, Fetch and Reply. A connection whose buffer
      is broken aborts the program instead. */
  method AnswerRequest(svc: Service, conns: map<Fd, Connection>, fd: Fd, modid: Int32, cmdid: Int32,
                       ghost s: State, ghost length: nat, ghost cut: bool) returns (ghost s': State)
    requires Represents(s, svc, conns) && fd in conns
    requires IsWaiting(s, s.conns[fd].owner) && !s.conns[fd].broken
    modifies conns[fd], svc.subs`subList
    ensures var es := RequestSteps(s.conns[fd].owner, fd, Pack(modid, cmdid), length, cut);
            CanRun(s, es) && s' == Run(s, es) && Represents(s', svc, conns)
    ensures s' == Requested(s, fd, Pack(modid, cmdid), length, cut)
    ensures conns[fd].outbox
         == old(conns[fd].outbox) + [Response(modid, cmdid, Addresses(Lookup(s.data, Pack(modid, cmdid))))]
  {
    hide Pack, Lookup, Addresses, Subscribed, CanRun, Run, AfterSend;
    var m := Pack(modid, cmdid);
    RequestRun(s, fd, m, length, cut);
    ghost var was := s.conns[fd].mods;
    ghost var _ := svc.GetRequest(modid, cmdid, conns[fd]);
    assert m in was ==> was + {m} == was;
    s' := Requested(s, fd, m, length, cut);
    SendKeepsMods(s.conns[fd].(mods := was + {m}), m, Lookup(s.data, m), length, cut);
  }

  lemma SendKeepsMods(c: Conn, m: Mod, hosts: Hosts, length: nat, cut: bool)
    ensures var c' := AfterSend(c, m, hosts, length, cut); c'.mods == c.mods && c'.owner == c.owner
  {
  }

  // ---------------------------------------------------------------- the hook of a closing connection

  /** The hook and the removal of the connection are the step Close. */
  method CloseConnection(svc: Service, conns: map<Fd, Connection>, fd: Fd, ghost s: State)
    returns (conns': map<Fd, Connection>)
    requires Represents(s, svc, conns) && fd in conns && IsWaiting(s, s.conns[fd].owner) && NoEmptySets(s.sub)
    modifies conns[fd], svc.subs`subList
    ensures Enabled(s, Close(fd)) && conns' == conns - {fd} && Represents(Apply(s, Close(fd)), svc, conns')
  {
    conns[fd].ClearSubscribe(svc.subs);
    conns' := conns - {fd};
  }

  // ---------------------------------------------------------------- push_change_task

  type Pair = (Fd, Mod)

  /** The encoded length of each message of a push task, and whether a read ends right behind it. */
  type Sizes = Pair -> (nat, bool)

  function PushSteps(t: nat, pairs: seq<Pair>, sizes: Sizes): seq<Step> {
    if pairs == [] then []
    else
      var (length, cut) := sizes(pairs[0]);
      [PushFetch(t, pairs[0].0, pairs[0].1), PushSend(t, length, cut), PushErase(t)] + PushSteps(t, pairs[1..], sizes)
  }

  function TaskSteps(t: nat, pairs: seq<Pair>, sizes: Sizes): seq<Step> {
    [StartPush(t)] + PushSteps(t, pairs, sizes) + [EndPush(t)]
  }

  /** The connections after a message for one pair, and for all of them in turn. */
  function FedOne(conns: map<Fd, Conn>, data: RouteMap, p: Pair, size: (nat, bool)): map<Fd, Conn> {
    if p.0 !in conns then conns
    else conns[p.0 := AfterSend(conns[p.0], Repack(p.1), Lookup(data, Repack(p.1)), size.0, size.1)]
  }

  function FedAll(conns: map<Fd, Conn>, data: RouteMap, pairs: seq<Pair>, sizes: Sizes): map<Fd, Conn> {
    if pairs == [] then conns
    else FedAll(FedOne(conns, data, pairs[0], sizes(pairs[0])), data, pairs[1..], sizes)
  }

  /** No message meets a buffer that an earlier refusal has broken; that would abort the program. */
  predicate Unbroken(conns: map<Fd, Conn>, data: RouteMap, pairs: seq<Pair>, sizes: Sizes) {
    pairs == []
    || ((pairs[0].0 in conns ==> !conns[pairs[0].0].broken)
        && Unbroken(FedOne(conns, data, pairs[0], sizes(pairs[0])), data, pairs[1..], sizes))
  }

  function Targets(pairs: seq<Pair>): set<Fd> {
    set p | p in pairs :: p.0
  }

  /** What is still to be sent after the messages of pairs. */
  function Left(todo: PubMap, pairs: seq<Pair>): PubMap
    decreases |pairs|
  {
    if pairs == [] then todo
    else Left(todo[pairs[0].0 := PendingFor(todo, pairs[0].0) - {pairs[0].1}], pairs[1..])
  }

  predicate NoRepeats(pairs: seq<Pair>) {
    forall i, j :: 0 <= i < j < |pairs| ==> pairs[i] != pairs[j]
  }

  lemma {:induction false} CanRunConcat(s: State, es: seq<Step>, more: seq<Step>)
    requires CanRun(s, es) && CanRun(Run(s, es), more)
    ensures CanRun(s, es + more) && Run(s, es + more) == Run(Run(s, es), more)
    decreases |es|
  {
    hide Enabled, Apply;
    if es == [] {
      assert es + more == more;
    } else {
      assert (es + more)[1..] == es[1..] + more;
      CanRunConcat(Apply(s, es[0]), es[1..], more);
    }
  }

  function After(s: State, t: nat, pairs: seq<Pair>, sizes: Sizes, todo: PubMap): State
    requires t < |s.threads|
  {
    Doing(s.(pub := s.pub - Targets(pairs), conns := FedAll(s.conns, s.data, pairs, sizes)),
          t, Pushing(Left(todo, pairs), Between))
  }

  lemma FetchStep(s: State, t: nat, todo: PubMap, p: Pair)
    requires t < |s.threads| && s.threads[t].activity == Pushing(todo, Between) && p.1 in PendingFor(todo, p.0)
    ensures var e := PushFetch(t, p.0, p.1);
            Enabled(s, e) && Apply(s, e) == Doing(s, t, Pushing(todo[p.0 := PendingFor(todo, p.0) - {p.1}],
                                                                Holding(p.0, p.1, Lookup(s.data, Repack(p.1)))))
  {
    hide Lookup, Repack;
  }

  lemma SendStep(s: State, t: nat, todo: PubMap, p: Pair, size: (nat, bool))
    requires t < |s.threads|
    requires s.threads[t].activity == Pushing(todo, Holding(p.0, p.1, Lookup(s.data, Repack(p.1))))
    requires p.0 in s.conns ==> !s.conns[p.0].broken
    ensures var e := PushSend(t, size.0, size.1);
            && Enabled(s, e)
            && Apply(s, e) == Doing(s.(conns := FedOne(s.conns, s.data, p, size)), t, Pushing(todo, Sent(p.0)))
  {
    hide AfterSend, Lookup, Repack;
  }

  lemma EraseStep(s: State, t: nat, todo: PubMap, fd: Fd)
    requires t < |s.threads| && s.threads[t].activity == Pushing(todo, Sent(fd))
    ensures Enabled(s, PushErase(t))
    ensures Apply(s, PushErase(t)) == Doing(s.(pub := s.pub - {fd}), t, Pushing(todo, Between))
  {
  }

  lemma OnePair(s: State, t: nat, todo: PubMap, p: Pair, size: (nat, bool))
    requires t < |s.threads| && s.threads[t].activity == Pushing(todo, Between)
    requires p.1 in PendingFor(todo, p.0) && (p.0 in s.conns ==> !s.conns[p.0].broken)
    ensures var es := [PushFetch(t, p.0, p.1), PushSend(t, size.0, size.1), PushErase(t)];
            && CanRun(s, es)
            && Run(s, es) == Doing(s.(pub := s.pub - {p.0}, conns := FedOne(s.conns, s.data, p, size)),
                                   t, Pushing(todo[p.0 := PendingFor(todo, p.0) - {p.1}], Between))
  {
    hide Enabled, Apply, FedOne, Lookup, Repack;
    var es := [PushFetch(t, p.0, p.1), PushSend(t, size.0, size.1), PushErase(t)];
    var todo' := todo[p.0 := PendingFor(todo, p.0) - {p.1}];
    FetchStep(s, t, todo, p);
    var s1 := Apply(s, es[0]);
    SendStep(s1, t, todo', p, size);
    var s2 := Apply(s1, es[1]);
    EraseStep(s2, t, todo', p.0);
    RunThree(s, es);
  }

  /** The middle of a push task: a message for each pair, and its entry erased. */
  lemma {:induction false} PushRun(s: State, t: nat, todo: PubMap, pairs: seq<Pair>, sizes: Sizes)
    requires t < |s.threads| && s.threads[t].activity == Pushing(todo, Between) && NoRepeats(pairs)
    requires forall p :: p in pairs ==> p.1 in PendingFor(todo, p.0)
    requires Unbroken(s.conns, s.data, pairs, sizes)
    ensures CanRun(s, PushSteps(t, pairs, sizes))
    ensures Run(s, PushSteps(t, pairs, sizes)) == After(s, t, pairs, sizes, todo)
    decreases |pairs|
  {
    hide FedOne, Enabled, Apply;
    if pairs == [] {
      assert s.pub - Targets([]) == s.pub;
    } else {
      var p, rest := pairs[0], pairs[1..];
      OnePair(s, t, todo, p, sizes(p));
      var es := [PushFetch(t, p.0, p.1), PushSend(t, sizes(p).0, sizes(p).1), PushErase(t)];
      var s' := Run(s, es);
      var todo' := todo[p.0 := PendingFor(todo, p.0) - {p.1}];
      forall q | q in rest
        ensures q.1 in PendingFor(todo', q.0)
      {
        assert q in pairs && q != p;
      }
      PushRun(s', t, todo', rest, sizes);
      CanRunConcat(s, es, PushSteps(t, rest, sizes));
      assert pairs == [p] + rest;
      assert s.pub - {p.0} - Targets(rest) == s.pub - Targets(pairs);
    }
  }

  lemma {:induction false} LeftMeans(todo: PubMap, pairs: seq<Pair>)
    requires forall p :: p in pairs ==> p.0 in todo
    ensures Left(todo, pairs).Keys == todo.Keys
    ensures forall fd, m :: m in PendingFor(Left(todo, pairs), fd) <==> m in PendingFor(todo, fd) && (fd, m) !in pairs
    decreases |pairs|
  {
    if pairs != [] {
      var p, rest := pairs[0], pairs[1..];
      var todo' := todo[p.0 := PendingFor(todo, p.0) - {p.1}];
      assert pairs == [p] + rest;
      assert todo'.Keys == todo.Keys;
      LeftMeans(todo', rest);
      forall fd, m
        ensures m in PendingFor(todo', fd) <==> m in PendingFor(todo, fd) && (fd, m) != p
      {
      }
    }
  }

  /** A whole push task, for its pending pairs in any order. */
  lemma TaskRun(s: State, t: nat, pairs: seq<Pair>, sizes: Sizes)
    requires IsWaiting(s, t) && 0 < s.threads[t].tasks && NoEmptySets(s.pub) && NoRepeats(pairs)
    requires forall fd, m :: (fd, m) in pairs <==> m in PendingFor(Restricted(s.pub, Online(s, t)), fd)
    requires Unbroken(s.conns, s.data, pairs, sizes)
    ensures CanRun(s, TaskSteps(t, pairs, sizes))
    ensures Run(s, TaskSteps(t, pairs, sizes)) ==
            s.(pub := s.pub - Online(s, t), conns := FedAll(s.conns, s.data, pairs, sizes),
               threads := s.threads[t := Thread(s.threads[t].tasks - 1, Waiting)])
  {
    hide FedAll, Unbroken, PushSteps, Restricted, Online, NoEmptySets, NoRepeats;
    var todo := Restricted(s.pub, Online(s, t));
    StartStep(s, t);
    var s1 := Apply(s, StartPush(t));
    forall p | p in pairs
      ensures p.1 in PendingFor(todo, p.0)
    {
      assert (p.0, p.1) in pairs;
    }
    PushRun(s1, t, todo, pairs, sizes);
    var s2 := After(s1, t, pairs, sizes, todo);
    AllSent(todo, pairs);
    EndStep(s2, t, Left(todo, pairs));
    TargetsAre(s.pub, Online(s, t), pairs);
    Bracket(s, StartPush(t), PushSteps(t, pairs, sizes), EndPush(t));
    hide Enabled, Apply, Targets, Left;
  }

  lemma StartStep(s: State, t: nat)
    requires IsWaiting(s, t) && 0 < s.threads[t].tasks
    ensures Enabled(s, StartPush(t))
    ensures Apply(s, StartPush(t)) ==
            s.(threads := s.threads[t := Thread(s.threads[t].tasks - 1,
                                                Pushing(Restricted(s.pub, Online(s, t)), Between))])
  {
    hide Restricted, Online;
  }

  lemma EndStep(s: State, t: nat, todo: PubMap)
    requires t < |s.threads| && s.threads[t].activity == Pushing(todo, Between)
    requires forall fd :: fd in todo ==> todo[fd] == {}
    ensures Enabled(s, EndPush(t)) && Apply(s, EndPush(t)) == Doing(s, t, Waiting)
  {
  }

  lemma AllSent(todo: PubMap, pairs: seq<Pair>)
    requires forall fd, m :: (fd, m) in pairs <==> m in PendingFor(todo, fd)
    ensures forall fd :: fd in Left(todo, pairs) ==> Left(todo, pairs)[fd] == {}
  {
    forall p | p in pairs
      ensures p.0 in todo
    {
      assert (p.0, p.1) in pairs && p.1 in PendingFor(todo, p.0);
    }
    LeftMeans(todo, pairs);
    var left := Left(todo, pairs);
    forall fd | fd in left
      ensures left[fd] == {}
    {
      assert forall m :: m !in PendingFor(left, fd);
    }
  }

  lemma TargetsAre(pub: PubMap, online: set<Fd>, pairs: seq<Pair>)
    requires NoEmptySets(pub)
    requires forall fd, m :: (fd, m) in pairs <==> m in PendingFor(Restricted(pub, online), fd)
    ensures pub - Targets(pairs) == pub - online
  {
    forall fd | fd in pub
      ensures fd in Targets(pairs) <==> fd in online
    {
      if fd in online {
        assert pub[fd] != {};
        var m :| m in pub[fd];
        assert (fd, m) in pairs;
      }
      if fd in Targets(pairs) {
        var p :| p in pairs && p.0 == fd;
        assert (p.0, p.1) in pairs && p.1 in PendingFor(Restricted(pub, online), fd);
      }
    }
  }

  lemma Bracket(s: State, first: Step, es: seq<Step>, last: Step)
    requires Enabled(s, first) && CanRun(Apply(s, first), es) && Enabled(Run(Apply(s, first), es), last)
    ensures CanRun(s, [first] + es + [last])
    ensures Run(s, [first] + es + [last]) == Apply(Run(Apply(s, first), es), last)
  {
    hide Enabled, Apply;
    var s1 := Apply(s, first);
    var s2 := Run(s1, es);
    assert [last][1..] == [] && CanRun(s2, [last]) && Run(s2, [last]) == Apply(s2, last);
    CanRunConcat(s1, es, [last]);
    assert ([first] + es + [last])[1..] == es + [last];
  }

  // ---------------------------------------------------------------- the task over the objects

  function PairsOf(fd: Fd, mods: seq<Mod>): seq<Pair> {
    seq(|mods|, i requires 0 <= i < |mods| => (fd, mods[i]))
  }

  /** The pairs of all connections, one connection after the other. */
  function AllPairs(fds: seq<Fd>, orders: map<Fd, seq<Mod>>): seq<Pair>
    requires forall fd :: fd in fds ==> fd in orders
  {
    if fds == [] then [] else PairsOf(fds[0], orders[fds[0]]) + AllPairs(fds[1..], orders)
  }

  /** The modules of the pairs of one connection. */
  function ModsTo(pairs: seq<Pair>, fd: Fd): seq<Mod> {
    if pairs == [] then []
    else (if pairs[0].0 == fd then [pairs[0].1] else []) + ModsTo(pairs[1..], fd)
  }

  lemma {:induction false} ModsToConcat(a: seq<Pair>, b: seq<Pair>, fd: Fd)
    ensures ModsTo(a + b, fd) == ModsTo(a, fd) + ModsTo(b, fd)
  {
    if a == [] {
      assert a + b == b;
    } else {
      assert (a + b)[1..] == a[1..] + b && (a + b)[0] == a[0];
      ModsToConcat(a[1..], b, fd);
      var first := if a[0].0 == fd then [a[0].1] else [];
      assert first + (ModsTo(a[1..], fd) + ModsTo(b, fd)) == first + ModsTo(a[1..], fd) + ModsTo(b, fd);
    }
  }

  lemma {:induction false} ModsToPairs(g: Fd, mods: seq<Mod>, fd: Fd)
    ensures ModsTo(PairsOf(g, mods), fd) == if g == fd then mods else []
  {
    if mods != [] {
      assert PairsOf(g, mods) == [(g, mods[0])] + PairsOf(g, mods[1..]);
      ModsToPairs(g, mods[1..], fd);
    }
  }

  predicate Once<T(==)>(s: seq<T>) {
    forall i, j :: 0 <= i < j < |s| ==> s[i] != s[j]
  }

  lemma {:induction false} AllPairsMembers(fds: seq<Fd>, orders: map<Fd, seq<Mod>>)
    requires (forall fd :: fd in fds ==> fd in orders && Once(orders[fd])) && Once(fds)
    ensures var pairs := AllPairs(fds, orders);
            NoRepeats(pairs) && forall fd, m :: (fd, m) in pairs <==> fd in fds && m in orders[fd]
  {
    if fds != [] {
      var g, rest := fds[0], fds[1..];
      AllPairsMembers(rest, orders);
      var a, b := PairsOf(g, orders[g]), AllPairs(rest, orders);
      assert fds == [g] + rest && g !in rest;
      forall p | p in a
        ensures p.0 == g && p !in b
      {
        assert p == (p.0, p.1);
      }
      forall fd, m
        ensures (fd, m) in a + b <==> fd in fds && m in orders[fd]
      {
        if fd == g && m in orders[g] {
          var i :| 0 <= i < |orders[g]| && orders[g][i] == m;
          assert a[i] == (fd, m);
        }
      }
    }
  }

  /** The modules of one connection in the pairs come in its own order. */
  lemma {:induction false} AllPairsOrder(fds: seq<Fd>, orders: map<Fd, seq<Mod>>, fd: Fd)
    requires (forall f :: f in fds ==> f in orders) && Once(fds)
    ensures ModsTo(AllPairs(fds, orders), fd) == if fd in fds then orders[fd] else []
  {
    hide ModsTo, PairsOf;
    if fds == [] {
      NoMods(fd);
    } else {
      var g, rest := fds[0], fds[1..];
      assert fds == [g] + rest && g !in rest;
      AllPairsOrder(rest, orders, fd);
      ModsToConcat(PairsOf(g, orders[g]), AllPairs(rest, orders), fd);
      ModsToPairs(g, orders[g], fd);
    }
  }

  lemma NoMods(fd: Fd)
    ensures ModsTo([], fd) == []
  {
  }

  lemma {:induction false} Listed(fds: set<Fd>) returns (list: seq<Fd>)
    ensures Once(list) && forall fd :: fd in list <==> fd in fds
    decreases |fds|
  {
    if fds == {} {
      list := [];
    } else {
      SomeElement(fds);
      var fd :| fd in fds;
      list := Listed(fds - {fd});
      list := [fd] + list;
    }
  }

  lemma {:induction false} FedKeepsMods(conns: map<Fd, Conn>, data: RouteMap, pairs: seq<Pair>, sizes: Sizes)
    ensures var conns' := FedAll(conns, data, pairs, sizes);
            conns'.Keys == conns.Keys && forall fd :: fd in conns ==> conns'[fd].mods == conns[fd].mods
    decreases |pairs|
  {
    hide Lookup, Repack;
    if pairs != [] {
      FedKeepsMods(FedOne(conns, data, pairs[0], sizes(pairs[0])), data, pairs[1..], sizes);
    }
  }

  /** The loop of thread t listens to its connections, and to nothing else that has an entry. */
  predicate ListensFor(s: State, t: nat, online: set<Fd>) {
    Online(s, t) <= online && forall fd :: fd in online && fd in s.pub ==> fd in Online(s, t)
  }

  /** The message says what the steps PushFetch and PushSend say for m: the module m unpacks to and the hosts of
      that one. If the low half of m is not negative it is m itself. */
  ghost predicate Tells(data: RouteMap, m: Mod, r: Response) {
    && Pack(r.modid, r.cmdid) == Repack(m) && r.hosts == Addresses(Lookup(data, Repack(m)))
    && forall modid: Int32, cmdid: Int32 :: m == Pack(modid, cmdid) && 0 <= cmdid ==>
         r == Response(modid, cmdid, Addresses(Lookup(data, m)))
  }

  /** One message for each of the modules, in their order, behind what was sent before. */
  ghost predicate IsTold(was: seq<Response>, now: seq<Response>, data: RouteMap, ms: seq<Mod>) {
    && |now| == |was| + |ms| && now[..|was|] == was
    && forall i :: 0 <= i < |ms| ==> Tells(data, ms[i], now[|was| + i])
  }

  lemma AnswersTell(data: RouteMap, ms: seq<Mod>)
    ensures |PushAnswers(data, ms)| == |ms|
    ensures forall i :: 0 <= i < |ms| ==> Tells(data, ms[i], PushAnswers(data, ms)[i])
  {
    hide Pack, Repack, Lookup, Addresses;
    forall i | 0 <= i < |ms|
      ensures Tells(data, ms[i], PushAnswers(data, ms)[i])
    {
      PushedMessages(data, ms, i);
    }
  }

  /** push_change_task takes the steps of a push task, for the pending pairs in some order; each connection is
      sent the answers to its own pairs in that order. It does so for all sizes of the messages under which
      no message meets a broken buffer. */
  method RunPushTask(svc: Service, conns: map<Fd, Connection>, online: set<Fd>, ghost s: State, ghost t: nat)
    returns (ghost pairs: seq<Pair>)
    requires Represents(s, svc, conns) && NoEmptySets(s.pub)
    requires IsWaiting(s, t) && 0 < s.threads[t].tasks && ListensFor(s, t, online)
    modifies svc.subs`pubList, set fd | fd in online && fd in conns :: conns[fd]
    ensures forall sizes: Sizes :: Unbroken(s.conns, s.data, pairs, sizes) ==>
              CanRun(s, TaskSteps(t, pairs, sizes)) && Represents(Run(s, TaskSteps(t, pairs, sizes)), svc, conns)
    ensures forall fd :: fd in conns ==>
              IsTold(old(conns[fd].outbox), conns[fd].outbox, s.data, ModsTo(pairs, fd))
  {
    hide CanRun, Run, FedAll, Unbroken, TaskSteps, PushAnswers, Tells;
    ghost var orders := svc.PushChangeTask(online, conns);
    ghost var fds := Listed(orders.Keys);
    forall fd | fd in fds
      ensures Once(orders[fd])
    {
      assert Enumerates(orders[fd], s.pub[fd]);
    }
    AllPairsMembers(fds, orders);
    pairs := AllPairs(fds, orders);
    forall fd | fd in conns
      ensures PushAnswers(s.data, ModsTo(pairs, fd)) == Pushed(s.data, orders, fd)
    {
      AllPairsOrder(fds, orders, fd);
      NoAnswers(s.data);
    }
    forall fd | fd in conns
      ensures IsTold(old(conns[fd].outbox), conns[fd].outbox, s.data, ModsTo(pairs, fd))
    {
      AnswersTell(s.data, ModsTo(pairs, fd));
    }
    SameRestriction(s, t, online);
    forall sizes: Sizes | Unbroken(s.conns, s.data, pairs, sizes)
      ensures CanRun(s, TaskSteps(t, pairs, sizes)) && Represents(Run(s, TaskSteps(t, pairs, sizes)), svc, conns)
    {
      TaskRun(s, t, pairs, sizes);
      FedKeepsMods(s.conns, s.data, pairs, sizes);
    }
  }

  lemma NoAnswers(data: RouteMap)
    ensures PushAnswers(data, []) == []
  {
  }

  lemma SameRestriction(s: State, t: nat, online: set<Fd>)
    requires ListensFor(s, t, online)
    ensures Restricted(s.pub, online) == Restricted(s.pub, Online(s, t)) && s.pub - online == s.pub - Online(s, t)
  {
    assert forall fd :: fd in s.pub ==> (fd in online <==> fd in Online(s, t));
    assert Restricted(s.pub, online).Keys == Restricted(s.pub, Online(s, t)).Keys;
  }
}
