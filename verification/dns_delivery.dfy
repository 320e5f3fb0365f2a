/** Pushes are not stuck and not repeated, and the subscription index mirrors the connections: the
    properties of the route service that hold whether or not the rules are obeyed. */
module DnsDelivery {
  import opened Packing
  import opened RouteIndex
  import opened Subscriptions
  import opened DnsProtocol
  import opened DnsSafety
  import opened Wrappers

  ghost predicate Structure(s: State) {
    Mirrored(s) && ThreadsOk(s) && NoEmptySets(s.pub)
  }

  lemma PublisherKeepsStructure(s: State, e: Step)
    requires Structure(s) && Enabled(s, e)
    requires e.Edit? || e.Boot? || e.LoadVersion? || e.LoadData? || e.Swap? || e.LoadChanges? || e.Publish?
        || e.SendTask? || e.RemoveChanges?
    ensures Structure(Apply(s, e))
  {
    hide Published, ModsUpTo, ChangesAbove, Group;
    if e.Publish? {
      PublishedEntries(s.sub, s.pub, Elements(s.pc.list));
    }
    assert |Apply(s, e).threads| == |s.threads|;
    assert forall t: nat :: t < |s.threads| ==> Apply(s, e).threads[t].activity == s.threads[t].activity;
  }

  lemma ConnectionsKeepThreads(s: State, e: Step)
    requires ThreadsOk(s) && Enabled(s, e) && (e.Open? || e.Close? || e.Request? || e.Write?)
    ensures ThreadsOk(Apply(s, e))
  {
    hide Abandoned, Subscribed;
    var s' := Apply(s, e);
    assert |s'.threads| == |s.threads|;
    forall t: nat | t < |s.threads|
      ensures ActivityOk(s', t, s'.threads[t].activity)
    {
      assert ActivityOk(s, t, s.threads[t].activity);
    }
  }

  lemma ConnectionsKeepStructure(s: State, e: Step)
    requires Structure(s) && Enabled(s, e) && (e.Open? || e.Close? || e.Request? || e.Write?)
    ensures Structure(Apply(s, e))
  {
    hide Abandoned, ThreadsOk;
    ConnectionsKeepThreads(s, e);
    var s' := Apply(s, e);
    if e.Close? {
      AbandonedEntries(s.sub, s.conns[e.fd].mods, e.fd);
    }
    forall f, m
      ensures f in Subscribers(s'.sub, m) <==> f in s'.conns && m in s'.conns[f].mods
    {
      assert f in Subscribers(s.sub, m) <==> f in s.conns && m in s.conns[f].mods;
    }
    assert NoEmptySets(s'.sub);
  }

  lemma ToldShape(s: State, fd: Fd, mod: Mod, hosts: Hosts, length: nat, cut: bool)
    ensures var s' := Told(s, fd, mod, hosts, length, cut);
            && s' == s.(conns := s'.conns) && s'.conns.Keys == s.conns.Keys
            && forall f :: f in s.conns ==> s'.conns[f].owner == s.conns[f].owner && s'.conns[f].mods == s.conns[f].mods
  {
  }

  lemma SendShape(s: State, e: Step)
    requires Enabled(s, e)
    ensures e.Reply? ==>
              var a := s.threads[e.t].activity; var s' := Told(s, a.fd, a.mod, a.hosts, e.length, e.cut);
              s' == s.(conns := s'.conns) && s'.conns.Keys == s.conns.Keys
              && forall f :: f in s.conns ==>
                             s'.conns[f].owner == s.conns[f].owner && s'.conns[f].mods == s.conns[f].mods
    ensures e.PushSend? ==>
              var at := s.threads[e.t].activity.at; var s' := Told(s, at.fd, Repack(at.mod), at.hosts, e.length, e.cut);
              s' == s.(conns := s'.conns) && s'.conns.Keys == s.conns.Keys
              && forall f :: f in s.conns ==>
                               s'.conns[f].owner == s.conns[f].owner && s'.conns[f].mods == s.conns[f].mods
  {
    hide Told, Repack;
    if e.Reply? {
      var a := s.threads[e.t].activity;
      ToldShape(s, a.fd, a.mod, a.hosts, e.length, e.cut);
    } else if e.PushSend? {
      var at := s.threads[e.t].activity.at;
      ToldShape(s, at.fd, Repack(at.mod), at.hosts, e.length, e.cut);
    }
  }

  /** The connections' owners and modules, and who is connected, are not changed by a callback. */
  lemma CallbacksKeepConns(s: State, e: Step)
    requires Enabled(s, e) && IsCallback(e)
    ensures var s' := Apply(s, e);
            && s'.sub == s.sub && s'.conns.Keys == s.conns.Keys && s'.pc == s.pc && |s'.threads| == |s.threads|
            && (forall f :: f in s.conns ==>
                               s'.conns[f].owner == s.conns[f].owner && s'.conns[f].mods == s.conns[f].mods)
            && (forall t: nat :: t < |s.threads| && t != e.t ==> s'.threads[t] == s.threads[t])
  {
    hide Told, Restricted, Lookup, Repack;
    SendShape(s, e);
  }

  predicate IsCallback(e: Step) {
    e.Fetch? || e.Reply? || e.StartPush? || e.PushFetch? || e.PushSend? || e.PushErase? || e.EndPush?
  }

  lemma CallbacksKeepMirror(s: State, e: Step)
    requires Structure(s) && Enabled(s, e) && IsCallback(e)
    ensures Mirrored(Apply(s, e)) && NoEmptySets(Apply(s, e).pub)
    ensures forall f, t :: Owned(Apply(s, e), f, t) == Owned(s, f, t)
  {
    hide Told, Repack, Lookup, Restricted, ThreadsOk;
    CallbacksKeepConns(s, e);
    PendingAfterCallback(s, e);
    hide Apply, Enabled;
    SameMirror(s, Apply(s, e));
  }

  lemma PendingAfterCallback(s: State, e: Step)
    requires Enabled(s, e) && IsCallback(e)
    ensures Apply(s, e).pub == if e.PushErase? then s.pub - {s.threads[e.t].activity.at.fd} else s.pub
  {
    hide Restricted, Lookup, Repack;
  }

  lemma CallbacksKeepStructure(s: State, e: Step)
    requires Structure(s) && Enabled(s, e) && IsCallback(e)
    ensures Structure(Apply(s, e))
  {
    hide Mirrored, NoEmptySets;
    CallbacksKeepMirror(s, e);
    CallbacksKeepConns(s, e);
    CallbackIsOk(s, e);
    hide Apply, Enabled;
    forall t: nat | t < |s.threads|
      ensures ActivityOk(Apply(s, e), t, Apply(s, e).threads[t].activity)
    {
      assert ActivityOk(s, t, s.threads[t].activity);
    }
  }

  lemma CallbackIsOk(s: State, e: Step)
    requires ThreadsOk(s) && Enabled(s, e) && IsCallback(e)
    requires forall f, t :: Owned(Apply(s, e), f, t) == Owned(s, f, t)
    ensures |Apply(s, e).threads| == |s.threads| && ActivityOk(Apply(s, e), e.t, Apply(s, e).threads[e.t].activity)
  {
    hide Lookup, Repack, Told;
    CallbacksKeepConns(s, e);
    assert ActivityOk(s, e.t, s.threads[e.t].activity);
    assert e.StartPush? ==> forall fd :: fd in Online(s, e.t) ==> Owned(s, fd, e.t);
    SendShape(s, e);
  }

  lemma StepKeepsStructure(s: State, e: Step)
    requires Structure(s) && Enabled(s, e)
    ensures Structure(Apply(s, e))
  {
    hide Structure, Enabled, Apply;
    if e.Open? || e.Close? || e.Request? || e.Write? {
      ConnectionsKeepStructure(s, e);
    } else if IsCallback(e) {
      CallbacksKeepStructure(s, e);
    } else {
      PublisherKeepsStructure(s, e);
    }
  }

  lemma {:induction false} RunKeepsStructure(s: State, es: seq<Step>)
    requires Structure(s) && CanRun(s, es)
    ensures Structure(Run(s, es))
    decreases |es|
  {
    hide Structure, Enabled, Apply;
    if es != [] {
      StepKeepsStructure(s, es[0]);
      RunKeepsStructure(Apply(s, es[0]), es[1..]);
    }
  }

  /** In every run, a connection stands in the subscription index under exactly the modules of its own
      set, no index entry is empty, and a connection that was closed stands nowhere. */
  lemma SubscriptionsMirrorConnections(s: State, es: seq<Step>)
    requires Initial(s) && CanRun(s, es)
    ensures var s' := Run(s, es);
            && NoEmptySets(s'.sub)
            && (forall fd, m :: fd in Subscribers(s'.sub, m) <==> fd in s'.conns && m in s'.conns[fd].mods)
            && (forall fd, m :: fd !in s'.conns && m in s'.sub ==> fd !in s'.sub[m])
  {
    hide CanRun, Run;
    RunKeepsStructure(s, es);
    var s' := Run(s, es);
    assert forall fd, m :: m in s'.sub && fd in s'.sub[m] ==> fd in Subscribers(s'.sub, m);
  }

  // ---------------------------------------------------------------- pushes are not stuck

  /** A pending entry of a connected client has a push task on its way. */
  ghost predicate Delivery(s: State) {
    forall fd :: fd in s.conns && fd in s.pub ==> TaskComing(s, s.conns[fd].owner) || InFlight(s, s.conns[fd].owner, fd)
  }

  /** A descriptor is not given to a new connection while entries for its old one are pending, unless
      the new owner has a task coming anyway. */
  predicate CleanOpen(s: State, e: Step) {
    e.Open? ==> e.fd !in s.pub || TaskComing(s, e.t)
  }

  /** What a callback of thread e.t does to the entries that thread t has still to erase: a push task takes
      them over at its start and gives them up one by one. */
  lemma CallbackInFlight(s: State, e: Step, t: nat, fd: Fd)
    requires Enabled(s, e) && IsCallback(e) && t < |s.threads|
    ensures var s' := Apply(s, e);
            if t != e.t then InFlight(s', t, fd) == InFlight(s, t, fd)
            else if e.StartPush? then
              !InFlight(s, t, fd) && (InFlight(s', t, fd) <==> PendingFor(Restricted(s.pub, Online(s, t)), fd) != {})
            else (e.PushErase? && s.threads[t].activity.at.fd == fd) || InFlight(s', t, fd) == InFlight(s, t, fd)
  {
    hide Lookup, Repack, Told, Restricted, Online;
    CallbacksKeepConns(s, e);
    if t == e.t {
      SendShape(s, e);
    } else {
      hide Apply, Enabled;
    }
  }

  lemma CallbackKeepsDelivery(s: State, e: Step)
    requires Structure(s) && Enabled(s, e) && Delivery(s) && IsCallback(e)
    ensures Delivery(Apply(s, e))
  {
    CallbacksKeepConns(s, e);
    PendingAfterCallback(s, e);
    forall fd | fd in s.conns && fd in Apply(s, e).pub
      ensures TaskComing(Apply(s, e), s.conns[fd].owner) || InFlight(Apply(s, e), s.conns[fd].owner, fd)
    {
      assert TaskComing(s, s.conns[fd].owner) || InFlight(s, s.conns[fd].owner, fd);
      CallbackKeepsComing(s, e, fd);
    }
    hide Apply, Enabled;
  }

  lemma CallbackKeepsComing(s: State, e: Step, fd: Fd)
    requires Structure(s) && Enabled(s, e) && IsCallback(e) && fd in s.conns && fd in s.pub && fd in Apply(s, e).pub
    requires TaskComing(s, s.conns[fd].owner) || InFlight(s, s.conns[fd].owner, fd)
    ensures TaskComing(Apply(s, e), s.conns[fd].owner) || InFlight(Apply(s, e), s.conns[fd].owner, fd)
  {
    var t := s.conns[fd].owner;
    assert t < |s.threads|;
    CallbackInFlight(s, e, t, fd);
    PendingAfterCallback(s, e);
    CallbacksKeepConns(s, e);
    if e == StartPush(t) {
      assert fd in Online(s, t);
    } else if e.StartPush? {
      assert Apply(s, e).threads[t] == s.threads[t];
    } else {
      TasksAfterCallback(s, e);
    }
    hide Apply, Enabled, InFlight, Mirrored, ThreadsOk;
  }

  lemma TasksAfterCallback(s: State, e: Step)
    requires Enabled(s, e) && IsCallback(e) && !e.StartPush?
    ensures |Apply(s, e).threads| == |s.threads| && Apply(s, e).threads[e.t].tasks == s.threads[e.t].tasks
  {
    hide Lookup, Repack, Told;
    SendShape(s, e);
  }

  lemma StepKeepsDelivery(s: State, e: Step)
    requires Structure(s) && Enabled(s, e) && Delivery(s) && CleanOpen(s, e)
    ensures Delivery(Apply(s, e))
  {
    hide Published, ModsUpTo, ChangesAbove, Group, Abandoned, Subscribed, Mirrored, ActivityOk;
    if IsCallback(e) {
      CallbackKeepsDelivery(s, e);
      return;
    }
    var s' := Apply(s, e);
    forall fd | fd in s'.conns && fd in s'.pub
      ensures TaskComing(s', s'.conns[fd].owner) || InFlight(s', s'.conns[fd].owner, fd)
    {
      if fd in s.conns {
        assert s'.conns[fd].owner == s.conns[fd].owner < |s.threads|;
        if !e.Publish? {
          assert TaskComing(s, s.conns[fd].owner) || InFlight(s, s.conns[fd].owner, fd);
        }
      }
    }
  }

  /** Opening a connection keeps the guarantee exactly when the open is clean. */
  lemma OpenKeepsDeliveryIff(s: State, fd: Fd, t: nat)
    requires Structure(s) && Enabled(s, Open(fd, t)) && Delivery(s)
    ensures Delivery(Apply(s, Open(fd, t))) <==> CleanOpen(s, Open(fd, t))
  {
    var s' := Apply(s, Open(fd, t));
    if CleanOpen(s, Open(fd, t)) {
      StepKeepsDelivery(s, Open(fd, t));
    } else {
      assert fd in s'.conns && fd in s'.pub && s'.conns[fd].owner == t;
      assert !TaskComing(s', t) && !InFlight(s', t, fd);
    }
  }

  ghost predicate CleanOpens(s: State, es: seq<Step>)
    requires CanRun(s, es)
    decreases |es|
  {
    es == [] || (CleanOpen(s, es[0]) && CleanOpens(Apply(s, es[0]), es[1..]))
  }

  lemma {:induction false} RunKeepsDelivery(s: State, es: seq<Step>)
    requires Structure(s) && Delivery(s) && CanRun(s, es) && CleanOpens(s, es)
    ensures Delivery(Run(s, es))
    decreases |es|
  {
    hide Structure, Enabled, Apply, Delivery, CleanOpen;
    if es != [] {
      StepKeepsStructure(s, es[0]);
      StepKeepsDelivery(s, es[0]);
      RunKeepsDelivery(Apply(s, es[0]), es[1..]);
    }
  }

  /** In every run with clean opens no entry of a connected client is ever stuck, and once all is quiet
      none is left. */
  lemma NoStuckPush(s: State, es: seq<Step>)
    requires Initial(s) && CanRun(s, es) && CleanOpens(s, es)
    ensures Delivery(Run(s, es))
    ensures Quiet(Run(s, es)) ==> Run(s, es).pub.Keys !! Run(s, es).conns.Keys
  {
    hide CanRun, Run, CleanOpens;
    RunKeepsDelivery(s, es);
    RunKeepsStructure(s, es);
    var s' := Run(s, es);
    if Quiet(s') {
      forall fd | fd in s'.conns
        ensures fd !in s'.pub
      {
        assert s'.conns[fd].owner < |s'.threads|;
        assert !TaskComing(s', s'.conns[fd].owner) && !InFlight(s', s'.conns[fd].owner, fd);
      }
    }
  }

  // ---------------------------------------------------------------- publish, exactly

  /** Publishing keeps the guarantee of no lost update exactly when every affected client whose push
      task is under way has the module still to be read, or happens to hold its current route, or is
      owed a newer change anyway. */
  lemma PublishKeepsIff(s: State)
    requires Inv(s) && Enabled(s, Publish)
    ensures Inv(Apply(s, Publish)) <==>
            forall fd, m :: fd in s.conns && m in s.conns[fd].mods && Addressable(m) && m in s.pc.list
                            && InFlight(s, s.conns[fd].owner, fd) ==>
              m in PendingFor(s.threads[s.conns[fd].owner].activity.todo, fd)
              || Unread(s, m) || Latest(s, fd, m) == Some(HostsOf(s.table, m))
  {
    hide HostsOf, Addressable, Published;
    var s' := Apply(s, Publish);
    PublishedEntries(s.sub, s.pub, Elements(s.pc.list));
    assert forall m :: Unread(s, m) == Unread(s', m);
    forall fd, m | fd in s.conns && m in s.conns[fd].mods && Addressable(m)
      ensures Covered(s', fd, m) <==>
              (m in s.pc.list && InFlight(s, s.conns[fd].owner, fd) ==>
                m in PendingFor(s.threads[s.conns[fd].owner].activity.todo, fd)
                || Unread(s, m) || Latest(s, fd, m) == Some(HostsOf(s.table, m)))
    {
      assert Covered(s, fd, m);
      if m in s.pc.list {
        assert fd in Subscribers(s.sub, m);
        assert m in Affected(s.sub, Elements(s.pc.list), fd);
      }
    }
  }
}
