/** Pushes are not repeated: how many messages push tasks send to a connection about a module, in every
    run and whatever runs between their steps. A message counts when send_message is called for it. */
module DnsMessages {
  import opened Packing
  import opened RouteIndex
  import opened Subscriptions
  import opened DnsProtocol
  import opened DnsSafety
  import opened DnsDelivery

  /** The step sends the push of module m to fd. */
  predicate Sends(s: State, e: Step, fd: Fd, m: Mod)
    requires Enabled(s, e)
  {
    e.PushSend? && s.threads[e.t].activity.at.fd == fd && s.threads[e.t].activity.at.mod == m
  }

  /** The messages about m that a run sends to fd. */
  function Messages(s: State, es: seq<Step>, fd: Fd, m: Mod): nat
    requires CanRun(s, es)
    decreases |es|
  {
    if es == [] then 0
    else (if Sends(s, es[0], fd, m) then 1 else 0) + Messages(Apply(s, es[0]), es[1..], fd, m)
  }

  /** Those of them that thread t sends. */
  function MessagesOf(s: State, es: seq<Step>, t: nat, fd: Fd, m: Mod): nat
    requires CanRun(s, es)
    decreases |es|
  {
    if es == [] then 0
    else
      (if Sends(s, es[0], fd, m) && es[0].t == t then 1 else 0) + MessagesOf(Apply(s, es[0]), es[1..], t, fd, m)
  }

  /** The messages the push task that t is running has still to send. */
  function Owed(s: State, t: nat, fd: Fd, m: Mod): nat
    requires t < |s.threads|
  {
    var a := s.threads[t].activity;
    if !a.Pushing? then 0
    else
      (if m in PendingFor(a.todo, fd) then 1 else 0)
      + if a.at.Holding? && a.at.fd == fd && a.at.mod == m then 1 else 0
  }

  // ---------------------------------------------------------------- one push task

  lemma StepCounts(s: State, e: Step, t: nat, fd: Fd, m: Mod)
    requires Enabled(s, e) && t < |s.threads| && e != StartPush(t)
    ensures |Apply(s, e).threads| == |s.threads|
    ensures Owed(Apply(s, e), t, fd, m) + (if Sends(s, e, fd, m) && e.t == t then 1 else 0) == Owed(s, t, fd, m)
  {
    hide Group, Published, ModsUpTo, ChangesAbove, Lookup, Repack, Abandoned, Subscribed, Restricted, Elements, Told;
    SendShape(s, e);
  }

  lemma {:induction false} RunCounts(s: State, es: seq<Step>, t: nat, fd: Fd, m: Mod)
    requires CanRun(s, es) && t < |s.threads| && StartPush(t) !in es
    ensures t < |Run(s, es).threads|
    ensures Owed(Run(s, es), t, fd, m) + MessagesOf(s, es, t, fd, m) == Owed(s, t, fd, m)
    decreases |es|
  {
    hide Apply, Enabled, Owed, Sends;
    if es != [] {
      assert es[0] in es;
      StepCounts(s, es[0], t, fd, m);
      RunCounts(Apply(s, es[0]), es[1..], t, fd, m);
    }
  }

  /** From the start of a push task to its end, whatever other threads, editors and the publisher do in
      between: one message for each module that was pending at its start for a connection of its own
      loop, and no other message. At no earlier point has a message been sent twice. */
  lemma PushTaskSendsEachOnce(s: State, es: seq<Step>, t: nat, fd: Fd, m: Mod)
    requires CanRun(s, [StartPush(t)] + es) && StartPush(t) !in es
    ensures var due := if fd in Online(s, t) && m in PendingFor(s.pub, fd) then 1 else 0;
            var all := [StartPush(t)] + es;
            && t < |Run(s, all).threads|
            && MessagesOf(s, all, t, fd, m) <= due
            && (Run(s, all).threads[t].activity == Waiting ==> MessagesOf(s, all, t, fd, m) == due)
  {
    var all := [StartPush(t)] + es;
    assert all[0] == StartPush(t) && all[1..] == es;
    RunCounts(Apply(s, StartPush(t)), es, t, fd, m);
  }

  // ---------------------------------------------------------------- all push tasks together

  /** The thread of fd still has to erase the pending entry of fd. */
  predicate Flying(s: State, fd: Fd) {
    fd in s.conns && InFlight(s, s.conns[fd].owner, fd)
  }

  /** The messages about m that are on their way to fd: in the hands of its thread, or pending with no
      task under way that is about to erase the entry. */
  function Due(s: State, fd: Fd, m: Mod): nat {
    (if fd in s.conns && s.conns[fd].owner < |s.threads| then Owed(s, s.conns[fd].owner, fd, m) else 0)
    + Resting(s, fd, m)
  }

  function Resting(s: State, fd: Fd, m: Mod): nat {
    if m in PendingFor(s.pub, fd) && !Flying(s, fd) then 1 else 0
  }

  /** The step is a publish that concerns fd and m. */
  predicate Affects(s: State, e: Step, fd: Fd, m: Mod)
    requires Enabled(s, e)
  {
    e == Publish && m in s.pc.list && fd in Subscribers(s.sub, m)
  }

  function Publishes(s: State, es: seq<Step>, fd: Fd, m: Mod): nat
    requires CanRun(s, es)
    decreases |es|
  {
    if es == [] then 0
    else (if Affects(s, es[0], fd, m) then 1 else 0) + Publishes(Apply(s, es[0]), es[1..], fd, m)
  }

  lemma CallbackDue(s: State, e: Step, fd: Fd, m: Mod)
    requires Structure(s) && Enabled(s, e) && IsCallback(e)
    ensures Due(Apply(s, e), fd, m) + (if Sends(s, e, fd, m) then 1 else 0) == Due(s, fd, m)
  {
    if fd in s.conns && e == StartPush(s.conns[fd].owner) {
      StartDue(s, fd, m);
    } else {
      if Sends(s, e, fd, m) {
        OwnerSends(s, e, fd, m);
      }
      CallbacksKeepConns(s, e);
      CallbackKeepsResting(s, e, fd, m);
      if fd in s.conns {
        OwnerExists(s, fd);
        StepCounts(s, e, s.conns[fd].owner, fd, m);
      }
      hide Apply, Enabled, Owed, Sends, Structure, Resting;
    }
  }

  lemma StartDue(s: State, fd: Fd, m: Mod)
    requires Structure(s) && fd in s.conns && Enabled(s, StartPush(s.conns[fd].owner))
    ensures Due(Apply(s, StartPush(s.conns[fd].owner)), fd, m) == Due(s, fd, m)
  {
    hide Mirrored, ActivityOk;
    assert fd in Online(s, s.conns[fd].owner);
  }

  lemma OwnerSends(s: State, e: Step, fd: Fd, m: Mod)
    requires Structure(s) && Enabled(s, e) && Sends(s, e, fd, m)
    ensures fd in s.conns && e.t == s.conns[fd].owner
  {
    assert ActivityOk(s, e.t, s.threads[e.t].activity);
  }

  lemma CallbackKeepsResting(s: State, e: Step, fd: Fd, m: Mod)
    requires Structure(s) && Enabled(s, e) && IsCallback(e) && !(fd in s.conns && e == StartPush(s.conns[fd].owner))
    ensures Resting(Apply(s, e), fd, m) == Resting(s, fd, m)
  {
    CallbacksKeepConns(s, e);
    PendingAfterCallback(s, e);
    if e.PushErase? {
      ErasedByOwner(s, e.t);
    }
    if fd in s.conns {
      OwnerExists(s, fd);
      CallbackInFlight(s, e, s.conns[fd].owner, fd);
    }
    hide Apply, Enabled, InFlight, Structure;
  }

  lemma ErasedByOwner(s: State, t: nat)
    requires Structure(s) && Enabled(s, PushErase(t))
    ensures var fd := s.threads[t].activity.at.fd; fd in s.conns && s.conns[fd].owner == t && InFlight(s, t, fd)
  {
    assert ActivityOk(s, t, s.threads[t].activity);
  }

  lemma OtherDue(s: State, e: Step, fd: Fd, m: Mod)
    requires Structure(s) && Enabled(s, e) && !IsCallback(e) && !e.Publish?
    ensures Due(Apply(s, e), fd, m) == Due(s, fd, m) && !Sends(s, e, fd, m)
  {
    hide Group, ModsUpTo, ChangesAbove, Lookup, Abandoned, Subscribed, Mirrored;
    assert fd in s.conns ==> s.conns[fd].owner < |s.threads|;
  }

  lemma PublishDue(s: State, fd: Fd, m: Mod)
    requires Structure(s) && Enabled(s, Publish)
    ensures Due(s, fd, m) <= Due(Apply(s, Publish), fd, m)
    ensures Due(Apply(s, Publish), fd, m) <= Due(s, fd, m) + if Affects(s, Publish, fd, m) then 1 else 0
    ensures !Flying(s, fd) && fd !in s.pub ==>
              Due(Apply(s, Publish), fd, m) == Due(s, fd, m) + if Affects(s, Publish, fd, m) then 1 else 0
  {
    hide Published, Mirrored;
    PublishedEntries(s.sub, s.pub, Elements(s.pc.list));
    var s' := Apply(s, Publish);
    assert Flying(s', fd) == Flying(s, fd);
  }

  /** Over every run: the messages about m sent to fd are at most those that were on their way and one for
      each publish that concerned fd and m. Without a publish they are exactly those that are no longer on
      their way. */
  lemma {:induction false} NoMoreThanPublished(s: State, es: seq<Step>, fd: Fd, m: Mod)
    requires Structure(s) && CanRun(s, es)
    ensures Messages(s, es, fd, m) + Due(Run(s, es), fd, m) <= Due(s, fd, m) + Publishes(s, es, fd, m)
    ensures Publish !in es ==> Messages(s, es, fd, m) + Due(Run(s, es), fd, m) == Due(s, fd, m)
    decreases |es|
  {
    hide Structure, Enabled, Apply, Due, Sends, Affects;
    if es != [] {
      var e := es[0];
      assert e in es;
      StepKeepsStructure(s, e);
      if e.Publish? {
        PublishDue(s, fd, m);
        PublishSendsNothing(s, fd, m);
      } else {
        OnlyPublishAffects(s, e, fd, m);
        if IsCallback(e) {
          CallbackDue(s, e, fd, m);
        } else {
          OtherDue(s, e, fd, m);
        }
      }
      NoMoreThanPublished(Apply(s, e), es[1..], fd, m);
    }
  }

  lemma PublishSendsNothing(s: State, fd: Fd, m: Mod)
    requires Enabled(s, Publish)
    ensures !Sends(s, Publish, fd, m)
  {
  }

  lemma OnlyPublishAffects(s: State, e: Step, fd: Fd, m: Mod)
    requires Enabled(s, e) && !e.Publish?
    ensures !Affects(s, e, fd, m)
  {
  }

  // ---------------------------------------------------------------- a round

  /** Whatever is pending for fd is about to be erased by its own thread. */
  predicate Claimed(s: State, fd: Fd) {
    fd in s.conns && (fd in s.pub ==> Flying(s, fd))
  }

  lemma StartClaims(s: State, fd: Fd)
    requires Structure(s) && fd in s.conns && Enabled(s, StartPush(s.conns[fd].owner))
    ensures Claimed(Apply(s, StartPush(s.conns[fd].owner)), fd)
  {
    assert fd in Online(s, s.conns[fd].owner);
  }

  lemma StaysClaimed(s: State, e: Step, fd: Fd)
    requires Structure(s) && Enabled(s, e) && Claimed(s, fd) && !e.Publish? && e != Close(fd)
    ensures Claimed(Apply(s, e), fd)
  {
    if IsCallback(e) {
      CallbackKeepsClaimed(s, e, fd);
    } else {
      hide Group, ModsUpTo, ChangesAbove, Lookup, Repack, Abandoned, Subscribed, Mirrored, ActivityOk;
      assert s.conns[fd].owner < |s.threads|;
    }
  }

  lemma CallbackKeepsClaimed(s: State, e: Step, fd: Fd)
    requires Structure(s) && Enabled(s, e) && Claimed(s, fd) && IsCallback(e)
    ensures Claimed(Apply(s, e), fd)
  {
    CallbacksKeepConns(s, e);
    PendingAfterCallback(s, e);
    OwnerExists(s, fd);
    CallbackInFlight(s, e, s.conns[fd].owner, fd);
    hide Apply, Enabled, InFlight, Structure;
  }

  lemma {:induction false} RoundClaims(s: State, es: seq<Step>, fd: Fd)
    requires Structure(s) && CanRun(s, es) && fd in s.conns && Publish !in es && Close(fd) !in es
    requires Claimed(s, fd) || StartPush(s.conns[fd].owner) in es
    ensures Claimed(Run(s, es), fd) && Run(s, es).conns[fd].owner == s.conns[fd].owner
    decreases |es|
  {
    hide Structure, Enabled, Apply, Claimed;
    if es == [] {
      IsConnected(s, fd);
    } else {
      var e := es[0];
      assert e in es;
      StepKeepsStructure(s, e);
      OwnerStays(s, e, fd);
      if e == StartPush(s.conns[fd].owner) {
        StartClaims(s, fd);
      } else if Claimed(s, fd) {
        StaysClaimed(s, e, fd);
      }
      RoundClaims(Apply(s, e), es[1..], fd);
    }
  }

  lemma IsConnected(s: State, fd: Fd)
    requires Claimed(s, fd)
    ensures fd in s.conns
  {
  }

  lemma OwnerStays(s: State, e: Step, fd: Fd)
    requires Enabled(s, e) && fd in s.conns && e != Close(fd)
    ensures fd in Apply(s, e).conns && Apply(s, e).conns[fd].owner == s.conns[fd].owner
  {
    if IsCallback(e) {
      CallbacksKeepConns(s, e);
    } else {
      hide Group, Published, ModsUpTo, ChangesAbove, Lookup, Repack, Abandoned, Subscribed;
    }
  }

  /** A round without a publish in it, in any interleaving: once the thread of a client that stays connected
      has started a push task and is no longer running one, the client has been sent exactly one message
      for each module that was on its way, by whatever number of tasks, and nothing is pending for it. */
  lemma RoundServesEachClientOnce(s: State, es: seq<Step>, fd: Fd, m: Mod)
    requires Structure(s) && CanRun(s, es) && fd in s.conns && Publish !in es && Close(fd) !in es
    requires var t := s.conns[fd].owner;
             && StartPush(t) in es && t < |Run(s, es).threads| && !Run(s, es).threads[t].activity.Pushing?
    ensures Messages(s, es, fd, m) == Due(s, fd, m) && fd !in Run(s, es).pub
    ensures !Flying(s, fd) ==> Messages(s, es, fd, m) == if m in PendingFor(s.pub, fd) then 1 else 0
  {
    hide Structure, Run, CanRun, Messages;
    NoMoreThanPublished(s, es, fd, m);
    RoundClaims(s, es, fd);
    var s' := Run(s, es);
    assert !Flying(s', fd);
    assert Structure(s) ==> s.conns[fd].owner < |s.threads| by { OwnerExists(s, fd); }
  }

  lemma OwnerExists(s: State, fd: Fd)
    requires Structure(s) && fd in s.conns
    ensures s.conns[fd].owner < |s.threads|
  {
  }

  /** One publish and the round after it: a client with nothing pending before is sent exactly one message
      for each changed module it subscribes to and none for any other, and nothing is pending for it. */
  lemma OnePublishOneMessage(s: State, es: seq<Step>, fd: Fd, m: Mod)
    requires Structure(s) && CanRun(s, [Publish] + es) && Publish !in es && Close(fd) !in es
    requires fd in s.conns && fd !in s.pub && !Flying(s, fd)
    requires var t := s.conns[fd].owner;
             && StartPush(t) in es && t < |Run(s, [Publish] + es).threads|
             && !Run(s, [Publish] + es).threads[t].activity.Pushing?
    ensures Messages(s, [Publish] + es, fd, m) == if m in s.pc.list && m in s.conns[fd].mods then 1 else 0
    ensures fd !in Run(s, [Publish] + es).pub
  {
    var all, s1 := [Publish] + es, Apply(s, Publish);
    assert all[0] == Publish && all[1..] == es;
    StepKeepsStructure(s, Publish);
    PublishDue(s, fd, m);
    OwnerExists(s, fd);
    assert fd in Subscribers(s.sub, m) <==> m in s.conns[fd].mods;
    RoundServesEachClientOnce(s1, es, fd, m);
    assert Due(s, fd, m) == 0;
  }
}
