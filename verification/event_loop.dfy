/** One thread's event loop: which descriptors it watches, for what, and whom it calls. */
module EventLoops {
  import opened Wrappers

  /** The bits of an interest mask the program uses; a mask is the set of its bits. */
  datatype Flag = EPOLLIN | EPOLLOUT | EPOLLERR | EPOLLHUP

  type Mask = set<Flag>

  datatype IoEvent<Proc> = IoEvent(mask: Mask, read: Option<Proc>, write: Option<Proc>)

  /** The event of a descriptor after one more registration. */
  function Registered<Proc>(evs: map<int, IoEvent<Proc>>, fd: int, proc: Proc, mask: Mask): IoEvent<Proc> {
    var ev := if fd in evs then evs[fd].(mask := evs[fd].mask + mask) else IoEvent(mask, None, None);
    if EPOLLIN in mask then ev.(read := Some(proc))
    else if EPOLLOUT in mask then ev.(write := Some(proc))
    else ev
  }

  /** The events after mask is withdrawn from a descriptor. */
  function Withdrawn<Proc>(evs: map<int, IoEvent<Proc>>, fd: int, mask: Mask): map<int, IoEvent<Proc>> {
    if fd !in evs then evs
    else if evs[fd].mask - mask == {} then evs - {fd}
    else evs[fd := evs[fd].(mask := evs[fd].mask - mask)]
  }

  /** Withdrawing what was just registered restores the interest of a descriptor that had another one. */
  lemma WithdrawUndoesRegister<Proc>(evs: map<int, IoEvent<Proc>>, fd: int, proc: Proc, mask: Mask)
    requires fd in evs && evs[fd].mask !! mask && evs[fd].mask != {}
    ensures var evs' := Withdrawn(evs[fd := Registered(evs, fd, proc, mask)], fd, mask);
            evs'.Keys == evs.Keys && evs'[fd].mask == evs[fd].mask && evs' - {fd} == evs - {fd}
  {
    assert evs[fd].mask + mask - mask == evs[fd].mask;
  }

  /** There is somebody to call for every watched flag. */
  predicate Wired<Proc>(ev: IoEvent<Proc>) {
    (EPOLLIN in ev.mask ==> ev.read.Some?) && (EPOLLOUT in ev.mask ==> ev.write.Some?)
  }

  /** A registration for both directions at once sets the read callback only. */
  lemma RegisterKeepsWiredIff<Proc>(evs: map<int, IoEvent<Proc>>, fd: int, proc: Proc, mask: Mask)
    requires fd in evs ==> Wired(evs[fd])
    ensures Wired(Registered(evs, fd, proc, mask))
            <==> EPOLLIN !in mask || EPOLLOUT !in mask || (fd in evs && evs[fd].write.Some?)
  {
  }

  lemma WithdrawKeepsWired<Proc>(evs: map<int, IoEvent<Proc>>, fd: int, mask: Mask)
    requires forall d :: d in evs ==> Wired(evs[d])
    ensures forall d :: d in Withdrawn(evs, fd, mask) ==> Wired(Withdrawn(evs, fd, mask)[d])
  {
  }

  /** What the loop does about one fired descriptor. */
  datatype Service<Proc> = Call(proc: Proc) | CallNull | Delete | Ignore

  function ServiceOf<Proc>(ev: IoEvent<Proc>, events: Mask): Service<Proc> {
    if EPOLLIN in events then CallOf(ev.read)
    else if EPOLLOUT in events then CallOf(ev.write)
    else if EPOLLHUP in events || EPOLLERR in events then
      (if ev.read.Some? then CallOf(ev.read) else if ev.write.Some? then CallOf(ev.write) else Delete)
    else Ignore
  }

  function CallOf<Proc>(p: Option<Proc>): Service<Proc> {
    if p.Some? then Call(p.value) else CallNull
  }

  /** epoll reports watched flags, errors and hang-ups only; so a wired event never calls a null pointer,
      and whatever is reported is served. */
  lemma WiredIsServed<Proc>(ev: IoEvent<Proc>, events: Mask)
    requires Wired(ev) && events <= ev.mask + {EPOLLHUP, EPOLLERR}
    ensures ServiceOf(ev, events) != CallNull
    ensures EPOLLIN in events ==> ServiceOf(ev, events) == Call(ev.read.value)
    ensures EPOLLOUT in events && EPOLLIN !in events ==> ServiceOf(ev, events) == Call(ev.write.value)
    ensures events != {} && events <= {EPOLLHUP, EPOLLERR} ==>
              ServiceOf(ev, events) == if ev.read.Some? then Call(ev.read.value)
                                       else if ev.write.Some? then Call(ev.write.value) else Delete
  {
    if events != {} && events <= {EPOLLHUP, EPOLLERR} {
      var e: Flag :| e in events;
    }
  }

  datatype Request<Proc> = Add(fd: int, proc: Proc, mask: Mask) | Withdraw(fd: int, mask: Mask) | Remove(fd: int)

  function Applied<Proc>(evs: map<int, IoEvent<Proc>>, r: Request<Proc>): map<int, IoEvent<Proc>> {
    match r
    case Add(fd, proc, mask) => evs[fd := Registered(evs, fd, proc, mask)]
    case Withdraw(fd, mask) => Withdrawn(evs, fd, mask)
    case Remove(fd) => evs - {fd}
  }

  function After<Proc>(evs: map<int, IoEvent<Proc>>, requests: seq<Request<Proc>>): map<int, IoEvent<Proc>> {
    if requests == [] then evs
    else Applied(After(evs, requests[..|requests| - 1]), requests[|requests| - 1])
  }

  /** The events after a history of requests. */
  function Events<Proc>(requests: seq<Request<Proc>>): map<int, IoEvent<Proc>> {
    After(map[], requests)
  }

  /** As long as nobody registers for both directions in one call, whatever is reported, at any time, for
      any descriptor, is served by the callback registered for it. */
  lemma {:induction false} AlwaysServed<Proc>(requests: seq<Request<Proc>>, fd: int, events: Mask)
    requires forall r :: r in requests && r.Add? ==> EPOLLIN !in r.mask || EPOLLOUT !in r.mask
    requires fd in Events(requests) && events <= Events(requests)[fd].mask + {EPOLLHUP, EPOLLERR}
    ensures var ev := Events(requests)[fd];
            && ServiceOf(ev, events) != CallNull
            && (EPOLLIN in events ==> ServiceOf(ev, events) == Call(ev.read.value))
            && (EPOLLOUT in events && EPOLLIN !in events ==> ServiceOf(ev, events) == Call(ev.write.value))
            && (events != {} && events <= {EPOLLHUP, EPOLLERR} ==>
                  ServiceOf(ev, events) == if ev.read.Some? then Call(ev.read.value)
                                           else if ev.write.Some? then Call(ev.write.value) else Delete)
  {
    AlwaysWired(requests);
    WiredIsServed(Events(requests)[fd], events);
  }

  /** Who is called for what arrives is whoever registered for it last, through any later requests for the
      same descriptor that leave this interest alone and any for others. */
  lemma {:induction false} LatestReader<Proc>(evs: map<int, IoEvent<Proc>>, fd: int, proc: Proc, mask: Mask,
                                              later: seq<Request<Proc>>)
    requires EPOLLIN in mask && forall r :: r in later && r.fd == fd ==> !r.Remove? && EPOLLIN !in r.mask
    ensures var all := After(Applied(evs, Add(fd, proc, mask)), later);
            && fd in all && EPOLLIN in all[fd].mask && all[fd].read == Some(proc)
            && forall events: Mask :: EPOLLIN in events ==> ServiceOf(all[fd], events) == Call(proc)
  {
    if later != [] {
      var before, r := later[..|later| - 1], later[|later| - 1];
      LatestReader(evs, fd, proc, mask, before);
      var was := After(Applied(evs, Add(fd, proc, mask)), before);
      assert r in later;
      if r.fd == fd && r.Withdraw? {
        assert EPOLLIN in was[fd].mask - r.mask;
      }
    }
  }

  /** The same for room to write. */
  lemma {:induction false} LatestWriter<Proc>(evs: map<int, IoEvent<Proc>>, fd: int, proc: Proc, mask: Mask,
                                              later: seq<Request<Proc>>)
    requires EPOLLOUT in mask && EPOLLIN !in mask
    requires forall r :: r in later && r.fd == fd ==> !r.Remove? && EPOLLOUT !in r.mask
    ensures var all := After(Applied(evs, Add(fd, proc, mask)), later);
            && fd in all && EPOLLOUT in all[fd].mask && all[fd].write == Some(proc)
            && forall events: Mask ::
                 EPOLLOUT in events && EPOLLIN !in events ==> ServiceOf(all[fd], events) == Call(proc)
  {
    if later != [] {
      var before, r := later[..|later| - 1], later[|later| - 1];
      LatestWriter(evs, fd, proc, mask, before);
      var was := After(Applied(evs, Add(fd, proc, mask)), before);
      assert r in later;
      if r.fd == fd && r.Withdraw? {
        assert EPOLLOUT in was[fd].mask - r.mask;
      }
    }
  }

  lemma {:induction false} AlwaysWired<Proc>(requests: seq<Request<Proc>>)
    requires forall r :: r in requests && r.Add? ==> EPOLLIN !in r.mask || EPOLLOUT !in r.mask
    ensures forall fd :: fd in Events(requests) ==> Wired(Events(requests)[fd])
  {
    if requests != [] {
      var before := requests[..|requests| - 1];
      AlwaysWired(before);
      var evs := Events(before);
      match requests[|requests| - 1] {
        case Add(fd, proc, mask) => RegisterKeepsWiredIff(evs, fd, proc, mask);
        case Withdraw(fd, mask) => WithdrawKeepsWired(evs, fd, mask);
        case Remove(fd) =>
      }
    }
  }

  // ---------------------------------------------------------------- one batch of fired descriptors

  /** One descriptor of a batch: what epoll reported of it, and what its callback asks of the loop. */
  datatype Turn<Proc> = Turn(fd: int, events: Mask, requests: seq<Request<Proc>>)

  datatype Progress<Proc> = Served(evs: map<int, IoEvent<Proc>>) | AssertionFails | NullCall

  function Turned<Proc>(evs: map<int, IoEvent<Proc>>, t: Turn<Proc>): Progress<Proc> {
    if t.fd !in evs then AssertionFails
    else
      match ServiceOf(evs[t.fd], t.events)
      case Call(_) => Served(After(evs, t.requests))
      case CallNull => NullCall
      case Delete => Served(evs - {t.fd})
      case Ignore => Served(evs)
  }

  /** The loop over the fired descriptors looks each of them up when its turn comes. */
  function Batch<Proc>(evs: map<int, IoEvent<Proc>>, turns: seq<Turn<Proc>>): Progress<Proc>
    decreases |turns|
  {
    if turns == [] then Served(evs)
    else
      var o := Turned(evs, turns[0]);
      if o.Served? then Batch(o.evs, turns[1..]) else o
  }

  predicate Usable<Proc>(evs: map<int, IoEvent<Proc>>) {
    forall fd :: fd in evs ==> Wired(evs[fd]) && (evs[fd].read.Some? || evs[fd].write.Some?)
  }

  predicate Reported<Proc>(evs: map<int, IoEvent<Proc>>, t: Turn<Proc>) {
    t.fd in evs && t.events != {} && t.events <= evs[t.fd].mask + {EPOLLHUP, EPOLLERR}
  }

  /** epoll_wait reports watched descriptors, each once. */
  predicate Fired<Proc>(evs: map<int, IoEvent<Proc>>, turns: seq<Turn<Proc>>) {
    && (forall i :: 0 <= i < |turns| ==> Reported(evs, turns[i]))
    && forall i, j :: 0 <= i < j < |turns| ==> turns[i].fd != turns[j].fd
  }

  ghost predicate OneWay<Proc>(requests: seq<Request<Proc>>) {
    forall r :: r in requests && r.Add? ==> (EPOLLIN in r.mask <==> EPOLLOUT !in r.mask)
  }

  ghost predicate Adds<Proc>(requests: seq<Request<Proc>>, fd: int) {
    exists r :: r in requests && r.Add? && r.fd == fd
  }

  ghost predicate Removes<Proc>(requests: seq<Request<Proc>>, fd: int) {
    exists r :: r in requests && r.Remove? && r.fd == fd
  }

  ghost predicate Withdraws<Proc>(requests: seq<Request<Proc>>, fd: int) {
    exists r :: r in requests && r.Withdraw? && r.fd == fd
  }

  lemma {:induction false} AfterUsable<Proc>(evs: map<int, IoEvent<Proc>>, requests: seq<Request<Proc>>)
    requires Usable(evs) && OneWay(requests)
    ensures Usable(After(evs, requests))
  {
    if requests != [] {
      var before := requests[..|requests| - 1];
      AfterUsable(evs, before);
      var r := requests[|requests| - 1];
      if r.Withdraw? {
        WithdrawKeepsWired(After(evs, before), r.fd, r.mask);
      }
    }
  }

  /** Requests that withdraw nothing from a descriptor leave all it was watched for. */
  lemma {:induction false} AfterKeeps<Proc>(evs: map<int, IoEvent<Proc>>, requests: seq<Request<Proc>>, fd: int)
    requires fd in evs && !Removes(requests, fd) && !Withdraws(requests, fd)
    ensures fd in After(evs, requests) && evs[fd].mask <= After(evs, requests)[fd].mask
  {
    if requests != [] {
      AfterKeeps(evs, requests[..|requests| - 1], fd);
    }
  }

  lemma {:induction false} AfterRemoved<Proc>(evs: map<int, IoEvent<Proc>>, requests: seq<Request<Proc>>, fd: int)
    requires fd !in evs || Removes(requests, fd)
    requires !Adds(requests, fd)
    ensures fd !in After(evs, requests)
  {
    if requests != [] {
      var before, r := requests[..|requests| - 1], requests[|requests| - 1];
      assert requests == before + [r];
      if !(r.Remove? && r.fd == fd) {
        AfterRemoved(evs, before, fd);
      }
    }
  }

  /** A turn of a descriptor that is still there ends in its callback, whatever was reported. */
  lemma TurnCalls<Proc>(evs: map<int, IoEvent<Proc>>, t: Turn<Proc>)
    requires Usable(evs) && t.fd in evs && t.events != {}
    ensures Turned(evs, t) == Served(After(evs, t.requests)) || Turned(evs, t) == NullCall
    ensures Reported(evs, t) ==> Turned(evs, t).Served?
  {
    var e: Flag :| e in t.events;
    assert e == EPOLLIN || e == EPOLLOUT || e == EPOLLERR || e == EPOLLHUP;
  }

  /** While callbacks take only their own descriptor out of the loop, the assertion that a fired
      descriptor is registered holds at every turn of every batch. */
  lemma {:induction false} BatchRuns<Proc>(evs: map<int, IoEvent<Proc>>, turns: seq<Turn<Proc>>)
    requires Usable(evs) && Fired(evs, turns)
    requires forall t :: t in turns ==> OneWay(t.requests)
    requires forall i, j :: 0 <= i < j < |turns| ==>
                              !Removes(turns[i].requests, turns[j].fd) && !Withdraws(turns[i].requests, turns[j].fd)
    ensures Batch(evs, turns).Served? && Usable(Batch(evs, turns).evs)
    decreases |turns|
  {
    if turns != [] {
      var t, rest := turns[0], turns[1..];
      TurnCalls(evs, t);
      AfterUsable(evs, t.requests);
      var evs' := After(evs, t.requests);
      forall i | 0 <= i < |rest|
        ensures Reported(evs', rest[i])
      {
        assert rest[i] == turns[i + 1];
        AfterKeeps(evs, t.requests, rest[i].fd);
      }
      BatchRuns(evs', rest);
    }
  }

  /** A descriptor that is gone before its turn, and that nobody registers again, ends the program. */
  lemma {:induction false} GoneFails<Proc>(evs: map<int, IoEvent<Proc>>, turns: seq<Turn<Proc>>, j: nat)
    requires j < |turns| && turns[j].fd !in evs
    requires forall i :: 0 <= i < j ==> !Adds(turns[i].requests, turns[j].fd)
    ensures !Batch(evs, turns).Served?
    decreases j
  {
    var o := Turned(evs, turns[0]);
    if 0 < j && o.Served? {
      AfterRemoved(evs, turns[0].requests, turns[j].fd);
      GoneFails(o.evs, turns[1..], j - 1);
    }
  }

  lemma {:induction false} RemovalFails<Proc>(evs: map<int, IoEvent<Proc>>, turns: seq<Turn<Proc>>, i: nat, j: nat)
    requires Usable(evs) && i < j < |turns|
    requires forall t :: t in turns ==> OneWay(t.requests) && t.events != {}
    requires Removes(turns[i].requests, turns[j].fd)
    requires forall k :: 0 <= k < j ==> !Adds(turns[k].requests, turns[j].fd)
    ensures !Batch(evs, turns).Served?
    decreases i
  {
    var t := turns[0];
    if t.fd in evs && Turned(evs, t).Served? {
      TurnCalls(evs, t);
      var evs' := After(evs, t.requests);
      if i == 0 {
        AfterRemoved(evs, t.requests, turns[j].fd);
        GoneFails(evs', turns[1..], j - 1);
      } else {
        AfterUsable(evs, t.requests);
        RemovalFails(evs', turns[1..], i - 1, j - 1);
      }
    }
  }

  /** A batch is served to its end if and only if no callback removes a descriptor whose turn is still
      to come; provided that interest is withdrawn from no other descriptor, and that a removed one is
      not registered again before its turn. */
  lemma BatchServedIff<Proc>(evs: map<int, IoEvent<Proc>>, turns: seq<Turn<Proc>>)
    requires Usable(evs) && Fired(evs, turns)
    requires forall t :: t in turns ==> OneWay(t.requests)
    requires forall i, j :: 0 <= i < j < |turns| ==> !Withdraws(turns[i].requests, turns[j].fd)
    requires forall i, j, k :: 0 <= i < j < |turns| && 0 <= k < j && Removes(turns[i].requests, turns[j].fd) ==>
                                 !Adds(turns[k].requests, turns[j].fd)
    ensures Batch(evs, turns).Served?
            <==> forall i, j :: 0 <= i < j < |turns| ==> !Removes(turns[i].requests, turns[j].fd)
  {
    hide Batch, Removes, Adds, Withdraws;
    if i, j :| 0 <= i < j < |turns| && Removes(turns[i].requests, turns[j].fd) {
      RemovalFails(evs, turns, i, j);
    } else {
      BatchRuns(evs, turns);
    }
  }

  /** One round of the loop: a batch, and then the tasks, which may ask for anything. */
  datatype Round<Proc> = Round(turns: seq<Turn<Proc>>, requests: seq<Request<Proc>>)

  function Loop<Proc>(evs: map<int, IoEvent<Proc>>, rounds: seq<Round<Proc>>): Progress<Proc>
    decreases |rounds|
  {
    if rounds == [] then Served(evs)
    else
      var o := Batch(evs, rounds[0].turns);
      if o.Served? then Loop(After(o.evs, rounds[0].requests), rounds[1..]) else o
  }

  /** Every round reports what is watched when it begins. */
  ghost predicate AllFired<Proc>(evs: map<int, IoEvent<Proc>>, rounds: seq<Round<Proc>>)
    decreases |rounds|
  {
    rounds == []
    || (Fired(evs, rounds[0].turns)
        && var o := Batch(evs, rounds[0].turns);
           o.Served? ==> AllFired(After(o.evs, rounds[0].requests), rounds[1..]))
  }

  ghost predicate OwnOnly<Proc>(turns: seq<Turn<Proc>>) {
    forall t, r :: t in turns && r in t.requests && (r.Remove? || r.Withdraw?) ==> r.fd == t.fd
  }

  /** The loop runs for ever: with callbacks that take out only their own descriptor, no run of it, from
      any registrations, fails the assertion or calls a null pointer. */
  lemma {:induction false} LoopRuns<Proc>(evs: map<int, IoEvent<Proc>>, rounds: seq<Round<Proc>>)
    requires Usable(evs) && AllFired(evs, rounds)
    requires forall w :: w in rounds ==>
                           OneWay(w.requests) && OwnOnly(w.turns) && forall t :: t in w.turns ==> OneWay(t.requests)
    ensures Loop(evs, rounds).Served?
    decreases |rounds|
  {
    if rounds != [] {
      var w := rounds[0];
      BatchRuns(evs, w.turns);
      var evs' := Batch(evs, w.turns).evs;
      AfterUsable(evs', w.requests);
      LoopRuns(After(evs', w.requests), rounds[1..]);
    }
  }

  class EventLoop<Proc(==), Task> {
    var ioEvs: map<int, IoEvent<Proc>>
    var listenFds: set<int>
    var readyTasks: seq<Task>
    /** The kernel's side of the epoll instance. */
    var epoll: map<int, Mask>

    constructor ()
      ensures ioEvs == map[] && listenFds == {} && readyTasks == [] && epoll == map[]
      ensures Synced()
    {
      ioEvs, listenFds, readyTasks, epoll := map[], {}, [], map[];
    }

    /** The loop's map, its set and the kernel agree. */
    predicate Synced()
      reads this
    {
      && ioEvs.Keys == listenFds == epoll.Keys
      && forall fd :: fd in ioEvs ==> epoll[fd] == ioEvs[fd].mask
    }

    lemma KernelKnows(fd: int)
      requires Synced() && fd in ioEvs
      ensures fd in epoll && epoll[fd] == ioEvs[fd].mask
    {
    }

    /** epoll_ctl with ADD or MOD; it also fails where the kernel runs out of memory. */
    method Control(adding: bool, fd: int, mask: Mask, memory: bool) returns (ok: bool)
      modifies this`epoll
      ensures ok == (memory && (adding <==> fd !in old(epoll)))
      ensures epoll == if ok then old(epoll)[fd := mask] else old(epoll)
    {
      ok := memory && (adding <==> fd !in epoll);
      if ok {
        epoll := epoll[fd := mask];
      }
    }

    /** add_io_event. While memory lasts the three records stay in agreement; when epoll_ctl fails they
        do so only if the descriptor was already watched for everything in mask. */
    method AddIoEvent(fd: int, proc: Proc, mask: Mask, memory: bool)
      requires Synced()
      modifies this`ioEvs, this`listenFds, this`epoll
      ensures ioEvs == old(ioEvs)[fd := Registered(old(ioEvs), fd, proc, mask)]
      ensures Synced() <==> memory || (fd in old(ioEvs) && old(ioEvs)[fd].mask + mask == old(ioEvs)[fd].mask)
      ensures memory ==> listenFds == old(listenFds) + {fd}
      ensures !memory ==> listenFds == old(listenFds) && epoll == old(epoll)
    {
      var adding := fd !in ioEvs;
      var ev := if adding then IoEvent(mask, None, None) else ioEvs[fd].(mask := ioEvs[fd].mask + mask);
      if EPOLLIN in mask {
        ev := ev.(read := Some(proc));
      } else if EPOLLOUT in mask {
        ev := ev.(write := Some(proc));
      }
      ioEvs := ioEvs[fd := ev];
      var ok := Control(adding, fd, ev.mask, memory);
      if !ok {
        return;
      }
      listenFds := listenFds + {fd};
    }

    /** del_io_event(fd) */
    method DelIoEvent(fd: int)
      requires Synced()
      modifies this`ioEvs, this`listenFds, this`epoll
      ensures Synced() && ioEvs == old(ioEvs) - {fd}
    {
      ioEvs := ioEvs - {fd};
      listenFds := listenFds - {fd};
      epoll := epoll - {fd};
    }

    /** del_io_event(fd, mask): nothing left to watch for means nothing left of the descriptor. When
        epoll_ctl fails the records still agree if the kernel had nothing to change. */
    method DelIoEventMask(fd: int, mask: Mask, memory: bool)
      requires Synced()
      modifies this`ioEvs, this`listenFds, this`epoll
      ensures ioEvs == Withdrawn(old(ioEvs), fd, mask)
      ensures Synced() <==> memory || fd !in old(ioEvs) || var was := old(ioEvs)[fd].mask; was - mask in {{}, was}
    {
      if fd !in ioEvs {
        return;
      }
      var left := ioEvs[fd].mask - mask;
      ioEvs := ioEvs[fd := ioEvs[fd].(mask := left)];
      if left == {} {
        ioEvs := ioEvs - {fd};
        listenFds := listenFds - {fd};
        epoll := epoll - {fd};
        assert ioEvs == old(ioEvs) - {fd};
      } else {
        var _ := Control(false, fd, left, memory);
      }
    }

    method AddTask(task: Task)
      modifies this`readyTasks
      ensures readyTasks == old(readyTasks) + [task]
    {
      readyTasks := readyTasks + [task];
    }

    /** execute_ready_tasks: runs every task, in the order they came, and none twice. */
    method ExecuteReadyTasks() returns (ran: seq<Task>)
      modifies this`readyTasks
      ensures ran == old(readyTasks) && readyTasks == []
    {
      ran := [];
      for i := 0 to |readyTasks|
        invariant ran == readyTasks[..i] && readyTasks == old(readyTasks)
      {
        ran := ran + [readyTasks[i]];
      }
      readyTasks := [];
    }
  }
}
