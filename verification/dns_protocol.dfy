/** The route service as a step machine: the database it polls, the publisher thread, and the loop
    threads that answer requests and push changes. A step is one action between two points where
    another thread can interfere; in particular a push task is not atomic, because it copies the
    pending entries under the lock, sends, and erases the entry of a connection later without it.

    Rule lists what the environment and the schedule have to respect. Safety under all rules is proved
    in DnsSafety, and DnsCounterexamples has one lost update for every rule that is broken. */
module DnsProtocol {
  import Framing
  import opened Packing
  import opened RouteIndex
  import opened Subscriptions
  import opened Wrappers

  type Mod = UInt64
  type Hosts = set<UInt64>

  /** Where the publisher thread stands in its loop. */
  datatype Publisher =
    | Booting              // before it tries to clear the change table once
    | Polling              // before load_version
    | Versioned            // a new version was read
    | Loaded(announce: bool) // the temp buffer is filled, before swap
    | Swapped              // before load_changes
    | Changed(list: seq<Mod>) // before publish
    | Sending(next: nat)   // publish is handing push tasks to the threads; then remove_changes

  datatype PushPoint =
    | Between
    | Holding(fd: Fd, mod: Mod, hosts: Hosts) // after get_hosts, before send_message
    | Sent(fd: Fd)                           // before the erase

  /** The callback a loop thread is in. */
  datatype Activity =
    | Waiting
    | Subscribing(fd: Fd, mod: Mod)              // get_request, before get_hosts
    | Fetched(fd: Fd, mod: Mod, hosts: Hosts)    // get_request, before send_message
    | Pushing(todo: PubMap, at: PushPoint)

  /** A loop thread and the number of push tasks waiting in its queue or ready list. */
  datatype Thread = Thread(tasks: nat, activity: Activity)

  /** A live connection: the thread whose loop owns it, the modules it asked for, the last route its client
      takes in for each module once everything sent arrives, and how many bytes wait in its output buffer.
      A broken buffer is one that a refused message left with its window off the front; whoever uses it
      next aborts the program. A deaf client closes or aborts over a message on the stream, and takes in
      nothing behind it. */
  datatype Conn = Conn(
    owner: nat, mods: set<Mod>, seen: map<Mod, Hosts>, queued: nat, broken: bool, deaf: bool)

  datatype State = State(
    table: seq<Row>, dbVersion: int, rows: seq<Change>,
    data: RouteMap, temp: RouteMap, version: int, pc: Publisher,
    sub: SubMap, pub: PubMap, conns: map<Fd, Conn>, threads: seq<Thread>)

  datatype Step =
    | Edit(table: seq<Row>, changed: seq<Mod>, version: int) // rows, version and change rows in one transaction
    | Boot(ok: bool)
    | LoadVersion
    | LoadData(ok: bool)
    | Swap
    | LoadChanges(ok: bool)
    | Publish
    | SendTask
    | RemoveChanges(ok: bool)
    | Open(fd: Fd, t: nat)
    | Close(fd: Fd)
    | Request(fd: Fd, mod: Mod)
    | Fetch(t: nat)
    | Reply(t: nat, length: nat, cut: bool) // length of the encoded message; a read of it ends right behind it
    | StartPush(t: nat)
    | PushFetch(t: nat, fd: Fd, mod: Mod)
    | PushSend(t: nat, length: nat, cut: bool)
    | PushErase(t: nat)
    | EndPush(t: nat)
    | Write(fd: Fd, n: nat) // the descriptor takes n bytes of the output buffer

  function RowsFor(mods: seq<Mod>, version: int): seq<Change> {
    seq(|mods|, i requires 0 <= i < |mods| => Change(mods[i], version))
  }

  /** The connections a thread's loop listens to. */
  function Online(s: State, t: nat): set<Fd> {
    set fd | fd in s.conns && s.conns[fd].owner == t
  }

  predicate IsWaiting(s: State, t: nat) {
    t < |s.threads| && s.threads[t].activity == Waiting
  }

  /** The subscriptions left when a connection gives up all its modules. */
  function Abandoned(sub: SubMap, mods: set<Mod>, fd: Fd): SubMap {
    map m | m in sub && (m in mods ==> sub[m] - {fd} != {}) :: if m in mods then sub[m] - {fd} else sub[m]
  }

  predicate Enabled(s: State, e: Step) {
    match e
    case Edit(_, _, _) => true
    case Boot(_) => s.pc == Booting
    case LoadVersion => s.pc == Polling && s.dbVersion != s.version
    case LoadData(_) => s.pc == Versioned || s.pc == Polling
    case Swap => s.pc.Loaded?
    case LoadChanges(_) => s.pc == Swapped
    case Publish => s.pc.Changed?
    case SendTask => s.pc.Sending? && s.pc.next < |s.threads|
    case RemoveChanges(_) => s.pc.Sending? && s.pc.next == |s.threads|
    case Open(fd, t) => fd !in s.conns && IsWaiting(s, t)
    case Close(fd) => fd in s.conns && IsWaiting(s, s.conns[fd].owner)
    case Request(fd, _) => fd in s.conns && IsWaiting(s, s.conns[fd].owner)
    case Fetch(t) => t < |s.threads| && s.threads[t].activity.Subscribing?
    case Reply(t, _, _) =>
      t < |s.threads| && s.threads[t].activity.Fetched? && CanSend(s, s.threads[t].activity.fd)
    case StartPush(t) => IsWaiting(s, t) && 0 < s.threads[t].tasks
    case PushFetch(t, fd, mod) =>
      t < |s.threads| && s.threads[t].activity.Pushing? && s.threads[t].activity.at == Between
      && mod in PendingFor(s.threads[t].activity.todo, fd)
    case PushSend(t, _, _) =>
      t < |s.threads| && s.threads[t].activity.Pushing? && s.threads[t].activity.at.Holding?
      && CanSend(s, s.threads[t].activity.at.fd)
    case PushErase(t) => t < |s.threads| && s.threads[t].activity.Pushing? && s.threads[t].activity.at.Sent?
    case EndPush(t) =>
      t < |s.threads| && s.threads[t].activity.Pushing? && s.threads[t].activity.at == Between
      && forall fd :: fd in s.threads[t].activity.todo ==> s.threads[t].activity.todo[fd] == {}
    case Write(fd, n) =>
      fd in s.conns && IsWaiting(s, s.conns[fd].owner) && !s.conns[fd].broken && n <= s.conns[fd].queued
  }

  /** Sending to a closed connection does nothing, sending to a broken one aborts. */
  predicate CanSend(s: State, fd: Fd) {
    fd in s.conns ==> !s.conns[fd].broken
  }

  function Doing(s: State, t: nat, a: Activity): State
    requires t < |s.threads|
  {
    s.(threads := s.threads[t := s.threads[t].(activity := a)])
  }

  /** A connection after send_message: its output buffer takes the message if there is room, and a refusal
      may break the buffer. */
  function AfterSend(c: Conn, mod: Mod, hosts: Hosts, length: nat, cut: bool): Conn {
    if !Framing.Refused(c.queued, length) then
      var deaf := c.deaf || Framing.Fatal(length, cut);
      c.(seen := if deaf then c.seen else c.seen[mod := hosts], deaf := deaf,
         queued := c.queued + Framing.MESSAGE_HEAD_LEN + length)
    else c.(broken := c.broken || !Framing.TakenBack(c.queued))
  }

  /** The client is sent a route for a module, if it is still connected; the callers of send_message do not
      look at its result, and send_message not at what a receiver survives. */
  function Told(s: State, fd: Fd, mod: Mod, hosts: Hosts, length: nat, cut: bool): State {
    if fd !in s.conns then s else s.(conns := s.conns[fd := AfterSend(s.conns[fd], mod, hosts, length, cut)])
  }

  function Apply(s: State, e: Step): State
    requires Enabled(s, e)
  {
    match e
    case Edit(table, changed, version) =>
      s.(table := table, dbVersion := version, rows := s.rows + RowsFor(changed, version))
    case Boot(ok) => s.(rows := if ok then [] else s.rows, pc := Polling)
    case LoadVersion => s.(version := s.dbVersion, pc := Versioned)
    case LoadData(ok) =>
      s.(temp := if ok then Group(s.table) else map[],
         pc := if ok then Loaded(s.pc == Versioned) else if s.pc == Versioned then Swapped else Polling)
    case Swap => s.(data := s.temp, temp := s.data, pc := if s.pc.announce then Swapped else Polling)
    case LoadChanges(ok) => s.(pc := Changed(if ok then ModsUpTo(s.rows, s.version) else []))
    case Publish => s.(pub := Published(s.sub, s.pub, Elements(s.pc.list)), pc := Sending(0))
    case SendTask =>
      var t := s.pc.next;
      s.(threads := s.threads[t := s.threads[t].(tasks := s.threads[t].tasks + 1)], pc := Sending(t + 1))
    case RemoveChanges(ok) => s.(rows := if ok then ChangesAbove(s.rows, s.version) else s.rows, pc := Polling)
    case Open(fd, t) => s.(conns := s.conns[fd := Conn(t, {}, map[], 0, false, false)])
    case Close(fd) => s.(conns := s.conns - {fd}, sub := Abandoned(s.sub, s.conns[fd].mods, fd))
    case Request(fd, mod) =>
      var c := s.conns[fd];
      Doing(s.(conns := s.conns[fd := c.(mods := c.mods + {mod})],
               sub := if mod in c.mods then s.sub else Subscribed(s.sub, mod, fd)),
            c.owner, Subscribing(fd, mod))
    case Fetch(t) =>
      var a := s.threads[t].activity;
      Doing(s, t, Fetched(a.fd, a.mod, Lookup(s.data, a.mod)))
    case Reply(t, length, cut) =>
      var a := s.threads[t].activity;
      Doing(Told(s, a.fd, a.mod, a.hosts, length, cut), t, Waiting)
    case StartPush(t) =>
      s.(threads := s.threads[t := Thread(s.threads[t].tasks - 1, Pushing(Restricted(s.pub, Online(s, t)), Between))])
    case PushFetch(t, fd, mod) =>
      var todo := s.threads[t].activity.todo;
      Doing(s, t, Pushing(todo[fd := todo[fd] - {mod}], Holding(fd, mod, Lookup(s.data, Repack(mod)))))
    case PushSend(t, length, cut) =>
      var a := s.threads[t].activity;
      Doing(Told(s, a.at.fd, Repack(a.at.mod), a.at.hosts, length, cut), t, Pushing(a.todo, Sent(a.at.fd)))
    case PushErase(t) =>
      var a := s.threads[t].activity;
      Doing(s.(pub := s.pub - {a.at.fd}), t, Pushing(a.todo, Between))
    case EndPush(t) => Doing(s, t, Waiting)
    case Write(fd, n) => s.(conns := s.conns[fd := s.conns[fd].(queued := s.conns[fd].queued - n)])
  }

  // ---------------------------------------------------------------- runs and rules

  predicate CanRun(s: State, es: seq<Step>)
    decreases |es|
  {
    es == [] || (Enabled(s, es[0]) && CanRun(Apply(s, es[0]), es[1..]))
  }

  function Run(s: State, es: seq<Step>): State
    requires CanRun(s, es)
    decreases |es|
  {
    if es == [] then s else Run(Apply(s, es[0]), es[1..])
  }

  /** The service just started: the index was built from the table and nobody is connected. */
  ghost predicate Initial(s: State) {
    && s.pc == Booting && s.version == 0
    && s.data == Group(s.table) && s.temp == map[]
    && s.sub == map[] && s.pub == map[] && s.conns == map[]
    && forall t :: 0 <= t < |s.threads| ==> s.threads[t] == Thread(0, Waiting)
  }

  /** A push task of t still has to erase the pending entry of fd. */
  predicate InFlight(s: State, t: nat, fd: Fd) {
    t < |s.threads| && s.threads[t].activity.Pushing? &&
    var a := s.threads[t].activity;
    PendingFor(a.todo, fd) != {} || (a.at.Holding? && a.at.fd == fd) || (a.at.Sent? && a.at.fd == fd)
  }

  /** No pass of the publisher over the change table is under way. */
  predicate BetweenPasses(pc: Publisher) {
    pc == Polling || pc == Loaded(false)
  }

  /** With v as the current version, a pass still to begin will read a change row of this version. */
  predicate WillBeRead(s: State, v: int, version: int) {
    v != s.version && version <= v && (BetweenPasses(s.pc) || s.version < version)
  }

  datatype Rule =
    | FreshVersions // the publisher will read the rows of an edit, and still those it has not read yet
    | ChangeRows    // an edit writes a change row for every module it changes, in the same transaction
    | QuietBoot     // no edit before the publisher has cleared the change table
    | DataLoads     // the table query for a new version succeeds
    | ChangesLoad   // the change query succeeds
    | NoCollision   // publish adds nothing for a connection whose push task has already fetched that module
    | SendsAccepted // a message to a client finds room in its output buffer
    | AnswersFit    // a client survives every message it is sent

  ghost predicate Obeys(s: State, e: Step, rule: Rule) {
    match rule
    case FreshVersions =>
      e.Edit? ==>
        && (WillBeRead(s, e.version, e.version) || (s.pc == Versioned && e.version <= s.version))
        && forall c :: c in s.rows && WillBeRead(s, s.dbVersion, c.version) ==> WillBeRead(s, e.version, c.version)
    case ChangeRows => e.Edit? ==> forall m :: HostsOf(s.table, m) != HostsOf(e.table, m) ==> m in e.changed
    case QuietBoot => e.Edit? ==> s.pc != Booting
    case DataLoads => e.LoadData? && s.pc == Versioned ==> e.ok
    case ChangesLoad => e.LoadChanges? ==> e.ok
    case NoCollision =>
      e.Publish? && s.pc.Changed? ==>
        forall t: nat, fd, m :: InFlight(s, t, fd) && m in s.pc.list && fd in Subscribers(s.sub, m) ==>
          m in PendingFor(s.threads[t].activity.todo, fd)
    case SendsAccepted => (e.Reply? || e.PushSend?) && Enabled(s, e) ==> !IsRefused(s, e)
    case AnswersFit => (e.Reply? || e.PushSend?) && Enabled(s, e) ==> !IsUnheard(s, e)
  }

  /** The send finds no room in the output buffer of a connected client. */
  predicate IsRefused(s: State, e: Step)
    requires Enabled(s, e) && (e.Reply? || e.PushSend?)
  {
    var fd := Receiver(s, e);
    fd in s.conns && Framing.Refused(s.conns[fd].queued, e.length)
  }

  /** The message is queued for a client that never takes it in. */
  predicate IsUnheard(s: State, e: Step)
    requires Enabled(s, e) && (e.Reply? || e.PushSend?)
  {
    var fd := Receiver(s, e);
    fd in s.conns && !IsRefused(s, e) && (s.conns[fd].deaf || Framing.Fatal(e.length, e.cut))
  }

  function Receiver(s: State, e: Step): Fd
    requires Enabled(s, e) && (e.Reply? || e.PushSend?)
  {
    if e.Reply? then s.threads[e.t].activity.fd else s.threads[e.t].activity.at.fd
  }

  /** Every step of the run obeys every rule, except possibly the one named. */
  ghost predicate Disciplined(s: State, es: seq<Step>, but: Option<Rule>)
    requires CanRun(s, es)
    decreases |es|
  {
    es == [] ||
    ((forall rule :: Some(rule) != but ==> Obeys(s, es[0], rule)) && Disciplined(Apply(s, es[0]), es[1..], but))
  }

  /** Nothing is left to do: the publisher has seen the current version, no task is queued, no callback
      is running, and everything sent has left. */
  predicate Quiet(s: State) {
    && s.pc == Polling && s.version == s.dbVersion
    && (forall t :: 0 <= t < |s.threads| ==> s.threads[t] == Thread(0, Waiting))
    && forall fd :: fd in s.conns ==> s.conns[fd].queued == 0
  }

  /** The client knows the route the table has now. */
  predicate UpToDate(s: State, fd: Fd, m: Mod)
    requires fd in s.conns
  {
    m in s.conns[fd].seen && s.conns[fd].seen[m] == HostsOf(s.table, m)
  }
}
