/** The queues through which threads are given work, and the pool that hands the work out. */
module Threads {
  import opened Division
  import opened EventLoops
  import opened Wrappers

  /** The largest value an eventfd counts to. */
  const EVENTFD_MAX := 0xffff_ffff_ffff_fffe

  function Count(n: nat): nat {
    if n <= EVENTFD_MAX then n else EVENTFD_MAX
  }

  class ThreadQueue<T> {
    var queue: seq<T>
    var evfd: nat

    /** The descriptor is readable exactly while something is queued. */
    predicate Valid()
      reads this
    {
      evfd == Count(|queue|)
    }

    constructor ()
      ensures Valid() && queue == []
    {
      queue, evfd := [], 0;
    }

    /** send: the write fails, without further notice, when the counter is full. */
    method Send(task: T)
      requires Valid()
      modifies this
      ensures Valid() && queue == old(queue) + [task] && evfd > 0
    {
      queue := queue + [task];
      if evfd < EVENTFD_MAX {
        evfd := evfd + 1;
      }
    }

    /** recv: swaps the queue for the caller's, and consumes the whole counter. Only a caller that brings an
        empty queue leaves the counter in step. */
    method Recv(given: seq<T>) returns (received: seq<T>)
      modifies this
      ensures received == old(queue) && queue == given && evfd == 0
      ensures Valid() <==> given == []
    {
      evfd := 0;
      received, queue := queue, given;
    }
  }

  // ---- A queue over any interleaving of its senders and its receiver, which the lock puts in a row. ----

  datatype QueueOp<T> = Sending(task: T) | Receiving(given: seq<T>)

  /** received is everything handed over so far, one batch behind the other. */
  datatype QueueState<T> = QueueState(queue: seq<T>, evfd: nat, received: seq<T>)

  function Play<T>(ops: seq<QueueOp<T>>): QueueState<T> {
    if ops == [] then QueueState([], 0, [])
    else
      var s := Play(ops[..|ops| - 1]);
      match ops[|ops| - 1]
      case Sending(task) => s.(queue := s.queue + [task], evfd := if s.evfd < EVENTFD_MAX then s.evfd + 1 else s.evfd)
      case Receiving(given) => QueueState(given, 0, s.received + s.queue)
  }

  function AllSent<T>(ops: seq<QueueOp<T>>): seq<T> {
    if ops == [] then []
    else AllSent(ops[..|ops| - 1]) + if ops[|ops| - 1].Sending? then [ops[|ops| - 1].task] else []
  }

  predicate InStep<T>(s: QueueState<T>) {
    s.evfd == Count(|s.queue|)
  }

  /** Nothing is lost, repeated or reordered: the batches and what is still queued are what was sent. */
  lemma {:induction false} EverythingArrives<T>(ops: seq<QueueOp<T>>)
    requires forall op :: op in ops && op.Receiving? ==> op.given == []
    ensures Play(ops).received + Play(ops).queue == AllSent(ops) && InStep(Play(ops))
  {
    if ops != [] {
      var before, op := ops[..|ops| - 1], ops[|ops| - 1];
      EverythingArrives(before);
      if op.Receiving? {
        assert op in ops;
      }
    }
  }

  /** The descriptor stays readable exactly while something is queued if and only if every receiver
      brings an empty queue. */
  lemma {:induction false} InStepIff<T>(ops: seq<QueueOp<T>>)
    ensures (forall k :: 0 <= k <= |ops| ==> InStep(Play(ops[..k])))
            <==> forall op :: op in ops && op.Receiving? ==> op.given == []
  {
    if forall op :: op in ops && op.Receiving? ==> op.given == [] {
      forall k | 0 <= k <= |ops|
        ensures InStep(Play(ops[..k]))
      {
        EverythingArrives(ops[..k]);
      }
    } else {
      var k :| 0 <= k < |ops| && ops[k].Receiving? && ops[k].given != [];
      assert ops[..k + 1][..k] == ops[..k] && ops[..k + 1][k] == ops[k];
      assert !InStep(Play(ops[..k + 1]));
    }
  }

  datatype TaskMsg<Task> = NewConn(fd: int) | NewTask(task: Task)

  function Conns<Task>(msgs: seq<TaskMsg<Task>>): seq<int> {
    if msgs == [] then []
    else if msgs[0].NewConn? then [msgs[0].fd] + Conns(msgs[1..]) else Conns(msgs[1..])
  }

  function Tasks<Task>(msgs: seq<TaskMsg<Task>>): seq<Task> {
    if msgs == [] then []
    else if msgs[0].NewTask? then [msgs[0].task] + Tasks(msgs[1..]) else Tasks(msgs[1..])
  }

  lemma {:induction false} OneMore<Task>(msgs: seq<TaskMsg<Task>>, m: TaskMsg<Task>)
    ensures Conns(msgs + [m]) == Conns(msgs) + (if m.NewConn? then [m.fd] else [])
    ensures Tasks(msgs + [m]) == Tasks(msgs) + (if m.NewTask? then [m.task] else [])
  {
    if msgs == [] {
      assert msgs + [m] == [m] && [m][1..] == [];
    } else {
      OneMore(msgs[1..], m);
      assert (msgs + [m])[1..] == msgs[1..] + [m];
    }
  }

  /** deal_task_message: everything queued is taken at once; connections are opened in this loop's thread
      and tasks become ready in it, each in the order of the queue. */
  method DealTaskMessage<Proc(==), Task>(q: ThreadQueue<TaskMsg<Task>>, loop: EventLoop<Proc, Task>)
    returns (conns: seq<int>)
    requires q.Valid()
    modifies q, loop`readyTasks
    ensures q.Valid() && q.queue == []
    ensures conns == Conns(old(q.queue))
    ensures loop.readyTasks == old(loop.readyTasks) + Tasks(old(q.queue))
  {
    var tasks := q.Recv([]);
    conns := [];
    ghost var done := [];
    while tasks != []
      invariant done + tasks == old(q.queue) && q.Valid() && q.queue == []
      invariant conns == Conns(done)
      invariant loop.readyTasks == old(loop.readyTasks) + Tasks(done)
    {
      var task := tasks[0];
      OneMore(done, task);
      done := done + [task];
      tasks := tasks[1..];
      match task {
        case NewConn(fd) => conns := conns + [fd];
        case NewTask(t) => loop.AddTask(t);
      }
    }
    assert done == old(q.queue);
  }

  /** get_thread's counter: the number it picks, and its next value. */
  function Pick(index: nat, n: nat): (int, nat) {
    var i := if index == n then 0 else index;
    (i, i + 1)
  }

  class ThreadPool<Task> {
    const queues: seq<ThreadQueue<TaskMsg<Task>>>
    var index: nat

    predicate Valid()
      reads this, queues
    {
      && 0 < |queues| && index <= |queues|
      && (forall i, j :: 0 <= i < j < |queues| ==> queues[i] != queues[j])
      && forall i :: 0 <= i < |queues| ==> queues[i].Valid()
    }

    constructor (queues: seq<ThreadQueue<TaskMsg<Task>>>)
      requires 0 < |queues|
      requires forall i, j :: 0 <= i < j < |queues| ==> queues[i] != queues[j]
      requires forall i :: 0 <= i < |queues| ==> queues[i].Valid()
      ensures Valid() && this.queues == queues && index == 0
    {
      this.queues := queues;
      index := 0;
    }

    method GetThread() returns (q: ThreadQueue<TaskMsg<Task>>)
      requires Valid()
      modifies this
      ensures Valid() && q == queues[Pick(old(index), |queues|).0] && index == Pick(old(index), |queues|).1
    {
      if index == |queues| {
        index := 0;
      }
      q := queues[index];
      index := index + 1;
    }

    /** send_task: one message to every thread. */
    method SendTask(task: Task)
      requires Valid()
      modifies queues
      ensures Valid()
      ensures forall i :: 0 <= i < |queues| ==> queues[i].queue == old(queues[i].queue) + [NewTask(task)]
    {
      for i := 0 to |queues|
        invariant Valid()
        invariant forall j :: 0 <= j < i ==> queues[j].queue == old(queues[j].queue) + [NewTask(task)]
        invariant forall j :: i <= j < |queues| ==> queues[j].queue == old(queues[j].queue)
      {
        queues[i].Send(NewTask(task));
      }
    }
  }

  // ---- Every thread at once: work handed out, dealt and executed in any order of steps. ----

  datatype Thread<Task> = Thread(queue: seq<TaskMsg<Task>>, ready: seq<Task>, ran: seq<Task>, conns: seq<int>)

  /** posting is the task send_task is at, and how many threads it has reached. */
  datatype Pool<Task> = Pool(
    threads: seq<Thread<Task>>, index: nat, posting: Option<(Task, nat)>, accepted: seq<int>, posted: seq<Task>)

  datatype Step<Task> = Accept(fd: int) | Begin(task: Task) | Reach | Finish | Deal(i: nat) | Execute(i: nat)

  predicate Enabled<Task>(p: Pool<Task>, s: Step<Task>) {
    match s
    case Accept(_) => 0 < |p.threads| && p.index <= |p.threads|
    case Begin(_) => p.posting.None?
    case Reach => p.posting.Some? && p.posting.value.1 < |p.threads|
    case Finish => p.posting.Some? && p.posting.value.1 == |p.threads|
    case Deal(i) => i < |p.threads|
    case Execute(i) => i < |p.threads|
  }

  function Queued<Task>(t: Thread<Task>, m: TaskMsg<Task>): Thread<Task> {
    t.(queue := t.queue + [m])
  }

  function Apply<Task>(p: Pool<Task>, s: Step<Task>): Pool<Task>
    requires Enabled(p, s)
  {
    match s
    case Accept(fd) =>
      var (i, next) := Pick(p.index, |p.threads|);
      p.(threads := p.threads[i := Queued(p.threads[i], NewConn(fd))], index := next, accepted := p.accepted + [fd])
    case Begin(task) => p.(posting := Some((task, 0)))
    case Reach =>
      var (task, i) := p.posting.value;
      p.(threads := p.threads[i := Queued(p.threads[i], NewTask(task))], posting := Some((task, i + 1)))
    case Finish => p.(posting := None, posted := p.posted + [p.posting.value.0])
    case Deal(i) =>
      var t := p.threads[i];
      p.(threads := p.threads[i := t.(queue := [], ready := t.ready + Tasks(t.queue),
        conns := t.conns + Conns(t.queue))])
    case Execute(i) =>
      var t := p.threads[i];
      p.(threads := p.threads[i := t.(ready := [], ran := t.ran + t.ready)])
  }

  /** Every n-th of the accepted connections, from the i-th on. */
  function EveryNth(fds: seq<int>, i: nat, n: nat): seq<int>
    requires n > 0
  {
    if fds == [] then []
    else EveryNth(fds[..|fds| - 1], i, n) + (if (|fds| - 1) % n == i then [fds[|fds| - 1]] else [])
  }

  /** The j-th connection of thread i is the accepted connection number i + j * n. */
  lemma {:induction false} EveryNthIs(fds: seq<int>, i: nat, n: nat)
    requires i < n
    ensures var own := EveryNth(fds, i, n);
            && |own| == (|fds| + n - 1 - i) / n
            && forall j :: 0 <= j < |own| ==> i + j * n < |fds| && own[j] == fds[i + j * n]
  {
    if fds == [] {
      Quotient(n - 1 - i, n, 0, n - 1 - i);
    } else {
      var k := |fds| - 1;
      EveryNthIs(fds[..k], i, n);
      Turn(k, i, n);
    }
  }

  lemma Turn(k: nat, i: nat, n: nat)
    requires i < n
    ensures (k + n - i) / n == (k + n - 1 - i) / n + if k % n == i then 1 else 0
    ensures k % n == i ==> k == i + (k + n - 1 - i) / n * n
  {
    var q, r, x := k / n, k % n, k + n - 1 - i;
    NextQuotient(x, n);
    assert k == q * n + r;
    if r <= i {
      Quotient(x, n, q, n - 1 + r - i);
    } else {
      assert x == (q + 1) * n + (r - i - 1);
      Quotient(x, n, q + 1, r - i - 1);
    }
  }

  /** The tasks thread i has been given so far. */
  function Given<Task>(p: Pool<Task>, i: nat): seq<Task> {
    if p.posting.Some? && i < p.posting.value.1 then p.posted + [p.posting.value.0] else p.posted
  }

  ghost predicate Served<Task>(p: Pool<Task>, i: nat)
    requires i < |p.threads|
  {
    var t := p.threads[i];
    && t.ran + t.ready + Tasks(t.queue) == Given(p, i)
    && t.conns + Conns(t.queue) == EveryNth(p.accepted, i, |p.threads|)
  }

  ghost predicate Inv<Task>(p: Pool<Task>) {
    && 0 < |p.threads|
    && p.index == IndexAfter(|p.accepted|, |p.threads|)
    && (p.posting.Some? ==> p.posting.value.1 <= |p.threads|)
    && forall i :: 0 <= i < |p.threads| ==> Served(p, i)
  }

  function IndexAfter(k: nat, n: nat): nat
    requires 0 < n
  {
    if k == 0 then 0 else (k - 1) % n + 1
  }

  lemma NextIndex(k: nat, n: nat)
    requires 0 < n
    ensures IndexAfter(k, n) <= n && Pick(IndexAfter(k, n), n) == (k % n, IndexAfter(k + 1, n))
  {
    if k > 0 {
      NextQuotient(k - 1, n);
    }
  }

  lemma StepKeeps<Task>(p: Pool<Task>, s: Step<Task>)
    requires Inv(p) && Enabled(p, s)
    ensures Inv(Apply(p, s))
  {
    hide EveryNth, Pick;
    var p' := Apply(p, s);
    var n := |p.threads|;
    NextIndex(|p.accepted|, n);
    forall i | 0 <= i < n
      ensures Served(p', i)
    {
      assert Served(p, i);
      ServedAfter(p, s, i);
    }
  }

  lemma ServedAfter<Task>(p: Pool<Task>, s: Step<Task>, i: nat)
    requires Inv(p) && Enabled(p, s) && i < |p.threads|
    ensures Served(Apply(p, s), i)
  {
    match s {
      case Accept(fd) => ServedAfterAccept(p, fd, i);
      case Reach => ServedAfterReach(p, i);
      case Deal(k) => ServedAfterWork(p, s, i);
      case Execute(k) => ServedAfterWork(p, s, i);
      case _ => assert Served(p, i);
    }
  }

  lemma ServedAfterAccept<Task>(p: Pool<Task>, fd: int, i: nat)
    requires Inv(p) && Enabled(p, Accept(fd)) && i < |p.threads|
    ensures Served(Apply(p, Accept(fd)), i)
  {
    hide EveryNth, Conns, Tasks, Pick;
    assert Served(p, i);
    NextIndex(|p.accepted|, |p.threads|);
    EveryNthOneMore(p.accepted, fd, i, |p.threads|);
    OneMore(p.threads[i].queue, NewConn(fd));
    Assoc(p.threads[i].conns, Conns(p.threads[i].queue), [fd]);
  }

  lemma ServedAfterReach<Task>(p: Pool<Task>, i: nat)
    requires Inv(p) && Enabled(p, Reach) && i < |p.threads|
    ensures Served(Apply(p, Reach), i)
  {
    hide EveryNth, Conns, Tasks;
    assert Served(p, i);
    var t, task := p.threads[i], p.posting.value.0;
    OneMore(t.queue, NewTask(task));
    Assoc(t.ran + t.ready, Tasks(t.queue), [task]);
  }

  lemma ServedAfterWork<Task>(p: Pool<Task>, s: Step<Task>, i: nat)
    requires Inv(p) && Enabled(p, s) && i < |p.threads| && (s.Deal? || s.Execute?)
    ensures Served(Apply(p, s), i)
  {
    hide EveryNth, Conns, Tasks, Inv;
    assert Served(p, i) by { ServedNow(p, i); }
    var t := p.threads[i];
    var p' := Apply(p, s);
    NoMessages<Task>();
    Assoc(t.ran, t.ready, Tasks(t.queue));
    assert Given(p', i) == Given(p, i);
    if s.i == i {
      assert p'.threads[i].ran + p'.threads[i].ready == t.ran + (if s.Deal? then t.ready + Tasks(t.queue) else t.ready);
    }
  }

  lemma ServedNow<Task>(p: Pool<Task>, i: nat)
    requires Inv(p) && i < |p.threads|
    ensures Served(p, i)
  {
  }

  lemma Assoc<T>(a: seq<T>, b: seq<T>, c: seq<T>)
    ensures (a + b) + c == a + (b + c)
  {
  }

  lemma NoMessages<Task>()
    ensures Conns<Task>([]) == [] && Tasks<Task>([]) == []
  {
  }

  lemma EveryNthOneMore(fds: seq<int>, fd: int, i: nat, n: nat)
    requires n > 0
    ensures EveryNth(fds + [fd], i, n) == EveryNth(fds, i, n) + (if |fds| % n == i then [fd] else [])
  {
    assert (fds + [fd])[..|fds|] == fds;
  }

  ghost predicate Start<Task>(p: Pool<Task>) {
    && 0 < |p.threads| && p.index == 0 && p.posting.None? && p.accepted == [] && p.posted == []
    && forall i :: 0 <= i < |p.threads| ==> p.threads[i] == Thread([], [], [], [])
  }

  /** The steps can be taken one after the other. */
  predicate Possible<Task>(p: Pool<Task>, steps: seq<Step<Task>>)
    decreases |steps|
  {
    steps == [] || (Enabled(p, steps[0]) && Possible(Apply(p, steps[0]), steps[1..]))
  }

  function Run<Task>(p: Pool<Task>, steps: seq<Step<Task>>): Pool<Task>
    requires Possible(p, steps)
    decreases |steps|
  {
    if steps == [] then p else Run(Apply(p, steps[0]), steps[1..])
  }

  lemma {:induction false} RunKeeps<Task>(p: Pool<Task>, steps: seq<Step<Task>>)
    requires Inv(p) && Possible(p, steps)
    ensures Inv(Run(p, steps))
    decreases |steps|
  {
    hide Inv, Apply;
    if steps != [] {
      StepKeeps(p, steps[0]);
      RunKeeps(Apply(p, steps[0]), steps[1..]);
    }
  }

  /** Whatever the order of the steps: once no thread has anything left to do, every thread has run every
      task once and in the order they were posted, and each accepted connection was opened by one thread,
      the k-th by thread k modulo their number. */
  lemma EverybodyDoesEverythingOnce<Task>(start: Pool<Task>, steps: seq<Step<Task>>, i: nat)
    requires Start(start) && Possible(start, steps)
    requires var p := Run(start, steps);
             i < |p.threads| && p.posting.None? && p.threads[i].queue == [] && p.threads[i].ready == []
    ensures var p := Run(start, steps);
            && p.threads[i].ran == p.posted
            && p.threads[i].conns == EveryNth(p.accepted, i, |p.threads|)
  {
    assert Inv(start);
    RunKeeps(start, steps);
    assert Served(Run(start, steps), i);
  }

  /** At any moment: no thread has run a task twice or out of order. */
  lemma NothingTwice<Task>(start: Pool<Task>, steps: seq<Step<Task>>, i: nat)
    requires Start(start) && Possible(start, steps) && i < |Run(start, steps).threads|
    ensures var p := Run(start, steps);
            && 0 < |p.threads| && p.threads[i].ran <= Given(p, i)
            && p.threads[i].conns <= EveryNth(p.accepted, i, |p.threads|)
  {
    assert Inv(start);
    RunKeeps(start, steps);
    assert Served(Run(start, steps), i);
  }
}
