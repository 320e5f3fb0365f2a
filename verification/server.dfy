/** The connections of a server side by side: they share one pool of blocks, and those of a thread share
    its loop. What one of them does leaves every other one as it was, so all of them stay in good order
    over every run of events. */
module TcpServers {
  import opened BufferPool
  import opened EventLoops
  import opened Framing
  import opened ReactorBuffer
  import opened TcpConnection

  /** Different connections: their own buffers, and their own descriptors in a common loop. */
  ghost predicate Independent(a: TcpConn, b: TcpConn)
    reads a`connfd, b`connfd
  {
    Separated(a, b) && a.pool == b.pool && (a.loop == b.loop ==> a.connfd != b.connfd)
  }

  ghost predicate Separated(a: TcpConn, b: TcpConn) {
    a != b && {a.obuf, a.ibuf} !! {b.obuf, b.ibuf}
  }

  /** What one connection does not change of another. */
  datatype Record = Record(
    connfd: int, accepted: seq<Message>, written: seq<Byte>, queued: seq<Byte>, usable: bool,
    received: seq<Byte>, dispatched: seq<Message>, kept: seq<Byte>)

  ghost function RecordOf(b: TcpConn): Record
    reads b, b.obuf, b.ibuf, b.obuf.buf, b.ibuf.buf, b.Parts()
  {
    Record(b.connfd, b.accepted, b.written, b.obuf.Contents(), b.obuf.Usable(),
           b.received, b.dispatched, b.ibuf.Contents())
  }

  /** The buffers are sound and the loop knows what it watches: what every event needs. */
  ghost predicate Open(b: TcpConn)
    reads b, b.loop, b.pool, b.pool.FreeBlocks(), b.obuf, b.obuf.buf, b.ibuf, b.ibuf.buf
  {
    b.Stored() && b.loop.Synced() && b.ibuf.Usable()
  }

  /** Open, with a queue that a refused message left with its window off the front. */
  ghost predicate Jammed(b: TcpConn)
    reads b, b.loop, b.pool, b.pool.FreeBlocks(), b.obuf, b.ibuf, b.obuf.buf, b.ibuf.buf, b.Parts()
  {
    Open(b) && !b.obuf.Usable() && b.obuf.Contents() != []
  }

  ghost predicate Good(b: TcpConn)
    reads b, b.loop, b.pool, b.pool.FreeBlocks(), b.obuf, b.ibuf, b.obuf.buf, b.ibuf.buf, b.Parts()
  {
    b.Live() || Jammed(b)
  }

  /** Nothing that a may change belongs to b. */
  ghost predicate OutOfItsReach(a: TcpConn, b: TcpConn)
    reads a.pool, b.obuf, b.ibuf, b.obuf.buf, b.ibuf.buf
  {
    && b !in a.Footprint() && b.loop !in a.Footprint() && b.Parts() !! a.Footprint()
    && Keeps(a.Strangers(), b.obuf) && Keeps(a.Strangers(), b.ibuf)
  }

  /** What Live says beside the state of the pool. */
  ghost predicate Sound(b: TcpConn)
    reads b, b.loop, b.obuf, b.ibuf, b.obuf.buf, b.ibuf.buf, b.Parts()
  {
    b.loop.Synced() && b.obuf.Usable() && b.ibuf.Usable() && b.Watched() && b.OutOk() && b.InOk()
  }

  lemma OpenMeans(b: TcpConn)
    ensures b.Live() <==> b.Stored() && Sound(b)
    ensures b.Live() || Jammed(b) ==> Open(b)
    ensures Open(b) ==> b.Stored() && b.loop.Synced() && b.ibuf.Usable() && b.pool.Valid()
    ensures Open(b) ==> b.obuf.pool == b.pool && b.ibuf.pool == b.pool && b.obuf != b.ibuf
  {
    hide EventLoop.Synced, BufPool.Valid, TcpConn.OutOk, TcpConn.InOk, TcpConn.Watched;
  }

  lemma SameEntry(evs: map<int, IoEvent<Callback>>, was: map<int, IoEvent<Callback>>, fd: int, other: int, shared: bool)
    requires if shared then evs - {fd} == was - {fd} && other != fd else evs == was
    ensures other in evs <==> other in was
    ensures other in evs ==> evs[other] == was[other]
  {
    if shared {
      assert other in evs <==> other in evs - {fd};
      assert other in was <==> other in was - {fd};
    }
  }

  /** A new connection, among any other ones. */
  method AcceptAmong(connfd: int, loop: EventLoop<Callback, int>, pool: BufPool<ReactorBuf>, ghost peers: set<TcpConn>)
    returns (a: TcpConn)
    requires pool.Valid() && loop.Synced() && connfd !in loop.ioEvs
    requires forall b :: b in peers ==> Good(b) && b.pool == pool && (b.loop == loop ==> b.connfd != connfd)
    modifies loop`ioEvs, loop`listenFds, loop`epoll
    ensures fresh(a) && fresh(a.obuf) && fresh(a.ibuf)
    ensures a.Live() && a.connfd == connfd && a.loop == loop && a.pool == pool
    ensures RecordOf(a) == Record(connfd, [], [], [], true, [], [], [])
    ensures pool.Valid() && loop.Synced() && loop.ioEvs - {connfd} == old(loop.ioEvs)
    ensures forall b :: b in peers ==>
              Good(b) && b.Live() == old(b.Live()) && RecordOf(b) == old(RecordOf(b)) && Independent(a, b)
  {
    hide BufPool.Valid, IoBuf.Contents, ReactorBuf.Contents, ReactorBuf.Valid, TcpConn.OutOk, TcpConn.InOk;
    hide EventLoop.Synced, TcpConn.Live, Open;
    forall b | b in peers
      ensures Open(b) && b.Stored() && b.loop.Synced() && b.ibuf.Usable() && (b.Live() <==> Sound(b))
    {
      OpenMeans(b);
    }
    a := new TcpConn(connfd, loop, pool);
    OpenMeans(a);
    assert pool.FreeBlocks() == old(pool.FreeBlocks());
    forall b | b in peers
      ensures Good(b) && b.Live() == old(b.Live()) && RecordOf(b) == old(RecordOf(b)) && Independent(a, b)
    {
      assert old(Open(b)) && old(b.Stored()) && old(b.ibuf.Usable());
      SameEntry(b.loop.ioEvs, old(b.loop.ioEvs), connfd, b.connfd, b.loop == loop);
      assert b.Stored() && b.loop.Synced() && b.Watched() == old(b.Watched());
      assert b.OutOk() == old(b.OutOk()) && b.InOk() == old(b.InOk());
      OpenMeans(b);
      NowOpen(b);
    }
  }

  lemma NowOpen(b: TcpConn)
    requires b.Stored() && b.loop.Synced() && b.ibuf.Usable()
    ensures Open(b)
  {
  }

  /** A connection that holds its blocks among a's strangers is as open as before. */
  lemma StillOpen(a: TcpConn, b: TcpConn)
    requires b.pool == a.pool && b.pool.Valid() && {b.obuf, b.ibuf} !! {a.obuf, a.ibuf}
    requires b.obuf.pool == b.pool && b.ibuf.pool == b.pool && b.obuf != b.ibuf
    requires b.loop.Synced() && b.ibuf.Usable() && Keeps(a.Strangers(), b.obuf) && Keeps(a.Strangers(), b.ibuf)
    ensures Open(b)
  {
    hide EventLoop.Synced, BufPool.Valid, ReactorBuf.Valid, Keeps;
    b.StaysStored(a);
  }

  /** send_message, among any other connections. The connection itself stays live unless a refusal leaves a
      trace. */
  method SendAmong(a: TcpConn, ghost peers: set<TcpConn>, data: seq<Byte>, msgid: int) returns (o: Outcome)
    requires Good(a) && Sendable(Message(msgid, data))
    requires forall b :: b in peers ==> Good(b) && Independent(a, b)
    modifies a`accepted, a.Footprint(), a.loop`ioEvs, a.loop`listenFds, a.loop`epoll
    ensures (o.Aborted? <==> !old(a.obuf.Usable())) && (o.Exited? <==> old(a.Exits(|data|))) && !o.Overrun?
    ensures o.Done? ==>
              && Good(a) && old(a.Live())
              && o.ret == (if Refused(old(a.obuf.Length()), |data|) then -1 else 0)
              && (a.Live() <==> o.ret == 0 || TakenBack(old(a.obuf.Length())))
    ensures o.Done? ==>
              var r, m := old(RecordOf(a)), Message(msgid, data);
              RecordOf(a) == if o.ret == 0 then r.(accepted := r.accepted + [m], queued := r.queued + Frame(m))
                             else if TakenBack(|r.queued|) then r
                             else r.(queued := (r.queued + Encode(m.id) + Encode(|m.body|))[8..], usable := false)
    ensures o.Done? ==>
              && a.loop.ioEvs - {a.connfd} == old(a.loop.ioEvs) - {a.connfd}
              && a.Strangers() == old(a.Strangers()) && fresh(a.Footprint() - old(a.Footprint()))
    ensures o.Done? ==> forall b :: b in peers ==>
              Good(b) && b.Live() == old(b.Live()) && RecordOf(b) == old(RecordOf(b)) && Independent(a, b)
  {
    hide BufPool.Valid, IoBuf.Contents, ReactorBuf.Contents, ReactorBuf.Valid, TcpConn.OutOk, TcpConn.InOk;
    hide EventLoop.Synced, TcpConn.Footprint, TcpConn.Strangers, Keeps, TcpConn.Live, Open;
    OpenMeans(a);
    a.Outside();
    a.Lengths();
    forall b | b in peers
      ensures OutOfItsReach(a, b) && b.loop.Synced() && b.ibuf.Usable() && (b.Live() <==> Sound(b))
      ensures b.obuf.pool == b.pool && b.ibuf.pool == b.pool && b.obuf != b.ibuf
    {
      OpenMeans(b);
      a.Bystander(b);
    }
    o := a.SendMessage(data, msgid);
    if o.Done? {
      a.Lengths();
      a.PoolIsValid();
      OpenMeans(a);
      NowOpen(a);
      forall b | b in peers
        ensures Good(b) && b.Live() == old(b.Live()) && RecordOf(b) == old(RecordOf(b))
      {
        assert old(OutOfItsReach(a, b)) && old(b.loop.Synced()) && old(Independent(a, b));
        SameEntry(b.loop.ioEvs, old(b.loop.ioEvs), old(a.connfd), b.connfd, b.loop == a.loop);
        assert b.loop.Synced() && b.Watched() == old(b.Watched());
        assert b.OutOk() == old(b.OutOk()) && b.InOk() == old(b.InOk());
        StillOpen(a, b);
        OpenMeans(b);
      }
    }
  }

  /** do_write, among any other connections. A live connection stays live or is closed. */
  method WriteAmong(a: TcpConn, ghost peers: set<TcpConn>, results: seq<WriteResult>) returns (o: Outcome)
    requires Good(a)
    requires forall b :: b in peers ==> Good(b) && Independent(a, b)
    modifies a`connfd, a`written, a.Footprint(), a.loop`ioEvs, a.loop`listenFds, a.loop`epoll
    ensures o == if old(a.Live()) then Done(0) else Aborted
    ensures o.Done? ==>
              && 0 <= old(a.obuf.Length())
              && (if Flush(old(a.obuf.Length()), results).failed then a.Closed(old(a.connfd))
                  else
                    var r, n := old(RecordOf(a)), Flush(|old(RecordOf(a)).queued|, results).taken;
                    && a.Live() && a.connfd == old(a.connfd)
                    && RecordOf(a) == r.(written := r.written + r.queued[..n], queued := r.queued[n..]))
              && a.loop.ioEvs - {old(a.connfd)} == old(a.loop.ioEvs) - {old(a.connfd)}
              && a.Strangers() == old(a.Strangers()) && fresh(a.Footprint() - old(a.Footprint()))
              && a.pool.Valid()
    ensures o.Done? ==> forall b :: b in peers ==>
              Good(b) && b.Live() == old(b.Live()) && RecordOf(b) == old(RecordOf(b))
  {
    hide BufPool.Valid, IoBuf.Contents, ReactorBuf.Contents, ReactorBuf.Valid, TcpConn.OutOk, TcpConn.InOk;
    hide EventLoop.Synced, TcpConn.Footprint, TcpConn.Strangers, Keeps, TcpConn.Live, Open;
    OpenMeans(a);
    a.Outside();
    a.Lengths();
    forall b | b in peers
      ensures OutOfItsReach(a, b) && b.loop.Synced() && b.ibuf.Usable() && (b.Live() <==> Sound(b))
      ensures b.obuf.pool == b.pool && b.ibuf.pool == b.pool && b.obuf != b.ibuf
    {
      OpenMeans(b);
      a.Bystander(b);
    }
    a.InMeans();
    o := a.DoWrite(results);
    if o.Done? {
      a.PoolIsValid();
      OpenMeans(a);
      a.InMeans();
      forall b | b in peers
        ensures Good(b) && b.Live() == old(b.Live()) && RecordOf(b) == old(RecordOf(b))
      {
        assert old(OutOfItsReach(a, b)) && old(b.loop.Synced()) && old(Independent(a, b));
        SameEntry(b.loop.ioEvs, old(b.loop.ioEvs), old(a.connfd), b.connfd, b.loop == a.loop);
        assert b.loop.Synced() && b.Watched() == old(b.Watched());
        assert b.OutOk() == old(b.OutOk()) && b.InOk() == old(b.InOk());
        StillOpen(a, b);
        OpenMeans(b);
      }
    }
  }

  /** A refused reply that leaves a trace leaves bytes in the queue. */
  lemma {:induction false} JamLeavesQueue(queued: nat, usable: bool, rs: seq<Message>)
    requires usable || queued != 0
    ensures var a := AnswersTo(queued, usable, rs); a.usable || a.queued != 0
    decreases |rs|
  {
    if rs != [] && usable {
      if Refused(queued, |rs[0].body|) {
        JamLeavesQueue(queued, TakenBack(queued), rs[1..]);
      } else {
        JamLeavesQueue(queued + MESSAGE_HEAD_LEN + |rs[0].body|, true, rs[1..]);
      }
    }
  }

  /** What is taken goes to the end of the queue. */
  lemma QueueGrows(r: Record, r': Record, taken: seq<Message>)
    requires AllSendable(r.accepted) && AllSendable(taken) && r'.accepted == r.accepted + taken
    requires r'.written == r.written && r.written + r.queued == Stream(r.accepted)
    requires r'.written + r'.queued == Stream(r'.accepted)
    ensures r'.queued == r.queued + Stream(taken)
  {
    StreamConcat(r.accepted, taken);
    assert r.written + r'.queued == r.written + (r.queued + Stream(taken));
    assert (r.written + r'.queued)[|r.written|..] == r'.queued;
    assert (r.written + (r.queued + Stream(taken)))[|r.written|..] == r.queued + Stream(taken);
  }

  /** do_read with its callbacks, for the connection itself. The connection is closed over the end of the
      stream, an error or a bad header; otherwise it stays live unless a refused reply leaves a trace. */
  method ReadAlone(a: TcpConn, arrival: Arrival, reply: (nat, Message) -> seq<Message>)
    returns (o: Outcome, msgs: seq<Message>)
    requires Good(a) && Plausible(arrival) && forall k, m :: AllSendable(reply(k, m))
    modifies a`connfd, a`accepted, a`received, a`dispatched, a.Footprint(), a.loop`ioEvs, a.loop`listenFds, a.loop`epoll
    ensures o.Overrun? <==> old(a.ibuf.Overruns(arrival))
    ensures o.Done? ==>
              && 0 <= old(a.obuf.Length()) && 0 <= old(a.ibuf.Length())
              && var p := Parse(old(a.ibuf.Contents()) + Offered(arrival));
                 var ans := AnswersTo(old(a.obuf.Length()), old(a.obuf.Usable()), Replies(reply, p.msgs));
                 && (if Fails(arrival, old(a.ibuf.Length())) || p.ending == BadHeader then a.Closed(old(a.connfd))
                     else
                       && Good(a) && a.connfd == old(a.connfd) && msgs == p.msgs && p.ending == Waiting
                       && (a.Live() <==> old(a.Live()) && ans.usable)
                       && var r := old(RecordOf(a));
                          && RecordOf(a) == r.(received := r.received + Offered(arrival), kept := p.rest,
                                               dispatched := r.dispatched + msgs, usable := ans.usable,
                                               accepted := r.accepted + ans.taken, queued := RecordOf(a).queued)
                          && |RecordOf(a).queued| == ans.queued && AllSendable(ans.taken)
                          && (ans.usable ==> RecordOf(a).queued == r.queued + Stream(ans.taken)))
                 && a.loop.ioEvs - {old(a.connfd)} == old(a.loop.ioEvs) - {old(a.connfd)}
                 && a.Strangers() == old(a.Strangers()) && fresh(a.Footprint() - old(a.Footprint()))
                 && a.pool.Valid()
  {
    hide BufPool.Valid, IoBuf.Contents, ReactorBuf.Contents, ReactorBuf.Valid, TcpConn.OutOk, TcpConn.InOk;
    hide EventLoop.Synced, TcpConn.Footprint, TcpConn.Strangers, Keeps, TcpConn.Live, Open;
    hide AnswersTo, Replies, Parse;
    OpenMeans(a);
    a.Outside();
    a.Lengths();
    assert a.obuf.Usable() || a.obuf.Length() != 0;
    ghost var p := Parse(a.ibuf.Contents() + Offered(arrival));
    JamLeavesQueue(a.obuf.Length(), a.obuf.Usable(), Replies(reply, p.msgs));
    BrokenForGood(a.obuf.Length(), Replies(reply, p.msgs));
    RepliesAreSendable(reply, p.msgs);
    TakenAreSendable(a.obuf.Length(), a.obuf.Usable(), Replies(reply, p.msgs));
    a.OutMeans();
    o, msgs := a.DoRead(arrival, reply);
    if o.Done? {
      a.Lengths();
      a.PoolIsValid();
      OpenMeans(a);
      NowOpen(a);
      a.OutMeans();
      if !Fails(arrival, old(a.ibuf.Length())) && p.ending != BadHeader {
        assert p.ending == Waiting && (a.obuf.Usable() || a.obuf.Contents() != []);
        assert a.Live() || Jammed(a);
        if a.Live() {
          QueueGrows(old(RecordOf(a)), RecordOf(a),
                     AnswersTo(old(a.obuf.Length()), old(a.obuf.Usable()), Replies(reply, p.msgs)).taken);
        }
      }
    }
  }

  /** The same, among any other connections. */
  method ReadAmong(a: TcpConn, ghost peers: set<TcpConn>, arrival: Arrival, reply: (nat, Message) -> seq<Message>)
    returns (o: Outcome, msgs: seq<Message>)
    requires Good(a) && Plausible(arrival) && forall k, m :: AllSendable(reply(k, m))
    requires forall b :: b in peers ==> Good(b) && Independent(a, b)
    modifies a`connfd, a`accepted, a`received, a`dispatched, a.Footprint(), a.loop`ioEvs, a.loop`listenFds, a.loop`epoll
    ensures o.Overrun? <==> old(a.ibuf.Overruns(arrival))
    ensures o.Done? ==>
              && 0 <= old(a.obuf.Length()) && 0 <= old(a.ibuf.Length())
              && var p := Parse(old(a.ibuf.Contents()) + Offered(arrival));
                 var ans := AnswersTo(old(a.obuf.Length()), old(a.obuf.Usable()), Replies(reply, p.msgs));
                 && (if Fails(arrival, old(a.ibuf.Length())) || p.ending == BadHeader then a.Closed(old(a.connfd))
                     else
                       && Good(a) && a.connfd == old(a.connfd) && msgs == p.msgs && p.ending == Waiting
                       && (a.Live() <==> old(a.Live()) && ans.usable)
                       && var r := old(RecordOf(a));
                          && RecordOf(a) == r.(received := r.received + Offered(arrival), kept := p.rest,
                                               dispatched := r.dispatched + msgs, usable := ans.usable,
                                               accepted := r.accepted + ans.taken, queued := RecordOf(a).queued)
                          && |RecordOf(a).queued| == ans.queued && AllSendable(ans.taken)
                          && (ans.usable ==> RecordOf(a).queued == r.queued + Stream(ans.taken)))
                 && a.loop.ioEvs - {old(a.connfd)} == old(a.loop.ioEvs) - {old(a.connfd)}
                 && a.Strangers() == old(a.Strangers()) && fresh(a.Footprint() - old(a.Footprint()))
                 && a.pool.Valid()
    ensures o.Done? ==> forall b :: b in peers ==>
              Good(b) && b.Live() == old(b.Live()) && RecordOf(b) == old(RecordOf(b))
  {
    hide BufPool.Valid, IoBuf.Contents, ReactorBuf.Contents, ReactorBuf.Valid, TcpConn.OutOk, TcpConn.InOk;
    hide EventLoop.Synced, TcpConn.Footprint, TcpConn.Strangers, Keeps, TcpConn.Live, Open;
    hide AnswersTo, Replies, Parse, Stream, AllSendable;
    OpenMeans(a);
    a.Outside();
    forall b | b in peers
      ensures OutOfItsReach(a, b) && b.loop.Synced() && b.ibuf.Usable() && (b.Live() <==> Sound(b))
      ensures b.obuf.pool == b.pool && b.ibuf.pool == b.pool && b.obuf != b.ibuf
    {
      OpenMeans(b);
      a.Bystander(b);
    }
    o, msgs := ReadAlone(a, arrival, reply);
    if o.Done? {
      OpenMeans(a);
      forall b | b in peers
        ensures Good(b) && b.Live() == old(b.Live()) && RecordOf(b) == old(RecordOf(b))
      {
        assert old(OutOfItsReach(a, b)) && old(b.loop.Synced()) && old(Independent(a, b));
        SameEntry(b.loop.ioEvs, old(b.loop.ioEvs), old(a.connfd), b.connfd, b.loop == a.loop);
        assert b.loop.Synced() && b.Watched() == old(b.Watched());
        assert b.OutOk() == old(b.OutOk()) && b.InOk() == old(b.InOk());
        StillOpen(a, b);
        OpenMeans(b);
      }
    }
  }

  /** What a server is told: by its listening socket, by its own program, or by epoll. */
  datatype Event =
    | Accepted(connfd: int, loop: EventLoop<Callback, int>)
    | Sending(fd: int, data: seq<Byte>, msgid: int)
    | Writable(fd: int, results: seq<WriteResult>)
    | Readable(fd: int, arrival: Arrival, reply: (nat, Message) -> seq<Message>)

  /** All that matters of a connection. */
  datatype View = View(good: bool, live: bool, record: Record)

  ghost function ViewOf(b: TcpConn): View
    reads b, b.loop, b.pool, b.pool.FreeBlocks(), b.obuf, b.ibuf, b.obuf.buf, b.ibuf.buf, b.Parts()
  {
    View(Good(b), b.Live(), RecordOf(b))
  }

  function FdOf(e: Event): int {
    match e
    case Accepted(connfd, _) => connfd
    case Sending(fd, _, _) => fd
    case Writable(fd, _) => fd
    case Readable(fd, _, _) => fd
  }

  function NewRecord(fd: int): Record {
    Record(fd, [], [], [], true, [], [], [])
  }

  /** A message is queued whole, is refused without a trace, or is refused after its header went in. */
  function AfterSending(r: Record, m: Message): Record
    requires Sendable(m)
  {
    if !Refused(|r.queued|, |m.body|) then r.(accepted := r.accepted + [m], queued := r.queued + Frame(m))
    else if TakenBack(|r.queued|) then r
    else r.(queued := (r.queued + Encode(m.id) + Encode(|m.body|))[8..], usable := false)
  }

  /** What the descriptor takes leaves the queue at the front. */
  function AfterWriting(r: Record, n: nat): Record
    requires n <= |r.queued|
  {
    r.(written := r.written + r.queued[..n], queued := r.queued[n..])
  }

  /** A read: the bytes arrive, whole messages are dispatched, their answers are taken as far as they are. */
  ghost predicate AfterReading(r: Record, bytes: seq<Byte>, reply: (nat, Message) -> seq<Message>, r': Record) {
    var p := Parse(r.kept + bytes);
    var ans := AnswersTo(|r.queued|, r.usable, Replies(reply, p.msgs));
    && r' == r.(received := r.received + bytes, dispatched := r.dispatched + p.msgs, kept := p.rest,
                accepted := r.accepted + ans.taken, usable := ans.usable, queued := r'.queued)
    && p.ending == Waiting && |r'.queued| == ans.queued && AllSendable(ans.taken)
    && (ans.usable ==> r'.queued == r.queued + Stream(ans.taken))
  }

  /** A connection that is not open yet is opened. */
  ghost predicate Opens(fd: int, was: map<int, View>, now: map<int, View>) {
    fd in now && now[fd] == if fd in was then was[fd] else View(true, true, NewRecord(fd))
  }

  /** A message is sent on a connection, if it is open. */
  ghost predicate Sends(fd: int, m: Message, was: map<int, View>, now: map<int, View>) {
    && (fd in now <==> fd in was) && Sendable(m)
    && (fd in was ==>
          was[fd].live && now[fd].record == AfterSending(was[fd].record, m)
          && now[fd].good && now[fd].live == now[fd].record.usable)
  }

  /** A connection that is open writes from its queue; over an error it is closed. */
  ghost predicate WritesOut(fd: int, results: seq<WriteResult>, was: map<int, View>, now: map<int, View>) {
    if fd in was && !Flush(|was[fd].record.queued|, results).failed then
      && fd in now && was[fd].live && now[fd].live && now[fd].good
      && now[fd].record == AfterWriting(was[fd].record, Flush(|was[fd].record.queued|, results).taken)
    else fd !in now
  }

  /** A connection that is open reads; over an error, the end of the stream or a bad header it is closed. */
  ghost predicate ReadsIn(fd: int, a: Arrival, reply: (nat, Message) -> seq<Message>, was: map<int, View>,
                          now: map<int, View>) {
    if fd in was && !Fails(a, |was[fd].record.kept|)
       && Parse(was[fd].record.kept + Offered(a)).ending != BadHeader then
      && fd in now && AfterReading(was[fd].record, Offered(a), reply, now[fd].record)
      && now[fd].good && (now[fd].live <==> was[fd].live && now[fd].record.usable)
    else fd !in now
  }

  /** What one event makes of the connections that are open. */
  ghost predicate Effect(e: Event, was: map<int, View>, now: map<int, View>) {
    && now - {FdOf(e)} == was - {FdOf(e)}
    && match e
       case Accepted(fd, _) => Opens(fd, was, now)
       case Sending(fd, data, msgid) => Sends(fd, Message(msgid, data), was, now)
       case Writable(fd, results) => WritesOut(fd, results, was, now)
       case Readable(fd, arrival, reply) => ReadsIn(fd, arrival, reply, was, now)
  }

  ghost predicate Traced(events: seq<Event>, views: seq<map<int, View>>) {
    |views| == |events| + 1 && forall i :: 0 <= i < |events| ==> Effect(events[i], views[i], views[i + 1])
  }

  /** What an event that ended the program found. */
  ghost predicate Stops(e: Event, was: map<int, View>, o: Outcome) {
    && FdOf(e) in was && !e.Accepted?
    && (e.Writable? ==> o == Aborted && !was[e.fd].live)
    && (e.Sending? ==> if was[e.fd].record.usable then o == Exited else o == Aborted)
  }

  /** tcp_server: the connections by their descriptors, in the loops of its threads. */
  class TcpServer {
    const pool: BufPool<ReactorBuf>
    const loops: set<EventLoop<Callback, int>>
    /** The descriptors of the program itself. */
    const reserved: set<int>
    var conns: map<int, TcpConn>
    var curConns: int

    /** The objects of the connections and their loops. */
    ghost function Ends(): set<object>
      reads this
    {
      loops + conns.Values + (set fd | fd in conns :: conns[fd].obuf) + (set fd | fd in conns :: conns[fd].ibuf)
    }

    ghost function Memory(): set<object>
      reads pool
    {
      pool.blocks + (set b | b in pool.blocks :: b.data)
    }

    ghost function Repr(): set<object>
      reads this, pool
    {
      {this, pool} + Ends() + Memory()
    }

    ghost predicate Placed(fd: int)
      requires fd in conns
      reads this, conns.Values
    {
      var a := conns[fd];
      0 <= fd && fd !in reserved && a.connfd == fd && a.pool == pool && a.loop in loops
    }

    /** A loop watches nothing but its own connections and what the program watches for itself. */
    ghost predicate Watches(l: EventLoop<Callback, int>)
      reads this, l
    {
      l.Synced() && forall fd :: fd in l.ioEvs ==> fd in reserved || (fd in conns && conns[fd].loop == l)
    }

    ghost predicate Apart()
      reads this
    {
      forall fd, fd' :: fd in conns && fd' in conns && fd != fd' ==> Separated(conns[fd], conns[fd'])
    }

    ghost predicate Valid()
      reads *
    {
      && pool.Valid() && curConns == |conns| && Apart()
      && (forall l :: l in loops ==> Watches(l))
      && (forall fd :: fd in conns ==> Placed(fd) && Good(conns[fd]))
    }

    ghost function Views(): map<int, View>
      reads *
    {
      map fd | fd in conns :: ViewOf(conns[fd])
    }

    /** All connections but one are what they were. */
    twostate predicate Kept(fd: int)
      reads *
    {
      forall f :: f in old(conns) && f != fd ==>
        f in conns && conns[f] == old(conns[f]) && ViewOf(conns[f]) == old(ViewOf(conns[f]))
    }

    constructor (pool: BufPool<ReactorBuf>, loops: set<EventLoop<Callback, int>>, reserved: set<int>)
      requires pool.Valid() && forall l :: l in loops ==> l.Synced() && l.ioEvs.Keys <= reserved
      ensures Valid() && conns == map[] && this.pool == pool && this.loops == loops && this.reserved == reserved
    {
      hide BufPool.Valid, EventLoop.Synced;
      this.pool, this.loops, this.reserved := pool, loops, reserved;
      conns, curConns := map[], 0;
      new;
      assert pool.FreeBlocks() == old(pool.FreeBlocks());
    }

    lemma Within(fd: int)
      requires fd in conns && conns[fd].pool == pool && conns[fd].loop in loops
      ensures conns[fd].Footprint() <= Repr() && {conns[fd], conns[fd].loop} <= Repr()
      ensures this !in conns[fd].Footprint() && forall l :: l in loops ==> l !in conns[fd].Footprint()
    {
      var a := conns[fd];
      assert a in conns.Values && a.obuf in Ends() && a.ibuf in Ends();
      assert a.Ours() <= pool.blocks;
    }

    /** Valid but for a connection that has just been closed. */
    ghost predicate ValidBut(fd: int)
      reads *
    {
      && fd in conns && pool.Valid() && curConns == |conns| && Apart()
      && (forall l :: l in loops ==> Watches(l) && fd !in l.ioEvs)
      && (forall f :: f in conns && f != fd ==> Placed(f) && Good(conns[f]))
    }

    /** After an event on fd everything is in place again. */
    twostate lemma StaysValid(fd: int)
      requires old(Valid()) && fd in old(conns)
      requires pool.Valid() && curConns == old(curConns) && conns == old(conns)
      requires var a := old(conns[fd]);
               && ((Good(a) && a.connfd == fd) || fd !in a.loop.ioEvs)
               && a.loop.Synced() && a.loop.ioEvs - {fd} == old(a.loop.ioEvs) - {fd}
               && forall l :: l in loops && l != a.loop ==> unchanged(l)
      requires Kept(fd)
      ensures var a := old(conns[fd]); if Good(a) && a.connfd == fd then Valid() else ValidBut(fd)
    {
      hide BufPool.Valid, EventLoop.Synced, TcpConn.Live, Good;
      var a := old(conns[fd]);
      forall f | f in conns && f != fd
        ensures Placed(f) && Good(conns[f])
      {
        assert old(Placed(f));
        assert RecordOf(conns[f]).connfd == old(RecordOf(conns[f])).connfd;
      }
      assert old(Placed(fd));
      forall l | l in loops
        ensures Watches(l) && (fd !in a.loop.ioEvs ==> fd !in l.ioEvs)
      {
        assert old(Watches(l));
        if l == a.loop {
          assert forall x :: x in l.ioEvs && x != fd ==> x in l.ioEvs - {fd};
        }
      }
    }

    /** What an event on fd adds to the server's objects is new. */
    twostate lemma Grows(fd: int)
      requires fd in old(conns) && old(pool.Valid()) && conns.Keys <= old(conns.Keys)
      requires forall f :: f in conns ==> conns[f] == old(conns[f])
      requires var a := old(conns[fd]);
               && a.pool == pool && a.loop in loops && a.Strangers() == old(a.Strangers())
               && fresh(a.Footprint() - old(a.Footprint()))
      ensures fresh(Repr() - old(Repr()))
    {
      hide BufPool.Valid;
      var a := old(conns[fd]);
      assert old(a.Footprint()) <= old(Repr()) by { Here(fd); }
      assert old(a.Strangers().Keys <= pool.blocks) by { PoolHolds(a); }
      assert Ends() <= old(Ends()) by { FewerEnds(); }
      forall x | x in Memory() && x !in old(Memory())
        ensures x in a.Footprint()
      {
        assert forall b :: b in pool.blocks && b !in old(pool.blocks) ==> b in a.Ours();
      }
    }

    twostate lemma Here(fd: int)
      requires fd in old(conns) && old(conns[fd]).pool == pool && old(conns[fd]).loop in loops
      ensures old(conns[fd].Footprint()) <= old(Repr())
    {
    }

    twostate lemma PoolHolds(a: TcpConn)
      requires old(pool.Valid()) && a.pool == pool
      ensures old(a.Strangers().Keys <= pool.blocks)
    {
    }

    twostate lemma FewerEnds()
      requires conns.Keys <= old(conns.Keys) && forall f :: f in conns ==> conns[f] == old(conns[f])
      ensures Ends() <= old(Ends())
    {
      forall b | b in conns.Values
        ensures b in old(conns).Values
      {
        KeyOf(conns, b);
      }
    }

    static lemma KeyOf(conns: map<int, TcpConn>, b: TcpConn)
      ensures b !in conns.Values || exists f :: f in conns && conns[f] == b
    {
      if forall f :: f in conns ==> conns[f] != b {
        assert b !in conns.Values;
      }
    }

    lemma Peers(fd: int)
      requires Valid() && fd in conns
      ensures Good(conns[fd]) && Placed(fd) && forall b :: b in conns.Values - {conns[fd]} ==>
                Good(b) && Independent(conns[fd], b) && b.connfd in conns && b.connfd != fd && conns[b.connfd] == b
    {
      hide BufPool.Valid, EventLoop.Synced, Good, Watches;
      forall b | b in conns.Values - {conns[fd]}
        ensures Good(b) && Independent(conns[fd], b) && b.connfd in conns && b.connfd != fd && conns[b.connfd] == b
      {
        KeyOf(conns, b);
        var f :| f in conns && conns[f] == b;
        assert Placed(f) && Placed(fd) && Separated(conns[fd], conns[f]);
      }
    }

    /** send_message on one of the connections. It stays live unless a refusal leaves a trace. */
    method Send(fd: int, data: seq<Byte>, msgid: int) returns (o: Outcome)
      requires Valid() && fd in conns && Sendable(Message(msgid, data))
      modifies Repr()
      ensures (o.Aborted? <==> !old(conns[fd].obuf.Usable())) && (o.Exited? <==> old(conns[fd].Exits(|data|)))
      ensures !o.Overrun?
      ensures o.Done? ==>
                && Valid() && conns == old(conns) && Kept(fd) && fresh(Repr() - old(Repr())) && old(conns[fd].Live())
                && (conns[fd].Live() <==> o.ret == 0 || TakenBack(|old(RecordOf(conns[fd])).queued|))
                && var r, m := old(RecordOf(conns[fd])), Message(msgid, data);
                   && o.ret == (if Refused(|r.queued|, |data|) then -1 else 0)
                   && RecordOf(conns[fd])
                      == if o.ret == 0 then r.(accepted := r.accepted + [m], queued := r.queued + Frame(m))
                         else if TakenBack(|r.queued|) then r
                         else r.(queued := (r.queued + Encode(m.id) + Encode(|m.body|))[8..], usable := false)
    {
      hide BufPool.Valid, EventLoop.Synced, TcpConn.Live, TcpConn.Footprint, TcpConn.Strangers, Jammed;
      hide Ends, Memory, Parse, AnswersTo, Replies, Flush, TcpConn.Exits, ReactorBuf.Overruns;
      var a := conns[fd];
      ghost var peers := conns.Values - {a};
      Within(fd);
      Peers(fd);
      a.Outside();
      OpenMeans(a);
      a.Lengths();
      o := SendAmong(a, peers, data, msgid);
      if o.Done? {
        OpenMeans(a);
        StaysValid(fd);
        Grows(fd);
      }
    }

    /** decrease_conn */
    method DecreaseConn(fd: int)
      requires ValidBut(fd)
      modifies this`conns, this`curConns
      ensures Valid() && conns == old(conns) - {fd} && Kept(fd) && Repr() <= old(Repr())
    {
      hide BufPool.Valid, EventLoop.Synced, ViewOf, Good, TcpConn.Parts, Ends, Memory, Watches, Placed, Apart;
      assert conns == (conns - {fd})[fd := conns[fd]];
      conns := conns - {fd};
      curConns := curConns - 1;
      assert pool.FreeBlocks() == old(pool.FreeBlocks());
      FewerEnds();
      forall f | f in conns
        ensures conns[f] == old(conns[f]) && ViewOf(conns[f]) == old(ViewOf(conns[f]))
      {
        var b := conns[f];
        NotMine(b);
        ViewStays(b);
      }
      DropKeepsValid(fd);
    }

    lemma NotMine(b: TcpConn)
      ensures this !in b.Parts()
    {
    }

    static twostate lemma ViewStays(b: TcpConn)
      requires unchanged(b, b.loop, b.pool, b.obuf, b.ibuf) && unchanged(b.pool.FreeBlocks()) && unchanged(b.Parts())
      ensures ViewOf(b) == old(ViewOf(b))
    {
      hide ViewOf;
    }

    twostate lemma DropKeepsValid(fd: int)
      requires old(ValidBut(fd)) && conns == old(conns) - {fd} && Kept(fd)
      requires pool.Valid() && curConns == |conns| && forall l :: l in loops ==> unchanged(l)
      ensures Valid()
    {
      hide BufPool.Valid, EventLoop.Synced;
      forall f | f in conns
        ensures Placed(f) && Good(conns[f])
      {
        assert old(Placed(f)) && ViewOf(conns[f]).good;
        assert ViewOf(conns[f]).record == old(ViewOf(conns[f])).record;
      }
      forall l | l in loops
        ensures Watches(l)
      {
        assert old(Watches(l));
      }
    }

    /** A writable descriptor: on a jammed connection the program aborts, a live one stays live or is closed. */
    method Write(fd: int, results: seq<WriteResult>) returns (o: Outcome)
      requires Valid() && fd in conns
      modifies Repr()
      ensures o == if old(conns[fd].Live()) then Done(0) else Aborted
      ensures o.Done? ==>
                && Valid() && Kept(fd) && fresh(Repr() - old(Repr()))
                && var r, f := old(RecordOf(conns[fd])), Flush(|old(RecordOf(conns[fd])).queued|, results);
                   if f.failed then conns == old(conns) - {fd}
                   else
                     && conns == old(conns) && conns[fd].Live()
                     && RecordOf(conns[fd])
                        == r.(written := r.written + r.queued[..f.taken], queued := r.queued[f.taken..])
    {
      hide BufPool.Valid, EventLoop.Synced, TcpConn.Live, TcpConn.Footprint, TcpConn.Strangers, Jammed;
      hide Ends, Memory, Parse, AnswersTo, Replies, Flush, TcpConn.Exits, ReactorBuf.Overruns;
      var a := conns[fd];
      ghost var peers := conns.Values - {a};
      Within(fd);
      Peers(fd);
      a.Outside();
      OpenMeans(a);
      a.Lengths();
      o := WriteAmong(a, peers, results);
      if o.Done? {
        OpenMeans(a);
        StaysValid(fd);
        Grows(fd);
        label Written: if a.connfd == -1 {
          DecreaseConn(fd);
        }
      }
    }

    /** A readable descriptor: the connection is closed, or stays live unless a refused reply leaves a trace. */
    method Read(fd: int, r: Arrival, reply: (nat, Message) -> seq<Message>)
      returns (o: Outcome, msgs: seq<Message>)
      requires Valid() && fd in conns && Plausible(r) && forall k, m :: AllSendable(reply(k, m))
      modifies Repr()
      ensures o.Overrun? <==> old(conns[fd].ibuf.Overruns(r))
      ensures o.Done? ==>
                && Valid() && Kept(fd) && fresh(Repr() - old(Repr()))
                && var was := old(RecordOf(conns[fd]));
                   var p := Parse(was.kept + Offered(r));
                   var ans := AnswersTo(|was.queued|, was.usable, Replies(reply, p.msgs));
                   if Fails(r, |was.kept|) || p.ending == BadHeader then conns == old(conns) - {fd}
                   else
                     && conns == old(conns) && msgs == p.msgs && p.ending == Waiting
                     && (conns[fd].Live() <==> old(conns[fd].Live()) && ans.usable)
                     && var now := RecordOf(conns[fd]);
                        && now == was.(received := was.received + Offered(r), dispatched := was.dispatched + msgs,
                                       kept := p.rest, accepted := was.accepted + ans.taken, usable := ans.usable,
                                       queued := now.queued)
                        && |now.queued| == ans.queued && AllSendable(ans.taken)
                        && (ans.usable ==> now.queued == was.queued + Stream(ans.taken))
    {
      hide BufPool.Valid, EventLoop.Synced, TcpConn.Live, TcpConn.Footprint, TcpConn.Strangers, Jammed;
      hide Ends, Memory, Parse, AnswersTo, Replies, Flush, TcpConn.Exits, ReactorBuf.Overruns;
      var a := conns[fd];
      ghost var peers := conns.Values - {a};
      Within(fd);
      Peers(fd);
      a.Outside();
      OpenMeans(a);
      a.Lengths();
      o, msgs := ReadAmong(a, peers, r, reply);
      if o.Done? {
        OpenMeans(a);
        StaysValid(fd);
        Grows(fd);
        label Handled: if a.connfd == -1 {
          DecreaseConn(fd);
        }
      }
    }

    /** Everything is in place, and there is a new connection beside. */
    ghost predicate ValidAndNew(a: TcpConn)
      reads *
    {
      && pool.Valid() && curConns == |conns| && Apart()
      && (forall fd :: fd in conns ==> Placed(fd) && Good(conns[fd]) && Separated(conns[fd], a))
      && (forall l :: l in loops ==>
            l.Synced() && forall fd :: fd in l.ioEvs ==>
              fd in reserved || (fd in conns && conns[fd].loop == l) || (fd == a.connfd && l == a.loop))
      && Good(a) && 0 <= a.connfd && a.connfd !in reserved && a.connfd !in conns && a.pool == pool && a.loop in loops
    }

    /** increase_conn */
    method IncreaseConn(a: TcpConn)
      requires ValidAndNew(a)
      modifies this`conns, this`curConns
      ensures Valid() && conns == old(conns)[a.connfd := a] && Kept(a.connfd) && ViewOf(a) == old(ViewOf(a))
      ensures Repr() <= old(Repr()) + {a, a.obuf, a.ibuf}
    {
      hide BufPool.Valid, EventLoop.Synced, ViewOf, Good, TcpConn.Live, TcpConn.Parts, Ends, Memory, Watches;
      hide Placed, Apart;
      conns := conns[a.connfd := a];
      curConns := curConns + 1;
      assert pool.FreeBlocks() == old(pool.FreeBlocks());
      forall f | f in old(conns)
        ensures ViewOf(conns[f]) == old(ViewOf(conns[f]))
      {
        var b := conns[f];
        NotMine(b);
        ViewStays(b);
      }
      NotMine(a);
      ViewStays(a);
      AddKeepsValid(a);
      OneMoreEnd(a);
    }

    twostate lemma OneMoreEnd(a: TcpConn)
      requires conns == old(conns)[a.connfd := a]
      ensures Ends() <= old(Ends()) + {a, a.obuf, a.ibuf}
    {
    }

    twostate lemma AddKeepsValid(a: TcpConn)
      requires old(ValidAndNew(a)) && a.connfd == old(a.connfd) && conns == old(conns)[a.connfd := a]
      requires ViewOf(a) == old(ViewOf(a)) && forall f :: f in old(conns) ==> ViewOf(conns[f]) == old(ViewOf(conns[f]))
      requires pool.Valid() && curConns == |conns| && forall l :: l in loops ==> unchanged(l)
      ensures Valid() && Kept(a.connfd) && a.Live() == old(a.Live())
    {
      hide BufPool.Valid, EventLoop.Synced, ViewOf, Good, TcpConn.Live;
      SameView(a);
      forall f | f in conns
        ensures Placed(f) && Good(conns[f])
      {
        if f != a.connfd {
          SameView(conns[f]);
          assert old(Placed(f));
        }
      }
      forall l | l in loops
        ensures Watches(l)
      {
        assert forall fd :: fd in l.ioEvs && fd in old(conns) ==> conns[fd] == old(conns[fd]);
      }
    }

    static twostate lemma SameView(b: TcpConn)
      requires ViewOf(b) == old(ViewOf(b))
      ensures Good(b) == old(Good(b)) && b.Live() == old(b.Live()) && b.connfd == old(b.connfd)
      ensures RecordOf(b) == old(RecordOf(b))
    {
      assert ViewOf(b).good == old(ViewOf(b)).good && ViewOf(b).live == old(ViewOf(b)).live;
      assert ViewOf(b).record == old(ViewOf(b)).record;
    }

    /** new tcp_conn, beside all the others. */
    method MakeConn(connfd: int, loop: EventLoop<Callback, int>) returns (a: TcpConn)
      requires Valid() && 0 <= connfd && connfd !in reserved && connfd !in conns && loop in loops
      modifies loop`ioEvs, loop`listenFds, loop`epoll
      ensures ValidAndNew(a) && Kept(connfd) && fresh(a) && fresh(a.obuf) && fresh(a.ibuf)
      ensures a.connfd == connfd && a.loop == loop && a.Live()
      ensures RecordOf(a) == Record(connfd, [], [], [], true, [], [], [])
    {
      hide BufPool.Valid, EventLoop.Synced, TcpConn.Live, Good;
      assert Watches(loop);
      ghost var peers := conns.Values;
      forall b | b in peers
        ensures Good(b) && b.pool == pool && b.connfd != connfd
      {
        KeyOf(conns, b);
        var f :| f in conns && conns[f] == b;
        assert Placed(f);
      }
      a := AcceptAmong(connfd, loop, pool, peers);
      forall f | f in conns
        ensures Placed(f) && Good(conns[f]) && Separated(conns[f], a)
        ensures ViewOf(conns[f]) == old(ViewOf(conns[f]))
      {
        assert conns[f] in peers && old(Placed(f));
        assert RecordOf(conns[f]).connfd == old(RecordOf(conns[f])).connfd;
      }
      forall l | l in loops
        ensures l.Synced() && forall fd :: fd in l.ioEvs ==>
                  fd in reserved || (fd in conns && conns[fd].loop == l) || (fd == connfd && l == loop)
      {
        assert old(Watches(l));
        if l == loop {
          assert forall x :: x in l.ioEvs && x != connfd ==> x in l.ioEvs - {connfd};
        }
      }
      LiveIsGood(a);
    }

    static lemma LiveIsGood(a: TcpConn)
      requires a.Live()
      ensures Good(a)
    {
    }

    /** A connection on a descriptor that is not in use yet, in one of the loops. */
    method Accept(connfd: int, loop: EventLoop<Callback, int>)
      requires Valid() && 0 <= connfd && connfd !in reserved && connfd !in conns && loop in loops
      modifies Repr()
      ensures Valid() && Kept(connfd) && fresh(Repr() - old(Repr())) && conns.Keys == old(conns.Keys) + {connfd}
      ensures conns[connfd].Live() && conns[connfd].loop == loop && fresh(conns[connfd])
      ensures RecordOf(conns[connfd]) == Record(connfd, [], [], [], true, [], [], [])
    {
      hide Valid, ValidAndNew, ViewOf, RecordOf, TcpConn.Live, Memory;
      assert loop in Ends();
      var a := MakeConn(connfd, loop);
      label Made: IncreaseConn(a);
      SameView@Made(a);
    }

    /** What an event has to be like whenever it comes. */
    ghost predicate Proper(e: Event) {
      match e
      case Accepted(connfd, loop) => 0 <= connfd && connfd !in reserved && loop in loops
      case Sending(_, data, msgid) => Sendable(Message(msgid, data))
      case Writable(_, _) => true
      case Readable(_, arrival, reply) => Plausible(arrival) && forall k, m :: AllSendable(reply(k, m))
    }

    lemma Seen(fd: int)
      ensures fd in conns <==> fd in Views()
      ensures fd in conns ==>
                && Views()[fd].live == conns[fd].Live() && Views()[fd].record == RecordOf(conns[fd])
                && Views()[fd].record.usable == conns[fd].obuf.Usable()
    {
      hide TcpConn.Live;
    }

    /** Two states of the server that differ in one connection only. */
    twostate lemma OthersView(fd: int)
      requires Kept(fd) && conns.Keys - {fd} == old(conns.Keys) - {fd}
      ensures Views() - {fd} == old(Views()) - {fd}
      ensures fd in conns <==> fd in Views()
      ensures fd in old(conns) <==> fd in old(Views())
      ensures fd in conns ==> Views()[fd] == ViewOf(conns[fd])
      ensures fd in old(conns) ==> old(Views())[fd] == old(ViewOf(conns[fd]))
    {
      hide ViewOf;
      assert forall f :: f in conns && f != fd ==> f in conns.Keys - {fd};
      assert forall f :: f in old(conns) && f != fd ==> f in old(conns.Keys) - {fd};
      var now, was := Views() - {fd}, old(Views()) - {fd};
      assert now.Keys == conns.Keys - {fd} == was.Keys;
      forall f | f in now
        ensures now[f] == was[f]
      {
        assert f in conns && f in old(conns);
      }
    }

    /** One event; one of a descriptor that is not open does not occur, nor does opening one that is. A
        connection that is jammed can only be read from without an answer, or closed. */
    method Handle(e: Event) returns (o: Outcome)
      requires Valid() && Proper(e)
      modifies Repr()
      ensures o.Done? ==> Valid() && Kept(FdOf(e)) && fresh(Repr() - old(Repr()))
      ensures o.Done? ==> Effect(e, old(Views()), Views())
      ensures !o.Done? ==> Stops(e, old(Views()), o)
      ensures e.Accepted? ==> e.connfd in Views() && (e.connfd in old(Views()) ==> Views() == old(Views()))
      ensures e.Accepted? && e.connfd !in old(Views()) ==>
                Views()[e.connfd] == View(true, true, Record(e.connfd, [], [], [], true, [], [], []))
      ensures e.Sending? && e.fd in old(Views()) && o.Done? ==>
                var r, m := old(Views())[e.fd].record, Message(e.msgid, e.data);
                && e.fd in Views()
                && Views()[e.fd].record
                   == if !Refused(|r.queued|, |m.body|) then
                        r.(accepted := r.accepted + [m], queued := r.queued + Frame(m))
                      else if TakenBack(|r.queued|) then r
                      else r.(queued := (r.queued + Encode(m.id) + Encode(|m.body|))[8..], usable := false)
      ensures e.Writable? && e.fd in old(Views()) && o.Done? ==>
                var r := old(Views())[e.fd].record;
                var f := Flush(|r.queued|, e.results);
                if f.failed then e.fd !in Views()
                else
                  && e.fd in Views()
                  && Views()[e.fd].record
                     == r.(written := r.written + r.queued[..f.taken], queued := r.queued[f.taken..])
      ensures e.Readable? && e.fd in old(Views()) && o.Done? ==>
                var r := old(Views())[e.fd].record;
                var p := Parse(r.kept + Offered(e.arrival));
                var ans := AnswersTo(|r.queued|, r.usable, Replies(e.reply, p.msgs));
                if Fails(e.arrival, |r.kept|) || p.ending == BadHeader then e.fd !in Views()
                else
                  && e.fd in Views()
                  && var now := Views()[e.fd].record;
                     && now.received == r.received + Offered(e.arrival) && now.dispatched == r.dispatched + p.msgs
                     && now.kept == p.rest && now.accepted == r.accepted + ans.taken && now.written == r.written
                     && (ans.usable ==> now.queued == r.queued + Stream(ans.taken))
    {
      hide Valid, Repr, RecordOf, Good, TcpConn.Live, Parse, AnswersTo, Replies, Flush, TcpConn.Exits;
      hide ReactorBuf.Overruns, Frame, Encode, Stream, Fails, Refused, TakenBack;
      Seen(FdOf(e));
      o := Done(0);
      match e {
        case Accepted(connfd, loop) =>
          if connfd !in conns {
            Accept(connfd, loop);
          }
        case Sending(fd, data, msgid) =>
          if fd in conns {
            o := Send(fd, data, msgid);
          }
        case Writable(fd, results) =>
          if fd in conns {
            o := Write(fd, results);
          }
        case Readable(fd, arrival, reply) =>
          if fd in conns {
            var r, _ := Read(fd, arrival, reply);
            o := r;
          }
      }
      if o.Done? {
        OthersView(FdOf(e));
        AreGood(FdOf(e));
      }
    }

    lemma AreGood(fd: int)
      requires Valid()
      ensures fd in conns ==> Good(conns[fd]) && (conns[fd].Live() ==> RecordOf(conns[fd]).usable)
    {
      hide BufPool.Valid, EventLoop.Synced, Watches;
    }

    /** Any run of events, until one ends the program; views are the states of the connections before and
        after each event. Every event has its effect, and a connection that no event was about is what it
        was. Only an event on an open connection ends the program. */
    method Serve(events: seq<Event>) returns (o: Outcome, ghost views: seq<map<int, View>>)
      requires Valid() && forall e :: e in events ==> Proper(e)
      modifies Repr()
      ensures 0 < |views| && views[0] == old(Views())
      ensures o.Done? ==>
                Valid() && fresh(Repr() - old(Repr())) && Traced(events, views) && views[|events|] == Views()
      ensures !o.Done? ==>
                && |views| <= |events| && Traced(events[..|views| - 1], views)
                && Stops(events[|views| - 1], views[|views| - 1], o)
      ensures o.Done? ==>
                forall f :: f in old(conns) && (forall e :: e in events ==> FdOf(e) != f) ==>
                  f in conns && conns[f] == old(conns[f]) && ViewOf(conns[f]) == old(ViewOf(conns[f]))
    {
      hide Valid, Repr, ViewOf, Effect;
      o := Done(0);
      views := [Views()];
      for i := 0 to |events|
        invariant Valid() && fresh(Repr() - old(Repr())) && o == Done(0)
        invariant |views| == i + 1 && views[0] == old(Views()) && views[i] == Views() && Traced(events[..i], views)
        invariant forall f :: f in old(conns) && (forall e :: e in events ==> FdOf(e) != f) ==>
                    f in conns && conns[f] == old(conns[f]) && ViewOf(conns[f]) == old(ViewOf(conns[f]))
      {
        assert events[i] in events;
        label Next: var r := Handle(events[i]);
        if !r.Done? {
          return r, views;
        }
        views := views + [Views()];
        assert events[..i + 1][..i] == events[..i];
        forall x | x in Repr() && x !in old(Repr())
          ensures !old(allocated(x))
        {
          assert x in old@Next(Repr()) || !old@Next(allocated(x));
        }
      }
      assert events[..|events|] == events;
    }
  }
}
