/** A connection: framed messages go out through one buffer, arrive through another, and the loop is
    asked to watch for writability only while something is waiting to be written. */
module TcpConnection {
  import opened BufferPool
  import opened EventLoops
  import opened Framing
  import opened ReactorBuffer
  import opened Sessions
  import opened Wrappers

  datatype Callback = Reads(reader: TcpConn) | Writes(writer: TcpConn) | Other(id: int)

  /** What consecutive calls of write() find: room for so many bytes, no room, or an error. Interruptions
      are left out, and calls after the last one find no room. */
  datatype WriteResult = RoomFor(n: nat) | NoRoom | Broken

  datatype Flushed = Flushed(taken: nat, failed: bool)

  /** The loop of do_write over a queue of len bytes. */
  function Flush(len: nat, results: seq<WriteResult>): (f: Flushed)
    ensures f.taken <= len
    decreases |results|
  {
    if len == 0 || results == [] || results[0] == NoRoom || results[0] == RoomFor(0) then Flushed(0, false)
    else if results[0] == Broken then Flushed(0, true)
    else if len <= results[0].n then Flushed(len, false)
    else
      var f := Flush(len - results[0].n, results[1..]);
      f.(taken := results[0].n + f.taken)
  }

  /** The room that the first k calls find. */
  function RoomIn(results: seq<WriteResult>, k: nat): nat
    requires k <= |results|
  {
    if k == 0 then 0 else RoomIn(results, k - 1) + if results[k - 1].RoomFor? then results[k - 1].n else 0
  }

  /** The loop goes on while there is room: with call number k the first one that finds none, it writes as
      much as the calls before it have room for, and it fails if that call found an error and something was
      left. */
  lemma {:induction false} FlushMeans(len: nat, results: seq<WriteResult>, k: nat)
    requires k <= |results| && forall i :: 0 <= i < k ==> results[i].RoomFor? && results[i].n != 0
    requires k < |results| ==> !results[k].RoomFor? || results[k].n == 0
    ensures Flush(len, results).taken == if len <= RoomIn(results, k) then len else RoomIn(results, k)
    ensures Flush(len, results).failed <==> k < |results| && results[k] == Broken && RoomIn(results, k) < len
    decreases k
  {
    if k != 0 {
      RoomInRest(results, k);
      if results[0].n < len {
        FlushMeans(len - results[0].n, results[1..], k - 1);
      }
    }
  }

  lemma {:induction false} RoomInRest(results: seq<WriteResult>, k: nat)
    requires 0 < k <= |results| && results[0].RoomFor?
    ensures RoomIn(results, k) == results[0].n + RoomIn(results[1..], k - 1)
    decreases k
  {
    if k == 1 {
      assert RoomIn(results, 0) == 0 == RoomIn(results[1..], 0);
    } else {
      RoomInRest(results, k - 1);
      assert results[1..][k - 2] == results[k - 1];
    }
  }

  // ---- What do_read's callbacks send back: a queue takes them, refuses them, or breaks. ----

  /** usable: whether the window is still at the front. */
  datatype Answers = Answers(taken: seq<Message>, queued: nat, usable: bool, aborted: bool)

  /** The messages of rs that a queue of so many bytes takes, one after the other. */
  function AnswersTo(queued: nat, usable: bool, rs: seq<Message>): Answers
    decreases |rs|
  {
    if rs == [] then Answers([], queued, usable, false)
    else if !usable then Answers([], queued, false, true)
    else if Refused(queued, |rs[0].body|) then AnswersTo(queued, TakenBack(queued), rs[1..])
    else
      var a := AnswersTo(queued + MESSAGE_HEAD_LEN + |rs[0].body|, true, rs[1..]);
      a.(taken := [rs[0]] + a.taken)
  }

  lemma {:induction false} AnswersConcat(queued: nat, usable: bool, rs: seq<Message>, ss: seq<Message>)
    ensures var a := AnswersTo(queued, usable, rs);
            AnswersTo(queued, usable, rs + ss) ==
              if a.aborted then a
              else var b := AnswersTo(a.queued, a.usable, ss); b.(taken := a.taken + b.taken)
    decreases |rs|
  {
    if rs == [] {
      assert rs + ss == ss && [] + AnswersTo(queued, usable, ss).taken == AnswersTo(queued, usable, ss).taken;
    } else {
      assert (rs + ss)[1..] == rs[1..] + ss;
      if usable && Refused(queued, |rs[0].body|) {
        AnswersConcat(queued, TakenBack(queued), rs[1..], ss);
      } else if usable {
        var q := queued + MESSAGE_HEAD_LEN + |rs[0].body|;
        AnswersConcat(q, true, rs[1..], ss);
        var a := AnswersTo(q, true, rs[1..]);
        var b := AnswersTo(a.queued, a.usable, ss);
        assert [rs[0]] + (a.taken + b.taken) == [rs[0]] + a.taken + b.taken;
      }
    }
  }

  lemma {:induction false} TakenAreSendable(queued: nat, usable: bool, rs: seq<Message>)
    requires AllSendable(rs)
    ensures AllSendable(AnswersTo(queued, usable, rs).taken)
    decreases |rs|
  {
    if rs != [] && usable {
      assert rs[0] in rs;
      if Refused(queued, |rs[0].body|) {
        TakenAreSendable(queued, TakenBack(queued), rs[1..]);
      } else {
        TakenAreSendable(queued + MESSAGE_HEAD_LEN + |rs[0].body|, true, rs[1..]);
      }
    }
  }

  /** With room for all of them all are taken. */
  lemma {:induction false} AllAnswersTaken(queued: nat, rs: seq<Message>)
    requires AllSendable(rs) && queued + |Stream(rs)| <= M8M
    ensures AnswersTo(queued, true, rs) == Answers(rs, queued + |Stream(rs)|, true, false)
    decreases |rs|
  {
    hide Frame;
    if rs != [] {
      FrameLength(rs[0]);
      AllAnswersTaken(queued + |Frame(rs[0])|, rs[1..]);
    }
  }

  /** What the callbacks of ms send back, in order; the same message may be answered differently later. */
  function Replies(reply: (nat, Message) -> seq<Message>, ms: seq<Message>): seq<Message> {
    if ms == [] then [] else Replies(reply, ms[..|ms| - 1]) + reply(|ms| - 1, ms[|ms| - 1])
  }

  lemma {:induction false} RepliesAreSendable(reply: (nat, Message) -> seq<Message>, ms: seq<Message>)
    requires forall k, m :: AllSendable(reply(k, m))
    ensures AllSendable(Replies(reply, ms))
  {
    if ms != [] {
      RepliesAreSendable(reply, ms[..|ms| - 1]);
      assert AllSendable(reply(|ms| - 1, ms[|ms| - 1]));
    }
  }

  lemma RepliesOneMore(reply: (nat, Message) -> seq<Message>, ms: seq<Message>, m: Message)
    ensures Replies(reply, ms + [m]) == Replies(reply, ms) + reply(|ms|, m)
  {
    assert (ms + [m])[..|ms|] == ms;
  }

  class TcpConn {
    var connfd: int
    const loop: EventLoop<Callback, int>
    const obuf: ReactorBuf
    const ibuf: ReactorBuf
    const pool: BufPool<ReactorBuf>
    /** The messages send_message took and the bytes the descriptor took; the bytes that arrived and the
        messages that were dispatched. */
    ghost var accepted: seq<Message>
    ghost var written: seq<Byte>
    ghost var received: seq<Byte>
    ghost var dispatched: seq<Message>

    /** The two buffers are distinct holders of blocks of one pool. */
    ghost predicate Stored()
      reads this, pool, pool.FreeBlocks(), obuf, obuf.buf, ibuf, ibuf.buf
    {
      obuf.pool == pool && ibuf.pool == pool && obuf != ibuf && obuf.Valid() && ibuf.Valid()
    }

    /** The blocks of all other connections. */
    ghost function Strangers(): map<IoBuf, ReactorBuf>
      reads pool
    {
      pool.Besides(obuf, ibuf)
    }

    /** Everything but the buffers and blocks of other connections. */
    ghost function Footprint(): set<object>
      reads pool
    {
      {obuf, ibuf, pool} + Ours() + (set b | b in Ours() :: b.data)
    }

    ghost function Ours(): set<IoBuf>
      reads pool
    {
      pool.blocks - Strangers().Keys
    }

    lemma OutMeans()
      ensures OutOk() ==> AllSendable(accepted) && written + obuf.Contents() == Stream(accepted)
    {
    }

    lemma InMeans()
      ensures InOk() ==> Parse(received) == Parsed(dispatched, ibuf.Contents(), Waiting)
    {
    }

    /** An open connection in good order: what was accepted is written or queued, one pass over the bytes that
        arrived finds what was dispatched and what is kept, and the loop calls this connection for what
        arrives and, exactly while something is queued, for room to write. */
    lemma LiveMeans()
      requires Live()
      ensures AllSendable(accepted) && written + obuf.Contents() == Stream(accepted)
      ensures Parse(received) == Parsed(dispatched, ibuf.Contents(), Waiting)
      ensures (obuf.buf != null ==> obuf.buf.head == 0) && (ibuf.buf != null ==> ibuf.buf.head == 0)
      ensures connfd in loop.epoll && connfd in loop.ioEvs && loop.epoll[connfd] == loop.ioEvs[connfd].mask
      ensures EPOLLIN in loop.epoll[connfd] && loop.ioEvs[connfd].read == Some(Reads(this))
      ensures EPOLLOUT in loop.epoll[connfd] <==> obuf.Contents() != []
      ensures obuf.Contents() != [] ==> loop.ioEvs[connfd].write == Some(Writes(this))
    {
      hide BufPool.Valid, Parse, Stream;
      Lengths();
      loop.KernelKnows(connfd);
    }

    lemma InputIsValid()
      requires Stored()
      ensures ibuf.Valid()
    {
    }

    lemma PoolIsValid()
      requires Stored()
      ensures pool.Valid()
    {
    }

    lemma SendingIsUsable()
      ensures Sending() ==> obuf.Usable()
    {
    }

    lemma Outside()
      ensures this !in Footprint() && loop !in Footprint()
    {
    }

    /** Beside new blocks a connection gets hold of none but its own and free ones. */
    lemma FootprintGrows(blocks: set<IoBuf>, strangers: map<IoBuf, ReactorBuf>)
      requires blocks <= pool.blocks && Strangers() == strangers
      ensures var ours, more := blocks - strangers.Keys, pool.blocks - blocks;
              Footprint() <= {obuf, ibuf, pool} + ours + (set b | b in ours :: b.data)
                              + more + (set b | b in more :: b.data)
    {
    }

    /** The buffers and the blocks they hold. */
    ghost function Parts(): set<object>
      reads obuf, ibuf
    {
      {obuf, ibuf} + (if obuf.buf == null then {} else {obuf.buf, obuf.buf.data})
      + if ibuf.buf == null then {} else {ibuf.buf, ibuf.buf.data}
    }

    /** The blocks of another connection are strangers', and out of reach. */
    lemma Bystander(b: TcpConn)
      requires Stored() && b.Stored() && b.pool == pool && {obuf, ibuf} !! {b.obuf, b.ibuf}
      ensures b !in Footprint() && b.loop !in Footprint() && b.Parts() !! Footprint()
      ensures Keeps(Strangers(), b.obuf) && Keeps(Strangers(), b.ibuf)
    {
      hide BufPool.Valid;
      pool.HeldBlocks();
      OutOfReach(b.obuf);
      OutOfReach(b.ibuf);
    }

    lemma OutOfReach(other: ReactorBuf)
      requires Stored() && other.Valid() && other.pool == pool && other != obuf && other != ibuf
      ensures Keeps(Strangers(), other)
      ensures other.buf != null ==> other.buf !in Footprint() && other.buf.data !in Footprint()
    {
      hide BufPool.Valid;
      pool.HeldBlocks();
      if other.buf != null {
        assert other.buf in Strangers();
        forall b | b in Ours()
          ensures b.data != other.buf.data
        {
        }
      }
    }

    /** Another connection's buffers stay valid as long as their entries among the strangers of this one do. */
    lemma StaysStored(a: TcpConn)
      requires a.pool == pool && pool.Valid() && {obuf, ibuf} !! {a.obuf, a.ibuf}
      requires obuf.pool == pool && ibuf.pool == pool && obuf != ibuf
      requires Keeps(a.Strangers(), obuf) && Keeps(a.Strangers(), ibuf)
      ensures Stored()
    {
      hide BufPool.Valid;
      pool.HeldBlocks();
      Kept(a, obuf);
      Kept(a, ibuf);
    }

    lemma Kept(a: TcpConn, buf: ReactorBuf)
      requires a.pool == pool == buf.pool && pool.Valid() && buf != a.obuf && buf != a.ibuf && Keeps(a.Strangers(), buf)
      ensures buf.Valid()
    {
      hide BufPool.Valid;
      pool.HeldBlocks();
      forall b | b in pool.owner && pool.owner[b] == buf
        ensures b == buf.buf
      {
        assert b in a.Strangers();
      }
    }

    lemma Own()
      requires Stored()
      ensures obuf.Footprint() <= Footprint() && ibuf.Footprint() <= Footprint()
      ensures obuf.buf != null ==> obuf.buf in Footprint() && obuf.buf.data in Footprint()
      ensures ibuf.buf != null ==> ibuf.buf in Footprint() && ibuf.buf.data in Footprint()
    {
      hide BufPool.Valid;
      obuf.OwnBlock();
      ibuf.OwnBlock();
      assert obuf.Mine() <= Ours() && ibuf.Mine() <= Ours();
    }

    lemma Lengths()
      requires Stored()
      ensures 0 <= obuf.Length() == |obuf.Contents()| && 0 <= ibuf.Length() == |ibuf.Contents()|
    {
      hide BufPool.Valid, IoBuf.Contents, ReactorBuf.Contents, ReactorBuf.Valid;
      obuf.LengthMeans();
      ibuf.LengthMeans();
    }

    /** What the loop watches this connection for, and whom it calls. */
    predicate WatchedFor(writing: bool)
      reads this`connfd, loop`ioEvs
    {
      && connfd in loop.ioEvs && EPOLLIN in loop.ioEvs[connfd].mask
      && loop.ioEvs[connfd].read == Some(Reads(this))
      && (EPOLLOUT in loop.ioEvs[connfd].mask <==> writing)
      && (writing ==> loop.ioEvs[connfd].write == Some(Writes(this)))
    }

    /** It is watched for writability exactly while something is queued. */
    predicate Watched()
      reads this`connfd, loop`ioEvs, obuf, obuf.buf
    {
      WatchedFor(obuf.Length() != 0)
    }

    /** What was accepted is what was written and what is still queued. */
    ghost predicate OutOk()
      reads this`accepted, this`written, obuf, obuf.buf, if obuf.buf == null then {} else {obuf.buf.data}
    {
      AllSendable(accepted) && written + obuf.Contents() == Stream(accepted)
    }

    /** What was dispatched and what is kept is what one pass over the bytes received makes of them. */
    ghost predicate InOk()
      reads this`received, this`dispatched, ibuf, ibuf.buf, if ibuf.buf == null then {} else {ibuf.buf.data}
    {
      Parse(received) == Parsed(dispatched, ibuf.Contents(), Waiting)
    }

    /** The sending half is in good order. */
    ghost predicate Sending()
      reads this, loop, pool, pool.FreeBlocks(), obuf, obuf.buf, ibuf, ibuf.buf
      reads if obuf.buf == null then {} else {obuf.buf.data}
    {
      Stored() && loop.Synced() && obuf.Usable() && Watched() && OutOk()
    }

    /** An open connection in good order. */
    ghost predicate Live()
      reads this, loop, pool, pool.FreeBlocks(), obuf, obuf.buf, ibuf, ibuf.buf
      reads if obuf.buf == null then {} else {obuf.buf.data}
      reads if ibuf.buf == null then {} else {ibuf.buf.data}
    {
      Sending() && ibuf.Usable() && InOk()
    }

    constructor (connfd: int, loop: EventLoop<Callback, int>, pool: BufPool<ReactorBuf>)
      requires pool.Valid() && loop.Synced() && connfd !in loop.ioEvs
      modifies loop`ioEvs, loop`listenFds, loop`epoll
      ensures this.connfd == connfd && this.loop == loop && this.pool == pool && fresh(obuf) && fresh(ibuf)
      ensures Live() && accepted == [] && written == [] && received == [] && dispatched == []
      ensures obuf.Contents() == [] && ibuf.Contents() == []
      ensures loop.ioEvs - {connfd} == old(loop.ioEvs)
    {
      hide BufPool.Valid, Parse;
      var o := new ReactorBuf(pool);
      var i := new ReactorBuf(pool);
      this.connfd, this.loop, this.pool, obuf, ibuf := connfd, loop, pool, o, i;
      accepted, written, received, dispatched := [], [], [], [];
      new;
      loop.AddIoEvent(connfd, Reads(this), {EPOLLIN}, true);
      assert pool.FreeBlocks() == old(pool.FreeBlocks());
      assert Stored();
      ParseNothing();
    }

    /** send_data on the output buffer; the input buffer does not notice. */
    method Queue(data: seq<Byte>) returns (o: Outcome)
      requires Stored()
      modifies Footprint()
      ensures o == old(obuf.Room(|data|))
      ensures o.Done? ==>
                && Stored() && obuf.Usable()
                && obuf.Contents() == (if o.ret == 0 then old(obuf.Contents()) + data else old(obuf.Contents()))
                && ibuf.buf == old(ibuf.buf) && ibuf.Contents() == old(ibuf.Contents())
                && ibuf.Usable() == old(ibuf.Usable())
                && Strangers() == old(Strangers()) && fresh(Footprint() - old(Footprint()))
      ensures o == Done(-1) ==> obuf.buf == old(obuf.buf)
      ensures o == Done(0) ==> forall m: nat :: obuf.Room(m) == old(obuf.RoomNext(|data|, m))
    {
      hide BufPool.Valid, IoBuf.Contents, ReactorBuf.Contents, ReactorBuf.Room, ReactorBuf.RoomNext;
      hide HeldByOthers, HeldBesides, ReactorBuf.Footprint, ReactorBuf.Mine;
      Own();
      pool.HeldBlocks();
      obuf.Apart(ibuf);
      ibuf.AmongOthers(obuf);
      ghost var others, owner := pool.Others(obuf), pool.owner;
      o := obuf.SendData(data);
      if o.Done? {
        ibuf.StaysValid(obuf, others);
        OthersTellBesides(owner, pool.owner, obuf, ibuf);
        FootprintGrows(old(pool.blocks), old(Strangers()));
      }
    }

    /** pop on one of two buffers; the other one does not notice. */
    static method PopOne(used: ReactorBuf, other: ReactorBuf, n: nat) returns (o: Outcome)
      requires used != other && used.pool == other.pool && used.Valid() && other.Valid() && n <= used.Length()
      modifies used, used.pool, used.buf
      ensures o == if old(used.buf) == null then Aborted else Done(0)
      ensures o == Done(0) ==>
                && used.Valid() && n <= |old(used.Contents())| && used.Contents() == old(used.Contents())[n..]
                && (if n == old(used.Length()) then used.buf == null
                    else used.buf == old(used.buf) && used.buf.head == old(used.buf.head) + n)
                && other.Valid() && other.buf == old(other.buf) && other.Contents() == old(other.Contents())
                && other.Usable() == old(other.Usable())
                && used.pool.Besides(used, other) == old(used.pool.Besides(used, other))
                && used.pool.Besides(other, used) == old(used.pool.Besides(other, used))
                && used.pool.blocks == old(used.pool.blocks)
    {
      hide BufPool.Valid, IoBuf.Contents;
      used.Apart(other);
      used.OwnBlock();
      ghost var others, owner := used.pool.Others(used), used.pool.owner;
      o := used.Pop(n);
      if o == Done(0) {
        other.StaysValid(used, others);
        OthersTellBesides(owner, used.pool.owner, used, other);
      }
    }

    /** clear on one of two buffers; the other one does not notice. */
    static method ReleaseOne(used: ReactorBuf, other: ReactorBuf)
      requires used != other && used.pool == other.pool && used.Valid() && other.Valid()
      modifies used, used.pool, used.buf
      ensures used.Valid() && used.buf == null && other.Valid() && other.buf == old(other.buf)
      ensures used.pool.Besides(used, other) == old(used.pool.Besides(used, other))
      ensures used.pool.Besides(other, used) == old(used.pool.Besides(other, used))
      ensures used.pool.blocks == old(used.pool.blocks)
    {
      hide BufPool.Valid, IoBuf.Contents;
      used.Apart(other);
      used.OwnBlock();
      ghost var others, owner := used.pool.Others(used), used.pool.owner;
      used.Release();
      other.StaysValid(used, others);
      OthersTellBesides(owner, used.pool.owner, used, other);
    }

    /** The header finds no block, or, once it has one, the body of n bytes does not. */
    ghost predicate Exits(n: nat)
      reads this, obuf, obuf.pool, obuf.buf
    {
      obuf.Room(MESSAGE_HEAD_LEN).Exited?
      || (obuf.Room(MESSAGE_HEAD_LEN) == Done(0) && obuf.RoomNext(MESSAGE_HEAD_LEN, n).Exited?)
    }

    /** A frame is queued whole. When its body finds no room the header is taken back by popping eight bytes
        at the front, which are the header's only if nothing was queued before. */
    method QueueFrame(head: seq<Byte>, data: seq<Byte>) returns (o: Outcome)
      requires Stored() && |head| == MESSAGE_HEAD_LEN
      modifies Footprint()
      ensures o.Aborted? <==> !old(obuf.Usable())
      ensures (o.Exited? <==> old(Exits(|data|))) && !o.Overrun?
      ensures o.Done? ==> o.ret == if Refused(old(obuf.Length()), |data|) then -1 else 0
      ensures o.Done? ==>
                && Stored()
                && ibuf.buf == old(ibuf.buf) && ibuf.Contents() == old(ibuf.Contents())
                && ibuf.Usable() == old(ibuf.Usable())
                && Strangers() == old(Strangers()) && fresh(Footprint() - old(Footprint()))
      ensures o == Done(0) ==> obuf.Usable() && obuf.Contents() == old(obuf.Contents()) + head + data
      ensures o == Done(-1) ==>
                if TakenBack(old(obuf.Length())) then obuf.Usable() && obuf.Contents() == old(obuf.Contents())
                else !obuf.Usable() && obuf.Contents() == (old(obuf.Contents()) + head)[MESSAGE_HEAD_LEN..]
    {
      hide BufPool.Valid, IoBuf.Contents, ReactorBuf.Room, ReactorBuf.RoomNext, ReactorBuf.Valid, ReactorBuf.Contents;
      hide Footprint, Strangers;
      obuf.RoomMeans(MESSAGE_HEAD_LEN);
      obuf.LengthMeans();
      o := Queue(head);
      if o != Done(0) {
        return;
      }
      obuf.RoomMeans(|data|);
      obuf.LengthMeans();
      label Headed: o := Queue(data);
      forall x | o.Done? && x in Footprint() && x !in old(Footprint())
        ensures !old(allocated(x))
      {
        assert x in old@Headed(Footprint()) || !old@Headed(allocated(x));
      }
      if o == Done(-1) {
        obuf.LengthMeans();
        TakeBack();
      }
    }

    /** pop on the output buffer, of eight bytes. */
    method TakeBack()
      requires Stored() && MESSAGE_HEAD_LEN <= obuf.Length()
      modifies Footprint()
      ensures Stored() && MESSAGE_HEAD_LEN <= |old(obuf.Contents())|
      ensures obuf.Contents() == old(obuf.Contents())[MESSAGE_HEAD_LEN..]
      ensures if MESSAGE_HEAD_LEN == old(obuf.Length()) then obuf.buf == null
              else
                && obuf.buf != null
                && obuf.buf.head == (if old(obuf.buf) == null then 0 else old(obuf.buf.head)) + MESSAGE_HEAD_LEN
      ensures ibuf.buf == old(ibuf.buf) && ibuf.Contents() == old(ibuf.Contents())
      ensures ibuf.Usable() == old(ibuf.Usable())
      ensures Strangers() == old(Strangers()) && Footprint() == old(Footprint())
    {
      hide BufPool.Valid, IoBuf.Contents, ReactorBuf.Contents, ReactorBuf.Valid;
      Own();
      var _ := PopOne(obuf, ibuf, MESSAGE_HEAD_LEN);
    }

    /** send_message. It takes the message or refuses it; a refusal over the body leaves the connection in
        good order exactly if it leaves no trace. */
    method SendMessage(data: seq<Byte>, msgid: int) returns (o: Outcome)
      requires Stored() && loop.Synced() && Sendable(Message(msgid, data))
      modifies this`accepted, Footprint(), loop`ioEvs, loop`listenFds, loop`epoll
      ensures o.Aborted? <==> !old(obuf.Usable())
      ensures (o.Exited? <==> old(Exits(|data|))) && !o.Overrun?
      ensures o.Done? ==> o.ret == if Refused(old(obuf.Length()), |data|) then -1 else 0
      ensures o.Done? ==>
                && Stored() && loop.Synced() && loop.ioEvs - {connfd} == old(loop.ioEvs) - {connfd}
                && ibuf.buf == old(ibuf.buf) && ibuf.Contents() == old(ibuf.Contents())
                && ibuf.Usable() == old(ibuf.Usable())
                && Strangers() == old(Strangers()) && fresh(Footprint() - old(Footprint()))
      ensures o == Done(0) ==>
                && obuf.Usable() && accepted == old(accepted) + [Message(msgid, data)]
                && obuf.Contents() == old(obuf.Contents()) + Frame(Message(msgid, data))
                && (old(Sending()) ==> Sending()) && (old(Live()) ==> Live())
      ensures o == Done(-1) ==>
                && accepted == old(accepted) && (obuf.Usable() <==> TakenBack(old(obuf.Length())))
                && obuf.Length() == old(obuf.Length())
                && obuf.Contents() == (if obuf.Usable() then old(obuf.Contents())
                                       else (old(obuf.Contents()) + Encode(msgid) + Encode(|data|))[8..])
                && (old(Sending()) ==> (Sending() <==> obuf.Usable()))
                && (old(Live()) ==> (Live() <==> obuf.Usable()))
    {
      hide BufPool.Valid, IoBuf.Contents, ReactorBuf.Valid, ReactorBuf.Contents, Stream, Parse, Frame, Encode;
      hide EventLoop.Synced, WatchedFor, Footprint, Strangers, Exits;
      Outside();
      var active := obuf.Length() == 0;
      ghost var m := Message(msgid, data);
      FrameIs(m);
      obuf.LengthMeans();
      o := QueueFrame(Encode(msgid) + Encode(|data|), data);
      if o == Done(0) {
        obuf.LengthMeans();
        Commit(active, m);
      } else if o == Done(-1) {
        obuf.LengthMeans();
      }
    }

    /** The end of send_message: the watch for writability starts with the first message in the queue. */
    method Commit(active: bool, ghost m: Message)
      requires Stored() && loop.Synced() && obuf.Length() != 0 && Sendable(m)
      modifies this`accepted, loop`ioEvs, loop`listenFds, loop`epoll
      ensures Stored() && loop.Synced() && accepted == old(accepted) + [m]
      ensures loop.ioEvs - {connfd} == old(loop.ioEvs) - {connfd}
      ensures old(WatchedFor(!active)) ==> Watched()
      ensures obuf.Contents() == old(obuf.Contents()) && obuf.Usable() == old(obuf.Usable())
      ensures ibuf.Contents() == old(ibuf.Contents()) && ibuf.Usable() == old(ibuf.Usable())
      ensures Footprint() == old(Footprint()) && Strangers() == old(Strangers())
      ensures AllSendable(old(accepted)) && written + obuf.Contents() == Stream(old(accepted)) + Frame(m) ==> OutOk()
    {
      hide BufPool.Valid, IoBuf.Contents, ReactorBuf.Contents, Stream, Parse, Frame;
      if active {
        loop.AddIoEvent(connfd, Writes(this), {EPOLLOUT}, true);
      }
      accepted := accepted + [m];
      assert pool.FreeBlocks() == old(pool.FreeBlocks());
      if AllSendable(old(accepted)) {
        StreamGrows(old(accepted), m);
      }
    }

    /** clean_conn */
    method CleanConn()
      requires Stored() && loop.Synced()
      modifies this`connfd, Footprint(), loop`ioEvs, loop`listenFds, loop`epoll
      ensures Stored() && Closed(old(connfd)) && loop.ioEvs == old(loop.ioEvs) - {old(connfd)}
      ensures Strangers() == old(Strangers()) && Footprint() == old(Footprint())
    {
      hide BufPool.Valid, IoBuf.Contents, ReactorBuf.Contents, ReactorBuf.Valid;
      hide EventLoop.Synced, HeldByOthers, HeldBesides, ReactorBuf.Footprint, ReactorBuf.Mine;
      Own();
      loop.DelIoEvent(connfd);
      assert pool.FreeBlocks() == old(pool.FreeBlocks());
      ReleaseOne(ibuf, obuf);
      ReleaseOne(obuf, ibuf);
      label Released: connfd := -1;
      assert pool.FreeBlocks() == old@Released(pool.FreeBlocks());
    }

    /** write2fd on the output buffer; the input buffer does not notice. */
    method WriteOnce(r: WriteResult) returns (o: Outcome)
      requires Stored() && obuf.Length() != 0
      modifies obuf.buf, if obuf.buf == null then {} else {obuf.buf.data}
      ensures o == if old(obuf.Usable()) then Done(Answer(old(obuf.Length()), r)) else Aborted
      ensures o.Done? ==>
                && Stored() && obuf.Usable()
                && Consumed(o.ret) <= |old(obuf.Contents())|
                && obuf.Contents() == old(obuf.Contents())[Consumed(o.ret)..]
                && obuf.Length() == old(obuf.Length()) - Consumed(o.ret)
                && InOk() == old(InOk()) && ibuf.Usable() == old(ibuf.Usable())
    {
      hide BufPool.Valid, IoBuf.Contents, InOk;
      obuf.LengthMeans();
      obuf.Apart(ibuf);
      obuf.OwnBlock();
      o := obuf.Write2fd(Accepts(obuf.Length(), r));
      if o.Done? {
        assert pool.FreeBlocks() == old(pool.FreeBlocks());
        obuf.LengthMeans();
      }
    }

    /** The loop of do_write: Done(0) when it stops without an error, Done(-1) otherwise. */
    method Drain(results: seq<WriteResult>) returns (o: Outcome, taken: nat)
      requires Stored()
      modifies obuf.buf, if obuf.buf == null then {} else {obuf.buf.data}
      ensures o.Aborted? <==> old(obuf.Length() != 0 && !obuf.Usable())
      ensures !o.Aborted? ==>
                && Stored() && (old(obuf.Usable()) ==> obuf.Usable())
                && 0 <= old(obuf.Length())
                && o == Done(if Flush(old(obuf.Length()), results).failed then -1 else 0)
                && taken == Flush(old(obuf.Length()), results).taken
                && taken <= |old(obuf.Contents())| && obuf.Contents() == old(obuf.Contents())[taken..]
                && InOk() == old(InOk()) && ibuf.Usable() == old(ibuf.Usable())
    {
      hide BufPool.Valid, IoBuf.Contents, ReactorBuf.Contents, ReactorBuf.Valid, Stored, Flush, InOk;
      Lengths();
      ghost var start, all := obuf.Contents(), Flush(obuf.Length(), results);
      taken := 0;
      var i := 0;
      while obuf.Length() != 0
        invariant 0 <= i <= |results| && Stored() && 0 <= obuf.Length()
        invariant taken <= |start| && obuf.Contents() == start[taken..]
        invariant old(obuf.Usable()) <==> obuf.Usable()
        invariant !obuf.Usable() ==> obuf.Length() == old(obuf.Length())
        invariant InOk() == old(InOk()) && ibuf.Usable() == old(ibuf.Usable())
        invariant all.taken == taken + Flush(obuf.Length(), results[i..]).taken
        invariant all.failed == Flush(obuf.Length(), results[i..]).failed
        decreases |results| - i
      {
        FlushStep(obuf.Length(), results, i);
        Lengths();
        o := WriteOnce(if i < |results| then results[i] else NoRoom);
        if o.Aborted? || o.ret <= 0 {
          return;
        }
        DropTwice(start, taken, o.ret);
        taken := taken + o.ret;
        i := i + 1;
      }
      FlushNothing(results[i..]);
      o := Done(0);
    }

    /** do_write. The bytes the descriptor takes leave the queue in order; an error closes the connection;
        otherwise it is watched for writability exactly while something is left. */
    method DoWrite(results: seq<WriteResult>) returns (o: Outcome)
      requires Stored() && loop.Synced()
      modifies this`connfd, this`written, Footprint(), loop`ioEvs, loop`listenFds, loop`epoll
      ensures o == if old(obuf.Length() != 0 && !obuf.Usable()) then Aborted else Done(0)
      ensures o.Done? ==>
                && Stored() && loop.Synced() && loop.ioEvs - {old(connfd)} == old(loop.ioEvs) - {old(connfd)}
                && Strangers() == old(Strangers()) && fresh(Footprint() - old(Footprint()))
      ensures old(Live()) ==>
                && 0 <= old(obuf.Length())
                && var f := Flush(old(obuf.Length()), results);
                   && f.taken <= |old(obuf.Contents())| && written == old(written) + old(obuf.Contents())[..f.taken]
                   && if f.failed then Closed(old(connfd))
                      else Live() && connfd == old(connfd) && obuf.Contents() == old(obuf.Contents())[f.taken..]
    {
      hide BufPool.Valid, IoBuf.Contents, ReactorBuf.Contents, ReactorBuf.Valid, Flush, OutOk, InOk, WatchedFor;
      hide Stored, EventLoop.Synced, Stream, Parse, Footprint, Strangers;
      Lengths();
      Outside();
      Own();
      o := WriteOut(results);
      if !o.Aborted? {
        Lengths();
        Finish(o == Done(-1), old(obuf.Length() != 0));
        o := Done(0);
      }
    }

    /** The end of do_write: an error closes the connection, an empty queue ends the watch for writability. */
    method Finish(failed: bool, ghost writing: bool)
      requires Stored() && loop.Synced() && (obuf.Length() != 0 ==> writing)
      modifies this`connfd, Footprint(), loop`ioEvs, loop`listenFds, loop`epoll
      ensures Stored() && loop.Synced() && loop.ioEvs - {old(connfd)} == old(loop.ioEvs) - {old(connfd)}
      ensures Strangers() == old(Strangers()) && Footprint() == old(Footprint())
      ensures failed ==> Closed(old(connfd))
      ensures !failed ==>
                && connfd == old(connfd) && (old(WatchedFor(writing)) ==> Watched())
                && OutOk() == old(OutOk()) && InOk() == old(InOk()) && obuf.Contents() == old(obuf.Contents())
                && obuf.Usable() == old(obuf.Usable()) && ibuf.Usable() == old(ibuf.Usable())
    {
      hide BufPool.Valid, IoBuf.Contents, ReactorBuf.Contents, OutOk, InOk;
      if failed {
        CleanConn();
      } else if obuf.Length() == 0 {
        assert WatchedFor(writing) ==> EPOLLIN in loop.ioEvs[connfd].mask - {EPOLLOUT};
        loop.DelIoEventMask(connfd, {EPOLLOUT}, true);
        assert pool.FreeBlocks() == old(pool.FreeBlocks());
      }
    }

    /** The loop of do_write, with the record of what was written. */
    method WriteOut(results: seq<WriteResult>) returns (o: Outcome)
      requires Stored()
      modifies this`written, obuf.buf, if obuf.buf == null then {} else {obuf.buf.data}
      ensures o.Aborted? <==> old(obuf.Length() != 0 && !obuf.Usable())
      ensures !o.Aborted? ==>
                && Stored() && (old(obuf.Usable()) ==> obuf.Usable()) && ibuf.Usable() == old(ibuf.Usable())
                && 0 <= old(obuf.Length())
                && (old(OutOk()) ==> OutOk()) && (old(InOk()) ==> InOk())
                && var f := Flush(old(obuf.Length()), results);
                   && o == Done(if f.failed then -1 else 0)
                   && f.taken <= |old(obuf.Contents())| && obuf.Contents() == old(obuf.Contents())[f.taken..]
                   && written == old(written) + old(obuf.Contents())[..f.taken]
    {
      hide BufPool.Valid, IoBuf.Contents, ReactorBuf.Contents, ReactorBuf.Valid;
      hide Stored, Flush, Stream, Parse, InOk, OutOk;
      ghost var queued := obuf.Contents();
      Lengths();
      var taken: nat;
      OutMeans();
      o, taken := Drain(results);
      if !o.Aborted? {
        NoteWritten(queued, taken);
      }
    }

    ghost method NoteWritten(queued: seq<Byte>, taken: nat)
      requires Stored() && taken <= |queued| && obuf.Contents() == queued[taken..]
      modifies this`written
      ensures written == old(written) + queued[..taken]
      ensures Stored() && obuf.Contents() == old(obuf.Contents()) && InOk() == old(InOk())
      ensures AllSendable(accepted) && old(written) + queued == Stream(accepted) ==> OutOk()
    {
      hide BufPool.Valid, IoBuf.Contents, ReactorBuf.Contents, Stream, Parse, AllSendable, InOk;
      written := written + queued[..taken];
      assert pool.FreeBlocks() == old(pool.FreeBlocks());
      Moved(old(written), queued, taken);
    }

    /** read_data on the input buffer; the output buffer does not notice. */
    method ReadIn(a: Arrival) returns (o: Outcome)
      requires Stored() && Plausible(a)
      modifies Footprint()
      ensures o == if a.NoCount? then Done(-1) else old(ibuf.Received(a))
      ensures o.Done? ==>
                && Stored() && (a.Announced? ==> ibuf.Usable())
                && ibuf.Contents() == (if o.ret > 0 then old(ibuf.Contents()) + Offered(a) else old(ibuf.Contents()))
                && obuf.buf == old(obuf.buf) && obuf.Contents() == old(obuf.Contents())
                && obuf.Usable() == old(obuf.Usable())
                && Strangers() == old(Strangers()) && fresh(Footprint() - old(Footprint()))
    {
      hide BufPool.Valid, IoBuf.Contents, ReactorBuf.Contents, ReactorBuf.Room;
      hide HeldByOthers, HeldBesides, ReactorBuf.Footprint, ReactorBuf.Mine;
      Own();
      pool.HeldBlocks();
      ibuf.Apart(obuf);
      obuf.AmongOthers(ibuf);
      ghost var others, owner := pool.Others(ibuf), pool.owner;
      o := ibuf.ReadData(a);
      if o.Done? {
        obuf.StaysValid(ibuf, others);
        OthersTellBesides(owner, pool.owner, ibuf, obuf);
        FootprintGrows(old(pool.blocks), old(Strangers()));
      }
    }

    /** The messages a callback sends on its own connection, one after the other; it does not look at the
        results. */
    method SendAll(rs: seq<Message>) returns (o: Outcome)
      requires Stored() && loop.Synced() && AllSendable(rs)
      modifies this`accepted, Footprint(), loop`ioEvs, loop`listenFds, loop`epoll
      ensures 0 <= old(obuf.Length())
      ensures o == Exited
              || o == if AnswersTo(old(obuf.Length()), old(obuf.Usable()), rs).aborted then Aborted else Done(0)
      ensures o.Done? ==>
                && Stored() && loop.Synced() && loop.ioEvs - {connfd} == old(loop.ioEvs) - {connfd}
                && ibuf.buf == old(ibuf.buf) && ibuf.Contents() == old(ibuf.Contents())
                && Strangers() == old(Strangers()) && fresh(Footprint() - old(Footprint()))
      ensures o.Done? ==>
                var a := AnswersTo(old(obuf.Length()), old(obuf.Usable()), rs);
                && obuf.Usable() == a.usable && obuf.Length() == a.queued
                && accepted == old(accepted) + a.taken
                && (old(Sending()) ==> (Sending() <==> a.usable))
      ensures rs == [] ==> o.Done?
      decreases |rs|
    {
      hide BufPool.Valid, IoBuf.Contents, ReactorBuf.Contents, ReactorBuf.Valid;
      hide Stored, Stream, Frame, Footprint, Strangers, EventLoop.Synced, Watched, OutOk, AnswersTo;
      Outside();
      Lengths();
      if rs == [] {
        AnswersToNone(obuf.Length(), obuf.Usable());
        return Done(0);
      }
      OneAnswer(obuf.Length(), obuf.Usable(), rs);
      assert rs[0] in rs;
      FrameLength(rs[0]);
      o := SendMessage(rs[0].body, rs[0].id);
      if !o.Done? {
        return;
      }
      Lengths();
      assert AllSendable(rs[1..]);
      BrokenForGood(obuf.Length(), rs[1..]);
      ghost var more := Footprint() - old(Footprint());
      label Sent: o := SendAll(rs[1..]);
      forall x | o.Done? && x in Footprint() && x !in old(Footprint())
        ensures !old(allocated(x))
      {
        assert x in more || !old@Sent(allocated(x));
      }
    }

    /** pop on the input buffer. */
    method TakeFront(n: nat) returns (o: Outcome)
      requires Stored() && n <= ibuf.Length()
      modifies Footprint()
      ensures o == if old(ibuf.buf) == null then Aborted else Done(0)
      ensures o.Done? ==>
                && Stored() && n <= |old(ibuf.Contents())| && ibuf.Contents() == old(ibuf.Contents())[n..]
                && (ibuf.buf == null <==> n == old(ibuf.Length()))
                && obuf.Contents() == old(obuf.Contents()) && obuf.Usable() == old(obuf.Usable())
                && obuf.Length() == old(obuf.Length()) && (old(Sending()) ==> Sending())
                && Strangers() == old(Strangers()) && Footprint() == old(Footprint())
    {
      hide BufPool.Valid, IoBuf.Contents, ReactorBuf.Contents, ReactorBuf.Valid, Stream;
      Own();
      obuf.LengthMeans();
      o := PopOne(ibuf, obuf, n);
      if o.Done? {
        obuf.LengthMeans();
      }
    }

    /** One message: its header is popped, its callback runs, its body is popped, which fails when the header
        was all there was. */
    method Handle(msgid: int, msglen: nat, n: nat, reply: (nat, Message) -> seq<Message>)
      returns (o: Outcome, m: Message)
      requires Stored() && loop.Synced() && MESSAGE_HEAD_LEN + msglen <= ibuf.Length()
      requires forall k, m :: AllSendable(reply(k, m))
      modifies this`accepted, Footprint(), loop`ioEvs, loop`listenFds, loop`epoll
      ensures 0 <= old(obuf.Length()) && 0 <= old(ibuf.Length()) == |old(ibuf.Contents())|
      ensures m == Message(msgid, old(ibuf.Contents())[8..8 + msglen])
      ensures o == Exited || o == if AnswersTo(old(obuf.Length()), old(obuf.Usable()), reply(n, m)).aborted
                                     || old(ibuf.Length()) == MESSAGE_HEAD_LEN then Aborted else Done(0)
      ensures o.Done? ==>
                && Stored() && loop.Synced() && loop.ioEvs - {connfd} == old(loop.ioEvs) - {connfd}
                && ibuf.Contents() == old(ibuf.Contents())[8 + msglen..]
                && Strangers() == old(Strangers()) && fresh(Footprint() - old(Footprint()))
      ensures o.Done? ==>
                var a := AnswersTo(old(obuf.Length()), old(obuf.Usable()), reply(n, m));
                && obuf.Usable() == a.usable && obuf.Length() == a.queued && accepted == old(accepted) + a.taken
                && (old(Sending()) ==> (Sending() <==> a.usable))
      ensures reply(n, m) == [] ==> !o.Exited?
    {
      hide BufPool.Valid, IoBuf.Contents, IoBuf.Valid, ReactorBuf.Contents, ReactorBuf.Valid, OutOk, Stream;
      hide EventLoop.Synced, WatchedFor, AnswersTo, Footprint, Strangers;
      Outside();
      Lengths();
      ghost var cur := ibuf.Contents();
      o := TakeFront(MESSAGE_HEAD_LEN);
      ibuf.LengthMeans();
      var body := ibuf.Peek(msglen);
      assert body == cur[8..8 + msglen];
      m := Message(msgid, body);
      label Called: o := SendAll(reply(n, m));
      if !o.Done? {
        return;
      }
      Lengths();
      o := TakeFront(msglen);
      DropTwice(cur, 8, msglen);
      forall x | o.Done? && x in Footprint() && x !in old(Footprint())
        ensures !old(allocated(x))
      {
        assert !old@Called(allocated(x));
      }
    }

    /** The loop of do_read, reply being what the callback of each message sends back on the same connection,
        by its place in this read. */
    method Dispatch(reply: (nat, Message) -> seq<Message>) returns (o: Outcome, msgs: seq<Message>)
      requires Stored() && loop.Synced() && forall k, m :: AllSendable(reply(k, m))
      modifies this`accepted, Footprint(), loop`ioEvs, loop`listenFds, loop`epoll
      ensures 0 <= old(obuf.Length())
      ensures o.Exited? ==> Replies(reply, Parse(old(ibuf.Contents())).msgs) != []
      ensures var p := Parse(old(ibuf.Contents()));
              var a := AnswersTo(old(obuf.Length()), old(obuf.Usable()), Replies(reply, p.msgs));
              && msgs <= p.msgs
              && (!o.Exited? && a.aborted ==> o == Aborted)
              && (!o.Exited? && !a.aborted ==>
                    && msgs == p.msgs
                    && o == match p.ending case Waiting => Done(0) case BadHeader => Done(-1) case Abort => Aborted)
              && (o == Done(0) ==> ibuf.Contents() == p.rest)
              && (o.Done? ==>
                    && obuf.Usable() == a.usable && obuf.Length() == a.queued && accepted == old(accepted) + a.taken
                    && (old(Sending()) ==> (Sending() <==> a.usable)))
      ensures o.Done? ==>
                && Stored() && loop.Synced() && loop.ioEvs - {connfd} == old(loop.ioEvs) - {connfd}
                && Strangers() == old(Strangers()) && fresh(Footprint() - old(Footprint()))
    {
      hide BufPool.Valid, IoBuf.Contents, IoBuf.Valid, ReactorBuf.Contents, ReactorBuf.Valid, Parse, Decode;
      hide EventLoop.Synced, Stored, Sending, AnswersTo, Footprint, Strangers, Replies;
      Outside();
      Lengths();
      ghost var all, len, usable := Parse(ibuf.Contents()), obuf.Length(), obuf.Usable();
      msgs := [];
      NoReplies(reply, len, usable);
      SendingIsUsable();
      while MESSAGE_HEAD_LEN <= ibuf.Length()
        invariant Stored() && loop.Synced() && loop.ioEvs - {connfd} == old(loop.ioEvs) - {connfd}
        invariant Strangers() == old(Strangers()) && fresh(Footprint() - old(Footprint()))
        invariant all == Parse(ibuf.Contents()).(msgs := msgs + Parse(ibuf.Contents()).msgs)
        invariant ibuf.Length() == |ibuf.Contents()|
        invariant var a := AnswersTo(len, usable, Replies(reply, msgs));
                  && !a.aborted && obuf.Usable() == a.usable && obuf.Length() == a.queued
                  && accepted == old(accepted) + a.taken && (old(Sending()) ==> (Sending() <==> a.usable))
        decreases ibuf.Length()
      {
        ghost var cur := ibuf.Contents();
        InputIsValid();
        ibuf.LengthMeans();
        var head := ibuf.Peek(MESSAGE_HEAD_LEN);
        var msgid, msglen := Decode(head[..4]), Decode(head[4..8]);
        OneTurn(all, msgs, cur, head);
        if MESSAGE_LENGTH_LIMIT < msglen || msglen < 0 {
          return Done(-1), msgs;
        }
        if ibuf.Length() < MESSAGE_HEAD_LEN + msglen {
          break;
        }
        var m: Message;
        SendingIsUsable();
        label Turn: o, m := Handle(msgid, msglen, |msgs|, reply);
        OneMoreReply(reply, all.msgs, msgs, m, len, usable);
        BrokenForGood(old@Turn(obuf.Length()), reply(|msgs|, m));
        msgs := msgs + [m];
        if !o.Done? {
          return;
        }
        forall x | x in Footprint() && x !in old(Footprint())
          ensures !old(allocated(x))
        {
          assert x in old@Turn(Footprint()) || !old@Turn(allocated(x));
        }
        Lengths();
        SendingIsUsable();
      }
      ParseShort(ibuf.Contents());
      assert msgs + [] == msgs;
      o := Done(0);
    }

    /** The unused bytes move to the front. */
    method Settle()
      requires Stored()
      modifies ibuf.buf, if ibuf.buf == null then {} else {ibuf.buf.data}
      ensures Stored() && ibuf.Usable() && ibuf.Contents() == old(ibuf.Contents())
      ensures obuf.Contents() == old(obuf.Contents()) && obuf.Usable() == old(obuf.Usable())
          && obuf.Length() == old(obuf.Length()) && OutOk() == old(OutOk())
    {
      hide BufPool.Valid, IoBuf.Contents, OutOk;
      ibuf.Apart(obuf);
      ibuf.OwnBlock();
      ibuf.Adjust();
      assert pool.FreeBlocks() == old(pool.FreeBlocks());
    }

    /** do_read from the point where the bytes are in the buffer. */
    method Digest(reply: (nat, Message) -> seq<Message>) returns (o: Outcome, msgs: seq<Message>)
      requires Stored() && loop.Synced() && forall k, m :: AllSendable(reply(k, m))
      modifies this`connfd, this`accepted, Footprint(), loop`ioEvs, loop`listenFds, loop`epoll
      ensures 0 <= old(obuf.Length())
      ensures o.Exited? ==> Replies(reply, Parse(old(ibuf.Contents())).msgs) != []
      ensures var p := Parse(old(ibuf.Contents()));
              var a := AnswersTo(old(obuf.Length()), old(obuf.Usable()), Replies(reply, p.msgs));
              && msgs <= p.msgs
              && (!o.Exited? && a.aborted ==> o == Aborted)
              && (!o.Exited? && !a.aborted ==> msgs == p.msgs && o == if p.ending == Abort then Aborted else Done(0))
              && (o.Done? && p.ending == BadHeader ==> Closed(old(connfd)))
              && (o.Done? && p.ending == Waiting ==>
                    && connfd == old(connfd) && ibuf.Usable() && ibuf.Contents() == p.rest
                    && obuf.Usable() == a.usable && obuf.Length() == a.queued && accepted == old(accepted) + a.taken
                    && (old(Sending()) ==> (Sending() <==> a.usable)))
      ensures o.Done? ==>
                && Stored() && loop.Synced() && loop.ioEvs - {old(connfd)} == old(loop.ioEvs) - {old(connfd)}
                && Strangers() == old(Strangers()) && fresh(Footprint() - old(Footprint()))
    {
      hide BufPool.Valid, IoBuf.Contents, ReactorBuf.Contents, ReactorBuf.Valid, OutOk, Parse, AnswersTo, Replies;
      hide EventLoop.Synced, WatchedFor, Footprint, Strangers;
      Outside();
      o, msgs := Dispatch(reply);
      if o == Done(-1) {
        Outside();
        CleanConn();
        o := Done(0);
      } else if o == Done(0) {
        Own();
        Settle();
      }
    }

    /** do_read. Fewer bytes than announced, or a message without a body as the last thing in the buffer,
        abort the program; no count, no room, an error and the end of the stream close the connection, and
        so does a header with a length outside the limit. Otherwise the buffer keeps part of one frame. The
        callbacks may send messages back on this connection; it stays in good order exactly if none of
        them is refused in a way that leaves a trace, and a message after such a refusal aborts. */
    method DoRead(a: Arrival, reply: (nat, Message) -> seq<Message>) returns (o: Outcome, msgs: seq<Message>)
      requires Stored() && loop.Synced() && ibuf.Usable() && Plausible(a)
      requires forall k, m :: AllSendable(reply(k, m))
      modifies this`connfd, this`accepted, this`received, this`dispatched, Footprint()
      modifies loop`ioEvs, loop`listenFds, loop`epoll
      ensures 0 <= old(obuf.Length()) && 0 <= old(ibuf.Length())
      ensures a.Announced? && old(ibuf.Room(a.need)).Exited? ==> o.Exited?
      ensures o.Exited? ==>
                (a.Announced? && old(ibuf.Room(a.need)).Exited?)
                || Replies(reply, Parse(old(ibuf.Contents()) + Offered(a)).msgs) != []
      ensures o.Overrun? <==> old(ibuf.Overruns(a))
      ensures !o.Exited? && !o.Overrun? && Fails(a, old(ibuf.Length())) ==>
                o == Done(0) && Closed(old(connfd)) && msgs == []
      ensures !o.Exited? && !o.Overrun?
              && (a.NoCount? || 8388608 < a.need + old(ibuf.Length()) || a.got.EndOfStream? || a.got.ReadError?) ==>
                o == Done(0) && Closed(old(connfd))
      ensures o.Done? && a.Announced? && a.need + old(ibuf.Length()) <= 8388608 && a.got.Bytes? && connfd != -1 ==>
                received == old(received) + a.got.bytes
      ensures !o.Exited? && !o.Overrun? && !Fails(a, old(ibuf.Length())) && Cut(a) ==> o == Aborted && msgs == []
      ensures !o.Exited? && !o.Overrun? && !Fails(a, old(ibuf.Length())) && !Cut(a) ==>
                var p := Parse(old(ibuf.Contents()) + Offered(a));
                var ans := AnswersTo(old(obuf.Length()), old(obuf.Usable()), Replies(reply, p.msgs));
                && msgs <= p.msgs
                && (ans.aborted ==> o == Aborted)
                && (!ans.aborted ==> msgs == p.msgs && o == if p.ending == Abort then Aborted else Done(0))
                && (o.Done? && p.ending == BadHeader ==> Closed(old(connfd)))
                && (o.Done? && p.ending == Waiting ==>
                      && connfd == old(connfd)
                      && ibuf.Contents() == p.rest && |p.rest| < 65535 && ibuf.Usable()
                      && received == old(received) + Offered(a) && dispatched == old(dispatched) + msgs
                      && accepted == old(accepted) + ans.taken
                      && obuf.Usable() == ans.usable && obuf.Length() == ans.queued
                      && (old(Live()) ==> (Live() <==> ans.usable)))
      ensures o.Done? ==>
                && Stored() && loop.Synced() && loop.ioEvs - {old(connfd)} == old(loop.ioEvs) - {old(connfd)}
                && Strangers() == old(Strangers()) && fresh(Footprint() - old(Footprint()))
    {
      hide BufPool.Valid, IoBuf.Contents, ReactorBuf.Contents, ReactorBuf.Room, ReactorBuf.Valid, Parse, OutOk;
      hide EventLoop.Synced, WatchedFor, AnswersTo, Replies, Footprint, Strangers;
      Outside();
      Lengths();
      msgs := [];
      o := Fetch(a);
      if o == Done(0) {
        ghost var all := ibuf.Contents();
        Outside();
        label Fetched: o, msgs := Digest(reply);
        forall x | o.Done? && x in Footprint() && x !in old(Footprint())
          ensures !old(allocated(x))
        {
          assert x in old@Fetched(Footprint()) || !old@Fetched(allocated(x));
        }
        ResidueBound(all);
        if old(Live()) {
          ParseAppend(received, Offered(a));
        }
        if o.Done? {
          Record(Offered(a), msgs);
        }
      } else if o == Done(-1) {
        o := Done(0);
      }
    }

    /** The opening of do_read: Done(0) with the bytes in the buffer, Done(-1) with the connection closed. */
    method Fetch(a: Arrival) returns (o: Outcome)
      requires Stored() && loop.Synced() && ibuf.Usable() && Plausible(a)
      modifies this`connfd, Footprint(), loop`ioEvs, loop`listenFds, loop`epoll
      ensures o.Exited? <==> a.Announced? && old(ibuf.Room(a.need)).Exited?
      ensures o.Overrun? <==> old(ibuf.Overruns(a))
      ensures !o.Exited? && !o.Overrun? ==> o == if Fails(a, old(ibuf.Length())) then Done(-1)
          else if Cut(a) then Aborted else Done(0)
      ensures o == Done(-1) ==> Closed(old(connfd))
      ensures o == Done(0) ==>
                && connfd == old(connfd) && loop.ioEvs == old(loop.ioEvs)
                && ibuf.Contents() == old(ibuf.Contents()) + Offered(a)
                && obuf.Contents() == old(obuf.Contents()) && obuf.Usable() == old(obuf.Usable())
                && obuf.Length() == old(obuf.Length()) && (old(Sending()) ==> Sending())
      ensures o.Done? ==>
                && Stored() && loop.Synced() && loop.ioEvs - {old(connfd)} == old(loop.ioEvs) - {old(connfd)}
                && Strangers() == old(Strangers()) && fresh(Footprint() - old(Footprint()))
    {
      hide BufPool.Valid, IoBuf.Contents, ReactorBuf.Contents, ReactorBuf.Room, ReactorBuf.Valid, Stream;
      hide EventLoop.Synced, WatchedFor, Footprint, Strangers;
      Outside();
      if a.Announced? {
        ibuf.RoomMeans(a.need);
      }
      Lengths();
      o := ReadIn(a);
      if o.Done? {
        Lengths();
        if o.ret <= 0 {
          Outside();
          CleanConn();
          return Done(-1);
        }
        o := Done(0);
      }
    }

    /** The record of what arrived and what was dispatched. */
    ghost method Record(bytes: seq<Byte>, msgs: seq<Message>)
      requires Stored()
      modifies this`received, this`dispatched
      ensures received == old(received) + bytes && dispatched == old(dispatched) + msgs
      ensures Stored() && ibuf.Contents() == old(ibuf.Contents()) && (old(Sending()) <==> Sending())
    {
      hide BufPool.Valid, IoBuf.Contents, Stream;
      received := received + bytes;
      dispatched := dispatched + msgs;
      assert pool.FreeBlocks() == old(pool.FreeBlocks());
    }

    /** What is left of a connection that was cleaned. */
    predicate Closed(was: int)
      reads this, loop, obuf, ibuf
    {
      connfd == -1 && was !in loop.ioEvs && loop.Synced() && obuf.buf == null && ibuf.buf == null
    }
  }

  lemma BrokenForGood(queued: nat, rs: seq<Message>)
    ensures !AnswersTo(queued, false, rs).usable
  {
  }

  lemma AnswersToNone(queued: nat, usable: bool)
    ensures AnswersTo(queued, usable, []) == Answers([], queued, usable, false)
  {
  }

  lemma OneAnswer(queued: nat, usable: bool, rs: seq<Message>)
    requires rs != []
    ensures AnswersTo(queued, usable, rs) ==
              if !usable then Answers([], queued, false, true)
              else if Refused(queued, |rs[0].body|) then AnswersTo(queued, TakenBack(queued), rs[1..])
              else
                var a := AnswersTo(queued + MESSAGE_HEAD_LEN + |rs[0].body|, true, rs[1..]);
                a.(taken := [rs[0]] + a.taken)
  {
  }

  /** buf holds its block and no other one. */
  ghost predicate Keeps(held: map<IoBuf, ReactorBuf>, buf: ReactorBuf)
    reads buf, buf.buf
  {
    && (buf.buf != null ==> buf.buf in held && held[buf.buf] == buf && buf.buf.Valid())
    && forall b :: b in held && held[b] == buf ==> b == buf.buf
  }

  /** Two connections in good order, one at each end of a stream that loses and reorders nothing. */
  lemma EndToEnd(sender: TcpConn, receiver: TcpConn)
    requires sender.Live() && receiver.Live() && receiver.received <= sender.written
    requires AllAcceptable(sender.accepted) && forall m :: m in sender.accepted ==> m.body != []
    ensures receiver.dispatched <= sender.accepted
    ensures sender.obuf.Contents() == [] && receiver.received == sender.written ==>
              receiver.dispatched == sender.accepted
  {
    hide BufPool.Valid, IoBuf.Contents, ReactorBuf.Contents, Parse, Stream;
    SentIsDispatched(sender.accepted, sender.written, sender.obuf.Contents(),
                     receiver.received, receiver.dispatched, receiver.ibuf.Contents());
  }

  /** What write() does with a queue of len bytes. */
  function Accepts(len: nat, r: WriteResult): (w: Written)
    ensures w.Wrote? ==> w.n <= len
  {
    match r
    case RoomFor(n) => Wrote(if n < len then n else len)
    case NoRoom => WouldBlock
    case Broken => WriteError
  }

  /** The arrivals that end a connection with length bytes in its buffer. */
  predicate Fails(a: Arrival, length: int) {
    a.NoCount? || M8M < a.need + length || !a.got.Bytes?
  }

  function Consumed(ret: int): nat {
    if ret < 0 then 0 else ret
  }

  lemma NoReplies(reply: (nat, Message) -> seq<Message>, queued: nat, usable: bool)
    ensures AnswersTo(queued, usable, Replies(reply, [])) == Answers([], queued, usable, false)
  {
  }

  /** What the answers to some messages mean for the answers to all. */
  lemma RepliesSoFar(reply: (nat, Message) -> seq<Message>, all: seq<Message>, msgs: seq<Message>, queued: nat,
                     usable: bool)
    requires msgs <= all
    ensures AnswersTo(queued, usable, Replies(reply, msgs)).aborted ==>
              AnswersTo(queued, usable, Replies(reply, all)).aborted
    ensures Replies(reply, msgs) != [] ==> Replies(reply, all) != []
  {
    hide AnswersTo, Replies;
    assert all[..|msgs|] == msgs;
    var rest := RepliesPrefix(reply, all, |msgs|);
    AnswersConcat(queued, usable, Replies(reply, msgs), rest);
  }

  /** The answers to one more message, and what they mean for the answers to all. */
  lemma OneMoreReply(reply: (nat, Message) -> seq<Message>, all: seq<Message>, msgs: seq<Message>, m: Message,
                     queued: nat, usable: bool)
    ensures var a := AnswersTo(queued, usable, Replies(reply, msgs));
            var b := AnswersTo(a.queued, a.usable, reply(|msgs|, m));
            AnswersTo(queued, usable, Replies(reply, msgs + [m]))
            == if a.aborted then a else b.(taken := a.taken + b.taken)
    ensures msgs + [m] <= all ==>
              && (AnswersTo(queued, usable, Replies(reply, msgs + [m])).aborted ==>
                    AnswersTo(queued, usable, Replies(reply, all)).aborted)
              && (reply(|msgs|, m) != [] ==> Replies(reply, all) != [])
  {
    hide AnswersTo, Replies;
    RepliesOneMore(reply, msgs, m);
    AnswersConcat(queued, usable, Replies(reply, msgs), reply(|msgs|, m));
    if msgs + [m] <= all {
      RepliesSoFar(reply, all, msgs + [m], queued, usable);
    }
  }

  lemma {:induction false} RepliesPrefix(reply: (nat, Message) -> seq<Message>, ms: seq<Message>, k: nat)
    returns (rest: seq<Message>)
    requires k <= |ms|
    ensures Replies(reply, ms) == Replies(reply, ms[..k]) + rest
    decreases |ms|
  {
    if k == |ms| {
      assert ms[..k] == ms;
      rest := [];
    } else {
      var before := ms[..|ms| - 1];
      rest := RepliesPrefix(reply, before, k);
      assert before[..k] == ms[..k];
      rest := rest + reply(|ms| - 1, ms[|ms| - 1]);
    }
  }

  /** One turn of the receiving loop, all being what the whole loop has to come to. */
  lemma OneTurn(all: Parsed, msgs: seq<Message>, cur: seq<Byte>, head: seq<Byte>)
    requires MESSAGE_HEAD_LEN <= |cur| && head == cur[..MESSAGE_HEAD_LEN]
    requires all == Parse(cur).(msgs := msgs + Parse(cur).msgs)
    ensures var len := Decode(head[4..8]);
            if MESSAGE_LENGTH_LIMIT < len || len < 0 then all == Parsed(msgs, cur, BadHeader)
            else if |cur| < MESSAGE_HEAD_LEN + len then all == Parsed(msgs, cur, Waiting)
            else
              var more := msgs + [Message(Decode(head[..4]), cur[8..8 + len])];
              if |cur| == MESSAGE_HEAD_LEN then all == Parsed(more, [], Abort)
              else all == Parse(cur[8 + len..]).(msgs := more + Parse(cur[8 + len..]).msgs)
  {
    assert head[..4] == cur[..4] && head[4..8] == cur[4..8];
    if HasMessage(cur) && |cur| != MESSAGE_HEAD_LEN {
      assert msgs + ([FirstMessage(cur)] + Parse(Tail(cur)).msgs) == msgs + [FirstMessage(cur)] + Parse(Tail(cur)).msgs;
    }
  }

  lemma ParseShort(buf: seq<Byte>)
    ensures |buf| < MESSAGE_HEAD_LEN ==> Parse(buf) == Parsed([], buf, Waiting)
  {
  }

  /** What write2fd answers for a queue of len bytes. */
  function Answer(len: int, r: WriteResult): int {
    match r
    case RoomFor(n) => if n < len then n else len
    case NoRoom => 0
    case Broken => -1
  }

  lemma FlushStep(len: nat, results: seq<WriteResult>, i: nat)
    requires len != 0 && i <= |results|
    ensures var ret := Answer(len, if i < |results| then results[i] else NoRoom);
            var f := Flush(len, results[i..]);
            && (ret < 0 ==> f == Flushed(0, true)) && (ret == 0 ==> f == Flushed(0, false))
            && (ret > 0 ==> ret <= len && i < |results| && f.taken == ret + Flush(len - ret, results[i + 1..]).taken
                            && f.failed == Flush(len - ret, results[i + 1..]).failed)
  {
    if i < |results| {
      assert results[i..][0] == results[i] && results[i..][1..] == results[i + 1..];
    }
  }

  lemma DropTwice(s: seq<Byte>, a: nat, b: nat)
    requires a + b <= |s|
    ensures s[a..][b..] == s[a + b..]
  {
  }

  lemma Moved(w: seq<Byte>, q: seq<Byte>, n: nat)
    requires n <= |q|
    ensures (w + q[..n]) + q[n..] == w + q
  {
  }

  lemma FlushNothing(results: seq<WriteResult>)
    ensures Flush(0, results) == Flushed(0, false)
  {
  }

  lemma FrameIs(m: Message)
    requires Sendable(m)
    ensures |Encode(m.id) + Encode(|m.body|)| == MESSAGE_HEAD_LEN
    ensures Frame(m) == Encode(m.id) + Encode(|m.body|) + m.body
  {
    DecodeEncode(m.id);
    DecodeEncode(|m.body|);
  }

  lemma StreamGrows(ms: seq<Message>, m: Message)
    requires AllSendable(ms) && Sendable(m)
    ensures AllSendable(ms + [m]) && Stream(ms + [m]) == Stream(ms) + Frame(m)
  {
    StreamConcat(ms, [m]);
    StreamOfOne(m);
  }
}
