/** What the route protocol says of a connection's output buffer is what the buffer does. */
module DnsTransport {
  import opened BufferPool
  import opened EventLoops
  import opened Framing
  import opened ReactorBuffer
  import opened TcpConnection
  import opened DnsProtocol
  import opened Subscriptions

  /** A send in the protocol is one message for the output buffer: taken, refused without a trace, or refused
      with the buffer broken. Only a message that is taken reaches the client, and only one that does not
      deafen it. On a broken buffer it aborts. */
  lemma AfterSendIsSendMessage(c: Conn, mod: Mod, hosts: Hosts, m: Message, cut: bool)
    ensures var a := AnswersTo(c.queued, !c.broken, [m]);
            var c' := AfterSend(c, mod, hosts, |m.body|, cut);
            if c.broken then a.aborted
            else
              && !a.aborted && c'.queued == a.queued && c'.broken == !a.usable
              && (c'.deaf <==> c.deaf || (a.taken == [m] && Fatal(|m.body|, cut)))
              && c'.seen == (if a.taken == [m] && !c'.deaf then c.seen[mod := hosts] else c.seen)
              && c'.owner == c.owner && c'.mods == c.mods
  {
    assert [m][1..] == [];
  }

  /** A connection whose output buffer is in the state the protocol has for it. */
  ghost predicate Carries(t: TcpConn, c: Conn)
    reads t, t.loop, t.pool, t.pool.FreeBlocks(), t.obuf, t.obuf.buf, t.ibuf, t.ibuf.buf
  {
    t.Stored() && t.loop.Synced() && t.obuf.Length() == c.queued && t.obuf.Usable() == !c.broken
  }

  /** send_message on such a connection is the protocol's send. */
  method SendOn(t: TcpConn, data: seq<Byte>, msgid: int, ghost c: Conn, ghost mod: Mod, ghost hosts: Hosts,
                ghost cut: bool)
    returns (o: Outcome)
    requires Carries(t, c) && Sendable(Message(msgid, data))
    modifies t`accepted, t.Footprint(), t.loop`ioEvs, t.loop`listenFds, t.loop`epoll
    ensures o.Aborted? <==> c.broken
    ensures o.Done? ==>
              var c' := AfterSend(c, mod, hosts, |data|, cut);
              && Carries(t, c')
              && (t.accepted == old(t.accepted) + [Message(msgid, data)] <==> !Refused(c.queued, |data|))
              && (c'.seen != c.seen ==> t.accepted == old(t.accepted) + [Message(msgid, data)])
  {
    hide TcpConn.Live, TcpConn.Sending, EventLoop.Synced, TcpConn.Footprint, TcpConn.Strangers, TcpConn.Stored, Frame;
    t.Lengths();
    o := t.SendMessage(data, msgid);
    if o.Done? {
      t.Lengths();
      FrameLength(Message(msgid, data));
    }
  }

  /** do_write on such a connection, while it is in good order, is the protocol's step Write for the bytes the
      descriptor takes; or the connection is closed. */
  method WriteOn(t: TcpConn, results: seq<WriteResult>, ghost s: State, ghost fd: Fd)
    returns (o: Outcome, ghost n: nat)
    requires t.Live() && fd in s.conns && Carries(t, s.conns[fd]) && IsWaiting(s, s.conns[fd].owner)
    modifies t`connfd, t`written, t.Footprint(), t.loop`ioEvs, t.loop`listenFds, t.loop`epoll
    ensures o == Done(0) && n == Flush(s.conns[fd].queued, results).taken && |t.written| == |old(t.written)| + n
    ensures var c := s.conns[fd].(queued := s.conns[fd].queued - n);
            && Enabled(s, Write(fd, n)) && Apply(s, Write(fd, n)) == s.(conns := s.conns[fd := c])
            && if Flush(s.conns[fd].queued, results).failed then t.Closed(old(t.connfd)) else Carries(t, c)
  {
    hide EventLoop.Synced, TcpConn.Footprint, TcpConn.Strangers, TcpConn.Stored, Flush, TcpConn.OutOk, TcpConn.InOk;
    t.Lengths();
    o := t.DoWrite(results);
    n := Flush(s.conns[fd].queued, results).taken;
    t.Lengths();
  }
}
