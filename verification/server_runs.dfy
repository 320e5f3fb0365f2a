/** What a run of a server comes to for each of its connections: from the moment a connection is opened its
    record is the sum of the effects of the events on its descriptor, in their order. */
module TcpServerRuns {
  import opened BufferPool
  import opened Framing
  import opened ReactorBuffer
  import opened Sessions
  import opened TcpConnection
  import opened TcpServers

  /** The bytes that an event brings to a descriptor. */
  function ArrivedBy(e: Event, fd: int): seq<Byte> {
    match e
    case Readable(f, arrival, _) => if f == fd then Offered(arrival) else []
    case _ => []
  }

  /** How many bytes its descriptor takes from a connection. */
  function TookBy(e: Event, r: Record, fd: int): nat {
    match e
    case Writable(f, results) => if f == fd then Flush(|r.queued|, results).taken else 0
    case _ => 0
  }

  /** The messages that are sent on a connection and not refused, by the program or by its callbacks. */
  function TakenBy(e: Event, r: Record, fd: int): seq<Message> {
    match e
    case Sending(f, data, msgid) => if f == fd && !Refused(|r.queued|, |data|) then [Message(msgid, data)] else []
    case Readable(f, arrival, reply) =>
      if f != fd then []
      else AnswersTo(|r.queued|, r.usable, Replies(reply, Parse(r.kept + Offered(arrival)).msgs)).taken
    case _ => []
  }

  /** All bytes that arrive on a descriptor from one event to another. */
  function Arrived(events: seq<Event>, fd: int, lo: nat, hi: nat): seq<Byte>
    requires lo <= hi <= |events|
  {
    if lo == hi then [] else Arrived(events, fd, lo, hi - 1) + ArrivedBy(events[hi - 1], fd)
  }

  /** How many bytes its descriptor takes from a connection that is open all the time. */
  function Took(events: seq<Event>, views: seq<map<int, View>>, fd: int, lo: nat, hi: nat): nat
    requires lo <= hi <= |events| < |views| && forall i :: lo <= i < hi ==> fd in views[i]
  {
    if lo == hi then 0
    else Took(events, views, fd, lo, hi - 1) + TookBy(events[hi - 1], views[hi - 1][fd].record, fd)
  }

  /** All messages that are sent on a connection, open all the time, and not refused. */
  function Taken(events: seq<Event>, views: seq<map<int, View>>, fd: int, lo: nat, hi: nat): seq<Message>
    requires lo <= hi <= |events| < |views| && forall i :: lo <= i < hi ==> fd in views[i]
  {
    if lo == hi then []
    else Taken(events, views, fd, lo, hi - 1) + TakenBy(events[hi - 1], views[hi - 1][fd].record, fd)
  }

  /** An event leaves the connections on other descriptors as they were. */
  lemma OthersStay(e: Event, was: map<int, View>, now: map<int, View>, fd: int)
    requires Effect(e, was, now) && FdOf(e) != fd
    ensures fd in now <==> fd in was
    ensures fd in now ==> now[fd] == was[fd]
  {
    assert fd in now <==> fd in now - {FdOf(e)};
    assert fd in was <==> fd in was - {FdOf(e)};
  }

  /** A connection that is open after an event was open before, or was opened by it. */
  lemma OpenBefore(e: Event, was: map<int, View>, now: map<int, View>, fd: int)
    requires Effect(e, was, now) && fd in now && fd !in was
    ensures e.Accepted? && e.connfd == fd
    ensures now[fd] == View(true, true, Record(fd, [], [], [], true, [], [], []))
  {
    if FdOf(e) != fd {
      OthersStay(e, was, now, fd);
    }
  }

  /** The life of a connection that is open after n events of a run, and was open before the run or has been
      opened during it: what it received is what arrived for it since, what it accepted is what was sent on
      it and not refused, and what it has written grew by what its descriptor took. */
  lemma {:induction false} LifeOfConnection(events: seq<Event>, views: seq<map<int, View>>, n: nat, fd: int)
    returns (k: nat)
    requires Traced(events, views) && n <= |events| && fd in views[n]
    ensures k <= n && forall i :: k <= i <= n ==> fd in views[i]
    ensures k != 0 ==>
              && fd !in views[k - 1] && events[k - 1].Accepted? && events[k - 1].connfd == fd
              && views[k][fd] == View(true, true, Record(fd, [], [], [], true, [], [], []))
    ensures var r0, r := views[k][fd].record, views[n][fd].record;
            && r.connfd == r0.connfd
            && r.received == r0.received + Arrived(events, fd, k, n)
            && r.accepted == r0.accepted + Taken(events, views, fd, k, n)
            && |r.written| == |r0.written| + Took(events, views, fd, k, n)
  {
    hide Effect, ArrivedBy, TakenBy, TookBy;
    k := n;
    if n != 0 {
      if fd in views[n - 1] {
        k := LifeOfConnection(events, views, n - 1, fd);
        StepAdds(events[n - 1], views[n - 1], views[n], fd);
      } else {
        OpenBefore(events[n - 1], views[n - 1], views[n], fd);
      }
    }
  }

  lemma StepAdds(e: Event, was: map<int, View>, now: map<int, View>, fd: int)
    requires Effect(e, was, now) && fd in was && fd in now
    ensures var r, r' := was[fd].record, now[fd].record;
            && r'.connfd == r.connfd
            && r'.received == r.received + ArrivedBy(e, fd)
            && r'.accepted == r.accepted + TakenBy(e, r, fd)
            && |r'.written| == |r.written| + TookBy(e, r, fd)
  {
    hide Parse, AnswersTo, Replies, Flush, Refused, Fails, Frame, TakenBack;
    if FdOf(e) != fd {
      OthersStay(e, was, now, fd);
    }
  }

  /** The account of a connection: what was dispatched and what is kept is what one pass over the bytes
      received makes of them; what was accepted is what is written or queued, unless a refusal left its
      trace. */
  ghost predicate Accounted(v: View) {
    var r := v.record;
    && Parse(r.received) == Parsed(r.dispatched, r.kept, Waiting)
    && (v.live ==> r.usable && AllSendable(r.accepted) && r.written + r.queued == Stream(r.accepted))
  }

  /** The account balances after any run, if it did when the connection was opened or the run began. */
  lemma {:induction false} AccountStays(events: seq<Event>, views: seq<map<int, View>>, k: nat, n: nat, fd: int)
    requires Traced(events, views) && k <= n <= |events| && forall i :: k <= i <= n ==> fd in views[i]
    requires Accounted(views[k][fd])
    ensures Accounted(views[n][fd])
  {
    hide Accounted, Effect;
    if k < n {
      AccountStays(events, views, k, n - 1, fd);
      StepAccounts(events[n - 1], views[n - 1], views[n], fd);
    }
  }

  lemma StepAccounts(e: Event, was: map<int, View>, now: map<int, View>, fd: int)
    requires Effect(e, was, now) && fd in was && fd in now && Accounted(was[fd])
    ensures Accounted(now[fd])
  {
    hide Parse, AnswersTo, Replies, Flush, Refused, Fails, Frame, TakenBack, Stream;
    if FdOf(e) != fd {
      OthersStay(e, was, now, fd);
      return;
    }
    var r, r' := was[fd].record, now[fd].record;
    match e {
      case Accepted(_, _) =>
      case Sending(_, data, msgid) =>
        var m := Message(msgid, data);
        StreamGrows(r.accepted, m);
        assert r.written + (r.queued + Frame(m)) == r.written + r.queued + Frame(m);
      case Writable(_, results) =>
        Moved(r.written, r.queued, Flush(|r.queued|, results).taken);
      case Readable(_, arrival, reply) =>
        ParseAppend(r.received, Offered(arrival));
        var taken := AnswersTo(|r.queued|, r.usable, Replies(reply, Parse(r.kept + Offered(arrival)).msgs)).taken;
        if now[fd].live {
          StreamConcat(r.accepted, taken);
          assert r.written + (r.queued + Stream(taken)) == r.written + r.queued + Stream(taken);
        }
    }
  }

  lemma NewIsAccounted(fd: int)
    ensures Accounted(View(true, true, Record(fd, [], [], [], true, [], [], [])))
  {
    ParseNothing();
  }

  /** A server that starts without connections: whatever happens, each open connection has dispatched exactly
      the messages that one pass over all bytes that arrived for it finds, and keeps the rest; if it is live,
      the bytes its descriptor took and the bytes still queued are the frames of the messages taken for it,
      in order. */
  lemma ServedExactly(events: seq<Event>, views: seq<map<int, View>>, fd: int) returns (k: nat)
    requires Traced(events, views) && views[0] == map[] && fd in views[|events|]
    ensures 0 < k <= |events| && events[k - 1].Accepted? && events[k - 1].connfd == fd
    ensures forall i :: k <= i <= |events| ==> fd in views[i]
    ensures var r := views[|events|][fd].record;
            Parse(Arrived(events, fd, k, |events|)) == Parsed(r.dispatched, r.kept, Waiting)
    ensures views[|events|][fd].live ==>
              var r, taken := views[|events|][fd].record, Taken(events, views, fd, k, |events|);
              && AllSendable(taken) && |r.written| == Took(events, views, fd, k, |events|)
              && r.written + r.queued == Stream(taken)
  {
    hide Accounted, Effect;
    k := LifeOfConnection(events, views, |events|, fd);
    NewIsAccounted(fd);
    AccountStays(events, views, k, |events|, fd);
    BalanceOf(views[|events|][fd]);
    assert [] + Arrived(events, fd, k, |events|) == Arrived(events, fd, k, |events|);
    assert [] + Taken(events, views, fd, k, |events|) == Taken(events, views, fd, k, |events|);
  }

  lemma BalanceOf(v: View)
    requires Accounted(v)
    ensures Parse(v.record.received) == Parsed(v.record.dispatched, v.record.kept, Waiting)
    ensures v.live ==> AllSendable(v.record.accepted) && v.record.written + v.record.queued == Stream(v.record.accepted)
  {
  }
}
