/** The callbacks of the route service over the shared objects: connections with their own set of
    modules, the subscription list and the route index. */
module DnsService {
  import opened Packing
  import opened RouteIndex
  import opened Subscriptions
  import DnsProtocol
  import opened Wrappers

  /** A GetRouteResponse. */
  datatype Response = Response(modid: Int32, cmdid: Int32, hosts: set<(Int32, Int32)>)

  /** Unpacks each host key into the two ints the message carries. */
  function Addresses(hosts: set<UInt64>): set<(Int32, Int32)> {
    set k | k in hosts :: (High(k), Low(k))
  }

  function Answer(routes: RouteMap, modid: Int32, cmdid: Int32): Response {
    Response(modid, cmdid, Addresses(Lookup(routes, Pack(modid, cmdid))))
  }

  function PushAnswer(routes: RouteMap, mod: UInt64): Response {
    Answer(routes, High(mod), Low(mod))
  }

  function PushAnswers(routes: RouteMap, mods: seq<UInt64>): seq<Response> {
    seq(|mods|, i requires 0 <= i < |mods| => PushAnswer(routes, mods[i]))
  }

  /** An address as the message carries it: a negative port takes one from the ip. */
  function AddressOf(r: Row): (Int32, Int32) {
    (ToInt32(if r.port < 0 then r.ip - 1 else r.ip), r.port)
  }

  predicate RowOf(r: Row, modid: Int32, cmdid: Int32) {
    r.modid == modid && r.cmdid == cmdid
  }

  lemma StoredIp(ip: UInt32)
    ensures ToUInt32(ToInt32(ip)) == ip && ToInt32(ToInt32(ip) - 1) == ToInt32(ip - 1)
    ensures ToInt32(ToInt32(ip)) == ToInt32(ip)
  {
  }

  lemma UnpackHost(r: Row)
    ensures (High(HostOf(r)), Low(HostOf(r))) == AddressOf(r)
  {
    hide Pack, High, Low, ToInt32, ToUInt32;
    StoredIp(r.ip);
    PackUnsigned(ToInt32(r.ip), r.port);
    UnpackPack(ToInt32(r.ip), r.port);
  }

  /** The addresses of the rows with the two ids, as messages carry them. */
  function Carried(rows: seq<Row>, modid: Int32, cmdid: Int32): set<(Int32, Int32)> {
    set r | r in rows && RowOf(r, modid, cmdid) :: AddressOf(r)
  }

  /** The addresses as they stand in the table. */
  function Listed(rows: seq<Row>, modid: Int32, cmdid: Int32): set<(Int32, Int32)> {
    set r | r in rows && RowOf(r, modid, cmdid) :: (ToInt32(r.ip), r.port)
  }

  /** The answer to a request holds the addresses of exactly the rows with the two ids, whatever their
      ports. */
  lemma AnswerMatchesTable(rows: seq<Row>, modid: Int32, cmdid: Int32)
    ensures Answer(Group(rows), modid, cmdid).hosts == Carried(rows, modid, cmdid)
  {
    hide Pack, High, Low, Group, AddressOf;
    GroupAgreesWithTable(rows);
    var hosts := HostsOf(rows, Pack(modid, cmdid));
    forall r | r in rows
      ensures ModOf(r) == Pack(modid, cmdid) <==> RowOf(r, modid, cmdid)
      ensures (High(HostOf(r)), Low(HostOf(r))) == AddressOf(r)
    {
      PackInjective(r.modid, r.cmdid, modid, cmdid);
      UnpackHost(r);
    }
    forall a
      ensures a in Addresses(hosts) <==> a in Carried(rows, modid, cmdid)
    {
      if a in Addresses(hosts) {
        var k :| k in hosts && a == (High(k), Low(k));
        var r :| r in rows && ModOf(r) == Pack(modid, cmdid) && HostOf(r) == k;
        assert RowOf(r, modid, cmdid) && a == AddressOf(r);
      }
      if r :| r in rows && RowOf(r, modid, cmdid) && a == AddressOf(r) {
        assert HostOf(r) in hosts;
      }
    }
  }

  /** An answer names no address that is not listed exactly if, with every listed address of a negative
      port, the one below it is listed too; it leaves none out exactly if the one above it is. */
  lemma AnswerIsRightIff(rows: seq<Row>, modid: Int32, cmdid: Int32)
    ensures Answer(Group(rows), modid, cmdid).hosts <= Listed(rows, modid, cmdid)
            <==> forall r :: r in rows && RowOf(r, modid, cmdid) && r.port < 0 ==>
                   (ToInt32(r.ip - 1), r.port) in Listed(rows, modid, cmdid)
    ensures Listed(rows, modid, cmdid) <= Answer(Group(rows), modid, cmdid).hosts
            <==> forall r :: r in rows && RowOf(r, modid, cmdid) && r.port < 0 ==>
                   (ToInt32(r.ip + 1), r.port) in Listed(rows, modid, cmdid)
  {
    hide Group, Answer, Listed, Carried, AddressOf, ToInt32, RowOf;
    AnswerMatchesTable(rows, modid, cmdid);
    var carried, listed := Carried(rows, modid, cmdid), Listed(rows, modid, cmdid);
    forall r | r in rows && RowOf(r, modid, cmdid)
      ensures AddressOf(r) in carried && (ToInt32(r.ip), r.port) in listed
      ensures AddressOf(r) == if r.port < 0 then (ToInt32(r.ip - 1), r.port) else (ToInt32(r.ip), r.port)
      ensures (ToInt32(r.ip), r.port) in carried <==> 0 <= r.port || (ToInt32(r.ip + 1), r.port) in listed
    {
      RowIsThere(rows, modid, cmdid, r);
      if r.port < 0 {
        AboveIsListed(rows, modid, cmdid, r);
      }
    }
    if forall r :: r in rows && RowOf(r, modid, cmdid) && r.port < 0 ==> (ToInt32(r.ip - 1), r.port) in listed {
      forall a | a in carried
        ensures a in listed
      {
        var r := CarriedRow(rows, modid, cmdid, a);
      }
    }
    if forall r :: r in rows && RowOf(r, modid, cmdid) && r.port < 0 ==> (ToInt32(r.ip + 1), r.port) in listed {
      forall a | a in listed
        ensures a in carried
      {
        var r := ListedRow(rows, modid, cmdid, a);
      }
    }
  }

  lemma RowIsThere(rows: seq<Row>, modid: Int32, cmdid: Int32, r: Row)
    requires r in rows && RowOf(r, modid, cmdid)
    ensures AddressOf(r) in Carried(rows, modid, cmdid) && (ToInt32(r.ip), r.port) in Listed(rows, modid, cmdid)
    ensures AddressOf(r) == if r.port < 0 then (ToInt32(r.ip - 1), r.port) else (ToInt32(r.ip), r.port)
  {
  }

  lemma CarriedRow(rows: seq<Row>, modid: Int32, cmdid: Int32, a: (Int32, Int32)) returns (r: Row)
    requires a in Carried(rows, modid, cmdid)
    ensures r in rows && RowOf(r, modid, cmdid) && a == AddressOf(r)
  {
    r :| r in rows && RowOf(r, modid, cmdid) && a == AddressOf(r);
  }

  lemma ListedRow(rows: seq<Row>, modid: Int32, cmdid: Int32, a: (Int32, Int32)) returns (r: Row)
    requires a in Listed(rows, modid, cmdid)
    ensures r in rows && RowOf(r, modid, cmdid) && a == (ToInt32(r.ip), r.port)
  {
    r :| r in rows && RowOf(r, modid, cmdid) && a == (ToInt32(r.ip), r.port);
  }

  lemma AboveIsListed(rows: seq<Row>, modid: Int32, cmdid: Int32, r: Row)
    requires r in rows && RowOf(r, modid, cmdid) && r.port < 0
    ensures (ToInt32(r.ip), r.port) in Carried(rows, modid, cmdid)
            <==> (ToInt32(r.ip + 1), r.port) in Listed(rows, modid, cmdid)
  {
    hide ToInt32;
    forall r': Row | r'.port == r.port
      ensures ToInt32(r'.ip - 1) == ToInt32(r.ip) <==> ToInt32(r'.ip) == ToInt32(r.ip + 1)
    {
      OneUp(r'.ip, r.ip);
    }
  }

  lemma OneUp(a: UInt32, b: UInt32)
    ensures ToInt32(a - 1) == ToInt32(b) <==> ToInt32(a) == ToInt32(b + 1)
  {
  }

  /** A host key gives back the ip read as an int, and the port, unless the port is negative. */
  lemma HostRoundTrip(ip: UInt32, port: Int32)
    ensures (High(Pack(ip, port)), Low(Pack(ip, port))) == (ToInt32(ip), port) <==> 0 <= port
  {
    hide Pack;
    PackUnsigned(ToInt32(ip), port);
    assert ToUInt32(ToInt32(ip)) == ip;
    UnpackPack(ToInt32(ip), port);
  }

  class Connection {
    const fd: Fd
    var param: Option<set<UInt64>>
    var outbox: seq<Response>

    /** A new connection, after the hook that attaches an empty set of modules. */
    constructor (fd: Fd)
      ensures this.fd == fd && param == Some({}) && outbox == []
    {
      this.fd := fd;
      param, outbox := Some({}), [];
    }

    method SendMessage(r: Response)
      modifies this`outbox
      ensures outbox == old(outbox) + [r]
    {
      outbox := outbox + [r];
    }

    /** The hook of a closing connection. */
    method ClearSubscribe(subs: SubscribeList)
      requires param.Some? && NoEmptySets(subs.subList)
      modifies this`param, subs`subList
      ensures param == None
      ensures subs.subList == DnsProtocol.Abandoned(old(subs.subList), old(param).value, fd)
    {
      var todo := param.value;
      assert param.value - todo == {};
      NothingAbandoned(subs.subList, fd);
      while todo != {}
        invariant todo <= old(param).value && param == old(param)
        invariant subs.subList == DnsProtocol.Abandoned(old(subs.subList), param.value - todo, fd)
        decreases todo
      {
        var mod :| mod in todo;
        AbandonOneMore(old(subs.subList), param.value - todo, mod, fd);
        assert param.value - (todo - {mod}) == param.value - todo + {mod};
        subs.UnSubscribe(mod, fd);
        todo := todo - {mod};
      }
      assert param.value - todo == param.value;
      param := None;
    }
  }

  lemma NothingAbandoned(sub: SubMap, fd: Fd)
    ensures DnsProtocol.Abandoned(sub, {}, fd) == sub
  {
  }

  lemma AbandonOneMore(sub: SubMap, mods: set<UInt64>, mod: UInt64, fd: Fd)
    requires mod !in mods && NoEmptySets(sub)
    ensures DnsProtocol.Abandoned(sub, mods + {mod}, fd) == Unsubscribed(DnsProtocol.Abandoned(sub, mods, fd), mod, fd)
  {
    var a := DnsProtocol.Abandoned(sub, mods, fd);
    assert mod in a <==> mod in sub;
    assert mod in a ==> a[mod] == sub[mod];
    var l, r := DnsProtocol.Abandoned(sub, mods + {mod}, fd), Unsubscribed(a, mod, fd);
    forall m
      ensures m in l <==> m in r
    {
    }
    assert l.Keys == r.Keys;
    assert forall m :: m in l ==> l[m] == r[m];
  }

  class Service {
    const subs: SubscribeList
    const route: Route

    constructor (subs: SubscribeList, route: Route)
      ensures this.subs == subs && this.route == route
    {
      this.subs, this.route := subs, route;
    }

    /** get_hosts; subscribed is the subscription index at that moment. */
    method ReadHosts(modid: Int32, cmdid: Int32) returns (hosts: set<UInt64>, ghost subscribed: SubMap)
      ensures hosts == Lookup(route.data.routes, Pack(modid, cmdid)) && subscribed == subs.subList
    {
      hosts := route.GetHosts(modid, cmdid);
      subscribed := subs.subList;
    }

    /** get_request: subscribes first, reads the index second, so that the subscription is in place when the
        index is read. A connection without a set is answered all the same. */
    method GetRequest(modid: Int32, cmdid: Int32, conn: Connection) returns (ghost subscribed: SubMap)
      modifies conn, subs`subList
      ensures subscribed == subs.subList
      ensures conn.outbox == old(conn.outbox) + [Answer(route.data.routes, modid, cmdid)]
      ensures var mod := Pack(modid, cmdid);
              if old(conn.param) == None then conn.param == None && subs.subList == old(subs.subList)
              else
                && conn.param == Some(old(conn.param).value + {mod})
                && subs.subList == if mod in old(conn.param).value then old(subs.subList)
                                   else Subscribed(old(subs.subList), mod, conn.fd)
    {
      hide Pack;
      var mod := Pack(modid, cmdid);
      if conn.param.Some? && mod !in conn.param.value {
        conn.param := Some(conn.param.value + {mod});
        subs.Subscribe(mod, conn.fd);
      } else if conn.param.Some? {
        assert conn.param.value + {mod} == conn.param.value;
      }
      var hosts;
      hosts, subscribed := ReadHosts(modid, cmdid);
      conn.SendMessage(Response(modid, cmdid, Addresses(hosts)));
    }

    /** push_change_task, run without interference on the loop that listens to online: each connection
        with a pending entry is sent exactly one message per pending module, in some order, and its entry
        is erased; nobody else is touched. A descriptor without a connection, such as the thread's own
        eventfd, is passed over. */
    method PushChangeTask(online: set<Fd>, conns: map<Fd, Connection>) returns (ghost orders: map<Fd, seq<UInt64>>)
      requires forall fd, fd' :: fd in conns && fd' in conns && fd != fd' ==> conns[fd] != conns[fd']
      requires NoEmptySets(subs.pubList)
      modifies subs`pubList, set fd | fd in online && fd in conns :: conns[fd]
      ensures subs.pubList == old(subs.pubList) - online
      ensures orders.Keys == Restricted(old(subs.pubList), online).Keys
      ensures forall fd :: fd in orders ==> Enumerates(orders[fd], old(subs.pubList)[fd])
      ensures forall fd :: fd in conns ==>
                conns[fd].outbox == old(conns[fd].outbox) + Pushed(route.data.routes, orders, fd)
                && conns[fd].param == old(conns[fd].param)
    {
      hide Enumerates, PushAnswers, Restricted, NoEmptySets;
      var needPublish := subs.MakePublishMap(online);
      RestrictedEntries(subs.pubList, online);
      orders := map[];
      var todo := needPublish.Keys;
      while todo != {}
        invariant todo + orders.Keys == needPublish.Keys && todo !! orders.Keys
        invariant subs.pubList == old(subs.pubList) - orders.Keys
        invariant forall fd :: fd in orders ==> Enumerates(orders[fd], needPublish[fd])
        invariant forall fd :: fd in conns ==>
                    conns[fd].outbox == old(conns[fd].outbox) + Pushed(route.data.routes, orders, fd)
                    && conns[fd].param == old(conns[fd].param)
        decreases todo
      {
        SomeElement(todo);
        var fd :| fd in todo;
        var conn := if fd in conns then conns[fd] else null;
        ghost var order := PushTo(conn, fd, needPublish[fd]);
        assert old(subs.pubList) - orders.Keys - {fd} == old(subs.pubList) - (orders.Keys + {fd});
        orders := orders[fd := order];
        todo := todo - {fd};
      }
      assert orders.Keys == needPublish.Keys;
    }

    /** The inner loop of push_change_task, for one descriptor. */
    method PushTo(conn: Connection?, fd: Fd, mods: set<UInt64>) returns (ghost order: seq<UInt64>)
      requires mods != {}
      modifies subs`pubList, conn
      ensures Enumerates(order, mods)
      ensures conn != null ==>
                conn.outbox == old(conn.outbox) + PushAnswers(route.data.routes, order) && conn.param == old(conn.param)
      ensures subs.pubList == old(subs.pubList) - {fd}
    {
      hide Pack, High, Low;
      order := [];
      var todo := mods;
      while todo != {}
        invariant todo <= mods && Enumerates(order, mods - todo)
        invariant conn != null ==>
                    conn.outbox == old(conn.outbox) + PushAnswers(route.data.routes, order)
                    && conn.param == old(conn.param)
        invariant subs.pubList == if todo == mods then old(subs.pubList) else old(subs.pubList) - {fd}
        decreases todo
      {
        var mod :| mod in todo;
        var modid, cmdid := High(mod), Low(mod);
        var hosts := route.GetHosts(modid, cmdid);
        PushAnswersOneMore(route.data.routes, order, mod);
        if conn != null {
          conn.SendMessage(Response(modid, cmdid, Addresses(hosts)));
        }
        subs.Erase(fd);
        order := order + [mod];
        todo := todo - {mod};
      }
      assert mods - todo == mods;
    }
  }

  /** What fd is pushed: nothing if it has no entry. */
  ghost function Pushed(routes: RouteMap, orders: map<Fd, seq<UInt64>>, fd: Fd): seq<Response> {
    if fd in orders then PushAnswers(routes, orders[fd]) else []
  }

  lemma PushAnswersOneMore(routes: RouteMap, order: seq<UInt64>, mod: UInt64)
    ensures PushAnswers(routes, order + [mod]) == PushAnswers(routes, order) + [PushAnswer(routes, mod)]
  {
  }

  /** What a push says: the module its key unpacks to, and the hosts the index has for that one. For a module
      with a non-negative low half that is the module itself. */
  lemma PushedMessages(routes: RouteMap, order: seq<UInt64>, i: nat)
    requires i < |order|
    ensures |PushAnswers(routes, order)| == |order|
    ensures var m, r := order[i], PushAnswers(routes, order)[i];
            && Pack(r.modid, r.cmdid) == Repack(m) && r.hosts == Addresses(Lookup(routes, Repack(m)))
            && forall modid: Int32, cmdid: Int32 :: m == Pack(modid, cmdid) && 0 <= cmdid ==>
                 r == Response(modid, cmdid, Addresses(Lookup(routes, m)))
  {
    hide Pack, High, Low, Lookup, Addresses;
    var m := order[i];
    forall modid: Int32, cmdid: Int32 | m == Pack(modid, cmdid) && 0 <= cmdid
      ensures High(m) == modid && Low(m) == cmdid
    {
      UnpackPack(modid, cmdid);
      IntOfInt(modid);
    }
  }

  lemma IntOfInt(x: Int32)
    ensures ToInt32(x) == x
  {
  }

  lemma RestrictedEntries(pub: PubMap, online: set<Fd>)
    requires NoEmptySets(pub)
    ensures Restricted(pub, online).Keys <= online && pub - Restricted(pub, online).Keys == pub - online
    ensures forall fd :: fd in Restricted(pub, online) ==> fd in pub && pub[fd] == Restricted(pub, online)[fd] != {}
  {
  }

  /** order lists the elements of s, each once. */
  ghost predicate Enumerates(order: seq<UInt64>, s: set<UInt64>) {
    (forall i, j :: 0 <= i < j < |order| ==> order[i] != order[j]) && forall x :: x in order <==> x in s
  }
}
