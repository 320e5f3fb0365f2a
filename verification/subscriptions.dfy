/** The subscription index (module -> connections) and the pending-push index (connection -> modules)
    of the DNS service. */
module Subscriptions {
  import opened Packing

  type Fd = int
  type SubMap = map<UInt64, set<Fd>>
  type PubMap = map<Fd, set<UInt64>>

  function Subscribers(sub: SubMap, mod: UInt64): set<Fd> {
    if mod in sub then sub[mod] else {}
  }

  function PendingFor(pub: PubMap, fd: Fd): set<UInt64> {
    if fd in pub then pub[fd] else {}
  }

  ghost predicate NoEmptySets<K(!new), V>(m: map<K, set<V>>) {
    forall k :: k in m ==> m[k] != {}
  }

  function Subscribed(sub: SubMap, mod: UInt64, fd: Fd): SubMap {
    sub[mod := Subscribers(sub, mod) + {fd}]
  }

  function Unsubscribed(sub: SubMap, mod: UInt64, fd: Fd): SubMap {
    if mod !in sub then sub
    else if sub[mod] - {fd} == {} then sub - {mod}
    else sub[mod := sub[mod] - {fd}]
  }

  /** The changed modules that fd subscribes to. */
  function Affected(sub: SubMap, changes: set<UInt64>, fd: Fd): set<UInt64> {
    set m | m in changes && fd in Subscribers(sub, m)
  }

  function AllSubscribers(sub: SubMap, changes: set<UInt64>): set<Fd> {
    set m, fd | m in changes && m in sub && fd in sub[m] :: fd
  }

  /** What publish is for: every connection is owed what it was owed before and the changed modules it
      subscribes to, and nothing else. */
  function Published(sub: SubMap, pub: PubMap, changes: set<UInt64>): PubMap {
    map fd | fd in pub.Keys + AllSubscribers(sub, changes) :: PendingFor(pub, fd) + Affected(sub, changes, fd)
  }

  function Elements<T>(s: seq<T>): set<T> {
    set x | x in s
  }

  /** The entries of the pending index that belong to the connections given. */
  function Restricted(pub: PubMap, online: set<Fd>): PubMap {
    map fd | fd in pub && fd in online :: pub[fd]
  }

  lemma PublishedEntries(sub: SubMap, pub: PubMap, changes: set<UInt64>)
    requires NoEmptySets(pub)
    ensures NoEmptySets(Published(sub, pub, changes))
    ensures forall fd ::
              PendingFor(Published(sub, pub, changes), fd) == PendingFor(pub, fd) + Affected(sub, changes, fd)
    ensures forall fd, m ::
              m in PendingFor(Published(sub, pub, changes), fd)
              <==> (fd in pub && m in pub[fd]) || (m in changes && m in sub && fd in sub[m])
  {
    forall fd
      ensures PendingFor(Published(sub, pub, changes), fd) == PendingFor(pub, fd) + Affected(sub, changes, fd)
      ensures fd in Published(sub, pub, changes) ==> Published(sub, pub, changes)[fd] != {}
    {
      if fd in AllSubscribers(sub, changes) {
        var m :| m in changes && m in sub && fd in sub[m];
        assert m in Affected(sub, changes, fd);
      } else {
        assert Affected(sub, changes, fd) == {};
      }
    }
  }

  lemma PublishedOneMore(sub: SubMap, pub: PubMap, changes: set<UInt64>, mod: UInt64)
    requires mod !in sub
    ensures Published(sub, pub, changes + {mod}) == Published(sub, pub, changes)
  {
    assert AllSubscribers(sub, changes + {mod}) == AllSubscribers(sub, changes);
    assert forall fd :: Affected(sub, changes + {mod}, fd) == Affected(sub, changes, fd);
  }

  /** Adds one module to the entries of some connections. */
  function Added(pub: PubMap, fds: set<Fd>, mod: UInt64): PubMap {
    map fd | fd in pub.Keys + fds :: PendingFor(pub, fd) + if fd in fds then {mod} else {}
  }

  lemma PublishedOneMoreModule(sub: SubMap, pub: PubMap, changes: set<UInt64>, mod: UInt64)
    requires mod in sub
    ensures Published(sub, pub, changes + {mod}) == Added(Published(sub, pub, changes), sub[mod], mod)
  {
    hide AllSubscribers, Affected;
    AllSubscribersOneMore(sub, changes, mod);
    var l, r := Published(sub, pub, changes + {mod}), Added(Published(sub, pub, changes), sub[mod], mod);
    assert l.Keys == r.Keys;
    forall fd | fd in l
      ensures l[fd] == r[fd]
    {
      AffectedOneMore(sub, changes, mod, fd);
    }
  }

  lemma AffectedOneMore(sub: SubMap, changes: set<UInt64>, mod: UInt64, fd: Fd)
    requires mod in sub
    ensures Affected(sub, changes + {mod}, fd) == Affected(sub, changes, fd) + if fd in sub[mod] then {mod} else {}
    ensures fd !in AllSubscribers(sub, changes) ==> Affected(sub, changes, fd) == {}
  {
  }

  lemma AllSubscribersOneMore(sub: SubMap, changes: set<UInt64>, mod: UInt64)
    requires mod in sub
    ensures AllSubscribers(sub, changes + {mod}) == AllSubscribers(sub, changes) + sub[mod]
  {
    forall fd
      ensures fd in AllSubscribers(sub, changes + {mod}) <==> fd in AllSubscribers(sub, changes) || fd in sub[mod]
    {
      if fd in sub[mod] {
        assert mod in changes + {mod};
      }
      if fd in AllSubscribers(sub, changes) {
        var m :| m in changes && m in sub && fd in sub[m];
        assert m in changes + {mod};
      }
    }
  }

  lemma PublishedNothing(sub: SubMap, pub: PubMap)
    ensures Published(sub, pub, {}) == pub
  {
    assert AllSubscribers(sub, {}) == {};
    assert forall fd :: Affected(sub, {}, fd) == {};
    assert Published(sub, pub, {}).Keys == pub.Keys;
    assert forall fd :: fd in pub ==> Published(sub, pub, {})[fd] == pub[fd];
  }

  lemma AddedToNobody(pub: PubMap, mod: UInt64)
    ensures Added(pub, {}, mod) == pub
  {
    assert Added(pub, {}, mod).Keys == pub.Keys;
    assert forall fd :: fd in pub ==> Added(pub, {}, mod)[fd] == pub[fd];
  }

  lemma AddedOneMore(pub: PubMap, fds: set<Fd>, fd: Fd, mod: UInt64)
    ensures var m := Added(pub, fds, mod);
            Added(pub, fds + {fd}, mod) == m[fd := PendingFor(m, fd) + {mod}]
  {
    var l, m := Added(pub, fds + {fd}, mod), Added(pub, fds, mod);
    var r := m[fd := PendingFor(m, fd) + {mod}];
    assert l.Keys == r.Keys;
    forall k | k in l
      ensures l[k] == r[k]
    {
      if k == fd {
        assert PendingFor(m, fd) + {mod} == PendingFor(pub, fd) + {mod};
      }
    }
  }

  lemma SomeElement(fds: set<Fd>)
    ensures fds == {} || exists fd :: fd in fds
  {
    if forall fd :: fd !in fds {
      assert fds == {};
    }
  }

  class SubscribeList {
    var subList: SubMap
    var pubList: PubMap

    constructor ()
      ensures subList == map[] && pubList == map[]
    {
      subList, pubList := map[], map[];
    }

    method Subscribe(mod: UInt64, fd: Fd)
      modifies this`subList
      ensures subList == Subscribed(old(subList), mod, fd)
      ensures forall m, f ::
                m in subList && f in subList[m]
                <==> (m in old(subList) && f in old(subList)[m]) || (m == mod && f == fd)
    {
      if mod !in subList {
        subList := subList[mod := {}];
      }
      subList := subList[mod := subList[mod] + {fd}];
    }

    method UnSubscribe(mod: UInt64, fd: Fd)
      modifies this`subList
      ensures subList == Unsubscribed(old(subList), mod, fd)
      ensures forall m, f ::
                m in subList && f in subList[m]
                <==> m in old(subList) && f in old(subList)[m] && !(m == mod && f == fd)
      ensures NoEmptySets(old(subList)) ==> NoEmptySets(subList)
    {
      if mod in subList {
        assert forall f :: f in subList[mod] ==> f == fd || f in subList[mod] - {fd};
        subList := subList[mod := subList[mod] - {fd}];
        if subList[mod] == {} {
          subList := subList - {mod};
        }
      }
    }

    /** publish(), up to the point where it sends the push tasks. */
    method Publish(changeMods: seq<UInt64>)
      modifies this`pubList
      ensures pubList == Published(subList, old(pubList), Elements(changeMods))
    {
      ghost var pub0 := pubList;
      PublishedNothing(subList, pub0);
      assert Elements(changeMods[..0]) == {};
      for i := 0 to |changeMods|
        invariant pubList == Published(subList, pub0, Elements(changeMods[..i]))
      {
        var mod := changeMods[i];
        assert Elements(changeMods[..i + 1]) == Elements(changeMods[..i]) + {mod};
        if mod in subList {
          PublishedOneMoreModule(subList, pub0, Elements(changeMods[..i]), mod);
          AddToAll(subList[mod], mod);
        } else {
          PublishedOneMore(subList, pub0, Elements(changeMods[..i]), mod);
        }
      }
      assert changeMods[..|changeMods|] == changeMods;
    }

    /** The inner loop of publish(). */
    method AddToAll(fds: set<Fd>, mod: UInt64)
      modifies this`pubList
      ensures pubList == Added(old(pubList), fds, mod)
    {
      hide Added;
      ghost var pub0 := pubList;
      var todo := fds;
      AddedToNobody(pub0, mod);
      assert fds - todo == {};
      while todo != {}
        invariant todo <= fds
        invariant pubList == Added(pub0, fds - todo, mod)
        decreases todo
      {
        SomeElement(todo);
        var fd :| fd in todo;
        AddedOneMore(pub0, fds - todo, fd, mod);
        assert fds - (todo - {fd}) == (fds - todo) + {fd};
        if fd !in pubList {
          pubList := pubList[fd := {}];
        }
        pubList := pubList[fd := pubList[fd] + {mod}];
        todo := todo - {fd};
      }
      assert fds - todo == fds;
    }

    /** A copy of the pending entries of the connections that are online here. */
    method MakePublishMap(onlineFds: set<Fd>) returns (needPub: PubMap)
      ensures needPub == Restricted(pubList, onlineFds)
      ensures forall fd :: fd in needPub <==> fd in pubList && fd in onlineFds
      ensures forall fd :: fd in needPub ==> needPub[fd] == pubList[fd]
    {
      needPub := map[];
      var todo := pubList.Keys;
      while todo != {}
        invariant todo <= pubList.Keys
        invariant needPub == Restricted(pubList, onlineFds - todo)
        decreases todo
      {
        SomeElement(todo);
        var fd :| fd in todo;
        if fd in onlineFds {
          needPub := needPub[fd := pubList[fd]];
        }
        todo := todo - {fd};
      }
    }

    method Erase(fd: Fd)
      modifies this`pubList
      ensures pubList == old(pubList) - {fd}
    {
      pubList := pubList - {fd};
    }
  }
}
