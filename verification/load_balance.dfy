/** The load balancer of one (modid, cmdid) as the program has it: host objects, a map from keys to
    them and two lists of references, changed in place. Each method is proved to do to the abstract
    Queues what Balance specifies for the program as written. */
module LoadBalancing {
  import opened Packing
  import opened Health
  import opened Balance
  import opened Reconcile

  const RET_SUCC := 0
  const RET_OVERLOAD := 1

  class HostInfo {
    const ip: UInt32
    const port: Int32
    var vsucc: nat
    var verr: nat
    var rsucc: nat
    var rerr: nat
    var continSucc: nat
    var continErr: nat
    var overload: bool

    constructor (ip: UInt32, port: Int32, initVsucc: nat)
      ensures this.ip == ip && this.port == port
      ensures Tally() == Counters(initVsucc, 0, 0, 0, 0, 0, false)
    {
      this.ip, this.port := ip, port;
      vsucc, verr, rsucc, rerr, continSucc, continErr := initVsucc, 0, 0, 0, 0, 0;
      overload := false;
    }

    function Key(): UInt64 {
      Pack(ip, port)
    }

    ghost function Tally(): Counters
      reads this
    {
      Counters(vsucc, verr, rsucc, rerr, continSucc, continErr, overload)
    }

    ghost function Value(): Host
      reads this
    {
      Host(ip, port, Tally())
    }

    method SetIdle(cfg: Config)
      modifies this
      ensures Tally() == Idle(cfg)
    {
      vsucc, verr, rsucc, rerr := cfg.initSucc, 0, 0, 0;
      continSucc, continErr := 0, 0;
      overload := false;
    }

    method SetOverload(cfg: Config)
      modifies this
      ensures Tally() == Overloaded(cfg)
    {
      vsucc, verr, rsucc, rerr := 0, cfg.initErr, 0, 0;
      continErr, continSucc := 0, 0;
      overload := true;
    }
  }

  function KeyList(s: seq<HostInfo>): (r: seq<UInt64>)
    ensures |r| == |s|
  {
    seq(|s|, i requires 0 <= i < |s| => s[i].Key())
  }

  /** std::list::remove */
  function RemoveHost(s: seq<HostInfo>, h: HostInfo): seq<HostInfo> {
    if s == [] then [] else (if s[0] == h then [] else [s[0]]) + RemoveHost(s[1..], h)
  }

  lemma {:induction false} RemoveHostKeys(s: seq<HostInfo>, h: HostInfo)
    requires forall x :: x in s && x.Key() == h.Key() ==> x == h
    ensures KeyList(RemoveHost(s, h)) == Without(KeyList(s), {h.Key()})
    ensures forall x :: x in RemoveHost(s, h) ==> x in s
  {
    hide Pack;
    if s != [] {
      RemoveHostKeys(s[1..], h);
      assert KeyList(s)[1..] == KeyList(s[1..]);
      assert s == [s[0]] + s[1..];
      assert KeyList(RemoveHost(s, h)) ==
             (if s[0] == h then [] else [s[0].Key()]) + KeyList(RemoveHost(s[1..], h));
    }
  }

  lemma {:induction false} WithoutTwice(s: seq<UInt64>, a: set<UInt64>, b: set<UInt64>)
    ensures Without(Without(s, a), b) == Without(s, a + b)
  {
    if s != [] {
      WithoutTwice(s[1..], a, b);
      if s[0] !in a {
        assert ([s[0]] + Without(s[1..], a))[1..] == Without(s[1..], a);
      } else {
        assert [] + Without(s[1..], a) == Without(s[1..], a);
        assert [] + Without(s[1..], a + b) == Without(s[1..], a + b);
      }
    }
  }

  class LoadBalance {
    const cfg: Config
    const modid: Int32
    const cmdid: Int32
    var accessCnt: int
    var hostMap: map<UInt64, HostInfo>
    var idleList: seq<HostInfo>
    var overloadList: seq<HostInfo>
    var pulling: bool
    ghost var freed: set<UInt64>

    ghost function Hosts(): set<HostInfo>
      reads this
    {
      set k | k in hostMap :: hostMap[k]
    }

    ghost predicate Valid()
      reads this
    {
      && (forall k :: k in hostMap ==> hostMap[k].Key() == k)
      && (forall h :: h in idleList ==> h.Key() in hostMap && hostMap[h.Key()] == h)
      && (forall h :: h in overloadList ==> h.Key() in hostMap && hostMap[h.Key()] == h)
    }

    ghost function Abstract(): Queues
      reads this, Hosts()
    {
      Queues(map k | k in hostMap :: hostMap[k].Value(), KeyList(idleList), KeyList(overloadList), accessCnt, freed)
    }

    lemma AbstractHost(key: UInt64)
      ensures key in Abstract().hosts <==> key in hostMap
      ensures key in hostMap ==> Abstract().hosts[key] == hostMap[key].Value()
    {
    }

    /** The access counter and the status keep whatever the memory held. */
    constructor (cfg: Config, modid: Int32, cmdid: Int32)
      ensures this.cfg == cfg && this.modid == modid && this.cmdid == cmdid
      ensures Valid() && Abstract() == Balance.Empty(accessCnt) && Hosts() == {}
    {
      this.cfg, this.modid, this.cmdid := cfg, modid, cmdid;
      hostMap, idleList, overloadList, freed := map[], [], [], {};
    }

    predicate IsEmpty()
      reads this
    {
      hostMap == map[]
    }

    static method GetHostFromList(l: seq<HostInfo>) returns (host: HostInfo, l': seq<HostInfo>)
      requires l != []
      ensures host == l[0] && KeyList(l') == Turn(KeyList(l)) && KeyList(l)[0] == host.Key()
      ensures l'[0] in l && forall h :: h in l' <==> h in l
      ensures |l'| == |l|
    {
      hide Pack;
      host := l[0];
      l' := l[1..];
      l' := l' + [host];
      assert l == [host] + l[1..];
    }

    /** choice_one_host: the host in the answer is the one stored last. */
    method ChoiceOneHost() returns (retcode: int, chosen: HostInfo?)
      requires Valid() && CanChoose(cfg, Abstract())
      modifies this
      ensures Valid() && hostMap == old(hostMap) && Hosts() == old(Hosts()) && pulling == old(pulling)
      ensures Abstract() == Choose(AsWritten, cfg, old(Abstract())).0
      ensures var c := Choose(AsWritten, cfg, old(Abstract())).1;
              if c == NoneFree then retcode == RET_OVERLOAD && chosen == null
              else
                && retcode == RET_SUCC && chosen != null && chosen.Key() == c.key
                && c.key in hostMap && hostMap[c.key] == chosen
    {
      hide Pack, KeyList, Turn, HostInfo.Value;
      ghost var q := Abstract();
      if idleList == [] {
        if accessCnt >= cfg.probeNum {
          accessCnt := 0;
          chosen, overloadList := GetHostFromList(overloadList);
        } else {
          accessCnt := accessCnt + 1;
          return RET_OVERLOAD, null;
        }
      } else if overloadList == [] {
        chosen, idleList := GetHostFromList(idleList);
      } else {
        if accessCnt >= cfg.probeNum {
          accessCnt := 0;
          chosen, overloadList := GetHostFromList(overloadList);
        } else {
          accessCnt := accessCnt + 1;
          chosen, idleList := GetHostFromList(idleList);
        }
        chosen, idleList := GetHostFromList(idleList);
      }
      retcode := RET_SUCC;
    }

    /** pull(): hands a request to the dns client and marks the balancer. */
    method Pull() returns (request: (Int32, Int32))
      modifies this
      ensures request == (modid, cmdid) && pulling
      ensures Abstract() == old(Abstract()) && Hosts() == old(Hosts()) && hostMap == old(hostMap)
          && accessCnt == old(accessCnt)
      ensures Valid() == old(Valid())
    {
      request := (modid, cmdid);
      pulling := true;
    }

    /** report(): touching a freed host is undefined, an unknown address is ignored. */
    method Report(a: Address, retcode: int)
      requires Valid() && KeyOf(a) !in freed
      modifies this, Hosts()
      ensures Valid() && hostMap == old(hostMap) && Hosts() == old(Hosts()) && pulling == old(pulling)
      ensures Abstract() == ReportTo(cfg, old(Abstract()), a, retcode == RET_SUCC)
    {
      hide Pack, KeyList, Without, Abstract;
      var key := KeyOf(a);
      AbstractHost(key);
      if key !in hostMap {
        return;
      }
      var hi := hostMap[key];
      Count(hi, retcode == RET_SUCC);
      AbstractHost(key);
      if !hi.overload && retcode != RET_SUCC {
        var overload := false;
        var errRate := Rate(hi.verr, hi.vsucc + hi.verr);
        if errRate > cfg.errRate {
          overload := true;
        }
        if !overload && hi.continErr >= cfg.continErrLimit {
          overload := true;
        }
        if overload {
          ToOverload(hi);
        }
      } else if hi.overload && retcode == RET_SUCC {
        var idle := false;
        var succRate := Rate(hi.vsucc, hi.vsucc + hi.verr);
        if succRate > cfg.succRate {
          idle := true;
        }
        if !idle && hi.continSucc >= cfg.continSuccLimit {
          idle := true;
        }
        if idle {
          ToIdle(hi);
        }
      }
    }

    /** The counting half of report(). */
    method Count(hi: HostInfo, ok: bool)
      requires Valid() && hi.Key() in hostMap && hostMap[hi.Key()] == hi
      modifies hi
      ensures hi.Tally() == Counted(old(hi.Tally()), ok)
      ensures var q, key := old(Abstract()), hi.Key();
              Abstract() == q.(hosts := q.hosts[key := q.hosts[key].(counters := Counted(q.hosts[key].counters, ok))])
    {
      hide Pack, KeyList;
      if ok {
        hi.vsucc, hi.rsucc := hi.vsucc + 1, hi.rsucc + 1;
        hi.continSucc := hi.continSucc + 1;
        hi.continErr := 0;
      } else {
        hi.verr, hi.rerr := hi.verr + 1, hi.rerr + 1;
        hi.continErr := hi.continErr + 1;
        hi.continSucc := 0;
      }
    }

    method ToOverload(hi: HostInfo)
      requires Valid() && hi.Key() in hostMap && hostMap[hi.Key()] == hi
      modifies this, hi
      ensures Valid() && hostMap == old(hostMap) && pulling == old(pulling)
      ensures var q, key := old(Abstract()), hi.Key();
              Abstract() == q.(hosts := q.hosts[key := q.hosts[key].(counters := Overloaded(cfg))],
                               idle := Without(q.idle, {key}), over := q.over + [key])
    {
      hide Pack, Without;
      hi.SetOverload(cfg);
      RemoveHostKeys(idleList, hi);
      idleList := RemoveHost(idleList, hi);
      overloadList := overloadList + [hi];
      assert KeyList(overloadList) == old(KeyList(overloadList)) + [hi.Key()];
    }

    method ToIdle(hi: HostInfo)
      requires Valid() && hi.Key() in hostMap && hostMap[hi.Key()] == hi
      modifies this, hi
      ensures Valid() && hostMap == old(hostMap) && pulling == old(pulling)
      ensures var q, key := old(Abstract()), hi.Key();
              Abstract() == q.(hosts := q.hosts[key := q.hosts[key].(counters := Idle(cfg))],
                               over := Without(q.over, {key}), idle := q.idle + [key])
    {
      hide Pack, Without;
      hi.SetIdle(cfg);
      RemoveHostKeys(overloadList, hi);
      overloadList := RemoveHost(overloadList, hi);
      idleList := idleList + [hi];
      assert KeyList(idleList) == old(KeyList(idleList)) + [hi.Key()];
    }

    /** update(): the caller has checked that the answer is not empty; freeing a host twice is
        undefined. */
    method Update(rsp: seq<Address>)
      requires Valid() && rsp != []
      requires Vanished(Abstract(), rsp) !! freed
      modifies this
      ensures Valid() && pulling == old(pulling)
      ensures Abstract() == Balance.Update(AsWritten, cfg, old(Abstract()), rsp)
      ensures fresh(Hosts() - old(Hosts()))
      ensures forall k :: k in old(hostMap) ==> k in hostMap && hostMap[k] == old(hostMap[k])
    {
      hide Pack, KeyList, HostInfo.Value, HostInfo.Key, InsertAll, Remove;
      ghost var q0 := Abstract();
      InsertNew(rsp);
      var remoteHosts := set a | a in rsp :: KeyOf(a);
      var needDelete := set k | k in hostMap && k !in remoteHosts;
      InsertAllHosts(cfg, q0, rsp);
      assert remoteHosts == Keys(rsp);
      assert hostMap.Keys == Abstract().hosts.Keys;
      assert needDelete == Vanished(q0, rsp);
      DeleteAll(needDelete);
    }

    method InsertNew(rsp: seq<Address>)
      requires Valid()
      modifies this
      ensures Valid() && pulling == old(pulling) && freed == old(freed)
      ensures Abstract() == InsertAll(cfg, old(Abstract()), rsp)
      ensures fresh(Hosts() - old(Hosts()))
      ensures forall k :: k in old(hostMap) ==> k in hostMap && hostMap[k] == old(hostMap[k])
    {
      hide Pack, KeyList, HostInfo.Value, HostInfo.Key, Insert;
      ghost var q0 := Abstract();
      for i := 0 to |rsp|
        invariant Valid() && pulling == old(pulling) && freed == old(freed)
        invariant Abstract() == InsertAll(cfg, q0, rsp[..i])
        invariant fresh(Hosts() - old(Hosts()))
        invariant forall k :: k in old(hostMap) ==> k in hostMap && hostMap[k] == old(hostMap[k])
      {
        assert rsp[..i + 1][..i] == rsp[..i];
        InsertOne(rsp[i]);
      }
      assert rsp[..|rsp|] == rsp;
    }

    method InsertOne(h: Address)
      requires Valid()
      modifies this
      ensures Valid() && pulling == old(pulling) && freed == old(freed)
      ensures Abstract() == Insert(cfg, old(Abstract()), h)
      ensures fresh(Hosts() - old(Hosts()))
      ensures forall k :: k in old(hostMap) ==> k in hostMap && hostMap[k] == old(hostMap[k])
    {
      hide Pack;
      var key := KeyOf(h);
      if key !in hostMap {
        var hi := new HostInfo(ToUInt32(h.ip), h.port, cfg.initSucc);
        PackUnsigned(h.ip, h.port);
        assert hi.Key() == key;
        ghost var before := Abstract();
        hostMap := hostMap[key := hi];
        idleList := idleList + [hi];
        assert Abstract().hosts == before.hosts[key := NewHost(cfg, h)];
        assert Abstract().idle == before.idle + [key];
      }
    }

    method DeleteAll(needDelete: set<UInt64>)
      requires Valid() && needDelete <= hostMap.Keys && needDelete !! freed
      modifies this
      ensures Valid() && pulling == old(pulling) && hostMap == old(hostMap)
      ensures Abstract() == Remove(AsWritten, old(Abstract()), needDelete)
    {
      hide Pack, KeyList, HostInfo.Value, HostInfo.Key, Remove, Without;
      ghost var q := Abstract();
      var todo := needDelete;
      ghost var done: set<UInt64> := {};
      NothingRemoved(q);
      while todo != {}
        invariant todo + done == needDelete && todo !! done
        invariant Valid() && pulling == old(pulling) && hostMap == old(hostMap)
        invariant Abstract() == Remove(AsWritten, q, done)
        decreases todo
      {
        var key :| key in todo;
        RemoveOneMore(q, done, key);
        DeleteOne(key);
        todo, done := todo - {key}, done + {key};
      }
      assert done == needDelete;
    }

    method DeleteOne(key: UInt64)
      requires Valid() && key in hostMap
      modifies this
      ensures Valid() && pulling == old(pulling) && hostMap == old(hostMap)
      ensures var q := old(Abstract());
              Abstract() == if q.hosts[key].counters.overload then q.(over := Without(q.over, {key}),
                freed := q.freed + {key})
                            else q.(idle := Without(q.idle, {key}), freed := q.freed + {key})
    {
      hide Pack, Without;
      var hi := hostMap[key];
      if hi.overload {
        RemoveHostKeys(overloadList, hi);
        overloadList := RemoveHost(overloadList, hi);
      } else {
        RemoveHostKeys(idleList, hi);
        idleList := RemoveHost(idleList, hi);
      }
      freed := freed + {key};
    }

    /** commit(): nothing is sent when there is no host. */
    method Commit() returns (sent: bool, results: seq<CallResult>)
      requires Valid()
      ensures sent <==> hostMap != map[]
      ensures sent ==> results == Status(Abstract())
    {
      results := [];
      if hostMap == map[] {
        return false, [];
      }
      ghost var s := Status(Abstract());
      for i := 0 to |idleList|
        invariant results == s[..i]
      {
        var hi := idleList[i];
        results := results + [CallResult(ToInt32(hi.ip), hi.port, hi.rsucc, hi.rerr, false)];
      }
      for i := 0 to |overloadList|
        invariant results == s[..|idleList| + i]
      {
        var hi := overloadList[i];
        results := results + [CallResult(ToInt32(hi.ip), hi.port, hi.rsucc, hi.rerr, true)];
      }
      sent := true;
    }
  }

  lemma NothingRemoved(q: Queues)
    ensures Remove(AsWritten, q, {}) == q
  {
    WithoutNothing(q.idle, Flagged(q, {}, false));
    WithoutNothing(q.over, Flagged(q, {}, true));
  }

  lemma FlaggedOneMore(q: Queues, done: set<UInt64>, key: UInt64, flag: bool)
    requires key in q.hosts
    ensures Flagged(q, done + {key}, flag) ==
            if q.hosts[key].counters.overload == flag then Flagged(q, done, flag) + {key} else Flagged(q, done, flag)
  {
  }

  lemma RemoveOneMore(q: Queues, done: set<UInt64>, key: UInt64)
    requires key in q.hosts && key !in done
    ensures var r := Remove(AsWritten, q, done);
            Remove(AsWritten, q, done + {key}) ==
            if q.hosts[key].counters.overload then r.(over := Without(r.over, {key}), freed := r.freed + {key})
            else r.(idle := Without(r.idle, {key}), freed := r.freed + {key})
  {
    FlaggedOneMore(q, done, key, false);
    FlaggedOneMore(q, done, key, true);
    WithoutTwice(q.idle, Flagged(q, done, false), {key});
    WithoutTwice(q.over, Flagged(q, done, true), {key});
    assert q.freed + (done + {key}) == q.freed + done + {key};
  }
}
