/** route_lb: the map of load balancers one agent thread serves, and its pull state. */
module RouteBalancing {
  import opened Packing
  import opened Health
  import opened Balance
  import opened Reconcile
  import opened LoadBalancing

  const RET_NOEXIST := 3

  lemma AbstractFields(lb: LoadBalance)
    ensures lb.hostMap == map[] <==> lb.Abstract().hosts == map[]
    ensures lb.Abstract().freed == lb.freed
  {
    assert lb.Abstract().hosts.Keys == lb.hostMap.Keys;
  }

  lemma QueuesHoldHosts(lb: LoadBalance)
    requires lb.Valid()
    ensures forall k :: k in lb.Abstract().idle + lb.Abstract().over ==> k in lb.Abstract().hosts
  {
    hide Pack;
  }

  /** A balancer that has no host yet is waiting for the answer to a request that was really sent: the
      program asserts the first half of that. */
  ghost predicate Sound(lb: LoadBalance, key: UInt64, cfg: Config, requests: seq<(Int32, Int32)>)
    reads lb, lb.Hosts()
  {
    && lb.Valid() && lb.cfg == cfg
    && Pack(lb.modid, lb.cmdid) == key
    && (lb.hostMap == map[] ==> lb.pulling && (lb.modid, lb.cmdid) in requests)
  }

  ghost predicate Apart(a: LoadBalance, b: LoadBalance)
    reads a, b
  {
    a != b && a.Hosts() !! b.Hosts()
  }

  lemma NewIsSound(lb: LoadBalance, key: UInt64, cfg: Config, requests: seq<(Int32, Int32)>)
    requires lb.Valid() && lb.cfg == cfg && Pack(lb.modid, lb.cmdid) == key && lb.pulling
        && (lb.modid, lb.cmdid) in requests
    ensures Sound(lb, key, cfg, requests)
  {
  }

  lemma NewIsApart(a: LoadBalance, b: LoadBalance)
    requires a != b && a.Hosts() == {}
    ensures Apart(a, b) && Apart(b, a)
  {
  }

  class RouteLb {
    const cfg: Config
    var routeLbMap: map<UInt64, LoadBalance>
    /** What was handed to the dns client and to the reporter so far. */
    var dnsQueue: seq<(Int32, Int32)>
    var reportQueue: seq<seq<CallResult>>
    ghost var Repr: set<object>

    /** Every balancer is sound and they share nothing. */
    ghost predicate Valid()
      reads this, Repr
    {
      && this in Repr
      && (forall k :: k in routeLbMap ==> routeLbMap[k] in Repr && Owns(k))
      && (forall k, k' :: k in routeLbMap && k' in routeLbMap && k != k' ==>
           routeLbMap[k] in Repr && routeLbMap[k'] in Repr && Apart(routeLbMap[k], routeLbMap[k']))
    }

    ghost predicate Owns(k: UInt64)
      requires k in routeLbMap && routeLbMap[k] in Repr
      reads this, Repr
    {
      routeLbMap[k].Hosts() <= Repr && Sound(routeLbMap[k], k, cfg, dnsQueue)
    }

    ghost function Queues(k: UInt64): Balance.Queues
      requires Valid() && k in routeLbMap
      reads this, Repr
    {
      assert Owns(k);
      routeLbMap[k].Abstract()
    }

    constructor (cfg: Config)
      ensures Valid() && fresh(Repr) && this.cfg == cfg && routeLbMap == map[] && dnsQueue == [] && reportQueue == []
    {
      this.cfg := cfg;
      routeLbMap, dnsQueue, reportQueue := map[], [], [];
      Repr := {this};
    }

    /** get_host, with the codes 0 for success, 1 for overload and 3 for a resource that does not exist: ret
        is what the function returns, retcode what it stores in the answer; for a balancer still waiting
        for its hosts the two differ. */
    method GetHost(modid: Int32, cmdid: Int32) returns (ret: int, retcode: int, host: HostInfo?)
      requires Valid()
      requires var key := Pack(modid, cmdid);
               key in routeLbMap && Queues(key).hosts != map[] ==> CanChoose(cfg, Queues(key))
      modifies Repr
      ensures Valid() && fresh(Repr - old(Repr)) && reportQueue == old(reportQueue)
      ensures var key := Pack(modid, cmdid);
              && routeLbMap.Keys == old(routeLbMap.Keys) + {key}
              && (forall k :: k in old(routeLbMap) ==> routeLbMap[k] == old(routeLbMap[k]))
              && (forall k :: k in old(routeLbMap) && k != key ==> Queues(k) == old(Queues(k)))
      ensures var key := Pack(modid, cmdid);
              if key !in old(routeLbMap) then
                ret == retcode == 3 && host == null && dnsQueue == old(dnsQueue) + [(modid, cmdid)]
                && Queues(key) == Empty(Queues(key).access)
              else if old(Queues(key)).hosts == map[] then
                ret == 0 && retcode == 3 && host == null && dnsQueue == old(dnsQueue)
                && Queues(key) == old(Queues(key))
              else
                dnsQueue == old(dnsQueue) && ret == retcode
                && Queues(key) == Choose(AsWritten, cfg, old(Queues(key))).0
                && match Choose(AsWritten, cfg, old(Queues(key))).1
                   case NoneFree => ret == 1 && host == null
                   case Picked(k) => ret == 0 && host != null && host.Key() == k
    {
      hide Pack, Choose, CanChoose, LoadBalance.Abstract, LoadBalance.Valid, LoadBalance.Hosts;
      ret, host := RET_SUCC, null;
      var key := Pack(modid, cmdid);
      if key in routeLbMap {
        var lb := routeLbMap[key];
        assert Owns(key);
        AbstractFields(lb);
        if lb.IsEmpty() {
          assert lb.pulling;
          retcode := RET_NOEXIST;
        } else {
          ret, host := lb.ChoiceOneHost();
          retcode := ret;
          assert forall k :: k in routeLbMap && k != key ==> old(Owns(k));
        }
      } else {
        Create(modid, cmdid);
        retcode := RET_NOEXIST;
        ret := RET_NOEXIST;
      }
    }

    /** The branch of get_host for a key it has not seen. */
    method Create(modid: Int32, cmdid: Int32)
      requires Valid() && Pack(modid, cmdid) !in routeLbMap
      modifies this
      ensures Valid() && fresh(Repr - old(Repr)) && reportQueue == old(reportQueue)
      ensures dnsQueue == old(dnsQueue) + [(modid, cmdid)]
      ensures var key := Pack(modid, cmdid);
              && routeLbMap.Keys == old(routeLbMap.Keys) + {key}
              && (forall k :: k in old(routeLbMap) ==> routeLbMap[k] == old(routeLbMap[k]))
              && (forall k :: k in old(routeLbMap) ==> Queues(k) == old(Queues(k)))
              && Queues(key) == Empty(Queues(key).access)
    {
      hide Pack, Sound, Apart, LoadBalance.Abstract, LoadBalance.Valid, LoadBalance.Hosts;
      var key := Pack(modid, cmdid);
      var lb, request := NewPulled(modid, cmdid);
      AllSoundWithMore(request);
      dnsQueue := dnsQueue + [request];
      routeLbMap := routeLbMap[key := lb];
      Repr := Repr + {lb};
      NewIsSound(lb, key, cfg, dnsQueue);
      assert Owns(key);
      forall k | k in old(routeLbMap)
        ensures Apart(routeLbMap[k], lb) && Apart(lb, routeLbMap[k])
      {
        NewIsApart(lb, routeLbMap[k]);
      }
    }

    lemma AllSoundWithMore(request: (Int32, Int32))
      requires Valid()
      ensures forall k :: k in routeLbMap ==> Sound(routeLbMap[k], k, cfg, dnsQueue + [request])
    {
      hide Pack, LoadBalance.Abstract, LoadBalance.Valid, LoadBalance.Hosts;
      assert forall k :: k in routeLbMap ==> Owns(k);
    }

    method NewPulled(modid: Int32, cmdid: Int32) returns (lb: LoadBalance, request: (Int32, Int32))
      ensures fresh(lb) && lb.Valid() && lb.Hosts() == {} && lb.Abstract() == Empty(lb.accessCnt)
      ensures lb.cfg == cfg && lb.modid == modid && lb.cmdid == cmdid && lb.pulling && request == (modid, cmdid)
    {
      hide LoadBalance.Abstract;
      lb := new LoadBalance(cfg, modid, cmdid);
      request := lb.Pull();
    }

    /** update_host: an empty answer removes the balancer, an unknown key is ignored. */
    method UpdateHost(modid: Int32, cmdid: Int32, rsp: seq<Address>)
      requires Valid()
      requires var key := Pack(modid, cmdid);
               rsp != [] && key in routeLbMap ==> Vanished(Queues(key), rsp) !! Queues(key).freed
      modifies Repr
      ensures Valid() && fresh(Repr - old(Repr)) && dnsQueue == old(dnsQueue) && reportQueue == old(reportQueue)
      ensures var key := Pack(modid, cmdid);
              && routeLbMap.Keys == (if rsp == [] then old(routeLbMap.Keys) - {key} else old(routeLbMap.Keys))
              && (forall k :: k in routeLbMap ==> routeLbMap[k] == old(routeLbMap[k]))
              && (forall k :: k in routeLbMap && k != key ==> Queues(k) == old(Queues(k)))
              && (key in routeLbMap ==> Queues(key) == Balance.Update(AsWritten, cfg, old(Queues(key)), rsp))
    {
      hide Pack, Balance.Update, Balance.Vanished, LoadBalance.Abstract, LoadBalance.Valid, LoadBalance.Hosts;
      var key := Pack(modid, cmdid);
      if key in routeLbMap {
        var lb := routeLbMap[key];
        assert Owns(key);
        AbstractFields(lb);
        if rsp == [] {
          routeLbMap := routeLbMap - {key};
          assert forall k :: k in routeLbMap ==> old(Owns(k));
        } else {
          UpdateOne(key, lb, rsp);
        }
      }
    }

    method UpdateOne(key: UInt64, lb: LoadBalance, rsp: seq<Address>)
      requires Valid() && key in routeLbMap && routeLbMap[key] == lb && rsp != []
      requires Vanished(Queues(key), rsp) !! Queues(key).freed
      modifies this, lb
      ensures Valid() && fresh(Repr - old(Repr)) && dnsQueue == old(dnsQueue) && reportQueue == old(reportQueue)
      ensures routeLbMap == old(routeLbMap)
      ensures forall k :: k in routeLbMap && k != key ==> Queues(k) == old(Queues(k))
      ensures Queues(key) == Balance.Update(AsWritten, cfg, old(Queues(key)), rsp)
    {
      hide Pack, Balance.Update, Balance.Vanished, LoadBalance.Abstract, LoadBalance.Valid, LoadBalance.Hosts;
      assert Owns(key);
      AbstractFields(lb);
      lb.Update(rsp);
      Repr := Repr + lb.Hosts();
      forall k | k in routeLbMap && k != key
        ensures Owns(k) && Apart(lb, routeLbMap[k]) && Apart(routeLbMap[k], lb)
        ensures routeLbMap[k].Abstract() == old(routeLbMap[k].Abstract())
      {
        assert old(Owns(k));
      }
    }

    /** report_host: counts the result, then sends the status of the whole balancer. */
    method ReportHost(modid: Int32, cmdid: Int32, a: Address, retcode: int)
      requires Valid()
      requires var key := Pack(modid, cmdid); key in routeLbMap ==> KeyOf(a) !in Queues(key).freed
      modifies Repr
      ensures Valid() && Repr == old(Repr) && routeLbMap == old(routeLbMap) && dnsQueue == old(dnsQueue)
      ensures var key := Pack(modid, cmdid);
              && (forall k :: k in routeLbMap && k != key ==> Queues(k) == old(Queues(k)))
              && (key in routeLbMap ==> Queues(key) == ReportTo(cfg, old(Queues(key)), a, retcode == 0))
              && (if key in routeLbMap && Queues(key).hosts != map[]
                  then (forall k :: k in Queues(key).idle + Queues(key).over ==> k in Queues(key).hosts)
                       && reportQueue == old(reportQueue) + [Status(Queues(key))]
                  else reportQueue == old(reportQueue))
    {
      hide Pack, ReportTo, Status, KeyOf, Apart, LoadBalance.Abstract, LoadBalance.Valid, LoadBalance.Hosts;
      var key := Pack(modid, cmdid);
      if key in routeLbMap {
        var lb := routeLbMap[key];
        assert Owns(key);
        AbstractFields(lb);
        ReportOne(key, lb, a, retcode);
        assert Owns(key);
        AbstractFields(lb);
        QueuesHoldHosts(lb);
        var sent, results := lb.Commit();
        if sent {
          reportQueue := reportQueue + [results];
        }
      }
    }

    method ReportOne(key: UInt64, lb: LoadBalance, a: Address, retcode: int)
      requires Valid() && key in routeLbMap && routeLbMap[key] == lb
      requires KeyOf(a) !in Queues(key).freed
      modifies lb, lb.Hosts()
      ensures Valid()
      ensures forall k :: k in routeLbMap && k != key ==> Queues(k) == old(Queues(k))
      ensures Queues(key) == ReportTo(cfg, old(Queues(key)), a, retcode == RET_SUCC)
    {
      hide Pack, ReportTo, LoadBalance.Abstract, LoadBalance.Valid, LoadBalance.Hosts;
      assert Owns(key);
      AbstractFields(lb);
      lb.Report(a, retcode);
      assert forall k :: k in routeLbMap && k != key ==> old(Owns(k));
    }
  }
}
