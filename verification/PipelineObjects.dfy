/**
  The objects of the binding pipeline as the code has them: the cache, the reconciler that writes
  it, and the subnet manager's event loop. Each method is one step of BindingPipeline.
 */
module PipelineObjects {
  import opened Text
  import opened Bindings
  import opened BindingPipeline

  class BindingIPCache {
    var data: map<string, Info>

    constructor ()
      ensures data == map[]
    {
      data := map[];
    }

    method Add(name: string, info: Info)
      modifies this
      ensures data == old(data)[name := info]
    {
      data := data[name := info];
    }

    method Delete(name: string)
      modifies this
      ensures data == old(data) - {name}
    {
      data := data - {name};
    }

    method Get(name: string) returns (r: Option<Info>)
      ensures r == if name in data then Some(data[name]) else None
    {
      if name in data {
        return Some(data[name]);
      }
      return None;
    }

    /** GetInfoForSubnet: the cached bindings of one subnet, each once, in the order the map yields them. */
    method GetInfoForSubnet(subnet: string) returns (result: seq<Info>)
      ensures exists order :: Lists(data, subnet, order) && result == Loaded(data, order)
    {
      result := [];
      ghost var order: seq<string> := [];
      var todo := data.Keys;
      while todo != {}
        invariant todo <= data.Keys
        invariant forall i :: 0 <= i < |order| ==> order[i] in data && order[i] !in todo && data[order[i]].subnet == subnet
        invariant forall i, j :: 0 <= i < j < |order| ==> order[i] != order[j]
        invariant forall n :: n in data && n !in todo && data[n].subnet == subnet ==> n in order
        invariant result == Loaded(data, order)
        decreases |todo|
      {
        var n :| n in todo;
        todo := todo - {n};
        if data[n].subnet != subnet {
          continue;
        }
        order := order + [n];
        result := result + [data[n]];
      }
      assert Lists(data, subnet, order);
    }
  }

  class BindingIPController {
    const cache: BindingIPCache
    var addedBindingIp: seq<Info>
    var deletedBindingIp: seq<Info>

    constructor (cache: BindingIPCache)
      ensures this.cache == cache && addedBindingIp == [] && deletedBindingIp == []
    {
      this.cache := cache;
      addedBindingIp, deletedBindingIp := [], [];
    }

    /** What the reconciler shares with the rest of the pipeline, put into a pipeline state. */
    function Into(st: State): State
      reads this, cache
    {
      st.(cache := cache.data, addCh := addedBindingIp, delCh := deletedBindingIp)
    }

    /** processBindingIP is the step Observe. */
    method ProcessBindingIP(name: string, info: Info)
      modifies this`addedBindingIp, cache
      ensures forall st: State :: Into(st) == Observed(old(Into(st)), name, info).(seen := st.seen)
      ensures cache.data == old(cache.data)[name := info] && deletedBindingIp == old(deletedBindingIp)
      ensures var same := && name in old(cache.data)
                          && old(cache.data)[name].subnet == info.subnet
                          && old(cache.data)[name].ip == info.ip
                          && EqualFold(old(cache.data)[name].mac, info.mac);
              addedBindingIp == if same then old(addedBindingIp) else old(addedBindingIp) + [info]
    {
      var oldData := cache.Get(name);
      if oldData.None? {
        cache.Add(name, info);
        addedBindingIp := addedBindingIp + [info];
      } else {
        var was := oldData.value;
        if was.ip != info.ip || !EqualFold(was.mac, info.mac) || was.subnet != info.subnet {
          cache.Add(name, info);
          addedBindingIp := addedBindingIp + [info];
        } else if was != info {
          cache.Add(name, info);
        } else {
          assert cache.data == cache.data[name := info];
        }
      }
    }

    /** The branch of Reconcile for an object that is gone is the step Forget. */
    method ForgetBindingIP(name: string)
      modifies this`deletedBindingIp, cache
      ensures forall st: State :: Into(st) == Forgotten(old(Into(st)), name)
      ensures cache.data == old(cache.data) - {name} && addedBindingIp == old(addedBindingIp)
      ensures name !in old(cache.data) ==> deletedBindingIp == old(deletedBindingIp)
      ensures name in old(cache.data) ==>
                var b := old(cache.data)[name];
                deletedBindingIp == old(deletedBindingIp) + [Info(b.subnet, b.ip, b.mac, false, b.hostname)]
    {
      var data := cache.Get(name);
      if data.Some? {
        cache.Delete(name);
        deletedBindingIp := deletedBindingIp + [Info(data.value.subnet, data.value.ip, data.value.mac, false, data.value.hostname)];
      }
    }
  }

  class EventRouter {
    var addedBindingIp: seq<Info>
    var deletedBindingIp: seq<Info>
    var addRetry: multiset<Info>
    var delRetry: multiset<Info>
    var dhcpServerList: map<string, Server>

    function Into(st: State): State
      reads this
    {
      st.(addCh := addedBindingIp, delCh := deletedBindingIp, addRetry := addRetry, delRetry := delRetry, servers := dhcpServerList)
    }

    /** processBindingIpEvents, adding branch, is the step RouteAdd. */
    method RouteAdded()
      requires addedBindingIp != []
      modifies this
      ensures forall st: State :: Into(st) == RoutedAdd(old(Into(st)))
      ensures addedBindingIp == old(addedBindingIp)[1..] && deletedBindingIp == old(deletedBindingIp) && delRetry == old(delRetry)
      ensures var e := old(addedBindingIp)[0];
              if e.subnet == "" then addRetry == old(addRetry) && dhcpServerList == old(dhcpServerList)
              else if e.subnet !in old(dhcpServerList) then
                addRetry == old(addRetry) + multiset{e} && dhcpServerList == old(dhcpServerList)
              else
                && addRetry == old(addRetry) && dhcpServerList.Keys == old(dhcpServerList).Keys
                && dhcpServerList[e.subnet] == old(dhcpServerList)[e.subnet].(addQ := old(dhcpServerList)[e.subnet].addQ + [e])
                && forall s :: s in dhcpServerList && s != e.subnet ==> dhcpServerList[s] == old(dhcpServerList)[s]
    {
      var event := addedBindingIp[0];
      addedBindingIp := addedBindingIp[1..];
      if event.subnet == "" {
        return;
      }
      if event.subnet !in dhcpServerList {
        addRetry := addRetry + multiset{event};
      } else {
        var c := dhcpServerList[event.subnet];
        dhcpServerList := dhcpServerList[event.subnet := c.(addQ := c.addQ + [event])];
      }
    }

    /** processBindingIpEvents, deleting branch, is the step RouteDel. */
    method RouteDeleted()
      requires deletedBindingIp != []
      modifies this
      ensures forall st: State :: Into(st) == RoutedDel(old(Into(st)))
      ensures deletedBindingIp == old(deletedBindingIp)[1..] && addedBindingIp == old(addedBindingIp) && addRetry == old(addRetry)
      ensures var e := old(deletedBindingIp)[0];
              if e.subnet == "" then delRetry == old(delRetry) && dhcpServerList == old(dhcpServerList)
              else if e.subnet !in old(dhcpServerList) then
                delRetry == old(delRetry) + multiset{e} && dhcpServerList == old(dhcpServerList)
              else
                && delRetry == old(delRetry) && dhcpServerList.Keys == old(dhcpServerList).Keys
                && dhcpServerList[e.subnet] == old(dhcpServerList)[e.subnet].(delQ := old(dhcpServerList)[e.subnet].delQ + [e])
                && forall s :: s in dhcpServerList && s != e.subnet ==> dhcpServerList[s] == old(dhcpServerList)[s]
    {
      var event := deletedBindingIp[0];
      deletedBindingIp := deletedBindingIp[1..];
      if event.subnet == "" {
        return;
      }
      if event.subnet !in dhcpServerList {
        delRetry := delRetry + multiset{event};
      } else {
        var c := dhcpServerList[event.subnet];
        dhcpServerList := dhcpServerList[event.subnet := c.(delQ := c.delQ + [event])];
      }
    }
  }
}
