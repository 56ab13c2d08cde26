/**
  The subnet controller: a cache of specs beside the registered DHCP servers. A reconcile and the
  start-up of a new leader are each one step; whether a server starts, and whether the API server
  answers, is decided from outside.
 */
module SubnetController {
  import opened Text
  import opened Bindings
  import BindingPipeline
  import opened PipelineObjects

  /** The parts of a Subnet's spec do not matter here, only whether two specs are equal. */
  type Spec = string

  /** A server object: its identity, the Subnet it serves, and the binding events it was handed when it was started. */
  datatype Instance = Instance(id: nat, spec: Spec, loaded: seq<Info>)

  /** What the API server says about one name. */
  datatype Fetched = NotFound | Failed | Found(spec: Spec)

  datatype Item = Item(name: string, spec: Spec, deleting: bool)

  datatype Outcome = Done | Requeue

  /**
    The controller's state. `monitors` and `workers` are the servers whose monitor, respectively
    status worker, is running; `failures` counts the starts that failed; `next` numbers servers.
   */
  datatype Controller = Controller(
    cache: map<string, Spec>,
    servers: map<string, Instance>,
    monitors: set<nat>,
    workers: set<nat>,
    failures: nat,
    next: nat)

  const Fresh := Controller(map[], map[], {}, {}, 0, 0)

  // ---- the steps as functions ----

  /** NewDhcpServer and Run: the status worker starts first, the monitor only when dnsmasq did. */
  function Start(c: Controller, name: string, spec: Spec, runOk: bool, load: seq<Info>): Controller
  {
    var made := c.(next := c.next + 1, workers := c.workers + {c.next});
    if runOk then
      made.(monitors := c.monitors + {c.next}, servers := c.servers[name := Instance(c.next, spec, load)])
    else
      made.(failures := c.failures + 1)
  }

  /** Stop and removal from the list. */
  function Remove(c: Controller, name: string): Controller
  {
    if name in c.servers then
      var id := c.servers[name].id;
      c.(cache := c.cache - {name}, servers := c.servers - {name}, monitors := c.monitors - {id}, workers := c.workers - {id})
    else c.(cache := c.cache - {name})
  }

  /** UpdateService: the registered server is handed the new spec, which is then cached. */
  function Served(c: Controller, name: string, spec: Spec): Controller
    requires name in c.servers
  {
    c.(servers := c.servers[name := c.servers[name].(spec := spec)], cache := c.cache[name := spec])
  }

  /** `load` is what the binding cache lists for the Subnet; only a server that this reconcile starts is handed it. */
  function Reconciled(c: Controller, name: string, got: Fetched, runOk: bool, load: seq<Info>): Controller
  {
    match got
    case NotFound => Remove(c, name)
    case Failed => c
    case Found(spec) =>
      if name in c.cache && c.cache[name] == spec then c
      else if name in c.servers then Served(c, name, spec)
      else
        var started := Start(c, name, spec, runOk, load);
        if runOk then started.(cache := c.cache[name := spec]) else started
  }

  /** The new leader starts a server, without handing it any binding, for every listed Subnet that has none and is not being deleted. */
  function Led(c: Controller, items: seq<Item>, runOk: seq<bool>): Controller
    requires |items| == |runOk|
  {
    if items == [] then c
    else
      var n := |items| - 1;
      var before := Led(c, items[..n], runOk[..n]);
      if items[n].deleting || items[n].name in before.servers then before
      else Start(before, items[n].name, items[n].spec, runOk[n], [])
  }

  /** The first listed Subnet of the name that is not being deleted and whose server starts. */
  predicate Starts(items: seq<Item>, runOk: seq<bool>, name: string, i: nat)
    requires |items| == |runOk| && i < |items|
  {
    items[i].name == name && !items[i].deleting && runOk[i]
  }

  predicate FirstStarted(items: seq<Item>, runOk: seq<bool>, name: string, i: int)
    requires |items| == |runOk|
  {
    0 <= i < |items| && Starts(items, runOk, name, i) && forall j :: 0 <= j < i ==> !Starts(items, runOk, name, j)
  }

  /** What the leader's start does to one name. */
  lemma {:induction false} LedName(c: Controller, items: seq<Item>, runOk: seq<bool>, n: string)
    requires |items| == |runOk|
    ensures var c' := Led(c, items, runOk);
            && c'.cache == c.cache
            && (n in c.servers ==> n in c'.servers && c'.servers[n] == c.servers[n])
            && (n !in c.servers && n in c'.servers ==> exists i :: FirstStarted(items, runOk, n, i))
            && (n !in c.servers ==> forall i :: FirstStarted(items, runOk, n, i) ==>
                  n in c'.servers && c'.servers[n].spec == items[i].spec && c'.servers[n].loaded == [])
  {
    if items != [] {
      var k := |items| - 1;
      LedName(c, items[..k], runOk[..k], n);
      forall i | FirstStarted(items[..k], runOk[..k], n, i)
        ensures FirstStarted(items, runOk, n, i)
      {
        StartsEarlier(items, runOk, n, i);
      }
      forall i | FirstStarted(items, runOk, n, i) && i < k
        ensures FirstStarted(items[..k], runOk[..k], n, i)
      {
        StartsEarlier(items, runOk, n, i);
      }
      if n !in c.servers && n !in Led(c, items[..k], runOk[..k]).servers && Starts(items, runOk, n, k) {
        NoneBefore(items, runOk, n, items[..k], runOk[..k]);
      }
    }
  }

  lemma StartsEarlier(items: seq<Item>, runOk: seq<bool>, n: string, i: int)
    requires |items| == |runOk| > 0 && 0 <= i < |items| - 1
    ensures FirstStarted(items[..|items| - 1], runOk[..|items| - 1], n, i) <==> FirstStarted(items, runOk, n, i)
  {
    var k := |items| - 1;
    assert forall j :: 0 <= j < k ==> Starts(items[..k], runOk[..k], n, j) == Starts(items, runOk, n, j);
  }

  /** If nothing started for the name before, the last item is the first to start. */
  lemma NoneBefore(items: seq<Item>, runOk: seq<bool>, n: string, front: seq<Item>, frontOk: seq<bool>)
    requires |items| == |runOk| > 0 && Starts(items, runOk, n, |items| - 1)
    requires front == items[..|items| - 1] && frontOk == runOk[..|items| - 1]
    requires forall i :: !FirstStarted(front, frontOk, n, i)
    ensures FirstStarted(items, runOk, n, |items| - 1)
  {
    var k := |items| - 1;
    if j :| 0 <= j < k && Starts(items, runOk, n, j) {
      LeastStart(front, frontOk, n, j);
      assert false;
    }
  }

  lemma {:induction false} LeastStart(items: seq<Item>, runOk: seq<bool>, n: string, j: nat)
    requires |items| == |runOk| && j < |items| && Starts(items, runOk, n, j)
    ensures exists i :: FirstStarted(items, runOk, n, i)
    decreases j
  {
    if i :| 0 <= i < j && Starts(items, runOk, n, i) {
      LeastStart(items, runOk, n, i);
    } else {
      assert FirstStarted(items, runOk, n, j);
    }
  }

  lemma LedIs(c: Controller, items: seq<Item>, runOk: seq<bool>)
    requires |items| == |runOk|
    ensures var c' := Led(c, items, runOk);
            && c'.cache == c.cache
            && (forall n :: n in c.servers ==> n in c'.servers && c'.servers[n] == c.servers[n])
            && (forall n :: n !in c.servers ==> (n in c'.servers <==> exists i :: FirstStarted(items, runOk, n, i)))
            && (forall n, i :: n !in c.servers && FirstStarted(items, runOk, n, i) ==>
                  n in c'.servers && c'.servers[n].spec == items[i].spec && c'.servers[n].loaded == [])
  {
    var c' := Led(c, items, runOk);
    LedName(c, items, runOk, "");
    forall n
      ensures n in c.servers ==> n in c'.servers && c'.servers[n] == c.servers[n]
      ensures n !in c.servers ==> (n in c'.servers <==> exists i :: FirstStarted(items, runOk, n, i))
      ensures n !in c.servers ==> forall i :: FirstStarted(items, runOk, n, i) ==>
                n in c'.servers && c'.servers[n].spec == items[i].spec && c'.servers[n].loaded == []
    {
      LedName(c, items, runOk, n);
    }
  }

  /** GetInfoForSubnet lists the cached bindings of a Subnet in some order of the map. */
  ghost predicate IsLoad(cache: map<string, Info>, name: string, load: seq<Info>)
  {
    exists order :: BindingPipeline.Lists(cache, name, order) && load == BindingPipeline.Loaded(cache, order)
  }

  // ---- the objects ----

  class SubnetCache {
    var subnets: map<string, Spec>

    constructor ()
      ensures subnets == map[]
    {
      subnets := map[];
    }

    method Set(name: string, spec: Spec)
      modifies this
      ensures subnets == old(subnets)[name := spec]
    {
      subnets := subnets[name := spec];
    }

    method Delete(name: string)
      modifies this
      ensures subnets == old(subnets) - {name}
    {
      subnets := subnets - {name};
    }

    function HasSpecChanged(name: string, spec: Spec): (changed: bool)
      reads this
      ensures !changed <==> name in subnets && subnets[name] == spec
    {
      name !in subnets || subnets[name] != spec
    }
  }

  class SubnetManager {
    const cache: SubnetCache
    var dhcpServerList: map<string, Instance>
    var monitors: set<nat>
    var workers: set<nat>
    var failures: nat
    var next: nat

    function State(): Controller
      reads this, cache
    {
      Controller(cache.subnets, dhcpServerList, monitors, workers, failures, next)
    }

    constructor ()
      ensures State() == Fresh
      ensures fresh(cache)
    {
      cache := new SubnetCache();
      dhcpServerList := map[];
      monitors, workers, failures, next := {}, {}, 0, 0;
    }

    method Run(name: string, spec: Spec, runOk: bool)
      modifies this
      ensures State() == Start(old(State()), name, spec, runOk, [])
    {
      var id := next;
      next := next + 1;
      workers := workers + {id};
      if runOk {
        monitors := monitors + {id};
        dhcpServerList := dhcpServerList[name := Instance(id, spec, [])];
      } else {
        failures := failures + 1;
      }
    }

    /** Reconcile; `statusOk` is whether a failure can be written to the object's status. */
    method Reconcile(bindings: BindingIPCache, name: string, got: Fetched, runOk: bool, statusOk: bool)
      returns (res: Outcome, ghost load: seq<Info>)
      modifies this, cache
      ensures State() == Reconciled(old(State()), name, got, runOk, load)
      ensures name !in old(dhcpServerList) && name in dhcpServerList ==> IsLoad(bindings.data, name, load)
      ensures got == NotFound ==> name !in cache.subnets && name !in dhcpServerList
      ensures got == Failed ==> State() == old(State()) && res == Requeue
      ensures got.Found? && old(Sound(State())) && (name in old(dhcpServerList) || runOk) ==>
                && name in cache.subnets && cache.subnets[name] == got.spec
                && name in dhcpServerList && dhcpServerList[name].spec == got.spec
      ensures got.Found? && name in old(dhcpServerList) ==>
                && name in dhcpServerList && next == old(next)
                && dhcpServerList[name].id == old(dhcpServerList)[name].id
                && dhcpServerList[name].loaded == old(dhcpServerList)[name].loaded
      ensures name !in old(dhcpServerList) && name in dhcpServerList ==>
                dhcpServerList[name] == Instance(old(next), got.spec, load) && next == old(next) + 1
      ensures got.Found? && old(Sound(State())) && name !in old(dhcpServerList) && !runOk ==>
                dhcpServerList == old(dhcpServerList) && cache.subnets == old(cache.subnets) && monitors == old(monitors)
      ensures forall n :: n != name ==>
                && (n in dhcpServerList <==> n in old(dhcpServerList))
                && (n in dhcpServerList ==> dhcpServerList[n] == old(dhcpServerList)[n])
                && (n in cache.subnets <==> n in old(cache.subnets))
                && (n in cache.subnets ==> cache.subnets[n] == old(cache.subnets)[n])
      ensures res == Requeue ==>
                || got == Failed
                || (!runOk && !statusOk && State().failures == old(State()).failures + 1)
    {
      var registered := name in dhcpServerList;
      load := [];
      match got
      case NotFound =>
        cache.Delete(name);
        if registered {
          var id := dhcpServerList[name].id;
          monitors := monitors - {id};
          workers := workers - {id};
          dhcpServerList := dhcpServerList - {name};
        }
        return Done, load;
      case Failed =>
        return Requeue, load;
      case Found(spec) =>
        if cache.HasSpecChanged(name, spec) {
          if !registered {
            Run(name, spec, runOk);
            if !runOk {
              return if statusOk then Done else Requeue, load;
            }
            cache.Set(name, spec);
            var bindingIPInfoList := bindings.GetInfoForSubnet(name);
            load := bindingIPInfoList;
            if |bindingIPInfoList| > 0 {
              dhcpServerList := dhcpServerList[name := dhcpServerList[name].(loaded := bindingIPInfoList)];
            }
          } else {
            dhcpServerList := dhcpServerList[name := dhcpServerList[name].(spec := spec)];
            cache.Set(name, spec);
          }
        }
        return Done, load;
    }

    /** The start-up of SetupWithManager, once elected. */
    method LeaderStart(items: seq<Item>, runOk: seq<bool>)
      requires |items| == |runOk|
      modifies this
      ensures State() == Led(old(State()), items, runOk)
      ensures cache.subnets == old(cache.subnets)
      ensures forall n :: n in old(dhcpServerList) ==> n in dhcpServerList && dhcpServerList[n] == old(dhcpServerList)[n]
      ensures forall n :: n !in old(dhcpServerList) ==> (n in dhcpServerList <==> exists i :: FirstStarted(items, runOk, n, i))
      ensures forall n, i :: n !in old(dhcpServerList) && FirstStarted(items, runOk, n, i) ==>
                n in dhcpServerList && dhcpServerList[n].spec == items[i].spec && dhcpServerList[n].loaded == []
    {
      ghost var was := State();
      LedIs(was, items, runOk);
      for k := 0 to |items|
        invariant State() == Led(was, items[..k], runOk[..k])
      {
        assert items[..k + 1][..k] == items[..k] && runOk[..k + 1][..k] == runOk[..k];
        if !items[k].deleting {
          if items[k].name !in dhcpServerList {
            Run(items[k].name, items[k].spec, runOk[k]);
          }
        }
      }
      assert items[..|items|] == items && runOk[..|items|] == runOk;
    }
  }

  // ---- runs ----

  datatype Step =
    | Reconcile(name: string, got: Fetched, runOk: bool, load: seq<Info>)
    | Lead(items: seq<Item>, starts: seq<bool>)

  predicate Enabled(step: Step)
  {
    step.Lead? ==> |step.items| == |step.starts|
  }

  function Next(c: Controller, step: Step): Controller
    requires Enabled(step)
  {
    match step
    case Reconcile(name, got, runOk, load) => Reconciled(c, name, got, runOk, load)
    case Lead(items, starts) => Led(c, items, starts)
  }

  predicate IsRun(states: seq<Controller>, steps: seq<Step>)
  {
    && |states| == |steps| + 1
    && states[0] == Fresh
    && forall i :: 0 <= i < |steps| ==> Enabled(steps[i]) && states[i + 1] == Next(states[i], steps[i])
  }

  /** A cached spec is the spec of the registered server. */
  predicate CacheServed(c: Controller)
  {
    forall n :: n in c.cache ==> n in c.servers && c.servers[n].spec == c.cache[n]
  }

  /** The running monitors are those of the registered servers, one per name. */
  predicate MonitorsRegistered(c: Controller)
  {
    && (forall n :: n in c.servers ==> c.servers[n].id in c.monitors)
    && (forall i :: i in c.monitors ==> exists n :: n in c.servers && c.servers[n].id == i)
    && (forall n, m :: n in c.servers && m in c.servers && c.servers[n].id == c.servers[m].id ==> n == m)
    && (forall i :: i in c.monitors ==> i < c.next)
  }

  /** Every running monitor has its status worker; besides, one worker is left behind by each failed start. */
  predicate WorkersCounted(c: Controller)
  {
    && c.monitors <= c.workers
    && |c.workers| == |c.monitors| + c.failures
    && forall i :: i in c.workers ==> i < c.next
  }

  predicate Sound(c: Controller)
  {
    CacheServed(c) && MonitorsRegistered(c) && WorkersCounted(c)
  }

  lemma StartKeepsRegistered(c: Controller, name: string, spec: Spec, load: seq<Info>)
    requires MonitorsRegistered(c) && name !in c.servers
    ensures MonitorsRegistered(Start(c, name, spec, true, load))
  {
    var c' := Start(c, name, spec, true, load);
    assert c.next !in c.monitors;
    forall i | i in c'.monitors
      ensures exists n :: n in c'.servers && c'.servers[n].id == i
    {
      if i in c.monitors {
        var n :| n in c.servers && c.servers[n].id == i;
        assert n in c'.servers && c'.servers[n].id == i;
      } else {
        assert c'.servers[name].id == i;
      }
    }
  }

  lemma StartKeepsCounted(c: Controller, name: string, spec: Spec, runOk: bool, load: seq<Info>)
    requires MonitorsRegistered(c) && WorkersCounted(c)
    ensures WorkersCounted(Start(c, name, spec, runOk, load))
  {
    assert c.next !in c.workers && c.next !in c.monitors;
  }

  lemma StartKeepsSound(c: Controller, name: string, spec: Spec, runOk: bool, load: seq<Info>)
    requires Sound(c) && name !in c.servers
    ensures Sound(Start(c, name, spec, runOk, load))
  {
    StartKeepsCounted(c, name, spec, runOk, load);
    if runOk {
      StartKeepsRegistered(c, name, spec, load);
    }
  }

  lemma RemoveKeepsSound(c: Controller, name: string)
    requires Sound(c)
    ensures Sound(Remove(c, name))
  {
    var c' := Remove(c, name);
    if name in c.servers {
      assert c.servers[name].id in c.monitors && c.servers[name].id in c.workers;
      forall i | i in c'.monitors
        ensures exists n :: n in c'.servers && c'.servers[n].id == i
      {
        var n :| n in c.servers && c.servers[n].id == i;
        assert n in c'.servers && c'.servers[n].id == i;
      }
    }
  }

  lemma ServeKeepsSound(c: Controller, name: string, spec: Spec)
    requires Sound(c) && name in c.servers
    ensures Sound(Served(c, name, spec))
  {
    var c' := Served(c, name, spec);
    assert forall n :: n in c.servers ==> n in c'.servers && c'.servers[n].id == c.servers[n].id;
  }

  lemma CachingKeepsSound(c: Controller, name: string, spec: Spec)
    requires Sound(c) && name in c.servers && c.servers[name].spec == spec
    ensures Sound(c.(cache := c.cache[name := spec]))
  {
  }

  lemma FoundKeepsSound(c: Controller, name: string, spec: Spec, runOk: bool, load: seq<Info>)
    requires Sound(c) && name !in c.servers
    ensures Sound(Reconciled(c, name, Found(spec), runOk, load))
  {
    var started := Start(c, name, spec, runOk, load);
    StartKeepsSound(c, name, spec, runOk, load);
    if runOk {
      CachingKeepsSound(started, name, spec);
      assert Reconciled(c, name, Found(spec), true, load) == started.(cache := started.cache[name := spec]);
    } else {
      assert Reconciled(c, name, Found(spec), false, load) == started;
    }
  }

  lemma ReconciledKeepsSound(c: Controller, name: string, got: Fetched, runOk: bool, load: seq<Info>)
    requires Sound(c)
    ensures Sound(Reconciled(c, name, got, runOk, load))
  {
    if got.NotFound? {
      RemoveKeepsSound(c, name);
    } else if got.Found? && !(name in c.cache && c.cache[name] == got.spec) {
      if name in c.servers {
        ServeKeepsSound(c, name, got.spec);
        assert Reconciled(c, name, got, runOk, load) == Served(c, name, got.spec);
      } else {
        FoundKeepsSound(c, name, got.spec, runOk, load);
        assert got == Found(got.spec);
      }
    } else {
      assert Reconciled(c, name, got, runOk, load) == c;
    }
  }

  lemma {:induction false} LedKeepsSound(c: Controller, items: seq<Item>, starts: seq<bool>)
    requires |items| == |starts| && Sound(c)
    ensures Sound(Led(c, items, starts))
  {
    if items != [] {
      var n := |items| - 1;
      LedKeepsSound(c, items[..n], starts[..n]);
      var before := Led(c, items[..n], starts[..n]);
      if !items[n].deleting && items[n].name !in before.servers {
        StartKeepsSound(before, items[n].name, items[n].spec, starts[n], []);
      }
    }
  }

  /** Over every run: a cached spec implies a registered server holding exactly that spec, the running monitors are exactly those of the registered servers, and each failed start has left one status worker behind. */
  lemma {:induction false} EveryStateIsSound(states: seq<Controller>, steps: seq<Step>, k: nat)
    requires IsRun(states, steps) && k < |states|
    ensures Sound(states[k])
  {
    if k > 0 {
      EveryStateIsSound(states, steps, k - 1);
      assert states[k] == Next(states[k - 1], steps[k - 1]);
      match steps[k - 1]
      case Reconcile(name, got, runOk, load) => ReconciledKeepsSound(states[k - 1], name, got, runOk, load);
      case Lead(items, starts) => LedKeepsSound(states[k - 1], items, starts);
    }
  }

  /** Reconciling an unchanged object again does nothing exactly when the first time its server started or was registered already. */
  lemma RepeatDoesNothing(c: Controller, name: string, spec: Spec, first: bool, second: bool, load: seq<Info>, again: seq<Info>)
    requires Sound(c)
    ensures var c1 := Reconciled(c, name, Found(spec), first, load);
            Reconciled(c1, name, Found(spec), second, again) == c1 <==> first || name in c.servers
  {
  }

  // ---- the spec that is served ----

  /** A find that reaches a server: one is registered, or one is started. */
  predicate Finds(c: Controller, step: Step, name: string)
  {
    step.Reconcile? && step.name == name && step.got.Found? && (name in c.servers || step.runOk)
  }

  predicate Serves(c: Controller, name: string, spec: Spec)
  {
    name in c.cache && c.cache[name] == spec && name in c.servers && c.servers[name].spec == spec
  }

  lemma FindServes(c: Controller, step: Step, name: string)
    requires Sound(c) && Enabled(step) && Finds(c, step, name)
    ensures Serves(Next(c, step), name, step.got.spec)
    ensures name in c.servers ==> Next(c, step).servers[name].id == c.servers[name].id
  {
  }

  lemma OtherStepKeeps(c: Controller, step: Step, name: string, spec: Spec)
    requires Enabled(step) && Serves(c, name, spec)
    requires step.Reconcile? && step.name == name ==> step.got == Failed
    ensures Serves(Next(c, step), name, spec) && Next(c, step).servers[name].id == c.servers[name].id
  {
    if step.Lead? {
      LedName(c, step.items, step.starts, name);
    }
  }

  /** Over every run: from a find that reaches a server until the object is found again or found missing, cache and server hold the spec found, and it is the same server throughout, whatever fails or is led in between. */
  lemma {:induction false} LastFoundIsServed(states: seq<Controller>, steps: seq<Step>, k: nat, m: nat, name: string)
    requires IsRun(states, steps) && k < m < |states| && Finds(states[k], steps[k], name)
    requires forall i :: k < i < m && steps[i].Reconcile? && steps[i].name == name ==> steps[i].got == Failed
    ensures Serves(states[m], name, steps[k].got.spec)
    ensures name in states[k].servers ==> states[m].servers[name].id == states[k].servers[name].id
    decreases m
  {
    if m == k + 1 {
      EveryStateIsSound(states, steps, k);
      FindServes(states[k], steps[k], name);
    } else {
      LastFoundIsServed(states, steps, k, m - 1, name);
      OtherStepKeeps(states[m - 1], steps[m - 1], name, steps[k].got.spec);
    }
  }

  // ---- deletion ----

  /** The step registers a server for the name only if it finds the object, or lists it as not being deleted. */
  predicate Offers(step: Step, name: string)
  {
    match step
    case Reconcile(n, got, _, _) => n == name && got.Found?
    case Lead(items, _) => exists i :: 0 <= i < |items| && items[i].name == name && !items[i].deleting
  }

  /** No old server comes back: numbers only grow, and what runs afterwards ran before or is new. */
  predicate NoneReturns(c: Controller, c': Controller)
  {
    && c.next <= c'.next
    && (forall i :: i in c'.monitors && i < c.next ==> i in c.monitors)
    && (forall i :: i in c'.workers && i < c.next ==> i in c.workers)
  }

  lemma {:induction false} LedReturnsNone(c: Controller, items: seq<Item>, starts: seq<bool>)
    requires |items| == |starts|
    ensures NoneReturns(c, Led(c, items, starts))
  {
    if items != [] {
      LedReturnsNone(c, items[..|items| - 1], starts[..|items| - 1]);
    }
  }

  lemma StepReturnsNone(c: Controller, step: Step)
    requires Enabled(step)
    ensures NoneReturns(c, Next(c, step))
  {
    if step.Lead? {
      LedReturnsNone(c, step.items, step.starts);
    }
  }

  lemma {:induction false} LedLeavesOut(c: Controller, items: seq<Item>, starts: seq<bool>, name: string)
    requires |items| == |starts| && name !in c.cache && name !in c.servers
    requires forall i :: 0 <= i < |items| && items[i].name == name ==> items[i].deleting
    ensures name !in Led(c, items, starts).cache && name !in Led(c, items, starts).servers
  {
    if items != [] {
      LedLeavesOut(c, items[..|items| - 1], starts[..|items| - 1], name);
    }
  }

  lemma StepLeavesOut(c: Controller, step: Step, name: string)
    requires Enabled(step) && !Offers(step, name) && name !in c.cache && name !in c.servers
    ensures name !in Next(c, step).cache && name !in Next(c, step).servers
  {
    if step.Lead? {
      LedLeavesOut(c, step.items, step.starts, name);
    }
  }

  lemma RemoveKeepsOthers(c: Controller, name: string)
    requires Sound(c)
    ensures forall n :: n in c.servers && n != name ==>
              n in Remove(c, name).servers && Remove(c, name).servers[n] == c.servers[n] && c.servers[n].id in Remove(c, name).monitors
  {
  }

  /** The server that a deletion has stopped never runs again in any later state, neither its monitor nor its status worker. */
  lemma {:induction false} DeletedServerStaysStopped(states: seq<Controller>, steps: seq<Step>, k: nat, m: nat, name: string)
    requires IsRun(states, steps) && k < m < |states|
    requires steps[k].Reconcile? && steps[k].name == name && steps[k].got == NotFound && name in states[k].servers
    ensures states[k].servers[name].id < states[m].next
    ensures states[k].servers[name].id !in states[m].monitors && states[k].servers[name].id !in states[m].workers
    decreases m
  {
    var c, id := states[k], states[k].servers[name].id;
    if m == k + 1 {
      EveryStateIsSound(states, steps, k);
      assert id in c.monitors;
      assert states[m] == Remove(c, name);
    } else {
      DeletedServerStaysStopped(states, steps, k, m - 1, name);
      assert states[m] == Next(states[m - 1], steps[m - 1]);
      StepReturnsNone(states[m - 1], steps[m - 1]);
    }
  }

  /** After a deletion the Subnet is in neither cache nor list, in every state until the object is found or listed again; the other Subnets' servers go on running. */
  lemma {:induction false} DeletionLeavesNothing(states: seq<Controller>, steps: seq<Step>, k: nat, m: nat, name: string)
    requires IsRun(states, steps) && k < m < |states|
    requires steps[k].Reconcile? && steps[k].name == name && steps[k].got == NotFound
    requires forall i :: k < i < m ==> !Offers(steps[i], name)
    ensures name !in states[m].cache && name !in states[m].servers
    ensures forall n :: n in states[k].servers && n != name ==>
              n in states[k + 1].servers && states[k + 1].servers[n] == states[k].servers[n] && states[k].servers[n].id in states[k + 1].monitors
    decreases m
  {
    if m == k + 1 {
      assert states[m] == Remove(states[k], name);
      EveryStateIsSound(states, steps, k);
      RemoveKeepsOthers(states[k], name);
    } else {
      DeletionLeavesNothing(states, steps, k, m - 1, name);
      assert states[m] == Next(states[m - 1], steps[m - 1]);
      StepLeavesOut(states[m - 1], steps[m - 1], name);
    }
  }
}
