/**
  The binding pipeline as a state machine. The reconciler writes the cache and sends on two
  channels; the subnet manager routes each event to its server or puts it aside for a retry; a
  server started by the subnet reconciler is loaded from the cache; each server applies its own
  two queues to its table. Every reconcile and every branch of a select is one step.
 */
module BindingPipeline {
  import opened Text
  import opened Bindings

  datatype Server = Server(addQ: seq<Info>, delQ: seq<Info>, table: map<string, Client>)

  /** Waiting for leadership; servers started by the leader; events being routed. */
  datatype Phase = Waiting | Started | Routing

  datatype State = State(
    cache: map<string, Info>,
    addCh: seq<Info>,
    delCh: seq<Info>,
    addRetry: multiset<Info>,
    delRetry: multiset<Info>,
    servers: map<string, Server>,
    phase: Phase,
    seen: set<Info>)  // history: everything that was ever cached

  datatype Step =
    | Observe(name: string, info: Info)
    | Forget(name: string)
    | LeaderStart(names: set<string>)
    | StartRouting
    | StartServer(subnet: string, order: seq<string>)
    | StopServer(subnet: string)
    | RouteAdd
    | RouteDel
    | RetryAdd(event: Info)
    | RetryDel(event: Info)
    | ApplyAdd(subnet: string)
    | ApplyDel(subnet: string)

  const Init := State(map[], [], [], multiset{}, multiset{}, map[], Waiting, {})

  const Idle := Server([], [], map[])

  /** `order` lists the cached bindings of the subnet, each once: some iteration order of the map. */
  predicate Lists(cache: map<string, Info>, subnet: string, order: seq<string>)
  {
    && (forall i :: 0 <= i < |order| ==> order[i] in cache && cache[order[i]].subnet == subnet)
    && (forall i, j :: 0 <= i < j < |order| ==> order[i] != order[j])
    && (forall n :: n in cache && cache[n].subnet == subnet ==> n in order)
  }

  function Loaded(cache: map<string, Info>, order: seq<string>): (q: seq<Info>)
    requires forall i :: 0 <= i < |order| ==> order[i] in cache
    ensures |q| == |order|
    ensures forall i :: 0 <= i < |order| ==> q[i] == cache[order[i]]
  {
    seq(|order|, i requires 0 <= i < |order| => cache[order[i]])
  }

  predicate Enabled(st: State, step: Step)
  {
    match step
    case Observe(name, info) => true
    case Forget(name) => true
    case LeaderStart(names) => st.phase == Waiting && "" !in names
    case StartRouting => st.phase == Started
    case StartServer(subnet, order) => subnet != "" && subnet !in st.servers && Lists(st.cache, subnet, order)
    case StopServer(subnet) => subnet in st.servers
    case RouteAdd => st.phase == Routing && st.addCh != []
    case RouteDel => st.phase == Routing && st.delCh != []
    case RetryAdd(event) => event in st.addRetry
    case RetryDel(event) => event in st.delRetry
    case ApplyAdd(subnet) => subnet in st.servers && st.servers[subnet].addQ != []
    case ApplyDel(subnet) => subnet in st.servers && st.servers[subnet].delQ != []
  }

  function Next(st: State, step: Step): State
    requires Enabled(st, step)
  {
    match step
    case Observe(name, info) => Observed(st, name, info)
    case Forget(name) => Forgotten(st, name)
    case LeaderStart(names) => Led(st, names)
    case StartRouting => st.(phase := Routing)
    case StartServer(subnet, order) => Opened(st, subnet, order)
    case StopServer(subnet) => st.(servers := st.servers - {subnet})
    case RouteAdd => RoutedAdd(st)
    case RouteDel => RoutedDel(st)
    case RetryAdd(event) => RetriedAdd(st, event)
    case RetryDel(event) => RetriedDel(st, event)
    case ApplyAdd(subnet) => AppliedAdd(st, subnet)
    case ApplyDel(subnet) => AppliedDel(st, subnet)
  }

  /** The leader starts servers that are empty: nothing is loaded from the cache. */
  function Led(st: State, names: set<string>): State
  {
    st.(servers := (map s | s in names - st.servers.Keys :: Idle) + st.servers, phase := Started)
  }

  /** The subnet reconciler starts a server and loads it with what is cached for the subnet. */
  function Opened(st: State, subnet: string, order: seq<string>): State
    requires forall i :: 0 <= i < |order| ==> order[i] in st.cache
  {
    st.(servers := st.servers[subnet := Server(Loaded(st.cache, order), [], map[])])
  }

  function RetriedAdd(st: State, event: Info): State
  {
    st.(addRetry := st.addRetry - multiset{event}, addCh := st.addCh + [event])
  }

  function RetriedDel(st: State, event: Info): State
  {
    st.(delRetry := st.delRetry - multiset{event}, delCh := st.delCh + [event])
  }

  function AppliedAdd(st: State, subnet: string): State
    requires subnet in st.servers && st.servers[subnet].addQ != []
  {
    var srv := st.servers[subnet];
    st.(servers := st.servers[subnet := srv.(addQ := srv.addQ[1..], table := Insert(srv.table, srv.addQ[0]))])
  }

  function AppliedDel(st: State, subnet: string): State
    requires subnet in st.servers && st.servers[subnet].delQ != []
  {
    var srv := st.servers[subnet];
    st.(servers := st.servers[subnet := srv.(delQ := srv.delQ[1..], table := Remove(srv.table, srv.delQ[0]))])
  }

  function Observed(st: State, name: string, info: Info): State
  {
    if Announced(st.cache, name, info) then
      st.(cache := st.cache[name := info], addCh := st.addCh + [info], seen := st.seen + {info})
    else
      st.(cache := st.cache[name := info], seen := st.seen + {info})
  }

  function Forgotten(st: State, name: string): State
  {
    if name in st.cache then
      st.(cache := st.cache - {name}, delCh := st.delCh + [Removal(st.cache[name])])
    else st
  }

  /** Events without a subnet are dropped; events for a subnet without a server wait for a retry. */
  function RoutedAdd(st: State): State
    requires st.addCh != []
  {
    var e := st.addCh[0];
    var rest := st.(addCh := st.addCh[1..]);
    if e.subnet == "" then rest
    else if e.subnet !in st.servers then rest.(addRetry := st.addRetry + multiset{e})
    else
      var srv := st.servers[e.subnet];
      rest.(servers := st.servers[e.subnet := srv.(addQ := srv.addQ + [e])])
  }

  function RoutedDel(st: State): State
    requires st.delCh != []
  {
    var e := st.delCh[0];
    var rest := st.(delCh := st.delCh[1..]);
    if e.subnet == "" then rest
    else if e.subnet !in st.servers then rest.(delRetry := st.delRetry + multiset{e})
    else
      var srv := st.servers[e.subnet];
      rest.(servers := st.servers[e.subnet := srv.(delQ := srv.delQ + [e])])
  }

  /** The step Observe caches the binding, and sends an event unless the name was cached with the same subnet, IP and folded MAC: reconciling an unchanged object again is silent. */
  lemma ObserveIs(st: State, name: string, info: Info)
    ensures var st' := Next(st, Observe(name, info));
            var same := && name in st.cache
                        && st.cache[name].subnet == info.subnet
                        && st.cache[name].ip == info.ip
                        && EqualFold(st.cache[name].mac, info.mac);
            && st'.cache == st.cache[name := info]
            && st'.addCh == (if same then st.addCh else st.addCh + [info])
            && st'.delCh == st.delCh && st'.addRetry == st.addRetry && st'.delRetry == st.delRetry
            && st'.servers == st.servers && st'.phase == st.phase && st'.seen == st.seen + {info}
  {
  }

  /** Observing the same binding twice in a row sends at most one event. */
  lemma ObserveTwice(st: State, name: string, info: Info)
    ensures var once := Next(st, Observe(name, info));
            Next(once, Observe(name, info)) == once
  {
    var once := Next(st, Observe(name, info));
    assert once.cache[name := info] == once.cache;
    assert once.seen + {info} == once.seen;
  }

  /** Forgetting removes the binding from the cache and sends one removal with its subnet, IP, MAC and host name; an unknown name changes nothing. */
  lemma ForgetIs(st: State, name: string)
    ensures name !in st.cache ==> Next(st, Forget(name)) == st
    ensures name in st.cache ==>
              var st', b := Next(st, Forget(name)), st.cache[name];
              st' == st.(cache := st.cache - {name}, delCh := st.delCh + [Info(b.subnet, b.ip, b.mac, false, b.hostname)])
  {
  }

  /** The leader's start leaves every running server alone and gives each other named Subnet one with empty queues and an empty table. */
  lemma LeaderStartIs(st: State, names: set<string>)
    requires Enabled(st, LeaderStart(names))
    ensures var st' := Next(st, LeaderStart(names));
            && st'.servers.Keys == st.servers.Keys + names && st'.phase == Started
            && (forall s :: s in st.servers ==> st'.servers[s] == st.servers[s])
            && (forall s :: s in names && s !in st.servers ==> st'.servers[s] == Server([], [], map[]))
            && st' == st.(servers := st'.servers, phase := Started)
  {
  }

  // ---- runs ----

  predicate IsRun(states: seq<State>, steps: seq<Step>)
  {
    && |states| == |steps| + 1
    && states[0] == Init
    && forall i :: 0 <= i < |steps| ==> Enabled(states[i], steps[i]) && states[i + 1] == Next(states[i], steps[i])
  }

  // ---- events in flight ----

  predicate PendingAdd(st: State, e: Info)
  {
    || e in st.addCh
    || e in st.addRetry
    || (e.subnet in st.servers && e in st.servers[e.subnet].addQ)
  }

  predicate PendingDel(st: State, e: Info)
  {
    || e in st.delCh
    || e in st.delRetry
    || (e.subnet in st.servers && e in st.servers[e.subnet].delQ)
  }

  ghost predicate AddFor(st: State, k: Key)
  {
    exists e :: PendingAdd(st, e) && KeyOf(e) == k
  }

  ghost predicate DelFor(st: State, k: Key)
  {
    exists e :: PendingDel(st, e) && KeyOf(e) == k
  }

  /** A server's queues hold only events of its own subnet; no server is nameless. */
  predicate WellRouted(st: State)
  {
    && "" !in st.servers
    && (forall s, e :: s in st.servers && e in st.servers[s].addQ ==> e.subnet == s)
    && (forall s, e :: s in st.servers && e in st.servers[s].delQ ==> e.subnet == s)
  }

  /** What a queue of a server after a step holds. */
  lemma QueueStep(st: State, step: Step, s: string, e: Info)
    requires Enabled(st, step) && s in Next(st, step).servers
    ensures e in Next(st, step).servers[s].addQ ==>
              || (s in st.servers && e in st.servers[s].addQ)
              || (step == RouteAdd && e == st.addCh[0] && e.subnet == s)
              || (step.StartServer? && e.subnet == s)
    ensures e in Next(st, step).servers[s].delQ ==>
              || (s in st.servers && e in st.servers[s].delQ)
              || (step == RouteDel && e == st.delCh[0] && e.subnet == s)
  {
  }

  lemma WellRoutedStep(st: State, step: Step)
    requires WellRouted(st) && Enabled(st, step)
    ensures WellRouted(Next(st, step))
  {
    var st' := Next(st, step);
    forall s, e | s in st'.servers && e in st'.servers[s].addQ
      ensures e.subnet == s
    {
      QueueStep(st, step, s, e);
    }
    forall s, e | s in st'.servers && e in st'.servers[s].delQ
      ensures e.subnet == s
    {
      QueueStep(st, step, s, e);
    }
  }

  lemma RouteAddKeeps(st: State, e: Info)
    requires WellRouted(st) && Enabled(st, RouteAdd)
    ensures PendingAdd(RoutedAdd(st), e) ==> PendingAdd(st, e)
    ensures PendingAdd(st, e) ==> PendingAdd(RoutedAdd(st), e) || e.subnet == ""
  {
    var h := st.addCh[0];
    assert st.addCh == [h] + st.addCh[1..];
    if h.subnet != "" && h.subnet in st.servers {
      var q := st.servers[h.subnet].addQ;
      assert e in q + [h] <==> e in q || e == h;
    }
  }

  lemma RouteDelKeeps(st: State, e: Info)
    requires WellRouted(st) && Enabled(st, RouteDel)
    ensures PendingDel(RoutedDel(st), e) ==> PendingDel(st, e)
    ensures PendingDel(st, e) ==> PendingDel(RoutedDel(st), e) || e.subnet == ""
  {
    var h := st.delCh[0];
    assert st.delCh == [h] + st.delCh[1..];
    if h.subnet != "" && h.subnet in st.servers {
      var q := st.servers[h.subnet].delQ;
      assert e in q + [h] <==> e in q || e == h;
    }
  }

  lemma ApplyKeeps(st: State, step: Step, e: Info)
    requires WellRouted(st) && Enabled(st, step) && (step.ApplyAdd? || step.ApplyDel?)
    ensures var st' := Next(st, step);
            && (PendingAdd(st', e) ==> PendingAdd(st, e))
            && (PendingDel(st', e) ==> PendingDel(st, e))
            && (PendingAdd(st, e) ==> PendingAdd(st', e) || (step.ApplyAdd? && e == st.servers[step.subnet].addQ[0]))
            && (PendingDel(st, e) ==> PendingDel(st', e) || (step.ApplyDel? && e == st.servers[step.subnet].delQ[0]))
  {
    var srv := st.servers[step.subnet];
    if step.ApplyAdd? {
      assert srv.addQ == [srv.addQ[0]] + srv.addQ[1..];
    } else {
      assert srv.delQ == [srv.delQ[0]] + srv.delQ[1..];
    }
  }

  lemma LoadKeeps(st: State, step: Step, e: Info)
    requires WellRouted(st) && Enabled(st, step) && step.StartServer?
    ensures var st' := Next(st, step);
            && (PendingAdd(st, e) ==> PendingAdd(st', e))
            && (PendingDel(st, e) <==> PendingDel(st', e))
            && (PendingAdd(st', e) ==>
                PendingAdd(st, e) || exists n :: n in st.cache && e == st.cache[n] && e.subnet == step.subnet)
  {
    var st' := Next(st, step);
    if PendingAdd(st', e) && !PendingAdd(st, e) {
      var q := Loaded(st.cache, step.order);
      var i :| 0 <= i < |q| && q[i] == e;
      assert step.order[i] in st.cache;
    }
  }

  lemma RetryAddKeeps(st: State, event: Info, e: Info)
    requires event in st.addRetry
    ensures PendingAdd(Next(st, RetryAdd(event)), e) <==> PendingAdd(st, e)
  {
  }

  lemma OtherKeepsAdd(st: State, step: Step, e: Info)
    requires Enabled(st, step)
    requires step.Forget? || step.LeaderStart? || step.StartRouting? || step.StopServer? || step.RouteDel? || step.RetryDel?
    ensures PendingAdd(Next(st, step), e) ==> PendingAdd(st, e)
    ensures PendingAdd(st, e) ==> PendingAdd(Next(st, step), e) || (step.StopServer? && e.subnet == step.subnet)
  {
    match step
    case RouteDel => assert Next(st, step) == RoutedDel(st);
    case LeaderStart(names) => assert forall s :: s in st.servers ==> Next(st, step).servers[s] == st.servers[s];
    case _ =>
  }

  /** What a step can add to the adding events in flight, and what it can take away. */
  lemma PendingAddStep(st: State, step: Step, e: Info)
    requires WellRouted(st) && Enabled(st, step)
    ensures var st' := Next(st, step);
            && (PendingAdd(st', e) ==>
                || PendingAdd(st, e)
                || (step.Observe? && Announced(st.cache, step.name, step.info) && e == step.info)
                || (step.StartServer? && exists n :: n in st.cache && e == st.cache[n] && e.subnet == step.subnet))
            && (PendingAdd(st, e) ==>
                || PendingAdd(st', e)
                || e.subnet == ""
                || (step.StopServer? && e.subnet == step.subnet)
                || (step.ApplyAdd? && e == st.servers[step.subnet].addQ[0]))
  {
    match step
    case RouteAdd => RouteAddKeeps(st, e);
    case StartServer(_, _) => LoadKeeps(st, step, e);
    case ApplyAdd(_) => ApplyKeeps(st, step, e);
    case ApplyDel(_) => ApplyKeeps(st, step, e);
    case Observe(name, info) => assert Next(st, step) == Observed(st, name, info);
    case RetryAdd(event) => RetryAddKeeps(st, event, e);
    case _ => OtherKeepsAdd(st, step, e);
  }

  lemma RetryDelKeeps(st: State, event: Info, e: Info)
    requires event in st.delRetry
    ensures PendingDel(Next(st, RetryDel(event)), e) <==> PendingDel(st, e)
  {
  }

  lemma OtherKeepsDel(st: State, step: Step, e: Info)
    requires Enabled(st, step)
    requires step.Observe? || step.LeaderStart? || step.StartRouting? || step.StopServer? || step.RouteAdd? || step.RetryAdd?
    ensures PendingDel(Next(st, step), e) ==> PendingDel(st, e)
    ensures PendingDel(st, e) ==> PendingDel(Next(st, step), e) || (step.StopServer? && e.subnet == step.subnet)
  {
    match step
    case RouteAdd => assert Next(st, step) == RoutedAdd(st);
    case LeaderStart(names) => assert forall s :: s in st.servers ==> Next(st, step).servers[s] == st.servers[s];
    case _ =>
  }

  /** The same for deleting events. */
  lemma PendingDelStep(st: State, step: Step, e: Info)
    requires WellRouted(st) && Enabled(st, step)
    ensures var st' := Next(st, step);
            && (PendingDel(st', e) ==>
                || PendingDel(st, e)
                || (step.Forget? && step.name in st.cache && e == Removal(st.cache[step.name])))
            && (PendingDel(st, e) ==>
                || PendingDel(st', e)
                || e.subnet == ""
                || (step.StopServer? && e.subnet == step.subnet)
                || (step.ApplyDel? && e == st.servers[step.subnet].delQ[0]))
  {
    match step
    case RouteDel => RouteDelKeeps(st, e);
    case StartServer(_, _) => LoadKeeps(st, step, e);
    case ApplyAdd(_) => ApplyKeeps(st, step, e);
    case ApplyDel(_) => ApplyKeeps(st, step, e);
    case Forget(name) => assert Next(st, step) == Forgotten(st, name);
    case RetryDel(event) => RetryDelKeeps(st, event, e);
    case _ => OtherKeepsDel(st, step, e);
  }
}
