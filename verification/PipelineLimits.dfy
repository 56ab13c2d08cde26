/**
  The conditions of PipelineSafety and PipelineConvergence are exact: a run meets them at every
  step if and only if no schedule from any of its states loses a binding, or leaves a table that
  disagrees with the cache.
 */
module PipelineLimits {
  import opened Text
  import opened Bindings
  import opened BindingPipeline
  import opened PipelineSafety
  import opened PipelineConvergence
  import opened PipelineSchedules

  // ---- schedules are parts of runs ----

  /** The state ends some run. */
  ghost predicate Reachable(st: State)
  {
    exists states, steps :: IsRun(states, steps) && states[|steps|] == st
  }

  lemma ReachableNext(st: State, step: Step)
    requires Reachable(st) && Enabled(st, step)
    ensures Reachable(Next(st, step))
  {
    var states, steps :| IsRun(states, steps) && states[|steps|] == st;
    var states', steps' := states + [Next(st, step)], steps + [step];
    assert IsRun(states', steps') && states'[|steps'|] == Next(st, step);
  }

  lemma {:induction false} ReachableAfter(st: State, steps: seq<Step>)
    requires Reachable(st) && After(st, steps).Some?
    ensures Reachable(After(st, steps).value)
    decreases |steps|
  {
    if steps != [] {
      ReachableNext(st, steps[0]);
      ReachableAfter(Next(st, steps[0]), steps[1..]);
    }
  }

  /** What a schedule reaches from a state of a run is a state of a run. */
  lemma ReachesReachable(st: State, st': State, deletions: bool)
    requires Reachable(st) && Reaches(st, st', deletions)
    ensures Reachable(st')
  {
    var steps :| Schedule(st, steps, st', deletions);
    ReachableAfter(st, steps);
  }

  lemma {:induction false} WellRoutedAfter(st: State, steps: seq<Step>)
    requires WellRouted(st) && After(st, steps).Some?
    ensures WellRouted(After(st, steps).value)
    decreases |steps|
  {
    if steps != [] {
      WellRoutedStep(st, steps[0]);
      WellRoutedAfter(Next(st, steps[0]), steps[1..]);
    }
  }

  lemma ReachesWellRouted(st: State, st': State, deletions: bool)
    requires WellRouted(st) && Reaches(st, st', deletions)
    ensures WellRouted(st')
  {
    var steps :| Schedule(st, steps, st', deletions);
    WellRoutedAfter(st, steps);
  }

  // ---- no lost binding: the condition suffices ----

  /** Whatever the workers do next, and whatever is deleted, no cached binding is lost as long as nobody claims another. */
  ghost predicate Safe(st: State)
  {
    forall st' :: Reaches(st, st', true) ==> NothingLost(st')
  }

  lemma {:induction false} InvAfter(st: State, steps: seq<Step>)
    requires Inv(st) && After(st, steps).Some?
    requires forall i :: 0 <= i < |steps| ==> Allowed(steps[i], true)
    ensures Inv(After(st, steps).value)
    decreases |steps|
  {
    if steps != [] {
      assert Allowed(steps[0], true);
      InvStep(st, steps[0]);
      InvAfter(Next(st, steps[0]), steps[1..]);
    }
  }

  lemma InvIsSafe(st: State)
    requires Inv(st)
    ensures Safe(st)
  {
    forall st' | Reaches(st, st', true)
      ensures NothingLost(st')
    {
      var steps :| Schedule(st, steps, st', true);
      InvAfter(st, steps);
      InvHolds(st');
    }
  }

  // ---- and is needed ----

  /** The router routes and the server of the subnet runs. */
  lemma Serving(st: State, s: string) returns (st': State)
    requires s != ""
    ensures Reaches(st, st', false)
    ensures st'.phase == Routing && s in st'.servers && OnlyStarted(st, st')
  {
    var mid := StartRouter(st);
    st' := StartedServer(mid, s);
    ReachesThrough(st, mid, st', false);
  }

  lemma StartingKeepsEvents(st: State, st': State, e: Info)
    requires OnlyStarted(st, st')
    ensures PendingAdd(st, e) ==> PendingAdd(st', e)
    ensures PendingDel(st, e) ==> PendingDel(st', e)
  {
  }

  lemma NotSafe(st: State, st': State, n: string)
    requires Reaches(st, st', false) && n in st'.cache && !Held(st', st'.cache[n])
    ensures !Safe(st)
  {
    ReachesMore(st, st');
  }

  lemma NotSafeBefore(st: State, step: Step)
    requires Enabled(st, step) && Allowed(step, true) && !Safe(Next(st, step))
    ensures !Safe(st)
  {
    var st' :| Reaches(Next(st, step), st', true) && !NothingLost(st');
    ReachesNext(st, step, true);
    ReachesThrough(st, Next(st, step), st', true);
  }

  lemma NothingPending(st: State, s: string, b: Info)
    requires s in st.servers && b.subnet == s && NoAddsBut(st, s, multiset{})
    ensures Held(st, b) <==> InTable(st, b)
    ensures !AddFor(st, KeyOf(b))
  {
    forall e: Info | e.subnet == s
      ensures !PendingAdd(st, e)
    {
      assert st.addRetry[e] == multiset{}[e];
    }
  }

  /** A removal of the binding's own MAC is in flight: all adds are applied first, the removals last. */
  lemma RemovalLoses(st: State, n: string, d: Info)
    requires WellRouted(st) && n in st.cache && st.cache[n].subnet != ""
    requires PendingDel(st, d) && Matches(d, st.cache[n])
    ensures !Safe(st)
  {
    var b := st.cache[n];
    var s := b.subnet;
    var st1 := Serving(st, s);
    StartingKeepsEvents(st, st1, d);
    var st2 := FlushAdds(st1, s, multiset{});
    ReachesThrough(st, st1, st2, false);
    assert PendingDel(st2, d);
    ReachesWellRouted(st, st2, false);
    var st3 := FlushRemovals(st2, s);
    ReachesThrough(st, st2, st3, false);
    assert NoAddsBut(st3, s, multiset{});
    NothingPending(st3, s, b);
    if InTable(st3, b) {
      assert SurvivesRemovals(st2, s, b.ip, st2.servers[s].table[b.ip]);
      assert Hits(d, b.ip, st2.servers[s].table[b.ip]);
      assert false;
    }
    NotSafe(st, st3, n);
  }

  lemma RoutedOneAside(st: State, e: Info)
    requires st.addCh != [] && e.subnet != "" && e.subnet !in st.servers && Upstream(st, e)
    ensures var mid := RoutedAdd(st);
            && Upstream(mid, e) && e.subnet !in mid.servers
            && mid.cache == st.cache && mid.phase == st.phase && mid.addCh == st.addCh[1..]
  {
    assert st.addCh == [st.addCh[0]] + st.addCh[1..];
  }

  /** Without a server to take them, the adds of a subnet are put aside for a retry. */
  lemma {:induction false} RoutedAside(st: State, e: Info) returns (st': State)
    requires st.phase == Routing && e.subnet != "" && e.subnet !in st.servers && Upstream(st, e)
    ensures Reaches(st, st', false)
    ensures e in st'.addRetry && st'.cache == st.cache && st'.phase == Routing
    decreases |st.addCh|
  {
    if e in st.addRetry {
      st' := st;
      ReachesItself(st, false);
    } else {
      var mid := Next(st, RouteAdd);
      ReachesNext(st, RouteAdd, false);
      RoutedOneAside(st, e);
      st' := RoutedAside(mid, e);
      ReachesThrough(st, mid, st', false);
    }
  }

  /** An add can always be put aside: at worst the server of its subnet is stopped first. */
  lemma SetAside(st: State, e: Info) returns (st': State)
    requires st.phase == Routing && e.subnet != "" && Upstream(st, e)
    ensures Reaches(st, st', false)
    ensures e in st'.addRetry && st'.cache == st.cache && st'.phase == Routing
  {
    var mid := st;
    ReachesItself(st, false);
    if e.subnet in st.servers {
      mid := Next(st, StopServer(e.subnet));
      ReachesNext(st, StopServer(e.subnet), false);
    }
    st' := RoutedAside(mid, e);
    ReachesThrough(st, mid, st', false);
  }

  /** The one retry left for the subnet comes back, is routed and is applied. */
  lemma Redelivered(st: State, e: Info) returns (st': State)
    requires st.phase == Routing && e.subnet != "" && e.subnet in st.servers
    requires e in st.addRetry && NoAddsBut(st, e.subnet, multiset{e})
    ensures Reaches(st, st', false)
    ensures st'.cache == st.cache && e.subnet in st'.servers && NoAddsBut(st', e.subnet, multiset{})
    ensures e.ip in st'.servers[e.subnet].table && st'.servers[e.subnet].table[e.ip].mac == e.mac
  {
    var s := e.subnet;
    var st1 := Next(st, RetryAdd(e));
    assert st1.addCh == [e] && st1.addRetry == st.addRetry - multiset{e};
    ReachesNext(st, RetryAdd(e), false);
    var st2 := Next(st1, RouteAdd);
    assert st2.addCh == [] && st2.addRetry == st1.addRetry && st2.servers[s].addQ == [e];
    ReachesNext(st1, RouteAdd, false);
    st' := Next(st2, ApplyAdd(s));
    assert st'.servers[s].addQ == [];
    ReachesNext(st2, ApplyAdd(s), false);
    ReachesThrough(st, st1, st2, false);
    ReachesThrough(st, st2, st', false);
    forall x: Info | x.subnet == s
      ensures st'.addRetry[x] == multiset{}[x]
    {
      assert st.addRetry[x] == multiset{e}[x];
    }
  }

  /** An add of another MAC is upstream: it is put aside and applied after everything else. */
  lemma RivalLoses(st: State, n: string, e: Info)
    requires n in st.cache && st.cache[n].subnet != ""
    requires Upstream(st, e) && KeyOf(e) == KeyOf(st.cache[n]) && !EqualFold(e.mac, st.cache[n].mac)
    ensures !Safe(st)
  {
    var b := st.cache[n];
    var s := b.subnet;
    var st1 := StartRouter(st);
    var st2 := SetAside(st1, e);
    ReachesThrough(st, st1, st2, false);
    var st3 := StartedServer(st2, s);
    ReachesThrough(st, st2, st3, false);
    var st4 := FlushAdds(st3, s, multiset{e});
    ReachesThrough(st, st3, st4, false);
    assert st4.addRetry[e] == multiset{e}[e];
    var st5 := Redelivered(st4, e);
    ReachesThrough(st, st4, st5, false);
    NothingPending(st5, s, b);
    NotSafe(st, st5, n);
  }

  /** Two names hold one pair. With different MACs the table can match only one of them; with equal ones, deleting the one removes the entry of the other. */
  lemma SharedLoses(st: State, n: string, m: string)
    requires WellRouted(st) && n != m && n in st.cache && m in st.cache
    requires st.cache[n].subnet != "" && KeyOf(st.cache[n]) == KeyOf(st.cache[m])
    ensures !Safe(st)
  {
    var b := st.cache[n];
    var s := b.subnet;
    if EqualFold(b.mac, st.cache[m].mac) {
      var st1 := Next(st, Forget(m));
      assert st1 == Forgotten(st, m);
      var d := Removal(st.cache[m]);
      assert st1.delCh[|st.delCh|] == d;
      assert PendingDel(st1, d) && Matches(d, b);
      WellRoutedStep(st, Forget(m));
      RemovalLoses(st1, n, d);
      NotSafeBefore(st, Forget(m));
    } else {
      var st1 := Serving(st, s);
      var st2 := FlushAdds(st1, s, multiset{});
      ReachesThrough(st, st1, st2, false);
      NothingPending(st2, s, b);
      NothingPending(st2, s, st.cache[m]);
      NotSafe(st, st2, if InTable(st2, b) then m else n);
    }
  }

  /** Every claim against the discipline has a schedule that loses a binding. */
  lemma BrokenClaimLoses(st: State, step: Step)
    requires WellRouted(st) && Enabled(st, step) && !Disciplined(st, step)
    ensures !Safe(Next(st, step))
  {
    var name, b, st' := step.name, step.info, Next(st, step);
    assert st' == Observed(st, name, b) && st'.cache[name] == b;
    WellRoutedStep(st, step);
    if !NoRivalAdd(st, b) {
      NoRivalIs(st, b);
      var e :| Upstream(st, e) && KeyOf(e) == KeyOf(b) && !EqualFold(e.mac, b.mac);
      UpstreamStep(st, step, e);
      RivalLoses(st', name, e);
    } else if !NoOwnRemoval(st, b) {
      var d :| PendingDel(st, d) && KeyOf(d) == KeyOf(b) && EqualFold(d.mac, b.mac);
      assert PendingDel(st', d);
      RemovalLoses(st', name, d);
    } else {
      var m :| m in st.cache && m != name && KeyOf(st.cache[m]) == KeyOf(b);
      assert st'.cache[m] == st.cache[m];
      SharedLoses(st', name, m);
    }
  }

  /** The condition for one claim, in every state that the discipline allows: it is compatible if and only if no schedule after it loses a binding. */
  lemma ClaimIsSafeExactly(st: State, name: string, b: Info)
    requires Inv(st) && Announced(st.cache, name, b)
    ensures Compatible(st, name, b) <==> Safe(Next(st, Observe(name, b)))
  {
    if Compatible(st, name, b) {
      InvStep(st, Observe(name, b));
      InvIsSafe(Next(st, Observe(name, b)));
    } else {
      BrokenClaimLoses(st, Observe(name, b));
    }
  }

  /** No lost binding, exactly: a run keeps the discipline if and only if no schedule from any of its states loses a cached binding. */
  lemma NoLossExactly(states: seq<State>, steps: seq<Step>)
    requires IsRun(states, steps)
    ensures (forall i :: 0 <= i < |steps| ==> Disciplined(states[i], steps[i])) <==>
            (forall k :: 0 <= k < |states| ==> Safe(states[k]))
  {
    if forall i :: 0 <= i < |steps| ==> Disciplined(states[i], steps[i]) {
      forall k | 0 <= k < |states|
        ensures Safe(states[k])
      {
        NoBindingIsLost(states, steps, k);
        InvIsSafe(states[k]);
      }
    } else {
      var i :| 0 <= i < |steps| && !Disciplined(states[i], steps[i]);
      EveryEntryWasCachedForItsSubnet(states, steps, i);
      BrokenClaimLoses(states[i], steps[i]);
      assert !Safe(states[i + 1]);
    }
  }

  /** A state of the run is a state that ends a run. */
  lemma StatesAreReachable(states: seq<State>, steps: seq<Step>, k: nat)
    requires IsRun(states, steps) && k < |states|
    ensures Reachable(states[k])
  {
    assert IsRun(states[..k + 1], steps[..k]) && states[..k + 1][|steps[..k]|] == states[k];
  }

  /** A run with a claim against the discipline can be continued to a state in which a cached binding is lost. */
  lemma LossIsReached(states: seq<State>, steps: seq<Step>)
    requires IsRun(states, steps)
    requires exists i :: 0 <= i < |steps| && !Disciplined(states[i], steps[i])
    ensures exists st :: Reachable(st) && !NothingLost(st)
  {
    NoLossExactly(states, steps);
    var k :| 0 <= k < |states| && !Safe(states[k]);
    var st :| Reaches(states[k], st, true) && !NothingLost(st);
    StatesAreReachable(states, steps, k);
    ReachesReachable(states[k], st, true);
  }

  // ---- agreement of tables and cache ----

  /** Whatever the workers do next, each table agrees with the cache on every pair that is not in flight. */
  ghost predicate Converges(st: State)
  {
    forall st', k :: Reaches(st, st', false) ==> Agrees(st', k)
  }

  lemma {:induction false} TidyAfter(st: State, steps: seq<Step>)
    requires Tidy(st) && After(st, steps).Some?
    requires forall i :: 0 <= i < |steps| ==> Allowed(steps[i], false)
    ensures Tidy(After(st, steps).value)
    decreases |steps|
  {
    if steps != [] {
      assert Allowed(steps[0], false);
      TidyStep(st, steps[0]);
      TidyAfter(Next(st, steps[0]), steps[1..]);
    }
  }

  lemma TidyConverges(st: State)
    requires Tidy(st)
    ensures Converges(st)
  {
    forall st', k | Reaches(st, st', false)
      ensures Agrees(st', k)
    {
      var steps :| Schedule(st, steps, st', false);
      TidyAfter(st, steps);
      TidyAgrees(st', k);
    }
  }

  /** After the step no binding claims the pair that it gave up. */
  lemma GivenUpIsUncached(st: State, step: Step, k: Key)
    requires OneNamePerKey(st.cache) && Enabled(st, step) && GivenUp(st.cache, step) == Some(k) && k.subnet != ""
    requires Disciplined(st, step)
    ensures !CachedKey(Next(st, step), k)
  {
    CacheStep(st, step);
  }

  /** An entry stands in the way of the pair: it is in the table and no removal hits it, or an add for it is in flight. */
  ghost predicate Standing(st: State, k: Key)
  {
    || AddFor(st, k)
    || (k.subnet in st.servers && k.ip in st.servers[k.subnet].table &&
        SurvivesRemovals(st, k.subnet, k.ip, st.servers[k.subnet].table[k.ip]))
  }

  /** All removals are applied first and the adds last: the entry is left, and nothing in flight will remove it. */
  lemma StandingStays(st: State, k: Key)
    requires WellRouted(st) && k.subnet != "" && Standing(st, k) && !CachedKey(st, k)
    ensures !Converges(st)
  {
    var s := k.subnet;
    var st1 := Serving(st, s);
    ReachesWellRouted(st, st1, false);
    var st2 := FlushRemovals(st1, s);
    ReachesThrough(st, st1, st2, false);
    var st3 := FlushAdds(st2, s, multiset{});
    ReachesThrough(st, st2, st3, false);
    NothingPending(st3, s, Info(s, k.ip, "", false, ""));
    assert !DelFor(st3, k) by {
      forall d | PendingDel(st3, d)
        ensures KeyOf(d) != k
      {
        assert d.subnet == s ==> d !in st2.delRetry;
      }
    }
    if AddFor(st, k) {
      var e :| PendingAdd(st, e) && KeyOf(e) == k;
      StartingKeepsEvents(st, st1, e);
      assert PendingAdd(st2, e);
    } else {
      assert SurvivesRemovals(st1, s, k.ip, st1.servers[s].table[k.ip]);
    }
    assert !Agrees(st3, k);
  }

  /** Every step that gives up a pair against the order has a schedule that leaves a stale entry. */
  lemma DisorderLeavesEntry(st: State, step: Step)
    requires Inv(st) && Enabled(st, step) && Disciplined(st, step) && !Orderly(st, step)
    ensures !Converges(Next(st, step))
  {
    var k, st' := GivenUp(st.cache, step).value, Next(st, step);
    GivenUpIsUncached(st, step, k);
    WellRoutedStep(st, step);
    if AddFor(st, k) {
      var e :| PendingAdd(st, e) && KeyOf(e) == k;
      PendingAddStep(st, step, e);
      assert PendingAdd(st', e);
    } else {
      var was := st.cache[step.name];
      InvHolds(st);
      assert Held(st, was) && InTable(st, was);
      assert st' == Observed(st, step.name, step.info) && st'.servers == st.servers;
      forall d | PendingDel(st', d) && d.subnet == k.subnet
        ensures !Hits(d, k.ip, st.servers[k.subnet].table[k.ip])
      {
        assert PendingDel(st, d);
      }
      assert SurvivesRemovals(st', k.subnet, k.ip, st'.servers[k.subnet].table[k.ip]);
    }
    StandingStays(st', k);
  }

  /** Convergence, exactly: a disciplined run gives up pairs in order if and only if from each of its states every schedule of the workers makes the tables agree with the cache. */
  lemma ConvergenceExactly(states: seq<State>, steps: seq<Step>)
    requires IsRun(states, steps)
    requires forall i :: 0 <= i < |steps| ==> Disciplined(states[i], steps[i])
    ensures (forall i :: 0 <= i < |steps| ==> Orderly(states[i], steps[i])) <==>
            (forall k :: 0 <= k < |states| ==> Converges(states[k]))
  {
    if forall i :: 0 <= i < |steps| ==> Orderly(states[i], steps[i]) {
      forall k | 0 <= k < |states|
        ensures Converges(states[k])
      {
        OrderlyRunsAreTidy(states, steps, k);
        TidyConverges(states[k]);
      }
    } else {
      var i :| 0 <= i < |steps| && !Orderly(states[i], steps[i]);
      NoBindingIsLost(states, steps, i);
      DisorderLeavesEntry(states[i], steps[i]);
      assert !Converges(states[i + 1]);
    }
  }

  /** Both conditions together, over every run: it keeps the discipline and the order at each step if and only if from none of its states a schedule loses a binding or makes a table disagree with the cache. */
  lemma SafetyAndConvergenceExactly(states: seq<State>, steps: seq<Step>)
    requires IsRun(states, steps)
    ensures (forall i :: 0 <= i < |steps| ==> Disciplined(states[i], steps[i]) && Orderly(states[i], steps[i])) <==>
            (forall k :: 0 <= k < |states| ==> Safe(states[k]) && Converges(states[k]))
  {
    NoLossExactly(states, steps);
    if forall i :: 0 <= i < |steps| ==> Disciplined(states[i], steps[i]) {
      ConvergenceExactly(states, steps);
    }
  }

  /** A disciplined run that gives up a pair against the order can be continued to a state in which nothing is in flight for a pair and its table disagrees with the cache. */
  lemma DisagreementIsReached(states: seq<State>, steps: seq<Step>)
    requires IsRun(states, steps)
    requires forall i :: 0 <= i < |steps| ==> Disciplined(states[i], steps[i])
    requires exists i :: 0 <= i < |steps| && !Orderly(states[i], steps[i])
    ensures exists st, k :: Reachable(st) && !Agrees(st, k)
  {
    ConvergenceExactly(states, steps);
    var k :| 0 <= k < |states| && !Converges(states[k]);
    var st, pair :| Reaches(states[k], st, false) && !Agrees(st, pair);
    StatesAreReachable(states, steps, k);
    ReachesReachable(states[k], st, false);
  }

  // ---- each way to break a condition occurs ----

  lemma InitReachable()
    ensures Reachable(Init)
  {
    assert IsRun([Init], []);
  }

  lemma FirstClaim(name: string, b: Info) returns (st: State)
    ensures st == Next(Init, Observe(name, b)) && Reachable(st) && Inv(st)
    ensures st.addCh == [b] && st.cache == map[name := b]
  {
    InitReachable();
    ReachableNext(Init, Observe(name, b));
    InvStep(Init, Observe(name, b));
    st := Observed(Init, name, b);
  }

  lemma RivalOccurs(name: string, b: Info, rival: Info) returns (st: State)
    requires KeyOf(rival) == KeyOf(b) && !EqualFold(rival.mac, b.mac)
    ensures Reachable(st) && Announced(st.cache, name, b) && !NoRivalAdd(st, b)
  {
    st := FirstClaim(name, rival);
    assert rival in st.addCh;
  }

  lemma OwnRemovalOccurs(name: string, b: Info) returns (st: State)
    ensures Reachable(st) && Announced(st.cache, name, b) && !NoOwnRemoval(st, b)
  {
    var mid := FirstClaim(name, b);
    ReachableNext(mid, Forget(name));
    st := Forgotten(mid, name);
    assert st.delCh[|mid.delCh|] == Removal(b);
    assert PendingDel(st, Removal(b)) && KeyOf(Removal(b)) == KeyOf(b);
  }

  lemma OtherHolderOccurs(name: string, other: string, b: Info) returns (st: State)
    requires name != other
    ensures Reachable(st) && Announced(st.cache, name, b) && !NoOtherHolder(st.cache, name, b)
  {
    st := FirstClaim(other, b);
  }

  /** From the start, one announcement and at most one deletion lead to each kind of claim against the discipline. */
  lemma EachBreachOccurs(name: string, other: string, b: Info, mac: string) returns (st1: State, st2: State, st3: State)
    requires b.subnet != "" && name != other && !EqualFold(mac, b.mac)
    ensures Reachable(st1) && !Disciplined(st1, Observe(name, b)) && !NoRivalAdd(st1, b)
    ensures Reachable(st2) && !Disciplined(st2, Observe(name, b)) && !NoOwnRemoval(st2, b)
    ensures Reachable(st3) && !Disciplined(st3, Observe(name, b)) && !NoOtherHolder(st3.cache, name, b)
  {
    st1 := RivalOccurs(name, b, b.(mac := mac));
    st2 := OwnRemovalOccurs(name, b);
    st3 := OtherHolderOccurs(name, other, b);
  }

  /** A binding that has settled: it is cached, its server runs, and no add for it is in flight. */
  lemma SettledOccurs(name: string, b: Info) returns (st: State)
    requires b.subnet != ""
    ensures Reachable(st) && Inv(st) && st.cache == map[name := b]
    ensures b.subnet in st.servers && !AddFor(st, KeyOf(b)) && InTable(st, b)
  {
    var st1 := FirstClaim(name, b);
    var st2 := Serving(st1, b.subnet);
    st := FlushAdds(st2, b.subnet, multiset{});
    ReachesThrough(st1, st2, st, false);
    ReachesReachable(st1, st, false);
    ReachesMore(st1, st);
    var steps :| Schedule(st1, steps, st, true);
    InvAfter(st1, steps);
    NothingPending(st, b.subnet, b);
    InvHolds(st);
    assert Held(st, st.cache[name]);
  }

  /** And to each kind of disorder: a deletion or a move while the add is in flight, and the move of a settled binding away from a running server. */
  lemma EachDisorderOccurs(name: string, b: Info, moved: Info) returns (st1: State, st2: State)
    requires b.subnet != "" && KeyOf(moved) != KeyOf(b)
    ensures Reachable(st1) && Inv(st1) && AddFor(st1, KeyOf(b))
    ensures !Orderly(st1, Forget(name)) && !Orderly(st1, Observe(name, moved))
    ensures Reachable(st2) && Inv(st2) && !AddFor(st2, KeyOf(b)) && b.subnet in st2.servers
    ensures Orderly(st2, Forget(name)) && !Orderly(st2, Observe(name, moved))
  {
    st1 := FirstClaim(name, b);
    assert b in st1.addCh;
    assert PendingAdd(st1, b) && AddFor(st1, KeyOf(b));
    st2 := SettledOccurs(name, b);
    assert GivenUp(st1.cache, Forget(name)) == GivenUp(st2.cache, Forget(name)) == Some(KeyOf(b));
    assert GivenUp(st1.cache, Observe(name, moved)) == GivenUp(st2.cache, Observe(name, moved)) == Some(KeyOf(b));
  }
}
