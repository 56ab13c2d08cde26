/**
  Schedules: what the workers of the pipeline can do from a state in which nobody claims a
  binding any more, and how they empty what is in flight for one server in a chosen order.
 */
module PipelineSchedules {
  import opened Text
  import opened Bindings
  import opened BindingPipeline
  import opened PipelineSafety

  /** The state after a sequence of steps, when each is enabled in turn. */
  function After(st: State, steps: seq<Step>): Option<State>
    decreases |steps|
  {
    if steps == [] then Some(st)
    else if Enabled(st, steps[0]) then After(Next(st, steps[0]), steps[1..])
    else None
  }

  /** No binding is written; bindings are deleted only if the schedule may do so. */
  predicate Allowed(step: Step, deletions: bool)
  {
    !step.Observe? && (step.Forget? ==> deletions)
  }

  predicate Schedule(st: State, steps: seq<Step>, st': State, deletions: bool)
  {
    && (forall i :: 0 <= i < |steps| ==> Allowed(steps[i], deletions))
    && After(st, steps) == Some(st')
  }

  ghost predicate Reaches(st: State, st': State, deletions: bool)
  {
    exists steps :: Schedule(st, steps, st', deletions)
  }

  lemma {:induction false} AfterConcat(st: State, a: seq<Step>, b: seq<Step>)
    requires After(st, a).Some?
    ensures After(st, a + b) == After(After(st, a).value, b)
    decreases |a|
  {
    if a == [] {
      assert a + b == b;
    } else {
      assert (a + b)[1..] == a[1..] + b;
      AfterConcat(Next(st, a[0]), a[1..], b);
    }
  }

  lemma ReachesItself(st: State, deletions: bool)
    ensures Reaches(st, st, deletions)
  {
    assert Schedule(st, [], st, deletions);
  }

  lemma ReachesNext(st: State, step: Step, deletions: bool)
    requires Enabled(st, step) && Allowed(step, deletions)
    ensures Reaches(st, Next(st, step), deletions)
  {
    assert [step][1..] == [];
    assert After(Next(st, step), []) == Some(Next(st, step));
    assert Schedule(st, [step], Next(st, step), deletions);
  }

  lemma ReachesThrough(a: State, b: State, c: State, deletions: bool)
    requires Reaches(a, b, deletions) && Reaches(b, c, deletions)
    ensures Reaches(a, c, deletions)
  {
    var front :| Schedule(a, front, b, deletions);
    var back :| Schedule(b, back, c, deletions);
    AfterConcat(a, front, back);
    assert Schedule(a, front + back, c, deletions);
  }

  lemma ReachesMore(a: State, b: State)
    requires Reaches(a, b, false)
    ensures Reaches(a, b, true)
  {
    var steps :| Schedule(a, steps, b, false);
    assert Schedule(a, steps, b, true);
  }

  // ---- a server that runs, and a router that routes ----

  /** The map has some iteration order. */
  lemma {:induction false} Listing(cache: map<string, Info>, s: string, names: set<string>) returns (order: seq<string>)
    requires names <= cache.Keys
    ensures forall i :: 0 <= i < |order| ==> order[i] in names && cache[order[i]].subnet == s
    ensures forall i, j :: 0 <= i < j < |order| ==> order[i] != order[j]
    ensures forall n :: n in names && cache[n].subnet == s ==> n in order
    decreases |names|
  {
    if names == {} {
      order := [];
    } else {
      var n :| n in names;
      order := Listing(cache, s, names - {n});
      if cache[n].subnet == s {
        order := [n] + order;
      }
    }
  }

  /** Nothing but the phase and the set of running servers differs, and no running server is touched. */
  predicate OnlyStarted(st: State, st': State)
  {
    && st' == st.(phase := st'.phase, servers := st'.servers)
    && (forall s :: s in st.servers ==> s in st'.servers && st'.servers[s] == st.servers[s])
  }

  lemma StartRouter(st: State) returns (st': State)
    ensures Reaches(st, st', false)
    ensures st'.phase == Routing && OnlyStarted(st, st') && st'.servers.Keys == st.servers.Keys
  {
    var mid := st;
    ReachesItself(st, false);
    if st.phase == Waiting {
      mid := Next(st, LeaderStart({}));
      ReachesNext(st, LeaderStart({}), false);
    }
    st' := mid;
    if mid.phase == Started {
      st' := Next(mid, StartRouting);
      ReachesNext(mid, StartRouting, false);
    }
    ReachesItself(mid, false);
    ReachesThrough(st, mid, st', false);
  }

  /** The server of a subnet is started if it does not run. */
  lemma StartedServer(st: State, s: string) returns (st': State)
    requires s != ""
    ensures Reaches(st, st', false)
    ensures s in st'.servers && OnlyStarted(st, st') && st'.phase == st.phase
  {
    st' := st;
    ReachesItself(st, false);
    if s !in st.servers {
      var order := Listing(st.cache, s, st.cache.Keys);
      st' := Next(st, StartServer(s, order));
      ReachesNext(st, StartServer(s, order), false);
    }
  }

  // ---- emptying the adds of a server ----

  /** Everything that the adds do not touch. */
  predicate SameButAdds(st: State, st': State)
  {
    && st'.cache == st.cache && st'.phase == st.phase
    && st'.delCh == st.delCh && st'.delRetry == st.delRetry
    && st'.servers.Keys == st.servers.Keys
    && forall s :: s in st.servers ==> st'.servers[s].delQ == st.servers[s].delQ
  }

  /** All retries except `keep` come back. */
  lemma {:induction false} RetryAdds(st: State, keep: multiset<Info>) returns (st': State)
    requires keep <= st.addRetry
    ensures Reaches(st, st', false)
    ensures st' == st.(addCh := st'.addCh, addRetry := keep)
    ensures forall e :: Upstream(st, e) ==> e in keep || e in st'.addCh
    decreases |st.addRetry|
  {
    if st.addRetry == keep {
      st' := st;
      ReachesItself(st, false);
    } else {
      var e :| e in st.addRetry && keep[e] < st.addRetry[e];
      var mid := Next(st, RetryAdd(e));
      assert mid == RetriedAdd(st, e);
      ReachesNext(st, RetryAdd(e), false);
      st' := RetryAdds(mid, keep);
      ReachesThrough(st, mid, st', false);
      forall x | Upstream(st, x)
        ensures x in keep || x in st'.addCh
      {
        assert Upstream(mid, x);
      }
    }
  }

  lemma RoutedAddFrame(st: State, s: string)
    requires st.addCh != [] && s in st.servers
    ensures SameButAdds(st, RoutedAdd(st)) && RoutedAdd(st).addCh == st.addCh[1..]
    ensures RoutedAdd(st).servers[s].table == st.servers[s].table
    ensures forall e: Info :: e.subnet in st.servers ==> RoutedAdd(st).addRetry[e] == st.addRetry[e]
    ensures forall e :: e in st.servers[s].addQ ==> e in RoutedAdd(st).servers[s].addQ
    ensures st.addCh[0].subnet == s && s != "" ==> st.addCh[0] in RoutedAdd(st).servers[s].addQ
  {
  }

  /** The router reads the whole channel. */
  lemma {:induction false} RouteAdds(st: State, s: string) returns (st': State)
    requires st.phase == Routing && s in st.servers && s != ""
    ensures Reaches(st, st', false)
    ensures st'.addCh == [] && SameButAdds(st, st')
    ensures st'.servers[s].table == st.servers[s].table
    ensures forall e: Info :: e.subnet in st.servers ==> st'.addRetry[e] == st.addRetry[e]
    ensures forall e :: e in st.addCh && e.subnet == s ==> e in st'.servers[s].addQ
    ensures forall e :: e in st.servers[s].addQ ==> e in st'.servers[s].addQ
    decreases |st.addCh|
  {
    if st.addCh == [] {
      st' := st;
      ReachesItself(st, false);
    } else {
      var mid := Next(st, RouteAdd);
      assert mid == RoutedAdd(st);
      RoutedAddFrame(st, s);
      ReachesNext(st, RouteAdd, false);
      st' := RouteAdds(mid, s);
      ReachesThrough(st, mid, st', false);
      forall e | e in st.addCh && e.subnet == s
        ensures e in st'.servers[s].addQ
      {
        assert e == st.addCh[0] || e in st.addCh[1..];
      }
    }
  }

  /** The server applies its whole queue of adds. */
  lemma {:induction false} ApplyAdds(st: State, s: string) returns (st': State)
    requires s in st.servers
    ensures Reaches(st, st', false)
    ensures SameButAdds(st, st') && st' == st.(servers := st'.servers)
    ensures st'.servers[s].addQ == []
    ensures forall ip :: ip in st.servers[s].table ==> ip in st'.servers[s].table
    ensures forall e :: e in st.servers[s].addQ ==> e.ip in st'.servers[s].table
    decreases |st.servers[s].addQ|
  {
    if st.servers[s].addQ == [] {
      st' := st;
      ReachesItself(st, false);
    } else {
      var q := st.servers[s].addQ;
      var mid := Next(st, ApplyAdd(s));
      assert mid == AppliedAdd(st, s);
      ReachesNext(st, ApplyAdd(s), false);
      st' := ApplyAdds(mid, s);
      ReachesThrough(st, mid, st', false);
      forall e | e in q
        ensures e.ip in st'.servers[s].table
      {
        assert e == q[0] || e in q[1..];
      }
    }
  }

  /** No add for the subnet is in flight, except the retries in `keep`. */
  ghost predicate NoAddsBut(st: State, s: string, keep: multiset<Info>)
    requires s in st.servers
  {
    && st.addCh == [] && st.servers[s].addQ == []
    && forall e: Info :: e.subnet == s ==> st.addRetry[e] == keep[e]
  }

  /** Every add for the subnet is applied, except the retries in `keep`. */
  lemma FlushAdds(st: State, s: string, keep: multiset<Info>) returns (st': State)
    requires st.phase == Routing && s in st.servers && s != "" && keep <= st.addRetry
    ensures Reaches(st, st', false)
    ensures SameButAdds(st, st') && NoAddsBut(st', s, keep)
    ensures forall ip :: ip in st.servers[s].table ==> ip in st'.servers[s].table
    ensures forall e :: PendingAdd(st, e) && e.subnet == s ==> e in keep || e.ip in st'.servers[s].table
  {
    var st1 := RetryAdds(st, keep);
    var st2 := RouteAdds(st1, s);
    st' := ApplyAdds(st2, s);
    ReachesThrough(st, st1, st2, false);
    ReachesThrough(st, st2, st', false);
    forall e | PendingAdd(st, e) && e.subnet == s
      ensures e in keep || e.ip in st'.servers[s].table
    {
      assert Upstream(st, e) || e in st.servers[s].addQ;
    }
  }

  // ---- emptying the removals of a server ----

  /** Everything that the removals do not touch. */
  predicate SameButRemovals(st: State, st': State)
  {
    && st'.cache == st.cache && st'.phase == st.phase
    && st'.addCh == st.addCh && st'.addRetry == st.addRetry
    && st'.servers.Keys == st.servers.Keys
    && forall s :: s in st.servers ==> st'.servers[s].addQ == st.servers[s].addQ
  }

  lemma {:induction false} RetryRemovals(st: State) returns (st': State)
    ensures Reaches(st, st', false)
    ensures st' == st.(delCh := st'.delCh, delRetry := multiset{})
    ensures forall d :: d in st.delCh || d in st.delRetry <==> d in st'.delCh
    decreases |st.delRetry|
  {
    if st.delRetry == multiset{} {
      st' := st;
      ReachesItself(st, false);
    } else {
      var d :| d in st.delRetry;
      var mid := Next(st, RetryDel(d));
      assert mid == RetriedDel(st, d);
      ReachesNext(st, RetryDel(d), false);
      st' := RetryRemovals(mid);
      ReachesThrough(st, mid, st', false);
    }
  }

  lemma RoutedDelFrame(st: State, s: string)
    requires st.delCh != [] && s in st.servers
    ensures SameButRemovals(st, RoutedDel(st)) && RoutedDel(st).delCh == st.delCh[1..]
    ensures RoutedDel(st).servers[s].table == st.servers[s].table
    ensures forall d: Info :: d.subnet in st.servers ==> RoutedDel(st).delRetry[d] == st.delRetry[d]
    ensures forall d :: d in st.servers[s].delQ ==> d in RoutedDel(st).servers[s].delQ
    ensures forall d :: d in RoutedDel(st).servers[s].delQ ==> d in st.servers[s].delQ || (d == st.delCh[0] && d.subnet == s)
    ensures st.delCh[0].subnet == s && s != "" ==> st.delCh[0] in RoutedDel(st).servers[s].delQ
  {
  }

  lemma HeadOrRest(q: seq<Info>)
    requires q != []
    ensures forall d :: d in q <==> d == q[0] || d in q[1..]
  {
    assert q == [q[0]] + q[1..];
  }

  lemma {:induction false} RouteRemovals(st: State, s: string) returns (st': State)
    requires st.phase == Routing && s in st.servers && s != ""
    ensures Reaches(st, st', false)
    ensures st'.delCh == [] && SameButRemovals(st, st')
    ensures st'.servers[s].table == st.servers[s].table
    ensures forall d: Info :: d.subnet in st.servers ==> st'.delRetry[d] == st.delRetry[d]
    ensures forall d :: (d in st.delCh && d.subnet == s) || d in st.servers[s].delQ ==> d in st'.servers[s].delQ
    ensures forall d :: d in st'.servers[s].delQ ==> (d in st.delCh && d.subnet == s) || d in st.servers[s].delQ
    decreases |st.delCh|
  {
    if st.delCh == [] {
      st' := st;
      ReachesItself(st, false);
    } else {
      var mid := Next(st, RouteDel);
      assert mid == RoutedDel(st);
      RoutedDelFrame(st, s);
      ReachesNext(st, RouteDel, false);
      st' := RouteRemovals(mid, s);
      ReachesThrough(st, mid, st', false);
      HeadOrRest(st.delCh);
    }
  }

  /** The event removes the entry at its own IP. */
  predicate Hits(d: Info, ip: string, c: Client)
  {
    d.ip == ip && EqualFold(c.mac, d.mac)
  }

  predicate Survives(q: seq<Info>, ip: string, c: Client)
  {
    forall d :: d in q ==> !Hits(d, ip, c)
  }

  lemma SurvivesTail(q: seq<Info>, ip: string, c: Client)
    requires q != []
    ensures Survives(q, ip, c) <==> !Hits(q[0], ip, c) && Survives(q[1..], ip, c)
  {
    assert q == [q[0]] + q[1..];
  }

  /** The server applies its whole queue of removals: an entry is left exactly when none of them hits it. */
  lemma {:induction false} ApplyRemovals(st: State, s: string) returns (st': State)
    requires s in st.servers
    ensures Reaches(st, st', false)
    ensures SameButRemovals(st, st') && st' == st.(servers := st'.servers)
    ensures st'.servers[s].delQ == []
    ensures forall ip :: ip in st'.servers[s].table ==>
              ip in st.servers[s].table && st'.servers[s].table[ip] == st.servers[s].table[ip]
    ensures forall ip :: ip in st.servers[s].table ==>
              (ip in st'.servers[s].table <==> Survives(st.servers[s].delQ, ip, st.servers[s].table[ip]))
    decreases |st.servers[s].delQ|
  {
    if st.servers[s].delQ == [] {
      st' := st;
      ReachesItself(st, false);
    } else {
      var q := st.servers[s].delQ;
      var mid := Next(st, ApplyDel(s));
      assert mid == AppliedDel(st, s);
      ReachesNext(st, ApplyDel(s), false);
      st' := ApplyRemovals(mid, s);
      ReachesThrough(st, mid, st', false);
      forall ip | ip in st.servers[s].table
        ensures ip in st'.servers[s].table <==> Survives(q, ip, st.servers[s].table[ip])
      {
        SurvivesTail(q, ip, st.servers[s].table[ip]);
      }
    }
  }

  ghost predicate NoRemovals(st: State, s: string)
    requires s in st.servers
  {
    && st.delCh == [] && st.servers[s].delQ == []
    && forall d: Info :: d.subnet == s ==> d !in st.delRetry
  }

  /** No removal in flight hits the entry. */
  ghost predicate SurvivesRemovals(st: State, s: string, ip: string, c: Client)
  {
    forall d :: PendingDel(st, d) && d.subnet == s ==> !Hits(d, ip, c)
  }

  /** Every removal for the subnet is applied: an entry is left exactly when none of them hits it. */
  lemma FlushRemovals(st: State, s: string) returns (st': State)
    requires WellRouted(st) && st.phase == Routing && s in st.servers
    ensures Reaches(st, st', false)
    ensures SameButRemovals(st, st') && NoRemovals(st', s)
    ensures forall ip :: ip in st'.servers[s].table ==>
              ip in st.servers[s].table && st'.servers[s].table[ip] == st.servers[s].table[ip]
    ensures forall ip :: ip in st.servers[s].table ==>
              (ip in st'.servers[s].table <==> SurvivesRemovals(st, s, ip, st.servers[s].table[ip]))
  {
    var st1 := RetryRemovals(st);
    var st2 := RouteRemovals(st1, s);
    st' := ApplyRemovals(st2, s);
    ReachesThrough(st, st1, st2, false);
    ReachesThrough(st, st2, st', false);
    assert forall d: Info :: d.subnet == s ==> st'.delRetry[d] == 0;
    PendingAtServer(st, st1, st2, s);
    forall ip | ip in st.servers[s].table
      ensures ip in st'.servers[s].table <==> SurvivesRemovals(st, s, ip, st.servers[s].table[ip])
    {
      assert st2.servers[s].table == st.servers[s].table;
      assert Survives(st2.servers[s].delQ, ip, st.servers[s].table[ip]) <==> SurvivesRemovals(st, s, ip, st.servers[s].table[ip]);
    }
  }

  lemma PendingAtServer(st: State, st1: State, st2: State, s: string)
    requires WellRouted(st) && s in st.servers && s in st2.servers
    requires st1 == st.(delCh := st1.delCh, delRetry := multiset{})
    requires forall d :: d in st.delCh || d in st.delRetry <==> d in st1.delCh
    requires forall d :: (d in st1.delCh && d.subnet == s) || d in st.servers[s].delQ ==> d in st2.servers[s].delQ
    requires forall d :: d in st2.servers[s].delQ ==> (d in st1.delCh && d.subnet == s) || d in st.servers[s].delQ
    ensures forall d :: PendingDel(st, d) && d.subnet == s <==> d in st2.servers[s].delQ
  {
  }
}
