/**
  Safety of the binding pipeline over whole runs: where table entries come from, and when no
  cached binding can be lost.
 */
module PipelineSafety {
  import opened Text
  import opened Bindings
  import opened BindingPipeline

  // ---- provenance and isolation: every run ----

  /** Some binding seen for the pair has this entry. */
  predicate SourcedIn(seen: set<Info>, k: Key, c: Client)
  {
    exists i :: i in seen && KeyOf(i) == k && ClientOf(i) == c
  }

  /** The entry of server `s` at `ip` is a binding that was once cached for `s`. */
  predicate Sourced(st: State, s: string, ip: string)
    requires s in st.servers && ip in st.servers[s].table
  {
    SourcedIn(st.seen, Key(s, ip), st.servers[s].table[ip])
  }

  predicate SeenKey(st: State, k: Key)
  {
    exists i :: i in st.seen && KeyOf(i) == k
  }

  ghost predicate EventsSeen(st: State)
  {
    && (forall n :: n in st.cache ==> st.cache[n] in st.seen)
    && (forall e :: PendingAdd(st, e) ==> e in st.seen)
    && (forall e :: PendingDel(st, e) ==> SeenKey(st, KeyOf(e)))
  }

  predicate TablesSourced(st: State)
  {
    forall s, ip :: s in st.servers && ip in st.servers[s].table ==> Sourced(st, s, ip)
  }

  ghost predicate Provenance(st: State)
  {
    WellRouted(st) && EventsSeen(st) && TablesSourced(st)
  }

  lemma EventsSeenStep(st: State, step: Step)
    requires WellRouted(st) && EventsSeen(st) && Enabled(st, step)
    ensures EventsSeen(Next(st, step))
  {
    var st' := Next(st, step);
    assert st.seen <= st'.seen;
    forall e | PendingAdd(st', e)
      ensures e in st'.seen
    {
      PendingAddStep(st, step, e);
    }
    forall e | PendingDel(st', e)
      ensures SeenKey(st', KeyOf(e))
    {
      PendingDelStep(st, step, e);
      if !PendingDel(st, e) {
        assert KeyOf(st.cache[step.name]) == KeyOf(e);
      } else {
        var i :| i in st.seen && KeyOf(i) == KeyOf(e);
        assert i in st'.seen;
      }
    }
  }

  /** An entry after a step was there before it, or the step has just applied an add for it. */
  lemma EntryStep(st: State, step: Step, s: string, ip: string)
    requires Enabled(st, step)
    requires s in Next(st, step).servers && ip in Next(st, step).servers[s].table
    ensures || (s in st.servers && ip in st.servers[s].table && st.servers[s].table[ip] == Next(st, step).servers[s].table[ip])
            || (step == ApplyAdd(s) && st.servers[s].addQ[0].ip == ip)
  {
  }

  lemma RoutingKeepsHistory(st: State)
    ensures st.addCh != [] ==> RoutedAdd(st).seen == st.seen
    ensures st.delCh != [] ==> RoutedDel(st).seen == st.seen
  {
  }

  lemma SeenGrows(st: State, step: Step)
    requires Enabled(st, step)
    ensures st.seen <= Next(st, step).seen
  {
    RoutingKeepsHistory(st);
    if step.Observe? {
      assert Next(st, step).seen == st.seen + {step.info};
    } else if step.Forget? {
      assert Forgotten(st, step.name).seen == st.seen;
    } else {
      assert Next(st, step).seen == st.seen;
    }
  }

  lemma SourcedInMore(a: set<Info>, b: set<Info>, k: Key, c: Client)
    requires a <= b && SourcedIn(a, k, c)
    ensures SourcedIn(b, k, c)
  {
    var i :| i in a && KeyOf(i) == k && ClientOf(i) == c;
    assert i in b;
  }

  lemma AppliedSourced(st: State, s: string)
    requires Provenance(st) && s in st.servers && st.servers[s].addQ != []
    ensures var e := st.servers[s].addQ[0];
            SourcedIn(st.seen, Key(s, e.ip), Insert(st.servers[s].table, e)[e.ip])
  {
    var e := st.servers[s].addQ[0];
    assert e in st.servers[s].addQ;
    assert PendingAdd(st, e);
    if e.ip in st.servers[s].table && st.servers[s].table[e.ip].mac == e.mac {
      assert Sourced(st, s, e.ip);
    } else {
      assert KeyOf(e) == Key(s, e.ip);
    }
  }

  lemma EntrySourced(st: State, step: Step, s: string, ip: string)
    requires Provenance(st) && Enabled(st, step)
    requires s in Next(st, step).servers && ip in Next(st, step).servers[s].table
    ensures Sourced(Next(st, step), s, ip)
  {
    EntryStep(st, step, s, ip);
    SeenGrows(st, step);
    var c := Next(st, step).servers[s].table[ip];
    if s in st.servers && ip in st.servers[s].table && st.servers[s].table[ip] == c {
      assert Sourced(st, s, ip);
    } else {
      AppliedSourced(st, s);
      assert Next(st, step) == AppliedAdd(st, s);
    }
    SourcedInMore(st.seen, Next(st, step).seen, Key(s, ip), c);
  }

  lemma TablesSourcedStep(st: State, step: Step)
    requires Provenance(st) && Enabled(st, step)
    ensures TablesSourced(Next(st, step))
  {
    var st' := Next(st, step);
    forall s, ip | s in st'.servers && ip in st'.servers[s].table
      ensures Sourced(st', s, ip)
    {
      EntrySourced(st, step, s, ip);
    }
  }

  /** Subnet isolation and provenance: in every state of every run each entry of a server's table sits under its own IP and is a binding that was cached at some time for that server's subnet. */
  lemma {:induction false} EveryEntryWasCachedForItsSubnet(states: seq<State>, steps: seq<Step>, k: nat)
    requires IsRun(states, steps) && k < |states|
    ensures Provenance(states[k])
    ensures forall s, ip :: s in states[k].servers && ip in states[k].servers[s].table ==>
              states[k].servers[s].table[ip].ip == ip && Sourced(states[k], s, ip)
  {
    if k > 0 {
      EveryEntryWasCachedForItsSubnet(states, steps, k - 1);
      var st, step := states[k - 1], steps[k - 1];
      assert states[k] == Next(st, step);
      WellRoutedStep(st, step);
      EventsSeenStep(st, step);
      TablesSourcedStep(st, step);
    }
  }

  // ---- no lost binding ----

  predicate InTable(st: State, b: Info)
  {
    && b.subnet in st.servers
    && b.ip in st.servers[b.subnet].table
    && EqualFold(st.servers[b.subnet].table[b.ip].mac, b.mac)
  }

  /** The event claims the binding's pair for the binding's MAC. */
  predicate Matches(e: Info, b: Info)
  {
    KeyOf(e) == KeyOf(b) && EqualFold(e.mac, b.mac)
  }

  /** The binding is in its server's table, or an event that will put its MAC there is in flight. */
  ghost predicate Held(st: State, b: Info)
  {
    b.subnet in st.servers ==> InTable(st, b) || exists e :: PendingAdd(st, e) && Matches(e, b)
  }

  ghost predicate NothingLost(st: State)
  {
    forall n :: n in st.cache ==> Held(st, st.cache[n])
  }

  /** An adding event that has not reached a server yet: on the channel or waiting for a retry. */
  predicate Upstream(st: State, e: Info)
  {
    e in st.addCh || e in st.addRetry
  }

  /** No add of another MAC is upstream for the pair. One that waits in the server's own queue does no harm: the claim enters that queue behind it. */
  predicate NoRivalAdd(st: State, b: Info)
  {
    && (forall e :: e in st.addCh && KeyOf(e) == KeyOf(b) ==> EqualFold(e.mac, b.mac))
    && (forall e :: e in st.addRetry && KeyOf(e) == KeyOf(b) ==> EqualFold(e.mac, b.mac))
  }

  /** No removal of this MAC is in flight for the pair. */
  ghost predicate NoOwnRemoval(st: State, b: Info)
  {
    forall d :: PendingDel(st, d) && KeyOf(d) == KeyOf(b) ==> !EqualFold(d.mac, b.mac)
  }

  predicate NoOtherHolder(cache: map<string, Info>, name: string, b: Info)
  {
    forall n :: n in cache && n != name ==> KeyOf(cache[n]) != KeyOf(b)
  }

  /** What is in flight for the pair agrees with the claim, and no other name holds the pair. Without a subnet no server is concerned. */
  ghost predicate Compatible(st: State, name: string, b: Info)
  {
    b.subnet != "" ==> NoRivalAdd(st, b) && NoOwnRemoval(st, b) && NoOtherHolder(st.cache, name, b)
  }

  /** A pair is claimed, or its MAC edited, only while what is in flight for it agrees. */
  ghost predicate Disciplined(st: State, step: Step)
  {
    step.Observe? && Announced(st.cache, step.name, step.info) ==> Compatible(st, step.name, step.info)
  }

  /** Stronger and simpler: a pair is claimed once in a run. */
  predicate Fresh(st: State, step: Step)
  {
    step.Observe? && Announced(st.cache, step.name, step.info) ==> !SeenKey(st, KeyOf(step.info))
  }

  lemma FreshIsDisciplined(st: State, step: Step)
    requires EventsSeen(st) && Fresh(st, step)
    ensures Disciplined(st, step)
  {
    if step.Observe? && Announced(st.cache, step.name, step.info) {
      forall e | Upstream(st, e)
        ensures KeyOf(e) != KeyOf(step.info)
      {
        assert PendingAdd(st, e);
      }
    }
  }

  // ---- the last add that a queue holds for an IP ----

  /** The last event for `ip` in the queue of a server: what the table will hold once the queue is empty. */
  function LastAdd(q: seq<Info>, ip: string): (r: Option<Info>)
    ensures r.Some? ==> r.value in q && r.value.ip == ip
    ensures r.None? ==> forall e :: e in q ==> e.ip != ip
  {
    if q == [] then None
    else if q[|q| - 1].ip == ip then Some(q[|q| - 1])
    else
      assert q == q[..|q| - 1] + [q[|q| - 1]];
      LastAdd(q[..|q| - 1], ip)
  }

  lemma LastAddAppend(q: seq<Info>, e: Info, ip: string)
    ensures LastAdd(q + [e], ip) == if e.ip == ip then Some(e) else LastAdd(q, ip)
  {
    assert (q + [e])[..|q|] == q;
  }

  /** Taking the head off the queue changes the last add only when the head is the only one. */
  lemma {:induction false} LastAddTail(q: seq<Info>, ip: string)
    requires q != []
    ensures LastAdd(q, ip) == if LastAdd(q[1..], ip).Some? || q[0].ip != ip then LastAdd(q[1..], ip) else Some(q[0])
  {
    if |q| > 1 && q[|q| - 1].ip != ip {
      LastAddTail(q[..|q| - 1], ip);
      assert q[..|q| - 1][1..] == q[1..][..|q| - 2];
    }
  }

  // ---- the invariant ----

  /** The binding's own event is on its way to the server. */
  ghost predicate Awaited(st: State, b: Info)
  {
    exists e :: Upstream(st, e) && Matches(e, b)
  }

  /** When the queue has been applied the table holds the binding's MAC. */
  predicate Settling(srv: Server, b: Info)
  {
    match LastAdd(srv.addQ, b.ip)
    case Some(e) => EqualFold(e.mac, b.mac)
    case None => b.ip in srv.table && EqualFold(srv.table[b.ip].mac, b.mac)
  }

  ghost predicate Secure(st: State, b: Info)
  {
    b.subnet in st.servers ==> Awaited(st, b) || Settling(st.servers[b.subnet], b)
  }

  predicate OneNamePerKey(cache: map<string, Info>)
  {
    forall n, m :: n in cache && m in cache && cache[n].subnet != "" && KeyOf(cache[n]) == KeyOf(cache[m]) ==> n == m
  }

  ghost predicate UpstreamMatches(st: State)
  {
    forall n :: n in st.cache && st.cache[n].subnet != "" ==> NoRivalAdd(st, st.cache[n])
  }

  ghost predicate NoStrayRemovals(st: State)
  {
    forall n :: n in st.cache && st.cache[n].subnet != "" ==> NoOwnRemoval(st, st.cache[n])
  }

  predicate OnChannel(st: State, k: Key)
  {
    exists i :: 0 <= i < |st.addCh| && KeyOf(st.addCh[i]) == k
  }

  /** Until events are routed, every cached binding still has its event on the channel. */
  ghost predicate Announcing(st: State)
  {
    st.phase != Routing ==> forall n :: n in st.cache ==> OnChannel(st, KeyOf(st.cache[n]))
  }

  ghost predicate AllSecure(st: State)
  {
    forall n :: n in st.cache ==> Secure(st, st.cache[n])
  }

  ghost predicate Inv(st: State)
  {
    && WellRouted(st)
    && OneNamePerKey(st.cache)
    && UpstreamMatches(st)
    && NoStrayRemovals(st)
    && Announcing(st)
    && AllSecure(st)
  }

  lemma SecureIsHeld(st: State, b: Info)
    requires WellRouted(st) && Secure(st, b)
    ensures Held(st, b)
  {
    if b.subnet in st.servers {
      if Awaited(st, b) {
        var e :| Upstream(st, e) && Matches(e, b);
        assert PendingAdd(st, e);
      } else if LastAdd(st.servers[b.subnet].addQ, b.ip).Some? {
        var e := LastAdd(st.servers[b.subnet].addQ, b.ip).value;
        assert PendingAdd(st, e) && Matches(e, b);
      }
    }
  }

  lemma InvHolds(st: State)
    requires Inv(st)
    ensures NothingLost(st)
  {
    forall n | n in st.cache
      ensures Held(st, st.cache[n])
    {
      SecureIsHeld(st, st.cache[n]);
    }
  }

  // ---- the cache after a step ----

  /** What a step does to the cache. */
  function NextCache(cache: map<string, Info>, step: Step): map<string, Info>
  {
    match step
    case Observe(name, info) => cache[name := info]
    case Forget(name) => if name in cache then cache - {name} else cache
    case _ => cache
  }

  lemma RoutingKeepsCache(st: State)
    ensures st.addCh != [] ==> RoutedAdd(st).cache == st.cache
    ensures st.delCh != [] ==> RoutedDel(st).cache == st.cache
  {
  }

  lemma WorkersKeepCache(st: State, step: Step)
    requires Enabled(st, step) && !step.Observe? && !step.Forget?
    ensures Next(st, step).cache == st.cache
  {
    match step
    case RouteAdd => RoutingKeepsCache(st);
    case RouteDel => RoutingKeepsCache(st);
    case LeaderStart(names) => assert Next(st, step) == Led(st, names);
    case StartServer(s, order) => assert Next(st, step) == Opened(st, s, order);
    case ApplyAdd(s) => assert Next(st, step) == AppliedAdd(st, s);
    case ApplyDel(s) => assert Next(st, step) == AppliedDel(st, s);
    case _ =>
  }

  lemma CacheStep(st: State, step: Step)
    requires Enabled(st, step)
    ensures Next(st, step).cache == NextCache(st.cache, step)
  {
    if step.Observe? {
      assert Next(st, step) == Observed(st, step.name, step.info);
    } else if step.Forget? {
      assert Next(st, step) == Forgotten(st, step.name);
    } else {
      WorkersKeepCache(st, step);
    }
  }

  /** A binding cached after a step was cached before it under the same key and an equal MAC, or has just been announced. */
  predicate Kept(cache: map<string, Info>, n: string, b': Info)
  {
    n in cache && KeyOf(cache[n]) == KeyOf(b') && EqualFold(cache[n].mac, b'.mac)
  }

  predicate JustAnnounced(cache: map<string, Info>, step: Step, n: string, b': Info)
  {
    step == Observe(n, b') && Announced(cache, n, b')
  }

  lemma CachedIn(cache: map<string, Info>, step: Step, n: string)
    requires n in NextCache(cache, step)
    ensures var b' := NextCache(cache, step)[n]; Kept(cache, n, b') || JustAnnounced(cache, step, n, b')
  {
  }

  lemma CachedStep(st: State, step: Step, n: string)
    requires Enabled(st, step) && n in Next(st, step).cache
    ensures var b' := Next(st, step).cache[n]; Kept(st.cache, n, b') || JustAnnounced(st.cache, step, n, b')
  {
    CacheStep(st, step);
    CachedIn(st.cache, step, n);
  }

  /** The announced pair is held by no other name. */
  predicate ClaimIsFree(cache: map<string, Info>, step: Step)
  {
    step.Observe? && Announced(cache, step.name, step.info) && step.info.subnet != "" ==>
      NoOtherHolder(cache, step.name, step.info)
  }

  lemma OneNameIn(cache: map<string, Info>, step: Step)
    requires OneNamePerKey(cache) && ClaimIsFree(cache, step)
    ensures OneNamePerKey(NextCache(cache, step))
  {
    var cache' := NextCache(cache, step);
    forall n, m | n in cache' && m in cache' && cache'[n].subnet != "" && KeyOf(cache'[n]) == KeyOf(cache'[m])
      ensures n == m
    {
      CachedIn(cache, step, n);
      CachedIn(cache, step, m);
    }
  }

  lemma OneNamePerKeyStep(st: State, step: Step)
    requires Inv(st) && Enabled(st, step) && Disciplined(st, step)
    ensures OneNamePerKey(Next(st, step).cache)
  {
    assert ClaimIsFree(st.cache, step);
    CacheStep(st, step);
    OneNameIn(st.cache, step);
  }

  /** Distinct names of one pair: at most one of them is cached with a subnet. */
  lemma SameName(cache: map<string, Info>, n: string, m: string)
    requires OneNamePerKey(cache) && n in cache && m in cache
    requires cache[n].subnet != "" && KeyOf(cache[n]) == KeyOf(cache[m])
    ensures n == m
  {
  }

  // ---- what goes upstream ----

  lemma RoutedUpstream(st: State, e: Info)
    requires st.addCh != []
    ensures Upstream(RoutedAdd(st), e) ==> Upstream(st, e)
    ensures Upstream(st, e) ==> Upstream(RoutedAdd(st), e) || e == st.addCh[0]
  {
    assert st.addCh == [st.addCh[0]] + st.addCh[1..];
  }

  lemma RoutedDelUpstream(st: State, e: Info)
    requires st.delCh != []
    ensures Upstream(RoutedDel(st), e) == Upstream(st, e)
  {
  }

  /** Only an announcement puts an add upstream, and only the router takes one off. */
  lemma UpstreamStep(st: State, step: Step, e: Info)
    requires Enabled(st, step)
    ensures Upstream(Next(st, step), e) ==>
              || Upstream(st, e)
              || (step.Observe? && Announced(st.cache, step.name, step.info) && e == step.info)
    ensures Upstream(st, e) ==> Upstream(Next(st, step), e) || (step.RouteAdd? && e == st.addCh[0])
  {
    match step
    case RouteAdd => RoutedUpstream(st, e);
    case RouteDel => RoutedDelUpstream(st, e);
    case Observe(name, info) => assert Next(st, step) == Observed(st, name, info);
    case Forget(name) => assert Next(st, step) == Forgotten(st, name);
    case LeaderStart(names) => assert Next(st, step) == Led(st, names);
    case StartServer(s, order) => assert Next(st, step) == Opened(st, s, order);
    case ApplyAdd(s) => assert Next(st, step) == AppliedAdd(st, s);
    case ApplyDel(s) => assert Next(st, step) == AppliedDel(st, s);
    case _ =>
  }

  lemma NoRivalIs(st: State, b: Info)
    ensures NoRivalAdd(st, b) <==> forall e :: Upstream(st, e) && KeyOf(e) == KeyOf(b) ==> EqualFold(e.mac, b.mac)
  {
    if (forall e :: Upstream(st, e) && KeyOf(e) == KeyOf(b) ==> EqualFold(e.mac, b.mac)) {
      forall e | e in st.addCh && KeyOf(e) == KeyOf(b)
        ensures EqualFold(e.mac, b.mac)
      {
        assert Upstream(st, e);
      }
      forall e | e in st.addRetry && KeyOf(e) == KeyOf(b)
        ensures EqualFold(e.mac, b.mac)
      {
        assert Upstream(st, e);
      }
    }
  }

  lemma NoRivalStep(st: State, step: Step, n: string)
    requires Inv(st) && Enabled(st, step) && Disciplined(st, step)
    requires n in Next(st, step).cache && Next(st, step).cache[n].subnet != ""
    ensures NoRivalAdd(Next(st, step), Next(st, step).cache[n])
  {
    var st', b' := Next(st, step), Next(st, step).cache[n];
    CachedStep(st, step, n);
    OneNamePerKeyStep(st, step);
    NoRivalIs(st', b');
    NoRivalIs(st, if JustAnnounced(st.cache, step, n, b') then b' else st.cache[n]);
    forall e | Upstream(st', e) && KeyOf(e) == KeyOf(b')
      ensures EqualFold(e.mac, b'.mac)
    {
      UpstreamStep(st, step, e);
      if !Upstream(st, e) {
        CacheStep(st, step);
        SameName(st'.cache, n, step.name);
      }
    }
  }

  lemma NoOwnRemovalStep(st: State, step: Step, n: string)
    requires Inv(st) && Enabled(st, step) && Disciplined(st, step)
    requires n in Next(st, step).cache && Next(st, step).cache[n].subnet != ""
    ensures NoOwnRemoval(Next(st, step), Next(st, step).cache[n])
  {
    var st', b' := Next(st, step), Next(st, step).cache[n];
    CachedStep(st, step, n);
    forall d | PendingDel(st', d) && KeyOf(d) == KeyOf(b')
      ensures !EqualFold(d.mac, b'.mac)
    {
      PendingDelStep(st, step, d);
      if step.Forget? {
        OtherPairForgotten(st, step.name, n);
      }
    }
  }

  /** What is forgotten is not the pair of a binding that stays. */
  lemma OtherPairForgotten(st: State, name: string, n: string)
    requires OneNamePerKey(st.cache) && n in Forgotten(st, name).cache && Forgotten(st, name).cache[n].subnet != ""
    ensures name in st.cache ==> KeyOf(st.cache[name]) != KeyOf(Forgotten(st, name).cache[n])
  {
    if name in st.cache {
      assert n != name && Forgotten(st, name).cache[n] == st.cache[n];
    }
  }

  // ---- nothing is announced away before the router reads ----

  /** Until events are routed the channel only grows, and what is announced is on it. */
  lemma ChannelGrows(st: State, step: Step)
    requires Enabled(st, step) && Next(st, step).phase != Routing
    ensures st.phase != Routing && st.addCh <= Next(st, step).addCh
    ensures step.Observe? && Announced(st.cache, step.name, step.info) ==> Next(st, step).addCh == st.addCh + [step.info]
  {
  }

  lemma OnLongerChannel(st: State, st': State, k: Key)
    requires st.addCh <= st'.addCh && OnChannel(st, k)
    ensures OnChannel(st', k)
  {
    var i :| 0 <= i < |st.addCh| && KeyOf(st.addCh[i]) == k;
    assert st'.addCh[i] == st.addCh[i];
  }

  lemma AnnouncedOn(st: State, step: Step, n: string)
    requires Announcing(st) && Enabled(st, step) && Next(st, step).phase != Routing && n in Next(st, step).cache
    ensures OnChannel(Next(st, step), KeyOf(Next(st, step).cache[n]))
  {
    ChannelGrows(st, step);
    CachedStep(st, step, n);
    if Kept(st.cache, n, Next(st, step).cache[n]) {
      OnLongerChannel(st, Next(st, step), KeyOf(st.cache[n]));
    } else {
      assert Next(st, step).addCh[|st.addCh|] == Next(st, step).cache[n];
    }
  }

  // ---- every step keeps a cached binding secure ----

  /** Equal MACs up to case are the same claim. */
  lemma SecureForCopy(st: State, b: Info, b': Info)
    requires Secure(st, b) && KeyOf(b) == KeyOf(b') && EqualFold(b.mac, b'.mac)
    ensures Secure(st, b')
  {
    if b.subnet in st.servers && Awaited(st, b) {
      var e :| Upstream(st, e) && Matches(e, b);
      assert Matches(e, b');
    }
  }

  /** What waits upstream waits on, or the router has just put it at the end of the queue. */
  lemma AwaitedStep(st: State, step: Step, b: Info)
    requires Awaited(st, b) && Enabled(st, step) && b.subnet != "" && b.subnet in Next(st, step).servers
    requires b.subnet in st.servers
    ensures Secure(Next(st, step), b)
  {
    var e :| Upstream(st, e) && Matches(e, b);
    UpstreamStep(st, step, e);
    if !Upstream(Next(st, step), e) {
      LastAddAppend(st.servers[b.subnet].addQ, e, b.ip);
      assert Next(st, step).servers[b.subnet] == st.servers[b.subnet].(addQ := st.servers[b.subnet].addQ + [e]);
    }
  }

  lemma RoutingKeepsSettling(st: State, b: Info)
    requires st.addCh != [] && b.subnet in st.servers && Settling(st.servers[b.subnet], b)
    requires KeyOf(st.addCh[0]) == KeyOf(b) ==> EqualFold(st.addCh[0].mac, b.mac)
    ensures b.subnet in RoutedAdd(st).servers && Settling(RoutedAdd(st).servers[b.subnet], b)
  {
    LastAddAppend(st.servers[b.subnet].addQ, st.addCh[0], b.ip);
  }

  lemma ApplyAddKeepsSettling(st: State, s: string, b: Info)
    requires Enabled(st, ApplyAdd(s)) && b.subnet in st.servers && Settling(st.servers[b.subnet], b)
    ensures Settling(AppliedAdd(st, s).servers[b.subnet], b)
  {
    LastAddTail(st.servers[s].addQ, b.ip);
  }

  lemma ApplyDelKeepsSettling(st: State, s: string, b: Info)
    requires WellRouted(st) && NoOwnRemoval(st, b)
    requires Enabled(st, ApplyDel(s)) && b.subnet in st.servers && Settling(st.servers[b.subnet], b)
    ensures Settling(AppliedDel(st, s).servers[b.subnet], b)
  {
    var d := st.servers[s].delQ[0];
    assert d in st.servers[s].delQ;
    assert PendingDel(st, d);
  }

  lemma RoutedDelKeepsAdds(st: State, s: string)
    requires st.delCh != [] && s in st.servers
    ensures s in RoutedDel(st).servers
    ensures RoutedDel(st).servers[s].addQ == st.servers[s].addQ && RoutedDel(st).servers[s].table == st.servers[s].table
  {
  }

  /** The other steps leave a running server as it is. */
  lemma ServerStays(st: State, step: Step, s: string)
    requires Enabled(st, step) && s in st.servers && s in Next(st, step).servers
    requires !step.RouteAdd? && !step.RouteDel? && !step.ApplyAdd? && !step.ApplyDel?
    ensures Next(st, step).servers[s] == st.servers[s]
  {
    match step
    case Observe(name, info) => assert Next(st, step) == Observed(st, name, info);
    case Forget(name) => assert Next(st, step) == Forgotten(st, name);
    case LeaderStart(names) => assert Led(st, names).servers[s] == st.servers[s];
    case StartServer(t, order) => assert Opened(st, t, order).servers[s] == st.servers[s];
    case _ =>
  }

  /** A queue and table that end with the binding's MAC keep doing so. */
  lemma SettlingStep(st: State, step: Step, b: Info)
    requires WellRouted(st) && NoRivalAdd(st, b) && NoOwnRemoval(st, b)
    requires Enabled(st, step) && b.subnet in st.servers && Settling(st.servers[b.subnet], b)
    requires b.subnet in Next(st, step).servers
    ensures Settling(Next(st, step).servers[b.subnet], b)
  {
    match step
    case RouteAdd => RoutingKeepsSettling(st, b);
    case RouteDel => RoutedDelKeepsAdds(st, b.subnet);
    case ApplyAdd(s) => ApplyAddKeepsSettling(st, s, b);
    case ApplyDel(s) => ApplyDelKeepsSettling(st, s, b);
    case _ => ServerStays(st, step, b.subnet);
  }

  /** The bulk load ends the queue for the IP with the one binding that claims it. */
  lemma LoadedSecures(st: State, order: seq<string>, n: string)
    requires n in st.cache && OneNamePerKey(st.cache) && st.cache[n].subnet != ""
    requires Lists(st.cache, st.cache[n].subnet, order)
    ensures LastAdd(Loaded(st.cache, order), st.cache[n].ip) == Some(st.cache[n])
  {
    var b, q := st.cache[n], Loaded(st.cache, order);
    var i :| 0 <= i < |order| && order[i] == n;
    assert q[i] == b;
    assert b in q && b.ip == b.ip;
    var e := LastAdd(q, b.ip).value;
    var j :| 0 <= j < |q| && q[j] == e;
    SameName(st.cache, n, order[j]);
  }

  /** A server that has just started knows of the binding: from the cache, or from the channel nobody has read yet. */
  lemma StartStep(st: State, step: Step, n: string)
    requires Inv(st) && Enabled(st, step) && n in st.cache
    requires st.cache[n].subnet !in st.servers && st.cache[n].subnet in Next(st, step).servers
    ensures Secure(Next(st, step), st.cache[n])
  {
    var b := st.cache[n];
    WellRoutedStep(st, step);
    NewServerIs(st, step, b.subnet);
    if step.LeaderStart? {
      LedAwaits(st, step.names, n);
    } else {
      LoadedSecures(st, step.order, n);
    }
  }

  lemma NewServerIs(st: State, step: Step, s: string)
    requires Enabled(st, step) && s !in st.servers && s in Next(st, step).servers
    ensures step.LeaderStart? ==> st.phase == Waiting
    ensures step.LeaderStart? || (step == StartServer(s, step.order) && Lists(st.cache, s, step.order))
    ensures step.StartServer? ==> Next(st, step).servers[s] == Server(Loaded(st.cache, step.order), [], map[])
  {
    RoutingKeepsServers(st);
  }

  lemma RoutingKeepsServers(st: State)
    ensures st.addCh != [] ==> RoutedAdd(st).servers.Keys == st.servers.Keys
    ensures st.delCh != [] ==> RoutedDel(st).servers.Keys == st.servers.Keys
  {
  }

  lemma LedAwaits(st: State, names: set<string>, n: string)
    requires Inv(st) && st.phase != Routing && n in st.cache && st.cache[n].subnet != ""
    ensures Awaited(Led(st, names), st.cache[n])
  {
    var b := st.cache[n];
    var i :| 0 <= i < |st.addCh| && KeyOf(st.addCh[i]) == KeyOf(b);
    assert NoRivalAdd(st, b);
    assert Upstream(Led(st, names), st.addCh[i]) && Matches(st.addCh[i], b);
  }

  lemma KeptStaysSecure(st: State, step: Step, n: string)
    requires Inv(st) && Enabled(st, step) && n in st.cache
    ensures Secure(Next(st, step), st.cache[n])
  {
    var b := st.cache[n];
    if b.subnet in Next(st, step).servers {
      WellRoutedStep(st, step);
      if b.subnet !in st.servers {
        StartStep(st, step, n);
      } else if Awaited(st, b) {
        AwaitedStep(st, step, b);
      } else {
        SettlingStep(st, step, b);
      }
    }
  }

  lemma SecureStep(st: State, step: Step, n: string)
    requires Inv(st) && Enabled(st, step) && n in Next(st, step).cache
    ensures Secure(Next(st, step), Next(st, step).cache[n])
  {
    var st', b' := Next(st, step), Next(st, step).cache[n];
    CachedStep(st, step, n);
    if Kept(st.cache, n, b') {
      KeptStaysSecure(st, step, n);
      SecureForCopy(st', st.cache[n], b');
    } else {
      assert st'.addCh[|st.addCh|] == b';
      assert Upstream(st', b') && Matches(b', b');
    }
  }

  lemma InvStep(st: State, step: Step)
    requires Inv(st) && Enabled(st, step) && Disciplined(st, step)
    ensures Inv(Next(st, step))
  {
    var st' := Next(st, step);
    WellRoutedStep(st, step);
    OneNamePerKeyStep(st, step);
    forall n | n in st'.cache
      ensures Secure(st', st'.cache[n])
      ensures st'.cache[n].subnet != "" ==> NoRivalAdd(st', st'.cache[n]) && NoOwnRemoval(st', st'.cache[n])
      ensures st'.phase != Routing ==> OnChannel(st', KeyOf(st'.cache[n]))
    {
      SecureStep(st, step, n);
      if st'.cache[n].subnet != "" {
        NoRivalStep(st, step, n);
        NoOwnRemovalStep(st, step, n);
      }
      if st'.phase != Routing {
        AnnouncedOn(st, step, n);
      }
    }
  }

  /** No lost binding, for runs in which a pair is claimed only while what is in flight for it agrees. */
  lemma {:induction false} NoBindingIsLost(states: seq<State>, steps: seq<Step>, k: nat)
    requires IsRun(states, steps) && k < |states|
    requires forall i :: 0 <= i < k ==> Disciplined(states[i], steps[i])
    ensures Inv(states[k])
    ensures NothingLost(states[k])
  {
    if k > 0 {
      NoBindingIsLost(states, steps, k - 1);
      assert states[k] == Next(states[k - 1], steps[k - 1]);
      InvStep(states[k - 1], steps[k - 1]);
    }
    InvHolds(states[k]);
  }

  /** No lost binding, for runs in which no pair is claimed twice; the binding may be edited to a pair never used before. */
  lemma NoBindingIsLostWithoutReuse(states: seq<State>, steps: seq<Step>, k: nat)
    requires IsRun(states, steps) && k < |states|
    requires forall i :: 0 <= i < |steps| ==> Fresh(states[i], steps[i])
    ensures NothingLost(states[k])
  {
    forall i | 0 <= i < |steps|
      ensures Disciplined(states[i], steps[i])
    {
      EveryEntryWasCachedForItsSubnet(states, steps, i);
      FreshIsDisciplined(states[i], steps[i]);
    }
    NoBindingIsLost(states, steps, k);
  }
}
