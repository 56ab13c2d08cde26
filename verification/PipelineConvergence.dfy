/**
  When the tables agree with the cache: what a run must keep so that, whenever nothing is in
  flight for a pair, the table of a running server has an entry for it exactly when some cached
  binding claims it.
 */
module PipelineConvergence {
  import opened Text
  import opened Bindings
  import opened BindingPipeline
  import opened PipelineSafety

  /** The pair that a cached binding stops claiming: the binding is forgotten, or moved to another pair. */
  function GivenUp(cache: map<string, Info>, step: Step): Option<Key>
  {
    match step
    case Forget(name) => if name in cache then Some(KeyOf(cache[name])) else None
    case Observe(name, info) =>
      if name in cache && KeyOf(cache[name]) != KeyOf(info) then Some(KeyOf(cache[name])) else None
    case _ => None
  }

  /** A pair is given up only when no add for it is in flight; and since a move sends no removal, a binding moves only while the server it leaves is not running. */
  ghost predicate Orderly(st: State, step: Step)
  {
    match GivenUp(st.cache, step)
    case None => true
    case Some(k) => k.subnet != "" ==> !AddFor(st, k) && (step.Observe? ==> k.subnet !in st.servers)
  }

  predicate CachedKeyIn(cache: map<string, Info>, k: Key)
  {
    exists n :: n in cache && KeyOf(cache[n]) == k
  }

  predicate CachedKey(st: State, k: Key)
  {
    CachedKeyIn(st.cache, k)
  }

  /** Every add in flight is for a binding that is still cached. */
  ghost predicate AddsOwned(st: State)
  {
    forall e :: PendingAdd(st, e) && e.subnet != "" ==> CachedKey(st, KeyOf(e))
  }

  ghost predicate RemovalFor(st: State, k: Key, mac: string)
  {
    exists e :: PendingDel(st, e) && KeyOf(e) == k && EqualFold(mac, e.mac)
  }

  ghost predicate EntryOwned(st: State, s: string, ip: string)
    requires s in st.servers && ip in st.servers[s].table
  {
    CachedKey(st, Key(s, ip)) || RemovalFor(st, Key(s, ip), st.servers[s].table[ip].mac)
  }

  /** Every table entry is for a cached binding, or the event that removes it is in flight. */
  ghost predicate EntriesOwned(st: State)
  {
    forall s, ip :: s in st.servers && ip in st.servers[s].table ==> EntryOwned(st, s, ip)
  }

  ghost predicate Tidy(st: State)
  {
    Inv(st) && AddsOwned(st) && EntriesOwned(st)
  }

  /** A key stays cached unless the step gives it up. */
  lemma CachedKeyStep(st: State, step: Step, k: Key)
    requires Enabled(st, step) && CachedKey(st, k)
    ensures CachedKey(Next(st, step), k) || GivenUp(st.cache, step) == Some(k)
  {
    CacheStep(st, step);
    var n :| n in st.cache && KeyOf(st.cache[n]) == k;
    if n in NextCache(st.cache, step) && KeyOf(NextCache(st.cache, step)[n]) == k {
      assert CachedKeyIn(NextCache(st.cache, step), k);
    }
  }

  lemma AddOwnedStep(st: State, step: Step, e: Info)
    requires Tidy(st) && Enabled(st, step) && Orderly(st, step)
    requires PendingAdd(Next(st, step), e) && e.subnet != ""
    ensures CachedKey(Next(st, step), KeyOf(e))
  {
    var st' := Next(st, step);
    PendingAddStep(st, step, e);
    CacheStep(st, step);
    if PendingAdd(st, e) {
      CachedKeyStep(st, step, KeyOf(e));
      assert AddFor(st, KeyOf(e));
    } else if step.Observe? {
      assert st'.cache[step.name] == e;
    } else {
      var n :| n in st.cache && e == st.cache[n];
      assert st'.cache[n] == e;
    }
  }

  /** Forgetting a settled binding sends the event that removes its entry. */
  lemma ForgottenEntry(st: State, name: string)
    requires Inv(st) && name in st.cache && !AddFor(st, KeyOf(st.cache[name]))
    requires st.cache[name].subnet in st.servers
    ensures var b := st.cache[name];
            InTable(st, b) && RemovalFor(Forgotten(st, name), KeyOf(b), st.servers[b.subnet].table[b.ip].mac)
  {
    var b, st' := st.cache[name], Forgotten(st, name);
    InvHolds(st);
    assert Held(st, b);
    assert st'.delCh[|st.delCh|] == Removal(b);
    assert PendingDel(st', Removal(b)) && KeyOf(Removal(b)) == KeyOf(b);
  }

  /** A removal in flight stays in flight until it has removed the entry. */
  lemma RemovalStep(st: State, step: Step, s: string, ip: string)
    requires Inv(st) && Enabled(st, step)
    requires s in st.servers && ip in st.servers[s].table && RemovalFor(st, Key(s, ip), st.servers[s].table[ip].mac)
    requires s in Next(st, step).servers && ip in Next(st, step).servers[s].table
    requires Next(st, step).servers[s].table[ip] == st.servers[s].table[ip]
    ensures RemovalFor(Next(st, step), Key(s, ip), st.servers[s].table[ip].mac)
  {
    var e :| PendingDel(st, e) && KeyOf(e) == Key(s, ip) && EqualFold(st.servers[s].table[ip].mac, e.mac);
    PendingDelStep(st, step, e);
    if step.ApplyDel? && e == st.servers[step.subnet].delQ[0] {
      assert e in st.servers[step.subnet].delQ;
    }
    assert PendingDel(Next(st, step), e);
  }

  /** A step that gives up the pair of a standing entry forgets a settled binding. */
  lemma GivenUpEntry(st: State, step: Step, s: string, ip: string)
    requires Inv(st) && Enabled(st, step) && Orderly(st, step) && s in st.servers && s != ""
    requires GivenUp(st.cache, step) == Some(Key(s, ip))
    requires s in Next(st, step).servers && ip in Next(st, step).servers[s].table
    requires ip in st.servers[s].table && Next(st, step).servers[s].table[ip] == st.servers[s].table[ip]
    ensures EntryOwned(Next(st, step), s, ip)
  {
    assert step.Forget? && KeyOf(st.cache[step.name]) == Key(s, ip);
    assert Next(st, step) == Forgotten(st, step.name);
    ForgottenEntry(st, step.name);
  }

  lemma EntryOwnedStep(st: State, step: Step, s: string, ip: string)
    requires Tidy(st) && Enabled(st, step) && Orderly(st, step)
    requires s in Next(st, step).servers && ip in Next(st, step).servers[s].table
    ensures EntryOwned(Next(st, step), s, ip)
  {
    var k := Key(s, ip);
    WellRoutedStep(st, step);
    EntryStep(st, step, s, ip);
    if step == ApplyAdd(s) && st.servers[s].addQ[0].ip == ip {
      var e := st.servers[s].addQ[0];
      assert e in st.servers[s].addQ;
      assert PendingAdd(st, e) && KeyOf(e) == k;
      CachedKeyStep(st, step, k);
    } else if CachedKey(st, k) {
      CachedKeyStep(st, step, k);
      if GivenUp(st.cache, step) == Some(k) {
        GivenUpEntry(st, step, s, ip);
      }
    } else {
      assert EntryOwned(st, s, ip);
      RemovalStep(st, step, s, ip);
    }
  }

  lemma TidyStep(st: State, step: Step)
    requires Tidy(st) && Enabled(st, step) && Disciplined(st, step) && Orderly(st, step)
    ensures Tidy(Next(st, step))
  {
    var st' := Next(st, step);
    InvStep(st, step);
    forall e | PendingAdd(st', e) && e.subnet != ""
      ensures CachedKey(st', KeyOf(e))
    {
      AddOwnedStep(st, step, e);
    }
    forall s, ip | s in st'.servers && ip in st'.servers[s].table
      ensures EntryOwned(st', s, ip)
    {
      EntryOwnedStep(st, step, s, ip);
    }
  }

  lemma {:induction false} OrderlyRunsAreTidy(states: seq<State>, steps: seq<Step>, k: nat)
    requires IsRun(states, steps) && k < |states|
    requires forall i :: 0 <= i < k ==> Disciplined(states[i], steps[i]) && Orderly(states[i], steps[i])
    ensures Tidy(states[k])
  {
    if k > 0 {
      OrderlyRunsAreTidy(states, steps, k - 1);
      assert states[k] == Next(states[k - 1], steps[k - 1]);
      TidyStep(states[k - 1], steps[k - 1]);
    }
  }

  /** The server's table has an entry for the pair exactly when it is cached, and then with the MAC of every binding that claims it. */
  predicate EntryAgrees(st: State, k: Key)
    requires k.subnet in st.servers
  {
    && (k.ip in st.servers[k.subnet].table <==> CachedKey(st, k))
    && forall n :: n in st.cache && KeyOf(st.cache[n]) == k ==> InTable(st, st.cache[n])
  }

  /** If the server runs and nothing is in flight for the pair, table and cache agree on it. */
  ghost predicate Agrees(st: State, k: Key)
  {
    k.subnet in st.servers && !AddFor(st, k) && !DelFor(st, k) ==> EntryAgrees(st, k)
  }

  lemma TidyAgrees(st: State, k: Key)
    requires Tidy(st)
    ensures Agrees(st, k)
  {
    if k.subnet in st.servers && !AddFor(st, k) && !DelFor(st, k) {
      if k.ip in st.servers[k.subnet].table {
        assert EntryOwned(st, k.subnet, k.ip);
      }
      InvHolds(st);
      forall n | n in st.cache && KeyOf(st.cache[n]) == k
        ensures InTable(st, st.cache[n])
      {
        assert Held(st, st.cache[n]);
      }
    }
  }

  /** Convergence: in an orderly run, whenever nothing is in flight for a pair of a running server, whatever else is, the table holds the pair exactly when it is cached, with the cached MAC up to case. */
  lemma TablesAgreeWithCache(states: seq<State>, steps: seq<Step>, k: nat, s: string, ip: string)
    requires IsRun(states, steps) && k < |states|
    requires forall i :: 0 <= i < |steps| ==> Disciplined(states[i], steps[i]) && Orderly(states[i], steps[i])
    requires s in states[k].servers
    requires !AddFor(states[k], Key(s, ip)) && !DelFor(states[k], Key(s, ip))
    ensures var st := states[k];
            ip in st.servers[s].table <==>
              exists n :: n in st.cache && KeyOf(st.cache[n]) == Key(s, ip) && InTable(st, st.cache[n])
    ensures ip in states[k].servers[s].table <==> CachedKey(states[k], Key(s, ip))
  {
    OrderlyRunsAreTidy(states, steps, k);
    var st := states[k];
    TidyAgrees(st, Key(s, ip));
  }
}
