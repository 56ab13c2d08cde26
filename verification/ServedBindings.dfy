/**
  From cached bindings to the hosts file: the steps of the pipeline that concern one server are
  branches of that server's monitor, so what its hosts file holds follows from what is cached.
 */
module ServedBindings {
  import opened Text
  import opened Bindings
  import opened BindingPipeline
  import opened PipelineSafety
  import opened PipelineConvergence
  import opened HostsFile
  import Leases
  import D = DhcpServer

  /** What the file system and dnsmasq answer while one event is applied. */
  datatype Answer = Answer(write: D.Write, reloadOk: bool)

  const NOTHING_ARRIVES := D.Arrive([], [])

  const NEW := D.BindingState(map[], [], [], false)

  /** What a step of the pipeline is for the server of a subnet. */
  function BranchOf(st: State, step: Step, s: string, ans: Answer): D.Branch
    requires Enabled(st, step)
  {
    match step
    case RouteAdd => if st.addCh[0].subnet == s then D.Arrive([st.addCh[0]], []) else NOTHING_ARRIVES
    case RouteDel => if st.delCh[0].subnet == s then D.Arrive([], [st.delCh[0]]) else NOTHING_ARRIVES
    case ApplyAdd(t) => if t == s then D.TakeAdded(ans.write, ans.reloadOk) else NOTHING_ARRIVES
    case ApplyDel(t) => if t == s then D.TakeDeleted(ans.write, ans.reloadOk) else NOTHING_ARRIVES
    case _ => NOTHING_ARRIVES
  }

  /** The branches of monitor that take no binding event. */
  predicate Unrelated(branches: seq<D.Branch>)
  {
    forall i :: 0 <= i < |branches| ==> branches[i].LeaseWritten? || branches[i].Renew?
  }

  /** Everything that happened to the server that runs in state k since it was started: the bulk load, then branch by branch; `between(i)` is what its monitor did besides in state i. */
  function History(states: seq<State>, steps: seq<Step>, k: nat, s: string, answers: nat -> Answer, between: nat -> seq<D.Branch>): seq<D.Branch>
    requires IsRun(states, steps) && k < |states| && s in states[k].servers
  {
    (if k == 0 || s !in states[k - 1].servers then [D.Arrive(states[k].servers[s].addQ, [])]
     else History(states, steps, k - 1, s, answers, between) + [BranchOf(states[k - 1], steps[k - 1], s, answers(k - 1))])
    + between(k)
  }

  /** The server object has the queues and the table of the pipeline's server. */
  predicate Mirrors(b: D.BindingState, srv: Server)
  {
    b.added == srv.addQ && b.deleted == srv.delQ && b.table == srv.table
  }

  lemma {:induction false} AllTakenConcat(b: D.BindingState, front: seq<D.Branch>, back: seq<D.Branch>)
    ensures D.AllTaken(b, front + back) == D.AllTaken(D.AllTaken(b, front), back)
  {
    if back == [] {
      assert front + back == front;
    } else {
      AllTakenConcat(b, front, back[..|back| - 1]);
      assert (front + back)[..|front + back| - 1] == front + back[..|back| - 1];
    }
  }

  lemma {:induction false} UnrelatedKeep(b: D.BindingState, branches: seq<D.Branch>)
    requires Unrelated(branches)
    ensures D.AllTaken(b, branches) == b.(written := D.AllTaken(b, branches).written)
  {
    if branches != [] {
      UnrelatedKeep(b, branches[..|branches| - 1]);
    }
  }

  lemma OneTaken(b: D.BindingState, branch: D.Branch)
    ensures D.AllTaken(b, [branch]) == D.Taken(b, branch)
  {
    assert [branch][..0] == [];
  }

  lemma RoutedAddMirrors(st: State, s: string, ans: Answer, b: D.BindingState)
    requires s != "" && s in st.servers && Mirrors(b, st.servers[s]) && Enabled(st, RouteAdd)
    ensures s in RoutedAdd(st).servers && Mirrors(D.Taken(b, BranchOf(st, RouteAdd, s, ans)), RoutedAdd(st).servers[s])
  {
    var q := st.servers[s].addQ;
    assert q + [] == q;
  }

  lemma RoutedDelMirrors(st: State, s: string, ans: Answer, b: D.BindingState)
    requires s != "" && s in st.servers && Mirrors(b, st.servers[s]) && Enabled(st, RouteDel)
    ensures s in RoutedDel(st).servers && Mirrors(D.Taken(b, BranchOf(st, RouteDel, s, ans)), RoutedDel(st).servers[s])
  {
    var q := st.servers[s].delQ;
    assert q + [] == q;
  }

  lemma NothingMirrors(b: D.BindingState)
    ensures D.Taken(b, NOTHING_ARRIVES) == b
  {
  }

  lemma AppliedAddMirrors(st: State, t: string, s: string, ans: Answer, b: D.BindingState)
    requires s in st.servers && Mirrors(b, st.servers[s]) && Enabled(st, ApplyAdd(t))
    ensures Mirrors(D.Taken(b, BranchOf(st, ApplyAdd(t), s, ans)), AppliedAdd(st, t).servers[s])
  {
    if t != s {
      NothingMirrors(b);
    }
  }

  lemma AppliedDelMirrors(st: State, t: string, s: string, ans: Answer, b: D.BindingState)
    requires s in st.servers && Mirrors(b, st.servers[s]) && Enabled(st, ApplyDel(t))
    ensures Mirrors(D.Taken(b, BranchOf(st, ApplyDel(t), s, ans)), AppliedDel(st, t).servers[s])
  {
    if t != s {
      NothingMirrors(b);
    }
  }

  /** One step: the object takes the branch, the pipeline's server makes the step. */
  lemma StepMirrors(st: State, step: Step, s: string, ans: Answer, b: D.BindingState)
    requires s != "" && s in st.servers && Mirrors(b, st.servers[s])
    requires Enabled(st, step) && s in Next(st, step).servers
    ensures Mirrors(D.Taken(b, BranchOf(st, step, s, ans)), Next(st, step).servers[s])
  {
    match step
    case RouteAdd => RoutedAddMirrors(st, s, ans, b);
    case RouteDel => RoutedDelMirrors(st, s, ans, b);
    case ApplyAdd(t) => AppliedAddMirrors(st, t, s, ans, b);
    case ApplyDel(t) => AppliedDelMirrors(st, t, s, ans, b);
    case _ => {
      NothingMirrors(b);
      ServerStays(st, step, s);
    }
  }

  /** A server starts with empty removals and an empty table. */
  lemma StartMirrors(st: State, step: Step, s: string)
    requires Enabled(st, step) && s !in st.servers && s in Next(st, step).servers
    ensures Mirrors(D.Taken(NEW, D.Arrive(Next(st, step).servers[s].addQ, [])), Next(st, step).servers[s])
  {
    NewServerIs(st, step, s);
    if step.LeaderStart? {
      assert Led(st, step.names).servers[s] == Idle;
    }
  }

  /** The history is the pipeline's server: after it the object has exactly the queues and the table that the state machine gives the server. */
  lemma {:induction false} HistoryMirrors(states: seq<State>, steps: seq<Step>, k: nat, s: string, answers: nat -> Answer, between: nat -> seq<D.Branch>)
    requires IsRun(states, steps) && k < |states| && s in states[k].servers
    requires forall i :: Unrelated(between(i))
    ensures Mirrors(D.AllTaken(NEW, History(states, steps, k, s, answers, between)), states[k].servers[s])
  {
    EveryEntryWasCachedForItsSubnet(states, steps, k);
    assert states[k] == Next(states[k - 1], steps[k - 1]);
    if s !in states[k - 1].servers {
      var load := D.Arrive(states[k].servers[s].addQ, []);
      StartMirrors(states[k - 1], steps[k - 1], s);
      OneTaken(NEW, load);
      AllTakenConcat(NEW, [load], between(k));
      UnrelatedKeep(D.AllTaken(NEW, [load]), between(k));
    } else {
      var past := History(states, steps, k - 1, s, answers, between);
      var branch := BranchOf(states[k - 1], steps[k - 1], s, answers(k - 1));
      var before := D.AllTaken(NEW, past);
      HistoryMirrors(states, steps, k - 1, s, answers, between);
      StepMirrors(states[k - 1], steps[k - 1], s, answers(k - 1), before);
      OneTaken(before, branch);
      AllTakenConcat(NEW, past, [branch]);
      AllTakenConcat(NEW, past + [branch], between(k));
      UnrelatedKeep(D.AllTaken(NEW, past + [branch]), between(k));
    }
  }

  /** A new server object whose monitor takes the branches. */
  method Serve(settings: Leases.Settings, left: string, branches: seq<D.Branch>) returns (server: D.Server)
    ensures fresh(server) && server.Valid() && server.LeasesKept() && server.Bindings() == D.AllTaken(NEW, branches)
  {
    server := new D.Server(settings, left);
    server.Monitor(branches);
  }

  /** The schema's patterns and the object's name keep separators out of every field. */
  predicate CleanInfo(i: Info)
  {
    Clean(i.ip) && Clean(i.mac) && '\n' !in i.hostname && (i.mac != "" ==> i.mac[0] != '#')
  }

  lemma TableIsClean(st: State, s: string)
    requires Provenance(st) && s in st.servers
    requires forall i :: i in st.seen ==> CleanInfo(i)
    ensures CleanTable(st.servers[s].table)
  {
    forall ip | ip in st.servers[s].table
      ensures Clean(ip) && Clean(st.servers[s].table[ip].mac) && '\n' !in st.servers[s].table[ip].hostname
      ensures st.servers[s].table[ip].mac != "" ==> st.servers[s].table[ip].mac[0] != '#'
    {
      assert Sourced(st, s, ip);
      var i :| i in st.seen && KeyOf(i) == Key(s, ip) && ClientOf(i) == st.servers[s].table[ip];
      assert CleanInfo(i);
    }
  }

  /** End to end: in a disciplined, orderly run, when nothing is in flight for a pair and the last write of the server's hosts file succeeded, that file, read back, binds the IP exactly when the pair is cached, and then to the cached MAC up to case. */
  lemma HostsFileFollowsCache(server: D.Server, states: seq<State>, steps: seq<Step>, k: nat, s: string, ip: string,
                              answers: nat -> Answer, between: nat -> seq<D.Branch>)
    requires IsRun(states, steps) && k < |states| && s in states[k].servers
    requires forall i :: 0 <= i < |steps| ==> Disciplined(states[i], steps[i]) && Orderly(states[i], steps[i])
    requires !AddFor(states[k], Key(s, ip)) && !DelFor(states[k], Key(s, ip))
    requires forall i :: i in states[k].seen ==> CleanInfo(i)
    requires forall i :: Unrelated(between(i))
    requires server.Valid() && server.written
    requires server.Bindings() == D.AllTaken(NEW, History(states, steps, k, s, answers, between))
    ensures ip in Read(server.hostsFile) <==> CachedKey(states[k], Key(s, ip))
    ensures forall n :: n in states[k].cache && KeyOf(states[k].cache[n]) == Key(s, ip) ==>
              EqualFold(Read(server.hostsFile)[ip], states[k].cache[n].mac)
  {
    HistoryMirrors(states, steps, k, s, answers, between);
    EveryEntryWasCachedForItsSubnet(states, steps, k);
    TableIsClean(states[k], s);
    OrderlyRunsAreTidy(states, steps, k);
    TidyAgrees(states[k], Key(s, ip));
    assert Read(server.hostsFile) == Macs(states[k].servers[s].table);
    forall n | n in states[k].cache && KeyOf(states[k].cache[n]) == Key(s, ip)
      ensures ip in Read(server.hostsFile) && EqualFold(Read(server.hostsFile)[ip], states[k].cache[n].mac)
    {
      assert InTable(states[k], states[k].cache[n]);
    }
  }
}
