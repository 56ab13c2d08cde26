/**
  Admission and binding pipeline together: requests to the API server interleaved with the steps
  of the pipeline and of the subnet reconciler, which see an object in any version that was ever
  stored. What admission promises about stored bindings then holds of the tables of the running
  servers; what a server counts is the range in its own copy of the Subnet.
 */
module AdmittedPipeline {
  import opened Text
  import opened Address
  import opened DottedQuad
  import opened Ranges
  import opened Counting
  import opened Bindings
  import opened BindingPipeline
  import opened PipelineSafety
  import opened Usage
  import Leases
  import A = Admission

  /** A request; a step of the pipeline, with the specs of the Subnets whose servers it starts; or UpdateService, which hands a running server a spec. */
  datatype Move =
    | Api(req: A.Request)
    | Pipe(step: Step, given: map<string, A.SubnetSpec>)
    | Update(subnet: string, spec: A.SubnetSpec)

  /** The stored objects, every binding and every Subnet that was ever stored under its name, the pipeline, and each running server's own copy of its Subnet. */
  datatype World = World(
    store: A.Store,
    past: set<(string, A.BindingSpec)>,
    specs: set<(string, A.SubnetSpec)>,
    pipe: State,
    copies: map<string, A.SubnetSpec>)

  const Start := World(A.Store(map[], map[]), {}, {}, Init, map[])

  function SpecOf(i: Info): A.BindingSpec
  {
    A.BindingSpec(i.subnet, i.ip, i.mac)
  }

  function Stored(store: A.Store): set<(string, A.BindingSpec)>
  {
    set n | n in store.bindings :: (n, store.bindings[n])
  }

  function StoredSpecs(store: A.Store): set<(string, A.SubnetSpec)>
  {
    set n | n in store.subnets :: (n, store.subnets[n])
  }

  /** The reconcilers see, however late, what was stored under the name at some time. */
  predicate CanMove(w: World, move: Move)
  {
    match move
    case Api(_) => true
    case Pipe(step, given) =>
      && Enabled(w.pipe, step)
      && (step.Observe? ==> (step.name, SpecOf(step.info)) in w.past)
      && given.Keys == Next(w.pipe, step).servers.Keys - w.pipe.servers.Keys
      && forall s :: s in given ==> (s, given[s]) in w.specs
    case Update(s, spec) => s in w.pipe.servers && (s, spec) in w.specs
  }

  function Moved(env: A.Env, w: World, move: Move): World
    requires CanMove(w, move)
  {
    match move
    case Api(req) =>
      var store := A.Serve(env, w.store, req);
      w.(store := store, past := w.past + Stored(store), specs := w.specs + StoredSpecs(store))
    case Pipe(step, given) =>
      var next := Next(w.pipe, step);
      w.(pipe := next, copies := w.copies - (w.pipe.servers.Keys - next.servers.Keys) + given)
    case Update(s, spec) => w.(copies := w.copies[s := spec])
  }

  predicate IsJointRun(env: A.Env, worlds: seq<World>, moves: seq<Move>)
  {
    && |worlds| == |moves| + 1
    && worlds[0] == Start
    && forall i :: 0 <= i < |moves| ==> IsMove(env, worlds[i], moves[i], worlds[i + 1])
  }

  predicate IsMove(env: A.Env, w: World, move: Move, w': World)
  {
    CanMove(w, move) && w' == Moved(env, w, move)
  }

  // ---- what every joint run keeps ----

  ghost predicate WasStored(w: World, i: Info)
  {
    exists n :: (n, SpecOf(i)) in w.past
  }

  /** Each running server, and no other, has a copy, and it is a version of its Subnet. */
  predicate CopiesKept(w: World)
  {
    w.copies.Keys == w.pipe.servers.Keys && forall s :: s in w.copies ==> (s, w.copies[s]) in w.specs
  }

  ghost predicate Joined(env: A.Env, w: World)
  {
    && A.Sound(env, w.store)
    && Provenance(w.pipe)
    && (forall i :: i in w.pipe.seen ==> WasStored(w, i))
    && CopiesKept(w)
  }

  lemma PipeKeepsCopies(env: A.Env, w: World, step: Step, given: map<string, A.SubnetSpec>)
    requires CopiesKept(w) && CanMove(w, Pipe(step, given))
    ensures CopiesKept(Moved(env, w, Pipe(step, given)))
  {
  }

  lemma PipeKeepsJoined(env: A.Env, w: World, step: Step, given: map<string, A.SubnetSpec>)
    requires Joined(env, w) && CanMove(w, Pipe(step, given))
    ensures Joined(env, Moved(env, w, Pipe(step, given)))
  {
    var w' := Moved(env, w, Pipe(step, given));
    PipeKeepsCopies(env, w, step, given);
    WellRoutedStep(w.pipe, step);
    EventsSeenStep(w.pipe, step);
    TablesSourcedStep(w.pipe, step);
    SeenStep(w.pipe, step);
    forall i | i in w'.pipe.seen
      ensures WasStored(w', i)
    {
      if i in w.pipe.seen {
        var n :| (n, SpecOf(i)) in w.past;
        assert (n, SpecOf(i)) in w'.past;
      } else {
        assert (step.name, SpecOf(i)) in w'.past;
      }
    }
  }

  lemma WorkersKeepSeen(st: State, step: Step)
    requires Enabled(st, step) && !step.Observe?
    ensures Next(st, step).seen == st.seen
  {
    match step
    case Forget(name) => assert Next(st, step) == Forgotten(st, name);
    case RouteAdd => RoutingKeepsHistory(st);
    case RouteDel => RoutingKeepsHistory(st);
    case LeaderStart(names) => assert Next(st, step) == Led(st, names);
    case StartServer(s, order) => assert Next(st, step) == Opened(st, s, order);
    case ApplyAdd(s) => assert Next(st, step) == AppliedAdd(st, s);
    case ApplyDel(s) => assert Next(st, step) == AppliedDel(st, s);
    case _ =>
  }

  /** Only observing adds to what was seen. */
  lemma SeenStep(st: State, step: Step)
    requires Enabled(st, step)
    ensures forall i :: i in Next(st, step).seen ==> i in st.seen || (step.Observe? && i == step.info)
  {
    if step.Observe? {
      assert Next(st, step) == Observed(st, step.name, step.info);
    } else {
      WorkersKeepSeen(st, step);
    }
  }

  lemma ApiKeepsJoined(env: A.Env, w: World, req: A.Request)
    requires Joined(env, w)
    ensures Joined(env, Moved(env, w, Api(req)))
  {
    var w' := Moved(env, w, Api(req));
    A.ServeKeepsSound(env, w.store, req, w'.store);
    forall i | i in w'.pipe.seen
      ensures WasStored(w', i)
    {
      var n :| (n, SpecOf(i)) in w.past;
      assert (n, SpecOf(i)) in w'.past;
    }
  }

  lemma UpdateKeepsJoined(env: A.Env, w: World, s: string, spec: A.SubnetSpec)
    requires Joined(env, w) && CanMove(w, Update(s, spec))
    ensures Joined(env, Moved(env, w, Update(s, spec)))
  {
    var w' := Moved(env, w, Update(s, spec));
    assert w'.copies.Keys == w.copies.Keys;
    forall i | i in w'.pipe.seen
      ensures WasStored(w', i)
    {
      assert WasStored(w, i);
    }
  }

  lemma {:induction false} EveryWorldIsJoined(env: A.Env, worlds: seq<World>, moves: seq<Move>, k: nat)
    requires IsJointRun(env, worlds, moves) && k < |worlds|
    ensures Joined(env, worlds[k])
  {
    if k > 0 {
      EveryWorldIsJoined(env, worlds, moves, k - 1);
      assert IsMove(env, worlds[k - 1], moves[k - 1], worlds[k]);
      match moves[k - 1]
      case Api(req) => ApiKeepsJoined(env, worlds[k - 1], req);
      case Pipe(step, given) => PipeKeepsJoined(env, worlds[k - 1], step, given);
      case Update(s, spec) => UpdateKeepsJoined(env, worlds[k - 1], s, spec);
    }
  }

  /** Every binding ever stored for the Subnet is valid for the Subnet as it is now. */
  predicate AllStayValid(env: A.Env, w: World, s: string)
  {
    forall x :: x in w.past && x.1.subnet == s ==> A.ComputesValid(env, w.store, x.1)
  }

  lemma StaysValid(env: A.Env, st: A.Store, req: A.Request, b: A.BindingSpec)
    requires A.ComputesValid(env, st, b) && req != A.DeleteSubnet(b.subnet)
    ensures A.ComputesValid(env, A.Serve(env, st, req), b)
  {
    A.ServeKeepsSubnet(env, st, req, b.subnet);
  }

  lemma NewIsValid(env: A.Env, st: A.Store, req: A.Request, x: (string, A.BindingSpec))
    requires x in Stored(A.Serve(env, st, req)) && x !in Stored(st)
    ensures A.ComputesValid(env, A.Serve(env, st, req), x.1)
  {
  }

  lemma MoveKeepsValid(env: A.Env, w: World, move: Move, s: string)
    requires CanMove(w, move) && AllStayValid(env, w, s) && move != Api(A.DeleteSubnet(s)) && Stored(w.store) <= w.past
    ensures AllStayValid(env, Moved(env, w, move), s) && Stored(Moved(env, w, move).store) <= Moved(env, w, move).past
  {
    if move.Api? {
      var w' := Moved(env, w, move);
      forall x | x in w'.past && x.1.subnet == s
        ensures A.ComputesValid(env, w'.store, x.1)
      {
        if x in w.past {
          StaysValid(env, w.store, move.req, x.1);
        } else {
          NewIsValid(env, w.store, move.req, x);
        }
      }
    }
  }

  lemma {:induction false} StoredStayValid(env: A.Env, worlds: seq<World>, moves: seq<Move>, k: nat, s: string)
    requires IsJointRun(env, worlds, moves) && k < |worlds|
    requires forall i :: 0 <= i < k ==> moves[i] != Api(A.DeleteSubnet(s))
    ensures AllStayValid(env, worlds[k], s) && Stored(worlds[k].store) <= worlds[k].past
  {
    if k > 0 {
      StoredStayValid(env, worlds, moves, k - 1, s);
      assert IsMove(env, worlds[k - 1], moves[k - 1], worlds[k]);
      MoveKeepsValid(env, worlds[k - 1], moves[k - 1], s);
    }
  }

  // ---- the tables of the servers ----

  /** A table entry is a binding that was stored for the Subnet. */
  lemma EntryWasStored(env: A.Env, worlds: seq<World>, moves: seq<Move>, k: nat, s: string, ip: string) returns (x: (string, A.BindingSpec))
    requires IsJointRun(env, worlds, moves) && k < |worlds|
    requires s in worlds[k].pipe.servers && ip in worlds[k].pipe.servers[s].table
    ensures x in worlds[k].past && x.1.subnet == s && x.1.ip == ip
  {
    var w := worlds[k];
    EveryWorldIsJoined(env, worlds, moves, k);
    assert Sourced(w.pipe, s, ip);
    var i :| i in w.pipe.seen && KeyOf(i) == Key(s, ip) && ClientOf(i) == w.pipe.servers[s].table[ip];
    assert WasStored(w, i);
    var n :| (n, SpecOf(i)) in w.past;
    x := (n, SpecOf(i));
  }

  /** Admission reaches the servers: as long as a Subnet has not been deleted, every key of its server's table is an address in the Subnet's current range, however late the pipeline sees the objects. */
  lemma BoundKeysAreInRange(env: A.Env, worlds: seq<World>, moves: seq<Move>, k: nat, s: string, ip: string)
    requires IsJointRun(env, worlds, moves) && k < |worlds|
    requires forall i :: 0 <= i < k ==> moves[i] != Api(A.DeleteSubnet(s))
    requires s in worlds[k].pipe.servers && ip in worlds[k].pipe.servers[s].table
    ensures s in worlds[k].store.subnets && env.parseIP(ip).Some?
    ensures InRange(env.parseIP, worlds[k].store.subnets[s].ipRange, env.parseIP(ip).value)
  {
    var x := EntryWasStored(env, worlds, moves, k, s, ip);
    StoredStayValid(env, worlds, moves, k, s);
  }

  /** net.ParseIP on the texts that the schema pattern of ipAddr admits. */
  function ReadQuad(text: string): Option<IP>
  {
    match ParseQuad(text)
    case Some(q) => Some(Mapped(q))
    case None => None
  }

  /** A version of a Subnet is what was stored in some earlier world. */
  lemma {:induction false} VersionWasStored(env: A.Env, worlds: seq<World>, moves: seq<Move>, k: nat, s: string, spec: A.SubnetSpec) returns (j: nat)
    requires IsJointRun(env, worlds, moves) && k < |worlds| && (s, spec) in worlds[k].specs
    ensures j <= k && s in worlds[j].store.subnets && worlds[j].store.subnets[s] == spec
  {
    assert k > 0;
    var was, move := worlds[k - 1], moves[k - 1];
    assert IsMove(env, was, move, worlds[k]);
    if (s, spec) in was.specs {
      j := VersionWasStored(env, worlds, moves, k - 1, s, spec);
    } else {
      assert (s, spec) in StoredSpecs(worlds[k].store);
      j := k;
    }
  }

  /** The server's copy is the Subnet as it was stored in some world up to now. */
  lemma CopyWasStored(env: A.Env, worlds: seq<World>, moves: seq<Move>, k: nat, s: string) returns (j: nat)
    requires IsJointRun(env, worlds, moves) && k < |worlds| && s in worlds[k].pipe.servers
    ensures s in worlds[k].copies && j <= k && IsCopyOf(worlds, j, k, s)
  {
    EveryWorldIsJoined(env, worlds, moves, k);
    j := VersionWasStored(env, worlds, moves, k, s, worlds[k].copies[s]);
  }

  /** The server of world k has the Subnet as it was stored in world j. */
  predicate IsCopyOf(worlds: seq<World>, j: nat, k: nat, s: string)
    requires j < |worlds| && k < |worlds|
  {
    && s in worlds[k].pipe.servers && s in worlds[k].copies && s in worlds[j].store.subnets
    && worlds[k].copies[s] == worlds[j].store.subnets[s]
  }

  /** No binding of the Subnet has first been stored since world j. */
  predicate NoneSince(worlds: seq<World>, j: nat, k: nat, s: string)
    requires j < |worlds| && k < |worlds|
  {
    forall x :: x in worlds[k].past && x.1.subnet == s ==> x in worlds[j].past
  }

  lemma BoundKeyFits(env: A.Env, worlds: seq<World>, moves: seq<Move>, j: nat, k: nat, s: string, ip: string)
    requires IsJointRun(env, worlds, moves) && j <= k < |worlds|
    requires forall i :: 0 <= i < j ==> moves[i] != Api(A.DeleteSubnet(s))
    requires IsCopyOf(worlds, j, k, s) && NoneSince(worlds, j, k, s) && ip in worlds[k].pipe.servers[s].table
    requires forall x :: x in worlds[k].past ==> env.parseIP(x.1.ip) == ReadQuad(x.1.ip)
    ensures KeyInRange(env.parseIP, worlds[k].copies[s].ipRange, ip)
  {
    var x := EntryWasStored(env, worlds, moves, k, s, ip);
    StoredStayValid(env, worlds, moves, j, s);
    assert A.ComputesValid(env, worlds[j].store, x.1);
    assert env.parseIP(ip) == ReadQuad(ip);
  }

  /** The amounts that a server stores are exact when its copy is recent enough: if it is the Subnet of a world up to which the Subnet was not deleted and since which no binding of it has first been stored, then bound addresses, and leases in the range, cannot make the available amount wrap, in any network but 0.0.0.0/0. */
  lemma AvailableIsExact(env: A.Env, worlds: seq<World>, moves: seq<Move>, j: nat, k: nat, s: string, leases: Leases.Table)
    requires IsJointRun(env, worlds, moves) && j <= k < |worlds|
    requires forall i :: 0 <= i < j ==> moves[i] != Api(A.DeleteSubnet(s))
    requires IsCopyOf(worlds, j, k, s) && NoneSince(worlds, j, k, s)
    requires forall x :: x in worlds[k].past ==> env.parseIP(x.1.ip) == ReadQuad(x.1.ip)
    requires var copy := worlds[k].copies[s];
             && (env.parseNet(copy.cidr).Some? ==> env.parseNet(copy.cidr).value.ones > 0)
             && |Elements(env.parseIP, copy.ipRange)| <= TWO_32
             && forall ip :: ip in leases ==> KeyInRange(env.parseIP, copy.ipRange, ip)
    ensures var range, bound := worlds[k].copies[s].ipRange, worlds[k].pipe.servers[s].table;
            && Used(leases, bound) <= Total(env.parseIP, range)
            && Available(env.parseIP, range, leases, bound) == Total(env.parseIP, range) - Used(leases, bound)
  {
    var copy, bound := worlds[k].copies[s], worlds[k].pipe.servers[s].table;
    EveryWorldIsJoined(env, worlds, moves, j);
    assert A.RangesAccepted(env, worlds[j].store);
    AcceptedCountIsExact(env.parseIP, copy.ipRange, env.parseNet(copy.cidr).value);
    forall ip | ip in leases.Keys + bound.Keys
      ensures KeyInRange(env.parseIP, copy.ipRange, ip)
    {
      if ip in bound {
        BoundKeyFits(env, worlds, moves, j, k, s, ip);
      }
    }
    AvailableNeverWraps(env.parseIP, copy.ipRange, leases, bound);
  }

  // ---- runs in which the amount wraps ----

  /** The move deletes none of these Subnets. */
  predicate Spares(move: Move, kept: set<string>)
  {
    move.Api? && move.req.DeleteSubnet? ==> move.req.name !in kept
  }

  /** The world ends some joint run in which none of these Subnets is ever deleted. */
  ghost predicate Reachable(env: A.Env, w: World, kept: set<string>)
  {
    exists worlds, moves :: IsJointRun(env, worlds, moves) && worlds[|moves|] == w && AllKeep(moves, kept)
  }

  predicate AllKeep(moves: seq<Move>, kept: set<string>)
  {
    forall i :: 0 <= i < |moves| ==> Spares(moves[i], kept)
  }

  lemma StartReached(env: A.Env, kept: set<string>)
    ensures Reachable(env, Start, kept)
  {
    assert IsJointRun(env, [Start], []) && AllKeep([], kept);
  }

  lemma ReachedNext(env: A.Env, w: World, move: Move, w': World, kept: set<string>)
    requires Reachable(env, w, kept) && IsMove(env, w, move, w') && Spares(move, kept)
    ensures Reachable(env, w', kept)
  {
    var worlds, moves :| IsJointRun(env, worlds, moves) && worlds[|moves|] == w && AllKeep(moves, kept);
    var worlds', moves' := worlds + [w'], moves + [move];
    forall i | 0 <= i < |moves'|
      ensures IsMove(env, worlds'[i], moves'[i], worlds'[i + 1]) && Spares(moves'[i], kept)
    {
      if i < |moves| {
        assert IsMove(env, worlds[i], moves[i], worlds[i + 1]) && Spares(moves[i], kept);
      }
    }
    assert IsJointRun(env, worlds', moves') && worlds'[|moves'|] == w' && AllKeep(moves', kept);
  }

  /** A request is served. */
  lemma ServedReached(env: A.Env, w: World, req: A.Request, store: A.Store, kept: set<string>) returns (w': World)
    requires Reachable(env, w, kept) && A.Serve(env, w.store, req) == store && Spares(Api(req), kept)
    ensures Reachable(env, w', kept)
    ensures w' == w.(store := store, past := w.past + Stored(store), specs := w.specs + StoredSpecs(store))
  {
    w' := Moved(env, w, Api(req));
    ReachedNext(env, w, Api(req), w', kept);
  }

  /** The pipeline makes a step that starts and stops no server. */
  lemma SteppedReached(env: A.Env, w: World, step: Step, st: State, kept: set<string>) returns (w': World)
    requires Reachable(env, w, kept) && CanMove(w, Pipe(step, map[])) && Next(w.pipe, step) == st
    requires st.servers.Keys == w.pipe.servers.Keys
    ensures Reachable(env, w', kept) && w' == w.(pipe := st)
  {
    w' := Moved(env, w, Pipe(step, map[]));
    assert w.copies - (w.pipe.servers.Keys - st.servers.Keys) + map[] == w.copies;
    ReachedNext(env, w, Pipe(step, map[]), w', kept);
  }

  /** The subnet reconciler starts the server of a Subnet as it is stored. */
  lemma OpenedReached(env: A.Env, w: World, s: string, order: seq<string>, kept: set<string>) returns (w': World)
    requires Reachable(env, w, kept) && s in w.store.subnets && StoredSpecs(w.store) <= w.specs
    requires Enabled(w.pipe, StartServer(s, order))
    ensures Reachable(env, w', kept)
    ensures w' == w.(pipe := Opened(w.pipe, s, order), copies := w.copies + map[s := w.store.subnets[s]])
  {
    var move := Pipe(StartServer(s, order), map[s := w.store.subnets[s]]);
    assert (s, w.store.subnets[s]) in StoredSpecs(w.store);
    assert Opened(w.pipe, s, order).servers.Keys - w.pipe.servers.Keys == {s};
    assert CanMove(w, move);
    w' := Moved(env, w, move);
    assert w.pipe.servers.Keys - Opened(w.pipe, s, order).servers.Keys == {};
    ReachedNext(env, w, move, w', kept);
  }

  /** The network text and the server address in it that both Subnets of the run have. */
  predicate Setting(env: A.Env, cidr: string, server: string)
  {
    && env.parseNet(cidr).Some? && env.parseCIDRAddress(server).Some?
    && Contains(env.parseNet(cidr).value, env.parseCIDRAddress(server).value)
  }

  /** Into a store without Subnets comes one with the one address `ip`. */
  lemma OneSubnet(env: A.Env, was: World, s: string, cidr: string, ip: string, server: string, kept: set<string>) returns (w: World)
    requires Reachable(env, was, kept) && was.store.subnets == map[]
    requires Setting(env, cidr, server) && A.Spells(env, ip, env.parseNet(cidr).value)
    ensures Reachable(env, w, kept) && StoredSpecs(w.store) <= w.specs
    ensures w == was.(store := was.store.(subnets := map[s := A.OneAddressSubnet(cidr, ip, server)]), past := w.past, specs := w.specs)
    ensures was.past <= w.past
  {
    var spec := A.OneAddressSubnet(cidr, ip, server);
    A.OneAddressAdmitted(env, was.store, s, cidr, ip, server);
    w := ServedReached(env, was, A.CreateSubnet(s, spec, A.ALL_WELL), was.store.(subnets := map[s := spec]), kept);
  }

  /** A binding that is admitted is stored. */
  lemma OneBound(env: A.Env, was: World, n: string, b: A.BindingSpec, kept: set<string>) returns (w: World)
    requires Reachable(env, was, kept) && StoredSpecs(was.store) <= was.specs
    requires n !in was.store.bindings && A.BindingAdmitted(env, was.store, n, b, A.ALL_WELL)
    ensures Reachable(env, w, kept) && StoredSpecs(w.store) <= w.specs && was.past <= w.past && (n, b) in w.past
    ensures w == was.(store := was.store.(bindings := was.store.bindings[n := b]), past := w.past, specs := w.specs)
  {
    var store := was.store.(bindings := was.store.bindings[n := b]);
    w := ServedReached(env, was, A.CreateBinding(n, b, A.ALL_WELL), store, kept);
    assert store.bindings[n] == b && (n, b) in Stored(store);
  }

  lemma BoundToOneAddress(env: A.Env, was: World, s: string, n: string, cidr: string, ip: string, server: string, mac: string, kept: set<string>)
      returns (w: World)
    requires Reachable(env, was, kept) && StoredSpecs(was.store) <= was.specs
    requires was.store.subnets == map[s := A.OneAddressSubnet(cidr, ip, server)]
    requires Setting(env, cidr, server) && A.Spells(env, ip, env.parseNet(cidr).value) && env.isUnicastMac(mac)
    requires n !in was.store.bindings
    requires forall m :: m in was.store.bindings ==> was.store.bindings[m].ip != ip && !EqualFold(was.store.bindings[m].mac, mac)
    ensures Reachable(env, w, kept) && StoredSpecs(w.store) <= w.specs && was.past <= w.past && (n, A.BindingSpec(s, ip, mac)) in w.past
    ensures w == was.(store := was.store.(bindings := was.store.bindings[n := A.BindingSpec(s, ip, mac)]), past := w.past, specs := w.specs)
  {
    A.OneAddressRange(env, ip, env.parseNet(cidr).value);
    w := OneBound(env, was, n, A.BindingSpec(s, ip, mac), kept);
  }

  /** The Subnet is recreated around a binding of an address it no longer has, and a second binding takes the one address it has. */
  lemma StoreOfTwo(env: A.Env, s: string, n: string, m: string, cidr: string, ip: string, other: string, server: string, macs: (string, string))
      returns (w: World)
    requires Setting(env, cidr, server)
    requires A.Spells(env, ip, env.parseNet(cidr).value) && A.Spells(env, other, env.parseNet(cidr).value)
    requires ip != other && n != m && !EqualFold(macs.0, macs.1)
    requires env.isUnicastMac(macs.0) && env.isUnicastMac(macs.1)
    ensures Reachable(env, w, {}) && w.pipe == Init && w.copies == map[] && StoredSpecs(w.store) <= w.specs
    ensures w.store.subnets == map[s := A.OneAddressSubnet(cidr, other, server)]
    ensures (n, A.BindingSpec(s, ip, macs.0)) in w.past && (m, A.BindingSpec(s, other, macs.1)) in w.past
  {
    StartReached(env, {});
    var w1 := OneSubnet(env, Start, s, cidr, ip, server, {});
    var w2 := BoundToOneAddress(env, w1, s, n, cidr, ip, server, macs.0, {});
    assert w2.store.subnets - {s} == map[];
    var w3 := ServedReached(env, w2, A.DeleteSubnet(s), w2.store.(subnets := map[]), {});
    var w4 := OneSubnet(env, w3, s, cidr, other, server, {});
    w := BoundToOneAddress(env, w4, s, m, cidr, other, server, macs.1, {});
  }

  lemma TwoListed(s: string, n: string, m: string, i1: Info, i2: Info)
    requires n != m && i1.subnet == s && i2.subnet == s
    ensures var cache := Observed(Observed(Init, n, i1), m, i2).cache;
            && cache == map[n := i1][m := i2] && Lists(cache, s, [n, m]) && Loaded(cache, [n, m]) == [i1, i2]
  {
    assert [n, m][0] == n && [n, m][1] == m;
  }

  lemma TwoApplied(st: State, s: string, i1: Info, i2: Info) returns (st1: State, st2: State)
    requires s in st.servers && st.servers[s] == Server([i1, i2], [], map[]) && i1.ip != i2.ip
    ensures Enabled(st, ApplyAdd(s)) && st1 == Next(st, ApplyAdd(s))
    ensures Enabled(st1, ApplyAdd(s)) && st2 == Next(st1, ApplyAdd(s))
    ensures st1.servers.Keys == st2.servers.Keys == st.servers.Keys
    ensures s in st2.servers && st2.servers[s].table.Keys == {i1.ip, i2.ip}
  {
    st1 := AppliedAdd(st, s);
    assert st1.servers[s] == Server([i2], [], map[i1.ip := ClientOf(i1)]);
    st2 := AppliedAdd(st1, s);
    assert st2.servers[s].table == map[i1.ip := ClientOf(i1)][i2.ip := ClientOf(i2)];
  }

  lemma TwoOfOneWrap(env: A.Env, net: IPNet, ip: string, other: string, bound: map<string, Client>)
    requires A.Spells(env, other, net) && ip != other && bound.Keys == {ip, other}
    ensures var range := other + ['-'] + other;
            && Total(env.parseIP, range) == 1 && Used(map[], bound) == 2
            && Available(env.parseIP, range, map[], bound) == TWO_64 - 1
  {
    var x := env.parseIP(other).value;
    var e := Span(x, x);
    A.OneAddressRange(env, other, net);
    DashedPair(env.parseIP, other, other);
    assert EndsWithin(Elements(env.parseIP, other + ['-'] + other)[0], net);
    AcceptedIsCountable(e, net);
    OneElementCounts(e);
    var none: Leases.Table := map[];
    assert none.Keys + bound.Keys == {ip, other};
    AvailableExact(1, 2);
  }

  lemma BothObserved(env: A.Env, was: World, n: string, m: string, i1: Info, i2: Info, kept: set<string>) returns (w: World)
    requires Reachable(env, was, kept) && was.pipe == Init
    requires (n, SpecOf(i1)) in was.past && (m, SpecOf(i2)) in was.past
    ensures Reachable(env, w, kept) && w == was.(pipe := Observed(Observed(Init, n, i1), m, i2))
  {
    var st1 := Observed(Init, n, i1);
    var st2 := Observed(st1, m, i2);
    var w1 := SteppedReached(env, was, Observe(n, i1), st1, kept);
    w := SteppedReached(env, w1, Observe(m, i2), st2, kept);
  }

  /** The two events of a server's bulk load are applied. */
  lemma BothApplied(env: A.Env, was: World, s: string, i1: Info, i2: Info, kept: set<string>) returns (w: World)
    requires Reachable(env, was, kept)
    requires s in was.pipe.servers && was.pipe.servers[s] == Server([i1, i2], [], map[]) && i1.ip != i2.ip
    ensures Reachable(env, w, kept) && w == was.(pipe := w.pipe)
    ensures s in w.pipe.servers && w.pipe.servers[s].table.Keys == {i1.ip, i2.ip}
  {
    var st1, st2 := TwoApplied(was.pipe, s, i1, i2);
    var w1 := SteppedReached(env, was, ApplyAdd(s), st1, kept);
    w := SteppedReached(env, w1, ApplyAdd(s), st2, kept);
  }

  /** Two stored bindings of a stored Subnet are observed, loaded into its new server and applied. */
  lemma BothServed(env: A.Env, was: World, s: string, n: string, m: string, i1: Info, i2: Info, kept: set<string>) returns (w: World)
    requires Reachable(env, was, kept) && was.pipe == Init && was.copies == map[]
    requires s in was.store.subnets && StoredSpecs(was.store) <= was.specs
    requires (n, SpecOf(i1)) in was.past && (m, SpecOf(i2)) in was.past
    requires s != "" && n != m && i1.subnet == s && i2.subnet == s && i1.ip != i2.ip
    ensures Reachable(env, w, kept) && w.store == was.store && w.copies == map[s := was.store.subnets[s]]
    ensures s in w.pipe.servers && w.pipe.servers[s].table.Keys == {i1.ip, i2.ip}
  {
    var w1 := BothObserved(env, was, n, m, i1, i2, kept);
    TwoListed(s, n, m, i1, i2);
    assert s !in w1.pipe.servers;
    var w2 := OpenedReached(env, w1, s, [n, m], kept);
    w := BothApplied(env, w2, s, i1, i2, kept);
  }

  /** The server counts one address, uses two, and stores 2^64 - 1 as available. */
  predicate Wraps(env: A.Env, w: World, s: string)
  {
    && s in w.pipe.servers && s in w.copies
    && var range, bound := w.copies[s].ipRange, w.pipe.servers[s].table;
       && Total(env.parseIP, range) == 1 && Used(map[], bound) == 2
       && Available(env.parseIP, range, map[], bound) == TWO_64 - 1
  }

  /** A run in which the amount wraps although the server's copy is the stored Subnet: one with one address is deleted and created anew with another one; the old binding, still stored, and a binding of the new address are both loaded into the new server. */
  lemma RecreatedSubnetWraps(env: A.Env, s: string, n: string, m: string, cidr: string, ip: string, other: string, server: string, macs: (string, string))
      returns (w: World)
    requires Setting(env, cidr, server)
    requires A.Spells(env, ip, env.parseNet(cidr).value) && A.Spells(env, other, env.parseNet(cidr).value)
    requires s != "" && ip != other && n != m && !EqualFold(macs.0, macs.1)
    requires env.isUnicastMac(macs.0) && env.isUnicastMac(macs.1)
    ensures Reachable(env, w, {}) && Wraps(env, w, s)
    ensures s in w.store.subnets && w.copies[s] == w.store.subnets[s]
  {
    var w1 := StoreOfTwo(env, s, n, m, cidr, ip, other, server, macs);
    w := BothServed(env, w1, s, n, m, Info(s, ip, macs.0, true, n), Info(s, other, macs.1, true, m), {});
    TwoOfOneWrap(env, env.parseNet(cidr).value, ip, other, w.pipe.servers[s].table);
  }

  // ---- a copy that lags ----

  /** The text of the two addresses, each a start-end part. */
  function TwoAddressRange(ip: string, other: string): string
  {
    ip + ['-'] + ip + [','] + (other + ['-'] + other)
  }

  function TwoAddressSubnet(cidr: string, ip: string, other: string, server: string): A.SubnetSpec
  {
    A.OneAddressSubnet(cidr, ip, server).(ipRange := TwoAddressRange(ip, other))
  }

  lemma TwoAddresses(env: A.Env, ip: string, other: string, net: IPNet)
    requires A.Spells(env, ip, net) && A.Spells(env, other, net)
    ensures Accepted(env.parseIP, TwoAddressRange(ip, other), net)
    ensures InRange(env.parseIP, TwoAddressRange(ip, other), env.parseIP(other).value)
    ensures Expands(env.parseIP, ip + ['-'] + ip, TwoAddressRange(ip, other), net)
  {
    var p, a, b := env.parseIP, env.parseIP(ip).value, env.parseIP(other).value;
    TwoDashed(p, ip, other);
    DashedPair(p, ip, ip);
    CompareSelf(a);
    CompareSelf(b);
    var fs := Elements(p, TwoAddressRange(ip, other));
    assert fs == [Span(a, a), Span(b, b)];
    assert Denotes(fs[1], b);
    assert Reaches(fs[0], Span(a, a));
    assert Reached(Elements(p, ip + ['-'] + ip)[0], fs);
  }

  /** The stored Subnet is widened by a second address. */
  lemma Widened(env: A.Env, was: World, s: string, cidr: string, ip: string, other: string, server: string, kept: set<string>) returns (w: World)
    requires Reachable(env, was, kept) && was.store.subnets == map[s := A.OneAddressSubnet(cidr, ip, server)]
    requires Setting(env, cidr, server)
    requires A.Spells(env, ip, env.parseNet(cidr).value) && A.Spells(env, other, env.parseNet(cidr).value)
    ensures StoredSpecs(w.store) <= w.specs
    ensures Reachable(env, w, kept) && was.past <= w.past
    ensures w == was.(store := was.store.(subnets := map[s := TwoAddressSubnet(cidr, ip, other, server)]), past := w.past, specs := w.specs)
  {
    var net, spec := env.parseNet(cidr).value, TwoAddressSubnet(cidr, ip, other, server);
    TwoAddresses(env, ip, other, net);
    assert A.Default(env, spec) == spec;
    assert A.SubnetAdmitted(env, was.store, s, spec, A.ALL_WELL);
    assert was.store.subnets[s := spec] == map[s := spec];
    w := ServedReached(env, was, A.UpdateSubnet(s, spec, A.ALL_WELL), was.store.(subnets := map[s := spec]), kept);
  }

  /** Events are routed before any object exists. */
  lemma RouterReached(env: A.Env, kept: set<string>) returns (w: World)
    ensures Reachable(env, w, kept) && w == Start.(pipe := Init.(phase := Routing))
  {
    StartReached(env, kept);
    var st1 := Next(Init, LeaderStart({}));
    assert st1 == Init.(phase := Started);
    w := SteppedReached(env, Start, LeaderStart({}), st1, kept);
    w := SteppedReached(env, w, StartRouting, Init.(phase := Routing), kept);
  }

  lemma Delivered(st: State, n: string, i: Info) returns (st1: State, st2: State, st3: State)
    requires n !in st.cache && st.phase == Routing && st.addCh == [] && i.subnet != "" && i.subnet in st.servers
    requires st.servers[i.subnet].addQ == [] && i.ip !in st.servers[i.subnet].table
    ensures st1 == Next(st, Observe(n, i)) && st1.servers.Keys == st.servers.Keys
    ensures Enabled(st1, RouteAdd) && st2 == Next(st1, RouteAdd) && st2.servers.Keys == st.servers.Keys
    ensures Enabled(st2, ApplyAdd(i.subnet)) && st3 == Next(st2, ApplyAdd(i.subnet)) && st3.servers.Keys == st.servers.Keys
    ensures st3.phase == Routing && st3.addCh == [] && st3.cache == st.cache[n := i] && st3.servers[i.subnet].addQ == []
    ensures st3.servers[i.subnet].table == st.servers[i.subnet].table[i.ip := ClientOf(i)]
  {
    var s := i.subnet;
    st1 := Observed(st, n, i);
    assert st1.addCh == [i];
    st2 := RoutedAdd(st1);
    assert st2.servers[s] == Server([i], st.servers[s].delQ, st.servers[s].table);
    st3 := AppliedAdd(st2, s);
    assert st3.servers[s].addQ == [];
  }

  /** A stored binding is observed, routed to its idle server and applied. */
  lemma AppliedReached(env: A.Env, was: World, n: string, i: Info, kept: set<string>) returns (w: World)
    requires Reachable(env, was, kept) && (n, SpecOf(i)) in was.past && n !in was.pipe.cache
    requires was.pipe.phase == Routing && was.pipe.addCh == [] && i.subnet != "" && i.subnet in was.pipe.servers
    requires was.pipe.servers[i.subnet].addQ == [] && i.ip !in was.pipe.servers[i.subnet].table
    ensures Reachable(env, w, kept) && w == was.(pipe := w.pipe)
    ensures w.pipe.phase == Routing && w.pipe.addCh == [] && w.pipe.cache == was.pipe.cache[n := i]
    ensures w.pipe.servers.Keys == was.pipe.servers.Keys && w.pipe.servers[i.subnet].addQ == []
    ensures w.pipe.servers[i.subnet].table == was.pipe.servers[i.subnet].table[i.ip := ClientOf(i)]
  {
    var st1, st2, st3 := Delivered(was.pipe, n, i);
    var w1 := SteppedReached(env, was, Observe(n, i), st1, kept);
    var w2 := SteppedReached(env, w1, RouteAdd, st2, kept);
    w := SteppedReached(env, w2, ApplyAdd(i.subnet), st3, kept);
  }

  /** The one-address Subnet, its server started with it, and a binding of the address applied. */
  lemma FirstAddressServed(env: A.Env, s: string, n: string, cidr: string, ip: string, server: string, mac: string) returns (w: World)
    requires Setting(env, cidr, server) && A.Spells(env, ip, env.parseNet(cidr).value) && s != "" && env.isUnicastMac(mac)
    ensures Reachable(env, w, {s}) && StoredSpecs(w.store) <= w.specs
    ensures w.store == A.Store(map[s := A.OneAddressSubnet(cidr, ip, server)], map[n := A.BindingSpec(s, ip, mac)])
    ensures w.copies == map[s := A.OneAddressSubnet(cidr, ip, server)]
    ensures w.pipe.phase == Routing && w.pipe.addCh == [] && w.pipe.cache.Keys == {n} && w.pipe.servers.Keys == {s}
    ensures w.pipe.servers[s].addQ == [] && w.pipe.servers[s].table.Keys == {ip}
  {
    var i := Info(s, ip, mac, true, n);
    var w1 := RouterReached(env, {s});
    var w2 := OneSubnet(env, w1, s, cidr, ip, server, {s});
    assert Lists(w2.pipe.cache, s, []);
    var w3 := OpenedReached(env, w2, s, [], {s});
    assert w3.pipe.servers[s] == Idle;
    var w4 := BoundToOneAddress(env, w3, s, n, cidr, ip, server, mac, {s});
    w := AppliedReached(env, w4, n, i, {s});
  }

  lemma SecondAdmitted(env: A.Env, store: A.Store, s: string, n: string, m: string, cidr: string, ip: string, other: string, server: string, macs: (string, string))
    requires Setting(env, cidr, server)
    requires A.Spells(env, ip, env.parseNet(cidr).value) && A.Spells(env, other, env.parseNet(cidr).value)
    requires ip != other && n != m && !EqualFold(macs.0, macs.1) && env.isUnicastMac(macs.1)
    requires store == A.Store(map[s := TwoAddressSubnet(cidr, ip, other, server)], map[n := A.BindingSpec(s, ip, macs.0)])
    ensures A.BindingAdmitted(env, store, m, A.BindingSpec(s, other, macs.1), A.ALL_WELL)
  {
    TwoAddresses(env, ip, other, env.parseNet(cidr).value);
  }

  /** A run without any deletion in which the amount wraps because the server's copy lags: after the server has been started with the range `ip-ip` and ip has been bound, the stored range is widened to `ip-ip,other-other` and other is bound, observed, routed and applied before the new spec is handed to the server. */
  lemma LaggingCopyWraps(env: A.Env, s: string, n: string, m: string, cidr: string, ip: string, other: string, server: string, macs: (string, string))
      returns (w: World)
    requires Setting(env, cidr, server)
    requires A.Spells(env, ip, env.parseNet(cidr).value) && A.Spells(env, other, env.parseNet(cidr).value)
    requires s != "" && ip != other && n != m && !EqualFold(macs.0, macs.1)
    requires env.isUnicastMac(macs.0) && env.isUnicastMac(macs.1)
    ensures Reachable(env, w, {s}) && Wraps(env, w, s)
    ensures w.store.subnets == map[s := TwoAddressSubnet(cidr, ip, other, server)]
    ensures w.copies == map[s := A.OneAddressSubnet(cidr, ip, server)]
  {
    var w1 := FirstAddressServed(env, s, n, cidr, ip, server, macs.0);
    var w2 := Widened(env, w1, s, cidr, ip, other, server, {s});
    SecondAdmitted(env, w2.store, s, n, m, cidr, ip, other, server, macs);
    var w3 := OneBound(env, w2, m, A.BindingSpec(s, other, macs.1), {s});
    w := AppliedReached(env, w3, m, Info(s, other, macs.1, true, m), {s});
    assert w.pipe.servers[s].table.Keys == {other, ip};
    TwoOfOneWrap(env, env.parseNet(cidr).value, other, ip, w.pipe.servers[s].table);
  }
}
