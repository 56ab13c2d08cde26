/**
  Power operations on a host: the loop over its systems and the PXE retry loop, as effects on a
  management controller (BMC) that may fail at any call.
 */
module Power {
  import opened Text

  /** A computer system as the BMC lists it, with the reset types it says it supports. */
  datatype System = System(id: string, resetTypes: seq<string>)

  /** A parameter of a system's ResetActionInfo. */
  datatype Parameter = Parameter(name: string, allowableValues: seq<string>)

  datatype Effect =
    | ListSystems(listed: Option<seq<System>>)
    | ReadBootOptions(id: string, ok: bool)
    | ReadResetInfo(id: string, parameters: Option<seq<Parameter>>)  // None: unreachable or unreadable
    | SetBoot(id: string, ok: bool)
    | Reset(id: string, kind: string, ok: bool)

  const GRACEFUL_RESTART := "GracefulRestart"
  const FORCE_RESTART := "ForceRestart"
  const MAX_RETRIES := 3

  /** What the action text asks for: a reset of that type, a PXE reboot, or nothing known. */
  datatype Command = Plain(kind: string) | PxeReboot | Unknown

  function CommandOf(action: string): Command
  {
    if action in ["On", "ForceOn", "ForceOff", "GracefulShutdown", "ForceRestart", "GracefulRestart"] then Plain(action)
    else if action == "PxeReboot" then PxeReboot
    else Unknown
  }

  /** The actions that a HostOperation can ask for. */
  const ACTIONS := ["On", "ForceOn", "ForceOff", "GracefulShutdown", "ForceRestart", "GracefulRestart", "PxeReboot"]

  /** Each of the seven actions is a reset of that very type, or the PXE reboot; every other text is unknown. */
  lemma CommandsAre(action: string)
    ensures CommandOf(action) == Unknown <==> action !in ACTIONS
    ensures CommandOf(action) == PxeReboot <==> action == "PxeReboot"
    ensures CommandOf(action).Plain? ==> CommandOf(action).kind == action
    ensures CommandOf(action).Plain? <==> action in ACTIONS && action != "PxeReboot"
  {
    var n := ACTIONS[6];
    assert n == "PxeReboot" && n in ACTIONS;
    assert ACTIONS[..6] == ["On", "ForceOn", "ForceOff", "GracefulShutdown", "ForceRestart", "GracefulRestart"];
    assert ACTIONS == ACTIONS[..6] + ["PxeReboot"];
  }

  // ---- supported reset types ----

  predicate FoundAt(s: string, w: string, i: int)
  {
    0 <= i && i + |w| <= |s| && s[i..i + |w|] == w
  }

  /** strings.Contains. */
  predicate Contains(s: string, w: string)
  {
    exists i | 0 <= i <= |s| :: FoundAt(s, w, i)
  }

  /** GetSupportedResetTypes: the types in one comma-separated text. */
  function Joined(types: seq<string>): string
  {
    if types == [] then ""
    else
      var front := Joined(types[..|types| - 1]);
      if front == "" then types[|types| - 1] else front + [','] + types[|types| - 1]
  }

  /** What the ResetActionInfo offers: the values of its first parameter named ResetType. */
  function Offered(parameters: seq<Parameter>): string
  {
    if parameters == [] then ""
    else if parameters[0].name == "ResetType" then Joined(parameters[0].allowableValues)
    else Offered(parameters[1..])
  }

  function OfferedIn(parameters: Option<seq<Parameter>>): string
  {
    if parameters.Some? then Offered(parameters.value) else ""
  }

  /** The loop that joins the types with commas. */
  method JoinTypes(types: seq<string>) returns (joinStr: string)
    ensures joinStr == Joined(types)
  {
    joinStr := "";
    for i := 0 to |types|
      invariant joinStr == Joined(types[..i])
    {
      assert types[..i + 1][..i] == types[..i];
      if |joinStr| > 0 {
        joinStr := joinStr + [','];
      }
      joinStr := joinStr + types[i];
    }
    assert types[..|types|] == types;
  }

  /** The search through the parameters of the ResetActionInfo. */
  method FindResetTypes(parameters: seq<Parameter>) returns (text: string)
    ensures text == Offered(parameters)
  {
    for i := 0 to |parameters|
      invariant Offered(parameters) == Offered(parameters[i..])
    {
      if parameters[i].name == "ResetType" {
        text := JoinTypes(parameters[i].allowableValues);
        return;
      }
      assert parameters[i..][1..] == parameters[i + 1..];
    }
    return "";
  }

  lemma Spanning(a: string, b: string, w: string, i: int)
    requires FoundAt(a + [','] + b, w, i) && i <= |a| < i + |w|
    ensures ',' in w
  {
    assert w[|a| - i] == (a + [','] + b)[|a|];
  }

  lemma ContainsSplits(a: string, b: string, w: string)
    requires w != "" && ',' !in w && Contains(a + [','] + b, w)
    ensures Contains(a, w) || Contains(b, w)
  {
    var s := a + [','] + b;
    var i :| 0 <= i <= |s| && FoundAt(s, w, i);
    if i + |w| <= |a| {
      FoundInFront(a, [','] + b, w, i);
      assert s == a + ([','] + b);
    } else if i > |a| {
      FoundInBack(a + [','], b, w, i);
    } else {
      Spanning(a, b, w, i);
    }
  }

  lemma FoundInFront(a: string, b: string, w: string, i: int)
    requires FoundAt(a + b, w, i) && i + |w| <= |a|
    ensures Contains(a, w)
  {
    assert (a + b)[..|a|] == a;
    assert a[i..i + |w|] == (a + b)[i..i + |w|];
    assert FoundAt(a, w, i);
  }

  lemma FoundInBack(a: string, b: string, w: string, i: int)
    requires FoundAt(a + b, w, i) && i >= |a|
    ensures Contains(b, w)
  {
    var j := i - |a|;
    assert (a + b)[|a|..] == b;
    assert b[j..j + |w|] == (a + b)[i..i + |w|];
    assert FoundAt(b, w, j);
  }

  /** A type found in the joined text was found inside one of the listed types. */
  lemma {:induction false} JoinedContains(types: seq<string>, w: string)
    requires w != "" && ',' !in w && Contains(Joined(types), w)
    ensures exists i :: 0 <= i < |types| && Contains(types[i], w)
  {
    if types != [] {
      var n := |types| - 1;
      var front := Joined(types[..n]);
      if front != "" {
        ContainsSplits(front, types[n], w);
      }
      if !Contains(types[n], w) {
        JoinedContains(types[..n], w);
        var i :| 0 <= i < n && Contains(types[..n][i], w);
        assert types[i] == types[..n][i];
      }
    }
  }

  lemma ContainsMore(a: string, s: string, b: string, w: string)
    requires Contains(s, w)
    ensures Contains(a + s + b, w)
  {
    var i :| 0 <= i <= |s| && FoundAt(s, w, i);
    var t := a + s + b;
    assert t[|a| + i..|a| + i + |w|] == s[i..i + |w|];
    assert FoundAt(t, w, |a| + i);
  }

  /** A listed type is found in the joined text. */
  lemma {:induction false} ListedIsContained(types: seq<string>, w: string)
    requires w in types
    ensures Contains(Joined(types), w)
  {
    var n := |types| - 1;
    var front := Joined(types[..n]);
    if types[n] == w {
      assert FoundAt(w, w, 0);
      ContainsMore(if front == "" then "" else front + [','], w, "", w);
      assert Joined(types) == (if front == "" then "" else front + [',']) + w + "";
    } else {
      ListedIsContained(types[..n], w);
      ContainsMore("", front, if front == "" then types[n] else [','] + types[n], w);
      assert Joined(types) == "" + front + (if front == "" then types[n] else [','] + types[n]);
    }
  }

  /** The text test means membership, when no other listed type contains the name. */
  lemma ContainedIsListed(types: seq<string>, w: string)
    requires w != "" && ',' !in w
    requires forall i :: 0 <= i < |types| && Contains(types[i], w) ==> types[i] == w
    ensures Contains(Joined(types), w) <==> w in types
  {
    if Contains(Joined(types), w) {
      JoinedContains(types, w);
    } else if w in types {
      ListedIsContained(types, w);
      assert false;
    }
  }

  // ---- traces ----

  function Ids(systems: seq<System>): (ids: seq<string>)
    ensures |ids| == |systems|
    ensures forall i :: 0 <= i < |systems| ==> ids[i] == systems[i].id
  {
    seq(|systems|, i requires 0 <= i < |systems| => systems[i].id)
  }

  /** The systems that got a successful reset, in order. */
  function Resets(t: seq<Effect>): seq<string>
  {
    if t == [] then []
    else
      var e := t[|t| - 1];
      Resets(t[..|t| - 1]) + (if e.Reset? && e.ok then [e.id] else [])
  }

  function Attempts(t: seq<Effect>): nat
  {
    if t == [] then 0 else Attempts(t[..|t| - 1]) + (if t[|t| - 1].SetBoot? then 1 else 0)
  }

  /** Every reset directly follows a successful boot override on the same system. */
  predicate BootSetFirst(t: seq<Effect>)
  {
    forall i :: 0 <= i < |t| && t[i].Reset? ==> i > 0 && t[i - 1] == SetBoot(t[i].id, true)
  }

  /** Every reset is of this kind, and nothing overrides the boot source. */
  predicate PlainResets(t: seq<Effect>, kind: string)
  {
    forall i :: 0 <= i < |t| ==> !t[i].SetBoot? && (t[i].Reset? ==> t[i].kind == kind)
  }

  predicate IsRestart(kind: string)
  {
    kind == GRACEFUL_RESTART || kind == FORCE_RESTART
  }

  /** Among these effects the ResetActionInfo of the system offered the type. */
  predicate InfoOffered(before: seq<Effect>, id: string, kind: string)
  {
    exists h :: 0 <= h < |before| && before[h].ReadResetInfo? && before[h].id == id && Contains(OfferedIn(before[h].parameters), kind)
  }

  /** The system lists the type, or it lists none and its ResetActionInfo, read before, offered the type. */
  predicate Supports(system: System, before: seq<Effect>, kind: string)
  {
    || (Joined(system.resetTypes) != "" && Contains(Joined(system.resetTypes), kind))
    || (Joined(system.resetTypes) == "" && InfoOffered(before, system.id, kind))
  }

  /** The effect restarts the system in a way that it supports, gracefully if it supports that. */
  predicate RestartsSystem(system: System, before: seq<Effect>, e: Effect)
    requires e.Reset?
  {
    && e.id == system.id && IsRestart(e.kind) && Supports(system, before, e.kind)
    && (Supports(system, before, GRACEFUL_RESTART) ==> e.kind == GRACEFUL_RESTART)
  }

  /** Every reset is a restart of some listed system, as it was found to support it since its turn began. */
  predicate SupportedRestarts(t: seq<Effect>, systems: seq<System>)
  {
    forall i :: 0 <= i < |t| && t[i].Reset? ==> RestartSupported(t, i, systems)
  }

  predicate RestartSupported(t: seq<Effect>, i: nat, systems: seq<System>)
    requires i < |t| && t[i].Reset?
  {
    exists j, a :: 0 <= j < |systems| && 0 <= a <= i && RestartsSystem(systems[j], t[a..i], t[i])
  }

  /** The systems whose boot options were read, in order. */
  function BootReads(t: seq<Effect>): seq<string>
  {
    if t == [] then []
    else
      var e := t[|t| - 1];
      BootReads(t[..|t| - 1]) + (if e.ReadBootOptions? then [e.id] else [])
  }

  predicate AllRead(t: seq<Effect>)
  {
    forall i :: 0 <= i < |t| && t[i].ReadBootOptions? ==> t[i].ok
  }

  /** The BMC refused the call, or listed nothing. */
  predicate Fails(e: Effect)
  {
    match e
    case ListSystems(listed) => listed.None? || listed.value == []
    case ReadBootOptions(_, ok) => !ok
    case ReadResetInfo(_, _) => false
    case SetBoot(_, ok) => !ok
    case Reset(_, _, ok) => !ok
  }

  predicate SomeFails(t: seq<Effect>)
  {
    exists i :: 0 <= i < |t| && Fails(t[i])
  }

  /** Neither restart is supported. */
  predicate NoRestart(system: System, before: seq<Effect>)
  {
    !Supports(system, before, GRACEFUL_RESTART) && !Supports(system, before, FORCE_RESTART)
  }

  lemma {:induction false} BootReadsConcat(a: seq<Effect>, b: seq<Effect>)
    ensures BootReads(a + b) == BootReads(a) + BootReads(b)
  {
    if b == [] {
      assert a + b == a;
    } else {
      assert (a + b)[..|a + b| - 1] == a + b[..|b| - 1];
      BootReadsConcat(a, b[..|b| - 1]);
    }
  }

  lemma {:induction false} ResetsConcat(a: seq<Effect>, b: seq<Effect>)
    ensures Resets(a + b) == Resets(a) + Resets(b)
  {
    if b == [] {
      assert a + b == a;
    } else {
      assert (a + b)[..|a + b| - 1] == a + b[..|b| - 1];
      ResetsConcat(a, b[..|b| - 1]);
    }
  }

  lemma AttemptsSnoc(t: seq<Effect>, e: Effect)
    ensures Attempts(t + [e]) == Attempts(t) + if e.SetBoot? then 1 else 0
    ensures Resets(t + [e]) == Resets(t) + if e.Reset? && e.ok then [e.id] else []
  {
    assert (t + [e])[..|t|] == t;
  }

  // ---- the controller being operated ----

  datatype Reply = Reply(ok: bool, systems: seq<System>, parameters: seq<Parameter>)

  /** A BMC that answers each call as it likes. */
  class Bmc {
    const reply: nat -> Reply
    var trace: seq<Effect>

    constructor (reply: nat -> Reply)
      ensures this.reply == reply && trace == []
    {
      this.reply := reply;
      trace := [];
    }

    method Systems() returns (r: Option<seq<System>>)
      modifies this
      ensures trace == old(trace) + [ListSystems(r)]
    {
      var a := reply(|trace|);
      r := if a.ok then Some(a.systems) else None;
      trace := trace + [ListSystems(r)];
    }

    method BootOptions(id: string) returns (ok: bool)
      modifies this
      ensures trace == old(trace) + [ReadBootOptions(id, ok)]
    {
      ok := reply(|trace|).ok;
      trace := trace + [ReadBootOptions(id, ok)];
    }

    method ResetActionInfo(id: string) returns (r: Option<seq<Parameter>>)
      modifies this
      ensures trace == old(trace) + [ReadResetInfo(id, r)]
    {
      var a := reply(|trace|);
      r := if a.ok then Some(a.parameters) else None;
      trace := trace + [ReadResetInfo(id, r)];
    }

    method OverrideBoot(id: string) returns (ok: bool)
      modifies this
      ensures trace == old(trace) + [SetBoot(id, ok)]
    {
      ok := reply(|trace|).ok;
      trace := trace + [SetBoot(id, ok)];
    }

    method ResetSystem(id: string, kind: string) returns (ok: bool)
      modifies this
      ensures trace == old(trace) + [Reset(id, kind, ok)]
    {
      ok := reply(|trace|).ok;
      trace := trace + [Reset(id, kind, ok)];
    }
  }

  /** A restart that the text of supported types mentions, the graceful one if it is among them. */
  predicate Allowed(resetTypes: string, kind: string)
  {
    IsRestart(kind) && Contains(resetTypes, kind) && (Contains(resetTypes, GRACEFUL_RESTART) ==> kind == GRACEFUL_RESTART)
  }

  predicate CanRestart(resetTypes: string)
  {
    Contains(resetTypes, GRACEFUL_RESTART) || Contains(resetTypes, FORCE_RESTART)
  }

  /** The restart that is used: graceful when it is supported. */
  function PickRestart(resetTypes: string): (kind: string)
    requires CanRestart(resetTypes)
    ensures Allowed(resetTypes, kind)
  {
    if Contains(resetTypes, GRACEFUL_RESTART) then GRACEFUL_RESTART else FORCE_RESTART
  }

  /** What one PXE reboot may do to one system. */
  predicate PxeRun(t: seq<Effect>, id: string, resetTypes: string, ok: bool)
  {
    && BootSetFirst(t)
    && Resets(t) == (if ok then [id] else [])
    && forall i :: 0 <= i < |t| ==> PxeEffect(t[i], id, resetTypes)
  }

  lemma BootSetFirstSnoc(t: seq<Effect>, e: Effect)
    requires BootSetFirst(t)
    requires e.Reset? ==> t != [] && t[|t| - 1] == SetBoot(e.id, true)
    ensures BootSetFirst(t + [e])
  {
    var u := t + [e];
    forall i | 0 <= i < |u| && u[i].Reset?
      ensures i > 0 && u[i - 1] == SetBoot(u[i].id, true)
    {
      if i < |t| {
        assert t[i].Reset?;
      }
    }
  }

  /** The effect may happen to the system in a PXE reboot. */
  predicate PxeEffect(e: Effect, id: string, resetTypes: string)
  {
    && !e.ReadBootOptions? && !e.ReadResetInfo?
    && (e.SetBoot? ==> e.id == id)
    && (e.Reset? ==> e.id == id && Allowed(resetTypes, e.kind))
  }

  lemma PxeRunSnoc(t: seq<Effect>, id: string, resetTypes: string, e: Effect)
    requires PxeRun(t, id, resetTypes, false)
    requires PxeEffect(e, id, resetTypes)
    requires e.Reset? ==> t != [] && t[|t| - 1] == SetBoot(id, true)
    ensures PxeRun(t + [e], id, resetTypes, e.Reset? && e.ok)
    ensures Attempts(t + [e]) == Attempts(t) + if e.SetBoot? then 1 else 0
  {
    AttemptsSnoc(t, e);
    BootSetFirstSnoc(t, e);
    var u := t + [e];
    forall i | 0 <= i < |u|
      ensures PxeEffect(u[i], id, resetTypes)
    {
      assert u[i] == if i < |t| then t[i] else e;
    }
  }

  /** The run ends with a refresh that does not list the system. */
  predicate LostAtRefresh(t: seq<Effect>, id: string)
  {
    t != [] && t[|t| - 1].ListSystems? && NotListed(t[|t| - 1].listed, id)
  }

  predicate NotListed(listed: Option<seq<System>>, id: string)
  {
    listed.Some? ==> forall i :: 0 <= i < |listed.value| ==> listed.value[i].id != id
  }

  lemma FailsLater(a: seq<Effect>, b: seq<Effect>)
    requires a <= b && SomeFails(a)
    ensures SomeFails(b)
  {
    var i :| 0 <= i < |a| && Fails(a[i]);
    assert b[i] == a[i];
  }

  class RedfishClient {
    const bmc: Bmc

    constructor (bmc: Bmc)
      ensures this.bmc == bmc
    {
      this.bmc := bmc;
    }

    /** The search after a refresh: some listed system with the same ID. */
    method FindSystem(systems: seq<System>, id: string) returns (r: Option<System>)
      ensures r.Some? ==> r.value in systems && r.value.id == id
      ensures r.None? ==> forall i :: 0 <= i < |systems| ==> systems[i].id != id
    {
      for k := 0 to |systems|
        invariant forall i :: 0 <= i < k ==> systems[i].id != id
      {
        if systems[k].id == id {
          return Some(systems[k]);
        }
      }
      return None;
    }

    /** The refresh before a retry: the system as the BMC lists it now, if it still does. */
    method Refresh(id: string, resetTypes: string, ghost base: seq<Effect>, ghost run: seq<Effect>)
      returns (r: Option<System>, ghost run': seq<Effect>)
      requires bmc.trace == base + run && PxeRun(run, id, resetTypes, false)
      modifies bmc
      ensures bmc.trace == base + run' && PxeRun(run', id, resetTypes, false)
      ensures Attempts(run') == Attempts(run)
      ensures r.Some? ==> r.value.id == id
      ensures r.None? ==> LostAtRefresh(run', id)
      ensures run <= run'
    {
      var systems := bmc.Systems();
      run' := run + [ListSystems(systems)];
      assert bmc.trace == base + run';
      PxeRunSnoc(run, id, resetTypes, ListSystems(systems));
      if systems.None? || |systems.value| == 0 {
        return None, run';
      }
      r := FindSystem(systems.value, id);
    }

    /** One attempt: a boot override and, when it succeeds, a restart. */
    method Attempt(id: string, resetTypes: string, ghost base: seq<Effect>, ghost run: seq<Effect>)
      returns (ok: bool, ghost run': seq<Effect>)
      requires CanRestart(resetTypes)
      requires bmc.trace == base + run && PxeRun(run, id, resetTypes, false)
      modifies bmc
      ensures bmc.trace == base + run' && PxeRun(run', id, resetTypes, ok)
      ensures Attempts(run') == Attempts(run) + 1
      ensures !ok ==> SomeFails(run')
    {
      var overridden := bmc.OverrideBoot(id);
      run' := run + [SetBoot(id, overridden)];
      assert bmc.trace == base + run';
      PxeRunSnoc(run, id, resetTypes, SetBoot(id, overridden));
      if !overridden {
        assert Fails(run'[|run|]);
        return false, run';
      }
      var kind := PickRestart(resetTypes);
      ok := bmc.ResetSystem(id, kind);
      PxeRunSnoc(run', id, resetTypes, Reset(id, kind, ok));
      run' := run' + [Reset(id, kind, ok)];
      assert bmc.trace == base + run';
      assert !ok ==> Fails(run'[|run| + 1]);
    }

    /** The system that attempt i works on: the one listed at first, then what a refresh finds. */
    method SystemFor(i: nat, system: System, resetTypes: string, ghost base: seq<Effect>, ghost run: seq<Effect>)
      returns (found: Option<System>, ghost run': seq<Effect>)
      requires bmc.trace == base + run && PxeRun(run, system.id, resetTypes, false) && (i > 0 ==> SomeFails(run))
      modifies bmc
      ensures bmc.trace == base + run' && PxeRun(run', system.id, resetTypes, false) && Attempts(run') == Attempts(run)
      ensures found.Some? ==> found.value.id == system.id
      ensures found.None? ==> LostAtRefresh(run', system.id) && SomeFails(run')
    {
      if i == 0 {
        return Some(system), run;
      }
      found, run' := Refresh(system.id, resetTypes, base, run);
      FailsLater(run, run');
    }

    /** pxeRebootWithRetry: at most three attempts, each a boot override and then a restart of the same system; success is exactly one successful restart, and it gives up only after three failures or when the system is no longer listed. */
    method PxeRebootWithRetry(listed: System, resetTypes: string) returns (ok: bool, ghost run: seq<Effect>)
      requires CanRestart(resetTypes)
      modifies bmc
      ensures bmc.trace == old(bmc.trace) + run
      ensures PxeRun(run, listed.id, resetTypes, ok) && Attempts(run) <= MAX_RETRIES
      ensures !ok ==> SomeFails(run) && (Attempts(run) == MAX_RETRIES || LostAtRefresh(run, listed.id))
    {
      ghost var base := bmc.trace;
      var system := listed;
      ok, run := false, [];
      for i := 0 to MAX_RETRIES
        invariant !ok && system.id == listed.id
        invariant bmc.trace == base + run && PxeRun(run, listed.id, resetTypes, ok)
        invariant Attempts(run) == i
        invariant i > 0 ==> SomeFails(run)
      {
        var found;
        found, run := SystemFor(i, system, resetTypes, base, run);
        if found.None? {
          return;
        }
        system := found.value;
        ok, run := Attempt(system.id, resetTypes, base, run);
        if ok {
          return;
        }
      }
    }

    /** Power: a nil result means that each listed system got exactly one successful reset, in order; an error means that a proper prefix of them did. */
    method Power(cmd: Command) returns (ok: bool, ghost ss: seq<System>, ghost run: seq<Effect>)
      modifies bmc
      ensures bmc.trace == old(bmc.trace) + run
      ensures run != [] && run[0].ListSystems? && ss == if run[0].listed.Some? then run[0].listed.value else []
      ensures PowerRun(cmd, ss, run, ok)
    {
      ghost var base := bmc.trace;
      var listed := bmc.Systems();
      run := [ListSystems(listed)];
      ss := if listed.Some? then listed.value else [];
      NothingYet(cmd, listed, ss);
      if listed.None? || |listed.value| == 0 {
        assert Fails(run[0]);
        Conclude(cmd, run, ss, 0, 0, false);
        return false, ss, run;
      }
      ghost var k;
      ok, run, k := OperateAll(cmd, listed.value, base, run);
      Conclude(cmd, run, ss, k, if ok then k else k + 1, ok);
    }

    /** The loop over the systems. */
    method OperateAll(cmd: Command, ss: seq<System>, ghost base: seq<Effect>, ghost run: seq<Effect>)
      returns (ok: bool, ghost run': seq<Effect>, ghost k: nat)
      requires bmc.trace == base + run && run != [] && SoFar(cmd, run, ss, 0, 0)
      modifies bmc
      ensures bmc.trace == base + run' && run' != [] && run'[0] == run[0]
      ensures if ok then k == |ss| else k < |ss|
      ensures SoFar(cmd, run', ss, k, if ok then k else k + 1)
    {
      run', ok, k := run, true, 0;
      for i := 0 to |ss|
        invariant ok && k == i && bmc.trace == base + run'
        invariant run' != [] && run'[0] == run[0]
        invariant SoFar(cmd, run', ss, i, i)
      {
        ok, run' := OperateNext(cmd, ss, i, base, run');
        if !ok {
          return;
        }
        k := k + 1;
      }
    }

    /** The body of the loop: system i. */
    method OperateNext(cmd: Command, ss: seq<System>, i: nat, ghost base: seq<Effect>, ghost run: seq<Effect>)
      returns (ok: bool, ghost run': seq<Effect>)
      requires i < |ss| && bmc.trace == base + run && run != [] && SoFar(cmd, run, ss, i, i)
      modifies bmc
      ensures bmc.trace == base + run' && run' != [] && run'[0] == run[0]
      ensures SoFar(cmd, run', ss, if ok then i + 1 else i, i + 1)
    {
      ghost var part: seq<Effect>;
      ok, part := Operate(cmd, ss[i]);
      Extend(cmd, run, part, ss, i, ok);
      run' := run + part;
      assert bmc.trace == base + run';
    }

    /** GetSupportedResetTypes: the types the system lists, or else what its ResetActionInfo offers. */
    method GetSupportedResetTypes(system: System) returns (text: string, ghost part: seq<Effect>)
      modifies bmc
      ensures bmc.trace == old(bmc.trace) + part
      ensures SupportText(system, part, text)
    {
      text := JoinTypes(system.resetTypes);
      part := [];
      if text != "" {
        return;
      }
      var parameters := bmc.ResetActionInfo(system.id);
      part := [ReadResetInfo(system.id, parameters)];
      if parameters.Some? {
        text := FindResetTypes(parameters.value);
      }
    }

    /** The PXE case: refused unless some restart is supported. */
    method PxeOperation(system: System, resetTypes: string, ghost lead: seq<Effect>) returns (ok: bool, ghost part: seq<Effect>)
      requires Lead(system, lead, resetTypes)
      modifies bmc
      ensures bmc.trace == old(bmc.trace) + part
      ensures OneSystem(PxeReboot, system, lead + part, ok)
    {
      if !CanRestart(resetTypes) {
        RefusedPxe(system, resetTypes, lead);
        part := [];
        assert lead + part == lead;
        return false, part;
      }
      ok, part := PxeRebootWithRetry(system, resetTypes);
      PxeRunAfterLead(system, resetTypes, lead, part, ok);
    }

    /** What is done to one system. */
    method Operate(cmd: Command, system: System) returns (ok: bool, ghost run: seq<Effect>)
      modifies bmc
      ensures bmc.trace == old(bmc.trace) + run
      ensures OneSystem(cmd, system, run, ok)
    {
      ghost var base := bmc.trace;
      var read := bmc.BootOptions(system.id);
      run := [ReadBootOptions(system.id, read)];
      if !read {
        UnreadBoot(cmd, system);
        return false, run;
      }
      ghost var part: seq<Effect>;
      var resetTypes;
      resetTypes, part := GetSupportedResetTypes(system);
      LeadIs(system, part, resetTypes);
      Associate(base, run, part);
      run := run + part;
      if cmd.Unknown? {
        UnknownCommand(system, run, resetTypes);
        return false, run;
      }
      if cmd.Plain? {
        ok := bmc.ResetSystem(system.id, cmd.kind);
        part := [Reset(system.id, cmd.kind, ok)];
        PlainRun(system, cmd.kind, run, resetTypes, ok);
      } else {
        ok, part := PxeOperation(system, resetTypes, run);
      }
      Associate(base, run, part);
      run := run + part;
    }
  }

  lemma Associate<T>(a: seq<T>, b: seq<T>, c: seq<T>)
    ensures a + b + c == a + (b + c)
  {
  }

  /** The text that decides which restarts are supported, and the call that had to be made for it. */
  predicate SupportText(system: System, part: seq<Effect>, text: string)
  {
    if Joined(system.resetTypes) != "" then part == [] && text == Joined(system.resetTypes)
    else |part| == 1 && part[0].ReadResetInfo? && part[0].id == system.id && text == OfferedIn(part[0].parameters)
  }

  /** Only reads. */
  predicate Reads(t: seq<Effect>)
  {
    forall i :: 0 <= i < |t| ==> !t[i].SetBoot? && !t[i].Reset?
  }

  lemma {:induction false} ReadsDoNothing(t: seq<Effect>)
    requires Reads(t)
    ensures Resets(t) == [] && Attempts(t) == 0
  {
    if t != [] {
      ReadsDoNothing(t[..|t| - 1]);
    }
  }

  /** What was read of a system before it is operated: its boot options, and what decides that the restarts in the text, and no others, are supported. */
  predicate Lead(system: System, lead: seq<Effect>, text: string)
  {
    && Reads(lead) && BootReads(lead) == [system.id] && AllRead(lead)
    && (Contains(text, GRACEFUL_RESTART) <==> Supports(system, lead, GRACEFUL_RESTART))
    && (Contains(text, FORCE_RESTART) <==> Supports(system, lead, FORCE_RESTART))
  }

  lemma BootReadsOne(e: Effect)
    ensures BootReads([e]) == if e.ReadBootOptions? then [e.id] else []
  {
    assert [e][..0] == [];
  }

  lemma LeadIs(system: System, part: seq<Effect>, text: string)
    requires SupportText(system, part, text)
    ensures Lead(system, [ReadBootOptions(system.id, true)] + part, text)
  {
    var lead := [ReadBootOptions(system.id, true)] + part;
    BootReadsConcat([ReadBootOptions(system.id, true)], part);
    BootReadsOne(lead[0]);
    if Joined(system.resetTypes) == "" {
      BootReadsOne(part[0]);
      assert part == [part[0]];
      assert lead[1] == part[0];
    } else {
      assert lead == [lead[0]];
    }
  }

  lemma UnreadBoot(cmd: Command, system: System)
    ensures OneSystem(cmd, system, [ReadBootOptions(system.id, false)], false)
  {
    var t := [ReadBootOptions(system.id, false)];
    ReadsDoNothing(t);
    BootReadsOne(t[0]);
    assert Fails(t[0]);
  }

  lemma UnknownCommand(system: System, lead: seq<Effect>, text: string)
    requires Lead(system, lead, text)
    ensures OneSystem(Unknown, system, lead, false)
  {
    ReadsDoNothing(lead);
  }

  lemma RefusedPxe(system: System, text: string, lead: seq<Effect>)
    requires Lead(system, lead, text) && !CanRestart(text)
    ensures OneSystem(PxeReboot, system, lead, false)
  {
    ReadsDoNothing(lead);
  }

  lemma PlainRun(system: System, kind: string, lead: seq<Effect>, text: string, ok: bool)
    requires Lead(system, lead, text)
    ensures OneSystem(Plain(kind), system, lead + [Reset(system.id, kind, ok)], ok)
  {
    var e := Reset(system.id, kind, ok);
    ReadsDoNothing(lead);
    AttemptsSnoc(lead, e);
    ResetReadsNothing(system, lead, e);
    AllReadConcat(lead, [e]);
    if !ok {
      assert Fails([e][0]);
      FailsInBack(lead, [e]);
    }
  }

  lemma ResetReadsNothing(system: System, lead: seq<Effect>, e: Effect)
    requires BootReads(lead) == [system.id] && e.Reset?
    ensures BootReads(lead + [e]) == [system.id]
  {
    BootReadsConcat(lead, [e]);
    BootReadsOne(e);
    assert [system.id] + [] == [system.id];
  }

  /** Only what reads the ResetActionInfo can change what a system is found to support. */
  lemma SupportsSame(system: System, lead: seq<Effect>, t: seq<Effect>, kind: string)
    requires forall i :: 0 <= i < |t| ==> !t[i].ReadResetInfo?
    ensures Supports(system, lead + t, kind) <==> Supports(system, lead, kind)
  {
    var u := lead + t;
    assert forall h :: 0 <= h < |lead| ==> u[h] == lead[h];
    assert forall h :: |lead| <= h < |u| ==> u[h] == t[h - |lead|];
    if InfoOffered(lead, system.id, kind) {
      var h :| 0 <= h < |lead| && lead[h].ReadResetInfo? && lead[h].id == system.id && Contains(OfferedIn(lead[h].parameters), kind);
      assert u[h] == lead[h];
    }
  }

  lemma PxeResetSupported(system: System, resetTypes: string, lead: seq<Effect>, t: seq<Effect>, i: nat)
    requires Lead(system, lead, resetTypes)
    requires forall h :: 0 <= h < |t| ==> PxeEffect(t[h], system.id, resetTypes)
    requires i < |t| && t[i].Reset?
    ensures RestartsSystem(system, (lead + t)[..|lead| + i], t[i])
  {
    assert (lead + t)[..|lead| + i] == lead + t[..i];
    assert PxeEffect(t[i], system.id, resetTypes);
    forall h | 0 <= h < i
      ensures !t[..i][h].ReadResetInfo?
    {
      assert PxeEffect(t[h], system.id, resetTypes);
    }
    SupportsSame(system, lead, t[..i], GRACEFUL_RESTART);
    SupportsSame(system, lead, t[..i], FORCE_RESTART);
  }

  lemma PxeResetsSupported(system: System, resetTypes: string, lead: seq<Effect>, t: seq<Effect>)
    requires Lead(system, lead, resetTypes)
    requires forall i :: 0 <= i < |t| ==> PxeEffect(t[i], system.id, resetTypes)
    ensures SupportedFor(system, lead + t)
  {
    var u := lead + t;
    assert forall i :: 0 <= i < |lead| ==> u[i] == lead[i];
    forall i | |lead| <= i < |u| && u[i].Reset?
      ensures RestartsSystem(system, u[..i], u[i])
    {
      assert u[i] == t[i - |lead|];
      PxeResetSupported(system, resetTypes, lead, t, i - |lead|);
    }
  }

  lemma {:induction false} PxeReadsNothing(t: seq<Effect>, id: string, resetTypes: string)
    requires forall i :: 0 <= i < |t| ==> PxeEffect(t[i], id, resetTypes)
    ensures BootReads(t) == []
  {
    if t != [] {
      PxeReadsNothing(t[..|t| - 1], id, resetTypes);
    }
  }

  lemma FailsInBack(lead: seq<Effect>, t: seq<Effect>)
    requires SomeFails(t)
    ensures SomeFails(lead + t)
  {
    var i :| 0 <= i < |t| && Fails(t[i]);
    assert (lead + t)[|lead| + i] == t[i];
  }

  lemma AllReadConcat(a: seq<Effect>, b: seq<Effect>)
    requires AllRead(a) && AllRead(b)
    ensures AllRead(a + b)
  {
  }

  lemma PxeRunAfterLead(system: System, resetTypes: string, lead: seq<Effect>, t: seq<Effect>, ok: bool)
    requires Lead(system, lead, resetTypes)
    requires PxeRun(t, system.id, resetTypes, ok) && Attempts(t) <= MAX_RETRIES
    requires !ok ==> SomeFails(t)
    ensures OneSystem(PxeReboot, system, lead + t, ok)
  {
    ReadsDoNothing(lead);
    ResetsConcat(lead, t);
    AttemptsConcat(lead, t);
    BootReadsConcat(lead, t);
    PxeReadsNothing(t, system.id, resetTypes);
    assert [system.id] + [] == [system.id];
    assert AllRead(t) by {
      assert forall i :: 0 <= i < |t| ==> PxeEffect(t[i], system.id, resetTypes);
    }
    AllReadConcat(lead, t);
    assert BootSetFirst(lead);
    ExtendOrdered(lead, t);
    PxeResetsSupported(system, resetTypes, lead, t);
    if !ok {
      FailsInBack(lead, t);
    }
  }

  lemma {:induction false} AttemptsConcat(a: seq<Effect>, b: seq<Effect>)
    ensures Attempts(a + b) == Attempts(a) + Attempts(b)
  {
    if b == [] {
      assert a + b == a;
    } else {
      assert (a + b)[..|a + b| - 1] == a + b[..|b| - 1];
      AttemptsConcat(a, b[..|b| - 1]);
    }
  }

  /** Every reset is a restart of this system that it supports. */
  predicate SupportedFor(system: System, t: seq<Effect>)
  {
    forall i :: 0 <= i < |t| && t[i].Reset? ==> RestartsSystem(system, t[..i], t[i])
  }

  /** Why one system was not operated. */
  predicate Explained(cmd: Command, system: System, t: seq<Effect>)
  {
    cmd.Unknown? || SomeFails(t) || (cmd.PxeReboot? && NoRestart(system, t))
  }

  /** What the loop body may do to one system. */
  predicate OneSystem(cmd: Command, system: System, t: seq<Effect>, ok: bool)
  {
    && Resets(t) == (if ok then [system.id] else [])
    && BootReads(t) == [system.id]
    && (if ok then AllRead(t) else Explained(cmd, system, t))
    && (cmd.Plain? ==> PlainResets(t, cmd.kind))
    && (cmd.PxeReboot? ==>
          && Attempts(t) <= MAX_RETRIES
          && BootSetFirst(t)
          && SupportedFor(system, t))
    && (ok ==> !cmd.Unknown?)
  }

  /** What the loop has done: k systems reset, `tried` worked on. */
  predicate SoFar(cmd: Command, run: seq<Effect>, ss: seq<System>, k: nat, tried: nat)
    requires k <= |ss|
  {
    && k <= tried <= |ss|
    && Resets(run) == Ids(ss)[..k] && BootReads(run) == Ids(ss)[..tried]
    && (if k == tried then AllRead(run) else ErrorExplained(cmd, ss, run))
    && (cmd.PxeReboot? ==> BootSetFirst(run) && SupportedRestarts(run, ss) && Attempts(run) <= MAX_RETRIES * tried)
    && (cmd.Plain? ==> PlainResets(run, cmd.kind))
    && (cmd.Unknown? ==> k == 0)
  }

  /** An error has a cause: an unknown command, a call that the BMC refused or answered with an empty list, or a listed system that was found, since its turn began, to support neither restart. */
  predicate ErrorExplained(cmd: Command, ss: seq<System>, run: seq<Effect>)
  {
    || cmd.Unknown?
    || SomeFails(run)
    || (cmd.PxeReboot? && exists j, a :: 0 <= j < |ss| && 0 <= a <= |run| && NoRestart(ss[j], run[a..]))
  }

  /** What a whole operation did. A nil result: every listed system, in order, got its boot options read and exactly one successful reset. An error: a proper prefix of them did, and there is a cause. */
  predicate PowerRun(cmd: Command, ss: seq<System>, run: seq<Effect>, ok: bool)
  {
    && (ok ==> ss != [] && Resets(run) == Ids(ss) && BootReads(run) == Ids(ss) && AllRead(run))
    && (!ok ==> ErrorExplained(cmd, ss, run) && BootReads(run) <= Ids(ss))
    && (!ok ==> Resets(run) <= Ids(ss) && (ss != [] ==> |Resets(run)| < |ss|))
    && (cmd.PxeReboot? ==> BootSetFirst(run) && SupportedRestarts(run, ss) && Attempts(run) <= MAX_RETRIES * |ss|)
    && (cmd.Plain? ==> PlainResets(run, cmd.kind))
    && (cmd.Unknown? ==> !ok && Resets(run) == [])
  }

  lemma Conclude(cmd: Command, run: seq<Effect>, ss: seq<System>, k: nat, tried: nat, ok: bool)
    requires k <= |ss| && tried <= |ss| && SoFar(cmd, run, ss, k, tried)
    requires ok ==> k == tried == |ss| && ss != []
    requires !ok ==> k < tried || (ss == [] && SomeFails(run))
    ensures PowerRun(cmd, ss, run, ok)
  {
    assert Ids(ss)[..|ss|] == Ids(ss);
  }

  lemma NothingYet(cmd: Command, listed: Option<seq<System>>, ss: seq<System>)
    ensures SoFar(cmd, [ListSystems(listed)], ss, 0, 0)
  {
    AttemptsSnoc([], ListSystems(listed));
    BootReadsOne(ListSystems(listed));
    assert [] + [ListSystems(listed)] == [ListSystems(listed)];
  }

  lemma ExtendPlain(run: seq<Effect>, part: seq<Effect>, kind: string)
    requires PlainResets(run, kind) && PlainResets(part, kind)
    ensures PlainResets(run + part, kind)
  {
  }

  lemma ExtendSupported(run: seq<Effect>, part: seq<Effect>, ss: seq<System>, k: nat)
    requires k < |ss| && SupportedRestarts(run, ss) && SupportedFor(ss[k], part)
    ensures SupportedRestarts(run + part, ss)
  {
    var t := run + part;
    forall i | 0 <= i < |t| && t[i].Reset?
      ensures RestartSupported(t, i, ss)
    {
      if i >= |run| {
        SupportedLater(run, part, ss, k, i - |run|);
      } else {
        SupportedBefore(run, part, ss, i);
      }
    }
  }

  lemma SupportedBefore(run: seq<Effect>, part: seq<Effect>, ss: seq<System>, i: nat)
    requires i < |run| && run[i].Reset? && RestartSupported(run, i, ss)
    ensures RestartSupported(run + part, i, ss)
  {
    var t := run + part;
    var j, a :| 0 <= j < |ss| && 0 <= a <= i && RestartsSystem(ss[j], run[a..i], run[i]);
    assert t[i] == run[i] && t[a..i] == run[a..i];
  }

  lemma SupportedLater(run: seq<Effect>, part: seq<Effect>, ss: seq<System>, k: nat, i: nat)
    requires k < |ss| && i < |part| && part[i].Reset? && RestartsSystem(ss[k], part[..i], part[i])
    ensures RestartSupported(run + part, |run| + i, ss)
  {
    var t := run + part;
    assert t[|run| + i] == part[i] && t[|run|..|run| + i] == part[..i];
  }

  lemma IdsSnoc(ss: seq<System>, k: nat)
    requires k < |ss|
    ensures Ids(ss)[..k] + [ss[k].id] == Ids(ss)[..k + 1]
  {
  }

  lemma ExtendResets(run: seq<Effect>, part: seq<Effect>, ss: seq<System>, k: nat, ok: bool)
    requires k < |ss| && Resets(run) == Ids(ss)[..k]
    requires Resets(part) == (if ok then [ss[k].id] else [])
    ensures Resets(run + part) == Ids(ss)[..if ok then k + 1 else k]
  {
    ResetsConcat(run, part);
    if ok {
      IdsSnoc(ss, k);
    } else {
      assert Resets(run) + [] == Resets(run);
    }
  }

  lemma ExtendReads(run: seq<Effect>, part: seq<Effect>, ss: seq<System>, k: nat)
    requires k < |ss| && BootReads(run) == Ids(ss)[..k] && BootReads(part) == [ss[k].id]
    ensures BootReads(run + part) == Ids(ss)[..k + 1]
  {
    BootReadsConcat(run, part);
    IdsSnoc(ss, k);
  }

  lemma ExtendCause(cmd: Command, run: seq<Effect>, part: seq<Effect>, ss: seq<System>, k: nat)
    requires k < |ss| && Explained(cmd, ss[k], part)
    ensures ErrorExplained(cmd, ss, run + part)
  {
    if !cmd.Unknown? {
      if SomeFails(part) {
        FailsInBack(run, part);
      } else {
        assert (run + part)[|run|..] == part;
      }
    }
  }

  lemma Extend(cmd: Command, run: seq<Effect>, part: seq<Effect>, ss: seq<System>, k: nat, ok: bool)
    requires k < |ss| && OneSystem(cmd, ss[k], part, ok) && SoFar(cmd, run, ss, k, k)
    ensures SoFar(cmd, run + part, ss, if ok then k + 1 else k, k + 1)
  {
    ExtendResets(run, part, ss, k, ok);
    ExtendReads(run, part, ss, k);
    if ok {
      AllReadConcat(run, part);
    } else {
      ExtendCause(cmd, run, part, ss, k);
    }
    if cmd.PxeReboot? {
      AttemptsConcat(run, part);
      ExtendOrdered(run, part);
      ExtendSupported(run, part, ss, k);
    } else if cmd.Plain? {
      ExtendPlain(run, part, cmd.kind);
    }
  }

  lemma ExtendOrdered(run: seq<Effect>, part: seq<Effect>)
    requires BootSetFirst(run) && BootSetFirst(part)
    ensures BootSetFirst(run + part)
  {
    var t := run + part;
    forall i | 0 <= i < |t| && t[i].Reset?
      ensures i > 0 && t[i - 1] == SetBoot(t[i].id, true)
    {
      if i >= |run| {
        assert t[i] == part[i - |run|];
      }
    }
  }
}
