/**
  Admission of Subnet and BindingIp objects: the two webhooks, the automatic creator of bindings
  and the validity check of the BindingIp reconciler, over runs of serialised API requests.
 */
module Admission {
  import opened Text
  import opened Address
  import opened DottedQuad
  import opened Ranges
  import opened InterfaceAddress

  datatype InterfaceSpec = InterfaceSpec(name: string, vlan: Option<int>, ipv4: string)

  datatype SubnetSpec = SubnetSpec(
    cidr: string,
    ipRange: string,
    gateway: Option<string>,
    dns: Option<string>,
    iface: InterfaceSpec)

  datatype BindingSpec = BindingSpec(subnet: string, ip: string, mac: string)

  /** Library readers of text, and the configured interface. */
  datatype Env = Env(
    parseIP: Parser,
    parseNet: string -> Option<IPNet>,
    parseCIDRAddress: Parser,
    isUnicastMac: string -> bool,
    defaultInterface: string)

  /** What is answered during one request: whether the host has the interface and tolerates the address, and whether the API server answers a read of one object and a list. */
  datatype Answers = Answers(hostOk: bool, readOk: bool, listOk: bool)

  /** The objects the API server stores. */
  datatype Store = Store(subnets: map<string, SubnetSpec>, bindings: map<string, BindingSpec>)

  // ---- the Subnet webhook ----

  /** Default: an empty interface name and a missing VLAN ID are filled in. */
  function Default(env: Env, s: SubnetSpec): SubnetSpec
  {
    s.(iface := InterfaceSpec(
         if s.iface.name == "" then env.defaultInterface else s.iface.name,
         if s.iface.vlan.None? then Some(0) else s.iface.vlan,
         s.iface.ipv4))
  }

  /** The interface conflict that validateInterface looks for: same name, and both VLAN IDs missing or both present and equal. */
  predicate Clash(a: InterfaceSpec, b: InterfaceSpec)
  {
    a.name == b.name && a.vlan == b.vlan
  }

  predicate InterfaceAdmitted(env: Env, st: Store, name: string, iface: InterfaceSpec, net: IPNet, ans: Answers)
  {
    && ans.hostOk && ans.listOk
    && (iface.vlan.Some? ==> 0 <= iface.vlan.value <= 4094)
    && env.parseCIDRAddress(iface.ipv4).Some?
    && Contains(net, env.parseCIDRAddress(iface.ipv4).value)
    && (forall n :: n in st.subnets && n != name ==> !Clash(st.subnets[n].iface, iface))
  }

  /** validateInterface. The listed objects come in any order. */
  method ValidateInterface(env: Env, st: Store, name: string, iface: InterfaceSpec, net: IPNet, ans: Answers) returns (ok: bool)
    ensures ok <==> InterfaceAdmitted(env, st, name, iface, net, ans)
  {
    if !ans.hostOk {
      return false;
    }
    if iface.vlan.Some? && (iface.vlan.value < 0 || iface.vlan.value > 4094) {
      return false;
    }
    var v := ValidateIPWithSubnetMatch(env.parseCIDRAddress, iface.ipv4, net);
    if v != Match {
      return false;
    }
    if !ans.listOk {
      return false;
    }
    var todo := st.subnets.Keys;
    while todo != {}
      invariant todo <= st.subnets.Keys
      invariant forall n :: n in st.subnets && n !in todo && n != name ==> !Clash(st.subnets[n].iface, iface)
      decreases |todo|
    {
      var n :| n in todo;
      todo := todo - {n};
      if n == name {
        continue;
      }
      var existing := st.subnets[n].iface;
      if existing.name == iface.name {
        if existing.vlan.Some? && iface.vlan.Some? {
          if existing.vlan.value == iface.vlan.value {
            return false;
          }
        } else if existing.vlan.None? && iface.vlan.None? {
          return false;
        }
      }
    }
    return true;
  }

  predicate SubnetAdmitted(env: Env, st: Store, name: string, s: SubnetSpec, ans: Answers)
  {
    && env.parseNet(s.cidr).Some?
    && var net := env.parseNet(s.cidr).value;
       && Accepted(env.parseIP, s.ipRange, net)
       && (s.gateway.Some? ==>
             env.parseIP(s.gateway.value).Some? && Contains(net, env.parseIP(s.gateway.value).value))
       && (s.dns.Some? ==> env.parseIP(s.dns.value).Some?)
       && InterfaceAdmitted(env, st, name, s.iface, net, ans)
  }

  /** validateSubnet. */
  method ValidateSubnet(env: Env, st: Store, name: string, s: SubnetSpec, ans: Answers) returns (ok: bool)
    ensures ok <==> SubnetAdmitted(env, st, name, s, ans)
  {
    var parsed := env.parseNet(s.cidr);
    if parsed.None? {
      return false;
    }
    var net := parsed.value;
    ok := ValidateIPRange(env.parseIP, s.ipRange, net);
    if !ok {
      return;
    }
    if s.gateway.Some? {
      var gateway := env.parseIP(s.gateway.value);
      if gateway.None? || !Contains(net, gateway.value) {
        return false;
      }
    }
    if s.dns.Some? && env.parseIP(s.dns.value).None? {
      return false;
    }
    ok := ValidateInterface(env, st, name, s.iface, net, ans);
  }

  predicate UpdateAdmitted(env: Env, st: Store, name: string, was: SubnetSpec, s: SubnetSpec, ans: Answers)
  {
    && was.cidr == s.cidr
    && env.parseNet(s.cidr).Some?
    && Expands(env.parseIP, was.ipRange, s.ipRange, env.parseNet(s.cidr).value)
    && was.iface == s.iface
    && SubnetAdmitted(env, st, name, s, ans)
  }

  /** ValidateUpdate. */
  method ValidateUpdate(env: Env, st: Store, name: string, was: SubnetSpec, s: SubnetSpec, ans: Answers) returns (ok: bool)
    ensures ok <==> UpdateAdmitted(env, st, name, was, s, ans)
  {
    if was.cidr != s.cidr {
      return false;
    }
    var parsed := env.parseNet(s.cidr);
    if parsed.None? {
      return false;
    }
    ok := ValidateIPRangeExpansion(env.parseIP, was.ipRange, s.ipRange, parsed.value);
    if !ok {
      return;
    }
    if was.iface.name != s.iface.name || was.iface.vlan != s.iface.vlan || was.iface.ipv4 != s.iface.ipv4 {
      return false;
    }
    ok := ValidateSubnet(env, st, name, s, ans);
  }

  // ---- the BindingIp webhook ----

  predicate BindingAdmitted(env: Env, st: Store, name: string, b: BindingSpec, ans: Answers)
  {
    && ans.readOk && ans.listOk
    && env.isUnicastMac(b.mac)
    && ComputesValid(env, st, b)
    && forall n :: n in st.bindings && n != name ==>
         st.bindings[n].ip != b.ip && !EqualFold(st.bindings[n].mac, b.mac)
  }

  /** The status that updateBindingIPStatus computes when it can read the Subnet. */
  predicate ComputesValid(env: Env, st: Store, b: BindingSpec)
  {
    && b.subnet in st.subnets
    && env.parseIP(b.ip).Some?
    && InRange(env.parseIP, st.subnets[b.subnet].ipRange, env.parseIP(b.ip).value)
  }

  /** updateBindingIPStatus; `readOk` is whether the API server answers. */
  method ComputeStatus(env: Env, st: Store, b: BindingSpec, readOk: bool) returns (valid: bool)
    ensures valid <==> readOk && ComputesValid(env, st, b)
  {
    if !readOk || b.subnet !in st.subnets {
      return false;
    }
    var ip := env.parseIP(b.ip);
    if ip.None? {
      return false;
    }
    valid := IsIPInRange(env.parseIP, ip.value, st.subnets[b.subnet].ipRange);
  }

  /** validateBindingIP. */
  method ValidateBindingIP(env: Env, st: Store, name: string, b: BindingSpec, ans: Answers) returns (ok: bool)
    ensures ok <==> BindingAdmitted(env, st, name, b, ans)
  {
    if !env.isUnicastMac(b.mac) {
      return false;
    }
    if !ans.readOk || b.subnet !in st.subnets {
      return false;
    }
    var ip := env.parseIP(b.ip);
    if ip.None? {
      return false;
    }
    var inRange := IsIPInRange(env.parseIP, ip.value, st.subnets[b.subnet].ipRange);
    if !inRange {
      return false;
    }
    if !ans.listOk {
      return false;
    }
    var todo := st.bindings.Keys;
    while todo != {}
      invariant todo <= st.bindings.Keys
      invariant forall n :: n in st.bindings && n !in todo && n != name ==>
                  st.bindings[n].ip != b.ip && !EqualFold(st.bindings[n].mac, b.mac)
      decreases |todo|
    {
      var n :| n in todo;
      todo := todo - {n};
      if n == name {
        continue;
      }
      if st.bindings[n].ip == b.ip || EqualFold(st.bindings[n].mac, b.mac) {
        return false;
      }
    }
    return true;
  }

  // ---- the automatic creator ----

  datatype Creation = Skip | Create | Retry

  /** createBindingIpForredfishstatus up to the request: `enabled` is the lease's flag, `listOk` whether the list call succeeds. */
  method DecideCreation(st: Store, name: string, b: BindingSpec, enabled: bool, listOk: bool) returns (c: Creation)
    ensures c == Create <==>
            enabled && listOk && name !in st.bindings && forall n :: n in st.bindings ==> st.bindings[n].ip != b.ip
    ensures c == Retry <==> enabled && !listOk
  {
    if !enabled {
      return Skip;
    }
    if !listOk {
      return Retry;
    }
    var todo := st.bindings.Keys;
    while todo != {}
      invariant todo <= st.bindings.Keys
      invariant forall n :: n in st.bindings && n !in todo ==> n != name && st.bindings[n].ip != b.ip
      decreases |todo|
    {
      var n :| n in todo;
      todo := todo - {n};
      var existing := st.bindings[n];
      if existing.ip == b.ip && EqualFold(existing.mac, b.mac) {
        return Skip;
      }
      if n == name {
        return Skip;
      }
      if existing.ip == b.ip {
        return Skip;
      }
    }
    return Create;
  }

  // ---- runs of API requests ----

  datatype Request =
    | CreateSubnet(name: string, subnet: SubnetSpec, ans: Answers)
    | UpdateSubnet(name: string, subnet: SubnetSpec, ans: Answers)
    | DeleteSubnet(name: string)
    | CreateBinding(name: string, binding: BindingSpec, ans: Answers)
    | UpdateBinding(name: string, binding: BindingSpec, ans: Answers)
    | DeleteBinding(name: string)

  /** The store after a request: a request that is not admitted changes nothing. */
  function Serve(env: Env, st: Store, req: Request): Store
  {
    match req
    case CreateSubnet(name, s, ans) =>
      if name !in st.subnets && SubnetAdmitted(env, st, name, Default(env, s), ans)
      then st.(subnets := st.subnets[name := Default(env, s)]) else st
    case UpdateSubnet(name, s, ans) =>
      if name in st.subnets && UpdateAdmitted(env, st, name, st.subnets[name], Default(env, s), ans)
      then st.(subnets := st.subnets[name := Default(env, s)]) else st
    case DeleteSubnet(name) => st.(subnets := st.subnets - {name})
    case CreateBinding(name, b, ans) =>
      if name !in st.bindings && BindingAdmitted(env, st, name, b, ans) then st.(bindings := st.bindings[name := b]) else st
    case UpdateBinding(name, b, ans) =>
      if name in st.bindings && BindingAdmitted(env, st, name, b, ans) then st.(bindings := st.bindings[name := b]) else st
    case DeleteBinding(name) => st.(bindings := st.bindings - {name})
  }

  // ---- what is admitted, in terms of addresses ----

  /** The range text is well formed and every address in it lies in the network. */
  ghost predicate RangeInside(p: Parser, ipRange: string, net: IPNet)
  {
    && (forall i :: 0 <= i < |Elements(p, ipRange)| ==> WellFormed(Elements(p, ipRange)[i]))
    && forall ip: IP :: InRange(p, ipRange, ip) ==> Contains(net, ip)
  }

  /** What the webhook asks of a defaulted Subnet, spelled out. */
  ghost predicate SubnetFits(env: Env, st: Store, name: string, s: SubnetSpec, ans: Answers)
  {
    && ans.hostOk && ans.listOk && env.parseNet(s.cidr).Some?
    && var net := env.parseNet(s.cidr).value;
       && RangeInside(env.parseIP, s.ipRange, net)
       && (s.gateway.None? || (env.parseIP(s.gateway.value).Some? && Contains(net, env.parseIP(s.gateway.value).value)))
       && (s.dns.None? || env.parseIP(s.dns.value).Some?)
       && (s.iface.vlan.None? || 0 <= s.iface.vlan.value <= 4094)
       && env.parseCIDRAddress(s.iface.ipv4).Some? && Contains(net, env.parseCIDRAddress(s.iface.ipv4).value)
       && forall n :: n in st.subnets && n != name ==>
            st.subnets[n].iface.name != s.iface.name || st.subnets[n].iface.vlan != s.iface.vlan
  }

  lemma SubnetFitsIs(env: Env, st: Store, name: string, s: SubnetSpec, ans: Answers)
    ensures SubnetAdmitted(env, st, name, s, ans) <==> SubnetFits(env, st, name, s, ans)
  {
    if env.parseNet(s.cidr).Some? {
      AcceptedMeansInside(env.parseIP, s.ipRange, env.parseNet(s.cidr).value);
    }
  }

  /** Creating a Subnet stores it, defaulted, exactly when the name is free and the Subnet fits; otherwise nothing changes. */
  lemma SubnetIsCreated(env: Env, st: Store, name: string, asked: SubnetSpec, s: SubnetSpec, ans: Answers)
    requires IsDefaulted(env, asked, s)
    ensures var st' := Serve(env, st, CreateSubnet(name, asked, ans));
            if name !in st.subnets && SubnetFits(env, st, name, s, ans)
            then st'.subnets == st.subnets[name := s] && st'.bindings == st.bindings
            else st' == st
  {
    assert Default(env, asked) == s;
    SubnetFitsIs(env, st, name, s, ans);
  }

  /** Updating one stores it exactly when it is stored already with the same network and interface, each old range element lies within one new one, and the Subnet fits. */
  lemma SubnetIsUpdated(env: Env, st: Store, name: string, asked: SubnetSpec, s: SubnetSpec, ans: Answers)
    requires IsDefaulted(env, asked, s) && RangesAccepted(env, st)
    ensures var st' := Serve(env, st, UpdateSubnet(name, asked, ans));
            if && name in st.subnets
               && s.cidr == st.subnets[name].cidr && s.iface == st.subnets[name].iface
               && AllReached(Elements(env.parseIP, st.subnets[name].ipRange), Elements(env.parseIP, s.ipRange))
               && SubnetFits(env, st, name, s, ans)
            then st'.subnets == st.subnets[name := s] && st'.bindings == st.bindings
            else st' == st
  {
    assert Default(env, asked) == s;
    SubnetFitsIs(env, st, name, s, ans);
  }

  /** What the webhook asks of a binding, spelled out. */
  predicate BindingFits(env: Env, st: Store, name: string, b: BindingSpec, ans: Answers)
  {
    && ans.readOk && ans.listOk && env.isUnicastMac(b.mac)
    && b.subnet in st.subnets && env.parseIP(b.ip).Some?
    && InRange(env.parseIP, st.subnets[b.subnet].ipRange, env.parseIP(b.ip).value)
    && forall n :: n in st.bindings && n != name ==> st.bindings[n].ip != b.ip && !EqualFold(st.bindings[n].mac, b.mac)
  }

  /** Creating a binding, or updating a stored one, stores it exactly when it fits; otherwise nothing changes. */
  lemma BindingIsStored(env: Env, st: Store, name: string, b: BindingSpec, ans: Answers)
    ensures var st' := Serve(env, st, if name in st.bindings then UpdateBinding(name, b, ans) else CreateBinding(name, b, ans));
            if BindingFits(env, st, name, b, ans)
            then st'.bindings == st.bindings[name := b] && st'.subnets == st.subnets
            else st' == st
    ensures Serve(env, st, if name in st.bindings then CreateBinding(name, b, ans) else UpdateBinding(name, b, ans)) == st
  {
  }

  /** Deletions remove the named object and nothing else. */
  lemma DeletedIsGone(env: Env, st: Store, name: string)
    ensures Serve(env, st, DeleteSubnet(name)) == Store(st.subnets - {name}, st.bindings)
    ensures Serve(env, st, DeleteBinding(name)) == Store(st.subnets, st.bindings - {name})
  {
  }

  predicate IsRun(env: Env, states: seq<Store>, reqs: seq<Request>)
  {
    && |states| == |reqs| + 1
    && states[0] == Store(map[], map[])
    && forall i :: 0 <= i < |reqs| ==> Served(env, states, reqs, i)
  }

  predicate Served(env: Env, states: seq<Store>, reqs: seq<Request>, i: nat)
    requires i < |reqs| && i + 1 < |states|
  {
    states[i + 1] == Serve(env, states[i], reqs[i])
  }

  // ---- what every run keeps ----

  predicate UniqueBindings(st: Store)
  {
    forall n, m :: n in st.bindings && m in st.bindings && n != m ==>
      st.bindings[n].ip != st.bindings[m].ip && !EqualFold(st.bindings[n].mac, st.bindings[m].mac)
  }

  /** Defaulted, and no two on the same interface and VLAN. */
  predicate DistinctInterfaces(st: Store)
  {
    && (forall n :: n in st.subnets ==> st.subnets[n].iface.vlan.Some?)
    && (forall n, m :: n in st.subnets && m in st.subnets && n != m ==>
          !Clash(st.subnets[n].iface, st.subnets[m].iface))
  }

  /** Every stored range is accepted for its own network. */
  predicate RangesAccepted(env: Env, st: Store)
  {
    forall n :: n in st.subnets ==>
      env.parseNet(st.subnets[n].cidr).Some? &&
      Accepted(env.parseIP, st.subnets[n].ipRange, env.parseNet(st.subnets[n].cidr).value)
  }

  predicate Sound(env: Env, st: Store)
  {
    UniqueBindings(st) && DistinctInterfaces(st) && RangesAccepted(env, st)
  }

  lemma AddKeepsUnique(st: Store, name: string, b: BindingSpec)
    requires UniqueBindings(st)
    requires forall n :: n in st.bindings && n != name ==> st.bindings[n].ip != b.ip && !EqualFold(st.bindings[n].mac, b.mac)
    ensures UniqueBindings(st.(bindings := st.bindings[name := b]))
  {
  }

  lemma ServeKeepsUnique(env: Env, st: Store, req: Request)
    requires UniqueBindings(st)
    ensures UniqueBindings(Serve(env, st, req))
  {
    if (req.CreateBinding? || req.UpdateBinding?) && BindingAdmitted(env, st, req.name, req.binding, req.ans) {
      AddKeepsUnique(st, req.name, req.binding);
    } else if !req.DeleteBinding? {
      assert Serve(env, st, req).bindings == st.bindings;
    }
  }

  lemma AddKeepsDistinct(st: Store, name: string, s: SubnetSpec)
    requires DistinctInterfaces(st) && s.iface.vlan.Some?
    requires forall n :: n in st.subnets && n != name ==> !Clash(st.subnets[n].iface, s.iface)
    ensures DistinctInterfaces(st.(subnets := st.subnets[name := s]))
  {
  }

  lemma ServeKeepsDistinct(env: Env, st: Store, req: Request)
    requires DistinctInterfaces(st)
    ensures DistinctInterfaces(Serve(env, st, req))
  {
    if req.CreateSubnet? || req.UpdateSubnet? {
      if SubnetAdmitted(env, st, req.name, Default(env, req.subnet), req.ans) {
        AddKeepsDistinct(st, req.name, Default(env, req.subnet));
      }
    } else if !req.DeleteSubnet? {
      assert Serve(env, st, req).subnets == st.subnets;
    }
  }

  lemma ServeKeepsAccepted(env: Env, st: Store, req: Request)
    requires RangesAccepted(env, st)
    ensures RangesAccepted(env, Serve(env, st, req))
  {
  }

  lemma ServeKeepsSound(env: Env, st: Store, req: Request, st': Store)
    requires Sound(env, st) && st' == Serve(env, st, req)
    ensures Sound(env, st')
  {
    ServeKeepsUnique(env, st, req);
    ServeKeepsDistinct(env, st, req);
    ServeKeepsAccepted(env, st, req);
  }

  lemma SoundStep(env: Env, states: seq<Store>, reqs: seq<Request>, i: nat)
    requires IsRun(env, states, reqs) && i < |reqs| && Sound(env, states[i])
    ensures Sound(env, states[i + 1])
  {
    assert Served(env, states, reqs, i);
    ServeKeepsSound(env, states[i], reqs[i], states[i + 1]);
  }

  /** Over every run of serialised admissions no two stored bindings share an IP or a case-folded MAC, no two Subnets an interface and VLAN, and every stored range lies in its network. */
  lemma {:induction false} EveryStoreIsSound(env: Env, states: seq<Store>, reqs: seq<Request>, k: nat)
    requires IsRun(env, states, reqs) && k < |states|
    ensures Sound(env, states[k])
  {
    if k > 0 {
      EveryStoreIsSound(env, states, reqs, k - 1);
      SoundStep(env, states, reqs, k - 1);
    }
  }

  /** What a stored Subnet promises its server: gateway and server address in the network, a DNS address, a VLAN ID. */
  predicate WellPlaced(env: Env, s: SubnetSpec)
  {
    && env.parseNet(s.cidr).Some?
    && var net := env.parseNet(s.cidr).value;
       && (s.gateway.Some? ==> env.parseIP(s.gateway.value).Some? && Contains(net, env.parseIP(s.gateway.value).value))
       && (s.dns.Some? ==> env.parseIP(s.dns.value).Some?)
       && env.parseCIDRAddress(s.iface.ipv4).Some? && Contains(net, env.parseCIDRAddress(s.iface.ipv4).value)
       && s.iface.vlan.Some? && 0 <= s.iface.vlan.value <= 4094
  }

  predicate AllWellPlaced(env: Env, st: Store)
  {
    && (forall n :: n in st.subnets ==> WellPlaced(env, st.subnets[n]))
    && (forall n :: n in st.bindings ==> env.isUnicastMac(st.bindings[n].mac) && env.parseIP(st.bindings[n].ip).Some?)
  }

  lemma ServeKeepsPlaced(env: Env, st: Store, req: Request)
    requires AllWellPlaced(env, st)
    ensures AllWellPlaced(env, Serve(env, st, req))
  {
  }

  /** Over every run each stored Subnet has its gateway and its server address in its network, a DNS address that parses and a VLAN ID from 0 to 4094, and each stored binding a unicast MAC and an address. */
  lemma {:induction false} EveryStoreIsPlaced(env: Env, states: seq<Store>, reqs: seq<Request>, k: nat)
    requires IsRun(env, states, reqs) && k < |states|
    ensures AllWellPlaced(env, states[k])
  {
    if k > 0 {
      EveryStoreIsPlaced(env, states, reqs, k - 1);
      assert Served(env, states, reqs, k - 1);
      ServeKeepsPlaced(env, states[k - 1], reqs[k - 1]);
    }
  }

  /** The stored spec is the requested one, with VLAN 0 where none was given and the configured interface where the name was empty. */
  predicate IsDefaulted(env: Env, asked: SubnetSpec, s: SubnetSpec)
  {
    && s.cidr == asked.cidr && s.ipRange == asked.ipRange && s.gateway == asked.gateway && s.dns == asked.dns
    && s.iface.ipv4 == asked.iface.ipv4
    && s.iface.vlan == Some(if asked.iface.vlan.Some? then asked.iface.vlan.value else 0)
    && s.iface.name == (if asked.iface.name != "" then asked.iface.name else env.defaultInterface)
  }

  /** The request stores the Subnet under the name. */
  predicate Asks(env: Env, req: Request, n: string, s: SubnetSpec)
  {
    (req.CreateSubnet? || req.UpdateSubnet?) && req.name == n && IsDefaulted(env, req.subnet, s)
  }

  /** Over every run each stored Subnet is what some earlier request asked for, with its defaults filled in. */
  lemma {:induction false} StoredWasAsked(env: Env, states: seq<Store>, reqs: seq<Request>, k: nat, n: string) returns (i: nat)
    requires IsRun(env, states, reqs) && k < |states| && n in states[k].subnets
    ensures i < k && Asks(env, reqs[i], n, states[k].subnets[n])
  {
    assert k > 0;
    assert Served(env, states, reqs, k - 1);
    if n in states[k - 1].subnets && states[k - 1].subnets[n] == states[k].subnets[n] {
      i := StoredWasAsked(env, states, reqs, k - 1, n);
    } else {
      i := k - 1;
    }
  }

  /** Bindings with dotted-quad addresses are unique as addresses, not only as text. */
  lemma UniqueAsAddresses(st: Store, n: string, m: string)
    requires UniqueBindings(st) && n in st.bindings && m in st.bindings && n != m
    requires ParseQuad(st.bindings[n].ip).Some? && ParseQuad(st.bindings[m].ip).Some?
    ensures ParseQuad(st.bindings[n].ip) != ParseQuad(st.bindings[m].ip)
  {
    if ParseQuad(st.bindings[n].ip) == ParseQuad(st.bindings[m].ip) {
      QuadInjective(st.bindings[n].ip, st.bindings[m].ip);
    }
  }

  /** One request: a Subnet that exists before and after keeps its network and interface, and loses no address. */
  lemma ServeKeepsSubnet(env: Env, st: Store, req: Request, s: string)
    requires s in st.subnets && s in Serve(env, st, req).subnets
    ensures var was, now := st.subnets[s], Serve(env, st, req).subnets[s];
            now.cidr == was.cidr && now.iface == was.iface && Keeps(env.parseIP, was.ipRange, now.ipRange)
  {
    var was, now := st.subnets[s], Serve(env, st, req).subnets[s];
    if req.UpdateSubnet? && now != was {
      ExpansionKeepsAddresses(env.parseIP, was.ipRange, now.ipRange, env.parseNet(now.cidr).value);
    }
  }

  /** The later spec has the same network and interface, and every address of the earlier range. */
  ghost predicate Grew(p: Parser, was: SubnetSpec, now: SubnetSpec)
  {
    now.cidr == was.cidr && now.iface == was.iface && Keeps(p, was.ipRange, now.ipRange)
  }

  lemma GrewTransitive(p: Parser, a: SubnetSpec, b: SubnetSpec, c: SubnetSpec)
    requires Grew(p, a, b) && Grew(p, b, c)
    ensures Grew(p, a, c)
  {
  }

  lemma GrowStep(env: Env, states: seq<Store>, reqs: seq<Request>, i: nat, s: string)
    requires IsRun(env, states, reqs) && i < |reqs|
    requires s in states[i].subnets && s in states[i + 1].subnets
    ensures Grew(env.parseIP, states[i].subnets[s], states[i + 1].subnets[s])
  {
    assert Served(env, states, reqs, i);
    ServeKeepsSubnet(env, states[i], reqs[i], s);
  }

  /** Over any run, for as long as a Subnet exists its CIDR, interface, VLAN and server address never change and every address once in its range stays in it. */
  lemma {:induction false} SubnetOnlyGrows(env: Env, states: seq<Store>, reqs: seq<Request>, a: nat, c: nat, s: string)
    requires IsRun(env, states, reqs) && a <= c < |states|
    requires forall i :: a <= i <= c ==> s in states[i].subnets
    ensures Grew(env.parseIP, states[a].subnets[s], states[c].subnets[s])
    decreases c - a
  {
    if a < c {
      SubnetOnlyGrows(env, states, reqs, a, c - 1, s);
      GrowStep(env, states, reqs, c - 1, s);
      GrewTransitive(env.parseIP, states[a].subnets[s], states[c - 1].subnets[s], states[c].subnets[s]);
    }
  }

  /** An admitted, unedited binding is computed valid at every later check while its Subnet exists. */
  lemma AdmittedBindingStaysValid(env: Env, states: seq<Store>, reqs: seq<Request>, a: nat, c: nat)
    requires IsRun(env, states, reqs) && a < |reqs| && a < c < |states|
    requires reqs[a].CreateBinding? || reqs[a].UpdateBinding?
    requires BindingAdmitted(env, states[a], reqs[a].name, reqs[a].binding, reqs[a].ans)
    requires forall i :: a <= i <= c ==> reqs[a].binding.subnet in states[i].subnets
    ensures ComputesValid(env, states[c], reqs[a].binding)
  {
    var b := reqs[a].binding;
    SubnetOnlyGrows(env, states, reqs, a, c, b.subnet);
    assert Grew(env.parseIP, states[a].subnets[b.subnet], states[c].subnets[b.subnet]);
  }

  // ---- the Subnet must go on existing ----

  const ALL_WELL := Answers(true, true, true)

  /** A Subnet whose range is the one address spelled `ip`. */
  function OneAddressSubnet(cidr: string, ip: string, server: string): SubnetSpec
  {
    SubnetSpec(cidr, ip + ['-'] + ip, None, None, InterfaceSpec("eth0", Some(0), server))
  }

  /** The spelling names an address of the network. */
  predicate Spells(env: Env, ip: string, net: IPNet)
  {
    EndText(ip) && env.parseIP(ip).Some? && Contains(net, env.parseIP(ip).value)
  }

  lemma OneAddressRange(env: Env, ip: string, net: IPNet)
    requires Spells(env, ip, net)
    ensures Accepted(env.parseIP, ip + ['-'] + ip, net)
    ensures forall x: IP :: InRange(env.parseIP, ip + ['-'] + ip, x) <==> x == env.parseIP(ip).value
  {
    var a := env.parseIP(ip).value;
    DashedPair(env.parseIP, ip, ip);
    CompareSelf(a);
    var es := Elements(env.parseIP, ip + ['-'] + ip);
    assert EndsWithin(es[0], net);
    forall x: IP
      ensures DenotedBy(es, x) <==> x == a
    {
      CompareIsNumeric(a, x);
      CompareIsNumeric(x, a);
      assert Denotes(es[0], x) <==> x == a;
    }
  }

  lemma OneAddressAdmitted(env: Env, st: Store, s: string, cidr: string, ip: string, server: string)
    requires env.parseNet(cidr).Some? && Spells(env, ip, env.parseNet(cidr).value)
    requires env.parseCIDRAddress(server).Some? && Contains(env.parseNet(cidr).value, env.parseCIDRAddress(server).value)
    requires st.subnets == map[]
    ensures var spec := OneAddressSubnet(cidr, ip, server);
            Serve(env, st, CreateSubnet(s, spec, ALL_WELL)) == st.(subnets := map[s := spec])
  {
    OneAddressRange(env, ip, env.parseNet(cidr).value);
    var spec := OneAddressSubnet(cidr, ip, server);
    assert Default(env, spec) == spec;
    assert SubnetAdmitted(env, st, s, spec, ALL_WELL);
  }

  lemma BoundToOneAddress(env: Env, bindings: map<string, BindingSpec>, s: string, n: string, cidr: string, ip: string, server: string, mac: string)
    requires env.parseNet(cidr).Some? && Spells(env, ip, env.parseNet(cidr).value) && env.isUnicastMac(mac)
    requires n !in bindings && forall m :: m in bindings ==> bindings[m].ip != ip && !EqualFold(bindings[m].mac, mac)
    ensures var b, subnets := BindingSpec(s, ip, mac), map[s := OneAddressSubnet(cidr, ip, server)];
            Serve(env, Store(subnets, bindings), CreateBinding(n, b, ALL_WELL)) == Store(subnets, bindings[n := b])
  {
    OneAddressRange(env, ip, env.parseNet(cidr).value);
    assert BindingAdmitted(env, Store(map[s := OneAddressSubnet(cidr, ip, server)], bindings), n, BindingSpec(s, ip, mac), ALL_WELL);
  }

  /** A run in which every request is admitted: a Subnet with the range `ip-ip`, a binding of ip, then the Subnet deleted and created anew with the range `other-other`. The binding is still stored and no longer valid. */
  lemma RecreatedSubnetStrandsBinding(env: Env, s: string, n: string, cidr: string, ip: string, other: string, server: string, mac: string)
      returns (states: seq<Store>, reqs: seq<Request>)
    requires env.parseNet(cidr).Some?
    requires Spells(env, ip, env.parseNet(cidr).value) && Spells(env, other, env.parseNet(cidr).value)
    requires env.parseIP(ip) != env.parseIP(other)
    requires env.parseCIDRAddress(server).Some? && Contains(env.parseNet(cidr).value, env.parseCIDRAddress(server).value)
    requires env.isUnicastMac(mac)
    ensures IsRun(env, states, reqs) && |states| == 5
    ensures var b := BindingSpec(s, ip, mac);
            && ComputesValid(env, states[2], b)
            && s in states[4].subnets && n in states[4].bindings && states[4].bindings[n] == b
            && !ComputesValid(env, states[4], b)
  {
    var b := BindingSpec(s, ip, mac);
    var spec1, spec2 := OneAddressSubnet(cidr, ip, server), OneAddressSubnet(cidr, other, server);
    var st0, st1 := Store(map[], map[]), Store(map[s := spec1], map[]);
    var st2 := Store(map[s := spec1], map[n := b]);
    var st3 := Store(map[], map[n := b]);
    var st4 := Store(map[s := spec2], map[n := b]);
    OneAddressAdmitted(env, st0, s, cidr, ip, server);
    var create := CreateBinding(n, b, ALL_WELL);
    BoundToOneAddress(env, map[], s, n, cidr, ip, server, mac);
    assert Serve(env, st2, DeleteSubnet(s)) == st3;
    OneAddressAdmitted(env, st3, s, cidr, other, server);
    OneAddressRange(env, ip, env.parseNet(cidr).value);
    OneAddressRange(env, other, env.parseNet(cidr).value);
    states := [st0, st1, st2, st3, st4];
    reqs := [CreateSubnet(s, spec1, ALL_WELL), create, DeleteSubnet(s), CreateSubnet(s, spec2, ALL_WELL)];
    assert Served(env, states, reqs, 0) && Served(env, states, reqs, 1);
    assert Served(env, states, reqs, 2) && Served(env, states, reqs, 3);
  }
}
