/**
  The usage figures in a Subnet's status: updateClientFunc merges the lease table with the table
  of manual bindings, and the available amount is an unsigned subtraction.
 */
module Usage {
  import opened Text
  import opened Address
  import opened DottedQuad
  import opened Ranges
  import opened Counting
  import opened Bindings
  import opened Leases

  /** clientInfo; the expiry is the empty string for a binding without a lease. */
  datatype Detail = Detail(mac: string, isBound: bool, isAllocated: bool, hostname: string, expire: Option<int>)

  /** Every address once: the lease's data where there is a lease, the binding's otherwise, and both flags right. */
  predicate IsMerge(m: map<string, Detail>, leases: Table, bound: map<string, Client>)
  {
    && m.Keys == leases.Keys + bound.Keys
    && (forall ip :: ip in m ==> m[ip].isBound == (ip in bound) && m[ip].isAllocated == (ip in leases))
    && (forall ip :: ip in leases ==>
          m[ip].mac == leases[ip].mac && m[ip].hostname == leases[ip].hostname && m[ip].expire == Some(leases[ip].expire))
    && (forall ip :: ip in bound && ip !in leases ==>
          m[ip].mac == bound[ip].mac && m[ip].hostname == bound[ip].hostname && m[ip].expire == None)
  }

  function FromBinding(c: Client): Detail
  {
    Detail(c.mac, true, false, c.hostname, None)
  }

  function FromLease(l: Lease, isBound: bool): Detail
  {
    Detail(l.mac, isBound, true, l.hostname, Some(l.expire))
  }

  /** The first loop: all manual bindings. */
  method AddBindings(bound: map<string, Client>) returns (details: map<string, Detail>, counter: nat)
    ensures forall ip :: ip in details <==> ip in bound
    ensures counter == |details|
    ensures forall ip :: ip in details ==> details[ip] == FromBinding(bound[ip])
  {
    details := map[];
    counter := 0;
    var todo := bound.Keys;
    while todo != {}
      invariant todo <= bound.Keys
      invariant forall ip :: ip in details <==> ip in bound && ip !in todo
      invariant counter == |details|
      invariant forall ip :: ip in details ==> details[ip] == FromBinding(bound[ip])
      decreases |todo|
    {
      var ip :| ip in todo;
      AddKey(details, ip, FromBinding(bound[ip]));
      details := details[ip := FromBinding(bound[ip])];
      counter := counter + 1;
      todo := todo - {ip};
    }
  }

  /** The entry for an address once the leases outside `todo` have been merged in. */
  function DetailFor(leases: Table, todo: set<string>, bound: map<string, Client>, ip: string): Detail
    requires ip in bound || (ip in leases && ip !in todo)
  {
    if ip in leases && ip !in todo then FromLease(leases[ip], ip in bound) else FromBinding(bound[ip])
  }

  lemma MergeIs(m: map<string, Detail>, leases: Table, bound: map<string, Client>)
    requires forall ip :: ip in m <==> ip in bound || ip in leases
    requires forall ip :: ip in m ==> m[ip] == DetailFor(leases, {}, bound, ip)
    ensures IsMerge(m, leases, bound)
    ensures |m| == |leases.Keys + bound.Keys|
  {
    assert m.Keys == leases.Keys + bound.Keys;
    assert |m| == |m.Keys|;
  }

  /** updateClientFunc, over the maps in any iteration order: the used amount is the number of addresses that are leased, bound or both. */
  method UpdateClients(leases: Table, bound: map<string, Client>) returns (details: map<string, Detail>, counter: nat)
    ensures IsMerge(details, leases, bound)
    ensures counter == |leases.Keys + bound.Keys|
  {
    details, counter := AddBindings(bound);
    var todo := leases.Keys;
    while todo != {}
      invariant todo <= leases.Keys
      invariant forall ip :: ip in details <==> ip in bound || (ip in leases && ip !in todo)
      invariant counter == |details|
      invariant forall ip :: ip in details ==> details[ip] == DetailFor(leases, todo, bound, ip)
      decreases |todo|
    {
      var ip :| ip in todo;
      var lease := leases[ip];
      assert DetailFor(leases, todo - {ip}, bound, ip) == FromLease(lease, ip in bound);
      if ip in details {
        var existing := details[ip];
        assert existing == FromBinding(bound[ip]);
        details := details[ip := existing.(mac := lease.mac, isAllocated := true, hostname := lease.hostname, expire := Some(lease.expire))];
      } else {
        AddKey(details, ip, FromLease(lease, false));
        details := details[ip := FromLease(lease, false)];
        counter := counter + 1;
      }
      todo := todo - {ip};
    }
    MergeIs(details, leases, bound);
  }

  lemma AddKey<V>(m: map<string, V>, k: string, v: V)
    requires k !in m
    ensures |m[k := v]| == |m| + 1
  {
  }

  // ---- the amounts ----

  /** uint64 subtraction. */
  function Sub64(a: nat, b: nat): nat
  {
    (a - b) % TWO_64
  }

  /** The counted size of the range; a range that cannot be counted counts as empty. */
  function Total(p: Parser, ipRange: string): nat
  {
    if AllCountable(Elements(p, ipRange)) then Count64(Elements(p, ipRange)) else 0
  }

  /** Each address that is leased, bound or both, once. */
  function Used(leases: Table, bound: map<string, Client>): nat
  {
    |leases.Keys + bound.Keys|
  }

  function Available(p: Parser, ipRange: string, leases: Table, bound: map<string, Client>): nat
  {
    Sub64(Total(p, ipRange), Used(leases, bound))
  }

  /** Used plus doubly counted is active plus bound. */
  lemma UsedIsConserved(leases: Table, bound: map<string, Client>)
    ensures Used(leases, bound) + |leases.Keys * bound.Keys| == |leases| + |bound|
  {
    assert |leases.Keys + bound.Keys| == |leases.Keys| + |bound.Keys| - |leases.Keys * bound.Keys|;
  }

  datatype Amounts = Amounts(total: nat, available: nat, active: nat, bind: nat)

  /** The amounts that updateSubnetWithRetry stores. Used and doubly held addresses together are the active and the bound ones. */
  method ComputeAmounts(p: Parser, ipRange: string, leases: Table, bound: map<string, Client>) returns (a: Amounts)
    ensures a.total == Total(p, ipRange) && a.available == Available(p, ipRange, leases, bound)
    ensures a.active == |leases| && a.bind == |bound|
    ensures Used(leases, bound) + |leases.Keys * bound.Keys| == a.active + a.bind
  {
    UsedIsConserved(leases, bound);
    var count := CountIPsInRange(p, ipRange);
    var total := if count.Some? then count.value else 0;
    var _, used := UpdateClients(leases, bound);
    a := Amounts(total, Sub64(total, used), |leases|, |bound|);
  }

  /** The subtraction is exact precisely when no more addresses are used than counted. */
  lemma AvailableExact(total: nat, used: nat)
    requires total < TWO_64 && used < TWO_64
    ensures Sub64(total, used) == total - used <==> used <= total
    ensures used > total ==> Sub64(total, used) == TWO_64 + total - used
  {
  }

  /** The key is a dotted quad inside the range. */
  predicate KeyInRange(p: Parser, ipRange: string, key: string)
  {
    ParseQuad(key).Some? && InRange(p, ipRange, Mapped(ParseQuad(key).value))
  }

  function KeyNumber(key: string): int
    requires ParseQuad(key).Some?
  {
    ToUint32(ParseQuad(key).value)
  }

  lemma KeyNumberInjective(a: string, b: string)
    requires ParseQuad(a).Some? && ParseQuad(b).Some? && KeyNumber(a) == KeyNumber(b)
    ensures a == b
  {
    QuadOrder(ParseQuad(a).value, ParseQuad(b).value);
    QuadInjective(a, b);
  }

  /** Distinct address strings are distinct addresses, so there are no more of them than addresses. */
  lemma {:induction false} KeysFit(keys: set<string>, numbers: set<int>)
    requires forall k :: k in keys ==> ParseQuad(k).Some? && KeyNumber(k) in numbers
    ensures |keys| <= |numbers|
    decreases keys
  {
    if keys != {} {
      var k :| k in keys;
      forall j | j in keys - {k}
        ensures KeyNumber(j) in numbers - {KeyNumber(k)}
      {
        if KeyNumber(j) == KeyNumber(k) {
          KeyNumberInjective(j, k);
        }
      }
      KeysFit(keys - {k}, numbers - {KeyNumber(k)});
    }
  }

  /** The available amount never wraps: when every leased and every bound address is in the range and no element is full, used <= distinct addresses <= total. */
  lemma AvailableNeverWraps(p: Parser, ipRange: string, leases: Table, bound: map<string, Client>)
    requires AllCountable(Elements(p, ipRange)) && |Elements(p, ipRange)| <= TWO_32
    requires FullCount(Elements(p, ipRange)) == 0
    requires forall ip :: ip in leases.Keys + bound.Keys ==> KeyInRange(p, ipRange, ip)
    ensures Used(leases, bound) <= |Addresses(Elements(p, ipRange))| <= Total(p, ipRange)
    ensures Available(p, ipRange, leases, bound) == Total(p, ipRange) - Used(leases, bound)
  {
    var es := Elements(p, ipRange);
    var keys := leases.Keys + bound.Keys;
    forall k | k in keys
      ensures ParseQuad(k).Some? && KeyNumber(k) in Addresses(es)
    {
      assert KeyInRange(p, ipRange, k);
      var q := ParseQuad(k).value;
      assert Mapped(q)[..12] == V4_PREFIX && Mapped(q)[12..] == q;
      AddressesDenoted(es, Mapped(q));
    }
    KeysFit(keys, Addresses(es));
    CountIsExact(es);
    AvailableExact(Count64(es), |keys|);
  }
}
