/**
  The data the binding pipeline passes around: what the BindingIp cache holds, what travels on
  the channels, and what one DHCP server keeps in its table of manual bindings.
 */
module Bindings {
  import opened Text

  /** BindingIPInfo. */
  datatype Info = Info(subnet: string, ip: string, mac: string, valid: bool, hostname: string)

  /** The fields of DhcpClientInfo that a manual binding fills in. */
  datatype Client = Client(ip: string, mac: string, hostname: string)

  /** The pair that a binding claims. */
  datatype Key = Key(subnet: string, ip: string)

  function KeyOf(e: Info): Key
  {
    Key(e.subnet, e.ip)
  }

  function ClientOf(e: Info): Client
  {
    Client(e.ip, e.mac, e.hostname)
  }

  /** monitor, adding branch: an entry with the same MAC is left alone, hostname included. */
  function Insert(table: map<string, Client>, e: Info): (r: map<string, Client>)
    ensures e.ip in r && r[e.ip].mac == e.mac
    ensures e.ip in table && table[e.ip].mac == e.mac ==> r == table
    ensures !(e.ip in table && table[e.ip].mac == e.mac) ==> r[e.ip] == Client(e.ip, e.mac, e.hostname)
    ensures forall ip :: ip != e.ip ==> (ip in r <==> ip in table) && (ip in table ==> r[ip] == table[ip])
  {
    if e.ip in table && table[e.ip].mac == e.mac then table else table[e.ip := ClientOf(e)]
  }

  /** monitor, deleting branch: only an entry with the same IP and the same MAC up to case goes. */
  function Remove(table: map<string, Client>, e: Info): (r: map<string, Client>)
    ensures forall ip :: ip in r ==> ip in table && r[ip] == table[ip]
    ensures forall ip :: ip in table && ip !in r <==> ip == e.ip && ip in table && EqualFold(table[ip].mac, e.mac)
  {
    if e.ip in table && EqualFold(table[e.ip].mac, e.mac) then table - {e.ip} else table
  }

  /** processBindingIP: the object differs from what is cached, so the servers must hear of it. */
  predicate Announced(cache: map<string, Info>, name: string, e: Info)
  {
    || name !in cache
    || cache[name].ip != e.ip
    || !EqualFold(cache[name].mac, e.mac)
    || cache[name].subnet != e.subnet
  }

  /** The event that Reconcile sends when the object behind a cached entry is gone. */
  function Removal(e: Info): Info
  {
    e.(valid := false)
  }
}
