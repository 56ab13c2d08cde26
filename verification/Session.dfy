/**
  The cache of Redfish sessions behind NewClient: at most one client per IP, reused while its
  configuration is unchanged and it still answers.
 */
module Session {
  import opened Text

  /** gofish.ClientConfig; the endpoint is protocol, IP and port. */
  datatype Config = Config(https: bool, ip: string, port: int, username: string, password: string)

  /** A client owns one login session. */
  datatype Client = Client(config: Config, session: nat)

  /** The cache, and the sessions opened and closed so far; `next` numbers sessions. */
  datatype Pool = Pool(cache: map<string, Client>, connects: nat, logouts: nat, open: set<nat>, next: nat)

  const Empty := Pool(map[], 0, 0, {}, 0)

  function Drop(p: Pool, ip: string): Pool
    requires ip in p.cache
  {
    p.(cache := p.cache - {ip}, logouts := p.logouts + 1, open := p.open - {p.cache[ip].session})
  }

  function Connect(p: Pool, want: Config): Pool
  {
    Pool(p.cache[want.ip := Client(want, p.next)], p.connects + 1, p.logouts, p.open + {p.next}, p.next + 1)
  }

  /** NewClient; `answers` is whether a cached client still answers, `connects` whether a login succeeds. */
  function After(p: Pool, want: Config, answers: bool, connects: bool): Pool
  {
    if want.ip in p.cache && p.cache[want.ip].config == want && answers then p
    else
      var q := if want.ip in p.cache then Drop(p, want.ip) else p;
      if connects then Connect(q, want) else q
  }

  class ClientCache {
    var pool: Pool

    constructor ()
      ensures pool == Empty
    {
      pool := Empty;
    }

    method NewClient(want: Config, answers: bool, connects: bool) returns (r: Option<Client>)
      modifies this
      ensures pool == After(old(pool), want, answers, connects)
      ensures r.Some? ==> r.value.config == want && want.ip in pool.cache && pool.cache[want.ip] == r.value
      ensures r.None? ==> !connects && want.ip !in pool.cache
      ensures want.ip in old(pool).cache && old(pool).cache[want.ip].config == want && answers ==>
                r == Some(old(pool).cache[want.ip]) && pool == old(pool)
      ensures !(want.ip in old(pool).cache && old(pool).cache[want.ip].config == want && answers) ==>
                && (r.Some? <==> connects)
                && (r.Some? ==> r.value.session == old(pool).next)
                && pool.connects == old(pool).connects + (if connects then 1 else 0)
                && pool.logouts == old(pool).logouts + (if want.ip in old(pool).cache then 1 else 0)
                && (want.ip in old(pool).cache && old(Conserved(pool)) ==> old(pool).cache[want.ip].session !in pool.open)
      ensures forall ip :: ip != want.ip ==>
                && (ip in pool.cache <==> ip in old(pool).cache)
                && (ip in pool.cache ==> pool.cache[ip] == old(pool).cache[ip])
    {
      if want.ip in pool.cache {
        var c := pool.cache[want.ip];
        if c.config == want {
          if answers {
            return Some(c);
          }
        }
        pool := pool.(logouts := pool.logouts + 1, open := pool.open - {c.session}, cache := pool.cache - {want.ip});
      }
      if !connects {
        return None;
      }
      var c := Client(want, pool.next);
      pool := pool.(connects := pool.connects + 1, open := pool.open + {pool.next}, next := pool.next + 1,
                    cache := pool.cache[want.ip := c]);
      return Some(c);
    }
  }

  // ---- runs ----

  datatype Request = Request(want: Config, answers: bool, connects: bool)

  function AfterAll(reqs: seq<Request>): Pool
  {
    if reqs == [] then Empty
    else
      var r := reqs[|reqs| - 1];
      After(AfterAll(reqs[..|reqs| - 1]), r.want, r.answers, r.connects)
  }

  /** Every cached client sits under its own IP, with an open session. */
  predicate ClientsOpen(p: Pool)
  {
    forall ip :: ip in p.cache ==> p.cache[ip].config.ip == ip && p.cache[ip].session in p.open
  }

  /** No two cached clients share a session. */
  predicate SessionsDistinct(p: Pool)
  {
    forall a, b :: a in p.cache && b in p.cache && a != b ==> p.cache[a].session != p.cache[b].session
  }

  /** Every open session is that of a cached client. */
  predicate SessionsCached(p: Pool)
  {
    forall s :: s in p.open ==> s < p.next && exists ip :: ip in p.cache && p.cache[ip].session == s
  }

  predicate Counted(p: Pool)
  {
    p.connects - p.logouts == |p.cache| && |p.open| == |p.cache|
  }

  predicate Conserved(p: Pool)
  {
    ClientsOpen(p) && SessionsDistinct(p) && SessionsCached(p) && Counted(p)
  }

  lemma DropKeepsCached(p: Pool, ip: string)
    requires SessionsCached(p) && ip in p.cache
    ensures SessionsCached(Drop(p, ip))
  {
    var q := Drop(p, ip);
    forall s | s in q.open
      ensures s < q.next && exists j :: j in q.cache && q.cache[j].session == s
    {
      var j :| j in p.cache && p.cache[j].session == s;
      assert j in q.cache;
    }
  }

  lemma DropKeepsDistinct(p: Pool, ip: string)
    requires ClientsOpen(p) && SessionsDistinct(p) && ip in p.cache
    ensures ClientsOpen(Drop(p, ip)) && SessionsDistinct(Drop(p, ip))
  {
  }

  lemma DropKeepsCount(p: Pool, ip: string)
    requires Counted(p) && ip in p.cache && p.cache[ip].session in p.open
    ensures Counted(Drop(p, ip))
  {
    assert p.cache == Drop(p, ip).cache[ip := p.cache[ip]];
  }

  lemma DropConserves(p: Pool, ip: string)
    requires Conserved(p) && ip in p.cache
    ensures Conserved(Drop(p, ip))
  {
    DropKeepsCached(p, ip);
    DropKeepsDistinct(p, ip);
    DropKeepsCount(p, ip);
  }

  lemma ConnectKeepsCached(p: Pool, want: Config)
    requires SessionsCached(p) && want.ip !in p.cache
    ensures SessionsCached(Connect(p, want))
  {
    var q := Connect(p, want);
    forall s | s in q.open
      ensures s < q.next && exists j :: j in q.cache && q.cache[j].session == s
    {
      if s == p.next {
        assert q.cache[want.ip].session == s;
      } else {
        var j :| j in p.cache && p.cache[j].session == s;
        assert j in q.cache && q.cache[j] == p.cache[j];
      }
    }
  }

  lemma ConnectKeepsDistinct(p: Pool, want: Config)
    requires ClientsOpen(p) && SessionsDistinct(p) && p.next !in p.open && want.ip !in p.cache
    ensures ClientsOpen(Connect(p, want)) && SessionsDistinct(Connect(p, want))
  {
  }

  lemma ConnectConserves(p: Pool, want: Config)
    requires Conserved(p) && want.ip !in p.cache
    ensures Conserved(Connect(p, want))
  {
    assert p.next !in p.open;
    ConnectKeepsCached(p, want);
    ConnectKeepsDistinct(p, want);
  }

  /** Over every sequence of calls: asking again for a configuration that is cached and still answers logs nobody in or out. */
  lemma ReuseIsFree(reqs: seq<Request>, r: Request)
    requires r.want.ip in AfterAll(reqs).cache && AfterAll(reqs).cache[r.want.ip].config == r.want && r.answers
    ensures AfterAll(reqs + [r]) == AfterAll(reqs)
  {
    assert (reqs + [r])[..|reqs|] == reqs;
  }

  /** Over every sequence of calls: successful connects minus logouts is the cache size, and the sessions still open are exactly those of the cached clients, one per IP. */
  lemma {:induction false} SessionsAreConserved(reqs: seq<Request>)
    ensures Conserved(AfterAll(reqs))
  {
    if reqs != [] {
      var p, r := AfterAll(reqs[..|reqs| - 1]), reqs[|reqs| - 1];
      SessionsAreConserved(reqs[..|reqs| - 1]);
      if !(r.want.ip in p.cache && p.cache[r.want.ip].config == r.want && r.answers) {
        var q := if r.want.ip in p.cache then Drop(p, r.want.ip) else p;
        if r.want.ip in p.cache {
          DropConserves(p, r.want.ip);
        }
        if r.connects {
          ConnectConserves(q, r.want);
        }
      }
    }
  }
}
