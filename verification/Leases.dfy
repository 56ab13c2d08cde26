/**
  Lease files: how processDhcpLease reads one, which events it sends for it, and what a consumer
  that applies the events ends up with.
 */
module Leases {
  import opened Text

  /** The settings of the Subnet object that each record carries along. */
  datatype Settings = Settings(
    subnet: string,
    subnetName: string,
    defaultClusterName: Option<string>,
    syncEnabled: bool,
    enableBindDhcpIP: bool)

  /** DhcpClientInfo as filled from a lease. */
  datatype Lease = Lease(
    mac: string,
    ip: string,
    hostname: string,
    active: bool,
    expire: int,
    subnet: string,
    subnetName: string,
    clusterName: string,
    enableBind: bool)

  // ---- reading a file ----

  /** strings.Fields: the maximal runs without white space. */
  function Fields(s: string): seq<string>
  {
    FieldsFrom(s, "")
  }

  function FieldsFrom(s: string, word: string): seq<string>
  {
    if s == "" then (if word == "" then [] else [word])
    else if IsSpace(s[0]) then (if word == "" then [] else [word]) + FieldsFrom(s[1..], "")
    else FieldsFrom(s[1..], word + [s[0]])
  }

  predicate AllDigits(s: string)
  {
    s != "" && forall i :: 0 <= i < |s| ==> '0' <= s[i] <= '9'
  }

  function Digits(s: string): nat
    requires forall i :: 0 <= i < |s| ==> '0' <= s[i] <= '9'
  {
    if s == "" then 0 else Digits(s[..|s| - 1]) * 10 + (s[|s| - 1] as int - '0' as int)
  }

  /** strconv.ParseInt(s, 10, 64). */
  function ParseInt64(s: string): Option<int>
  {
    if s == "" then None
    else
      var body := if s[0] == '-' || s[0] == '+' then s[1..] else s;
      if !AllDigits(body) then None
      else
        var n: int := (if s[0] == '-' then -1 else 1) * Digits(body);
        if -0x8000_0000_0000_0000 <= n < 0x8000_0000_0000_0000 then Some(n) else None
  }

  /** One line: fewer than five fields or a bad time stamp is no record. */
  function ParseLine(line: string, cfg: Settings): Option<Lease>
  {
    if line == "" then None
    else
      var f := Fields(line);
      if |f| < 5 then None
      else match ParseInt64(f[0])
           case None => None
           case Some(t) => Some(Lease(f[1], f[2], f[3], true, t, cfg.subnet, cfg.subnetName,
                                      if cfg.defaultClusterName.Some? then cfg.defaultClusterName.value else "",
                                      cfg.syncEnabled && cfg.enableBindDhcpIP))
  }

  /** The record of a line, if it holds one. */
  function RecordOf(line: string, cfg: Settings): seq<Lease>
  {
    match ParseLine(line, cfg)
    case Some(r) => [r]
    case None => []
  }

  function ParseLines(lines: seq<string>, cfg: Settings): seq<Lease>
  {
    if lines == [] then []
    else ParseLines(lines[..|lines| - 1], cfg) + RecordOf(lines[|lines| - 1], cfg)
  }

  function Records(content: string, cfg: Settings): seq<Lease>
  {
    ParseLines(Split(content, '\n'), cfg)
  }

  // ---- what dnsmasq writes reads back ----

  /** A field of a line: not empty, and without white space. */
  predicate Word(w: string)
  {
    w != "" && forall i :: 0 <= i < |w| ==> !IsSpace(w[i])
  }

  lemma {:induction false} FieldsOfWord(w: string, rest: string, word: string)
    requires word + w != "" && (forall i :: 0 <= i < |w| ==> !IsSpace(w[i])) && (rest == "" || IsSpace(rest[0]))
    ensures FieldsFrom(w + rest, word) == [word + w] + if rest == "" then [] else FieldsFrom(rest[1..], "")
  {
    if w == "" {
      assert w + rest == rest && word + w == word;
    } else {
      assert (w + rest)[1..] == w[1..] + rest && (word + [w[0]]) + w[1..] == word + w;
      FieldsOfWord(w[1..], rest, word + [w[0]]);
    }
  }

  lemma FirstField(w: string, rest: string)
    requires Word(w)
    ensures Fields(w + ([' '] + rest)) == [w] + Fields(rest)
  {
    FieldsOfWord(w, [' '] + rest, "");
    assert "" + w == w && ([' '] + rest)[1..] == rest;
  }

  lemma OnlyField(w: string)
    requires Word(w)
    ensures Fields(w) == [w]
  {
    FieldsOfWord(w, "", "");
    assert "" + w == w && w + "" == w;
  }

  /** A number in decimal, without leading zeros. */
  function SpelledNat(n: nat): string
  {
    var last := ('0' as int + n % 10) as char;
    if n < 10 then [last] else SpelledNat(n / 10) + [last]
  }

  function Spelled(n: int): string
  {
    if n < 0 then ['-'] + SpelledNat(-n) else SpelledNat(n)
  }

  lemma {:induction false} SpelledDigits(n: nat)
    ensures AllDigits(SpelledNat(n)) && Digits(SpelledNat(n)) == n
  {
    var s, last := SpelledNat(n), ('0' as int + n % 10) as char;
    if n < 10 {
      assert s[..0] == "";
    } else {
      SpelledDigits(n / 10);
      assert s == SpelledNat(n / 10) + [last] && s[..|s| - 1] == SpelledNat(n / 10);
    }
  }

  /** The decimal spelling of a 64-bit number is a word that reads as the number. */
  lemma SpelledReads(n: int)
    ensures Word(Spelled(n))
    ensures -0x8000_0000_0000_0000 <= n < 0x8000_0000_0000_0000 ==> ParseInt64(Spelled(n)) == Some(n)
    ensures !(-0x8000_0000_0000_0000 <= n < 0x8000_0000_0000_0000) ==> ParseInt64(Spelled(n)).None?
  {
    if n < 0 {
      SpelledDigits(-n);
      NegativeReads(SpelledNat(-n));
    } else {
      SpelledDigits(n);
      DigitsRead(SpelledNat(n));
    }
  }

  lemma DigitsRead(s: string)
    requires AllDigits(s)
    ensures Word(s)
    ensures ParseInt64(s) == if Digits(s) < 0x8000_0000_0000_0000 then Some(Digits(s)) else None
  {
  }

  lemma NegativeReads(s: string)
    requires AllDigits(s)
    ensures Word(['-'] + s)
    ensures var n: int := Digits(s); ParseInt64(['-'] + s) == if n <= 0x8000_0000_0000_0000 then Some(-n) else None
  {
    assert (['-'] + s)[1..] == s;
  }

  /** A line of four words is no record. */
  lemma ShortLineIsNoRecord(a: string, b: string, c: string, d: string, cfg: Settings)
    requires Word(a) && Word(b) && Word(c) && Word(d)
    ensures ParseLine(a + ([' '] + (b + ([' '] + (c + ([' '] + d))))), cfg).None?
  {
    OnlyField(d);
    FirstField(c, d);
    FirstField(b, c + ([' '] + d));
    FirstField(a, b + ([' '] + (c + ([' '] + d))));
    assert [a] + ([b] + ([c] + [d])) == [a, b, c, d];
  }

  /** The line for a lease: expiry, MAC, IP, host name and a client ID. */
  function LineOf(r: Lease): string
  {
    Spelled(r.expire) + ([' '] + (r.mac + ([' '] + (r.ip + ([' '] + (r.hostname + ([' '] + "*")))))))
  }

  /** The record that a line with these fields is read as. */
  predicate Writable(r: Lease, cfg: Settings)
  {
    && Word(r.mac) && Word(r.ip) && Word(r.hostname)
    && -0x8000_0000_0000_0000 <= r.expire < 0x8000_0000_0000_0000
    && r == Lease(r.mac, r.ip, r.hostname, true, r.expire, cfg.subnet, cfg.subnetName,
                  if cfg.defaultClusterName.Some? then cfg.defaultClusterName.value else "",
                  cfg.syncEnabled && cfg.enableBindDhcpIP)
  }

  lemma LineReads(r: Lease, cfg: Settings)
    requires Writable(r, cfg)
    ensures ParseLine(LineOf(r), cfg) == Some(r)
  {
    SpelledReads(r.expire);
    FiveFields(Spelled(r.expire), r.mac, r.ip, r.hostname, "*");
  }

  lemma FiveFields(a: string, b: string, c: string, d: string, e: string)
    requires Word(a) && Word(b) && Word(c) && Word(d) && Word(e)
    ensures Fields(a + ([' '] + (b + ([' '] + (c + ([' '] + (d + ([' '] + e)))))))) == [a, b, c, d, e]
  {
    OnlyField(e);
    FirstField(d, e);
    FirstField(c, d + ([' '] + e));
    FirstField(b, c + ([' '] + (d + ([' '] + e))));
    FirstField(a, b + ([' '] + (c + ([' '] + (d + ([' '] + e))))));
    assert [a] + ([b] + ([c] + ([d] + [e]))) == [a, b, c, d, e];
  }

  lemma LineHasNoBreak(r: Lease, cfg: Settings)
    requires Writable(r, cfg)
    ensures '\n' !in LineOf(r)
  {
    SpelledReads(r.expire);
    assert '\n' !in Spelled(r.expire) && '\n' !in r.mac && '\n' !in r.ip && '\n' !in r.hostname;
  }

  function LinesOf(recs: seq<Lease>): (lines: seq<string>)
    ensures |lines| == |recs|
  {
    if recs == [] then []
    else var n := |recs| - 1; LinesOf(recs[..n]) + [LineOf(recs[n])]
  }

  /** The lease file: every line ends with a line break. */
  function FileOf(recs: seq<Lease>): string
  {
    Join(LinesOf(recs) + [""], '\n')
  }

  /** Each record is what its line is read as. */
  predicate AllWritable(recs: seq<Lease>, cfg: Settings)
  {
    forall i :: 0 <= i < |recs| ==> WritableAt(recs, cfg, i)
  }

  predicate WritableAt(recs: seq<Lease>, cfg: Settings, i: nat)
    requires i < |recs|
  {
    Writable(recs[i], cfg)
  }

  lemma ParseLinesSnoc(lines: seq<string>, line: string, cfg: Settings)
    ensures ParseLines(lines + [line], cfg) == ParseLines(lines, cfg) + RecordOf(line, cfg)
  {
    assert (lines + [line])[..|lines|] == lines;
  }

  lemma WritableFront(recs: seq<Lease>, cfg: Settings)
    requires AllWritable(recs, cfg) && recs != []
    ensures AllWritable(recs[..|recs| - 1], cfg)
  {
    var n := |recs| - 1;
    forall i | 0 <= i < n
      ensures WritableAt(recs[..n], cfg, i)
    {
      assert WritableAt(recs, cfg, i);
    }
  }

  lemma LineRecord(r: Lease, cfg: Settings)
    requires Writable(r, cfg)
    ensures RecordOf(LineOf(r), cfg) == [r]
  {
    LineReads(r, cfg);
  }

  lemma OneMoreLine(recs: seq<Lease>, cfg: Settings, front: seq<string>)
    requires AllWritable(recs, cfg) && recs != [] && ParseLines(front, cfg) == recs[..|recs| - 1]
    ensures ParseLines(front + [LineOf(recs[|recs| - 1])], cfg) == recs
  {
    var n := |recs| - 1;
    assert WritableAt(recs, cfg, n);
    LineRecord(recs[n], cfg);
    ParseLinesSnoc(front, LineOf(recs[n]), cfg);
    assert recs[..n] + [recs[n]] == recs;
  }

  /** The lines without the last one, and the last one. */
  lemma LinesSplit(recs: seq<Lease>)
    requires recs != []
    ensures var n := |recs| - 1; LinesOf(recs) == LinesOf(recs[..n]) + [LineOf(recs[n])]
  {
  }

  lemma {:induction false} LinesRead(recs: seq<Lease>, cfg: Settings, lines: seq<string>)
    requires AllWritable(recs, cfg) && lines == LinesOf(recs)
    ensures ParseLines(lines, cfg) == recs
    decreases |recs|
  {
    if recs == [] {
      assert lines == [];
    } else {
      var n := |recs| - 1;
      var front := LinesOf(recs[..n]);
      WritableFront(recs, cfg);
      LinesRead(recs[..n], cfg, front);
      OneMoreLine(recs, cfg, front);
      LinesSplit(recs);
    }
  }

  lemma {:induction false} LinesHaveNoBreak(recs: seq<Lease>, cfg: Settings)
    requires AllWritable(recs, cfg)
    ensures forall i :: 0 <= i < |recs| ==> '\n' !in LinesOf(recs)[i]
  {
    if recs != [] {
      var n := |recs| - 1;
      WritableFront(recs, cfg);
      LinesHaveNoBreak(recs[..n], cfg);
      assert WritableAt(recs, cfg, n);
      LineHasNoBreak(recs[n], cfg);
    }
  }

  /** Lease-file round trip: any list of leases, written line by line, reads back as that list. */
  lemma FileReads(recs: seq<Lease>, cfg: Settings)
    requires AllWritable(recs, cfg)
    ensures Records(FileOf(recs), cfg) == recs
  {
    var lines := LinesOf(recs);
    LinesHaveNoBreak(recs, cfg);
    SplitOfJoin(lines + [""], '\n');
    LinesRead(recs, cfg, lines);
    ParseLinesSnoc(lines, "", cfg);
    assert recs + [] == recs;
  }

  // ---- the new table and the events of one pass ----

  type Table = map<string, Lease>

  /** The table of a file: for each IP its last record. */
  function TableOf(recs: seq<Lease>): Table
  {
    if recs == [] then map[]
    else var r := recs[|recs| - 1]; TableOf(recs[..|recs| - 1])[r.ip := r]
  }

  /** The record is new, or differs from the previous table in MAC, host name or expiry. */
  predicate Changed(prev: Table, r: Lease)
  {
    || r.ip !in prev
    || prev[r.ip].mac != r.mac
    || prev[r.ip].hostname != r.hostname
    || prev[r.ip].expire != r.expire
  }

  /** The adding events of a pass, in file order. */
  function Adds(prev: Table, recs: seq<Lease>): seq<Lease>
  {
    if recs == [] then []
    else
      var r := recs[|recs| - 1];
      Adds(prev, recs[..|recs| - 1]) + (if Changed(prev, r) then [r] else [])
  }

  /** Some order of the entries whose IP the new table no longer has, each marked inactive. */
  ghost predicate IsDeletes(prev: Table, now: Table, dels: seq<Lease>)
  {
    && (forall i :: 0 <= i < |dels| ==>
          dels[i].ip in prev && dels[i].ip !in now && dels[i] == prev[dels[i].ip].(active := false))
    && (forall i, j :: 0 <= i < j < |dels| ==> dels[i].ip != dels[j].ip)
    && (forall ip :: ip in prev && ip !in now ==> exists i :: 0 <= i < |dels| && dels[i].ip == ip)
  }

  predicate KeyedByIp(t: Table)
  {
    forall ip :: ip in t ==> t[ip].ip == ip
  }

  lemma {:induction false} TableOfIsKeyed(recs: seq<Lease>)
    ensures KeyedByIp(TableOf(recs))
  {
    if recs != [] {
      TableOfIsKeyed(recs[..|recs| - 1]);
    }
  }

  // ---- a consumer ----

  datatype Event = Add(lease: Lease) | Del(lease: Lease)

  /** What a consumer keeps of a lease. */
  datatype View = View(mac: string, hostname: string, expire: int)

  function ViewOf(l: Lease): View
  {
    View(l.mac, l.hostname, l.expire)
  }

  function Views(t: Table): map<string, View>
  {
    map ip | ip in t :: ViewOf(t[ip])
  }

  function Apply(m: map<string, View>, ev: Event): map<string, View>
  {
    match ev
    case Add(l) => m[l.ip := ViewOf(l)]
    case Del(l) => m - {l.ip}
  }

  function Consume(m: map<string, View>, evs: seq<Event>): map<string, View>
  {
    if evs == [] then m else Apply(Consume(m, evs[..|evs| - 1]), evs[|evs| - 1])
  }

  function AddsIn(evs: seq<Event>): seq<Lease>
  {
    if evs == [] then []
    else AddsIn(evs[..|evs| - 1]) + (if evs[|evs| - 1].Add? then [evs[|evs| - 1].lease] else [])
  }

  function DelsIn(evs: seq<Event>): seq<Lease>
  {
    if evs == [] then []
    else DelsIn(evs[..|evs| - 1]) + (if evs[|evs| - 1].Del? then [evs[|evs| - 1].lease] else [])
  }

  /** The two channels read in some interleaving. */
  predicate Interleaves(evs: seq<Event>, adds: seq<Lease>, dels: seq<Lease>)
  {
    AddsIn(evs) == adds && DelsIn(evs) == dels
  }

  function LastFor(ls: seq<Lease>, ip: string): Option<Lease>
  {
    if ls == [] then None
    else if ls[|ls| - 1].ip == ip then Some(ls[|ls| - 1])
    else LastFor(ls[..|ls| - 1], ip)
  }

  function At<V>(m: map<string, V>, ip: string): Option<V>
  {
    if ip in m then Some(m[ip]) else None
  }

  lemma LastForSnoc(ls: seq<Lease>, l: Lease, ip: string)
    ensures LastFor(ls + [l], ip) == if l.ip == ip then Some(l) else LastFor(ls, ip)
  {
    assert (ls + [l])[..|ls|] == ls;
  }

  lemma LastInSnoc(evs: seq<Event>, ip: string)
    requires evs != []
    ensures var front, ev := evs[..|evs| - 1], evs[|evs| - 1];
            && LastFor(AddsIn(evs), ip) == (if ev.Add? && ev.lease.ip == ip then Some(ev.lease) else LastFor(AddsIn(front), ip))
            && LastFor(DelsIn(evs), ip) == (if ev.Del? && ev.lease.ip == ip then Some(ev.lease) else LastFor(DelsIn(front), ip))
  {
    var front, ev := evs[..|evs| - 1], evs[|evs| - 1];
    LastForSnoc(AddsIn(front), ev.lease, ip);
    LastForSnoc(DelsIn(front), ev.lease, ip);
    assert AddsIn(front) + [] == AddsIn(front) && DelsIn(front) + [] == DelsIn(front);
  }

  /** What the last event does at an IP. */
  lemma ConsumeSnoc(m: map<string, View>, evs: seq<Event>, ip: string)
    requires evs != []
    ensures var front, ev := evs[..|evs| - 1], evs[|evs| - 1];
            At(Consume(m, evs), ip) ==
            if ev.lease.ip != ip then At(Consume(m, front), ip) else if ev.Add? then Some(ViewOf(ev.lease)) else None
  {
  }

  function Seen(l: Option<Lease>, otherwise: Option<View>): Option<View>
  {
    if l.Some? then Some(ViewOf(l.value)) else otherwise
  }

  /** With no deletes for an IP, the consumer ends with the last add for it. */
  lemma {:induction false} ConsumedAdds(m: map<string, View>, evs: seq<Event>, ip: string)
    requires LastFor(DelsIn(evs), ip).None?
    ensures At(Consume(m, evs), ip) == Seen(LastFor(AddsIn(evs), ip), At(m, ip))
  {
    if evs != [] {
      var front := evs[..|evs| - 1];
      LastInSnoc(evs, ip);
      ConsumeSnoc(m, evs, ip);
      ConsumedAdds(m, front, ip);
    }
  }

  /** With no adds for an IP, a delete for it is final. */
  lemma {:induction false} ConsumedDeletes(m: map<string, View>, evs: seq<Event>, ip: string)
    requires LastFor(AddsIn(evs), ip).None?
    ensures At(Consume(m, evs), ip) == if LastFor(DelsIn(evs), ip).Some? then None else At(m, ip)
  {
    if evs != [] {
      var front := evs[..|evs| - 1];
      LastInSnoc(evs, ip);
      ConsumeSnoc(m, evs, ip);
      ConsumedDeletes(m, front, ip);
    }
  }

  // ---- one pass, per IP ----

  lemma {:induction false} TableHasLast(recs: seq<Lease>, ip: string)
    ensures At(TableOf(recs), ip) == LastFor(recs, ip)
  {
    if recs != [] {
      TableHasLast(recs[..|recs| - 1], ip);
    }
  }

  /** The last record of the file for the IP that differs from the previous table. */
  function LastChanged(prev: Table, recs: seq<Lease>, ip: string): Option<Lease>
  {
    LastFor(Adds(prev, recs), ip)
  }

  /** A changed last record is the last changed record; no record at all is no changed record. */
  lemma {:induction false} LastChangedIs(prev: Table, recs: seq<Lease>, ip: string)
    ensures LastFor(recs, ip).None? ==> LastChanged(prev, recs, ip).None?
    ensures LastFor(recs, ip).Some? && Changed(prev, LastFor(recs, ip).value) ==>
              LastChanged(prev, recs, ip) == LastFor(recs, ip)
    ensures LastChanged(prev, recs, ip).Some? ==>
              Changed(prev, LastChanged(prev, recs, ip).value) && LastChanged(prev, recs, ip).value.ip == ip
  {
    if recs != [] {
      var front, r := recs[..|recs| - 1], recs[|recs| - 1];
      LastChangedIs(prev, front, ip);
      if Changed(prev, r) {
        LastForSnoc(Adds(prev, front), r, ip);
      } else {
        assert Adds(prev, recs) == Adds(prev, front);
      }
    }
  }

  /** The file names the IP several times: an earlier record differs from the previous table, the last one does not. */
  predicate Relapse(prev: Table, recs: seq<Lease>, ip: string)
  {
    && LastFor(recs, ip).Some?
    && !Changed(prev, LastFor(recs, ip).value)
    && LastChanged(prev, recs, ip).Some?
  }

  lemma RelapseOf(r: Lease, mac: string)
    requires mac != r.mac
    ensures Relapse(map[r.ip := r], [r.(mac := mac), r], r.ip)
  {
    var prev, first, recs := map[r.ip := r], r.(mac := mac), [r.(mac := mac), r];
    assert recs[..1] == [first] && [first][..0] == [];
    assert Adds(prev, [first]) == [first];
    assert Adds(prev, recs) == [first];
  }

  /** Two lease files, one after the other, with a relapse: the second has a line with another MAC before the unchanged line of the address. */
  lemma RelapseOccurs(r: Lease, mac: string, cfg: Settings) returns (file1: string, file2: string)
    requires Writable(r, cfg) && Word(mac) && mac != r.mac
    ensures Records(file1, cfg) == [r] && Records(file2, cfg) == [r.(mac := mac), r]
    ensures Relapse(TableOf(Records(file1, cfg)), Records(file2, cfg), r.ip)
  {
    file1, file2 := FileOf([r]), FileOf([r.(mac := mac), r]);
    FileReads([r], cfg);
    FileReads([r.(mac := mac), r], cfg);
    assert [r][..0] == [];
    RelapseOf(r, mac);
  }

  lemma {:induction false} LastForFound(ls: seq<Lease>, ip: string)
    ensures LastFor(ls, ip).Some? <==> exists i :: 0 <= i < |ls| && ls[i].ip == ip
  {
    if ls != [] {
      LastForFound(ls[..|ls| - 1], ip);
    }
  }

  lemma {:induction false} AddsAreRecords(prev: Table, recs: seq<Lease>, l: Lease)
    requires l in Adds(prev, recs)
    ensures l in recs && Changed(prev, l)
  {
    var front := recs[..|recs| - 1];
    if l in Adds(prev, front) {
      AddsAreRecords(prev, front, l);
    }
  }

  /** Within one pass no IP is both added and deleted. */
  lemma AddsAndDeletesDisjoint(prev: Table, recs: seq<Lease>, dels: seq<Lease>, ip: string)
    requires IsDeletes(prev, TableOf(recs), dels)
    ensures LastFor(Adds(prev, recs), ip).None? || LastFor(dels, ip).None?
  {
    TableHasLast(recs, ip);
    LastChangedIs(prev, recs, ip);
    LastForFound(dels, ip);
  }

  lemma PassAt(prev: Table, recs: seq<Lease>, dels: seq<Lease>, evs: seq<Event>, ip: string)
    requires KeyedByIp(prev) && IsDeletes(prev, TableOf(recs), dels)
    requires Interleaves(evs, Adds(prev, recs), dels)
    ensures At(Consume(Views(prev), evs), ip) == At(Views(TableOf(recs)), ip) <==> !Relapse(prev, recs, ip)
  {
    TableHasLast(recs, ip);
    LastChangedIs(prev, recs, ip);
    LastForFound(dels, ip);
    AddsAndDeletesDisjoint(prev, recs, dels, ip);
    if LastFor(recs, ip).Some? {
      LastForIn(recs, ip);
      ConsumedAdds(Views(prev), evs, ip);
    } else {
      ConsumedDeletes(Views(prev), evs, ip);
    }
  }

  /** A consumer that held the previous table and applies a pass's events, in any interleaving of the two channels, holds the new table exactly when the file has no relapse. */
  lemma PassIsFaithful(prev: Table, recs: seq<Lease>, dels: seq<Lease>, evs: seq<Event>)
    requires KeyedByIp(prev) && IsDeletes(prev, TableOf(recs), dels)
    requires Interleaves(evs, Adds(prev, recs), dels)
    ensures Consume(Views(prev), evs) == Views(TableOf(recs)) <==> forall ip :: !Relapse(prev, recs, ip)
  {
    var got, want := Consume(Views(prev), evs), Views(TableOf(recs));
    forall ip
      ensures At(got, ip) == At(want, ip) <==> !Relapse(prev, recs, ip)
    {
      PassAt(prev, recs, dels, evs, ip);
    }
    if forall ip :: !Relapse(prev, recs, ip) {
      assert forall ip :: ip in got <==> ip in want by {
        forall ip
          ensures ip in got <==> ip in want
        {
          assert At(got, ip) == At(want, ip);
        }
      }
      forall ip | ip in got
        ensures got[ip] == want[ip]
      {
        assert At(got, ip) == At(want, ip);
      }
      assert got == want;
    }
  }

  predicate NoRepeats(recs: seq<Lease>)
  {
    forall i, j :: 0 <= i < j < |recs| ==> recs[i].ip != recs[j].ip
  }

  /** A file that names no IP twice has no relapse. */
  lemma NoRepeatsNoRelapse(prev: Table, recs: seq<Lease>, ip: string)
    requires NoRepeats(recs)
    ensures !Relapse(prev, recs, ip)
  {
    LastChangedIs(prev, recs, ip);
    if Relapse(prev, recs, ip) {
      var l, c := LastFor(recs, ip).value, LastChanged(prev, recs, ip).value;
      LastForIn(recs, ip);
      LastForIn(Adds(prev, recs), ip);
      AddsAreRecords(prev, recs, c);
      assert false;
    }
  }

  lemma {:induction false} LastForIn(ls: seq<Lease>, ip: string)
    requires LastFor(ls, ip).Some?
    ensures LastFor(ls, ip).value in ls && LastFor(ls, ip).value.ip == ip
  {
    if ls[|ls| - 1].ip != ip {
      LastForIn(ls[..|ls| - 1], ip);
    }
  }

  // ---- runs ----

  /** A pass: the records read, the deletes sent, and the order in which the consumer read both channels. */
  datatype Pass = Pass(recs: seq<Lease>, dels: seq<Lease>, evs: seq<Event>)

  /** The table before pass k. */
  function TableBefore(passes: seq<Pass>, k: nat): Table
    requires k <= |passes|
  {
    if k == 0 then map[] else TableOf(passes[k - 1].recs)
  }

  /** The deletes and the events read are those of a pass over the previous table. */
  ghost predicate IsPass(prev: Table, p: Pass)
  {
    && IsDeletes(prev, TableOf(p.recs), p.dels)
    && Interleaves(p.evs, Adds(prev, p.recs), p.dels)
  }

  ghost predicate NoRelapse(prev: Table, p: Pass)
  {
    forall ip :: !Relapse(prev, p.recs, ip)
  }

  ghost predicate GoodPass(passes: seq<Pass>, k: nat)
    requires k < |passes|
  {
    IsPass(TableBefore(passes, k), passes[k])
  }

  ghost predicate CalmPass(passes: seq<Pass>, k: nat)
    requires k < |passes|
  {
    NoRelapse(TableBefore(passes, k), passes[k])
  }

  ghost predicate IsLeaseRun(passes: seq<Pass>)
  {
    forall k :: 0 <= k < |passes| ==> GoodPass(passes, k)
  }

  function Replica(passes: seq<Pass>, k: nat): map<string, View>
    requires k <= |passes|
  {
    if k == 0 then map[] else Consume(Replica(passes, k - 1), passes[k - 1].evs)
  }

  lemma PassKeepsReplica(prev: Table, p: Pass, replica: map<string, View>)
    requires KeyedByIp(prev) && IsPass(prev, p) && NoRelapse(prev, p) && replica == Views(prev)
    ensures KeyedByIp(TableOf(p.recs))
    ensures Consume(replica, p.evs) == Views(TableOf(p.recs))
  {
    TableOfIsKeyed(p.recs);
    PassIsFaithful(prev, p.recs, p.dels, p.evs);
  }

  /** The consumer holds the (MAC, host name, expiry) of each IP in the table. */
  predicate Faithful(t: Table, replica: map<string, View>)
  {
    KeyedByIp(t) && replica == Views(t)
  }

  lemma FaithfulStep(passes: seq<Pass>, k: nat)
    requires 0 < k <= |passes| && Faithful(TableBefore(passes, k - 1), Replica(passes, k - 1))
    requires GoodPass(passes, k - 1) && CalmPass(passes, k - 1)
    ensures Faithful(TableBefore(passes, k), Replica(passes, k))
  {
    PassKeepsReplica(TableBefore(passes, k - 1), passes[k - 1], Replica(passes, k - 1));
  }

  /** The events are a faithful replica for a consumer that reads all of a pass before the next one: over any run of passes without relapse, one that starts empty holds, after every pass, exactly the (MAC, host name, expiry) of each IP in the table. */
  lemma {:induction false} ReplicaIsFaithful(passes: seq<Pass>, k: nat)
    requires IsLeaseRun(passes) && k <= |passes|
    requires forall j :: 0 <= j < |passes| ==> CalmPass(passes, j)
    ensures Faithful(TableBefore(passes, k), Replica(passes, k))
  {
    if k > 0 {
      ReplicaIsFaithful(passes, k - 1);
      FaithfulStep(passes, k);
    } else {
      assert Views(map[]) == map[];
    }
  }

  // ---- reading across passes ----

  /** The adding events of passes j to k. */
  function AllAdds(passes: seq<Pass>, j: nat, k: nat): seq<Lease>
    requires j <= k <= |passes|
  {
    if k == j then [] else AllAdds(passes, j, k - 1) + Adds(TableBefore(passes, k - 1), passes[k - 1].recs)
  }

  /** The deleting events of passes j to k. */
  function AllDels(passes: seq<Pass>, j: nat, k: nat): seq<Lease>
    requires j <= k <= |passes|
  {
    if k == j then [] else AllDels(passes, j, k - 1) + passes[k - 1].dels
  }

  /** Pass k sends the deletes of its file; in which order they are read is left open. */
  ghost predicate Sent(passes: seq<Pass>, k: nat)
    requires k < |passes|
  {
    IsDeletes(TableBefore(passes, k), TableOf(passes[k].recs), passes[k].dels)
  }

  /** The passes from j to k send their events, and no file has a relapse. */
  ghost predicate CalmPasses(passes: seq<Pass>, j: nat, k: nat)
    requires j <= k <= |passes|
  {
    forall i :: j <= i < k ==> Sent(passes, i) && CalmPass(passes, i)
  }

  /** A further pass leaves the earlier tables and events as they were. */
  lemma {:induction false} PassesKeep(passes: seq<Pass>, p: Pass, k: nat)
    requires k <= |passes|
    ensures TableBefore(passes + [p], k) == TableBefore(passes, k)
    ensures AllAdds(passes + [p], 0, k) == AllAdds(passes, 0, k) && AllDels(passes + [p], 0, k) == AllDels(passes, 0, k)
  {
    if k > 0 {
      PassesKeep(passes, p, k - 1);
    }
  }

  function AddEvents(ls: seq<Lease>): seq<Event>
  {
    if ls == [] then [] else AddEvents(ls[..|ls| - 1]) + [Add(ls[|ls| - 1])]
  }

  function DelEvents(ls: seq<Lease>): seq<Event>
  {
    if ls == [] then [] else DelEvents(ls[..|ls| - 1]) + [Del(ls[|ls| - 1])]
  }

  lemma EventsSnoc(evs: seq<Event>, ev: Event)
    ensures AddsIn(evs + [ev]) == AddsIn(evs) + if ev.Add? then [ev.lease] else []
    ensures DelsIn(evs + [ev]) == DelsIn(evs) + if ev.Del? then [ev.lease] else []
  {
    assert (evs + [ev])[..|evs|] == evs;
  }

  lemma {:induction false} AddEventsAre(ls: seq<Lease>)
    ensures AddsIn(AddEvents(ls)) == ls && DelsIn(AddEvents(ls)) == []
  {
    if ls != [] {
      AddEventsAre(ls[..|ls| - 1]);
      EventsSnoc(AddEvents(ls[..|ls| - 1]), Add(ls[|ls| - 1]));
    }
  }

  lemma {:induction false} DelEventsAre(ls: seq<Lease>)
    ensures DelsIn(DelEvents(ls)) == ls && AddsIn(DelEvents(ls)) == []
  {
    if ls != [] {
      DelEventsAre(ls[..|ls| - 1]);
      EventsSnoc(DelEvents(ls[..|ls| - 1]), Del(ls[|ls| - 1]));
    }
  }

  lemma {:induction false} AddsInConcat(a: seq<Event>, b: seq<Event>)
    ensures AddsIn(a + b) == AddsIn(a) + AddsIn(b)
  {
    if b == [] {
      assert a + b == a;
    } else {
      AddsInConcat(a, b[..|b| - 1]);
      assert (a + b)[..|a + b| - 1] == a + b[..|b| - 1];
    }
  }

  lemma {:induction false} DelsInConcat(a: seq<Event>, b: seq<Event>)
    ensures DelsIn(a + b) == DelsIn(a) + DelsIn(b)
  {
    if b == [] {
      assert a + b == a;
    } else {
      DelsInConcat(a, b[..|b| - 1]);
      assert (a + b)[..|a + b| - 1] == a + b[..|b| - 1];
    }
  }

  lemma {:induction false} ConsumeConcat(m: map<string, View>, a: seq<Event>, b: seq<Event>)
    ensures Consume(m, a + b) == Consume(Consume(m, a), b)
  {
    if b == [] {
      assert a + b == a;
    } else {
      ConsumeConcat(m, a, b[..|b| - 1]);
      assert (a + b)[..|a + b| - 1] == a + b[..|b| - 1];
    }
  }

  lemma EventsConcat(m: map<string, View>, a: seq<Event>, b: seq<Event>)
    ensures AddsIn(a + b) == AddsIn(a) + AddsIn(b) && DelsIn(a + b) == DelsIn(a) + DelsIn(b)
    ensures Consume(m, a + b) == Consume(Consume(m, a), b)
  {
    AddsInConcat(a, b);
    DelsInConcat(a, b);
    ConsumeConcat(m, a, b);
  }

  lemma {:induction false} LastForConcat(a: seq<Lease>, b: seq<Lease>, ip: string)
    ensures LastFor(a + b, ip) == if LastFor(b, ip).Some? then LastFor(b, ip) else LastFor(a, ip)
  {
    if b == [] {
      assert a + b == a;
    } else {
      LastForConcat(a, b[..|b| - 1], ip);
      assert (a + b)[..|a + b| - 1] == a + b[..|b| - 1];
    }
  }

  /** All adds read before all deletes. */
  lemma AddsFirst(m: map<string, View>, adds: seq<Lease>, dels: seq<Lease>, ip: string) returns (evs: seq<Event>)
    ensures Interleaves(evs, adds, dels)
    ensures LastFor(dels, ip).Some? ==> At(Consume(m, evs), ip) == None
  {
    AddEventsAre(adds);
    DelEventsAre(dels);
    EventsConcat(m, AddEvents(adds), DelEvents(dels));
    evs := AddEvents(adds) + DelEvents(dels);
    ConsumedDeletes(Consume(m, AddEvents(adds)), DelEvents(dels), ip);
  }

  /** All deletes read before all adds. */
  lemma DelsFirst(m: map<string, View>, adds: seq<Lease>, dels: seq<Lease>, ip: string) returns (evs: seq<Event>)
    ensures Interleaves(evs, adds, dels)
    ensures LastFor(adds, ip).Some? ==> At(Consume(m, evs), ip) == Some(ViewOf(LastFor(adds, ip).value))
  {
    AddEventsAre(adds);
    DelEventsAre(dels);
    EventsConcat(m, DelEvents(dels), AddEvents(adds));
    evs := DelEvents(dels) + AddEvents(adds);
    ConsumedAdds(Consume(m, DelEvents(dels)), AddEvents(adds), ip);
  }

  /** What the events of one pass say about an IP when they are of one kind only. */
  function Told(adds: seq<Lease>, dels: seq<Lease>, ip: string, before: Option<View>): Option<View>
  {
    if LastFor(dels, ip).Some? then None else Seen(LastFor(adds, ip), before)
  }

  /** A calm pass changes the table at an IP as its events tell. */
  lemma PassTells(prev: Table, recs: seq<Lease>, dels: seq<Lease>, ip: string)
    requires KeyedByIp(prev) && IsDeletes(prev, TableOf(recs), dels) && !Relapse(prev, recs, ip)
    ensures At(Views(TableOf(recs)), ip) == Told(Adds(prev, recs), dels, ip, At(Views(prev), ip))
  {
    var adds := Adds(prev, recs);
    var evs := AddsFirst(Views(prev), adds, dels, ip);
    PassAt(prev, recs, dels, evs, ip);
    if LastFor(dels, ip).None? {
      ConsumedAdds(Views(prev), evs, ip);
    }
  }

  lemma TableBeforeIsKeyed(passes: seq<Pass>, k: nat)
    requires k <= |passes|
    ensures KeyedByIp(TableBefore(passes, k))
  {
    if k > 0 {
      TableOfIsKeyed(passes[k - 1].recs);
    }
  }

  /** The events of a stretch of calm passes are not of both kinds for the IP. */
  predicate OneKind(passes: seq<Pass>, j: nat, k: nat, ip: string)
    requires j <= k <= |passes|
  {
    LastFor(AllAdds(passes, j, k), ip).None? || LastFor(AllDels(passes, j, k), ip).None?
  }

  /** Over the stretch the table changes at the IP as the events tell. */
  predicate Tells(passes: seq<Pass>, j: nat, k: nat, ip: string)
    requires j <= k <= |passes|
  {
    ViewAt(passes, k, ip) == Told(AllAdds(passes, j, k), AllDels(passes, j, k), ip, ViewAt(passes, j, ip))
  }

  /** What the table before pass k holds at the IP. */
  function ViewAt(passes: seq<Pass>, k: nat, ip: string): Option<View>
    requires k <= |passes|
  {
    At(Views(TableBefore(passes, k)), ip)
  }

  /** The last pass of a stretch, told by itself. */
  lemma PassKTells(passes: seq<Pass>, k: nat, ip: string)
    requires k < |passes| && Sent(passes, k) && CalmPass(passes, k)
    ensures ViewAt(passes, k + 1, ip) ==
            Told(Adds(TableBefore(passes, k), passes[k].recs), passes[k].dels, ip, ViewAt(passes, k, ip))
  {
    TableBeforeIsKeyed(passes, k);
    PassTells(TableBefore(passes, k), passes[k].recs, passes[k].dels, ip);
  }

  lemma ToldConcat(adds1: seq<Lease>, adds2: seq<Lease>, dels1: seq<Lease>, dels2: seq<Lease>, ip: string, before: Option<View>)
    requires LastFor(adds1 + adds2, ip).None? || LastFor(dels1 + dels2, ip).None?
    ensures LastFor(adds1, ip).None? || LastFor(dels1, ip).None?
    ensures Told(adds1 + adds2, dels1 + dels2, ip, before) == Told(adds2, dels2, ip, Told(adds1, dels1, ip, before))
  {
    LastForConcat(adds1, adds2, ip);
    LastForConcat(dels1, dels2, ip);
  }

  lemma StretchSnoc(passes: seq<Pass>, j: nat, k: nat, ip: string, before: Option<View>)
    requires j < k <= |passes| && OneKind(passes, j, k, ip)
    ensures OneKind(passes, j, k - 1, ip)
    ensures Told(AllAdds(passes, j, k), AllDels(passes, j, k), ip, before) ==
            Told(Adds(TableBefore(passes, k - 1), passes[k - 1].recs), passes[k - 1].dels, ip,
                 Told(AllAdds(passes, j, k - 1), AllDels(passes, j, k - 1), ip, before))
  {
    ToldConcat(AllAdds(passes, j, k - 1), Adds(TableBefore(passes, k - 1), passes[k - 1].recs),
               AllDels(passes, j, k - 1), passes[k - 1].dels, ip, before);
  }

  lemma TellsStep(passes: seq<Pass>, j: nat, k: nat, ip: string)
    requires j < k <= |passes| && Sent(passes, k - 1) && CalmPass(passes, k - 1)
    requires OneKind(passes, j, k, ip) && Tells(passes, j, k - 1, ip)
    ensures Tells(passes, j, k, ip)
  {
    StretchSnoc(passes, j, k, ip, ViewAt(passes, j, ip));
    PassKTells(passes, k - 1, ip);
  }

  /** So it does over calm passes whose events for the IP are of one kind. */
  lemma {:induction false} StretchTells(passes: seq<Pass>, j: nat, k: nat, ip: string)
    requires j <= k <= |passes| && CalmPasses(passes, j, k) && OneKind(passes, j, k, ip)
    ensures Tells(passes, j, k, ip)
  {
    if k > j {
      StretchSnoc(passes, j, k, ip, None);
      StretchTells(passes, j, k - 1, ip);
      TellsStep(passes, j, k, ip);
    }
  }

  lemma OneKindAgrees(m: map<string, View>, adds: seq<Lease>, dels: seq<Lease>, evs: seq<Event>, ip: string)
    requires Interleaves(evs, adds, dels) && (LastFor(adds, ip).None? || LastFor(dels, ip).None?)
    ensures At(Consume(m, evs), ip) == Told(adds, dels, ip, At(m, ip))
  {
    if LastFor(dels, ip).None? {
      ConsumedAdds(m, evs, ip);
    } else {
      ConsumedDeletes(m, evs, ip);
    }
  }

  /** However a consumer that was up to date at pass j reads the two channels up to pass k, it agrees with the table at the IP. */
  ghost predicate AnyReadingAgrees(passes: seq<Pass>, j: nat, k: nat, ip: string)
    requires j <= k <= |passes|
  {
    forall evs :: Interleaves(evs, AllAdds(passes, j, k), AllDels(passes, j, k)) ==>
      At(Consume(Views(TableBefore(passes, j)), evs), ip) == At(Views(TableBefore(passes, k)), ip)
  }

  /** The consumer need not keep up with the passes: any reading of calm passes agrees with the last table at an IP if and only if their events for it are not of both kinds. */
  lemma LaggingReaderExactly(passes: seq<Pass>, j: nat, k: nat, ip: string)
    requires j <= k <= |passes| && CalmPasses(passes, j, k)
    ensures AnyReadingAgrees(passes, j, k, ip) <==> OneKind(passes, j, k, ip)
  {
    var m, adds, dels := Views(TableBefore(passes, j)), AllAdds(passes, j, k), AllDels(passes, j, k);
    if OneKind(passes, j, k, ip) {
      StretchTells(passes, j, k, ip);
      forall evs | Interleaves(evs, adds, dels)
        ensures At(Consume(m, evs), ip) == At(Views(TableBefore(passes, k)), ip)
      {
        OneKindAgrees(m, adds, dels, evs, ip);
      }
    } else {
      var evs1 := AddsFirst(m, adds, dels, ip);
      var evs2 := DelsFirst(m, adds, dels, ip);
      assert At(Consume(m, evs1), ip) != At(Consume(m, evs2), ip);
    }
  }

  lemma OneRecord(r: Lease)
    ensures TableOf([r]) == map[r.ip := r] && TableOf([]) == map[] && Adds(map[], [r]) == [r] && Adds(TableOf([r]), []) == []
  {
    assert [r][..0] == [];
  }

  /** An address is leased, released and leased again. */
  function RenewedLease(r: Lease): seq<Pass>
  {
    [Pass([r], [], []), Pass([], [r.(active := false)], []), Pass([r], [], [])]
  }

  lemma RenewedLeasePass(r: Lease, i: nat)
    requires i < 3
    ensures Sent(RenewedLease(r), i) && CalmPass(RenewedLease(r), i)
  {
    OneRecord(r);
    assert [r.(active := false)][0].ip == r.ip;
    forall ip
      ensures !Relapse(TableBefore(RenewedLease(r), i), RenewedLease(r)[i].recs, ip)
    {
      NoRepeatsNoRelapse(TableBefore(RenewedLease(r), i), RenewedLease(r)[i].recs, ip);
    }
  }

  lemma RenewedLeaseEvents(r: Lease)
    ensures AllDels(RenewedLease(r), 0, 3) == [r.(active := false)]
    ensures AllAdds(RenewedLease(r), 0, 3) == [r, r]
  {
    var passes := RenewedLease(r);
    OneRecord(r);
    assert AllDels(passes, 0, 0) == [] && AllAdds(passes, 0, 0) == [];
    assert AllDels(passes, 0, 1) == [] && AllAdds(passes, 0, 1) == [r];
    assert AllDels(passes, 0, 2) == [r.(active := false)] && AllAdds(passes, 0, 2) == [r];
  }

  /** Such a run is calm, but its events for the address are of both kinds, so some reading ends wrong; its three lease files are given. */
  lemma RenewedLeaseIsBothKinds(r: Lease, cfg: Settings) returns (files: seq<string>)
    requires Writable(r, cfg)
    ensures |files| == 3 && forall i :: 0 <= i < 3 ==> Records(files[i], cfg) == RenewedLease(r)[i].recs
    ensures CalmPasses(RenewedLease(r), 0, 3)
    ensures !OneKind(RenewedLease(r), 0, 3, r.ip) && !AnyReadingAgrees(RenewedLease(r), 0, 3, r.ip)
  {
    var passes := RenewedLease(r);
    forall i | 0 <= i < 3
      ensures Sent(passes, i) && CalmPass(passes, i)
    {
      RenewedLeasePass(r, i);
    }
    RenewedLeaseEvents(r);
    LaggingReaderExactly(passes, 0, 3, r.ip);
    files := RenewedLeaseFiles(r, cfg);
  }

  lemma RenewedLeaseFiles(r: Lease, cfg: Settings) returns (files: seq<string>)
    requires Writable(r, cfg)
    ensures |files| == 3 && forall i :: 0 <= i < 3 ==> Records(files[i], cfg) == RenewedLease(r)[i].recs
  {
    var leased, released := FileOf([r]), FileOf([]);
    FileReads([r], cfg);
    FileReads([], cfg);
    files := [leased, released, leased];
  }

  // ---- restarts of the server ----

  /** The server's table before pass k: empty when it has been restarted since the pass before. */
  function PrevTable(passes: seq<Pass>, restarts: set<nat>, k: nat): Table
    requires k <= |passes|
  {
    if k in restarts then map[] else TableBefore(passes, k)
  }

  ghost predicate GoodPassAfter(passes: seq<Pass>, restarts: set<nat>, k: nat)
    requires k < |passes|
  {
    IsPass(PrevTable(passes, restarts, k), passes[k]) && NoRelapse(PrevTable(passes, restarts, k), passes[k])
  }

  /** Passes without relapse, before some of which the server was restarted while the consumer kept what it held. */
  ghost predicate IsRunWithRestarts(passes: seq<Pass>, restarts: set<nat>)
  {
    forall k :: 0 <= k < |passes| ==> GoodPassAfter(passes, restarts, k)
  }

  /** The file of no pass from i up to k names the address. */
  predicate AbsentFrom(passes: seq<Pass>, i: nat, k: nat, ip: string)
    requires i <= k <= |passes|
  {
    forall j :: i <= j < k ==> ip !in TableOf(passes[j].recs)
  }

  /** The address was in the last file before some restart, and in none since. */
  predicate Vanished(passes: seq<Pass>, restarts: set<nat>, k: nat, ip: string)
    requires k <= |passes|
  {
    exists i :: 0 < i < k && i in restarts && ip in TableOf(passes[i - 1].recs) && AbsentFrom(passes, i, k, ip)
  }

  /** Whatever the consumer held, a pass changes it at an address as the pass's events tell. */
  lemma PassChanges(prev: Table, p: Pass, m: map<string, View>, ip: string)
    requires IsPass(prev, p)
    ensures At(Consume(m, p.evs), ip) == Told(Adds(prev, p.recs), p.dels, ip, At(m, ip))
  {
    AddsAndDeletesDisjoint(prev, p.recs, p.dels, ip);
    OneKindAgrees(m, Adds(prev, p.recs), p.dels, p.evs, ip);
  }

  /** A pass that agreed before agrees after. */
  lemma AgreementStays(prev: Table, p: Pass, m: map<string, View>, ip: string)
    requires KeyedByIp(prev) && IsPass(prev, p) && !Relapse(prev, p.recs, ip) && At(m, ip) == At(Views(prev), ip)
    ensures At(Consume(m, p.evs), ip) == At(Views(TableOf(p.recs)), ip)
  {
    PassChanges(prev, p, m, ip);
    PassTells(prev, p.recs, p.dels, ip);
  }

  /** An address that the server did not know is added when the file names it, and else left as the consumer has it. */
  lemma UnknownAddress(prev: Table, p: Pass, m: map<string, View>, ip: string)
    requires IsPass(prev, p) && ip !in prev
    ensures At(Consume(m, p.evs), ip) == if ip in TableOf(p.recs) then At(Views(TableOf(p.recs)), ip) else At(m, ip)
  {
    PassChanges(prev, p, m, ip);
    TableHasLast(p.recs, ip);
    LastChangedIs(prev, p.recs, ip);
    LastForFound(p.dels, ip);
    if LastFor(p.recs, ip).Some? {
      LastForIn(p.recs, ip);
    }
  }

  lemma AgreesAt(m: map<string, View>, t: Table, ip: string)
    ensures At(m, ip) == At(Views(t), ip) ==> (ip in m <==> ip in t)
  {
  }

  /** The first pass of a restarted server: the consumer ends with the table if and only if the file names every address that it held. */
  lemma FirstPassAfterRestart(p: Pass, m: map<string, View>)
    requires IsPass(map[], p)
    ensures Consume(m, p.evs) == Views(TableOf(p.recs)) <==> forall ip :: ip in m ==> ip in TableOf(p.recs)
  {
    var got, want := Consume(m, p.evs), Views(TableOf(p.recs));
    forall ip
      ensures At(got, ip) == if ip in TableOf(p.recs) then At(want, ip) else At(m, ip)
    {
      UnknownAddress(map[], p, m, ip);
    }
    if forall ip :: ip in m ==> ip in TableOf(p.recs) {
      SameEverywhere(got, want);
    } else {
      var ip :| ip in m && ip !in TableOf(p.recs);
      assert At(got, ip) == At(m, ip);
    }
  }

  lemma SameEverywhere(a: map<string, View>, b: map<string, View>)
    requires forall ip :: At(a, ip) == At(b, ip)
    ensures a == b
  {
    forall ip
      ensures (ip in a <==> ip in b) && (ip in a ==> a[ip] == b[ip])
    {
      assert At(a, ip) == At(b, ip);
    }
  }

  /** The consumer still has an address that the server has forgotten. */
  lemma VanishedStep(passes: seq<Pass>, restarts: set<nat>, k: nat, ip: string)
    requires k < |passes|
    ensures Vanished(passes, restarts, k + 1, ip) <==>
            && ip !in TableOf(passes[k].recs)
            && (Vanished(passes, restarts, k, ip) || (k in restarts && ip in TableBefore(passes, k)))
  {
    if Vanished(passes, restarts, k + 1, ip) {
      var i :| 0 < i < k + 1 && i in restarts && ip in TableOf(passes[i - 1].recs) && AbsentFrom(passes, i, k + 1, ip);
      assert AbsentFrom(passes, i, k, ip);
    }
    if ip !in TableOf(passes[k].recs) {
      if Vanished(passes, restarts, k, ip) {
        var i :| 0 < i < k && i in restarts && ip in TableOf(passes[i - 1].recs) && AbsentFrom(passes, i, k, ip);
        assert AbsentFrom(passes, i, k + 1, ip);
      } else if k in restarts && ip in TableBefore(passes, k) {
        assert AbsentFrom(passes, k, k + 1, ip);
      }
    }
  }

  lemma VanishedIsAbsent(passes: seq<Pass>, restarts: set<nat>, k: nat, ip: string)
    requires k <= |passes| && Vanished(passes, restarts, k, ip)
    ensures ip !in TableBefore(passes, k)
  {
    var i :| 0 < i < k && i in restarts && ip in TableOf(passes[i - 1].recs) && AbsentFrom(passes, i, k, ip);
    assert ip !in TableOf(passes[k - 1].recs);
  }

  /** One pass of a run with restarts, at one address. */
  lemma RestartStep(passes: seq<Pass>, restarts: set<nat>, k: nat, ip: string)
    requires k < |passes| && GoodPassAfter(passes, restarts, k)
    requires if Vanished(passes, restarts, k, ip) then ip in Replica(passes, k)
             else At(Replica(passes, k), ip) == At(Views(TableBefore(passes, k)), ip)
    ensures if Vanished(passes, restarts, k + 1, ip) then ip in Replica(passes, k + 1)
            else At(Replica(passes, k + 1), ip) == At(Views(TableBefore(passes, k + 1)), ip)
  {
    var prev := PrevTable(passes, restarts, k);
    VanishedStep(passes, restarts, k, ip);
    if Vanished(passes, restarts, k, ip) {
      VanishedIsAbsent(passes, restarts, k, ip);
      UnknownAddress(prev, passes[k], Replica(passes, k), ip);
    } else if k in restarts {
      UnknownAddress(prev, passes[k], Replica(passes, k), ip);
      AgreesAt(Replica(passes, k), TableBefore(passes, k), ip);
    } else {
      TableBeforeIsKeyed(passes, k);
      AgreementStays(prev, passes[k], Replica(passes, k), ip);
    }
  }

  lemma {:induction false} RestartsAt(passes: seq<Pass>, restarts: set<nat>, k: nat, ip: string)
    requires IsRunWithRestarts(passes, restarts) && k <= |passes|
    ensures if Vanished(passes, restarts, k, ip) then ip in Replica(passes, k)
            else At(Replica(passes, k), ip) == At(Views(TableBefore(passes, k)), ip)
  {
    if k > 0 {
      RestartsAt(passes, restarts, k - 1, ip);
      assert GoodPassAfter(passes, restarts, k - 1);
      RestartStep(passes, restarts, k - 1, ip);
    }
  }

  /** The replica over runs with restarts: after every pass it is the table if and only if no address was in the last file before a restart and in none since. */
  lemma RestartsExactly(passes: seq<Pass>, restarts: set<nat>, k: nat)
    requires IsRunWithRestarts(passes, restarts) && k <= |passes|
    ensures Replica(passes, k) == Views(TableBefore(passes, k)) <==> forall ip :: !Vanished(passes, restarts, k, ip)
  {
    forall ip
      ensures if Vanished(passes, restarts, k, ip) then ip in Replica(passes, k)
              else At(Replica(passes, k), ip) == At(Views(TableBefore(passes, k)), ip)
    {
      RestartsAt(passes, restarts, k, ip);
    }
    if ip :| Vanished(passes, restarts, k, ip) {
      VanishedIsAbsent(passes, restarts, k, ip);
    } else {
      SameEverywhere(Replica(passes, k), Views(TableBefore(passes, k)));
    }
  }

  /** A lease is taken, the server is restarted, and the next file no longer names it. */
  function LostLease(r: Lease): seq<Pass>
  {
    [Pass([r], [], [Add(r)]), Pass([], [], [])]
  }

  /** The run exists, and the consumer keeps the lease. */
  lemma LostLeaseStays(r: Lease)
    ensures IsRunWithRestarts(LostLease(r), {1}) && Vanished(LostLease(r), {1}, 2, r.ip)
    ensures Replica(LostLease(r), 2) != Views(TableBefore(LostLease(r), 2))
  {
    var passes := LostLease(r);
    OneRecord(r);
    assert [Add(r)][..0] == [];
    forall k | 0 <= k < 2
      ensures GoodPassAfter(passes, {1}, k)
    {
      forall ip
        ensures !Relapse(PrevTable(passes, {1}, k), passes[k].recs, ip)
      {
        NoRepeatsNoRelapse(PrevTable(passes, {1}, k), passes[k].recs, ip);
      }
    }
    assert AbsentFrom(passes, 1, 2, r.ip);
    RestartsExactly(passes, {1}, 2);
  }
}
