/**
  One DHCP server object: its lease table, its table of manual bindings, the hosts file, and the
  branches of monitor that change them.
 */
module DhcpServer {
  import opened Text
  import opened Bindings
  import opened HostsFile
  import opened Leases

  /** Reading the lease file. */
  datatype LeaseFile = Missing | Unreadable | Content(text: string)

  /** Writing the hosts file; a failed write leaves whatever it leaves. */
  datatype Write = Written | WriteFailed(left: string)

  /** The record announces a new address, or one whose MAC or host name changed. */
  predicate Noted(prev: Table, r: Lease)
  {
    r.ip !in prev || prev[r.ip].mac != r.mac || prev[r.ip].hostname != r.hostname
  }

  predicate AnyNoted(prev: Table, recs: seq<Lease>)
  {
    if recs == [] then false
    else Noted(prev, recs[|recs| - 1]) || AnyNoted(prev, recs[..|recs| - 1])
  }

  lemma {:induction false} AnyNotedIs(prev: Table, recs: seq<Lease>)
    ensures AnyNoted(prev, recs) <==> exists i :: 0 <= i < |recs| && Noted(prev, recs[i])
  {
    if recs != [] {
      AnyNotedIs(prev, recs[..|recs| - 1]);
    }
  }

  lemma NotedIs(prev: Table, recs: seq<Lease>)
    ensures (exists i :: 0 <= i < |recs| && Noted(prev, recs[i])) <==>
            exists r :: r in recs && (r.ip !in prev || prev[r.ip].mac != r.mac || prev[r.ip].hostname != r.hostname)
  {
    if r :| r in recs && (r.ip !in prev || prev[r.ip].mac != r.mac || prev[r.ip].hostname != r.hostname) {
      var i :| 0 <= i < |recs| && recs[i] == r;
      assert Noted(prev, recs[i]);
    }
  }

  /** What one more record does to the table, the adds and the flag. */
  lemma RecordSnoc(prev: Table, recs: seq<Lease>, r: Lease)
    ensures TableOf(recs + [r]) == TableOf(recs)[r.ip := r]
    ensures Adds(prev, recs + [r]) == Adds(prev, recs) + if Changed(prev, r) then [r] else []
    ensures AnyNoted(prev, recs + [r]) <==> AnyNoted(prev, recs) || Noted(prev, r)
  {
    assert (recs + [r])[..|recs|] == recs;
  }

  /** What the loop over the lines has built and sent for the records so far. */
  predicate ReadSoFar(prev: Table, recs: seq<Lease>, current: Table, changed: bool, sent: seq<Lease>, enabled: bool)
  {
    && current == TableOf(recs)
    && changed == AnyNoted(prev, recs)
    && sent == if enabled then Adds(prev, recs) else []
  }

  lemma ReadOneMore(prev: Table, recs: seq<Lease>, current: Table, changed: bool, sent: seq<Lease>, enabled: bool, r: Lease)
    requires ReadSoFar(prev, recs, current, changed, sent, enabled)
    ensures ReadSoFar(prev, recs + [r], current[r.ip := r], changed || Noted(prev, r),
                      sent + if enabled && Changed(prev, r) then [r] else [], enabled)
  {
    RecordSnoc(prev, recs, r);
    assert sent + [] == sent;
  }

  /** The sequence names exactly the keys of the table. */
  predicate Covers(table: map<string, Client>, order: seq<string>)
  {
    && (forall i :: 0 <= i < |order| ==> order[i] in table)
    && (forall ip :: ip in table ==> ip in order)
  }

  /** The loop over the table: the lines of the hosts file, in the order the map yields its keys. */
  method BindingLines(table: map<string, Client>) returns (finalLines: seq<string>)
    ensures exists order :: Covers(table, order) && finalLines == FileLines(table, order)
  {
    finalLines := [];
    ghost var order: seq<string> := [];
    var todo := table.Keys;
    while todo != {}
      invariant todo <= table.Keys
      invariant forall ip :: ip in order <==> ip in table && ip !in todo
      invariant forall i :: 0 <= i < |order| ==> order[i] in table
      invariant finalLines == FileLines(table, order)
      decreases |todo|
    {
      var ip :| ip in todo;
      var item := table[ip];
      var lines: seq<string> := [];
      if |item.hostname| > 0 {
        lines := [HOSTNAME + item.hostname];
      }
      lines := lines + [BindingLine(ip, item.mac)];
      finalLines := finalLines + lines;
      assert (order + [ip])[..|order|] == order;
      order := order + [ip];
      todo := todo - {ip};
    }
    assert Covers(table, order);
  }

  // ---- the binding side of monitor as a specification ----

  /** What happens to a server: events arrive on its queues, or monitor takes one of its branches. */
  datatype Branch =
    | Arrive(added: seq<Info>, deleted: seq<Info>)
    | TakeAdded(write: Write, reloadOk: bool)
    | TakeDeleted(write: Write, reloadOk: bool)
    | LeaseWritten(file: LeaseFile)
    | Renew(configOk: bool, file: LeaseFile, write: Write, reloadOk: bool)

  /** The manual bindings, the two queues, and whether the last attempt to write the hosts file succeeded. */
  datatype BindingState = BindingState(table: map<string, Client>, added: seq<Info>, deleted: seq<Info>, written: bool)

  /** A table that has changed is written. */
  function Rewritten(st: BindingState, table: map<string, Client>, write: Write): BindingState
  {
    if table == st.table then st else st.(table := table, written := write.Written?)
  }

  /** A branch whose channel is empty is never taken; renewing the configuration writes the file unless it fails before. */
  function Taken(st: BindingState, branch: Branch): BindingState
  {
    match branch
    case Arrive(added, deleted) => st.(added := st.added + added, deleted := st.deleted + deleted)
    case TakeAdded(write, _) =>
      if st.added == [] then st else Rewritten(st.(added := st.added[1..]), Insert(st.table, st.added[0]), write)
    case TakeDeleted(write, _) =>
      if st.deleted == [] then st else Rewritten(st.(deleted := st.deleted[1..]), Remove(st.table, st.deleted[0]), write)
    case LeaseWritten(_) => st
    case Renew(configOk, file, write, _) =>
      if configOk && !file.Unreadable? then st.(written := write.Written?) else st
  }

  function AllTaken(st: BindingState, branches: seq<Branch>): BindingState
  {
    if branches == [] then st else Taken(AllTaken(st, branches[..|branches| - 1]), branches[|branches| - 1])
  }

  // ---- the lease side ----

  /** The lease file that a branch reads, if it reads one. */
  function TextRead(branch: Branch): seq<string>
  {
    match branch
    case LeaseWritten(Content(text)) => [text]
    case Renew(true, Content(text), _, _) => [text]
    case _ => []
  }

  function TextsRead(branches: seq<Branch>): seq<string>
  {
    if branches == [] then [] else TextsRead(branches[..|branches| - 1]) + TextRead(branches[|branches| - 1])
  }

  /** The later passes follow the earlier ones, one for each text, with the records of the texts. */
  predicate Continues(before: seq<Pass>, after: seq<Pass>, texts: seq<string>, settings: Settings)
  {
    && |after| == |before| + |texts| && before <= after
    && forall i :: 0 <= i < |texts| ==> after[|before| + i].recs == Records(texts[i], settings)
  }

  lemma ContinuesMore(a: seq<Pass>, b: seq<Pass>, c: seq<Pass>, texts: seq<string>, more: seq<string>, settings: Settings)
    requires Continues(a, b, texts, settings) && Continues(b, c, more, settings)
    ensures Continues(a, c, texts + more, settings)
  {
    forall i | 0 <= i < |texts + more|
      ensures c[|a| + i].recs == Records((texts + more)[i], settings)
    {
      if i < |texts| {
        assert c[|a| + i] == b[|a| + i];
      } else {
        assert c[|b| + (i - |texts|)].recs == Records(more[i - |texts|], settings);
      }
    }
  }

  /** The last text read gives the table; without any the history is the same. */
  lemma LastRead(settings: Settings, before: seq<Pass>, after: seq<Pass>, texts: seq<string>)
    requires Continues(before, after, texts, settings)
    ensures texts != [] ==> TableBefore(after, |after|) == TableOf(Records(texts[|texts| - 1], settings))
    ensures texts == [] ==> after == before
  {
    if texts != [] {
      assert after[|before| + (|texts| - 1)].recs == Records(texts[|texts| - 1], settings);
    }
  }

  /** Each pass sent the deletes of its file. */
  ghost predicate AllSent(passes: seq<Pass>)
  {
    forall k :: 0 <= k < |passes| ==> Sent(passes, k)
  }

  /** With synchronisation on, the two channels got the adds and deletes of all passes, in order. */
  predicate ChannelsOf(settings: Settings, passes: seq<Pass>, adds: seq<Lease>, dels: seq<Lease>)
  {
    && adds == (if settings.syncEnabled then AllAdds(passes, 0, |passes|) else [])
    && dels == (if settings.syncEnabled then AllDels(passes, 0, |passes|) else [])
  }

  /** The table is that of the last pass, and the deletes and both channels are those of the passes. */
  ghost predicate SentByPasses(settings: Settings, passes: seq<Pass>, table: Table, adds: seq<Lease>, dels: seq<Lease>)
  {
    && table == TableBefore(passes, |passes|)
    && AllSent(passes)
    && ChannelsOf(settings, passes, adds, dels)
  }

  lemma MorePassSent(passes: seq<Pass>, p: Pass)
    requires AllSent(passes) && IsDeletes(TableBefore(passes, |passes|), TableOf(p.recs), p.dels)
    ensures AllSent(passes + [p])
  {
    forall k | 0 <= k < |passes| + 1
      ensures Sent(passes + [p], k)
    {
      PassesKeep(passes, p, k);
      if k < |passes| {
        assert Sent(passes, k) && (passes + [p])[k] == passes[k];
      }
    }
  }

  lemma MorePassEvents(passes: seq<Pass>, p: Pass)
    ensures TableBefore(passes + [p], |passes| + 1) == TableOf(p.recs)
    ensures AllAdds(passes + [p], 0, |passes| + 1) == AllAdds(passes, 0, |passes|) + Adds(TableBefore(passes, |passes|), p.recs)
    ensures AllDels(passes + [p], 0, |passes| + 1) == AllDels(passes, 0, |passes|) + p.dels
  {
    PassesKeep(passes, p, |passes|);
  }

  lemma MoreChannels(settings: Settings, passes: seq<Pass>, adds: seq<Lease>, dels: seq<Lease>, p: Pass)
    requires ChannelsOf(settings, passes, adds, dels)
    ensures ChannelsOf(settings, passes + [p], adds + (if settings.syncEnabled then Adds(TableBefore(passes, |passes|), p.recs) else []),
                       dels + (if settings.syncEnabled then p.dels else []))
  {
    if settings.syncEnabled {
      MorePassEvents(passes, p);
    }
  }

  lemma OneMorePass(settings: Settings, passes: seq<Pass>, table: Table, adds: seq<Lease>, dels: seq<Lease>, p: Pass)
    requires SentByPasses(settings, passes, table, adds, dels) && IsDeletes(table, TableOf(p.recs), p.dels)
    ensures SentByPasses(settings, passes + [p], TableOf(p.recs),
                         adds + (if settings.syncEnabled then Adds(table, p.recs) else []),
                         dels + (if settings.syncEnabled then p.dels else []))
  {
    MorePassSent(passes, p);
    MorePassEvents(passes, p);
    MoreChannels(settings, passes, adds, dels, p);
  }

  lemma ContinuesOne(settings: Settings, passes: seq<Pass>, p: Pass, text: string)
    requires p.recs == Records(text, settings)
    ensures Continues(passes, passes + [p], [text], settings)
  {
    assert (passes + [p])[|passes| + 0] == p;
  }

  /** A pass over a text, with its deletes, extends the history. */
  lemma PassMade(settings: Settings, passes: seq<Pass>, was: Table, now: Table, adds: seq<Lease>, addsAfter: seq<Lease>,
                 dels: seq<Lease>, delsAfter: seq<Lease>, text: string, gone: seq<Lease>)
    requires SentByPasses(settings, passes, was, adds, dels)
    requires now == TableOf(Records(text, settings)) && DeletesSoFar(was, {}, now, gone)
    requires addsAfter == adds + if settings.syncEnabled then Adds(was, Records(text, settings)) else []
    requires delsAfter == dels + if settings.syncEnabled then gone else []
    ensures var after := passes + [Pass(Records(text, settings), gone, [])];
            SentByPasses(settings, after, now, addsAfter, delsAfter) && Continues(passes, after, [text], settings)
  {
    var p := Pass(Records(text, settings), gone, []);
    AllDeletes(was, p.recs, gone);
    OneMorePass(settings, passes, was, adds, dels, p);
    ContinuesOne(settings, passes, p, text);
  }

  /** What one more pass means for the table and the two channels. */
  lemma OnePassSent(settings: Settings, before: seq<Pass>, after: seq<Pass>, text: string, was: Table, now: Table,
                    adds: seq<Lease>, addsAfter: seq<Lease>, dels: seq<Lease>, delsAfter: seq<Lease>)
    requires SentByPasses(settings, before, was, adds, dels) && SentByPasses(settings, after, now, addsAfter, delsAfter)
    requires Continues(before, after, [text], settings)
    ensures now == TableOf(Records(text, settings))
    ensures AddsSent(settings, was, Records(text, settings), adds, addsAfter)
    ensures DeletesSent(settings, was, Records(text, settings), dels, delsAfter)
  {
    var n := |before|;
    var p := after[n + 0];
    assert after == before + [p] && p.recs == Records([text][0], settings);
    MorePassEvents(before, p);
    PassesKeep(before, p, n);
    assert Sent(after, n);
  }

  /** The binding state and the passes after some branches. */
  predicate TakenSoFar(st: BindingState, history: seq<Pass>, settings: Settings, branches: seq<Branch>, now: BindingState, passes: seq<Pass>)
  {
    now == AllTaken(st, branches) && Continues(history, passes, TextsRead(branches), settings)
  }

  lemma TakenOneMore(st: BindingState, history: seq<Pass>, settings: Settings, branches: seq<Branch>, i: nat,
                     was: BindingState, before: seq<Pass>, now: BindingState, passes: seq<Pass>)
    requires i < |branches| && TakenSoFar(st, history, settings, branches[..i], was, before)
    requires now == Taken(was, branches[i]) && Continues(before, passes, TextRead(branches[i]), settings)
    ensures TakenSoFar(st, history, settings, branches[..i + 1], now, passes)
  {
    assert branches[..i + 1][..i] == branches[..i];
    ContinuesMore(history, before, passes, TextsRead(branches[..i]), TextRead(branches[i]), settings);
  }

  /** With synchronisation on, one add for each record that differs from the previous table, in file order. */
  predicate AddsSent(settings: Settings, prev: Table, recs: seq<Lease>, before: seq<Lease>, after: seq<Lease>)
  {
    after == if settings.syncEnabled then before + Adds(prev, recs) else before
  }

  /** With synchronisation on, one delete for each entry that the new table no longer has, in some order. */
  ghost predicate DeletesSent(settings: Settings, prev: Table, recs: seq<Lease>, before: seq<Lease>, after: seq<Lease>)
  {
    if settings.syncEnabled then exists dels :: IsDeletes(prev, TableOf(recs), dels) && after == before + dels else after == before
  }

  class Server {
    var settings: Settings
    var currentLeaseClients: Table
    var currentManualBindingClients: map<string, Client>
    var hostsFile: string
    var addedBindingIp: seq<Info>
    var deletedBindingIp: seq<Info>
    var addedDhcpClients: seq<Lease>
    var deletedDhcpClients: seq<Lease>
    var statusUpdates: nat
    ghost var written: bool  // the last attempt to write the hosts file succeeded
    ghost var passes: seq<Pass>  // history: the lease passes made so far

    /** Unless the last write failed, or none was tried yet, the hosts file reads back as the table. */
    ghost predicate Valid()
      reads this
    {
      && KeyedByIp(currentLeaseClients)
      && (forall ip :: ip in currentManualBindingClients ==> currentManualBindingClients[ip].ip == ip)
      && (written && CleanTable(currentManualBindingClients) ==> Read(hostsFile) == Macs(currentManualBindingClients))
    }

    /** The lease table and both client channels are those of the passes made. */
    ghost predicate LeasesKept()
      reads this`settings, this`passes, this`currentLeaseClients, this`addedDhcpClients, this`deletedDhcpClients
    {
      SentByPasses(settings, passes, currentLeaseClients, addedDhcpClients, deletedDhcpClients)
    }

    ghost function Bindings(): BindingState
      reads this
    {
      BindingState(currentManualBindingClients, addedBindingIp, deletedBindingIp, written)
    }

    /** A new server finds whatever hosts file an earlier one left. */
    constructor (settings: Settings, left: string)
      ensures Valid() && LeasesKept() && passes == []
      ensures this.settings == settings && currentLeaseClients == map[] && hostsFile == left
      ensures Bindings() == BindingState(map[], [], [], false)
    {
      this.settings := settings;
      currentLeaseClients, currentManualBindingClients := map[], map[];
      hostsFile, written := left, false;
      addedBindingIp, deletedBindingIp := [], [];
      addedDhcpClients, deletedDhcpClients := [], [];
      statusUpdates, passes := 0, [];
    }

    /** UpdateBindingIpEvents. */
    method UpdateBindingIpEvents(added: seq<Info>, deleted: seq<Info>)
      modifies this`addedBindingIp, this`deletedBindingIp
      ensures addedBindingIp == old(addedBindingIp) + added
      ensures deletedBindingIp == old(deletedBindingIp) + deleted
    {
      for k := 0 to |added|
        invariant addedBindingIp == old(addedBindingIp) + added[..k]
        invariant deletedBindingIp == old(deletedBindingIp)
      {
        addedBindingIp := addedBindingIp + [added[k]];
      }
      for k := 0 to |deleted|
        invariant addedBindingIp == old(addedBindingIp) + added
        invariant deletedBindingIp == old(deletedBindingIp) + deleted[..k]
      {
        deletedBindingIp := deletedBindingIp + [deleted[k]];
      }
    }

    /** UpdateDhcpBindings: the file is rewritten from the table, walked in any order; after a successful write of a clean table it reads back as that table. */
    method UpdateDhcpBindings(write: Write) returns (ok: bool)
      modifies this`hostsFile, this`written
      ensures ok <==> write.Written?
      ensures written == ok
      ensures ok && CleanTable(currentManualBindingClients) ==> Read(hostsFile) == Macs(currentManualBindingClients)
      ensures !ok ==> hostsFile == write.left
    {
      var table := currentManualBindingClients;
      var finalLines := BindingLines(table);
      written := write.Written?;
      if write.WriteFailed? {
        hostsFile := write.left;
        return false;
      }
      hostsFile := Contents(finalLines);
      if CleanTable(table) {
        ghost var order :| Covers(table, order) && finalLines == FileLines(table, order);
        FileReadsBack(table, order);
      }
      return true;
    }

    /** monitor, adding branch. `reloadOk` is whether dnsmasq takes the reload signal. */
    method OnBindingAdded(write: Write, reloadOk: bool)
      requires Valid() && addedBindingIp != []
      modifies this`addedBindingIp, this`currentManualBindingClients, this`hostsFile, this`written, this`statusUpdates
      ensures Valid()
      ensures addedBindingIp == old(addedBindingIp)[1..] && deletedBindingIp == old(deletedBindingIp)
      ensures currentManualBindingClients == Insert(old(currentManualBindingClients), old(addedBindingIp)[0])
      ensures Bindings() == Taken(old(Bindings()), TakeAdded(write, reloadOk))
      ensures currentManualBindingClients == old(currentManualBindingClients) ==>
                hostsFile == old(hostsFile) && statusUpdates == old(statusUpdates)
      ensures currentManualBindingClients != old(currentManualBindingClients) ==>
                statusUpdates == old(statusUpdates) + if write.Written? && reloadOk then 1 else 0
      ensures currentManualBindingClients != old(currentManualBindingClients) && write.Written? && CleanTable(currentManualBindingClients) ==>
                Read(hostsFile) == Macs(currentManualBindingClients)
    {
      var info := addedBindingIp[0];
      addedBindingIp := addedBindingIp[1..];
      if info.ip in currentManualBindingClients {
        if currentManualBindingClients[info.ip].mac != info.mac {
          currentManualBindingClients := currentManualBindingClients[info.ip := Client(info.ip, info.mac, info.hostname)];
        } else {
          return;
        }
      } else {
        currentManualBindingClients := currentManualBindingClients[info.ip := Client(info.ip, info.mac, info.hostname)];
      }
      var ok := UpdateDhcpBindings(write);
      if ok && reloadOk {
        statusUpdates := statusUpdates + 1;
      }
    }

    /** monitor, deleting branch. */
    method OnBindingDeleted(write: Write, reloadOk: bool)
      requires Valid() && deletedBindingIp != []
      modifies this`deletedBindingIp, this`currentManualBindingClients, this`hostsFile, this`written, this`statusUpdates
      ensures Valid()
      ensures deletedBindingIp == old(deletedBindingIp)[1..] && addedBindingIp == old(addedBindingIp)
      ensures currentManualBindingClients == Remove(old(currentManualBindingClients), old(deletedBindingIp)[0])
      ensures Bindings() == Taken(old(Bindings()), TakeDeleted(write, reloadOk))
      ensures currentManualBindingClients != old(currentManualBindingClients) ==>
                statusUpdates == old(statusUpdates) + if write.Written? && reloadOk then 1 else 0
      ensures currentManualBindingClients != old(currentManualBindingClients) && write.Written? && CleanTable(currentManualBindingClients) ==>
                Read(hostsFile) == Macs(currentManualBindingClients)
      ensures currentManualBindingClients == old(currentManualBindingClients) ==>
                hostsFile == old(hostsFile) && statusUpdates == old(statusUpdates)
    {
      var info := deletedBindingIp[0];
      deletedBindingIp := deletedBindingIp[1..];
      if info.ip in currentManualBindingClients && EqualFold(currentManualBindingClients[info.ip].mac, info.mac) {
        currentManualBindingClients := currentManualBindingClients - {info.ip};
      } else {
        return;
      }
      assert info.ip in old(currentManualBindingClients) && info.ip !in currentManualBindingClients;
      var ok := UpdateDhcpBindings(write);
      if ok && reloadOk {
        statusUpdates := statusUpdates + 1;
      }
    }

    /** processDhcpLease: a client counts as changed when its address is new, or its MAC or host name differs. */
    method ProcessDhcpLease(file: LeaseFile, ignoreMissing: bool) returns (changed: bool, ok: bool)
      requires Valid() && LeasesKept()
      modifies this`currentLeaseClients, this`addedDhcpClients, this`deletedDhcpClients, this`passes
      ensures Valid() && LeasesKept()
      ensures ok <==> file.Content? || (file.Missing? && ignoreMissing)
      ensures !file.Content? ==> !changed && unchanged(this)
      ensures file.Content? ==>
                var recs, was := Records(file.text, settings), old(currentLeaseClients);
                && currentLeaseClients == TableOf(recs) && Continues(old(passes), passes, [file.text], settings)
                && (changed <==> exists r :: r in recs && (r.ip !in was || was[r.ip].mac != r.mac || was[r.ip].hostname != r.hostname))
                && AddsSent(settings, was, recs, old(addedDhcpClients), addedDhcpClients)
                && DeletesSent(settings, was, recs, old(deletedDhcpClients), deletedDhcpClients)
    {
      if !file.Content? {
        return false, file.Missing? && ignoreMissing;
      }
      changed := ProcessRecords(file.text);
      OnePassSent(settings, old(passes), passes, file.text, old(currentLeaseClients), currentLeaseClients,
                  old(addedDhcpClients), addedDhcpClients, old(deletedDhcpClients), deletedDhcpClients);
      NotedIs(old(currentLeaseClients), Records(file.text, settings));
      ok := true;
    }

    /** The part after the file has been read. */
    method ProcessRecords(text: string) returns (changed: bool)
      requires KeyedByIp(currentLeaseClients) && LeasesKept()
      modifies this`currentLeaseClients, this`addedDhcpClients, this`deletedDhcpClients, this`passes
      ensures KeyedByIp(currentLeaseClients) && currentLeaseClients == TableOf(Records(text, settings))
      ensures changed <==> exists i :: 0 <= i < |Records(text, settings)| && Noted(old(currentLeaseClients), Records(text, settings)[i])
      ensures LeasesKept() && Continues(old(passes), passes, [text], settings)
    {
      var previous := currentLeaseClients;
      ghost var addsBefore := addedDhcpClients;
      changed := SendAdds(text);
      FinishPass(text, previous, addsBefore);
    }

    /** The second half of a pass: the deletes are sent. */
    method FinishPass(text: string, previous: Table, ghost addsBefore: seq<Lease>)
      requires KeyedByIp(previous) && currentLeaseClients == TableOf(Records(text, settings))
      requires SentByPasses(settings, passes, previous, addsBefore, deletedDhcpClients)
      requires addedDhcpClients == addsBefore + if settings.syncEnabled then Adds(previous, Records(text, settings)) else []
      modifies this`deletedDhcpClients, this`passes
      ensures LeasesKept() && Continues(old(passes), passes, [text], settings)
    {
      ghost var delsBefore, passesBefore := deletedDhcpClients, passes;
      ghost var dels := SendDeletes(previous);
      passes := passesBefore + [Pass(Records(text, settings), dels, [])];
      PassMade(settings, passesBefore, previous, currentLeaseClients, addsBefore, addedDhcpClients,
               delsBefore, deletedDhcpClients, text, dels);
    }

    /** The first half of a pass: the table is replaced, and the adds are sent. */
    method SendAdds(text: string) returns (changed: bool)
      modifies this`currentLeaseClients, this`addedDhcpClients
      ensures KeyedByIp(currentLeaseClients) && currentLeaseClients == TableOf(Records(text, settings))
      ensures changed <==> exists i :: 0 <= i < |Records(text, settings)| && Noted(old(currentLeaseClients), Records(text, settings)[i])
      ensures AddsSent(settings, old(currentLeaseClients), Records(text, settings), old(addedDhcpClients), addedDhcpClients)
      ensures addedDhcpClients ==
              old(addedDhcpClients) + if settings.syncEnabled then Adds(old(currentLeaseClients), Records(text, settings)) else []
    {
      var previous := currentLeaseClients;
      ghost var sent;
      changed, sent := ReadLeases(Split(text, '\n'), previous);
      PassRead(settings, previous, Records(text, settings), currentLeaseClients, changed, sent, old(addedDhcpClients));
    }

    /** The lease pass of monitor and of generateDnsmasqConfig: a missing file is no error, and the bindings stay as they are. */
    method RefreshLeases(file: LeaseFile) returns (ok: bool)
      requires Valid() && LeasesKept()
      modifies this`currentLeaseClients, this`addedDhcpClients, this`deletedDhcpClients, this`passes
      ensures Valid() && LeasesKept()
      ensures ok <==> !file.Unreadable?
      ensures !file.Content? ==> unchanged(this)
      ensures file.Content? ==>
                && currentLeaseClients == TableOf(Records(file.text, settings))
                && Continues(old(passes), passes, [file.text], settings)
                && AddsSent(settings, old(currentLeaseClients), Records(file.text, settings), old(addedDhcpClients), addedDhcpClients)
                && DeletesSent(settings, old(currentLeaseClients), Records(file.text, settings), old(deletedDhcpClients), deletedDhcpClients)
    {
      var changed;
      changed, ok := ProcessDhcpLease(file, true);
    }

    /** generateDnsmasqConfig, as far as the tables are concerned: the leases are read and then the hosts file is written. */
    method RenewConfig(configOk: bool, file: LeaseFile, write: Write) returns (ok: bool)
      requires Valid() && LeasesKept()
      modifies this`currentLeaseClients, this`addedDhcpClients, this`deletedDhcpClients, this`passes, this`hostsFile, this`written
      ensures Valid() && LeasesKept()
      ensures written == if configOk && !file.Unreadable? then write.Written? else old(written)
      ensures ok <==> configOk && !file.Unreadable? && write.Written?
      ensures if configOk && file.Content?
              then currentLeaseClients == TableOf(Records(file.text, settings)) && Continues(old(passes), passes, [file.text], settings)
              else unchanged(this`currentLeaseClients, this`addedDhcpClients, this`deletedDhcpClients, this`passes)
    {
      if !configOk {
        return false;
      }
      ok := RefreshLeases(file);
      if !ok {
        return false;
      }
      ok := UpdateDhcpBindings(write);
    }

    /** The branches that take binding events. */
    method TakeBinding(branch: Branch)
      requires Valid() && (branch.Arrive? || branch.TakeAdded? || branch.TakeDeleted?)
      modifies this`addedBindingIp, this`deletedBindingIp, this`currentManualBindingClients, this`hostsFile, this`written, this`statusUpdates
      ensures Valid() && Bindings() == Taken(old(Bindings()), branch)
    {
      match branch {
        case Arrive(added, deleted) => UpdateBindingIpEvents(added, deleted);
        case TakeAdded(write, reloadOk) =>
          if addedBindingIp != [] {
            OnBindingAdded(write, reloadOk);
          }
        case TakeDeleted(write, reloadOk) =>
          if deletedBindingIp != [] {
            OnBindingDeleted(write, reloadOk);
          }
      }
    }

    /** The branch for a written lease file: a pass that does not fail asks for a status update. */
    method TakeLease(file: LeaseFile)
      requires Valid() && LeasesKept()
      modifies this`currentLeaseClients, this`addedDhcpClients, this`deletedDhcpClients, this`passes, this`statusUpdates
      ensures Valid() && LeasesKept()
      ensures statusUpdates == old(statusUpdates) + if file.Unreadable? then 0 else 1
      ensures if file.Content?
              then currentLeaseClients == TableOf(Records(file.text, settings)) && Continues(old(passes), passes, [file.text], settings)
              else unchanged(this`currentLeaseClients, this`addedDhcpClients, this`deletedDhcpClients, this`passes)
    {
      var ok := RefreshLeases(file);
      if ok {
        statusUpdates := statusUpdates + 1;
      }
    }

    /** The branches that renew the configuration: when that and the reload signal succeed, a status update is asked for. */
    method TakeRenewal(configOk: bool, file: LeaseFile, write: Write, reloadOk: bool)
      requires Valid() && LeasesKept()
      modifies this`currentLeaseClients, this`addedDhcpClients, this`deletedDhcpClients, this`passes, this`hostsFile, this`written, this`statusUpdates
      ensures Valid() && LeasesKept()
      ensures written == if configOk && !file.Unreadable? then write.Written? else old(written)
      ensures statusUpdates == old(statusUpdates) + if configOk && !file.Unreadable? && write.Written? && reloadOk then 1 else 0
      ensures if configOk && file.Content?
              then currentLeaseClients == TableOf(Records(file.text, settings)) && Continues(old(passes), passes, [file.text], settings)
              else unchanged(this`currentLeaseClients, this`addedDhcpClients, this`deletedDhcpClients, this`passes)
    {
      var ok := RenewConfig(configOk, file, write);
      if ok && reloadOk {
        statusUpdates := statusUpdates + 1;
      }
    }

    /** One branch of the select: the binding side moves as specified, and the lease side by a pass over the file that the branch reads, if it reads one. */
    method Take(branch: Branch)
      requires Valid() && LeasesKept()
      modifies this
      ensures Valid() && LeasesKept() && settings == old(settings)
      ensures Bindings() == Taken(old(Bindings()), branch)
      ensures Continues(old(passes), passes, TextRead(branch), settings)
      ensures branch.LeaseWritten? && branch.file.Content? ==> currentLeaseClients == TableOf(Records(branch.file.text, settings))
      ensures branch.Renew? && branch.configOk && branch.file.Content? ==>
                currentLeaseClients == TableOf(Records(branch.file.text, settings))
      ensures !(branch.LeaseWritten? && branch.file.Content?) && !(branch.Renew? && branch.configOk && branch.file.Content?) ==>
                unchanged(this`currentLeaseClients, this`addedDhcpClients, this`deletedDhcpClients, this`passes)
    {
      match branch {
        case LeaseWritten(file) => TakeLease(file);
        case Renew(configOk, file, write, reloadOk) => TakeRenewal(configOk, file, write, reloadOk);
        case _ => TakeBinding(branch);
      }
    }

    /** monitor over any sequence of branches. The binding table is the queues' events applied in turn, and whenever the last write succeeded the hosts file reads back as it. The lease table is that of the last lease file read, and the passes made, whose adds and deletes the two channels got in order, are one for each lease file read. */
    method Monitor(branches: seq<Branch>)
      requires Valid() && LeasesKept()
      modifies this
      ensures Valid() && LeasesKept() && settings == old(settings)
      ensures Bindings() == AllTaken(old(Bindings()), branches)
      ensures AllTaken(old(Bindings()), branches).written && CleanTable(currentManualBindingClients) ==>
                Read(hostsFile) == Macs(currentManualBindingClients)
      ensures Continues(old(passes), passes, TextsRead(branches), settings)
      ensures TextsRead(branches) != [] ==>
                currentLeaseClients == TableOf(Records(TextsRead(branches)[|TextsRead(branches)| - 1], settings))
      ensures TextsRead(branches) == [] ==>
                && currentLeaseClients == old(currentLeaseClients)
                && addedDhcpClients == old(addedDhcpClients) && deletedDhcpClients == old(deletedDhcpClients)
    {
      ghost var st, history := Bindings(), passes;
      for i := 0 to |branches|
        invariant Valid() && LeasesKept() && settings == old(settings)
        invariant TakenSoFar(st, history, settings, branches[..i], Bindings(), passes)
      {
        ghost var before, passesBefore := Bindings(), passes;
        Take(branches[i]);
        TakenOneMore(st, history, settings, branches, i, before, passesBefore, Bindings(), passes);
      }
      assert branches[..|branches|] == branches;
      LastRead(settings, history, passes, TextsRead(branches));
    }

    /** The loop over the lines: builds the new table and sends the adds. */
    method ReadLeases(lines: seq<string>, previous: Table) returns (changed: bool, ghost sent: seq<Lease>)
      modifies this`currentLeaseClients, this`addedDhcpClients
      ensures addedDhcpClients == old(addedDhcpClients) + sent
      ensures ReadSoFar(previous, ParseLines(lines, settings), currentLeaseClients, changed, sent, settings.syncEnabled)
    {
      changed := false;
      var current: Table := map[];
      ghost var recs: seq<Lease> := [];
      ghost var base := addedDhcpClients;
      sent := [];
      for k := 0 to |lines|
        invariant recs == ParseLines(lines[..k], settings)
        invariant ReadSoFar(previous, recs, current, changed, sent, settings.syncEnabled)
        invariant addedDhcpClients == base + sent
      {
        assert lines[..k + 1][..k] == lines[..k];
        ghost var before := recs;
        current, changed, recs, sent := ReadLine(lines[k], previous, current, changed, base, recs, sent);
        assert recs == before + RecordOf(lines[k], settings);
      }
      assert lines[..|lines|] == lines;
      currentLeaseClients := current;
    }

    /** The body of the loop: one line. */
    method ReadLine(line: string, previous: Table, current: Table, changed: bool,
                    ghost base: seq<Lease>, ghost recs: seq<Lease>, ghost sent: seq<Lease>)
      returns (current': Table, changed': bool, ghost recs': seq<Lease>, ghost sent': seq<Lease>)
      requires addedDhcpClients == base + sent
      requires ReadSoFar(previous, recs, current, changed, sent, settings.syncEnabled)
      modifies this`addedDhcpClients
      ensures recs' == recs + RecordOf(line, settings)
      ensures addedDhcpClients == base + sent'
      ensures ReadSoFar(previous, recs', current', changed', sent', settings.syncEnabled)
    {
      current', changed', recs', sent' := current, changed, recs, sent;
      var parsed := ParseLine(line, settings);
      if parsed.None? {
        return;
      }
      var lease := parsed.value;
      ReadOneMore(previous, recs, current, changed, sent, settings.syncEnabled, lease);
      recs' := recs + [lease];
      current' := current[lease.ip := lease];
      var noted, more := Announce(lease, previous);
      changed' := changed || noted;
      assert addedDhcpClients == base + (sent + more);
      sent' := sent + more;
    }

    /** The event for one record: a difference in expiry alone is sent, but is no change of clients. */
    method Announce(lease: Lease, previous: Table) returns (noted: bool, ghost more: seq<Lease>)
      modifies this`addedDhcpClients
      ensures noted == Noted(previous, lease)
      ensures more == if settings.syncEnabled && Changed(previous, lease) then [lease] else []
      ensures addedDhcpClients == old(addedDhcpClients) + more
    {
      more := [];
      if lease.ip !in previous || previous[lease.ip].mac != lease.mac || previous[lease.ip].hostname != lease.hostname {
        if settings.syncEnabled {
          addedDhcpClients, more := addedDhcpClients + [lease], [lease];
        }
        return true, more;
      } else if previous[lease.ip].expire != lease.expire {
        if settings.syncEnabled {
          addedDhcpClients, more := addedDhcpClients + [lease], [lease];
        }
      }
      return false, more;
    }

    /** The loop over the previous table: sends a delete for each entry that is gone. */
    method SendDeletes(previous: Table) returns (ghost dels: seq<Lease>)
      requires KeyedByIp(previous)
      modifies this`deletedDhcpClients
      ensures DeletesSoFar(previous, {}, currentLeaseClients, dels)
      ensures deletedDhcpClients == old(deletedDhcpClients) + if settings.syncEnabled then dels else []
    {
      ghost var base := deletedDhcpClients;
      dels := [];
      NoDeletesYet(previous, currentLeaseClients);
      var todo := previous.Keys;
      while todo != {}
        invariant todo <= previous.Keys
        invariant DeletesSoFar(previous, todo, currentLeaseClients, dels)
        invariant deletedDhcpClients == base + if settings.syncEnabled then dels else []
        decreases |todo|
      {
        var ip :| ip in todo;
        var client := previous[ip];
        DeletesStep(previous, todo, currentLeaseClients, dels, ip);
        if client.ip !in currentLeaseClients {
          client := client.(active := false);
          if settings.syncEnabled {
            deletedDhcpClients := deletedDhcpClients + [client];
            assert deletedDhcpClients == base + (dels + [client]);
          }
          dels := dels + [client];
        }
        todo := todo - {ip};
      }
    }
  }

  /** What the loop over all lines amounts to. */
  lemma PassRead(settings: Settings, prev: Table, recs: seq<Lease>, current: Table, changed: bool, sent: seq<Lease>, before: seq<Lease>)
    requires ReadSoFar(prev, recs, current, changed, sent, settings.syncEnabled)
    ensures KeyedByIp(current) && current == TableOf(recs)
    ensures changed <==> exists i :: 0 <= i < |recs| && Noted(prev, recs[i])
    ensures AddsSent(settings, prev, recs, before, before + sent)
    ensures sent == if settings.syncEnabled then Adds(prev, recs) else []
  {
    TableOfIsKeyed(recs);
    AnyNotedIs(prev, recs);
    assert before + [] == before;
  }

  lemma AllDeletes(previous: Table, recs: seq<Lease>, dels: seq<Lease>)
    requires DeletesSoFar(previous, {}, TableOf(recs), dels)
    ensures IsDeletes(previous, TableOf(recs), dels)
  {
    assert previous - {} == previous;
  }

  /** The deletes for the part of the previous table already walked. */
  ghost predicate DeletesSoFar(previous: Table, todo: set<string>, now: Table, dels: seq<Lease>)
  {
    IsDeletes(previous - todo, now, dels)
  }

  lemma NoDeletesYet(previous: Table, now: Table)
    ensures DeletesSoFar(previous, previous.Keys, now, [])
  {
  }

  lemma DeletesStep(previous: Table, todo: set<string>, now: Table, dels: seq<Lease>, ip: string)
    requires KeyedByIp(previous) && todo <= previous.Keys && ip in todo
    requires DeletesSoFar(previous, todo, now, dels)
    ensures DeletesSoFar(previous, todo - {ip}, now, if ip in now then dels else dels + [previous[ip].(active := false)])
  {
    var all := if ip in now then dels else dels + [previous[ip].(active := false)];
    forall j | j in previous - (todo - {ip}) && j !in now
      ensures exists i :: 0 <= i < |all| && all[i].ip == j
    {
      if j == ip {
        assert all[|dels|].ip == j;
      } else {
        assert j in previous - todo;
        var i :| 0 <= i < |dels| && dels[i].ip == j;
        assert all[i].ip == j;
      }
    }
  }

  // ---- a consumer of what the server sent ----

  /** However a consumer that started empty with the server reads the two channels, it agrees with the server's lease table at an IP if and only if what was sent for that IP is not both added and deleted, as long as no file had a relapse. */
  lemma ReaderOfServer(server: Server, ip: string)
    requires server.LeasesKept() && server.settings.syncEnabled
    requires forall k :: 0 <= k < |server.passes| ==> CalmPass(server.passes, k)
    ensures (forall evs :: Interleaves(evs, server.addedDhcpClients, server.deletedDhcpClients) ==>
               At(Consume(map[], evs), ip) == At(Views(server.currentLeaseClients), ip)) <==>
            LastFor(server.addedDhcpClients, ip).None? || LastFor(server.deletedDhcpClients, ip).None?
  {
    var passes := server.passes;
    LaggingReaderExactly(passes, 0, |passes|, ip);
    NoLeasesYet();
    assert TableBefore(passes, 0) == map[];
  }

  lemma NoLeasesYet()
    ensures Views(map[]) == map[]
  {
  }

  /** The passes as a consumer that keeps up with them reads them. */
  function ReadAs(passes: seq<Pass>, readings: seq<seq<Event>>): (r: seq<Pass>)
    requires |passes| == |readings|
    ensures |r| == |passes|
    ensures forall k :: 0 <= k < |passes| ==> r[k] == passes[k].(evs := readings[k])
  {
    seq(|passes|, k requires 0 <= k < |passes| => passes[k].(evs := readings[k]))
  }

  predicate ReadsPass(passes: seq<Pass>, readings: seq<seq<Event>>, k: nat)
    requires |passes| == |readings| && k < |passes|
  {
    Interleaves(readings[k], Adds(TableBefore(passes, k), passes[k].recs), passes[k].dels)
  }

  /** A consumer that started empty with the server and reads all that a pass sent before the next pass holds exactly the (MAC, host name, expiry) of each IP in the server's lease table. */
  lemma ReplicaOfServer(server: Server, readings: seq<seq<Event>>)
    requires server.LeasesKept() && server.settings.syncEnabled && |readings| == |server.passes|
    requires forall k :: 0 <= k < |server.passes| ==> ReadsPass(server.passes, readings, k) && CalmPass(server.passes, k)
    ensures Replica(ReadAs(server.passes, readings), |readings|) == Views(server.currentLeaseClients)
  {
    var passes, read := server.passes, ReadAs(server.passes, readings);
    forall k | 0 <= k < |read|
      ensures GoodPass(read, k) && CalmPass(read, k)
    {
      assert ReadsPass(passes, readings, k) && CalmPass(passes, k) && Sent(passes, k);
      assert TableBefore(read, k) == TableBefore(passes, k);
    }
    ReplicaIsFaithful(read, |read|);
    assert TableBefore(read, |read|) == TableBefore(passes, |passes|);
  }
}
