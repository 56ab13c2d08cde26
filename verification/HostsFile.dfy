/**
  The dhcp-hosts file that UpdateDhcpBindings writes from a table of manual bindings, and how it reads back.
 */
module HostsFile {
  import opened Text
  import opened Bindings

  // ---- writing ----

  const ANY_ID := "id:*"
  const TRUSTED := "set:trusted"
  const HOSTNAME := "# hostname "

  /** MAC,id:*,set:trusted,IP */
  function BindingLine(ip: string, mac: string): string
  {
    mac + [','] + (ANY_ID + [','] + (TRUSTED + [','] + ip))
  }

  /** The lines for one entry: a comment with the host name, when there is one, and the binding. */
  function EntryLines(ip: string, c: Client): seq<string>
  {
    (if |c.hostname| > 0 then [HOSTNAME + c.hostname] else []) + [BindingLine(ip, c.mac)]
  }

  /** All lines, in some iteration order of the table. */
  function FileLines(table: map<string, Client>, order: seq<string>): seq<string>
    requires forall i :: 0 <= i < |order| ==> order[i] in table
  {
    if order == [] then []
    else
      var n := |order| - 1;
      FileLines(table, order[..n]) + EntryLines(order[n], table[order[n]])
  }

  function Contents(lines: seq<string>): string
  {
    Join(lines, '\n') + ['\n']
  }

  // ---- reading ----

  /** One line: blank lines and comments bind nothing; a binding for a trusted client has four comma-separated fields, any client ID and the tag that trusted-only serving asks for. */
  function ReadLine(m: map<string, string>, line: string): map<string, string>
  {
    if line == "" || line[0] == '#' then m
    else
      var f := Split(line, ',');
      if |f| == 4 && f[1] == "id:*" && f[2] == "set:trusted" then m[f[3] := f[0]] else m
  }

  function ReadLines(lines: seq<string>): map<string, string>
  {
    if lines == [] then map[] else ReadLine(ReadLines(lines[..|lines| - 1]), lines[|lines| - 1])
  }

  /** The IP to MAC table that a hosts file describes. */
  function Read(file: string): map<string, string>
  {
    ReadLines(Split(file, '\n'))
  }

  // ---- round trip ----

  predicate Clean(s: string)
  {
    ',' !in s && '\n' !in s
  }

  /** No field can be taken for a separator or for a comment. */
  predicate CleanTable(table: map<string, Client>)
  {
    forall ip :: ip in table ==>
      && Clean(ip)
      && Clean(table[ip].mac)
      && '\n' !in table[ip].hostname
      && (table[ip].mac != "" ==> table[ip].mac[0] != '#')
  }

  function Macs(table: map<string, Client>): map<string, string>
  {
    map ip | ip in table :: table[ip].mac
  }

  lemma Tags()
    ensures Clean(ANY_ID) && Clean(TRUSTED) && '\n' !in HOSTNAME && |HOSTNAME| > 0 && HOSTNAME[0] == '#'
  {
  }

  lemma BindingLineSplits(ip: string, mac: string)
    requires Clean(ip) && Clean(mac)
    ensures Split(BindingLine(ip, mac), ',') == [mac, ANY_ID, TRUSTED, ip]
    ensures '\n' !in BindingLine(ip, mac)
  {
    Tags();
    var tail2 := TRUSTED + [','] + ip;
    var tail1 := ANY_ID + [','] + tail2;
    SplitFree(ip, ',');
    SplitAtFirst(TRUSTED, ip, ',');
    SplitAtFirst(ANY_ID, tail2, ',');
    SplitAtFirst(mac, tail1, ',');
  }

  lemma BindingLineRead(m: map<string, string>, ip: string, mac: string)
    requires Clean(ip) && Clean(mac) && (mac != "" ==> mac[0] != '#')
    ensures ReadLine(m, BindingLine(ip, mac)) == m[ip := mac]
  {
    BindingLineSplits(ip, mac);
    assert BindingLine(ip, mac)[0] == if mac == "" then ',' else mac[0];
  }

  lemma EntryRead(lines: seq<string>, ip: string, c: Client)
    requires Clean(ip) && Clean(c.mac) && (c.mac != "" ==> c.mac[0] != '#') && '\n' !in c.hostname
    ensures ReadLines(lines + EntryLines(ip, c)) == ReadLines(lines)[ip := c.mac]
    ensures forall i :: 0 <= i < |EntryLines(ip, c)| ==> '\n' !in EntryLines(ip, c)[i]
  {
    Tags();
    BindingLineSplits(ip, c.mac);
    BindingLineRead(ReadLines(lines), ip, c.mac);
    ReadLinesConcat(lines, EntryLines(ip, c));
    if |c.hostname| > 0 {
      var comment := HOSTNAME + c.hostname;
      assert comment[0] == '#';
      assert EntryLines(ip, c) == [comment, BindingLine(ip, c.mac)];
    } else {
      assert EntryLines(ip, c) == [BindingLine(ip, c.mac)];
    }
  }

  lemma {:induction false} ReadLinesConcat(a: seq<string>, b: seq<string>)
    requires |b| <= 2
    ensures |b| == 0 ==> ReadLines(a + b) == ReadLines(a)
    ensures |b| == 1 ==> ReadLines(a + b) == ReadLine(ReadLines(a), b[0])
    ensures |b| == 2 ==> ReadLines(a + b) == ReadLine(ReadLine(ReadLines(a), b[0]), b[1])
  {
    if |b| == 0 {
      assert a + b == a;
    } else if |b| == 1 {
      assert (a + b)[..|a|] == a;
    } else {
      assert (a + b)[..|a| + 1] == a + b[..1];
      ReadLinesConcat(a, b[..1]);
    }
  }

  /** Reading the lines of a table yields the table, whatever the iteration order. */
  lemma {:induction false} LinesRead(table: map<string, Client>, order: seq<string>)
    requires CleanTable(table)
    requires forall i :: 0 <= i < |order| ==> order[i] in table
    ensures ReadLines(FileLines(table, order)) == map ip | ip in order :: table[ip].mac
    ensures forall i :: 0 <= i < |FileLines(table, order)| ==> '\n' !in FileLines(table, order)[i]
  {
    if order != [] {
      var n := |order| - 1;
      var ip := order[n];
      LinesRead(table, order[..n]);
      EntryRead(FileLines(table, order[..n]), ip, table[ip]);
      assert order == order[..n] + [ip];
    }
  }

  lemma {:induction false} JoinSnocEmpty(lines: seq<string>, sep: char)
    requires lines != []
    ensures Join(lines + [""], sep) == Join(lines, sep) + [sep]
  {
    if |lines| == 1 {
      assert (lines + [""])[1..] == [""];
      assert Join([""], sep) == "";
    } else {
      assert (lines + [""])[1..] == lines[1..] + [""];
      JoinSnocEmpty(lines[1..], sep);
    }
  }

  /** Hosts-file round trip: reading the contents written for a clean table gives back its IP to MAC map, for every iteration order and for the empty table. */
  lemma FileReadsBack(table: map<string, Client>, order: seq<string>)
    requires CleanTable(table)
    requires forall ip :: ip in order <==> ip in table
    ensures Read(Contents(FileLines(table, order))) == Macs(table)
  {
    LinesRead(table, order);
    var lines := FileLines(table, order);
    assert (map ip | ip in order :: table[ip].mac) == Macs(table);
    if lines == [] {
      SplitAtFirst("", "", '\n');
      assert Contents(lines) == "" + ['\n'] + "";
      assert Split(Contents(lines), '\n') == [] + ["", ""];
      ReadLinesConcat([], ["", ""]);
      assert order == [];
      assert forall ip :: ip in table ==> ip in order;
    } else {
      JoinSnocEmpty(lines, '\n');
      SplitOfJoin(lines + [""], '\n');
      ReadLinesConcat(lines, [""]);
    }
  }
}
