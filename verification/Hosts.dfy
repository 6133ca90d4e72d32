/** The container's hosts file, and what a reader of it learns. */
module Hosts {
  import opened Text
  import opened Address
  import opened Config
  import opened Plan
  import opened Codec

  const BANNER_1 := "# Generated by egress-resolver " + "from the attested " + "endpoint list; do not edit."
  const BANNER_2 := "# Names below resolve only " + "to addresses currently " + "allowed by the host firewall."
  const LOCALHOST := "127.0.0.1 localhost"
  const STATIC_TITLE := "# static endpoints"
  const DYNAMIC_TITLE := "# dynamically resolved endpoints"

  /** A blank line and a title line before a section. */
  function Section(title: string, body: string): string {
    "\n" + (title + "\n") + body
  }

  function Head(banner1: string, banner2: string, localhost: string): string {
    (banner1 + "\n") + ((banner2 + "\n") + (localhost + "\n"))
  }

  function SourceText(source: Source): string {
    match source
    case Fresh => "Fresh"
    case LastKnownGood => "LastKnownGood"
    case EmptyAnswer => "Empty"
    case Missing => "Missing"
  }

  function StaticLine(h: StaticHost): string {
    ShowIp(h.ip) + " " + Join(h.names, " ") + "\n"
  }

  function StaticLines(hosts: seq<StaticHost>): string {
    if hosts == [] then "" else StaticLines(hosts[..|hosts| - 1]) + StaticLine(hosts[|hosts| - 1])
  }

  function StaticText(hosts: seq<StaticHost>): string {
    if hosts == [] then "" else Section(STATIC_TITLE, StaticLines(hosts))
  }

  function AddressLine(ip: Addr, name: string): string {
    ShowIp(ip) + " " + name + "\n"
  }

  function AddressLines(addrs: seq<Addr>, name: string): string {
    if addrs == [] then "" else AddressLines(addrs[..|addrs| - 1], name) + AddressLine(addrs[|addrs| - 1], name)
  }

  function NameText(n: NameState): string {
    if n.addrs == [] then "# " + n.name + ": no address (" + SourceText(n.source) + ")\n"
    else AddressLines(n.addrs, n.name)
  }

  function NameTexts(names: seq<NameState>): string {
    if names == [] then "" else NameTexts(names[..|names| - 1]) + NameText(names[|names| - 1])
  }

  function DynamicText(names: seq<NameState>): string {
    if names == [] then "" else Section(DYNAMIC_TITLE, NameTexts(names))
  }

  function HostsText(hosts: seq<StaticHost>, names: seq<NameState>): string {
    Head(BANNER_1, BANNER_2, LOCALHOST) + (StaticText(hosts) + DynamicText(names))
  }

  method RenderStatics(hosts: seq<StaticHost>) returns (s: string)
    ensures s == StaticLines(hosts)
  {
    s := "";
    for i := 0 to |hosts|
      invariant s == StaticLines(hosts[..i])
    {
      assert hosts[..i + 1][..i] == hosts[..i];
      s := s + StaticLine(hosts[i]);
    }
    assert hosts[..|hosts|] == hosts;
  }

  method RenderAddrs(addrs: seq<Addr>, name: string) returns (s: string)
    ensures s == AddressLines(addrs, name)
  {
    s := "";
    for j := 0 to |addrs|
      invariant s == AddressLines(addrs[..j], name)
    {
      assert addrs[..j + 1][..j] == addrs[..j];
      s := s + AddressLine(addrs[j], name);
    }
    assert addrs[..|addrs|] == addrs;
  }

  method RenderNames(names: seq<NameState>) returns (s: string)
    ensures s == NameTexts(names)
  {
    s := "";
    for i := 0 to |names|
      invariant s == NameTexts(names[..i])
    {
      assert names[..i + 1][..i] == names[..i];
      if names[i].addrs == [] {
        s := s + ("# " + names[i].name + ": no address (" + SourceText(names[i].source) + ")\n");
        continue;
      }
      var lines := RenderAddrs(names[i].addrs, names[i].name);
      s := s + lines;
    }
    assert names[..|names|] == names;
  }

  method Render(hosts: seq<StaticHost>, names: seq<NameState>) returns (s: string)
    ensures s == HostsText(hosts, names)
  {
    var statics, dynamic := "", "";
    if hosts != [] {
      statics := RenderStatics(hosts);
      statics := Section(STATIC_TITLE, statics);
    }
    if names != [] {
      dynamic := RenderNames(names);
      dynamic := Section(DYNAMIC_TITLE, dynamic);
    }
    s := Head(BANNER_1, BANNER_2, LOCALHOST) + (statics + dynamic);
  }

  // ---- reading the file ----

  /** The line without its comment. */
  function Uncomment(line: string): string {
    if line == "" || line[0] == '#' then "" else [line[0]] + Uncomment(line[1..])
  }

  /** The (address, name) pairs one line publishes. */
  function LinePairs(line: string): set<(Addr, string)> {
    var ws := Words(Uncomment(line));
    if ws != [] && ParseIp(ws[0]).Some? then set w | w in ws[1..] :: (ParseIp(ws[0]).value, w) else {}
  }

  function PairsIn(lines: seq<string>): set<(Addr, string)> {
    if lines == [] then {} else LinePairs(lines[0]) + PairsIn(lines[1..])
  }

  /** Everything the file publishes. */
  function Published(text: string): set<(Addr, string)> {
    PairsIn(Lines(text))
  }

  lemma {:induction false} SplitConcat(a: string, b: string)
    ensures SplitOn(a + "\n" + b, '\n') == SplitOn(a, '\n') + SplitOn(b, '\n')
  {
    var s := a + "\n" + b;
    if a == "" {
      assert s[1..] == b;
    } else {
      assert s[1..] == a[1..] + "\n" + b;
      SplitConcat(a[1..], b);
    }
  }

  lemma {:induction false} PairsConcat(a: seq<string>, b: seq<string>)
    ensures PairsIn(a + b) == PairsIn(a) + PairsIn(b)
  {
    if a == [] {
      assert a + b == b;
    } else {
      assert (a + b)[1..] == a[1..] + b;
      PairsConcat(a[1..], b);
    }
  }

  /** A text that is empty or ends its last line. */
  ghost predicate Ended(a: string) {
    a == "" || a[|a| - 1] == '\n'
  }

  lemma EndedConcat(a: string, b: string)
    requires Ended(a) && Ended(b)
    ensures Ended(a + b)
  {}

  lemma LinesConcat(a: string, b: string)
    requires Ended(a)
    ensures Lines(a + b) == Lines(a) + Lines(b)
  {
    if a == "" {
      assert a + b == b;
    } else {
      var c := a[..|a| - 1];
      assert a == c + "\n" + "" && a + b == c + "\n" + b;
      SplitConcat(c, "");
      SplitConcat(c, b);
      DropLast(SplitOn(c, '\n'), [""]);
      DropLast(SplitOn(c, '\n'), SplitOn(b, '\n'));
    }
  }

  lemma DropLast(p: seq<string>, q: seq<string>)
    requires q != []
    ensures (p + q)[|p + q| - 1] == q[|q| - 1]
    ensures (p + q)[..|p + q| - 1] == p + q[..|q| - 1]
  {}

  lemma PublishedConcat(a: string, b: string)
    requires Ended(a)
    ensures Published(a + b) == Published(a) + Published(b)
  {
    LinesConcat(a, b);
    PairsConcat(Lines(a), Lines(b));
  }

  lemma PublishedLine(line: string)
    requires '\n' !in line
    ensures Published(line + "\n") == LinePairs(line)
  {
    LinesCons(line, "");
    assert line + "\n" + "" == line + "\n";
    assert [line] + Lines("") == [line];
    assert PairsIn([line]) == LinePairs(line) + PairsIn([]);
  }

  lemma {:induction false} UncommentNothing(line: string)
    requires '#' !in line
    ensures Uncomment(line) == line
  {
    if line != "" {
      UncommentNothing(line[1..]);
      assert line == [line[0]] + line[1..];
    }
  }

  lemma AddressLinePublishes(ip: Addr, name: string)
    requires IsHostname(name)
    ensures Published(AddressLine(ip, name)) == {(ip, name)}
  {
    var line := ShowIp(ip) + " " + name;
    ShowIpChars(ip);
    HostnameChars(name);
    HostnameIsWord(name);
    IpRoundTrip(ip);
    UncommentNothing(line);
    var ws := [ShowIp(ip), name];
    assert Join(ws, " ") == line;
    assert IsWord(ShowIp(ip));
    WordsOfJoin(ws);
    PublishedLine(line);
    assert ws[1..] == [name];
    assert (set w | w in [name] :: (ip, w)) == {(ip, name)};
  }

  lemma CommentLinePublishesNothing(line: string)
    requires '\n' !in line && line != "" && line[0] == '#'
    ensures Published(line + "\n") == {}
  {
    PublishedLine(line);
  }

  /** Every address of a list under one name. */
  function PairsUnder(addrs: seq<Addr>, name: string): set<(Addr, string)> {
    set ip | ip in addrs :: (ip, name)
  }

  lemma PairsUnderNext(addrs: seq<Addr>, ip: Addr, name: string)
    ensures PairsUnder(addrs + [ip], name) == PairsUnder(addrs, name) + {(ip, name)}
  {}

  /** The text publishes exactly the addresses of a list under one name. */
  ghost predicate PublishesUnder(text: string, addrs: seq<Addr>, name: string) {
    Ended(text) && Published(text) == PairsUnder(addrs, name)
  }

  lemma NothingPublished(name: string)
    ensures PublishesUnder("", [], name)
  {
    LinesEnd();
  }

  lemma AddressLineThen(text: string, more: string, addrs: seq<Addr>, ip: Addr, name: string)
    requires IsHostname(name) && more == text + AddressLine(ip, name) && PublishesUnder(text, addrs, name)
    ensures PublishesUnder(more, addrs + [ip], name)
  {
    AddressLinePublishes(ip, name);
    PublishedConcat(text, AddressLine(ip, name));
    PairsUnderNext(addrs, ip, name);
  }

  lemma {:induction false} AddressLinesPublish(addrs: seq<Addr>, name: string)
    requires IsHostname(name)
    ensures PublishesUnder(AddressLines(addrs, name), addrs, name)
  {
    if addrs == [] {
      NothingPublished(name);
      assert addrs == [];
    } else {
      var init, ip := addrs[..|addrs| - 1], addrs[|addrs| - 1];
      AddressLinesPublish(init, name);
      AddressLineThen(AddressLines(init, name), AddressLines(addrs, name), init, ip, name);
      assert addrs == init + [ip];
    }
  }

  lemma NameTextPublishes(n: NameState)
    requires IsHostname(n.name)
    ensures Ended(NameText(n))
    ensures Published(NameText(n)) == PairsUnder(n.addrs, n.name)
  {
    if n.addrs == [] {
      var line := "# " + n.name + ": no address (" + SourceText(n.source) + ")";
      HostnameChars(n.name);
      assert '\n' !in SourceText(n.source);
      assert '\n' !in "# " && '\n' !in ": no address (" && '\n' !in ")";
      CommentLinePublishesNothing(line);
      assert line + "\n" == NameText(n);
    } else {
      AddressLinesPublish(n.addrs, n.name);
    }
  }

  /** The pairs of a list of name states. */
  function PairsOf(names: seq<NameState>): set<(Addr, string)> {
    set n, ip | n in names && ip in n.addrs :: (ip, n.name)
  }

  lemma PairsOfNext(names: seq<NameState>, n: NameState)
    ensures PairsOf(names + [n]) == PairsOf(names) + PairsUnder(n.addrs, n.name)
  {
    assert forall x :: x in names + [n] <==> x in names || x == n;
  }

  lemma NameTextThen(text: string, names: seq<NameState>, n: NameState)
    requires IsHostname(n.name) && Ended(text) && Published(text) == PairsOf(names)
    ensures
      var more := text + NameText(n);
      Ended(more) && Published(more) == PairsOf(names + [n])
  {
    NameTextPublishes(n);
    PublishedConcat(text, NameText(n));
    EndedConcat(text, NameText(n));
    PairsOfNext(names, n);
  }

  lemma {:induction false} NameTextsPublish(names: seq<NameState>)
    requires forall n | n in names :: IsHostname(n.name)
    ensures Ended(NameTexts(names)) && Published(NameTexts(names)) == PairsOf(names)
  {
    if names == [] {
      LinesEnd();
    } else {
      var init, n := names[..|names| - 1], names[|names| - 1];
      assert names == init + [n];
      NameTextsPublish(init);
      NameTextThen(NameTexts(init), init, n);
    }
  }

  ghost predicate IsComment(line: string) {
    '\n' !in line && line != "" && line[0] == '#'
  }

  lemma CommentThen(line: string, body: string)
    requires IsComment(line)
    ensures Published((line + "\n") + body) == Published(body)
  {
    CommentLinePublishesNothing(line);
    PublishedConcat(line + "\n", body);
  }

  lemma BlankThen(body: string)
    ensures Published("\n" + body) == Published(body)
  {
    PublishedLine("");
    assert "" + "\n" == "\n";
    PublishedConcat("\n", body);
  }

  lemma SectionPublishes(title: string, body: string)
    requires IsComment(title)
    ensures Published(Section(title, body)) == Published(body)
  {
    var line := title + "\n";
    CommentThen(title, body);
    BlankThen(line + body);
    assert "\n" + line + body == "\n" + (line + body);
  }

  lemma HeadPublishes(banner1: string, banner2: string, localhost: string, body: string)
    requires IsComment(banner1) && IsComment(banner2) && '\n' !in localhost
    ensures Published(Head(banner1, banner2, localhost) + body) == LinePairs(localhost) + Published(body)
  {
    var l1, l2, l3 := banner1 + "\n", banner2 + "\n", localhost + "\n";
    assert l1 + (l2 + l3) + body == l1 + (l2 + (l3 + body));
    CommentThen(banner1, l2 + (l3 + body));
    CommentThen(banner2, l3 + body);
    PublishedLine(localhost);
    PublishedConcat(l3, body);
  }

  lemma CommentOfParts(a: string, b: string, c: string)
    requires '\n' !in a && '\n' !in b && '\n' !in c && a != "" && a[0] == '#'
    ensures IsComment(a + b + c)
  {}

  lemma Banner1()
    ensures IsComment(BANNER_1)
  {
    CommentOfParts("# Generated by egress-resolver ", "from the attested ", "endpoint list; do not edit.");
  }

  lemma Banner2()
    ensures IsComment(BANNER_2)
  {
    CommentOfParts("# Names below resolve only ", "to addresses currently ", "allowed by the host firewall.");
  }

  lemma FixedLines()
    ensures IsComment(DYNAMIC_TITLE) && '\n' !in LOCALHOST
  {}

  lemma {:induction false} StaticLinesEnded(hosts: seq<StaticHost>)
    ensures Ended(StaticLines(hosts))
  {}

  lemma StaticTextEnded(hosts: seq<StaticHost>)
    ensures Ended(StaticText(hosts))
  {
    StaticLinesEnded(hosts);
    if hosts != [] {
      var s := StaticText(hosts);
      assert StaticLines(hosts) != "";
      assert s[|s| - 1] == StaticLines(hosts)[|StaticLines(hosts)| - 1];
    }
  }

  lemma DynamicTextPublishes(names: seq<NameState>)
    requires forall n | n in names :: IsHostname(n.name)
    ensures Published(DynamicText(names)) == PairsOf(names)
  {
    NameTextsPublish(names);
    if names == [] {
      LinesEnd();
    } else {
      FixedLines();
      SectionPublishes(DYNAMIC_TITLE, NameTexts(names));
    }
  }

  /** A reader of the file learns localhost, the static entries, and exactly the
      addresses of the name states. */
  lemma HostsPublish(hosts: seq<StaticHost>, names: seq<NameState>)
    requires forall n | n in names :: IsHostname(n.name)
    ensures
      Published(HostsText(hosts, names)) ==
      LinePairs(LOCALHOST) + Published(StaticText(hosts)) + PairsOf(names)
  {
    Banner1();
    Banner2();
    FixedLines();
    HeadPublishes(BANNER_1, BANNER_2, LOCALHOST, StaticText(hosts) + DynamicText(names));
    StaticTextEnded(hosts);
    PublishedConcat(StaticText(hosts), DynamicText(names));
    DynamicTextPublishes(names);
  }
}
