/** The two runtime-populated chains as text: what `iptables -S` prints, how it
    is parsed, and the `iptables-restore` batch that replaces both chains. */
module Iptables {
  import opened Text
  import opened Address
  import opened Ordered
  import opened Config

  datatype RuleEntry = RuleEntry(ip: Addr, names: set<string>)

  /** The names each address stands for. */
  type AddrMap = map<Addr, set<string>>

  function NamesAt(m: AddrMap, ip: Addr): set<string> {
    if ip in m then m[ip] else {}
  }

  // ---- entries and maps ----

  function AddEntry(m: AddrMap, e: RuleEntry): AddrMap {
    m[e.ip := NamesAt(m, e.ip) + e.names]
  }

  function MapOf(entries: seq<RuleEntry>): AddrMap {
    if entries == [] then map[] else AddEntry(MapOf(entries[..|entries| - 1]), entries[|entries| - 1])
  }

  method EntriesToMap(entries: seq<RuleEntry>) returns (m: AddrMap)
    ensures m == MapOf(entries)
  {
    m := map[];
    for i := 0 to |entries|
      invariant m == MapOf(entries[..i])
    {
      assert entries[..i + 1][..i] == entries[..i];
      m := AddEntry(m, entries[i]);
    }
    assert entries[..|entries|] == entries;
  }

  /** One entry per address of a map, in address order. */
  function EntriesOf(m: AddrMap): (entries: seq<RuleEntry>)
    ensures |entries| == |m.Keys|
  {
    var keys := SortedAddrs(m.Keys);
    seq(|keys|, i requires 0 <= i < |keys| => assert keys[i] in keys; RuleEntry(keys[i], m[keys[i]]))
  }

  // ---- tokens of a rule ----

  /** Tokens of the rest of a rule: `cur` is the token read so far, `have`
      whether there is one. */
  function Scan(s: string, inQuote: bool, cur: string, have: bool): seq<string>
    decreases |s|
  {
    if s == "" then if have then [cur] else []
    else if s[0] == '"' then Scan(s[1..], !inQuote, cur, true)
    else if s[0] == '\\' && inQuote then
      if |s| > 1 then Scan(s[2..], inQuote, cur + [s[1]], true) else Scan("", inQuote, cur, have)
    else if IsSpace(s[0]) && !inQuote then
      if have then [cur] + Scan(s[1..], inQuote, "", false) else Scan(s[1..], inQuote, cur, have)
    else Scan(s[1..], inQuote, cur + [s[0]], true)
  }

  function Tokens(s: string): seq<string> {
    Scan(s, false, "", false)
  }

  method Tokenize(s: string) returns (out: seq<string>)
    ensures out == Tokens(s)
  {
    out := [];
    var cur, inQuote, have, i := "", false, false, 0;
    while i < |s|
      invariant 0 <= i <= |s|
      invariant out + Scan(s[i..], inQuote, cur, have) == Tokens(s)
    {
      var c := s[i];
      i := i + 1;
      if c == '"' {
        inQuote, have := !inQuote, true;
      } else if c == '\\' && inQuote {
        if i < |s| {
          cur, have, i := cur + [s[i]], true, i + 1;
        }
      } else if IsSpace(c) && !inQuote {
        if have {
          out, cur, have := out + [cur], "", false;
        }
      } else {
        cur, have := cur + [c], true;
      }
    }
    if have {
      out := out + [cur];
    }
  }

  // ---- rules of a chain ----

  function RulePrefix(chain: string): string {
    "-A " + chain + " "
  }

  /** What follows the chain name on each rule line of the chain. */
  function SpecsIn(lines: seq<string>, chain: string): seq<string> {
    if lines == [] then []
    else
      match StripPrefix(Trim(lines[0]), RulePrefix(chain))
      case Some(spec) => [spec] + SpecsIn(lines[1..], chain)
      case None => SpecsIn(lines[1..], chain)
  }

  function RuleSpecs(text: string, chain: string): seq<string> {
    SpecsIn(Lines(text), chain)
  }

  /** Destination (the last `-d`, if it is an address) and names (all comments)
      of a token list, added to what was found before it. */
  function ParseTokens(toks: seq<string>, ip: Option<Addr>, names: set<string>): (Option<Addr>, set<string>) {
    if toks == [] then (ip, names)
    else if toks[0] == "-d" && |toks| > 1 then
      ParseTokens(toks[2..], ParseIp(SplitOn(toks[1], '/')[0]), names)
    else if toks[0] == "--comment" && |toks| > 1 then
      ParseTokens(toks[2..], ip, names + NameSet(Words(toks[1])))
    else ParseTokens(toks[1..], ip, names)
  }

  function ParseRule(toks: seq<string>): Option<RuleEntry> {
    var (ip, names) := ParseTokens(toks, None, {});
    if ip.Some? then Some(RuleEntry(ip.value, names)) else None
  }

  /** The entries of the rules that have a destination address. */
  function EntriesIn(specs: seq<string>): seq<RuleEntry> {
    if specs == [] then []
    else
      match ParseRule(Tokens(specs[0]))
      case Some(e) => [e] + EntriesIn(specs[1..])
      case None => EntriesIn(specs[1..])
  }

  function ParsedChain(text: string, chain: string): seq<RuleEntry> {
    EntriesIn(RuleSpecs(text, chain))
  }

  method ParseSpec(spec: string) returns (entry: Option<RuleEntry>)
    ensures entry == ParseRule(Tokens(spec))
  {
    var toks := Tokenize(spec);
    var ip: Option<Addr> := None;
    var names: set<string> := {};
    var i := 0;
    while i < |toks|
      invariant 0 <= i <= |toks|
      invariant ParseTokens(toks[i..], ip, names) == ParseTokens(toks, None, {})
    {
      if toks[i] == "-d" && i + 1 < |toks| {
        assert toks[i..][2..] == toks[i + 2..];
        ip := ParseIp(SplitOn(toks[i + 1], '/')[0]);
        i := i + 2;
      } else if toks[i] == "--comment" && i + 1 < |toks| {
        assert toks[i..][2..] == toks[i + 2..];
        names := names + NameSet(Words(toks[i + 1]));
        i := i + 2;
      } else {
        assert toks[i..][1..] == toks[i + 1..];
        i := i + 1;
      }
    }
    return if ip.Some? then Some(RuleEntry(ip.value, names)) else None;
  }

  method ParseChain(text: string, chain: string) returns (entries: seq<RuleEntry>)
    ensures entries == ParsedChain(text, chain)
  {
    var lines := Lines(text);
    entries := [];
    for i := 0 to |lines|
      invariant entries + EntriesIn(SpecsIn(lines[i..], chain)) == ParsedChain(text, chain)
    {
      assert lines[i..][1..] == lines[i + 1..];
      match StripPrefix(Trim(lines[i]), RulePrefix(chain))
      case Some(spec) =>
        ghost var rest := SpecsIn(lines[i + 1..], chain);
        assert ([spec] + rest)[1..] == rest;
        var entry := ParseSpec(spec);
        if entry.Some? {
          entries := entries + [entry.value];
        }
      case None =>
    }
  }

  function CountIn(lines: seq<string>, chain: string): nat {
    if lines == [] then 0
    else (if RulePrefix(chain) <= Trim(lines[0]) then 1 else 0) + CountIn(lines[1..], chain)
  }

  function CountRules(text: string, chain: string): nat {
    CountIn(Lines(text), chain)
  }

  /** What one listing of a chain says: the rules that parse, and how many rule
      lines there are. */
  datatype ChainRead = ChainRead(entries: seq<RuleEntry>, ruleLines: nat) {
    /** Anything but exactly one rule per address. */
    predicate IsDirty() {
      ruleLines != |entries| || |MapOf(entries)| != |entries|
    }
  }

  function ReadOf(text: string, chain: string): ChainRead {
    ChainRead(ParsedChain(text, chain), CountRules(text, chain))
  }

  // ---- comments ----

  function Utf8Width(c: char): (w: nat)
    ensures 1 <= w <= 4
  {
    var n := c as int;
    if n < 0x80 then 1 else if n < 0x800 then 2 else if n < 0x10000 then 3 else 4
  }

  function ByteLength(s: string): nat {
    if s == "" then 0 else Utf8Width(s[0]) + ByteLength(s[1..])
  }

  predicate IsCharBoundary(s: string, n: nat) {
    n == 0 || (s != "" && n >= Utf8Width(s[0]) && IsCharBoundary(s[1..], n - Utf8Width(s[0])))
  }

  /** The longest prefix of at most `n` bytes. */
  function CutBytes(s: string, n: nat): string {
    if s == "" || Utf8Width(s[0]) > n then "" else [s[0]] + CutBytes(s[1..], n - Utf8Width(s[0]))
  }

  /** The text before the last space, or all of it. */
  function BeforeLastSpace(s: string): string {
    if ' ' !in s then s
    else if s[|s| - 1] == ' ' then s[..|s| - 1]
    else BeforeLastSpace(s[..|s| - 1])
  }

  function CommentOf(names: set<string>): string {
    var c := Join(SortedNames(names), " ");
    if ByteLength(c) > MAX_COMMENT_LEN then BeforeLastSpace(CutBytes(c, MAX_COMMENT_LEN)) else c
  }

  lemma {:induction false} CutInsideChar(s: string, n: nat)
    requires n > 0 && !IsCharBoundary(s, n)
    ensures CutBytes(s, n) == CutBytes(s, n - 1)
  {
    if s != "" && Utf8Width(s[0]) < n {
      CutInsideChar(s[1..], n - Utf8Width(s[0]));
    }
  }

  method Comment(names: set<string>) returns (c: string)
    ensures c == CommentOf(names)
  {
    c := Join(SortedNames(names), " ");
    if ByteLength(c) > MAX_COMMENT_LEN {
      var cut: nat := MAX_COMMENT_LEN;
      while cut > 0 && !IsCharBoundary(c, cut)
        invariant CutBytes(c, cut) == CutBytes(c, MAX_COMMENT_LEN)
      {
        CutInsideChar(c, cut);
        cut := cut - 1;
      }
      c := CutBytes(c, cut);
      c := BeforeLastSpace(c);
    }
  }

  // ---- the restore batch ----

  datatype Target = Accept(port: nat) | Drop

  /** The words of a rule after the chain name; `tcp` adds the implicit match
      that the kernel lists after `-p tcp`. */
  function RuleWords(target: Target, ip: Addr, comment: string, tcp: bool): seq<string> {
    WordsBefore(ShowIp(ip) + "/32", MatchWords(target, tcp)) + [comment] + JumpWords(target)
  }

  function WordsBefore(destination: string, matching: seq<string>): seq<string> {
    ["-d", destination] + matching + ["--comment"]
  }

  function JumpWords(target: Target): seq<string> {
    ["-j", if target.Accept? then "ACCEPT" else "DROP"]
  }

  function MatchWords(target: Target, tcp: bool): seq<string> {
    (match target
     case Accept(port) =>
       ["-p", "tcp"] + (if tcp then ["-m", "tcp"] else []) +
       ["--dport", Dec(port), "-m", "conntrack", "--ctstate", "NEW"]
     case Drop => [])
    + ["-m", "comment"]
  }

  function QuotedRaw(comment: string): string {
    "\"" + comment + "\""
  }

  function RuleText(target: Target, ip: Addr, names: set<string>): string {
    Join(RuleWords(target, ip, QuotedRaw(CommentOf(names)), false), " ")
  }

  /** The rule texts of a map, in address order. */
  function RuleTexts(target: Target, m: AddrMap): seq<string> {
    var entries := EntriesOf(m);
    seq(|entries|, i requires 0 <= i < |entries| => RuleText(target, entries[i].ip, entries[i].names))
  }

  function RuleLines(chain: string, specs: seq<string>): (lines: seq<string>)
    ensures |lines| == |specs|
  {
    seq(|specs|, i requires 0 <= i < |specs| => RulePrefix(chain) + specs[i])
  }

  function Unlines(lines: seq<string>): string {
    if lines == [] then "" else Unlines(lines[..|lines| - 1]) + lines[|lines| - 1] + "\n"
  }

  function BatchHead(fw: Firewall): seq<string> {
    ["*filter", ":" + fw.production + " - [0:0]", ":" + fw.maintenance + " - [0:0]"]
  }

  function BatchOf(fw: Firewall, production: AddrMap, maintenance: AddrMap): string {
    Unlines(BatchHead(fw)
            + RuleLines(fw.production, RuleTexts(Accept(fw.port), production))
            + RuleLines(fw.maintenance, RuleTexts(Drop, maintenance))
            + ["COMMIT"])
  }

  lemma UnlinesSnoc(lines: seq<string>, line: string)
    ensures Unlines(lines + [line]) == Unlines(lines) + line + "\n"
  {
    assert (lines + [line])[..|lines|] == lines;
  }

  method RenderRule(target: Target, ip: Addr, names: set<string>) returns (rule: string)
    ensures rule == RuleText(target, ip, names)
  {
    var c := Comment(names);
    rule := Join(RuleWords(target, ip, QuotedRaw(c), false), " ");
  }

  lemma RuleLineAt(chain: string, target: Target, m: AddrMap, i: nat)
    requires i < |m.Keys|
    ensures
      var keys := SortedAddrs(m.Keys);
      keys[i] in m && |RuleTexts(target, m)| == |keys| &&
      RuleLines(chain, RuleTexts(target, m))[i] == RulePrefix(chain) + RuleText(target, keys[i], m[keys[i]])
  {
    var keys := SortedAddrs(m.Keys);
    assert keys[i] in keys;
  }

  lemma UnlinesNext(before: seq<string>, lines: seq<string>, i: nat)
    requires i < |lines|
    ensures Unlines(before + lines[..i + 1]) == Unlines(before + lines[..i]) + lines[i] + "\n"
  {
    UnlinesSnoc(before + lines[..i], lines[i]);
    assert before + lines[..i] + [lines[i]] == before + lines[..i + 1];
  }

  /** Append the rule lines of one chain. */
  method PushRules(text: string, ghost before: seq<string>, ghost lines: seq<string>,
                   chain: string, target: Target, m: AddrMap)
    returns (s: string)
    requires text == Unlines(before)
    requires lines == RuleLines(chain, RuleTexts(target, m))
    ensures s == Unlines(before + lines)
  {
    var keys := SortedAddrs(m.Keys);
    s := text;
    assert before + lines[..0] == before;
    for i := 0 to |keys|
      invariant s == Unlines(before + lines[..i])
    {
      RuleLineAt(chain, target, m, i);
      UnlinesNext(before, lines, i);
      var rule := RenderRule(target, keys[i], m[keys[i]]);
      s := s + (RulePrefix(chain) + rule) + "\n";
    }
    assert lines[..|keys|] == lines;
  }

  method RenderHead(fw: Firewall) returns (s: string)
    ensures s == Unlines(BatchHead(fw))
  {
    var head := BatchHead(fw);
    s := "*filter" + "\n";
    s := s + (":" + fw.production + " - [0:0]") + "\n";
    s := s + (":" + fw.maintenance + " - [0:0]") + "\n";
    UnlinesNext([], head, 0);
    UnlinesNext([], head, 1);
    UnlinesNext([], head, 2);
    assert [] + head[..0] == [] && [] + head[..3] == head;
  }

  method RenderRestore(fw: Firewall, production: AddrMap, maintenance: AddrMap) returns (s: string)
    ensures s == BatchOf(fw, production, maintenance)
  {
    s := RenderHead(fw);
    ghost var lines := BatchHead(fw);
    ghost var rules := RuleLines(fw.production, RuleTexts(Accept(fw.port), production));
    s := PushRules(s, lines, rules, fw.production, Accept(fw.port), production);
    lines, rules := lines + rules, RuleLines(fw.maintenance, RuleTexts(Drop, maintenance));
    s := PushRules(s, lines, rules, fw.maintenance, Drop, maintenance);
    UnlinesSnoc(lines + rules, "COMMIT");
    s := s + "COMMIT" + "\n";
  }
}
