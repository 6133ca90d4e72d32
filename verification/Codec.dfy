/** Parsing undoes rendering, also after the kernel has re-listed the rules. */
module Codec {
  import opened Text
  import opened Address
  import opened Ordered
  import opened Config
  import opened Iptables
  import opened Comments

  // ---- tokens ----

  /** A text the tokenizer takes as it is. */
  ghost predicate IsBare(s: string) {
    s != "" && forall i | 0 <= i < |s| :: !IsSpace(s[i]) && s[i] != '"'
  }

  /** `text` shows the token: bare, or quoted with escapes. */
  ghost predicate ShownAs(text: string, token: string) {
    || (text == token && IsBare(token))
    || exists also :: text == "\"" + Escape(token, also) + "\""
  }

  lemma {:induction false} ScanBare(w: string, rest: string, cur: string, have: bool)
    requires forall i | 0 <= i < |w| :: !IsSpace(w[i]) && w[i] != '"'
    ensures Scan(w + rest, false, cur, have) == Scan(rest, false, cur + w, have || w != "")
  {
    if w == "" {
      assert w + rest == rest && cur + w == cur;
    } else {
      assert (w + rest)[1..] == w[1..] + rest;
      ScanBare(w[1..], rest, cur + [w[0]], true);
      assert cur + [w[0]] + w[1..] == cur + w;
    }
  }

  /** A character of the token as the text shows it. */
  function EscapeChar(c: char, also: set<char>): string {
    if c == '"' || c == '\\' || c in also then ['\\', c] else [c]
  }

  /** `t` with a backslash before every quote, every backslash and every
      character of `also`. */
  function Escape(t: string, also: set<char>): string {
    if t == "" then "" else EscapeChar(t[0], also) + Escape(t[1..], also)
  }

  lemma ScanEscapedChar(c: char, also: set<char>, rest: string, cur: string)
    ensures Scan(EscapeChar(c, also) + rest, true, cur, true) == Scan(rest, true, cur + [c], true)
  {
    var e := EscapeChar(c, also);
    assert (e + rest)[|e|..] == rest;
    assert (e + rest)[0] == e[0] && (|e| == 2 ==> (e + rest)[1] == c);
  }

  lemma {:induction false} ScanEscaped(t: string, also: set<char>, rest: string, cur: string)
    ensures Scan(Escape(t, also) + rest, true, cur, true) == Scan(rest, true, cur + t, true)
  {
    if t == "" {
      assert "" + rest == rest && cur + t == cur;
    } else {
      var more := Escape(t[1..], also);
      assert Escape(t, also) + rest == EscapeChar(t[0], also) + (more + rest);
      ScanEscapedChar(t[0], also, more + rest, cur);
      ScanEscaped(t[1..], also, rest, cur + [t[0]]);
      assert cur + [t[0]] + t[1..] == cur + t;
    }
  }

  lemma ScanShown(text: string, token: string, rest: string)
    requires ShownAs(text, token)
    ensures Scan(text + rest, false, "", false) == Scan(rest, false, token, true)
  {
    if text == token && IsBare(token) {
      ScanBare(token, rest, "", false);
      assert "" + token == token;
    } else {
      var also :| text == "\"" + Escape(token, also) + "\"";
      var e := Escape(token, also);
      assert (text + rest)[1..] == e + ("\"" + rest);
      ScanEscaped(token, also, "\"" + rest, "");
      assert "" + token == token && ("\"" + rest)[1..] == rest;
    }
  }

  /** Tokenizing undoes showing, whatever the tokens contain: every token may
      be bare or quoted, with any choice of extra escapes. */
  lemma {:induction false} TokensOfTexts(texts: seq<string>, toks: seq<string>)
    requires |texts| == |toks|
    requires forall i | 0 <= i < |toks| :: ShownAs(texts[i], toks[i])
    ensures Tokens(Join(texts, " ")) == toks
  {
    if |toks| == 1 {
      ScanShown(texts[0], toks[0], "");
      assert texts[0] + "" == texts[0];
    } else if |toks| > 1 {
      var more := Join(texts[1..], " ");
      TokensOfTexts(texts[1..], toks[1..]);
      ScanShown(texts[0], toks[0], " " + more);
      assert texts[0] + " " + more == texts[0] + (" " + more);
      assert (" " + more)[1..] == more;
    }
  }

  // ---- rule words ----

  lemma DigitsAreBare(s: string)
    requires s != "" && forall c | c in s :: IsDigit(c) || c == '.' || c == '/'
    ensures IsBare(s)
  {
    forall i | 0 <= i < |s| ensures !IsSpace(s[i]) && s[i] != '"' {
      assert s[i] in s;
    }
  }

  lemma {:induction false} JoinedDigits(ws: seq<string>)
    requires forall w | w in ws :: forall c | c in w :: IsDigit(c)
    ensures forall c | c in Join(ws, ".") :: IsDigit(c) || c == '.'
  {
    if ws != [] {
      assert ws[0] in ws && forall w | w in ws[1..] :: w in ws;
      JoinedDigits(ws[1..]);
    }
  }

  lemma ShowIpChars(ip: Addr)
    ensures ShowIp(ip) != "" && forall c | c in ShowIp(ip) :: IsDigit(c) || c == '.'
  {
    var o := Octets(ip);
    JoinedDigits([Dec(o[0]), Dec(o[1]), Dec(o[2]), Dec(o[3])]);
  }

  lemma DestinationBare(ip: Addr)
    ensures IsBare(ShowIp(ip) + "/32")
    ensures SplitOn(ShowIp(ip) + "/32", '/')[0] == ShowIp(ip)
  {
    ShowIpChars(ip);
    DigitsAreBare(ShowIp(ip) + "/32");
    SplitPiece(ShowIp(ip), '/', "32");
    assert ShowIp(ip) + "/32" == ShowIp(ip) + "/" + "32";
  }

  ghost predicate Neutral(ws: seq<string>) {
    forall w | w in ws :: IsBare(w) && w != "-d" && w != "--comment"
  }

  lemma NeutralConcat(a: seq<string>, b: seq<string>)
    requires Neutral(a) && Neutral(b)
    ensures Neutral(a + b)
  {}

  lemma TcpWordsNeutral(tcp: bool)
    ensures Neutral(["-p", "tcp"] + (if tcp then ["-m", "tcp"] else []))
  {
    assert IsBare("-p") && IsBare("tcp") && IsBare("-m");
  }

  lemma PortWordsNeutral(port: string)
    requires IsBare(port) && port[0] != '-'
    ensures Neutral(["--dport", port, "-m", "conntrack", "--ctstate", "NEW"])
  {
    assert IsBare("--dport") && IsBare("-m") && IsBare("conntrack") && IsBare("--ctstate") && IsBare("NEW");
  }

  lemma MatchWordsNeutral(target: Target, tcp: bool)
    ensures Neutral(MatchWords(target, tcp))
  {
    assert IsBare("-m") && IsBare("comment");
    assert Neutral(["-m", "comment"]);
    if target.Accept? {
      var port := Dec(target.port);
      DigitsAreBare(port);
      assert IsDigit(port[0]);
      TcpWordsNeutral(tcp);
      PortWordsNeutral(port);
      var a := ["-p", "tcp"] + (if tcp then ["-m", "tcp"] else []);
      var b := ["--dport", port, "-m", "conntrack", "--ctstate", "NEW"];
      NeutralConcat(a, b);
      NeutralConcat(a + b, ["-m", "comment"]);
      assert MatchWords(target, tcp) == a + b + ["-m", "comment"];
    } else {
      assert MatchWords(target, tcp) == ["-m", "comment"];
    }
  }

  lemma JumpWordsNeutral(target: Target)
    ensures Neutral(JumpWords(target))
  {
    assert IsBare("-j") && IsBare("ACCEPT") && IsBare("DROP");
  }

  lemma TokensAround(pre: seq<string>, shown: string, token: string, post: seq<string>)
    requires ShownAs(shown, token)
    requires forall w | w in pre :: IsBare(w)
    requires forall w | w in post :: IsBare(w)
    ensures Tokens(Join(pre + [shown] + post, " ")) == pre + [token] + post
  {
    var texts, toks := pre + [shown] + post, pre + [token] + post;
    forall i | 0 <= i < |toks| ensures ShownAs(texts[i], toks[i]) {
      if i < |pre| {
        assert texts[i] == toks[i] == pre[i];
      } else if i > |pre| {
        assert texts[i] == toks[i] == post[i - |pre| - 1];
      }
    }
    TokensOfTexts(texts, toks);
  }

  /** The words of a rule are read back with its comment, however the comment
      is shown. */
  lemma TokensOfRule(target: Target, ip: Addr, shown: string, comment: string, tcp: bool)
    requires ShownAs(shown, comment)
    ensures Tokens(Join(RuleWords(target, ip, shown, tcp), " ")) == RuleWords(target, ip, comment, tcp)
  {
    var dst, mid := ShowIp(ip) + "/32", MatchWords(target, tcp);
    DestinationBare(ip);
    MatchWordsNeutral(target, tcp);
    JumpWordsNeutral(target);
    BareBefore(dst, mid);
    TokensAround(WordsBefore(dst, mid), shown, comment, JumpWords(target));
  }

  lemma BareBefore(dst: string, mid: seq<string>)
    requires IsBare(dst) && Neutral(mid)
    ensures forall w | w in WordsBefore(dst, mid) :: IsBare(w)
  {
    assert IsBare("-d") && IsBare("--comment");
  }

  lemma {:induction false} ParseSkips(pre: seq<string>, rest: seq<string>, ip: Option<Addr>, names: set<string>)
    requires Neutral(pre)
    ensures ParseTokens(pre + rest, ip, names) == ParseTokens(rest, ip, names)
  {
    if pre == [] {
      assert pre + rest == rest;
    } else {
      assert pre[0] in pre && forall w | w in pre[1..] :: w in pre;
      assert (pre + rest)[1..] == pre[1..] + rest;
      ParseSkips(pre[1..], rest, ip, names);
    }
  }

  lemma ParseShape(dst: string, mid: seq<string>, comment: string, tail: seq<string>)
    requires Neutral(mid) && Neutral(tail)
    ensures
      ParseTokens(WordsBefore(dst, mid) + [comment] + tail, None, {}) ==
      (ParseIp(SplitOn(dst, '/')[0]), NameSet(Words(comment)))
  {
    var rest := ["--comment", comment] + tail;
    var ip, names := ParseIp(SplitOn(dst, '/')[0]), NameSet(Words(comment));
    var all := WordsBefore(dst, mid) + [comment] + tail;
    assert all[2..] == mid + rest;
    assert ParseTokens(all, None, {}) == ParseTokens(mid + rest, ip, {});
    ParseSkips(mid, rest, ip, {});
    assert rest[2..] == tail && tail + [] == tail;
    assert {} + names == names;
    assert ParseTokens(rest, ip, {}) == ParseTokens(tail, ip, names);
    ParseSkips(tail, [], ip, names);
  }

  lemma ParseRuleWords(target: Target, ip: Addr, comment: string, tcp: bool)
    ensures ParseRule(RuleWords(target, ip, comment, tcp)) == Some(RuleEntry(ip, NameSet(Words(comment))))
  {
    var dst, mid := ShowIp(ip) + "/32", MatchWords(target, tcp);
    DestinationBare(ip);
    IpRoundTrip(ip);
    MatchWordsNeutral(target, tcp);
    JumpWordsNeutral(target);
    ParseShape(dst, mid, comment, JumpWords(target));
  }

  lemma ParseOption(option: string, value: string, rest: seq<string>, ip: Option<Addr>, names: set<string>)
    requires option == "-d" || option == "--comment"
    ensures
      ParseTokens([option, value] + rest, ip, names) ==
      if option == "-d" then ParseTokens(rest, ParseIp(SplitOn(value, '/')[0]), names)
      else ParseTokens(rest, ip, names + NameSet(Words(value)))
  {
    assert ([option, value] + rest)[2..] == rest;
  }

  /** Of several destinations in a rule the last counts, even if it is no address; of
      several comments all do. */
  lemma RepeatedOptions(a: string, b: string, mid: seq<string>, tail: seq<string>)
    requires Neutral(mid) && Neutral(tail)
    ensures
      ParseTokens(["-d", a] + (mid + (["-d", b] + tail)), None, {}) == (ParseIp(SplitOn(b, '/')[0]), {})
    ensures
      ParseTokens(["--comment", a] + (mid + (["--comment", b] + tail)), None, {}) ==
      (None, NameSet(Words(a)) + NameSet(Words(b)))
  {
    var first, last := ParseIp(SplitOn(a, '/')[0]), ParseIp(SplitOn(b, '/')[0]);
    var names, more := {} + NameSet(Words(a)), NameSet(Words(b));
    assert tail + [] == tail;
    ParseOption("-d", a, mid + (["-d", b] + tail), None, {});
    ParseSkips(mid, ["-d", b] + tail, first, {});
    ParseOption("-d", b, tail, first, {});
    ParseSkips(tail, [], last, {});
    ParseOption("--comment", a, mid + (["--comment", b] + tail), None, {});
    ParseSkips(mid, ["--comment", b] + tail, None, names);
    ParseOption("--comment", b, tail, None, names);
    ParseSkips(tail, [], None, names + more);
    assert names + more == NameSet(Words(a)) + more;
  }

  // ---- lines ----

  lemma Regroup(a: string, b: string, c: string)
    ensures (a + "\n" + b) + c + "\n" == a + "\n" + (b + c + "\n")
  {}

  lemma {:induction false} UnlinesCons(line: string, rest: seq<string>)
    ensures Unlines([line] + rest) == line + "\n" + Unlines(rest)
  {
    if rest == [] {
      UnlinesSnoc([], line);
      assert [] + [line] == [line] + rest;
    } else {
      var init, last := rest[..|rest| - 1], rest[|rest| - 1];
      UnlinesCons(line, init);
      UnlinesSnoc([line] + init, last);
      assert [line] + init + [last] == [line] + rest;
      Regroup(line, Unlines(init), last);
    }
  }

  lemma {:induction false} LinesOfUnlines(lines: seq<string>)
    requires forall l | l in lines :: '\n' !in l
    ensures Lines(Unlines(lines)) == lines
  {
    if lines != [] {
      assert lines == [lines[0]] + lines[1..];
      LinesOfUnlines(lines[1..]);
      UnlinesCons(lines[0], lines[1..]);
      LinesCons(lines[0], Unlines(lines[1..]));
    }
  }

  lemma {:induction false} SpecsInConcat(a: seq<string>, b: seq<string>, chain: string)
    ensures SpecsIn(a + b, chain) == SpecsIn(a, chain) + SpecsIn(b, chain)
  {
    if a == [] {
      assert a + b == b;
    } else {
      assert (a + b)[1..] == a[1..] + b;
      SpecsInConcat(a[1..], b, chain);
    }
  }

  /** A rule text that survives being put on a line. */
  ghost predicate IsSpec(s: string) {
    s != "" && !IsSpace(s[|s| - 1]) && '\n' !in s
  }

  lemma ChainChars(chain: string)
    requires IsChainName(chain)
    ensures forall i | 0 <= i < |chain| :: chain[i] != ' ' && chain[i] != '\n'
  {
    forall i | 0 <= i < |chain| ensures chain[i] != ' ' && chain[i] != '\n' {
      assert chain[i] in chain;
    }
  }

  /** The prefix of one chain matches no rule of another chain, even when one
      name starts with the other. */
  lemma PrefixIsExact(chain: string, other: string, spec: string)
    requires IsChainName(chain) && IsChainName(other)
    ensures RulePrefix(chain) <= RulePrefix(other) + spec ==> chain == other
  {
    ChainChars(chain);
    ChainChars(other);
    var line := RulePrefix(other) + spec;
    assert forall i | 0 <= i < |other| :: line[3 + i] == other[i];
    assert line[3 + |other|] == ' ';
    if RulePrefix(chain) <= line {
      var n, m := |chain|, |other|;
      assert forall i | 0 <= i < n :: line[3 + i] == RulePrefix(chain)[3 + i] == chain[i];
      assert line[3 + n] == RulePrefix(chain)[3 + n] == ' ';
      assert n == m;
      assert forall i | 0 <= i < n :: chain[i] == other[i];
    }
  }

  lemma SpecOfLine(chain: string, other: string, spec: string)
    requires IsChainName(chain) && IsChainName(other) && IsSpec(spec)
    ensures StripPrefix(Trim(RulePrefix(other) + spec), RulePrefix(chain)) ==
      if chain == other then Some(spec) else None
  {
    TrimNoop(RulePrefix(other) + spec);
    PrefixIsExact(chain, other, spec);
    assert (RulePrefix(other) + spec)[|RulePrefix(other)|..] == spec;
  }

  lemma {:induction false} SpecsOfRuleLines(chain: string, other: string, specs: seq<string>)
    requires IsChainName(chain) && IsChainName(other)
    requires forall s | s in specs :: IsSpec(s)
    ensures SpecsIn(RuleLines(other, specs), chain) == if chain == other then specs else []
  {
    if specs != [] {
      SpecOfLine(chain, other, specs[0]);
      assert forall s | s in specs[1..] :: s in specs;
      SpecsOfRuleLines(chain, other, specs[1..]);
      assert RuleLines(other, specs)[1..] == RuleLines(other, specs[1..]);
    }
  }

  lemma LineWithoutNewline(chain: string, spec: string)
    requires IsChainName(chain) && IsSpec(spec)
    ensures '\n' !in RulePrefix(chain) + spec
  {
    var line := RulePrefix(chain) + spec;
    ChainChars(chain);
    forall j | 0 <= j < |line| ensures line[j] != '\n' {
      if j >= |chain| + 4 {
        assert line[j] == spec[j - |chain| - 4] && line[j] in spec;
      } else if 3 <= j < |chain| + 3 {
        assert line[j] == chain[j - 3];
      }
    }
  }

  lemma LinesWithoutNewline(chain: string, specs: seq<string>)
    requires IsChainName(chain) && forall s | s in specs :: IsSpec(s)
    ensures forall l | l in RuleLines(chain, specs) :: '\n' !in l
  {
    var lines := RuleLines(chain, specs);
    forall l | l in lines ensures '\n' !in l {
      var i :| 0 <= i < |lines| && lines[i] == l;
      assert specs[i] in specs;
      LineWithoutNewline(chain, specs[i]);
    }
  }

  lemma OtherLine(line: string, chain: string)
    requires line != "" && !IsSpace(line[0]) && !IsSpace(line[|line| - 1])
    requires line[0] != '-' || (|line| > 1 && line[1] != 'A')
    ensures SpecsIn([line], chain) == []
  {
    TrimNoop(line);
    assert RulePrefix(chain)[0] == '-' && RulePrefix(chain)[1] == 'A';
  }

  lemma SpecsAmong(head: seq<string>, la: seq<string>, lb: seq<string>, tail: seq<string>, chain: string,
                   a: seq<string>, b: seq<string>)
    requires SpecsIn(head, chain) == SpecsIn(tail, chain) == []
    requires SpecsIn(la, chain) == a && SpecsIn(lb, chain) == b
    ensures SpecsIn(head + la + lb + tail, chain) == a + b
  {
    SpecsInConcat(head + la + lb, tail, chain);
    SpecsInConcat(head + la, lb, chain);
    SpecsInConcat(head, la, chain);
    assert [] + a + b + [] == a + b;
  }

  /** The rules of a text made of any head, the rule lines of two different
      chains, and any tail. */
  lemma SpecsOfTwoChains(head: seq<string>, a: string, specsA: seq<string>,
      b: string, specsB: seq<string>, tail: seq<string>)
    requires IsChainName(a) && IsChainName(b) && a != b
    requires forall s | s in specsA :: IsSpec(s)
    requires forall s | s in specsB :: IsSpec(s)
    requires forall l | l in head :: '\n' !in l
    requires forall l | l in tail :: '\n' !in l
    requires SpecsIn(head, a) == SpecsIn(head, b) == SpecsIn(tail, a) == SpecsIn(tail, b) == []
    ensures
      var text := Unlines(head + RuleLines(a, specsA) + RuleLines(b, specsB) + tail);
      RuleSpecs(text, a) == specsA && RuleSpecs(text, b) == specsB
  {
    var la, lb := RuleLines(a, specsA), RuleLines(b, specsB);
    LinesWithoutNewline(a, specsA);
    LinesWithoutNewline(b, specsB);
    LinesOfUnlines(head + la + lb + tail);
    SpecsOfRuleLines(a, a, specsA);
    SpecsOfRuleLines(a, b, specsB);
    SpecsOfRuleLines(b, a, specsA);
    SpecsOfRuleLines(b, b, specsB);
    SpecsAmong(head, la, lb, tail, a, specsA, []);
    SpecsAmong(head, la, lb, tail, b, [], specsB);
  }

  // ---- rendered chains ----

  /** A map all of whose comments are lossless. */
  ghost predicate MapFits(m: AddrMap) {
    forall ip | ip in m :: Fits(m[ip])
  }

  /** A map of hostnames, however many. */
  ghost predicate MapOfHosts(m: AddrMap) {
    forall ip | ip in m :: Hostnames(m[ip])
  }

  lemma {:induction false} JoinLast(ws: seq<string>)
    requires ws != [] && ws[|ws| - 1] != ""
    ensures
      var s, w := Join(ws, " "), ws[|ws| - 1];
      s != "" && s[|s| - 1] == w[|w| - 1]
  {
    if |ws| > 1 {
      JoinLast(ws[1..]);
    }
  }

  lemma RuleTextIsSpec(target: Target, ip: Addr, shown: string, tcp: bool)
    requires '\n' !in shown
    ensures IsSpec(Join(RuleWords(target, ip, shown, tcp), " "))
  {
    var dst, mid := ShowIp(ip) + "/32", MatchWords(target, tcp);
    var ws := RuleWords(target, ip, shown, tcp);
    DestinationBare(ip);
    MatchWordsNeutral(target, tcp);
    JumpWordsNeutral(target);
    BareBefore(dst, mid);
    forall w | w in ws ensures '\n' !in w {
      assert w in WordsBefore(dst, mid) || w == shown || w in JumpWords(target);
      if w != shown {
        assert IsBare(w);
      }
    }
    JoinLines(ws);
    JoinLast(ws);
    var last := JumpWords(target)[1];
    assert ws[|ws| - 1] == last && last in JumpWords(target);
  }

  lemma QuotedComment(names: set<string>)
    requires Hostnames(names)
    ensures ShownAs(QuotedRaw(CommentOf(names)), CommentOf(names))
    ensures '\n' !in QuotedRaw(CommentOf(names))
  {
    CommentChars(names);
    QuotedPlain(CommentOf(names));
  }

  lemma QuotedPlain(c: string)
    requires forall x | x in c :: IsNameChar(x) || x == ' '
    ensures ShownAs(QuotedRaw(c), c) && '\n' !in QuotedRaw(c)
  {
    EscapeNothing(c);
    QuotedShows(c, c, {});
  }

  lemma QuotedShows(inner: string, token: string, also: set<char>)
    requires inner == Escape(token, also)
    ensures ShownAs(QuotedRaw(inner), token)
  {}

  lemma {:induction false} EscapeNothing(s: string)
    requires forall c | c in s :: IsNameChar(c) || c == ' '
    ensures Escape(s, {}) == s
  {
    if s != "" {
      assert s[0] in s && forall c | c in s[1..] :: c in s;
      EscapeNothing(s[1..]);
      EscapePlain(s[0]);
      assert s == [s[0]] + s[1..];
    }
  }

  lemma EscapePlain(c: char)
    requires IsNameChar(c) || c == ' '
    ensures EscapeChar(c, {}) == [c]
  {}

  lemma RuleTextsAreSpecs(target: Target, m: AddrMap)
    requires MapOfHosts(m)
    ensures forall s | s in RuleTexts(target, m) :: IsSpec(s)
  {
    var texts, entries := RuleTexts(target, m), EntriesOf(m);
    forall s | s in texts ensures IsSpec(s) {
      var i :| 0 <= i < |texts| && texts[i] == s;
      var e := entries[i];
      EntryAt(m, i);
      QuotedComment(e.names);
      RuleTextIsSpec(target, e.ip, QuotedRaw(CommentOf(e.names)), false);
    }
  }

  lemma EntryAt(m: AddrMap, i: nat)
    requires i < |EntriesOf(m)|
    ensures EntriesOf(m)[i].ip == SortedAddrs(m.Keys)[i]
    ensures EntriesOf(m)[i].ip in m && EntriesOf(m)[i].names == m[EntriesOf(m)[i].ip]
  {
    assert SortedAddrs(m.Keys)[i] in SortedAddrs(m.Keys);
  }

  ghost predicate ChainsDiffer(fw: Firewall) {
    IsChainName(fw.production) && IsChainName(fw.maintenance) && fw.production != fw.maintenance
  }

  /** Each chain's rules in the batch are exactly its own rule texts. */
  lemma SpecsOfBatch(fw: Firewall, production: AddrMap, maintenance: AddrMap)
    requires ChainsDiffer(fw) && MapOfHosts(production) && MapOfHosts(maintenance)
    ensures
      var batch := BatchOf(fw, production, maintenance);
      RuleSpecs(batch, fw.production) == RuleTexts(Accept(fw.port), production) &&
      RuleSpecs(batch, fw.maintenance) == RuleTexts(Drop, maintenance)
  {
    RuleTextsAreSpecs(Accept(fw.port), production);
    RuleTextsAreSpecs(Drop, maintenance);
    HeadHasNoRules(fw, fw.production);
    HeadHasNoRules(fw, fw.maintenance);
    SpecsOfTwoChains(BatchHead(fw), fw.production, RuleTexts(Accept(fw.port), production),
                     fw.maintenance, RuleTexts(Drop, maintenance), ["COMMIT"]);
  }

  lemma DeclarationLine(declared: string, chain: string)
    requires IsChainName(declared)
    ensures SpecsIn([":" + declared + " - [0:0]"], chain) == []
    ensures '\n' !in ":" + declared + " - [0:0]"
  {
    var line := ":" + declared + " - [0:0]";
    assert line[0] == ':' && line[|line| - 1] == ']';
    OtherLine(line, chain);
    ChainChars(declared);
    forall i | 0 <= i < |line| ensures line[i] != '\n' {
      if 1 <= i < |declared| + 1 { assert line[i] == declared[i - 1]; }
    }
  }

  lemma HeadHasNoRules(fw: Firewall, chain: string)
    requires ChainsDiffer(fw)
    ensures SpecsIn(BatchHead(fw), chain) == [] && SpecsIn(["COMMIT"], chain) == []
    ensures forall l | l in BatchHead(fw) :: '\n' !in l
    ensures '\n' !in "COMMIT"
  {
    var h := BatchHead(fw);
    OtherLine("*filter", chain);
    OtherLine("COMMIT", chain);
    DeclarationLine(fw.production, chain);
    DeclarationLine(fw.maintenance, chain);
    assert h == [h[0]] + [h[1]] + [] + [h[2]];
    SpecsAmong([h[0]], [h[1]], [], [h[2]], chain, [], []);
  }
}
