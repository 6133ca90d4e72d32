/** What the kernel may show after it has committed a restore batch, and that
    reading it back gives the maps the batch was rendered from. */
module Kernel {
  import opened Text
  import opened Address
  import opened Ordered
  import opened Config
  import opened Iptables
  import opened Comments
  import opened Codec
  import opened Batch

  /** The kernel lists a rule with the same tokens, or with the implicit
      `-m tcp` added after the `-p tcp` that follows the destination. Quoting is
      free: it leaves no trace in the tokens. */
  ghost predicate SameRule(rule: seq<string>, listed: seq<string>) {
    || listed == rule
    || (|rule| >= 4 && rule[2..4] == ["-p", "tcp"] && listed == rule[..4] + ["-m", "tcp"] + rule[4..])
  }

  /** `listing` shows exactly the rules of the batch, in order. */
  ghost predicate Shows(batch: string, chain: string, listing: string) {
    var rules, listed := RuleSpecs(batch, chain), RuleSpecs(listing, chain);
    && |listed| == |rules|
    && forall i | 0 <= i < |rules| :: SameRule(Tokens(rules[i]), Tokens(listed[i]))
  }

  /** After a commit the listing shows exactly the rules of the batch, if the batch
      replaces the chain. Of any other chain nothing is said. */
  ghost predicate Relists(batch: string, chain: string, listing: string) {
    Replaces(batch, chain) ==> Shows(batch, chain, listing)
  }

  lemma InsertTcp(pre: seq<string>, rest: seq<string>)
    requires |pre| == 4
    ensures (pre + rest)[..4] + ["-m", "tcp"] + (pre + rest)[4..] == pre + ["-m", "tcp"] + rest
  {}

  /** Adding the implicit match to an accept rule. */
  lemma AcceptWithTcp(port: nat, ip: Addr, comment: string)
    ensures
      var b := RuleWords(Accept(port), ip, comment, false);
      && |b| >= 4 && b[2..4] == ["-p", "tcp"]
      && RuleWords(Accept(port), ip, comment, true) == b[..4] + ["-m", "tcp"] + b[4..]
  {
    var pre, rest := AcceptStart(ip), AcceptEnd(port, comment);
    AcceptWords(port, ip, comment);
    InsertTcp(pre, rest);
  }

  function AcceptStart(ip: Addr): seq<string> {
    ["-d", ShowIp(ip) + "/32", "-p", "tcp"]
  }

  function AcceptEnd(port: nat, comment: string): seq<string> {
    ["--dport", Dec(port), "-m", "conntrack", "--ctstate", "NEW", "-m", "comment", "--comment", comment]
    + JumpWords(Accept(port))
  }

  lemma AcceptWords(port: nat, ip: Addr, comment: string)
    ensures RuleWords(Accept(port), ip, comment, false) == AcceptStart(ip) + AcceptEnd(port, comment)
    ensures RuleWords(Accept(port), ip, comment, true) == AcceptStart(ip) + ["-m", "tcp"] + AcceptEnd(port, comment)
  {}

  lemma SameRuleWords(target: Target, ip: Addr, comment: string, listed: seq<string>)
    requires SameRule(RuleWords(target, ip, comment, false), listed)
    ensures exists tcp :: listed == RuleWords(target, ip, comment, tcp)
  {
    if target.Accept? {
      AcceptWithTcp(target.port, ip, comment);
    } else {
      assert RuleWords(target, ip, comment, false)[2] == "-m";
    }
  }

  lemma {:induction false} EntriesOfSpecs(specs: seq<string>, entries: seq<RuleEntry>)
    requires |specs| == |entries|
    requires forall i | 0 <= i < |specs| :: ParseRule(Tokens(specs[i])) == Some(entries[i])
    ensures EntriesIn(specs) == entries
  {
    if specs != [] {
      EntriesOfSpecs(specs[1..], entries[1..]);
      assert entries == [entries[0]] + entries[1..];
    }
  }

  /** A rule of the batch, as the kernel lists it, parses to its entry. */
  lemma ListedRuleParses(target: Target, ip: Addr, names: set<string>, listed: string)
    requires Hostnames(names)
    requires SameRule(Tokens(RuleText(target, ip, names)), Tokens(listed))
    ensures ParseRule(Tokens(listed)) == Some(RuleEntry(ip, Kept(names)))
  {
    var c := CommentOf(names);
    QuotedComment(names);
    TokensOfRule(target, ip, QuotedRaw(c), c, false);
    SameRuleWords(target, ip, c, Tokens(listed));
    var tcp :| Tokens(listed) == RuleWords(target, ip, c, tcp);
    ParseRuleWords(target, ip, c, tcp);
  }

  /** What reading a chain back gives: the names that the comments keep. */
  function KeptMap(m: AddrMap): (kept: AddrMap)
    ensures kept.Keys == m.Keys
  {
    map ip | ip in m :: Kept(m[ip])
  }

  lemma KeptEntry(m: AddrMap, i: nat)
    requires i < |m.Keys|
    ensures EntriesOf(KeptMap(m))[i] == RuleEntry(EntriesOf(m)[i].ip, Kept(EntriesOf(m)[i].names))
  {
    EntryAt(m, i);
    EntryAt(KeptMap(m), i);
  }

  lemma KeptWhole(m: AddrMap)
    requires MapOfHosts(m)
    ensures KeptMap(m) == m <==> MapFits(m)
  {
    forall ip | ip in m ensures Kept(m[ip]) == m[ip] <==> Fits(m[ip]) {
      KeptExactly(m[ip]);
    }
    if KeptMap(m) == m {
      forall ip | ip in m ensures Fits(m[ip]) {
        assert KeptMap(m)[ip] == m[ip];
      }
    }
  }

  lemma {:induction false} CountIsSpecs(lines: seq<string>, chain: string)
    ensures CountIn(lines, chain) == |SpecsIn(lines, chain)|
  {
    if lines != [] {
      CountIsSpecs(lines[1..], chain);
    }
  }

  lemma ListedChainParses(target: Target, m: AddrMap, listing: string, chain: string)
    requires MapOfHosts(m)
    requires
      var rules, listed := RuleTexts(target, m), RuleSpecs(listing, chain);
      |listed| == |rules| && forall i | 0 <= i < |rules| :: SameRule(Tokens(rules[i]), Tokens(listed[i]))
    ensures ReadOf(listing, chain) == ChainRead(EntriesOf(KeptMap(m)), |m.Keys|)
  {
    var listed, entries := RuleSpecs(listing, chain), EntriesOf(KeptMap(m));
    forall i | 0 <= i < |listed| ensures ParseRule(Tokens(listed[i])) == Some(entries[i]) {
      EntryAt(m, i);
      KeptEntry(m, i);
      ListedRuleParses(target, EntriesOf(m)[i].ip, EntriesOf(m)[i].names, listed[i]);
    }
    EntriesOfSpecs(listed, entries);
    CountIsSpecs(Lines(listing), chain);
  }

  /** Reading back what the kernel lists for either chain gives that chain's
      addresses, one entry each in address order, with the names that their
      comments keep, and counts exactly its rules. */
  lemma RelistedKeeps(fw: Firewall, production: AddrMap, maintenance: AddrMap, listing: string)
    requires ChainsDiffer(fw) && MapOfHosts(production) && MapOfHosts(maintenance)
    ensures
      var batch := BatchOf(fw, production, maintenance);
      && (Relists(batch, fw.production, listing) ==>
            ReadOf(listing, fw.production) == ChainRead(EntriesOf(KeptMap(production)), |production.Keys|))
      && (Relists(batch, fw.maintenance, listing) ==>
            ReadOf(listing, fw.maintenance) == ChainRead(EntriesOf(KeptMap(maintenance)), |maintenance.Keys|))
  {
    var batch := BatchOf(fw, production, maintenance);
    SpecsOfBatch(fw, production, maintenance);
    BatchShape(fw, production, maintenance);
    if Relists(batch, fw.production, listing) {
      ListedChainParses(Accept(fw.port), production, listing, fw.production);
    }
    if Relists(batch, fw.maintenance, listing) {
      ListedChainParses(Drop, maintenance, listing, fw.maintenance);
    }
  }

  /** Round trip: where all comments fit, it gives exactly that chain's map. */
  lemma RelistedReads(fw: Firewall, production: AddrMap, maintenance: AddrMap, listing: string)
    requires ChainsDiffer(fw) && MapFits(production) && MapFits(maintenance)
    ensures
      var batch := BatchOf(fw, production, maintenance);
      && (Relists(batch, fw.production, listing) ==>
            ReadOf(listing, fw.production) == ChainRead(EntriesOf(production), |production.Keys|))
      && (Relists(batch, fw.maintenance, listing) ==>
            ReadOf(listing, fw.maintenance) == ChainRead(EntriesOf(maintenance), |maintenance.Keys|))
  {
    RelistedKeeps(fw, production, maintenance, listing);
    KeptWhole(production);
    KeptWhole(maintenance);
  }

  /** The batch itself parses back to both maps. */
  lemma BatchReads(fw: Firewall, production: AddrMap, maintenance: AddrMap)
    requires ChainsDiffer(fw) && MapFits(production) && MapFits(maintenance)
    ensures
      var batch := BatchOf(fw, production, maintenance);
      && ParsedChain(batch, fw.production) == EntriesOf(production)
      && ParsedChain(batch, fw.maintenance) == EntriesOf(maintenance)
  {
    RelistedReads(fw, production, maintenance, BatchOf(fw, production, maintenance));
  }

  /** What the batch says, rule by rule: production accepts new TCP connections
      to one port of each address, maintenance drops everything to its addresses,
      in address order, each rule under the names of its address. */
  lemma BatchRules(fw: Firewall, production: AddrMap, maintenance: AddrMap, i: nat)
    requires ChainsDiffer(fw) && MapFits(production) && MapFits(maintenance)
    ensures
      var rules, keys := RuleSpecs(BatchOf(fw, production, maintenance), fw.production), SortedAddrs(production.Keys);
      |rules| == |keys| &&
      (i < |keys| ==>
         keys[i] in production && IsAcceptRule(Tokens(rules[i]), keys[i], Dec(fw.port),
           Join(SortedNames(production[keys[i]]), " ")))
    ensures
      var rules, keys := RuleSpecs(BatchOf(fw, production, maintenance), fw.maintenance), SortedAddrs(maintenance.Keys);
      |rules| == |keys| &&
      (i < |keys| ==>
         keys[i] in maintenance && IsDropRule(Tokens(rules[i]), keys[i], Join(SortedNames(maintenance[keys[i]]), " ")))
  {
    SpecsOfBatch(fw, production, maintenance);
    if i < |production.Keys| {
      EntryAt(production, i);
      RuleTokens(Accept(fw.port), production, i);
    }
    if i < |maintenance.Keys| {
      EntryAt(maintenance, i);
      RuleTokens(Drop, maintenance, i);
    }
  }

  predicate IsAcceptRule(toks: seq<string>, ip: Addr, port: string, comment: string) {
    toks == ["-d", ShowIp(ip) + "/32", "-p", "tcp", "--dport", port, "-m", "conntrack", "--ctstate", "NEW",
             "-m", "comment", "--comment", comment, "-j", "ACCEPT"]
  }

  predicate IsDropRule(toks: seq<string>, ip: Addr, comment: string) {
    toks == ["-d", ShowIp(ip) + "/32", "-m", "comment", "--comment", comment, "-j", "DROP"]
  }

  lemma RuleTokens(target: Target, m: AddrMap, i: nat)
    requires MapFits(m) && i < |m.Keys|
    ensures |RuleTexts(target, m)| == |m.Keys| && SortedAddrs(m.Keys)[i] in m
    ensures
      var ip := SortedAddrs(m.Keys)[i];
      IsRuleOf(Tokens(RuleTexts(target, m)[i]), target, ip, Join(SortedNames(m[ip]), " "))
  {
    var keys := SortedAddrs(m.Keys);
    EntryAt(m, i);
    RuleTextTokens(target, keys[i], m[keys[i]]);
  }

  predicate IsRuleOf(toks: seq<string>, target: Target, ip: Addr, comment: string) {
    match target
    case Accept(port) => IsAcceptRule(toks, ip, Dec(port), comment)
    case Drop => IsDropRule(toks, ip, comment)
  }

  lemma RuleTextTokens(target: Target, ip: Addr, names: set<string>)
    requires Fits(names)
    ensures IsRuleOf(Tokens(RuleText(target, ip, names)), target, ip, Join(SortedNames(names), " "))
  {
    QuotedComment(names);
    CommentLossless(names);
    TokensOfRule(target, ip, QuotedRaw(CommentOf(names)), CommentOf(names), false);
    PlainRuleWords(target, ShowIp(ip) + "/32", CommentOf(names));
  }

  lemma PlainRuleWords(target: Target, dst: string, comment: string)
    ensures
      WordsBefore(dst, MatchWords(target, false)) + [comment] + JumpWords(target) ==
      match target
      case Accept(port) =>
        ["-d", dst, "-p", "tcp", "--dport", Dec(port), "-m", "conntrack", "--ctstate", "NEW",
         "-m", "comment", "--comment", comment, "-j", "ACCEPT"]
      case Drop => ["-d", dst, "-m", "comment", "--comment", comment, "-j", "DROP"]
  {}

  // ---- a concrete listing ----

  /** How one rule is listed: with the implicit match or not, and the comment
      bare (possible for a single name) or quoted. */
  datatype Style = Style(tcp: bool, bare: bool)

  function ListedText(target: Target, ip: Addr, names: set<string>, style: Style): string {
    var c := CommentOf(names);
    Join(RuleWords(target, ip, if style.bare then c else QuotedRaw(c), style.tcp), " ")
  }

  function ListedTexts(target: Target, m: AddrMap, styles: seq<Style>): seq<string>
    requires |styles| == |m.Keys|
  {
    var entries := EntriesOf(m);
    seq(|entries|, i requires 0 <= i < |entries| => ListedText(target, entries[i].ip, entries[i].names, styles[i]))
  }

  /** What `iptables -S` prints for a chain. */
  function Listing(chain: string, specs: seq<string>): string {
    Unlines(["-N " + chain] + RuleLines(chain, specs))
  }

  lemma SingleNameIsBare(names: set<string>)
    requires Fits(names) && |names| == 1
    ensures IsBare(CommentOf(names))
  {
    CommentLossless(names);
    var ws := SortedNames(names);
    assert ws[0] in ws;
    HostnameIsWord(ws[0]);
    HostnameChars(ws[0]);
    assert Join(ws, " ") == ws[0];
    forall i | 0 <= i < |ws[0]| ensures !IsSpace(ws[0][i]) && ws[0][i] != '"' {
      assert ws[0][i] in ws[0];
    }
  }

  lemma StyledRule(target: Target, ip: Addr, names: set<string>, style: Style)
    requires Fits(names) && (style.bare ==> |names| == 1) && (style.tcp ==> target.Accept?)
    ensures SameRule(Tokens(RuleText(target, ip, names)), Tokens(ListedText(target, ip, names, style)))
    ensures IsSpec(ListedText(target, ip, names, style))
  {
    var c := CommentOf(names);
    var shown := if style.bare then c else QuotedRaw(c);
    QuotedComment(names);
    if style.bare { SingleNameIsBare(names); }
    assert '\n' !in c by { CommentLossless(names); }
    RuleTextIsSpec(target, ip, shown, style.tcp);
    TokensOfRule(target, ip, QuotedRaw(c), c, false);
    TokensOfRule(target, ip, shown, c, style.tcp);
    if style.tcp {
      AcceptWithTcp(target.port, ip, c);
    }
  }

  lemma NewChainLine(chain: string)
    requires IsChainName(chain)
    ensures SpecsIn(["-N " + chain], chain) == [] && '\n' !in "-N " + chain
  {
    var line := "-N " + chain;
    ChainChars(chain);
    assert chain[|chain| - 1] in chain;
    assert line[0] == '-' && line[1] == 'N' && line[|line| - 1] == chain[|chain| - 1];
    OtherLine(line, chain);
    forall i | 0 <= i < |line| ensures line[i] != '\n' {
      if i >= 3 { assert line[i] == chain[i - 3]; }
    }
  }

  lemma ListingSpecs(chain: string, specs: seq<string>)
    requires IsChainName(chain) && forall s | s in specs :: IsSpec(s)
    ensures RuleSpecs(Listing(chain, specs), chain) == specs
  {
    NewChainLine(chain);
    LinesWithoutNewline(chain, specs);
    LinesOfUnlines(["-N " + chain] + RuleLines(chain, specs));
    SpecsInConcat(["-N " + chain], RuleLines(chain, specs), chain);
    SpecsOfRuleLines(chain, chain, specs);
  }

  lemma ListedTextsAreRules(target: Target, m: AddrMap, styles: seq<Style>)
    requires MapFits(m) && |styles| == |m.Keys|
    requires forall i | 0 <= i < |styles| :: styles[i].bare ==> |EntriesOf(m)[i].names| == 1
    requires forall i | 0 <= i < |styles| :: styles[i].tcp ==> target.Accept?
    ensures
      var rules, listed := RuleTexts(target, m), ListedTexts(target, m, styles);
      |listed| == |rules| && (forall s | s in listed :: IsSpec(s)) &&
      forall i | 0 <= i < |rules| :: SameRule(Tokens(rules[i]), Tokens(listed[i]))
  {
    var rules, listed, entries := RuleTexts(target, m), ListedTexts(target, m, styles), EntriesOf(m);
    forall i | 0 <= i < |rules| ensures SameRule(Tokens(rules[i]), Tokens(listed[i])) && IsSpec(listed[i]) {
      EntryAt(m, i);
      StyledRule(target, entries[i].ip, entries[i].names, styles[i]);
    }
  }

  /** The listings the tool meets are relistings: `-m tcp` added to an accept
      rule or not, a single name quoted or not, freely per rule. */
  lemma StyledListingRelists(fw: Firewall, production: AddrMap, maintenance: AddrMap,
      accepts: seq<Style>, drops: seq<Style>)
    requires ChainsDiffer(fw) && MapFits(production) && MapFits(maintenance)
    requires |accepts| == |production.Keys| && |drops| == |maintenance.Keys|
    requires forall i | 0 <= i < |accepts| :: accepts[i].bare ==> |EntriesOf(production)[i].names| == 1
    requires forall i | 0 <= i < |drops| :: !drops[i].tcp && (drops[i].bare ==> |EntriesOf(maintenance)[i].names| == 1)
    ensures
      var batch := BatchOf(fw, production, maintenance);
      && Shows(batch, fw.production, Listing(fw.production, ListedTexts(Accept(fw.port), production, accepts)))
      && Shows(batch, fw.maintenance, Listing(fw.maintenance, ListedTexts(Drop, maintenance, drops)))
  {
    SpecsOfBatch(fw, production, maintenance);
    ListedTextsAreRules(Accept(fw.port), production, accepts);
    ListingSpecs(fw.production, ListedTexts(Accept(fw.port), production, accepts));
    ListedTextsAreRules(Drop, maintenance, drops);
    ListingSpecs(fw.maintenance, ListedTexts(Drop, maintenance, drops));
  }
}
