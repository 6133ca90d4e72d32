/** The fixed part of the hosts file: localhost and the static hosts, whose names
    are written as they are configured. */
module Statics {
  import opened Text
  import opened Address
  import opened Config
  import opened Plan
  import opened Codec
  import opened Hosts

  // ---- words with white space around them ----

  ghost predicate Blank(s: string) {
    forall c | c in s :: IsSpace(c)
  }

  lemma {:induction false} TrimStartParts(s: string)
    ensures exists pre :: Blank(pre) && s == pre + TrimStart(s)
  {
    if s != "" && IsSpace(s[0]) {
      TrimStartParts(s[1..]);
      var pre :| Blank(pre) && s[1..] == pre + TrimStart(s[1..]);
      assert Blank([s[0]] + pre) && s == [s[0]] + pre + TrimStart(s);
    } else {
      assert Blank("") && s == "" + TrimStart(s);
    }
  }

  lemma {:induction false} TrimEndParts(s: string)
    ensures exists post :: Blank(post) && s == TrimEnd(s) + post
  {
    if s != "" && IsSpace(s[|s| - 1]) {
      var init, last := s[..|s| - 1], s[|s| - 1];
      TrimEndParts(init);
      var post :| Blank(post) && init == TrimEnd(init) + post;
      assert Blank(post + [last]) && s == TrimEnd(s) + (post + [last]);
    } else {
      assert Blank("") && s == TrimEnd(s) + "";
    }
  }

  lemma TrimParts(s: string) returns (pre: string, post: string)
    ensures Blank(pre) && Blank(post) && s == pre + Trim(s) + post
  {
    TrimStartParts(s);
    TrimEndParts(TrimStart(s));
    pre :| Blank(pre) && s == pre + TrimStart(s);
    post :| Blank(post) && TrimStart(s) == Trim(s) + post;
  }

  lemma {:induction false} SkipBlank(pre: string, rest: string)
    requires Blank(pre)
    ensures Words(pre + rest) == Words(rest)
  {
    if pre == "" {
      assert pre + rest == rest;
    } else {
      assert (pre + rest)[1..] == pre[1..] + rest && (pre + rest)[0] == pre[0];
      assert pre[0] in pre && forall c | c in pre[1..] :: c in pre;
      SkipBlank(pre[1..], rest);
    }
  }

  lemma AfterWord(w: string, rest: string)
    requires IsWord(w) && (rest == "" || IsSpace(rest[0]))
    ensures Words(w + rest) == [w] + Words(rest)
  {
    WordsSkip(w, rest, "");
    assert "" + w == w;
    if rest != "" {
      assert [rest[0]] + rest[1..] == rest;
      assert Blank([rest[0]]);
      SkipBlank([rest[0]], rest[1..]);
    }
  }

  /** A name counts as one word, whatever white space stands around it. */
  lemma PaddedWord(name: string, rest: string)
    requires IsWord(Trim(name)) && (rest == "" || IsSpace(rest[0]))
    ensures Words(name + rest) == [Trim(name)] + Words(rest)
  {
    var pre, post := TrimParts(name);
    var core := Trim(name);
    assert name + rest == pre + (core + (post + rest));
    SkipBlank(pre, core + (post + rest));
    assert post != "" ==> post[0] in post && (post + rest)[0] == post[0];
    assert post == "" ==> post + rest == rest;
    AfterWord(core, post + rest);
    SkipBlank(post, rest);
  }

  lemma PaddedAlone(name: string)
    requires IsWord(Trim(name))
    ensures Words(name) == [Trim(name)]
  {
    PaddedWord(name, "");
    assert name + "" == name;
  }

  lemma PaddedThen(name: string, rest: string)
    requires IsWord(Trim(name))
    ensures Words(name + " " + rest) == [Trim(name)] + Words(rest)
  {
    PaddedWord(name, " " + rest);
    assert Blank(" ");
    SkipBlank(" ", rest);
    assert name + " " + rest == name + (" " + rest);
  }

  function TrimAll(ws: seq<string>): (r: seq<string>)
    ensures |r| == |ws| && forall i | 0 <= i < |ws| :: r[i] == Trim(ws[i])
  {
    seq(|ws|, i requires 0 <= i < |ws| => Trim(ws[i]))
  }

  lemma TrimAllCons(name: string, rest: seq<string>)
    ensures TrimAll([name] + rest) == [Trim(name)] + TrimAll(rest)
  {}

  lemma {:induction false} WordsOfPadded(ws: seq<string>)
    requires forall w | w in ws :: IsWord(Trim(w))
    ensures Words(Join(ws, " ")) == TrimAll(ws)
  {
    if |ws| == 1 {
      assert ws[0] in ws;
      PaddedAlone(ws[0]);
    } else if |ws| > 1 {
      var name, rest := ws[0], ws[1..];
      assert name in ws && forall w | w in rest :: w in ws;
      WordsOfPadded(rest);
      PaddedThen(name, Join(rest, " "));
      TrimAllCons(name, rest);
      assert ws == [name] + rest;
    }
  }

  // ---- validated names ----

  /** What validation lets through: one word without comment characters, once
      the white space around it is gone. */
  lemma ValidNameIsWord(name: string)
    requires IsHostname(NormalizeName(name))
    ensures IsWord(Trim(name)) && '#' !in Trim(name)
  {
    var t := Trim(name);
    var d := TrimDots(t);
    HostnameChars(LowerAll(d));
    TrimDotsPrefix(t);
    DotsOnly(t);
    forall i | 0 <= i < |t| ensures !IsSpace(t[i]) && t[i] != '#' {
      if i < |d| {
        assert LowerAll(d)[i] == Lower(t[i]) && LowerAll(d)[i] in LowerAll(d);
      }
    }
  }

  lemma {:induction false} DotsOnly(t: string)
    ensures |TrimDots(t)| <= |t| && forall i | |TrimDots(t)| <= i < |t| :: t[i] == '.'
  {
    if t != "" && t[|t| - 1] == '.' {
      DotsOnly(t[..|t| - 1]);
    }
  }

  lemma {:induction false} NoneOfIn(ws: seq<string>, c: char)
    requires c != ' '
    ensures c in Join(ws, " ") <==> exists w :: w in ws && c in w
  {
    if ws != [] {
      NoneOfIn(ws[1..], c);
      assert ws == [ws[0]] + ws[1..];
      assert forall w :: w in ws <==> w == ws[0] || w in ws[1..];
    }
  }

  lemma HashAround(name: string)
    requires '#' !in Trim(name)
    ensures '#' !in name
  {
    var pre, post := TrimParts(name);
  }

  // ---- static lines ----

  /** The pairs a static host stands for. */
  function HostPairs(h: StaticHost): set<(Addr, string)> {
    set name | name in h.names :: (h.ip, Trim(name))
  }

  function StaticPairs(hosts: seq<StaticHost>): set<(Addr, string)> {
    if hosts == [] then {} else StaticPairs(hosts[..|hosts| - 1]) + HostPairs(hosts[|hosts| - 1])
  }

  ghost predicate OneLine(h: StaticHost) {
    forall name | name in h.names :: '\n' !in name
  }

  function StaticWords(h: StaticHost): seq<string> {
    [ShowIp(h.ip)] + h.names
  }

  lemma StaticLineText(h: StaticHost)
    requires h.names != []
    ensures StaticLine(h) == Join(StaticWords(h), " ") + "\n"
  {
    assert StaticWords(h)[1..] == h.names;
  }

  lemma ShownIsWord(ip: Addr)
    ensures IsWord(ShowIp(ip)) && Trim(ShowIp(ip)) == ShowIp(ip) && '#' !in ShowIp(ip) && '\n' !in ShowIp(ip)
  {
    ShowIpChars(ip);
    var s := ShowIp(ip);
    assert s[0] in s && s[|s| - 1] in s;
    TrimNoop(s);
  }

  lemma HostWords(h: StaticHost)
    requires ValidStatic(h)
    ensures Words(Join(StaticWords(h), " ")) == [ShowIp(h.ip)] + TrimAll(h.names)
    ensures '#' !in Join(StaticWords(h), " ")
  {
    var ws := StaticWords(h);
    ShownIsWord(h.ip);
    forall w | w in ws ensures IsWord(Trim(w)) && '#' !in w {
      if w != ShowIp(h.ip) {
        ValidNameIsWord(w);
        HashAround(w);
      }
    }
    WordsOfPadded(ws);
    NoneOfIn(ws, '#');
    assert TrimAll(ws) == [ShowIp(h.ip)] + TrimAll(h.names);
  }

  lemma HostLinePairs(h: StaticHost)
    requires ValidStatic(h)
    ensures LinePairs(Join(StaticWords(h), " ")) == HostPairs(h)
  {
    var ws := [ShowIp(h.ip)] + TrimAll(h.names);
    HostWords(h);
    UncommentNothing(Join(StaticWords(h), " "));
    IpRoundTrip(h.ip);
    assert ws[1..] == TrimAll(h.names);
    TrimmedNames(h.names);
  }

  lemma TrimmedNames(names: seq<string>)
    ensures forall w :: w in TrimAll(names) <==> exists name :: name in names && w == Trim(name)
  {
    forall name | name in names ensures Trim(name) in TrimAll(names) {
      var i :| 0 <= i < |names| && names[i] == name;
      assert TrimAll(names)[i] == Trim(name);
    }
  }

  lemma LineIsOne(h: StaticHost)
    ensures OneLine(h) <==> '\n' !in Join(StaticWords(h), " ")
  {
    NoneOfIn(StaticWords(h), '\n');
    ShownIsWord(h.ip);
    assert ShowIp(h.ip) in StaticWords(h);
  }

  lemma {:induction false} OnePiece(s: string, sep: char)
    ensures |SplitOn(s, sep)| == 1 <==> sep !in s
  {
    if s != "" {
      OnePiece(s[1..], sep);
      assert s == [s[0]] + s[1..];
    }
  }

  /** A static host takes one line of the file exactly when none of its names has
      a newline. */
  lemma OneLineExactly(h: StaticHost)
    requires h.names != []
    ensures |Lines(StaticLine(h))| == 1 <==> OneLine(h)
  {
    var text := Join(StaticWords(h), " ");
    StaticLineText(h);
    LineIsOne(h);
    OnePiece(text, '\n');
    SplitConcat(text, "");
    assert text + "\n" + "" == text + "\n";
    DropLast(SplitOn(text, '\n'), [""]);
  }

  // ---- newlines that do no harm ----

  /** Nothing but white space comes after a newline. */
  ghost predicate Whole(text: string) {
    forall i, j | 0 <= i < j < |text| && text[i] == '\n' :: IsSpace(text[j])
  }

  /** Newlines stand only behind the text of the last name. */
  ghost predicate Trailing(names: seq<string>) {
    && (forall i | 0 <= i < |names| - 1 :: '\n' !in names[i])
    && (names != [] ==> Whole(names[|names| - 1]))
  }

  ghost predicate NewlinesTrail(h: StaticHost) {
    Trailing(h.names)
  }

  lemma {:induction false} WordsAcross(x: string, c: char, y: string, cur: string)
    requires IsSpace(c)
    ensures WordsFrom(x + [c] + y, cur) == WordsFrom(x, cur) + Words(y)
  {
    var s := x + [c] + y;
    if x == "" {
      assert s[0] == c && s[1..] == y;
    } else {
      assert s[0] == x[0] && s[1..] == x[1..] + [c] + y;
      WordsAcross(x[1..], c, y, if IsSpace(x[0]) then "" else cur + [x[0]]);
    }
  }

  lemma WordsOfLines(x: string, y: string)
    ensures Words(x + "\n" + y) == Words(x) + Words(y)
  {
    WordsAcross(x, '\n', y, "");
    assert x + "\n" + y == x + ['\n'] + y;
  }

  lemma {:induction false} WordsOfBlank(s: string, cur: string)
    ensures WordsFrom(s, cur) == [] <==> Blank(s) && cur == ""
  {
    if s != "" {
      WordsOfBlank(s[1..], if IsSpace(s[0]) then "" else cur + [s[0]]);
      assert s == [s[0]] + s[1..];
      assert Blank(s) <==> IsSpace(s[0]) && Blank(s[1..]);
    }
  }

  lemma BrokenEarly(w: string, rest: string)
    requires '\n' in w && !Blank(rest)
    ensures !Whole(w + " " + rest)
  {
    var c := w + " " + rest;
    var i :| 0 <= i < |w| && w[i] == '\n';
    var k :| 0 <= k < |rest| && !IsSpace(rest[k]);
    assert c[i] == '\n' && c[|w| + 1 + k] == rest[k];
  }

  lemma WholeRest(w: string, rest: string)
    requires '\n' !in w
    ensures Whole(w + " " + rest) <==> Whole(rest)
  {
    var c := w + " " + rest;
    assert forall i | 0 <= i <= |w| :: c[i] != '\n';
    assert forall i | |w| < i < |c| :: c[i] == rest[i - |w| - 1];
    if Whole(c) {
      forall i, j | 0 <= i < j < |rest| && rest[i] == '\n' ensures IsSpace(rest[j]) {
        assert c[|w| + 1 + i] == '\n' && c[|w| + 1 + j] == rest[j];
      }
    }
  }

  lemma WholeLine(w: string, rest: string)
    requires !Blank(rest)
    ensures Whole(w + " " + rest) <==> '\n' !in w && Whole(rest)
  {
    if '\n' in w {
      BrokenEarly(w, rest);
    } else {
      WholeRest(w, rest);
    }
  }

  lemma JoinedNotBlank(ws: seq<string>)
    requires ws != [] && forall w | w in ws :: IsWord(Trim(w))
    ensures !Blank(Join(ws, " "))
  {
    WordsOfPadded(ws);
    WordsOfBlank(Join(ws, " "), "");
  }

  lemma {:induction false} WholeJoin(ws: seq<string>)
    requires ws != [] && forall w | w in ws :: IsWord(Trim(w))
    ensures Whole(Join(ws, " ")) <==> Trailing(ws)
  {
    if |ws| > 1 {
      var w, rest := ws[0], ws[1..];
      assert forall v | v in rest :: v in ws;
      WholeJoin(rest);
      JoinedNotBlank(rest);
      WholeLine(w, Join(rest, " "));
      TrailingCons(w, rest);
      assert ws == [w] + rest;
    } else {
      assert ws == [ws[0]];
    }
  }

  lemma TrailingCons(w: string, ws: seq<string>)
    requires ws != []
    ensures Trailing([w] + ws) <==> '\n' !in w && Trailing(ws)
  {
    var all := [w] + ws;
    assert all[0] == w && forall i | 0 <= i < |ws| :: all[i + 1] == ws[i];
    if Trailing(all) {
      forall i | 0 <= i < |ws| - 1 ensures '\n' !in ws[i] {
        assert '\n' !in all[i + 1];
      }
    }
  }

  lemma TrailMeansWhole(h: StaticHost)
    requires ValidStatic(h)
    ensures NewlinesTrail(h) <==> Whole(Join(StaticWords(h), " "))
  {
    ShownIsWord(h.ip);
    forall w | w in StaticWords(h) ensures IsWord(Trim(w)) {
      if w != ShowIp(h.ip) { ValidNameIsWord(w); }
    }
    WholeJoin(StaticWords(h));
    TrailingCons(ShowIp(h.ip), h.names);
  }

  // ---- what the lines of a host publish ----

  /** A published name is a word of its text, and not the first one. */
  ghost predicate LaterWord(text: string, w: string) {
    exists k :: 1 <= k < |Words(text)| && Words(text)[k] == w
  }

  lemma LineNames(line: string, ip: Addr, w: string)
    requires '#' !in line && (ip, w) in LinePairs(line)
    ensures LaterWord(line, w)
  {
    UncommentNothing(line);
    var ws := Words(line);
    var k :| 0 <= k < |ws[1..]| && ws[1..][k] == w;
    assert ws[k + 1] == w;
  }

  lemma LaterInBoth(x: string, y: string, w: string)
    requires LaterWord(x, w) || LaterWord(y, w)
    ensures LaterWord(x + "\n" + y, w)
  {
    WordsOfLines(x, y);
    var all := Words(x + "\n" + y);
    if LaterWord(x, w) {
      var k :| 1 <= k < |Words(x)| && Words(x)[k] == w;
      assert all[k] == w;
    } else {
      var k :| 1 <= k < |Words(y)| && Words(y)[k] == w;
      assert all[|Words(x)| + k] == w;
    }
  }

  lemma {:induction false} FirstNewline(text: string) returns (i: nat)
    requires '\n' in text
    ensures i < |text| && text[i] == '\n' && '\n' !in text[..i]
    ensures text == text[..i] + "\n" + text[i + 1..]
  {
    i := 0;
    assert text[..|text|] == text;
    while text[i] != '\n'
      invariant i < |text| && '\n' !in text[..i]
      decreases |text| - i
    {
      assert text[..i + 1] == text[..i] + [text[i]];
      i := i + 1;
    }
  }

  lemma {:induction false} PublishedNames(text: string, ip: Addr, w: string)
    requires '#' !in text && (ip, w) in PairsIn(SplitOn(text, '\n'))
    ensures LaterWord(text, w)
    decreases |text|
  {
    if '\n' !in text {
      SplitWhole(text, '\n');
      LineNames(text, ip, w);
    } else {
      var i := FirstNewline(text);
      var x, y := text[..i], text[i + 1..];
      SplitPiece(x, '\n', y);
      if (ip, w) in LinePairs(x) {
        LineNames(x, ip, w);
      } else {
        PublishedNames(y, ip, w);
      }
      LaterInBoth(x, y, w);
    }
  }

  lemma PiecesOfLine(text: string)
    ensures Published(text + "\n") == PairsIn(SplitOn(text, '\n'))
  {
    SplitConcat(text, "");
    assert text + "\n" + "" == text + "\n";
    DropLast(SplitOn(text, '\n'), [""]);
    assert SplitOn(text, '\n') + [] == SplitOn(text, '\n');
  }

  lemma OthersUnpublished(text: string, w: string)
    requires '#' !in text && !LaterWord(text, w)
    ensures forall ip: Addr :: (ip, w) !in PairsIn(SplitOn(text, '\n'))
  {
    forall ip: Addr ensures (ip, w) !in PairsIn(SplitOn(text, '\n')) {
      if (ip, w) in PairsIn(SplitOn(text, '\n')) {
        PublishedNames(text, ip, w);
      }
    }
  }

  lemma BlankPublishesNothing(text: string)
    requires Blank(text)
    ensures PairsIn(SplitOn(text, '\n')) == {}
  {
    WordsOfBlank(text, "");
    forall ip: Addr, w: string ensures (ip, w) !in PairsIn(SplitOn(text, '\n')) {
      OthersUnpublished(text, w);
    }
  }

  lemma SameWordsSamePairs(x: string, text: string)
    requires '#' !in x && '#' !in text && Words(x) == Words(text)
    ensures LinePairs(x) == LinePairs(text)
  {
    UncommentNothing(x);
    UncommentNothing(text);
  }

  lemma BlankTail(x: string, y: string)
    requires '\n' !in x && Blank(y)
    ensures PairsIn(SplitOn(x + "\n" + y, '\n')) == LinePairs(x) && Words(x + "\n" + y) == Words(x)
  {
    SplitPiece(x, '\n', y);
    BlankPublishesNothing(y);
    WordsOfLines(x, y);
    WordsOfBlank(y, "");
  }

  /** With newlines behind the last word only, a text publishes what it would on
      one line. */
  lemma WholePublishes(text: string)
    requires Whole(text) && '#' !in text
    ensures PairsIn(SplitOn(text, '\n')) == LinePairs(text)
  {
    if '\n' in text {
      var i := FirstNewline(text);
      assert Blank(text[i + 1..]);
      BlankTail(text[..i], text[i + 1..]);
      SameWordsSamePairs(text[..i], text);
    } else {
      SplitWhole(text, '\n');
    }
  }

  lemma OnlyAtStart(a: seq<string>, b: seq<string>)
    requires a != [] && b != [] && DistinctTail(a + b)
    ensures forall k | 1 <= k < |a| :: a[k] != b[0]
    ensures forall k | 1 <= k < |b| :: b[k] != b[0]
  {
    var all := a + b;
    assert all[|a|] == b[0];
    forall k | 1 <= k < |a| ensures a[k] != b[0] {
      assert all[k] == a[k];
    }
    forall k | 1 <= k < |b| ensures b[k] != b[0] {
      assert all[|a| + k] == b[k];
    }
  }

  /** All words but the first are pairwise different. */
  ghost predicate DistinctTail(ws: seq<string>) {
    forall i, j | 1 <= i < j < |ws| :: ws[i] != ws[j]
  }

  /** A word that starts a later line is published nowhere, if it occurs only
      there or as the first word of all. */
  lemma LineStartIsLost(x: string, y: string)
    requires '#' !in x && '#' !in y && Words(x) != [] && Words(y) != [] && DistinctTail(Words(x) + Words(y))
    ensures forall ip: Addr :: (ip, Words(y)[0]) !in PairsIn(SplitOn(x + "\n" + y, '\n'))
  {
    OnlyAtStart(Words(x), Words(y));
    OthersUnpublished(x, Words(y)[0]);
    OthersUnpublished(y, Words(y)[0]);
    SplitConcat(x, y);
    PairsConcat(SplitOn(x, '\n'), SplitOn(y, '\n'));
  }

  lemma HostPieces(h: StaticHost)
    requires h.names != []
    ensures Published(StaticLine(h)) == PairsIn(SplitOn(Join(StaticWords(h), " "), '\n'))
  {
    StaticLineText(h);
    PiecesOfLine(Join(StaticWords(h), " "));
  }

  lemma StaticLinePublishes(h: StaticHost)
    requires ValidStatic(h) && NewlinesTrail(h)
    ensures Published(StaticLine(h)) == HostPairs(h)
  {
    HostPieces(h);
    HostWords(h);
    TrailMeansWhole(h);
    WholePublishes(Join(StaticWords(h), " "));
    HostLinePairs(h);
  }

  /** Pairwise different names, white space around them aside. */
  ghost predicate DistinctNames(h: StaticHost) {
    forall i, j | 0 <= i < j < |h.names| :: Trim(h.names[i]) != Trim(h.names[j])
  }

  lemma BrokenLine(text: string) returns (i: nat)
    requires !Whole(text) && text != "" && !IsSpace(text[0])
    ensures i < |text| && text == text[..i] + "\n" + text[i + 1..]
    ensures Words(text[..i]) != [] && Words(text[i + 1..]) != []
  {
    var j: int;
    i, j :| 0 <= i < j < |text| && text[i] == '\n' && !IsSpace(text[j]);
    assert text[i + 1..][j - i - 1] == text[j] && text[..i][0] == text[0];
    WordsOfBlank(text[..i], "");
    WordsOfBlank(text[i + 1..], "");
  }

  lemma DistinctWords(h: StaticHost)
    requires DistinctNames(h)
    ensures DistinctTail([ShowIp(h.ip)] + TrimAll(h.names))
  {}

  lemma TailWord(first: string, rest: seq<string>, a: seq<string>, b: seq<string>)
    requires a != [] && b != [] && a + b == [first] + rest
    ensures b[0] in rest
  {
    assert (a + b)[|a|] == b[0] && ([first] + rest)[|a|] == rest[|a| - 1];
  }

  /** A newline before the text of a name costs a name: some configured name is
      published under no address. */
  lemma NewlineLosesName(h: StaticHost) returns (lost: string)
    requires ValidStatic(h) && DistinctNames(h) && !NewlinesTrail(h)
    ensures lost in TrimAll(h.names) && forall ip: Addr :: (ip, lost) !in Published(StaticLine(h))
  {
    HostPieces(h);
    HostWords(h);
    TrailMeansWhole(h);
    TextStarts(h);
    DistinctWords(h);
    lost := BrokenTextLosesWord(Join(StaticWords(h), " "), ShowIp(h.ip), TrimAll(h.names));
  }

  lemma BrokenTextLosesWord(text: string, first: string, names: seq<string>) returns (lost: string)
    requires !Whole(text) && text != "" && !IsSpace(text[0]) && '#' !in text
    requires Words(text) == [first] + names && DistinctTail(Words(text))
    ensures lost in names && forall ip: Addr :: (ip, lost) !in PairsIn(SplitOn(text, '\n'))
  {
    var i := BrokenLine(text);
    var x, y := text[..i], text[i + 1..];
    WordsOfLines(x, y);
    lost := Words(y)[0];
    TailWord(first, names, Words(x), Words(y));
    LineStartIsLost(x, y);
  }

  lemma TextStarts(h: StaticHost)
    requires h.names != []
    ensures Join(StaticWords(h), " ") != "" && !IsSpace(Join(StaticWords(h), " ")[0])
  {
    ShownIsWord(h.ip);
    assert StaticWords(h)[0] == ShowIp(h.ip) && ShowIp(h.ip)[0] in ShowIp(h.ip);
  }

  lemma LostIsConfigured(h: StaticHost, lost: string)
    requires lost in TrimAll(h.names)
    ensures (h.ip, lost) in HostPairs(h)
  {
    TrimmedNames(h.names);
  }

  /** The lines of a host with different names publish exactly its configured
      pairs if and only if newlines stand only behind its last name. */
  lemma HostPublishesExactly(h: StaticHost)
    requires ValidStatic(h) && DistinctNames(h)
    ensures Published(StaticLine(h)) == HostPairs(h) <==> NewlinesTrail(h)
  {
    if NewlinesTrail(h) {
      StaticLinePublishes(h);
    } else {
      var lost := NewlineLosesName(h);
      LostIsConfigured(h, lost);
    }
  }

  // ---- the fixed part ----

  lemma StaticLineEnds(h: StaticHost)
    ensures Ended(StaticLine(h))
  {}

  lemma StaticLinesSnoc(init: seq<StaticHost>, last: StaticHost)
    requires Ended(StaticLines(init))
    ensures Ended(StaticLines(init + [last]))
    ensures Published(StaticLines(init + [last])) == Published(StaticLines(init)) + Published(StaticLine(last))
  {
    assert (init + [last])[..|init|] == init;
    StaticLineEnds(last);
    PublishedConcat(StaticLines(init), StaticLine(last));
    EndedConcat(StaticLines(init), StaticLine(last));
  }

  /** What some host of the list publishes. */
  ghost predicate SomePublishes(hosts: seq<StaticHost>, p: (Addr, string)) {
    exists h :: h in hosts && p in Published(StaticLine(h))
  }

  lemma SomeSnoc(init: seq<StaticHost>, last: StaticHost, p: (Addr, string))
    ensures SomePublishes(init + [last], p) <==> SomePublishes(init, p) || p in Published(StaticLine(last))
  {
    assert forall h :: h in init + [last] <==> h in init || h == last;
  }

  lemma NobodyPublishes(p: (Addr, string))
    ensures !SomePublishes([], p) && Published("") == {}
  {
    LinesEnd();
  }

  lemma {:induction false} StaticLinesHave(hosts: seq<StaticHost>, p: (Addr, string))
    ensures p in Published(StaticLines(hosts)) <==> SomePublishes(hosts, p)
  {
    if hosts == [] {
      NobodyPublishes(p);
      assert hosts == [];
    } else {
      var init, last := hosts[..|hosts| - 1], hosts[|hosts| - 1];
      StaticLinesHave(init, p);
      StaticLinesEnded(init);
      StaticLinesSnoc(init, last);
      SomeSnoc(init, last, p);
      assert hosts == init + [last];
    }
  }

  lemma StaticLinesUnion(hosts: seq<StaticHost>)
    ensures forall p :: p in Published(StaticLines(hosts)) <==> SomePublishes(hosts, p)
  {
    forall p ensures p in Published(StaticLines(hosts)) <==> SomePublishes(hosts, p) {
      StaticLinesHave(hosts, p);
    }
  }

  lemma {:induction false} StaticPairsUnion(hosts: seq<StaticHost>)
    ensures forall p :: p in StaticPairs(hosts) <==> exists h :: h in hosts && p in HostPairs(h)
  {
    if hosts != [] {
      var init, last := hosts[..|hosts| - 1], hosts[|hosts| - 1];
      StaticPairsUnion(init);
      assert hosts == init + [last];
      assert forall h :: h in hosts <==> h in init || h == last;
    }
  }

  lemma StaticTitle()
    ensures IsComment(STATIC_TITLE)
  {}

  lemma SectionIsLines(hosts: seq<StaticHost>)
    ensures Published(StaticText(hosts)) == Published(StaticLines(hosts))
  {
    if hosts != [] {
      StaticTitle();
      SectionPublishes(STATIC_TITLE, StaticLines(hosts));
    }
  }

  /** The static section publishes exactly the configured pairs, if newlines stand
      only behind the last name of a host. */
  lemma StaticTextPublishes(hosts: seq<StaticHost>)
    requires forall h | h in hosts :: ValidStatic(h) && NewlinesTrail(h)
    ensures Published(StaticText(hosts)) == StaticPairs(hosts)
  {
    SectionIsLines(hosts);
    StaticLinesUnion(hosts);
    StaticPairsUnion(hosts);
    forall h | h in hosts ensures Published(StaticLine(h)) == HostPairs(h) {
      StaticLinePublishes(h);
    }
  }

  /** Pairwise different names in the whole section. */
  ghost predicate AllDistinct(hosts: seq<StaticHost>) {
    && (forall h | h in hosts :: DistinctNames(h))
    && (forall g, h, w | g in hosts && h in hosts && w in TrimAll(g.names) && w in TrimAll(h.names) :: g == h)
  }

  lemma NamesOfHost(h: StaticHost, ip: Addr, w: string)
    requires ValidStatic(h) && (ip, w) in Published(StaticLine(h))
    ensures w in TrimAll(h.names)
  {
    var text := Join(StaticWords(h), " ");
    HostPieces(h);
    HostWords(h);
    PublishedNames(text, ip, w);
    LaterOfHost(text, ShowIp(h.ip), TrimAll(h.names), w);
  }

  lemma LaterOfHost(text: string, first: string, names: seq<string>, w: string)
    requires LaterWord(text, w) && Words(text) == [first] + names
    ensures w in names
  {
    var k :| 1 <= k < |Words(text)| && Words(text)[k] == w;
    assert names[k - 1] == w;
  }

  lemma OnlyItsHost(hosts: seq<StaticHost>, h: StaticHost, ip: Addr, w: string)
    requires (forall g | g in hosts :: ValidStatic(g)) && AllDistinct(hosts) && h in hosts && w in TrimAll(h.names)
    ensures SomePublishes(hosts, (ip, w)) ==> (ip, w) in Published(StaticLine(h))
  {
    if SomePublishes(hosts, (ip, w)) {
      var g :| g in hosts && (ip, w) in Published(StaticLine(g));
      NamesOfHost(g, ip, w);
      assert g == h;
    }
  }

  lemma SectionLosesName(hosts: seq<StaticHost>, h: StaticHost)
    requires (forall g | g in hosts :: ValidStatic(g)) && AllDistinct(hosts) && h in hosts && !NewlinesTrail(h)
    ensures Published(StaticText(hosts)) != StaticPairs(hosts)
  {
    var lost := NewlineLosesName(h);
    LostIsConfigured(h, lost);
    SectionIsLines(hosts);
    StaticLinesUnion(hosts);
    StaticPairsUnion(hosts);
    OnlyItsHost(hosts, h, h.ip, lost);
    assert (h.ip, lost) in StaticPairs(hosts) && (h.ip, lost) !in Published(StaticText(hosts));
  }

  /** With pairwise different names, the static section publishes exactly the
      configured pairs if and only if newlines stand only behind the last name of
      a host. */
  lemma StaticTextExactly(hosts: seq<StaticHost>)
    requires (forall h | h in hosts :: ValidStatic(h)) && AllDistinct(hosts)
    ensures Published(StaticText(hosts)) == StaticPairs(hosts) <==> forall h | h in hosts :: NewlinesTrail(h)
  {
    if forall h | h in hosts :: NewlinesTrail(h) {
      StaticTextPublishes(hosts);
    } else {
      var h :| h in hosts && !NewlinesTrail(h);
      SectionLosesName(hosts, h);
    }
  }

  lemma JoinFour(a: string, b: string, c: string, d: string)
    ensures Join([a, b, c, d], ".") == a + "." + b + "." + c + "." + d
  {
    assert [a, b, c, d][1..] == [b, c, d] && [b, c, d][1..] == [c, d] && [c, d][1..] == [d];
    var cd := c + "." + d;
    var bcd := b + "." + cd;
    assert Join([c, d], ".") == cd && Join([b, c, d], ".") == bcd;
    assert a + "." + bcd == a + "." + b + "." + c + "." + d;
  }

  lemma ShownFour(ip: Addr)
    ensures
      var o := Octets(ip);
      ShowIp(ip) == Dec(o[0]) + "." + Dec(o[1]) + "." + Dec(o[2]) + "." + Dec(o[3])
  {
    var o := Octets(ip);
    JoinFour(Dec(o[0]), Dec(o[1]), Dec(o[2]), Dec(o[3]));
  }

  lemma LineOf(ip: Addr, name: string, line: string)
    requires IsHostname(name) && line == ShowIp(ip) + " " + name
    ensures LinePairs(line) == {(ip, name)}
  {
    AddressLinePublishes(ip, name);
    ShownIsWord(ip);
    HostnameChars(name);
    PublishedLine(line);
  }

  lemma LocalhostName(name: string)
    requires name == "localhost"
    ensures IsHostname(name)
  {
    SplitWhole(name, '.');
    forall c | c in name ensures 'a' <= c <= 'z' {}
  }

  lemma Three(n: nat)
    requires 100 <= n < 1000
    ensures Dec(n) == [Digit(n / 100), Digit(n / 10 % 10), Digit(n % 10)]
  {
    assert Dec(n / 10) == [Digit(n / 100)] + [Digit(n / 10 % 10)];
  }

  function Digit(n: nat): char
    requires n < 10
  {
    ('0' as int + n) as char
  }

  lemma LocalhostOctets()
    ensures Octets(0x7F00_0001) == [127, 0, 0, 1]
  {}

  lemma LocalhostDigits()
    ensures Dec(127) == "127" && Dec(0) == "0" && Dec(1) == "1"
  {
    Three(127);
  }

  lemma LocalhostAddress()
    ensures ShowIp(0x7F00_0001) == "127.0.0.1"
  {
    LocalhostOctets();
    LocalhostDigits();
    ShownFour(0x7F00_0001);
  }

  lemma LocalhostLine()
    ensures LinePairs(LOCALHOST) == {(0x7F00_0001, "localhost")}
  {
    LocalhostName("localhost");
    LocalhostAddress();
    LineOf(0x7F00_0001, "localhost", LOCALHOST);
  }

  /** The whole file: localhost, the configured static pairs, and the addresses of
      the name states. */
  lemma FilePublishes(hosts: seq<StaticHost>, names: seq<NameState>)
    requires forall h | h in hosts :: ValidStatic(h) && NewlinesTrail(h)
    requires forall n | n in names :: IsHostname(n.name)
    ensures Published(HostsText(hosts, names)) == {(0x7F00_0001, "localhost")} + StaticPairs(hosts) + PairsOf(names)
  {
    HostsPublish(hosts, names);
    LocalhostLine();
    StaticTextPublishes(hosts);
  }

  // ---- a name with a newline ----

  lemma DigitsAreLabel(s: string)
    requires s != "" && |s| <= 63 && forall c | c in s :: IsDigit(c)
    ensures IsLabel(s)
  {
    assert s[0] in s && s[|s| - 1] in s;
  }

  lemma OctetLabel(n: nat)
    requires n <= 255
    ensures |Dec(n)| <= 3 && IsLabel(Dec(n))
  {
    assert Pow10(2) == 100 && Pow10(3) == 10 * Pow10(2);
    DecShape(n, 3);
    DigitsAreLabel(Dec(n));
  }

  /** A dotted quad passes for a hostname. */
  lemma ShownIsHostname(ip: Addr)
    ensures IsHostname(ShowIp(ip))
  {
    var o := Octets(ip);
    OctetsCompose(ip);
    OctetLabel(o[0]);
    OctetLabel(o[1]);
    OctetLabel(o[2]);
    OctetLabel(o[3]);
    ShownFour(ip);
    SplitOfJoin([Dec(o[0]), Dec(o[1]), Dec(o[2]), Dec(o[3])], '.');
  }

  lemma ShownNormalized(ip: Addr)
    ensures Trim("\n" + ShowIp(ip)) == ShowIp(ip) == NormalizeName("\n" + ShowIp(ip))
  {
    var s := ShowIp(ip);
    ShownIsWord(ip);
    ShowIpChars(ip);
    ShownFour(ip);
    assert ("\n" + s)[1..] == s && TrimStart("\n" + s) == TrimStart(s);
    var last := Dec(Octets(ip)[3]);
    assert s[|s| - 1] == last[|last| - 1] && last[|last| - 1] in last;
    forall i | 0 <= i < |s| ensures Lower(s[i]) == s[i] {
      assert s[i] in s;
    }
  }

  /** A static host of one address whose first name is a newline and another
      address. */
  function SplitHost(ip: Addr, other: Addr, name: string): StaticHost {
    StaticHost(ip, ["\n" + ShowIp(other), name])
  }

  lemma SplitHostText(ip: Addr, other: Addr, name: string)
    ensures StaticLine(SplitHost(ip, other, name)) == (ShowIp(ip) + " " + "\n") + AddressLine(other, name)
  {
    var a, b := "\n" + ShowIp(other), name;
    assert [a, b][1..] == [b] && Join([a, b], " ") == a + " " + b;
  }

  lemma SplitHostIsValid(ip: Addr, other: Addr, name: string)
    requires IsHostname(NormalizeName(name))
    ensures ValidStatic(SplitHost(ip, other, name)) && !NewlinesTrail(SplitHost(ip, other, name))
    ensures TrimAll(SplitHost(ip, other, name).names) == [ShowIp(other), Trim(name)]
  {
    var h := SplitHost(ip, other, name);
    ShownNormalized(other);
    ShownIsHostname(other);
    assert ("\n" + ShowIp(other))[0] == '\n' && '\n' in h.names[0];
  }

  lemma SplitHostPublishes(ip: Addr, other: Addr, name: string)
    requires IsHostname(name)
    ensures (other, name) in Published(StaticLine(SplitHost(ip, other, name)))
  {
    SplitHostText(ip, other, name);
    AddressLinePublishes(other, name);
    PublishedConcat(ShowIp(ip) + " " + "\n", AddressLine(other, name));
  }

  /** It passes validation, and the file then publishes the name under the other
      address, which nobody configured. */
  lemma NewlinePublishesUnconfigured(ip: Addr, other: Addr, name: string)
    requires ip != other && IsHostname(name) && IsHostname(NormalizeName(name))
    ensures
      var h := SplitHost(ip, other, name);
      && ValidStatic(h) && !NewlinesTrail(h)
      && (other, name) in Published(StaticText([h])) && (other, name) !in StaticPairs([h])
  {
    var h := SplitHost(ip, other, name);
    SplitHostIsValid(ip, other, name);
    SplitHostPublishes(ip, other, name);
    SectionIsLines([h]);
    OneStatic(h);
  }

  lemma OneStatic(h: StaticHost)
    ensures StaticLines([h]) == StaticLine(h) && StaticPairs([h]) == HostPairs(h)
  {
    assert [h][..0] == [];
    assert StaticLines([]) + StaticLine(h) == StaticLine(h);
  }
}
