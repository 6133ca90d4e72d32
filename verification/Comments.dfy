/** What survives in a rule comment: everything, for endpoint names; a
    non-empty run of the first names otherwise. */
module Comments {
  import opened Text
  import opened Ordered
  import opened Config
  import opened Iptables

  ghost predicate Hostnames(names: set<string>) {
    forall name | name in names :: IsHostname(name)
  }

  /** Names whose comment loses nothing. */
  ghost predicate Fits(names: set<string>) {
    Hostnames(names) && JoinedLength(names) <= 255
  }

  // ---- total length over sets ----

  ghost function SetLength(names: set<string>): nat {
    if names == {} then 0
    else
      var name :| name in names;
      |name| + SetLength(names - {name})
  }

  lemma {:induction false} SetLengthRemove(names: set<string>, name: string)
    requires name in names
    ensures SetLength(names) == |name| + SetLength(names - {name})
  {
    var x :| x in names && SetLength(names) == |x| + SetLength(names - {x});
    if x != name {
      SetLengthRemove(names - {x}, name);
      SetLengthRemove(names - {name}, x);
      assert names - {x} - {name} == names - {name} - {x};
    }
  }

  lemma {:induction false} SetLengthMonotone(part: set<string>, names: set<string>)
    requires part <= names
    ensures SetLength(part) <= SetLength(names)
  {
    if part != {} {
      var name :| name in part;
      SetLengthRemove(part, name);
      SetLengthRemove(names, name);
      SetLengthMonotone(part - {name}, names - {name});
    }
  }

  lemma {:induction false} TotalLengthIsSetLength(ws: seq<string>)
    requires forall i, j | 0 <= i < j < |ws| :: ws[i] != ws[j]
    ensures TotalLength(ws) == SetLength(NameSet(ws))
  {
    if ws == [] {
      assert NameSet(ws) == {};
    } else {
      var init, last := ws[..|ws| - 1], ws[|ws| - 1];
      TotalLengthIsSetLength(init);
      SetLengthRemove(NameSet(ws), last);
      assert ws == init + [last];
      assert NameSet(ws) - {last} == NameSet(init);
    }
  }

  lemma SortedDistinct(names: set<string>)
    ensures
      var ws := SortedNames(names);
      NameSet(ws) == names && forall i, j | 0 <= i < j < |ws| :: ws[i] != ws[j]
  {
    StringOrder();
    var ws := SortedNames(names);
    forall i, j | 0 <= i < j < |ws| ensures ws[i] != ws[j] {
      assert StringLess(ws[i], ws[j]);
    }
  }

  lemma JoinedLengthOf(names: set<string>)
    ensures JoinedLength(names) == SetLength(names) + (if |names| == 0 then 0 else |names| - 1)
  {
    SortedDistinct(names);
    TotalLengthIsSetLength(SortedNames(names));
  }

  lemma {:induction false} SubsetCardinality(part: set<string>, names: set<string>)
    requires part <= names
    ensures |part| <= |names|
  {
    if part != {} {
      var x :| x in part;
      SubsetCardinality(part - {x}, names - {x});
    }
  }

  /** The joined length the configuration checks bounds that of every subset. */
  lemma JoinedLengthMonotone(part: set<string>, names: set<string>)
    requires part <= names
    ensures JoinedLength(part) <= JoinedLength(names)
  {
    JoinedLengthOf(part);
    JoinedLengthOf(names);
    SetLengthMonotone(part, names);
    SubsetCardinality(part, names);
  }

  // ---- joined names ----

  lemma {:induction false} TotalLengthCons(w: string, ws: seq<string>)
    ensures TotalLength([w] + ws) == |w| + TotalLength(ws)
  {
    if ws != [] {
      var init, last := ws[..|ws| - 1], ws[|ws| - 1];
      assert ([w] + ws)[..|ws|] == [w] + init;
      TotalLengthCons(w, init);
    }
  }

  lemma {:induction false} JoinLength(ws: seq<string>)
    ensures |Join(ws, " ")| == TotalLength(ws) + (if ws == [] then 0 else |ws| - 1)
  {
    if ws != [] {
      TotalLengthCons(ws[0], ws[1..]);
      assert ws == [ws[0]] + ws[1..];
      JoinLength(ws[1..]);
    }
  }

  lemma {:induction false} AsciiBytes(s: string)
    requires forall c | c in s :: c as int < 0x80
    ensures ByteLength(s) == |s|
    ensures forall n: nat :: CutBytes(s, n) == if n <= |s| then s[..n] else s
  {
    if s != "" {
      assert s[0] in s && forall c | c in s[1..] :: c in s;
      AsciiBytes(s[1..]);
      forall n: nat ensures CutBytes(s, n) == if n <= |s| then s[..n] else s {
        if 0 < n <= |s| {
          assert s[..n] == [s[0]] + s[1..][..n - 1];
        } else if n > |s| {
          assert s == [s[0]] + s[1..];
        }
      }
    }
  }

  lemma {:induction false} JoinChars(ws: seq<string>)
    requires forall w | w in ws :: IsHostname(w)
    ensures forall c | c in Join(ws, " ") :: IsNameChar(c) || c == ' '
  {
    if ws != [] {
      assert ws[0] in ws && forall w | w in ws[1..] :: w in ws;
      HostnameChars(ws[0]);
      JoinChars(ws[1..]);
    }
  }

  lemma JoinBytes(names: set<string>)
    requires Hostnames(names)
    ensures
      var c := Join(SortedNames(names), " ");
      ByteLength(c) == |c| == JoinedLength(names)
  {
    var ws := SortedNames(names);
    JoinChars(ws);
    AsciiBytes(Join(ws, " "));
    JoinLength(ws);
  }

  /** Within the bound, the comment is the sorted names joined by spaces, and
      splitting it gives the names back. */
  lemma CommentLossless(names: set<string>)
    requires Fits(names)
    ensures CommentOf(names) == Join(SortedNames(names), " ")
    ensures NameSet(Words(CommentOf(names))) == names
    ensures forall c | c in CommentOf(names) :: IsNameChar(c) || c == ' '
  {
    var ws := SortedNames(names);
    JoinBytes(names);
    JoinChars(ws);
    forall w | w in ws ensures IsWord(w) {
      HostnameIsWord(w);
    }
    WordsOfJoin(ws);
    SortedDistinct(names);
  }

  /** The validated configuration makes every subset of the endpoint names fit. */
  lemma EndpointSubsetsFit(cfg: Config, names: set<string>)
    requires Valid(cfg)
    requires names <= NameSet(EndpointNames(cfg))
    ensures Fits(names)
  {
    JoinedLengthMonotone(names, NameSet(EndpointNames(cfg)));
  }

  // ---- truncation ----

  lemma {:induction false} JoinPrefixAtSpace(ws: seq<string>, i: nat)
    requires forall w | w in ws :: IsWord(w)
    requires i < |Join(ws, " ")| && Join(ws, " ")[i] == ' '
    ensures exists k :: 0 < k < |ws| && Join(ws, " ")[..i] == Join(ws[..k], " ")
  {
    assert ws != [] && ws[0] in ws;
    var w, rest := ws[0], ws[1..];
    forall j | 0 <= j < |w| ensures w[j] != ' ' {
      assert w[j] in w;
    }
    if |ws| > 1 {
      var c, r := Join(ws, " "), Join(rest, " ");
      assert c == w + " " + r;
      assert forall v | v in rest :: v in ws;
      if i == |w| {
        assert ws[..1] == [w] && c[..i] == w;
        assert Join(ws[..1], " ") == w;
      } else if i > |w| {
        var j := i - |w| - 1;
        assert r[j] == c[i];
        JoinPrefixAtSpace(rest, j);
        var k :| 0 < k < |rest| && r[..j] == Join(rest[..k], " ");
        assert c[..i] == w + " " + r[..j];
        assert ws[..k + 1][1..] == rest[..k] && ws[..k + 1][0] == w;
        assert Join(ws[..k + 1], " ") == w + " " + Join(rest[..k], " ");
      }
    }
  }

  lemma {:induction false} BeforeLastSpaceCuts(s: string)
    requires ' ' in s
    ensures exists i :: 0 <= i < |s| && s[i] == ' ' && BeforeLastSpace(s) == s[..i]
  {
    if s[|s| - 1] != ' ' {
      var t := s[..|s| - 1];
      assert ' ' in t;
      BeforeLastSpaceCuts(t);
      var i :| 0 <= i < |t| && t[i] == ' ' && BeforeLastSpace(t) == t[..i];
      assert s[i] == ' ' && s[..i] == t[..i];
    }
  }

  /** The comment of any non-empty set of hostnames fits and holds a non-empty
      run of the first names, each of them whole. */
  lemma CommentKeepsFirstNames(names: set<string>)
    requires names != {} && Hostnames(names)
    ensures ByteLength(CommentOf(names)) <= 255
    ensures exists k :: 0 < k <= |names| && CommentOf(names) == Join(SortedNames(names)[..k], " ")
  {
    var ws := SortedNames(names);
    var c := Join(ws, " ");
    JoinChars(ws);
    AsciiBytes(c);
    forall w | w in ws ensures IsWord(w) {
      HostnameIsWord(w);
    }
    if |c| <= MAX_COMMENT_LEN {
      assert ws[..|names|] == ws;
    } else {
      assert ws[0] in ws;
      var i := CutAtSpace(c, ws);
      JoinPrefixAtSpace(ws, i);
      assert forall d | d in c[..i] :: d in c;
      AsciiBytes(c[..i]);
    }
  }

  lemma CutAtSpace(c: string, ws: seq<string>) returns (i: nat)
    requires ws != [] && c == Join(ws, " ") && |c| > MAX_COMMENT_LEN && |ws[0]| <= 253
    ensures i < MAX_COMMENT_LEN && c[i] == ' '
    ensures BeforeLastSpace(c[..MAX_COMMENT_LEN]) == c[..i]
  {
    var cut := c[..MAX_COMMENT_LEN];
    assert |ws| > 1 && c == ws[0] + " " + Join(ws[1..], " ");
    assert cut[|ws[0]|] == ' ';
    BeforeLastSpaceCuts(cut);
    i :| 0 <= i < |cut| && cut[i] == ' ' && BeforeLastSpace(cut) == cut[..i];
    assert cut[..i] == c[..i];
  }

  // ---- what a comment keeps ----

  /** The names that reading a comment back gives. */
  function Kept(names: set<string>): set<string> {
    NameSet(Words(CommentOf(names)))
  }

  lemma EmptyComment()
    ensures CommentOf({}) == "" && Fits({})
  {
    assert SortedNames({}) == [];
  }

  lemma CommentChars(names: set<string>)
    requires Hostnames(names)
    ensures forall c | c in CommentOf(names) :: IsNameChar(c) || c == ' '
  {
    if names == {} {
      EmptyComment();
    } else {
      CommentKeepsFirstNames(names);
      var k :| 0 < k <= |names| && CommentOf(names) == Join(SortedNames(names)[..k], " ");
      assert forall w | w in SortedNames(names)[..k] :: w in SortedNames(names);
      JoinChars(SortedNames(names)[..k]);
    }
  }

  lemma FirstNamesKept(names: set<string>, k: nat)
    requires Hostnames(names) && k <= |names| && CommentOf(names) == Join(SortedNames(names)[..k], " ")
    ensures Kept(names) == NameSet(SortedNames(names)[..k])
  {
    var ws := SortedNames(names)[..k];
    forall w | w in ws ensures IsWord(w) {
      assert w in SortedNames(names);
      HostnameIsWord(w);
    }
    WordsOfJoin(ws);
  }

  lemma FewerNames(names: set<string>, k: nat)
    requires k < |names|
    ensures NameSet(SortedNames(names)[..k]) != names
  {
    var ws := SortedNames(names);
    SortedDistinct(names);
    assert ws[k] in ws && ws[k] !in ws[..k];
  }

  lemma TruncationLosesNames(names: set<string>)
    requires Hostnames(names) && !Fits(names)
    ensures exists k :: 0 < k < |names| && CommentOf(names) == Join(SortedNames(names)[..k], " ")
  {
    EmptyComment();
    JoinBytes(names);
    CommentKeepsFirstNames(names);
    var k :| 0 < k <= |names| && CommentOf(names) == Join(SortedNames(names)[..k], " ");
    assert SortedNames(names)[..|names|] == SortedNames(names);
  }

  /** Of two names that do not fit together a comment keeps the first. */
  lemma KeptOfTwo(a: string, b: string)
    requires a != b && Hostnames({a, b}) && !Fits({a, b})
    ensures Kept({a, b}) == {if StringLess(a, b) then a else b}
  {
    var names := {a, b};
    TruncationLosesNames(names);
    var k :| 0 < k < |names| && CommentOf(names) == Join(SortedNames(names)[..k], " ");
    FirstNamesKept(names, k);
    FirstOfTwo(a, b);
    assert k == 1 && SortedNames(names)[..1] == [SortedNames(names)[0]];
  }

  lemma LessNotBack(a: string, b: string)
    requires StringLess(a, b)
    ensures !StringLess(b, a)
  {
    StringTrichotomy(a, b);
    if StringLess(b, a) {
      StringTransitive(a, b, a);
    }
  }

  lemma FirstOfTwo(a: string, b: string)
    requires a != b
    ensures |{a, b}| == 2 && SortedNames({a, b})[0] == if StringLess(a, b) then a else b
  {
    var names := {a, b};
    assert |names| == 2;
    var ws := SortedNames(names);
    assert ws[0] in ws && ws[1] in ws && StringLess(ws[0], ws[1]);
    StringTrichotomy(ws[0], ws[0]);
    LessNotBack(ws[0], ws[1]);
  }

  /** A comment keeps all names of a set of hostnames exactly if they fit. */
  lemma KeptExactly(names: set<string>)
    requires Hostnames(names)
    ensures Kept(names) == names <==> Fits(names)
  {
    if Fits(names) {
      CommentLossless(names);
    } else {
      TruncationLosesNames(names);
      var k :| 0 < k < |names| && CommentOf(names) == Join(SortedNames(names)[..k], " ");
      FirstNamesKept(names, k);
      FewerNames(names, k);
    }
  }
}
