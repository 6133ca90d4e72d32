/** Which names validation accepts, and which it takes for one, character by
    character. */
module Names {
  import opened Text
  import opened Config

  // ---- letters ----

  /** The same character, or one letter in two cases. */
  ghost predicate SameLetter(c: char, d: char) {
    || c == d
    || ('A' <= c <= 'Z' && d as int == c as int + 32)
    || ('A' <= d <= 'Z' && c as int == d as int + 32)
  }

  ghost predicate SameText(a: string, b: string) {
    |a| == |b| && forall i | 0 <= i < |a| :: SameLetter(a[i], b[i])
  }

  predicate IsUpper(c: char) {
    'A' <= c <= 'Z'
  }

  lemma LowerLetter(c: char, d: char)
    ensures Lower(c) == Lower(d) <==> SameLetter(c, d)
    ensures !IsUpper(Lower(c)) && SameLetter(Lower(c), c)
  {}

  /** Two texts are lower-cased to one exactly when they differ in case only. */
  lemma LowerExactly(a: string, b: string)
    ensures LowerAll(a) == LowerAll(b) <==> SameText(a, b)
  {
    forall i | 0 <= i < |a| && |a| == |b| ensures LowerAll(a)[i] == LowerAll(b)[i] <==> SameLetter(a[i], b[i]) {
      LowerLetter(a[i], b[i]);
    }
  }

  lemma LowerKeeps(s: string)
    ensures SameText(LowerAll(s), s) && forall c | c in LowerAll(s) :: !IsUpper(c)
  {
    forall i | 0 <= i < |s| ensures !IsUpper(LowerAll(s)[i]) && SameLetter(LowerAll(s)[i], s[i]) {
      LowerLetter(s[i], s[i]);
    }
  }

  // ---- normalized names ----

  lemma {:induction false} DotsDropped(t: string)
    ensures TrimDots(t) <= t && forall i | |TrimDots(t)| <= i < |t| :: t[i] == '.'
  {
    if t != "" && t[|t| - 1] == '.' {
      DotsDropped(t[..|t| - 1]);
    }
  }

  /** A normalized name is what trimming leaves, less all the dots it ends with and
      nothing else, with no upper-case letter and every character kept but for its
      case. */
  lemma NormalizedExactly(name: string)
    ensures
      var n, t := NormalizeName(name), Trim(name);
      && |n| <= |t| && SameText(n, t[..|n|]) && (forall c | c in n :: !IsUpper(c))
      && (forall i | |n| <= i < |t| :: t[i] == '.') && (n != "" ==> t[|n| - 1] != '.')
  {
    var t := Trim(name);
    DotsDropped(t);
    TrimDotsPrefix(t);
    LowerKeeps(TrimDots(t));
  }

  lemma SameSpace(c: char, d: char)
    requires SameLetter(c, d)
    ensures (IsSpace(c) <==> IsSpace(d)) && (c == '.' <==> d == '.')
  {}

  lemma {:induction false} TrimStartSame(a: string, b: string)
    requires SameText(a, b)
    ensures SameText(TrimStart(a), TrimStart(b))
  {
    if a != "" {
      SameSpace(a[0], b[0]);
      if IsSpace(a[0]) {
        TrimStartSame(a[1..], b[1..]);
      }
    }
  }

  lemma {:induction false} TrimEndSame(a: string, b: string)
    requires SameText(a, b)
    ensures SameText(TrimEnd(a), TrimEnd(b))
  {
    if a != "" {
      SameSpace(a[|a| - 1], b[|b| - 1]);
      if IsSpace(a[|a| - 1]) {
        TrimEndSame(a[..|a| - 1], b[..|b| - 1]);
      }
    }
  }

  lemma {:induction false} TrimDotsSame(a: string, b: string)
    requires SameText(a, b)
    ensures SameText(TrimDots(a), TrimDots(b))
  {
    if a != "" {
      SameSpace(a[|a| - 1], b[|b| - 1]);
      if a[|a| - 1] == '.' {
        TrimDotsSame(a[..|a| - 1], b[..|b| - 1]);
      }
    }
  }

  /** Names that differ in case only are one name. */
  lemma CaseDoesNotMatter(a: string, b: string)
    requires SameText(a, b)
    ensures NormalizeName(a) == NormalizeName(b)
  {
    TrimStartSame(a, b);
    TrimEndSame(TrimStart(a), TrimStart(b));
    TrimDotsSame(Trim(a), Trim(b));
    LowerExactly(TrimDots(Trim(a)), TrimDots(Trim(b)));
  }

  // ---- hostnames ----

  ghost predicate IsHostChar(c: char) {
    LetterOrDigit(c) || c == '-' || c == '.'
  }

  ghost predicate DotWithin(s: string, i: nat)
    requires i + 64 <= |s|
  {
    exists j :: i <= j < i + 64 && s[j] == '.'
  }

  /** A dot within any 64 characters in a row. */
  ghost predicate DotsOften(s: string) {
    forall i: nat | i + 64 <= |s| :: DotWithin(s, i)
  }

  /** A letter or digit on both sides of every inner dot. */
  ghost predicate DotsApart(s: string) {
    forall i | 0 < i < |s| - 1 && s[i] == '.' :: LetterOrDigit(s[i - 1]) && LetterOrDigit(s[i + 1])
  }

  /** Letters, digits, hyphens and dots, a letter or digit at both ends and on both
      sides of every dot, and no 64 characters in a row without a dot. */
  ghost predicate IsDotted(s: string) {
    && s != "" && LetterOrDigit(s[0]) && LetterOrDigit(s[|s| - 1])
    && (forall i | 0 <= i < |s| :: IsHostChar(s[i]))
    && DotsApart(s) && DotsOften(s)
  }

  lemma OneLabel(w: string)
    requires '.' !in w
    ensures IsDotted(w) <==> IsLabel(w)
  {
    forall i | 0 <= i < |w| ensures IsLabel(w) ==> LetterOrDigit(w[i]) || w[i] == '-' {
      assert w[i] in w;
    }
    assert IsDotted(w) && |w| >= 64 ==> DotWithin(w, 0);
  }

  /** A text cut at a dot. */
  ghost predicate CutAt(s: string, w: string, rest: string) {
    && '.' !in w && |s| == |w| + 1 + |rest| && s[|w|] == '.'
    && (forall j | 0 <= j < |w| :: s[j] == w[j])
    && forall j | 0 <= j < |rest| :: s[|w| + 1 + j] == rest[j]
  }

  lemma OftenThenRest(s: string, w: string, rest: string)
    requires CutAt(s, w, rest) && DotsOften(s)
    ensures |w| <= 63 && DotsOften(rest)
  {
    assert |w| >= 64 ==> DotWithin(s, 0);
    forall i: nat | i + 64 <= |rest| ensures DotWithin(rest, i) {
      assert DotWithin(s, |w| + 1 + i);
      var j :| |w| + 1 + i <= j < |w| + 1 + i + 64 && s[j] == '.';
      assert rest[j - |w| - 1] == '.';
    }
  }

  lemma RestThenOften(s: string, w: string, rest: string)
    requires CutAt(s, w, rest) && |w| <= 63 && DotsOften(rest)
    ensures DotsOften(s)
  {
    forall i: nat | i + 64 <= |s| ensures DotWithin(s, i) {
      if i > |w| {
        var k := i - |w| - 1;
        assert DotWithin(rest, k);
        var j :| k <= j < k + 64 && rest[j] == '.';
        assert s[|w| + 1 + j] == '.';
      }
    }
  }

  lemma ApartExactly(s: string, w: string, rest: string)
    requires CutAt(s, w, rest) && w != "" && rest != "" && rest[0] != '.'
    ensures
      DotsApart(s) && rest[|rest| - 1] != '.' <==>
      LetterOrDigit(w[|w| - 1]) && LetterOrDigit(rest[0]) && DotsApart(rest) && rest[|rest| - 1] != '.'
  {
    if DotsApart(s) {
      forall j | 0 < j < |rest| - 1 && rest[j] == '.'
        ensures LetterOrDigit(rest[j - 1]) && LetterOrDigit(rest[j + 1])
      {
        assert s[|w| + 1 + j] == '.' && s[|w| + j] == rest[j - 1] && s[|w| + 2 + j] == rest[j + 1];
      }
    }
    if LetterOrDigit(w[|w| - 1]) && LetterOrDigit(rest[0]) && DotsApart(rest) {
      forall i | 0 < i < |s| - 1 && s[i] == '.' ensures LetterOrDigit(s[i - 1]) && LetterOrDigit(s[i + 1]) {
        if i > |w| {
          var j := i - |w| - 1;
          assert rest[j] == '.' && s[i - 1] == rest[j - 1] && s[i + 1] == rest[j + 1];
        }
      }
    }
  }

  lemma CharsExactly(s: string, w: string, rest: string)
    requires CutAt(s, w, rest)
    ensures
      (forall i | 0 <= i < |s| :: IsHostChar(s[i])) <==>
      (forall c | c in w :: LetterOrDigit(c) || c == '-') && forall i | 0 <= i < |rest| :: IsHostChar(rest[i])
  {
    if forall i | 0 <= i < |s| :: IsHostChar(s[i]) {
      forall c | c in w ensures LetterOrDigit(c) || c == '-' {
        var i :| 0 <= i < |w| && w[i] == c;
        assert IsHostChar(s[i]);
      }
      forall j | 0 <= j < |rest| ensures IsHostChar(rest[j]) {
        assert IsHostChar(s[|w| + 1 + j]);
      }
    }
    if (forall c | c in w :: LetterOrDigit(c) || c == '-') && forall i | 0 <= i < |rest| :: IsHostChar(rest[i]) {
      forall i | 0 <= i < |s| ensures IsHostChar(s[i]) {
        if i < |w| {
          assert w[i] in w;
        } else if i > |w| {
          assert IsHostChar(rest[i - |w| - 1]);
        }
      }
    }
  }

  lemma LabelFirst(s: string, w: string, rest: string)
    requires CutAt(s, w, rest) && IsDotted(s)
    ensures IsLabel(w) && IsDotted(rest)
  {
    OftenThenRest(s, w, rest);
    CharsExactly(s, w, rest);
    assert rest != "" by { assert s[|s| - 1] != '.'; }
    assert w != "" && s[0] == w[0];
    assert LetterOrDigit(s[|w| + 1]) && LetterOrDigit(s[|w| - 1]);
    ApartExactly(s, w, rest);
  }

  lemma LabelThenDotted(s: string, w: string, rest: string)
    requires CutAt(s, w, rest) && IsLabel(w) && IsDotted(rest)
    ensures IsDotted(s)
  {
    RestThenOften(s, w, rest);
    CharsExactly(s, w, rest);
    assert w[0] in w && w[|w| - 1] in w;
    ApartExactly(s, w, rest);
  }

  lemma {:induction false} FirstDot(s: string) returns (i: nat)
    requires '.' in s
    ensures i < |s| && s[i] == '.' && '.' !in s[..i]
  {
    if s[0] == '.' {
      i := 0;
    } else {
      i := FirstDot(s[1..]);
      assert s[..i + 1] == [s[0]] + s[1..][..i];
      i := i + 1;
    }
  }

  lemma LabelsOfCut(w: string, rest: string)
    requires '.' !in w
    ensures
      (forall part | part in SplitOn(w + "." + rest, '.') :: IsLabel(part)) <==>
      IsLabel(w) && forall part | part in SplitOn(rest, '.') :: IsLabel(part)
  {
    SplitPiece(w, '.', rest);
    var parts := SplitOn(rest, '.');
    assert forall part :: part in [w] + parts <==> part == w || part in parts;
  }

  lemma {:induction false} LabelsExactly(s: string)
    ensures (forall part | part in SplitOn(s, '.') :: IsLabel(part)) <==> IsDotted(s)
    decreases |s|
  {
    if '.' !in s {
      SplitWhole(s, '.');
      OneLabel(s);
    } else {
      var i := FirstDot(s);
      var w, rest := s[..i], s[i + 1..];
      assert s == w + "." + rest;
      LabelsOfCut(w, rest);
      LabelsExactly(rest);
      if IsDotted(s) { LabelFirst(s, w, rest); }
      if IsLabel(w) && IsDotted(rest) { LabelThenDotted(s, w, rest); }
    }
  }

  /** A hostname is exactly such a text of at most 253 characters. */
  lemma HostnameExactly(s: string)
    ensures IsHostname(s) <==> |s| <= 253 && IsDotted(s)
  {
    LabelsExactly(s);
  }
}
