/** The string operations the codec, the configuration and the hosts file are
    built from, as the standard library of the original defines them. */
module Text {

  datatype Option<+T> = None | Some(value: T)

  /** The Unicode White_Space property, which trimming and splitting use. */
  predicate IsSpace(c: char) {
    var n := c as int;
    9 <= n <= 13 || n == 32 || n == 0x85 || n == 0xA0 || n == 0x1680 || 0x2000 <= n <= 0x200A ||
    n == 0x2028 || n == 0x2029 || n == 0x202F || n == 0x205F || n == 0x3000
  }

  ghost predicate NoSpace(s: string) {
    forall c | c in s :: !IsSpace(c)
  }

  /** A non-empty string without white space. */
  ghost predicate IsWord(s: string) {
    s != "" && NoSpace(s)
  }

  function Join(ws: seq<string>, sep: string): string {
    if |ws| == 0 then ""
    else if |ws| == 1 then ws[0]
    else ws[0] + sep + Join(ws[1..], sep)
  }

  /** All pieces between occurrences of `sep`; always at least one. */
  function SplitOn(s: string, sep: char): (pieces: seq<string>)
    ensures |pieces| >= 1
  {
    if s == "" then [""]
    else
      var rest := SplitOn(s[1..], sep);
      if s[0] == sep then [""] + rest else [[s[0]] + rest[0]] + rest[1..]
  }

  /** Lines of a text. A carriage return before a newline stays on the line:
      every user of `Lines` trims the line first. */
  function Lines(s: string): seq<string> {
    DropEmptyEnd(SplitOn(s, '\n'))
  }

  function DropEmptyEnd(pieces: seq<string>): seq<string>
    requires pieces != []
  {
    if pieces[|pieces| - 1] == "" then pieces[..|pieces| - 1] else pieces
  }

  function TrimStart(s: string): string {
    if s != "" && IsSpace(s[0]) then TrimStart(s[1..]) else s
  }

  function TrimEnd(s: string): string {
    if s != "" && IsSpace(s[|s| - 1]) then TrimEnd(s[..|s| - 1]) else s
  }

  function Trim(s: string): string {
    TrimEnd(TrimStart(s))
  }

  function StripPrefix(s: string, prefix: string): Option<string> {
    if prefix <= s then Some(s[|prefix|..]) else None
  }

  /** Maximal runs of characters that are not white space, `cur` being the run
      read so far. */
  function WordsFrom(s: string, cur: string): seq<string> {
    if s == "" then if cur == "" then [] else [cur]
    else if IsSpace(s[0]) then (if cur == "" then [] else [cur]) + WordsFrom(s[1..], "")
    else WordsFrom(s[1..], cur + [s[0]])
  }

  function Words(s: string): seq<string> {
    WordsFrom(s, "")
  }

  predicate IsDigit(c: char) {
    '0' <= c <= '9'
  }

  /** Decimal digits of a number, without leading zeros. */
  function Dec(n: nat): (s: string)
    ensures s != "" && forall c | c in s :: IsDigit(c)
  {
    if n < 10 then [('0' as int + n) as char] else Dec(n / 10) + [('0' as int + n % 10) as char]
  }

  /** The elements of `s` without repetitions, in order of first occurrence. */
  function Dedup<T(==,!new)>(s: seq<T>): (r: seq<T>)
    ensures forall x :: x in r <==> x in s
    ensures forall i, j | 0 <= i < j < |r| :: r[i] != r[j]
  {
    if s == [] then []
    else
      var init, last := Dedup(s[..|s| - 1]), s[|s| - 1];
      assert s == s[..|s| - 1] + [last];
      if last in s[..|s| - 1] then init else init + [last]
  }

  lemma {:induction false} SplitPiece(w: string, sep: char, rest: string)
    requires sep !in w
    ensures SplitOn(w + [sep] + rest, sep) == [w] + SplitOn(rest, sep)
  {
    var s := w + [sep] + rest;
    if w == "" {
      assert s[1..] == rest;
    } else {
      assert s[1..] == w[1..] + [sep] + rest;
      SplitPiece(w[1..], sep, rest);
      assert [w[0]] + w[1..] == w;
    }
  }

  lemma {:induction false} SplitWhole(w: string, sep: char)
    requires sep !in w
    ensures SplitOn(w, sep) == [w]
  {
    if w != "" {
      SplitWhole(w[1..], sep);
      assert [w[0]] + w[1..] == w;
    }
  }

  /** Splitting undoes joining, for pieces free of the separator. */
  lemma {:induction false} SplitOfJoin(ws: seq<string>, sep: char)
    requires |ws| > 0 && forall w | w in ws :: sep !in w
    ensures SplitOn(Join(ws, [sep]), sep) == ws
  {
    assert ws[0] in ws;
    if |ws| == 1 {
      SplitWhole(ws[0], sep);
    } else {
      assert forall w | w in ws[1..] :: w in ws;
      SplitOfJoin(ws[1..], sep);
      SplitPiece(ws[0], sep, Join(ws[1..], [sep]));
    }
  }

  /** Joining undoes splitting. */
  lemma {:induction false} JoinOfSplit(s: string, sep: char)
    ensures Join(SplitOn(s, sep), [sep]) == s
  {
    if s != "" {
      var rest := SplitOn(s[1..], sep);
      JoinOfSplit(s[1..], sep);
      if s[0] == sep {
        assert ([""] + rest)[1..] == rest;
      } else {
        assert ([[s[0]] + rest[0]] + rest[1..])[1..] == rest[1..];
      }
      assert s == [s[0]] + s[1..];
    }
  }

  lemma DropEmptyEndCons(line: string, pieces: seq<string>)
    requires pieces != []
    ensures DropEmptyEnd([line] + pieces) == [line] + DropEmptyEnd(pieces)
  {
    assert ([line] + pieces)[|pieces|] == pieces[|pieces| - 1];
    assert ([line] + pieces)[..|pieces|] == [line] + pieces[..|pieces| - 1];
  }

  lemma LinesCons(line: string, rest: string)
    requires '\n' !in line
    ensures Lines(line + "\n" + rest) == [line] + Lines(rest)
  {
    SplitPiece(line, '\n', rest);
    DropEmptyEndCons(line, SplitOn(rest, '\n'));
  }

  lemma LinesEnd()
    ensures Lines("") == []
  {}

  lemma TrimNoop(s: string)
    requires s != "" && !IsSpace(s[0]) && !IsSpace(s[|s| - 1])
    ensures Trim(s) == s
  {}

  lemma {:induction false} WordsSkip(w: string, rest: string, cur: string)
    requires NoSpace(w)
    ensures WordsFrom(w + rest, cur) == WordsFrom(rest, cur + w)
  {
    if w == "" {
      assert w + rest == rest && cur + w == cur;
    } else {
      assert (w + rest)[0] == w[0] && w[0] in w;
      assert (w + rest)[1..] == w[1..] + rest;
      assert forall c | c in w[1..] :: c in w;
      WordsSkip(w[1..], rest, cur + [w[0]]);
      assert cur + [w[0]] + w[1..] == cur + w;
    }
  }

  /** Splitting undoes joining, for words. */
  lemma {:induction false} WordsOfJoin(ws: seq<string>)
    requires forall w | w in ws :: IsWord(w)
    ensures Words(Join(ws, " ")) == ws
  {
    if |ws| == 1 {
      assert ws[0] in ws;
      WordsSkip(ws[0], "", "");
      assert ws[0] + "" == ws[0] && "" + ws[0] == ws[0];
    } else if |ws| > 1 {
      var rest := Join(ws[1..], " ");
      assert ws[0] in ws && forall w | w in ws[1..] :: w in ws;
      WordsOfJoin(ws[1..]);
      assert ws[0] + " " + rest == ws[0] + (" " + rest);
      WordsSkip(ws[0], " " + rest, "");
      assert "" + ws[0] == ws[0] && (" " + rest)[1..] == rest;
    }
  }

  lemma {:induction false} JoinLines(ws: seq<string>)
    requires forall w | w in ws :: '\n' !in w
    ensures '\n' !in Join(ws, " ")
  {
    if |ws| == 1 {
      assert ws[0] in ws;
    } else if |ws| > 1 {
      assert ws[0] in ws && forall w | w in ws[1..] :: w in ws;
      JoinLines(ws[1..]);
    }
  }

  lemma {:induction false} DedupOfDistinct<T(!new)>(s: seq<T>)
    requires forall i, j | 0 <= i < j < |s| :: s[i] != s[j]
    ensures Dedup(s) == s
  {
    if s != [] {
      DedupOfDistinct(s[..|s| - 1]);
      assert s == s[..|s| - 1] + [s[|s| - 1]];
    }
  }
}
