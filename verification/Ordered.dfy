/** Iteration order of ordered sets: the elements of a finite set, ascending. */
module Ordered {
  import opened Address

  ghost predicate StrictTotal<T(!new)>(lt: (T, T) -> bool) {
    && (forall x :: !lt(x, x))
    && (forall x, y, z :: lt(x, y) && lt(y, z) ==> lt(x, z))
    && (forall x, y :: x == y || lt(x, y) || lt(y, x))
  }

  ghost predicate Ascending<T(!new)>(s: seq<T>, lt: (T, T) -> bool) {
    forall i, j | 0 <= i < j < |s| :: lt(s[i], s[j])
  }

  predicate IsLeast<T(==)>(x: T, s: set<T>, lt: (T, T) -> bool) {
    x in s && forall y | y in s :: x == y || lt(x, y)
  }

  lemma {:induction false} LeastExists<T(!new)>(s: set<T>, lt: (T, T) -> bool) returns (x: T)
    requires StrictTotal(lt) && s != {}
    ensures IsLeast(x, s, lt)
  {
    x :| x in s;
    if s != {x} {
      var y := LeastExists(s - {x}, lt);
      if lt(y, x) { x := y; }
    }
  }

  /** The elements of `s` in ascending order. */
  function Sort<T(==, !new)>(s: set<T>, lt: (T, T) -> bool): (r: seq<T>)
    requires StrictTotal(lt)
    ensures forall x :: x in r <==> x in s
    ensures Ascending(r, lt)
    ensures |r| == |s|
  {
    if s == {} then []
    else
      assert exists x :: IsLeast(x, s, lt) by { var x := LeastExists(s, lt); }
      var x :| IsLeast(x, s, lt);
      [x] + Sort(s - {x}, lt)
  }

  /** Strings compare by character codes. */
  predicate StringLess(a: string, b: string) {
    if b == "" then false
    else if a == "" then true
    else if a[0] == b[0] then StringLess(a[1..], b[1..])
    else a[0] < b[0]
  }

  /** `a` ends, or has the smaller character, at the first position where the two
      differ. */
  ghost predicate DiffersAt(a: string, b: string, n: nat) {
    && n <= |a| && n < |b| && a[..n] == b[..n]
    && (n == |a| || a[n] as int < b[n] as int)
  }

  lemma DiffersNext(a: string, b: string, n: nat)
    requires a != "" && b != "" && a[0] == b[0]
    ensures DiffersAt(a, b, n + 1) <==> DiffersAt(a[1..], b[1..], n)
    ensures !DiffersAt(a, b, 0)
  {
    if n < |a| && n < |b| {
      assert a[..n + 1] == [a[0]] + a[1..][..n] && b[..n + 1] == [b[0]] + b[1..][..n];
    }
  }

  lemma DiffersFirst(a: string, b: string, n: nat)
    requires b != "" && (a == "" || a[0] != b[0])
    ensures DiffersAt(a, b, n) ==> n == 0
  {
    if 0 < n <= |a| && n < |b| {
      assert a[..n][0] == a[0] && b[..n][0] == b[0];
    }
  }

  /** The order of names is that of a dictionary, by character codes. */
  lemma {:induction false} LessExactly(a: string, b: string)
    ensures StringLess(a, b) <==> exists n: nat :: DiffersAt(a, b, n)
  {
    if b != "" && (a == "" || a[0] != b[0]) {
      assert StringLess(a, b) ==> DiffersAt(a, b, 0);
      forall n: nat ensures DiffersAt(a, b, n) ==> n == 0 {
        DiffersFirst(a, b, n);
      }
    } else if b != "" {
      LessExactly(a[1..], b[1..]);
      forall n: nat ensures DiffersAt(a, b, n + 1) <==> DiffersAt(a[1..], b[1..], n) && !DiffersAt(a, b, 0) {
        DiffersNext(a, b, n);
      }
      if n: nat :| DiffersAt(a[1..], b[1..], n) {
        assert DiffersAt(a, b, n + 1);
      }
      if n: nat :| DiffersAt(a, b, n) {
        assert n > 0 && DiffersAt(a[1..], b[1..], n - 1) by { DiffersNext(a, b, n - 1); }
      }
    }
  }

  predicate AddrLess(a: Addr, b: Addr) {
    a < b
  }

  lemma {:induction false} StringTransitive(a: string, b: string, c: string)
    requires StringLess(a, b) && StringLess(b, c)
    ensures StringLess(a, c)
  {
    if a != "" && a[0] == b[0] && b[0] == c[0] {
      StringTransitive(a[1..], b[1..], c[1..]);
    }
  }

  lemma {:induction false} StringTrichotomy(a: string, b: string)
    ensures !StringLess(a, a)
    ensures a == b || StringLess(a, b) || StringLess(b, a)
  {
    if a != "" {
      StringTrichotomy(a[1..], if b == "" then b else b[1..]);
      assert a == [a[0]] + a[1..];
      if b != "" { assert b == [b[0]] + b[1..]; }
    }
  }

  lemma StringOrder()
    ensures StrictTotal(StringLess)
  {
    forall a, b ensures !StringLess(a, a) && (a == b || StringLess(a, b) || StringLess(b, a)) {
      StringTrichotomy(a, b);
    }
    forall a, b, c | StringLess(a, b) && StringLess(b, c) ensures StringLess(a, c) {
      StringTransitive(a, b, c);
    }
  }

  function SortedNames(s: set<string>): (r: seq<string>)
    ensures forall x :: x in r <==> x in s
    ensures Ascending(r, StringLess)
    ensures |r| == |s|
  {
    StringOrder();
    Sort(s, StringLess)
  }

  function SortedAddrs(s: set<Addr>): (r: seq<Addr>)
    ensures forall x :: x in r <==> x in s
    ensures forall i, j | 0 <= i < j < |r| :: r[i] < r[j]
    ensures |r| == |s|
  {
    Sort(s, AddrLess)
  }

  /** An ascending sequence is determined by its elements. */
  lemma {:induction false} AscendingUnique(r: seq<Addr>, t: seq<Addr>)
    requires forall x :: x in r <==> x in t
    requires forall i, j | 0 <= i < j < |r| :: r[i] < r[j]
    requires forall i, j | 0 <= i < j < |t| :: t[i] < t[j]
    ensures r == t
  {
    assert t != [] ==> t[0] in r;
    if r != [] {
      assert r[0] in t && (t != [] ==> t[0] in r);
      var r', t' := r[1..], t[1..];
      forall x ensures x in r' <==> x in t' {
        assert x in r' <==> x in r && x != r[0];
        assert x in t' <==> x in t && x != t[0];
      }
      AscendingUnique(r', t');
    }
  }
}
