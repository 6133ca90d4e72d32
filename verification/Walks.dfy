/** What a verdict depends on: exactly the records of the followed chain. */
module Walks {
  import opened Text
  import opened Address
  import opened Classify

  // ---- the chain as iterates ----

  /** The name reached after `j` CNAMEs, if there are that many. */
  function Iterate(answers: seq<Record>, k: Name, j: nat): Option<Name>
    decreases j
  {
    if j == 0 then Some(k)
    else
      match NextKey(answers, k)
      case None => None
      case Some(t) => Iterate(answers, t, j - 1)
  }

  /** The `j`-th name exists and was seen before: in `seen`, or as an earlier one. */
  ghost predicate Repeats(answers: seq<Record>, k: Name, seen: set<Name>, j: nat) {
    && j > 0 && Iterate(answers, k, j).Some?
    && (Iterate(answers, k, j).value in seen
        || exists i :: 0 < i < j && Iterate(answers, k, i) == Iterate(answers, k, j))
  }

  /** Repetition along the chain, seen from the second name on. */
  lemma RepeatsShift(answers: seq<Record>, k: Name, seen: set<Name>, j: nat)
    requires NextKey(answers, k).Some? && NextKey(answers, k).value !in seen
    ensures
      var t := NextKey(answers, k).value;
      Repeats(answers, k, seen, j + 1) <==> Repeats(answers, t, seen + {t}, j)
  {
    var t := NextKey(answers, k).value;
    assert Iterate(answers, k, j + 1) == Iterate(answers, t, j);
    assert Iterate(answers, k, 1) == Iterate(answers, t, 0) == Some(t);
    if Repeats(answers, k, seen, j + 1) && Iterate(answers, k, j + 1).value !in seen {
      var i :| 0 < i < j + 1 && Iterate(answers, k, i) == Iterate(answers, k, j + 1);
      assert Iterate(answers, k, i) == Iterate(answers, t, i - 1);
    }
    if Repeats(answers, t, seen + {t}, j) && Iterate(answers, t, j).value !in seen {
      if Iterate(answers, t, j).value != t {
        var i :| 0 < i < j && Iterate(answers, t, i) == Iterate(answers, t, j);
        assert Iterate(answers, k, i + 1) == Iterate(answers, t, i);
      }
    }
  }

  /** The walk loops exactly when a name repeats within the hops; otherwise it
      ends at an iterate that has no CNAME or is the last hop. */
  lemma {:induction false} WalkMeaning(answers: seq<Record>, k: Name, seen: set<Name>, hops: nat)
    ensures Walk(answers, k, seen, hops).Loop? <==> exists j :: 0 < j <= hops && Repeats(answers, k, seen, j)
    ensures
      var w := Walk(answers, k, seen, hops);
      w.End? ==> exists j: nat :: j <= hops && Iterate(answers, k, j) == Some(w.owner) &&
                             (j == hops || NextKey(answers, w.owner).None?)
    decreases hops
  {
    var next := NextKey(answers, k);
    if hops == 0 {
      assert Iterate(answers, k, 0) == Some(k);
    } else if next.None? {
      assert Iterate(answers, k, 0) == Some(k);
      forall j | 0 < j <= hops ensures !Repeats(answers, k, seen, j) {
        assert Iterate(answers, k, j).None?;
      }
    } else if next.value in seen {
      assert Iterate(answers, k, 1) == next;
      assert Repeats(answers, k, seen, 1);
    } else {
      var t := next.value;
      var w := Walk(answers, t, seen + {t}, hops - 1);
      WalkMeaning(answers, t, seen + {t}, hops - 1);
      NotFirst(answers, k, seen);
      forall j: nat | j <= hops - 1 ensures Repeats(answers, k, seen, j + 1) <==> Repeats(answers, t, seen + {t}, j) {
        RepeatsShift(answers, k, seen, j);
      }
      if w.Loop? {
        var j :| 0 < j <= hops - 1 && Repeats(answers, t, seen + {t}, j);
        assert Repeats(answers, k, seen, j + 1);
      } else {
        var j: nat :| j <= hops - 1 && Iterate(answers, t, j) == Some(w.owner) &&
                 (j == hops - 1 || NextKey(answers, w.owner).None?);
        assert Iterate(answers, k, j + 1) == Some(w.owner);
        forall j | 0 < j <= hops ensures !Repeats(answers, k, seen, j) {
          assert Repeats(answers, k, seen, (j - 1) + 1) <==> Repeats(answers, t, seen + {t}, j - 1);
        }
      }
    }
  }

  lemma NotFirst(answers: seq<Record>, k: Name, seen: set<Name>)
    requires NextKey(answers, k).Some? && NextKey(answers, k).value !in seen
    ensures !Repeats(answers, k, seen, 1)
  {
    assert Iterate(answers, k, 1) == NextKey(answers, k);
  }

  /** Once the header passes, the loop rejection is returned exactly when two of
      the first nine names of the chain are equal. */
  lemma LoopExactly(msg: Message, qname: Name, requireAuthenticated: bool)
    requires !msg.truncated && msg.rcode == NoError && (requireAuthenticated ==> msg.authentic)
    ensures
      var k := Key(Rooted(qname));
      VerdictOf(msg, qname, requireAuthenticated) == Failed(CnameLoop, false) <==>
      exists i, j :: 0 <= i < j <= 8 && Meet(msg.answers, k, i, j)
  {
    var k := Key(Rooted(qname));
    WalkMeaning(msg.answers, k, {k}, MAX_CNAME_HOPS);
    RepeatsPair(msg.answers, k, MAX_CNAME_HOPS);
  }

  /** The `i`-th and the `j`-th name of the chain are one. */
  ghost predicate Meet(answers: seq<Record>, k: Name, i: nat, j: nat) {
    Iterate(answers, k, j).Some? && Iterate(answers, k, i) == Iterate(answers, k, j)
  }

  /** A repetition among the first names, written symmetrically. */
  lemma RepeatsPair(answers: seq<Record>, k: Name, hops: nat)
    ensures
      (exists j :: 0 < j <= hops && Repeats(answers, k, {k}, j)) <==>
      (exists i, j :: 0 <= i < j <= hops && Meet(answers, k, i, j))
  {
    assert Iterate(answers, k, 0) == Some(k);
    forall j | 0 < j <= hops && Repeats(answers, k, {k}, j)
      ensures exists i :: 0 <= i < j && Meet(answers, k, i, j)
    {
      if Iterate(answers, k, j).value == k {
        assert Meet(answers, k, 0, j);
      } else {
        var i :| 0 < i < j && Iterate(answers, k, i) == Iterate(answers, k, j);
        assert Meet(answers, k, i, j);
      }
    }
    forall i, j | 0 <= i < j <= hops && Meet(answers, k, i, j)
      ensures Repeats(answers, k, {k}, j)
    {}
  }

  // ---- an accepted answer ----

  lemma {:induction false} MinTtlIsMinimum(rs: seq<Record>)
    ensures forall r | r in rs :: MinTtl(rs) <= r.ttl
    ensures rs != [] ==> exists r :: r in rs && r.ttl == MinTtl(rs)
  {
    if rs != [] {
      var init, last := rs[..|rs| - 1], rs[|rs| - 1];
      MinTtlIsMinimum(init);
      assert rs == init + [last];
      if init != [] {
        var r :| r in init && r.ttl == MinTtl(init);
        assert r in rs;
      }
      assert last in rs;
    }
  }

  lemma {:induction false} OwnedAComplete(answers: seq<Record>, k: Name)
    ensures forall r :: r in OwnedA(answers, k) <==> r in answers && IsAddressOf(r, k)
  {
    if answers != [] {
      OwnedAComplete(answers[..|answers| - 1], k);
      assert answers == answers[..|answers| - 1] + [answers[|answers| - 1]];
    }
  }

  /** What makes a name the end of the chain from `k`. */
  ghost predicate EndsChain(answers: seq<Record>, k: Name, owner: Name) {
    exists j :: 0 <= j <= 8 && Iterate(answers, k, j) == Some(owner) &&
                (j == 8 || NextKey(answers, owner).None?)
  }

  /** The addresses and the TTL are those of the A records `owner` has, all of
      which are global. */
  ghost predicate Collects(answers: seq<Record>, owner: Name, addrs: seq<Addr>, minTtl: U32) {
    && addrs != [] && addrs == Dedup(Ips(OwnedA(answers, owner)))
    && (forall ip :: ip in addrs <==> exists r :: r in answers && IsAddressOf(r, owner) && r.data.ip == ip)
    && (forall r | r in answers && IsAddressOf(r, owner) :: IsGlobalUnicast(r.data.ip) && minTtl <= r.ttl)
    && (exists r :: r in answers && IsAddressOf(r, owner) && r.ttl == minTtl)
  }

  lemma GatheredCollects(answers: seq<Record>, owner: Name)
    requires Gather(answers, owner).Answer?
    ensures Collects(answers, owner, Gather(answers, owner).addrs, Gather(answers, owner).minTtl)
  {
    var rs := OwnedA(answers, owner);
    OwnedAComplete(answers, owner);
    MinTtlIsMinimum(rs);
    EmptyDedup(Ips(rs));
    IpsMembers(rs);
  }

  /** An accepted answer: the chain ends at a name whose A records, all global,
      are exactly the source of the addresses, without repetition and in order of
      first occurrence, and of the smallest TTL. */
  lemma AnswerExactly(msg: Message, qname: Name, requireAuthenticated: bool)
    requires VerdictOf(msg, qname, requireAuthenticated).Answer?
    ensures
      var v, k := VerdictOf(msg, qname, requireAuthenticated), Key(Rooted(qname));
      exists owner :: EndsChain(msg.answers, k, owner) && Collects(msg.answers, owner, v.addrs, v.minTtl)
  {
    var k := Key(Rooted(qname));
    WalkMeaning(msg.answers, k, {k}, MAX_CNAME_HOPS);
    var owner := WalkFrom(msg.answers, qname).owner;
    assert EndsChain(msg.answers, k, owner);
    GatheredCollects(msg.answers, owner);
  }

  lemma IpsMembers(rs: seq<Record>)
    requires forall r | r in rs :: r.data.A?
    ensures forall ip :: ip in Ips(rs) <==> exists r :: r in rs && r.data.ip == ip
  {
    forall r | r in rs ensures r.data.ip in Ips(rs) {
      var i :| 0 <= i < |rs| && rs[i] == r;
      assert Ips(rs)[i] == r.data.ip;
    }
  }

  /** The addresses stand in the order of their first records. */
  lemma {:induction false} DedupKeepsFirstOrder(ips: seq<Addr>, a: nat, b: nat)
    requires a < b < |ips| && ips[a] !in ips[..a] && ips[b] !in ips[..b]
    ensures exists i, j :: 0 <= i < j < |Dedup(ips)| && Dedup(ips)[i] == ips[a] && Dedup(ips)[j] == ips[b]
  {
    var init := ips[..|ips| - 1];
    if b < |ips| - 1 {
      assert init[..a] == ips[..a] && init[..b] == ips[..b];
      DedupKeepsFirstOrder(init, a, b);
      var i, j :| 0 <= i < j < |Dedup(init)| && Dedup(init)[i] == ips[a] && Dedup(init)[j] == ips[b];
      assert Dedup(ips)[i] == ips[a] && Dedup(ips)[j] == ips[b];
    } else {
      assert init[a] == ips[a] && ips[a] in init && init == ips[..b];
      var i :| 0 <= i < |Dedup(init)| && Dedup(init)[i] == ips[a];
      assert Dedup(ips) == Dedup(init) + [ips[b]];
      assert Dedup(ips)[i] == ips[a] && Dedup(ips)[|Dedup(init)|] == ips[b];
    }
  }

  // ---- records off the chain ----

  /** The records owned by some of the names, in order. */
  function OwnedBy(answers: seq<Record>, names: set<Name>): seq<Record> {
    if answers == [] then []
    else (if Key(answers[0].owner) in names then [answers[0]] else []) + OwnedBy(answers[1..], names)
  }

  lemma {:induction false} NextKeyOwned(answers: seq<Record>, names: set<Name>, k: Name)
    requires k in names
    ensures NextKey(OwnedBy(answers, names), k) == NextKey(answers, k)
  {
    if answers != [] {
      var rest := OwnedBy(answers[1..], names);
      NextKeyOwned(answers[1..], names, k);
      if Key(answers[0].owner) in names {
        assert OwnedBy(answers, names) == [answers[0]] + rest;
        assert ([answers[0]] + rest)[1..] == rest;
      } else {
        assert OwnedBy(answers, names) == rest;
      }
    }
  }

  lemma OwnedByCons(r: Record, rest: seq<Record>, names: set<Name>)
    ensures OwnedBy([r] + rest, names) == (if Key(r.owner) in names then [r] else []) + OwnedBy(rest, names)
  {
    assert ([r] + rest)[1..] == rest;
  }

  lemma {:induction false} OwnedBySnoc(answers: seq<Record>, r: Record, names: set<Name>)
    ensures OwnedBy(answers + [r], names) == OwnedBy(answers, names) + (if Key(r.owner) in names then [r] else [])
  {
    if answers == [] {
      assert [] + [r] == [r] && [r][1..] == [];
    } else {
      var rest := answers[1..];
      assert answers + [r] == [answers[0]] + (rest + [r]);
      OwnedBySnoc(rest, r, names);
      OwnedByCons(answers[0], rest + [r], names);
      OwnedByCons(answers[0], rest, names);
      assert answers == [answers[0]] + rest;
    }
  }

  lemma {:induction false} OwnedAOwned(answers: seq<Record>, names: set<Name>, k: Name)
    requires k in names
    ensures OwnedA(OwnedBy(answers, names), k) == OwnedA(answers, k)
  {
    if answers != [] {
      var init, last := answers[..|answers| - 1], answers[|answers| - 1];
      OwnedAOwned(init, names, k);
      OwnedBySnoc(init, last, names);
      assert answers == init + [last];
      GatherNext(init, last, k);
      GatherNext(OwnedBy(init, names), last, k);
      assert Key(last.owner) !in names ==> OwnedBy(answers, names) == OwnedBy(init, names);
    }
  }

  /** The names of the chain within the hops. */
  ghost predicate OnChain(answers: seq<Record>, k: Name, hops: nat, names: set<Name>) {
    forall j | 0 <= j <= hops && Iterate(answers, k, j).Some? :: Iterate(answers, k, j).value in names
  }

  lemma {:induction false} WalkOwned(answers: seq<Record>, other: seq<Record>, names: set<Name>,
      k: Name, seen: set<Name>, hops: nat)
    requires OwnedBy(answers, names) == OwnedBy(other, names) && OnChain(answers, k, hops, names)
    ensures Walk(answers, k, seen, hops) == Walk(other, k, seen, hops)
    ensures Walk(answers, k, seen, hops).End? ==> Walk(answers, k, seen, hops).owner in names
    decreases hops
  {
    assert Iterate(answers, k, 0) == Some(k);
    if hops > 0 {
      NextKeyOwned(answers, names, k);
      NextKeyOwned(other, names, k);
      var next := NextKey(answers, k);
      if next.Some? && next.value !in seen {
        forall j | 0 <= j <= hops - 1 && Iterate(answers, next.value, j).Some?
          ensures Iterate(answers, next.value, j).value in names
        {
          assert Iterate(answers, k, j + 1) == Iterate(answers, next.value, j);
        }
        WalkOwned(answers, other, names, next.value, seen + {next.value}, hops - 1);
      }
    }
  }

  /** Records whose owners are off the followed chain do not matter: any two
      messages with the same header that agree on the records of the chain get
      the same verdict, unless there is no address and the verdict only tells
      whether unrelated A records were there. */
  lemma OffChainRecordsDoNotMatter(msg: Message, other: seq<Record>, qname: Name,
      requireAuthenticated: bool, names: set<Name>)
    requires OwnedBy(msg.answers, names) == OwnedBy(other, names)
    requires OnChain(msg.answers, Key(Rooted(qname)), MAX_CNAME_HOPS, names)
    ensures
      SameButUnrelated(VerdictOf(msg, qname, requireAuthenticated),
        VerdictOf(msg.(answers := other), qname, requireAuthenticated))
  {
    SectionOwned(msg.answers, other, qname, names);
    HeaderThenSection(msg, other, qname, requireAuthenticated);
  }

  /** The header decides on its own, or leaves the verdict to the answers. */
  lemma HeaderThenSection(msg: Message, other: seq<Record>, qname: Name, requireAuthenticated: bool)
    ensures
      var v := VerdictOf(msg, qname, requireAuthenticated);
      var w := VerdictOf(msg.(answers := other), qname, requireAuthenticated);
      v == w || (v == SectionVerdict(msg.answers, qname) && w == SectionVerdict(other, qname))
  {}

  /** Equal, or both without any address and no other fault. */
  ghost predicate SameButUnrelated(v: Classified, w: Classified) {
    v == w || (HasNoAddress(v) && HasNoAddress(w))
  }

  predicate HasNoAddress(v: Classified) {
    v == Negative(false) || (v.Failed? && v.reason.OnlyUnrelated?)
  }

  lemma SectionOwned(answers: seq<Record>, other: seq<Record>, qname: Name, names: set<Name>)
    requires OwnedBy(answers, names) == OwnedBy(other, names)
    requires OnChain(answers, Key(Rooted(qname)), MAX_CNAME_HOPS, names)
    ensures SameButUnrelated(SectionVerdict(answers, qname), SectionVerdict(other, qname))
  {
    var k := Key(Rooted(qname));
    WalkOwned(answers, other, names, k, {k}, MAX_CNAME_HOPS);
    if WalkFrom(answers, qname).End? {
      GatherOwned(answers, other, names, WalkFrom(answers, qname).owner);
    }
  }

  lemma GatherOwned(answers: seq<Record>, other: seq<Record>, names: set<Name>, owner: Name)
    requires OwnedBy(answers, names) == OwnedBy(other, names) && owner in names
    ensures SameButUnrelated(Gather(answers, owner), Gather(other, owner))
  {
    OwnedAOwned(answers, names, owner);
    OwnedAOwned(other, names, owner);
  }

  // ---- order of records ----

  /** All CNAMEs of one owner point to one name. */
  ghost predicate OneTarget(answers: seq<Record>) {
    forall r, t | r in answers && t in answers && r.data.CName? && t.data.CName? && Key(r.owner) == Key(t.owner) ::
      Key(Rooted(r.data.target)) == Key(Rooted(t.data.target))
  }

  lemma {:induction false} NextKeyMeaning(answers: seq<Record>, k: Name)
    ensures NextKey(answers, k).Some? ==>
      exists r :: r in answers && r.data.CName? && Key(r.owner) == k &&
        NextKey(answers, k).value == Key(Rooted(r.data.target))
    ensures NextKey(answers, k).None? ==> forall r | r in answers && r.data.CName? :: Key(r.owner) != k
  {
    if answers != [] {
      NextKeyMeaning(answers[1..], k);
      assert answers == [answers[0]] + answers[1..];
    }
  }

  lemma NextKeyPermuted(answers: seq<Record>, other: seq<Record>, k: Name)
    requires OneTarget(answers) && forall r :: r in answers <==> r in other
    ensures NextKey(answers, k) == NextKey(other, k)
  {
    NextKeyMeaning(answers, k);
    NextKeyMeaning(other, k);
  }

  lemma {:induction false} WalkPermuted(answers: seq<Record>, other: seq<Record>, k: Name, seen: set<Name>, hops: nat)
    requires OneTarget(answers) && forall r :: r in answers <==> r in other
    ensures Walk(answers, k, seen, hops) == Walk(other, k, seen, hops)
    decreases hops
  {
    NextKeyPermuted(answers, other, k);
    if hops > 0 && NextKey(answers, k).Some? && NextKey(answers, k).value !in seen {
      var t := NextKey(answers, k).value;
      WalkPermuted(answers, other, t, seen + {t}, hops - 1);
    }
  }

  lemma {:induction false} UnrelatedSome(answers: seq<Record>, k: Name)
    ensures Unrelated(answers, k) > 0 <==> exists r :: r in answers && r.data.A? && Key(r.owner) != k
  {
    if answers != [] {
      var init, last := answers[..|answers| - 1], answers[|answers| - 1];
      UnrelatedSome(init, k);
      assert answers == init + [last];
      assert forall r :: r in answers <==> r in init || r == last;
    }
  }

  /** Verdicts that lead to the same result: same kind, same retry flag, same
      address set, same smallest TTL. */
  ghost predicate SameOutcome(v: Classified, w: Classified) {
    match v
    case Answer(addrs, ttl) => w.Answer? && ttl == w.minTtl && forall ip :: ip in addrs <==> ip in w.addrs
    case Negative(nxdomain) => w == Negative(nxdomain)
    case Failed(_, retry) => w.Failed? && w.retry == retry
  }

  lemma GatherPermuted(answers: seq<Record>, other: seq<Record>, k: Name)
    requires forall r :: r in answers <==> r in other
    ensures SameOutcome(Gather(answers, k), Gather(other, k))
  {
    var rs, ts := OwnedA(answers, k), OwnedA(other, k);
    OwnedAComplete(answers, k);
    OwnedAComplete(other, k);
    assert forall r :: r in rs <==> r in ts;
    IpsMembers(rs);
    IpsMembers(ts);
    UnrelatedSome(answers, k);
    UnrelatedSome(other, k);
    SameMinimum(rs, ts);
    assert rs == [] <==> ts == [] by {
      if rs != [] { assert rs[0] in ts; }
      if ts != [] { assert ts[0] in rs; }
    }
  }

  lemma SameMinimum(rs: seq<Record>, ts: seq<Record>)
    requires forall r :: r in rs <==> r in ts
    ensures MinTtl(rs) == MinTtl(ts)
  {
    MinTtlIsMinimum(rs);
    MinTtlIsMinimum(ts);
    assert rs != [] ==> rs[0] in ts;
    assert ts != [] ==> ts[0] in rs;
  }

  /** When all CNAMEs of an owner agree, the order of the records, and repeating
      them, changes nothing that matters. */
  lemma OrderDoesNotMatter(msg: Message, other: seq<Record>, qname: Name, requireAuthenticated: bool)
    requires OneTarget(msg.answers) && forall r :: r in msg.answers <==> r in other
    ensures
      SameOutcome(VerdictOf(msg, qname, requireAuthenticated),
                  VerdictOf(msg.(answers := other), qname, requireAuthenticated))
  {
    SectionPermuted(msg.answers, other, qname);
    var v := VerdictOf(msg, qname, requireAuthenticated);
    assert HeaderVerdict(msg, requireAuthenticated) == HeaderVerdict(msg.(answers := other), requireAuthenticated);
    assert SameOutcome(v, v);
  }

  lemma SectionPermuted(answers: seq<Record>, other: seq<Record>, qname: Name)
    requires OneTarget(answers) && forall r :: r in answers <==> r in other
    ensures SameOutcome(SectionVerdict(answers, qname), SectionVerdict(other, qname))
  {
    var k := Key(Rooted(qname));
    WalkPermuted(answers, other, k, {k}, MAX_CNAME_HOPS);
    if WalkFrom(answers, qname).End? {
      GatherPermuted(answers, other, WalkFrom(answers, qname).owner);
    }
  }
}
