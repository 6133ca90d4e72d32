/** Classification of one DNS response: the CNAME walk and the filtered fold
    over the answer section. */
module Classify {
  import opened Text
  import opened Address
  import opened Config

  /** A domain name; comparison ignores case and needs equal root flags. */
  datatype Name = Name(text: string, fqdn: bool)

  type U32 = n: int | 0 <= n < 0x1_0000_0000

  const MAX_TTL: U32 := 0xFFFF_FFFF

  datatype RData = CName(target: Name) | A(ip: Addr) | Other

  datatype Record = Record(owner: Name, ttl: U32, data: RData)

  datatype ResponseCode = NoError | NxDomain | OtherCode(code: nat)

  datatype Message = Message(truncated: bool, authentic: bool, rcode: ResponseCode, answers: seq<Record>)

  datatype Reason =
    | Truncated | Rcode(code: nat) | NxUnauthenticated | Unauthenticated
    | CnameLoop | NonGlobal(ip: Addr) | OnlyUnrelated(count: nat)
    | NoResponse  // time-out, closed connection or transport error: no message to classify
    | BadName     // the configured name is no domain name: nothing was asked

  datatype Classified =
    | Answer(addrs: seq<Addr>, minTtl: U32)
    | Negative(nxdomain: bool)
    | Failed(reason: Reason, retry: bool)

  /** How many CNAMEs the walk takes before it settles for where it is. */
  const MAX_CNAME_HOPS: nat := 8

  // ---- the walk ----

  /** What comparison sees of a name. */
  function Key(n: Name): Name {
    Name(LowerAll(n.text), n.fqdn)
  }

  function Rooted(n: Name): Name {
    n.(fqdn := true)
  }

  /** Where the first CNAME owned by `k` points. */
  function NextKey(answers: seq<Record>, k: Name): Option<Name> {
    if answers == [] then None
    else if answers[0].data.CName? && Key(answers[0].owner) == k then Some(Key(Rooted(answers[0].data.target)))
    else NextKey(answers[1..], k)
  }

  datatype WalkResult = End(owner: Name) | Loop

  function Walk(answers: seq<Record>, k: Name, seen: set<Name>, hops: nat): WalkResult
    decreases hops, answers
  {
    if hops == 0 then End(k)
    else
      match NextKey(answers, k)
      case None => End(k)
      case Some(t) => if t in seen then Loop else Walk(answers, t, seen + {t}, hops - 1)
  }

  function WalkFrom(answers: seq<Record>, qname: Name): WalkResult {
    var k := Key(Rooted(qname));
    Walk(answers, k, {k}, MAX_CNAME_HOPS)
  }

  // ---- the records at the end of the chain ----

  predicate IsAddressOf(r: Record, k: Name) {
    r.data.A? && Key(r.owner) == k
  }

  /** The A records a name owns, in answer order. */
  function OwnedA(answers: seq<Record>, k: Name): (rs: seq<Record>)
    ensures forall r | r in rs :: r in answers && IsAddressOf(r, k)
  {
    if answers == [] then []
    else
      var init, last := answers[..|answers| - 1], answers[|answers| - 1];
      OwnedA(init, k) + (if IsAddressOf(last, k) then [last] else [])
  }

  /** How many A records belong to other names. */
  function Unrelated(answers: seq<Record>, k: Name): nat {
    if answers == [] then 0
    else
      var last := answers[|answers| - 1];
      Unrelated(answers[..|answers| - 1], k) + (if last.data.A? && Key(last.owner) != k then 1 else 0)
  }

  function Ips(rs: seq<Record>): (ips: seq<Addr>)
    requires forall r | r in rs :: r.data.A?
    ensures |ips| == |rs| && forall i | 0 <= i < |rs| :: ips[i] == rs[i].data.ip
  {
    seq(|rs|, i requires 0 <= i < |rs| => rs[i].data.ip)
  }

  function MinTtl(rs: seq<Record>): U32 {
    if rs == [] then MAX_TTL
    else
      var m, t := MinTtl(rs[..|rs| - 1]), rs[|rs| - 1].ttl;
      if t < m then t else m
  }

  /** The first address of a list that is not global. */
  function FirstBad(ips: seq<Addr>): (ip: Option<Addr>)
    ensures ip.None? <==> forall x | x in ips :: IsGlobalUnicast(x)
    ensures ip.Some? ==> ip.value in ips && !IsGlobalUnicast(ip.value)
  {
    if ips == [] then None
    else
      assert ips == ips[..|ips| - 1] + [ips[|ips| - 1]];
      match FirstBad(ips[..|ips| - 1])
      case Some(ip) => Some(ip)
      case None => if IsGlobalUnicast(ips[|ips| - 1]) then None else Some(ips[|ips| - 1])
  }

  function Gather(answers: seq<Record>, k: Name): Classified {
    var rs := OwnedA(answers, k);
    match FirstBad(Ips(rs))
    case Some(ip) => Failed(NonGlobal(ip), false)
    case None =>
      if rs != [] then Answer(Dedup(Ips(rs)), MinTtl(rs))
      else if Unrelated(answers, k) > 0 then Failed(OnlyUnrelated(Unrelated(answers, k)), false)
      else Negative(false)
  }

  // ---- the verdict ----

  /** The verdict of the header alone, if it decides. */
  function HeaderVerdict(msg: Message, requireAuthenticated: bool): Option<Classified> {
    if msg.truncated then Some(Failed(Truncated, true))
    else
      match msg.rcode
      case NxDomain =>
        if requireAuthenticated && !msg.authentic then Some(Failed(NxUnauthenticated, false)) else Some(Negative(true))
      case OtherCode(code) => Some(Failed(Rcode(code), true))
      case NoError =>
        if requireAuthenticated && !msg.authentic then Some(Failed(Unauthenticated, false)) else None
  }

  function VerdictOf(msg: Message, qname: Name, requireAuthenticated: bool): Classified {
    match HeaderVerdict(msg, requireAuthenticated)
    case Some(v) => v
    case None => SectionVerdict(msg.answers, qname)
  }

  /** The verdict of the answer section, once the header passes. */
  function SectionVerdict(answers: seq<Record>, qname: Name): Classified {
    match WalkFrom(answers, qname)
    case Loop => Failed(CnameLoop, false)
    case End(k) => Gather(answers, k)
  }

  // ---- the computation ----

  method FindCname(answers: seq<Record>, owner: Name) returns (next: Option<Name>)
    ensures next.Some? <==> NextKey(answers, Key(owner)).Some?
    ensures next.Some? ==> Key(Rooted(next.value)) == NextKey(answers, Key(owner)).value
  {
    for i := 0 to |answers|
      invariant NextKey(answers[i..], Key(owner)) == NextKey(answers, Key(owner))
    {
      assert answers[i..][1..] == answers[i + 1..];
      if answers[i].data.CName? && Key(answers[i].owner) == Key(owner) {
        return Some(answers[i].data.target);
      }
    }
    return None;
  }

  method FollowChain(answers: seq<Record>, qname: Name) returns (end: Option<Name>)
    ensures
      match WalkFrom(answers, qname)
      case Loop => end == None
      case End(k) => end.Some? && Key(end.value) == k
  {
    var owner := Rooted(qname);
    var seen := {Key(owner)};
    var hop := 0;
    while hop < MAX_CNAME_HOPS
      invariant 0 <= hop <= MAX_CNAME_HOPS
      invariant Walk(answers, Key(owner), seen, MAX_CNAME_HOPS - hop) == WalkFrom(answers, qname)
    {
      var next := FindCname(answers, owner);
      if next.None? {
        return Some(owner);
      }
      var target := Rooted(next.value);
      if Key(target) in seen {
        return None;
      }
      seen := seen + {Key(target)};
      owner := target;
      hop := hop + 1;
    }
    return Some(owner);
  }

  /** What the fold has found in a part of the answers. */
  datatype Found = Found(addrs: seq<Addr>, minTtl: U32, unrelated: nat, bad: Option<Addr>)

  function FoundIn(answers: seq<Record>, k: Name): Found {
    var rs := OwnedA(answers, k);
    Found(Dedup(Ips(rs)), MinTtl(rs), Unrelated(answers, k), FirstBad(Ips(rs)))
  }

  /** One more record. */
  function WithRecord(f: Found, r: Record, k: Name): Found {
    if !r.data.A? then f
    else if Key(r.owner) != k then f.(unrelated := f.unrelated + 1)
    else
      Found(
        if r.data.ip in f.addrs then f.addrs else f.addrs + [r.data.ip],
        if r.ttl < f.minTtl then r.ttl else f.minTtl,
        f.unrelated,
        if f.bad.Some? then f.bad else if IsGlobalUnicast(r.data.ip) then None else Some(r.data.ip))
  }

  function VerdictOn(f: Found): Classified {
    if f.bad.Some? then Failed(NonGlobal(f.bad.value), false)
    else if f.addrs != [] then Answer(f.addrs, f.minTtl)
    else if f.unrelated > 0 then Failed(OnlyUnrelated(f.unrelated), false)
    else Negative(false)
  }

  lemma FoundNext(answers: seq<Record>, i: nat, k: Name)
    requires i < |answers|
    ensures FoundIn(answers[..i + 1], k) == WithRecord(FoundIn(answers[..i], k), answers[i], k)
  {
    GatherNext(answers[..i], answers[i], k);
    assert answers[..i + 1] == answers[..i] + [answers[i]];
  }

  lemma GatherIsVerdict(answers: seq<Record>, k: Name)
    ensures Gather(answers, k) == VerdictOn(FoundIn(answers, k))
  {
    EmptyDedup(Ips(OwnedA(answers, k)));
  }

  lemma FoundBadStays(answers: seq<Record>, i: nat, k: Name)
    requires i <= |answers| && FoundIn(answers[..i], k).bad.Some?
    ensures Gather(answers, k) == Failed(NonGlobal(FoundIn(answers[..i], k).bad.value), false)
  {
    BadStays(answers, i, k);
  }

  method CollectAddresses(answers: seq<Record>, owner: Name) returns (c: Classified)
    ensures c == Gather(answers, Key(owner))
  {
    var k := Key(owner);
    var addrs: seq<Addr> := [];
    var minTtl: U32 := MAX_TTL;
    var unrelated := 0;
    for i := 0 to |answers|
      invariant FoundIn(answers[..i], k) == Found(addrs, minTtl, unrelated, None)
    {
      var r := answers[i];
      FoundNext(answers, i, k);
      if r.data.A? {
        if Key(r.owner) != k {
          unrelated := unrelated + 1;
          continue;
        }
        if !IsGlobalUnicast(r.data.ip) {
          FoundBadStays(answers, i + 1, k);
          return Failed(NonGlobal(r.data.ip), false);
        }
        if r.data.ip !in addrs {
          addrs := addrs + [r.data.ip];
        }
        minTtl := if r.ttl < minTtl then r.ttl else minTtl;
      }
    }
    assert answers[..|answers|] == answers;
    GatherIsVerdict(answers, k);
    if addrs == [] {
      return if unrelated > 0 then Failed(OnlyUnrelated(unrelated), false) else Negative(false);
    }
    return Answer(addrs, minTtl);
  }

  method Classify(msg: Message, qname: Name, requireAuthenticated: bool) returns (c: Classified)
    ensures c == VerdictOf(msg, qname, requireAuthenticated)
  {
    if msg.truncated {
      return Failed(Truncated, true);
    }
    match msg.rcode
    case NxDomain =>
      return if requireAuthenticated && !msg.authentic then Failed(NxUnauthenticated, false) else Negative(true);
    case OtherCode(code) =>
      return Failed(Rcode(code), true);
    case NoError =>
      if requireAuthenticated && !msg.authentic {
        return Failed(Unauthenticated, false);
      }
      var end := FollowChain(msg.answers, qname);
      if end.None? {
        return Failed(CnameLoop, false);
      }
      c := CollectAddresses(msg.answers, end.value);
  }

  // ---- steps of the fold ----

  lemma EmptyDedup(ips: seq<Addr>)
    ensures Dedup(ips) == [] <==> ips == []
  {
    if ips != [] {
      assert ips[0] in Dedup(ips);
    }
  }

  lemma IpsSnoc(rs: seq<Record>, r: Record)
    requires r.data.A? && forall x | x in rs :: x.data.A?
    ensures Ips(rs + [r]) == Ips(rs) + [r.data.ip]
  {}

  lemma DedupSnoc(ips: seq<Addr>, ip: Addr)
    ensures Dedup(ips + [ip]) == if ip in Dedup(ips) then Dedup(ips) else Dedup(ips) + [ip]
  {
    assert (ips + [ip])[..|ips|] == ips;
  }

  lemma FirstBadSnoc(ips: seq<Addr>, ip: Addr)
    ensures
      FirstBad(ips + [ip]) ==
      if FirstBad(ips).Some? then FirstBad(ips) else if IsGlobalUnicast(ip) then None else Some(ip)
  {
    assert (ips + [ip])[..|ips|] == ips;
  }

  lemma GatherNext(answers: seq<Record>, r: Record, k: Name)
    ensures
      var before, after := OwnedA(answers, k), OwnedA(answers + [r], k);
      if IsAddressOf(r, k) then
        && after == before + [r]
        && MinTtl(after) == (if r.ttl < MinTtl(before) then r.ttl else MinTtl(before))
        && Dedup(Ips(after)) ==
          (if r.data.ip in Dedup(Ips(before)) then Dedup(Ips(before)) else Dedup(Ips(before)) + [r.data.ip])
        && FirstBad(Ips(after)) ==
             (if FirstBad(Ips(before)).Some? then FirstBad(Ips(before))
              else if IsGlobalUnicast(r.data.ip) then None else Some(r.data.ip))
      else after == before
    ensures Unrelated(answers + [r], k) == Unrelated(answers, k) + (if r.data.A? && Key(r.owner) != k then 1 else 0)
  {
    assert (answers + [r])[..|answers|] == answers;
    var before := OwnedA(answers, k);
    if IsAddressOf(r, k) {
      assert (before + [r])[..|before|] == before;
      IpsSnoc(before, r);
      DedupSnoc(Ips(before), r.data.ip);
      FirstBadSnoc(Ips(before), r.data.ip);
    }
  }

  lemma BadNext(answers: seq<Record>, r: Record, k: Name)
    requires FirstBad(Ips(OwnedA(answers, k))).Some?
    ensures FirstBad(Ips(OwnedA(answers + [r], k))) == FirstBad(Ips(OwnedA(answers, k)))
  {
    GatherNext(answers, r, k);
  }

  lemma {:induction false} BadStays(answers: seq<Record>, i: nat, k: Name)
    requires i <= |answers| && FirstBad(Ips(OwnedA(answers[..i], k))).Some?
    ensures FirstBad(Ips(OwnedA(answers, k))) == FirstBad(Ips(OwnedA(answers[..i], k)))
  {
    if i == |answers| {
      assert answers[..i] == answers;
    } else {
      var init, last := answers[..|answers| - 1], answers[|answers| - 1];
      assert init[..i] == answers[..i];
      assert answers == init + [last];
      BadStays(init, i, k);
      BadNext(init, last, k);
    }
  }
}
