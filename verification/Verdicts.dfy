/** Verdicts in terms of the message alone: when the header decides and how, what
    the answer section says, and which names are one. */
module Verdicts {
  import opened Text
  import opened Address
  import opened Config
  import opened Names
  import opened Classify
  import opened Walks

  // ---- names ----

  /** The walk takes two names for one exactly when they differ in case only and
      are both rooted or both not. */
  lemma SameNameExactly(a: Name, b: Name)
    ensures Key(a) == Key(b) <==> SameText(a.text, b.text) && a.fqdn == b.fqdn
    ensures Key(Rooted(a)) == Key(Rooted(b)) <==> SameText(a.text, b.text)
  {
    LowerExactly(a.text, b.text);
  }

  /** The record is a CNAME of the name. */
  predicate IsAliasOf(r: Record, k: Name) {
    r.data.CName? && Key(r.owner) == k
  }

  /** The walk takes the first CNAME of a name, and roots its target. */
  lemma {:induction false} FirstAlias(answers: seq<Record>, k: Name, i: nat)
    requires i < |answers| && IsAliasOf(answers[i], k)
    requires forall j | 0 <= j < i :: !IsAliasOf(answers[j], k)
    ensures NextKey(answers, k) == Some(Name(LowerAll(answers[i].data.target.text), true))
  {
    if i > 0 {
      assert !IsAliasOf(answers[0], k);
      FirstAlias(answers[1..], k, i - 1);
    }
  }

  // ---- the header ----

  /** The message is complete and as authentic as is asked. */
  ghost predicate Trusted(msg: Message, requireAuthenticated: bool) {
    !msg.truncated && (requireAuthenticated ==> msg.authentic)
  }

  ghost predicate HeaderPasses(msg: Message, requireAuthenticated: bool) {
    Trusted(msg, requireAuthenticated) && msg.rcode == NoError
  }

  /** Asking the same server again can help. */
  ghost predicate WorthRetrying(msg: Message) {
    msg.truncated || msg.rcode.OtherCode?
  }

  /** What every verdict owes to the header: only a trusted message is accepted,
      NXDOMAIN is the one header that is an answer by itself, and what is worth
      asking again is exactly a truncated message or an error code. */
  lemma HeaderExactly(msg: Message, qname: Name, requireAuthenticated: bool)
    ensures
      var v := VerdictOf(msg, qname, requireAuthenticated);
      && (!v.Failed? ==> Trusted(msg, requireAuthenticated))
      && (v == Negative(true) <==> Trusted(msg, requireAuthenticated) && msg.rcode == NxDomain)
      && (v.Answer? || v == Negative(false) ==> HeaderPasses(msg, requireAuthenticated))
      && (v.Failed? && v.retry <==> WorthRetrying(msg))
      && (requireAuthenticated && !msg.authentic ==> v.Failed?)
  {}

  // ---- the answer section ----

  /** Two of the first nine names of the chain are one. */
  ghost predicate Loops(answers: seq<Record>, k: Name) {
    exists i, j :: 0 <= i < j <= 8 && Meet(answers, k, i, j)
  }

  ghost predicate HasAddress(answers: seq<Record>, owner: Name) {
    exists r :: r in answers && IsAddressOf(r, owner)
  }

  ghost predicate HasNonGlobal(answers: seq<Record>, owner: Name) {
    exists r :: r in answers && IsAddressOf(r, owner) && !IsGlobalUnicast(r.data.ip)
  }

  ghost predicate HasAnyAddress(answers: seq<Record>) {
    exists r :: r in answers && r.data.A?
  }

  lemma {:induction false} IterateFurther(answers: seq<Record>, k: Name, i: nat, j: nat)
    requires i < j && Iterate(answers, k, i).Some? && NextKey(answers, Iterate(answers, k, i).value).None?
    ensures Iterate(answers, k, j).None?
    decreases i
  {
    if i > 0 {
      IterateFurther(answers, NextKey(answers, k).value, i - 1, j - 1);
    }
  }

  /** The chain has one end. */
  lemma OneEnd(answers: seq<Record>, k: Name, a: Name, b: Name)
    requires EndsChain(answers, k, a) && EndsChain(answers, k, b)
    ensures a == b
  {
    var i :| 0 <= i <= 8 && Iterate(answers, k, i) == Some(a) && (i == 8 || NextKey(answers, a).None?);
    var j :| 0 <= j <= 8 && Iterate(answers, k, j) == Some(b) && (j == 8 || NextKey(answers, b).None?);
    if i < j {
      IterateFurther(answers, k, i, j);
    } else if j < i {
      IterateFurther(answers, k, j, i);
    }
  }

  lemma {:induction false} AddressesOf(answers: seq<Record>, owner: Name)
    ensures OwnedA(answers, owner) != [] <==> HasAddress(answers, owner)
    ensures FirstBad(Ips(OwnedA(answers, owner))).Some? <==> HasNonGlobal(answers, owner)
    ensures HasAnyAddress(answers) <==> HasAddress(answers, owner) || Unrelated(answers, owner) > 0
  {
    var rs := OwnedA(answers, owner);
    OwnedAComplete(answers, owner);
    UnrelatedSome(answers, owner);
    IpsMembers(rs);
    assert rs != [] ==> rs[0] in rs;
  }

  lemma GatheredExactly(answers: seq<Record>, owner: Name)
    ensures
      var v := Gather(answers, owner);
      && (v.Failed? && v.reason.NonGlobal? <==> HasNonGlobal(answers, owner))
      && (v.Answer? <==> HasAddress(answers, owner) && !HasNonGlobal(answers, owner))
      && (v == Negative(false) <==> !HasAnyAddress(answers))
      && (v.Failed? && v.reason.OnlyUnrelated? <==> HasAnyAddress(answers) && !HasAddress(answers, owner))
  {
    AddressesOf(answers, owner);
  }

  lemma ChainEnd(answers: seq<Record>, qname: Name)
    ensures
      var k, w := Key(Rooted(qname)), WalkFrom(answers, qname);
      && (w.Loop? <==> Loops(answers, k))
      && (w.End? ==> EndsChain(answers, k, w.owner))
  {
    var k := Key(Rooted(qname));
    WalkMeaning(answers, k, {k}, MAX_CNAME_HOPS);
    RepeatsPair(answers, k, MAX_CNAME_HOPS);
  }

  /** Once the header passes, the answer section decides alone, and never asks for
      another attempt. A chain that loops is rejected. Otherwise, at its one end: a
      non-global A record rejects the message, A records that are all global are
      the answer, and if there is none, A records of other names reject it and a
      section without any is an authenticated negative answer. */
  lemma SectionExactly(msg: Message, qname: Name, requireAuthenticated: bool, owner: Name)
    requires HeaderPasses(msg, requireAuthenticated) && EndsChain(msg.answers, Key(Rooted(qname)), owner)
    ensures
      var v, loops := VerdictOf(msg, qname, requireAuthenticated), Loops(msg.answers, Key(Rooted(qname)));
      && (v == Failed(CnameLoop, false) <==> loops)
      && (v.Failed? && v.reason.NonGlobal? <==> !loops && HasNonGlobal(msg.answers, owner))
      && (v.Answer? <==> !loops && HasAddress(msg.answers, owner) && !HasNonGlobal(msg.answers, owner))
      && (v == Negative(false) <==> !loops && !HasAnyAddress(msg.answers))
      && (v.Failed? && v.reason.OnlyUnrelated? <==>
            !loops && HasAnyAddress(msg.answers) && !HasAddress(msg.answers, owner))
      && (v.Failed? ==> !v.retry)
  {
    var w := WalkFrom(msg.answers, qname);
    ChainEnd(msg.answers, qname);
    if w.End? {
      OneEnd(msg.answers, Key(Rooted(qname)), owner, w.owner);
      GatheredExactly(msg.answers, owner);
    }
  }

  /** Every chain has an end within the hops. */
  lemma {:induction false} ChainHasEnd(answers: seq<Record>, k: Name, hops: nat) returns (owner: Name, j: nat)
    ensures j <= hops && Iterate(answers, k, j) == Some(owner) && (j == hops || NextKey(answers, owner).None?)
    decreases hops
  {
    if hops == 0 || NextKey(answers, k).None? {
      owner, j := k, 0;
    } else {
      owner, j := ChainHasEnd(answers, NextKey(answers, k).value, hops - 1);
      j := j + 1;
    }
  }
}
