/** What resolution records for a name, in terms of the replies alone. */
module Outcomes {
  import opened Text
  import opened Config
  import opened Answers
  import opened Classify
  import opened Walks
  import opened Verdicts
  import opened Driver

  /** The name a query asks for. */
  function Asked(cfg: Config, i: nat): Name
    requires i < |cfg.endpoints|
  {
    Name(EndpointNames(cfg)[i], true)
  }

  // ---- one reply ----

  /** A reply after which the same server is asked again. */
  ghost predicate AskAgain(reply: Reply) {
    reply.Lost? || (reply.Arrived? && WorthRetrying(reply.msg))
  }

  /** A message that settles a name: trusted, and either NXDOMAIN or an answer
      section whose chain does not loop and which has no A record at all, or some
      at the chain's end, all of them global. */
  ghost predicate Decisive(msg: Message, qname: Name, requireAuthenticated: bool) {
    && Trusted(msg, requireAuthenticated)
    && (msg.rcode == NxDomain || (msg.rcode == NoError && DecisiveSection(msg.answers, Key(Rooted(qname)))))
  }

  ghost predicate DecisiveSection(answers: seq<Record>, k: Name) {
    && !Loops(answers, k)
    && forall owner | EndsChain(answers, k, owner) ::
         !HasNonGlobal(answers, owner) && (HasAnyAddress(answers) ==> HasAddress(answers, owner))
  }

  lemma SectionDecides(msg: Message, qname: Name, requireAuthenticated: bool)
    requires HeaderPasses(msg, requireAuthenticated)
    ensures !VerdictOf(msg, qname, requireAuthenticated).Failed? <==> DecisiveSection(msg.answers, Key(Rooted(qname)))
  {
    var k := Key(Rooted(qname));
    var owner, _ := ChainHasEnd(msg.answers, k, 8);
    assert EndsChain(msg.answers, k, owner);
    SectionExactly(msg, qname, requireAuthenticated, owner);
    forall other | EndsChain(msg.answers, k, other) ensures other == owner {
      OneEnd(msg.answers, k, owner, other);
    }
    if DecisiveSection(msg.answers, k) && VerdictOf(msg, qname, requireAuthenticated).Failed? {
      FailedSection(msg.answers, qname);
    }
  }

  lemma FailedSection(answers: seq<Record>, qname: Name)
    requires SectionVerdict(answers, qname).Failed?
    ensures
      var v := SectionVerdict(answers, qname);
      v == Failed(CnameLoop, false) || v.reason.NonGlobal? || v.reason.OnlyUnrelated?
  {}

  lemma MessageDecides(msg: Message, qname: Name, requireAuthenticated: bool)
    ensures !VerdictOf(msg, qname, requireAuthenticated).Failed? <==> Decisive(msg, qname, requireAuthenticated)
  {
    HeaderExactly(msg, qname, requireAuthenticated);
    if HeaderPasses(msg, requireAuthenticated) {
      SectionDecides(msg, qname, requireAuthenticated);
    }
  }

  lemma ReplyDecides(cfg: Config, net: Network, s: nat, i: nat, attempt: nat)
    requires i < |cfg.endpoints|
    ensures
      var v, reply := Verdict(cfg, net, s, i, attempt), net.reply(s, i, attempt);
      && (v.Failed? && v.retry <==> AskAgain(reply))
      && (!v.Failed? <==> reply.Arrived? && Decisive(reply.msg, Asked(cfg, i), cfg.resolver.requireAuthenticated))
  {
    var reply := net.reply(s, i, attempt);
    if reply.Arrived? {
      HeaderExactly(reply.msg, Asked(cfg, i), cfg.resolver.requireAuthenticated);
      MessageDecides(reply.msg, Asked(cfg, i), cfg.resolver.requireAuthenticated);
    }
  }

  /** A server settles a name at an attempt exactly when that attempt is within the
      configured number, its reply is decisive, and every reply before it was lost,
      truncated or an error code. */
  lemma SettlesExactly(cfg: Config, net: Network, s: nat, i: nat, a: nat)
    requires i < |cfg.endpoints|
    ensures
      SettlesAt(cfg, net, s, i, a) <==>
      && 1 <= a <= cfg.resolver.attempts
      && (forall b: nat | 1 <= b < a :: AskAgain(net.reply(s, i, b)))
      && net.reply(s, i, a).Arrived?
      && Decisive(net.reply(s, i, a).msg, Asked(cfg, i), cfg.resolver.requireAuthenticated)
  {
    ReplyDecides(cfg, net, s, i, a);
    forall b: nat | 1 <= b < a
      ensures Verdict(cfg, net, s, i, b).Failed? && Verdict(cfg, net, s, i, b).retry <==> AskAgain(net.reply(s, i, b))
    {
      ReplyDecides(cfg, net, s, i, b);
    }
  }

  // ---- the recorded result ----

  /** The `s`-th server is the first that can be connected and settles the name,
      at attempt `a`. */
  ghost predicate FirstSettles(cfg: Config, net: Network, s: nat, i: nat, a: nat)
    requires i < |cfg.endpoints|
  {
    && net.tls && s < |cfg.resolver.servers| && net.connects(s) && SettlesAt(cfg, net, s, i, a)
    && NoneSettles(cfg, net, s, i)
  }

  /** An accepted answer is recorded with exactly its addresses and its TTL, an
      authenticated negative answer as having none, each under the name and with
      the server that gave it. */
  lemma ScanRecords(cfg: Config, net: Network, s: nat, i: nat, a: nat)
    requires i < |cfg.endpoints| && FirstSettles(cfg, net, s, i, a)
    ensures Scan(cfg, net, i).Some?
    ensures
      var r, v := Scan(cfg, net, i).value, Verdict(cfg, net, s, i, a);
      && r.name == EndpointNames(cfg)[i] && r.server == Some(cfg.resolver.servers[s])
      && (v.Answer? ==> r.outcome == Ok && r.addrs == v.addrs && r.minTtl == Some(v.minTtl as nat))
      && (v.Negative? ==> r.outcome == Empty && r.addrs == [] && r.minTtl == None)
  {
    ScanMeaning(cfg, net, i);
  }

  lemma {:induction false} FirstSettler(cfg: Config, net: Network, s: nat, i: nat) returns (first: nat)
    requires i < |cfg.endpoints| && Settles(cfg, net, s, i)
    ensures first <= s && Settles(cfg, net, first, i) && NoneSettles(cfg, net, first, i)
  {
    if t: nat :| t < s && Settles(cfg, net, t, i) {
      first := FirstSettler(cfg, net, t, i);
    } else {
      first := s;
    }
  }

  /** Every result comes from one reply of one server, the first to settle the
      name. */
  lemma ScanWitness(cfg: Config, net: Network, i: nat) returns (s: nat, a: nat)
    requires i < |cfg.endpoints| && Scan(cfg, net, i).Some?
    ensures FirstSettles(cfg, net, s, i, a)
  {
    ScanMeaning(cfg, net, i);
    var t: nat :| t < |cfg.resolver.servers| && Settles(cfg, net, t, i);
    s := FirstSettler(cfg, net, t, i);
    a :| SettlesAt(cfg, net, s, i, a);
  }

  /** No result stands for a failure, and every result comes from a message that is
      not truncated and, where the configuration asks for it, authentic. */
  lemma ScanIsTrusted(cfg: Config, net: Network, i: nat) returns (s: nat, a: nat)
    requires i < |cfg.endpoints| && Scan(cfg, net, i).Some?
    ensures Scan(cfg, net, i).value.outcome != Transient && FirstSettles(cfg, net, s, i, a)
    ensures net.reply(s, i, a).Arrived?
    ensures Trusted(net.reply(s, i, a).msg, cfg.resolver.requireAuthenticated)
    ensures
      Scan(cfg, net, i).value.outcome == Empty <==>
      net.reply(s, i, a).msg.rcode == NxDomain || !HasAnyAddress(net.reply(s, i, a).msg.answers)
  {
    s, a := ScanWitness(cfg, net, i);
    ScanRecords(cfg, net, s, i, a);
    ReplyDecides(cfg, net, s, i, a);
    NegativeExactly(net.reply(s, i, a).msg, Asked(cfg, i), cfg.resolver.requireAuthenticated);
  }

  /** Among the messages that settle a name, the negative answers are NXDOMAIN and
      the ones without any A record. */
  lemma NegativeExactly(msg: Message, qname: Name, requireAuthenticated: bool)
    requires Decisive(msg, qname, requireAuthenticated)
    ensures
      VerdictOf(msg, qname, requireAuthenticated).Negative? <==> msg.rcode == NxDomain || !HasAnyAddress(msg.answers)
    ensures !VerdictOf(msg, qname, requireAuthenticated).Failed?
  {
    HeaderExactly(msg, qname, requireAuthenticated);
    MessageDecides(msg, qname, requireAuthenticated);
    if HeaderPasses(msg, requireAuthenticated) {
      var owner, _ := ChainHasEnd(msg.answers, Key(Rooted(qname)), 8);
      assert EndsChain(msg.answers, Key(Rooted(qname)), owner);
      SectionExactly(msg, qname, requireAuthenticated, owner);
    }
  }
}
