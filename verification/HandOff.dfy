/** From the resolve step to the plan: what resolution found is what is planned. */
module HandOff {
  import opened Text
  import opened Address
  import opened Config
  import opened Answers
  import opened Iptables
  import opened Plan
  import opened Classify
  import opened Walks
  import opened Driver

  /** A result the plan takes as it is. */
  ghost predicate Takeable(name: string, r: NameResult) {
    && r.name == name
    && (r.outcome == Ok ==> Usable(r) && Dedup(r.addrs) == r.addrs)
  }

  lemma AnswerIsUsable(msg: Message, qname: Name, requireAuthenticated: bool)
    requires VerdictOf(msg, qname, requireAuthenticated).Answer?
    ensures
      var addrs := VerdictOf(msg, qname, requireAuthenticated).addrs;
      addrs != [] && AllGlobal(addrs) && Dedup(addrs) == addrs
  {
    var v := VerdictOf(msg, qname, requireAuthenticated);
    AnswerExactly(msg, qname, requireAuthenticated);
    var owner :| EndsChain(msg.answers, Key(Rooted(qname)), owner) && Collects(msg.answers, owner, v.addrs, v.minTtl);
    CollectedIsUsable(msg.answers, owner, v.addrs, v.minTtl);
  }

  lemma CollectedIsUsable(answers: seq<Record>, owner: Name, addrs: seq<Addr>, minTtl: U32)
    requires Collects(answers, owner, addrs, minTtl)
    ensures addrs != [] && AllGlobal(addrs) && Dedup(addrs) == addrs
  {
    DedupOfDistinct(addrs);
  }

  lemma {:induction false} TriesTakeable(cfg: Config, net: Network, s: nat, i: nat, attempt: nat)
    requires s < |cfg.resolver.servers| && i < |cfg.endpoints|
    requires Tries(cfg, net, s, i, attempt).Some?
    ensures Takeable(EndpointNames(cfg)[i], Tries(cfg, net, s, i, attempt).value)
    decreases cfg.resolver.attempts + 1 - attempt
  {
    var v := Verdict(cfg, net, s, i, attempt);
    if v.Failed? {
      TriesTakeable(cfg, net, s, i, attempt + 1);
    } else if v.Answer? {
      VerdictTakeable(cfg, net, s, i, attempt);
    }
  }

  lemma VerdictTakeable(cfg: Config, net: Network, s: nat, i: nat, attempt: nat)
    requires i < |cfg.endpoints| && Verdict(cfg, net, s, i, attempt).Answer?
    ensures
      var addrs := Verdict(cfg, net, s, i, attempt).addrs;
      addrs != [] && AllGlobal(addrs) && Dedup(addrs) == addrs
  {
    AnswerIsUsable(net.reply(s, i, attempt).msg, Name(EndpointNames(cfg)[i], true), cfg.resolver.requireAuthenticated);
  }

  lemma {:induction false} ScanTakeable(cfg: Config, net: Network, s: nat, i: nat)
    requires s <= |cfg.resolver.servers| && i < |cfg.endpoints|
    requires ScanBelow(cfg, net, s, i).Some?
    ensures Takeable(EndpointNames(cfg)[i], ScanBelow(cfg, net, s, i).value)
  {
    if ScanBelow(cfg, net, s - 1, i).Some? {
      ScanTakeable(cfg, net, s - 1, i);
    } else {
      TriesTakeable(cfg, net, s - 1, i, 1);
    }
  }

  lemma FinalTakeable(cfg: Config, net: Network, i: nat)
    requires i < |cfg.endpoints|
    ensures Takeable(EndpointNames(cfg)[i], Final(cfg, net, i))
  {
    if Driver.Scan(cfg, net, i).Some? {
      ScanTakeable(cfg, net, |cfg.resolver.servers|, i);
    }
  }

  /** What the resolve step may leave for the apply step. */
  ghost predicate Resolved(cfg: Config, net: Network, answers: Answers) {
    && |answers.results| == |cfg.endpoints|
    && forall i | 0 <= i < |cfg.endpoints| ::
         answers.results[i] == Final(cfg, net, i) || answers.results[i] == Unresolved(EndpointNames(cfg)[i])
  }

  lemma {:induction false} FindAt(results: seq<NameResult>, name: string, i: nat)
    requires i < |results| && results[i].name == name && forall j | 0 <= j < i :: results[j].name != name
    ensures FindIn(results, name) == Some(results[i])
  {
    if i > 0 {
      FindAt(results[1..], name, i - 1);
    }
  }

  /** What resolution found for a name is exactly what the plan has for it: its
      addresses in their order, nothing, or the last known good ones. The checks
      of the plan reject no answer that resolution accepted. */
  lemma FoundIsPlanned(cfg: Config, net: Network, answers: Answers, current: AddrMap, i: nat)
    requires ValidNames(EndpointNames(cfg)) && Resolved(cfg, net, answers) && i < |cfg.endpoints|
    ensures
      var r, n := answers.results[i], StateAt(cfg, answers, current, i);
      match r.outcome
      case Ok => n.source == Fresh && n.addrs == r.addrs
      case Empty => n.source == EmptyAnswer && n.addrs == []
      case Transient => n == Lkg(r.name, cfg.endpoints[i].required, Previous(current, r.name))
  {
    var names := EndpointNames(cfg);
    forall j | 0 <= j < |names| ensures Takeable(names[j], answers.results[j]) {
      FinalTakeable(cfg, net, j);
    }
    FindAt(answers.results, names[i], i);
  }
}
