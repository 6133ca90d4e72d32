/** From resolution to the firewall: what a run installs is what the scan of the
    servers found. */
module Delivery {
  import opened Text
  import opened Address
  import opened Config
  import opened Answers
  import opened Plan
  import opened Apply
  import opened Reconcile
  import opened Ideal
  import opened OverLimit
  import opened HandOff
  import opened Classify
  import opened Walks
  import opened Verdicts
  import opened Outcomes

  lemma ResolvedTakeable(cfg: Config, net: Driver.Network, answers: Answers, i: nat)
    requires Resolved(cfg, net, answers) && i < |cfg.endpoints|
    ensures Takeable(EndpointNames(cfg)[i], answers.results[i])
  {
    FinalTakeable(cfg, net, i);
  }

  lemma ResolvedFound(cfg: Config, net: Driver.Network, answers: Answers, i: nat)
    requires ValidNames(EndpointNames(cfg)) && Resolved(cfg, net, answers) && i < |cfg.endpoints|
    ensures Find(answers, EndpointNames(cfg)[i]) == Some(answers.results[i])
  {
    var names := EndpointNames(cfg);
    forall j | 0 <= j < |names| ensures answers.results[j].name == names[j] {
      ResolvedTakeable(cfg, net, answers, j);
    }
    FindAt(answers.results, names[i], i);
  }

  /** What an answer asks for, given what the name has. */
  function Requested(r: NameResult, kept: set<Addr>): set<Addr> {
    match r.outcome
    case Ok => AddrSet(r.addrs)
    case Empty => {}
    case Transient => kept
  }

  lemma WantedIsAsked(cfg: Config, net: Driver.Network, answers: Answers, i: nat, kept: set<Addr>)
    requires ValidNames(EndpointNames(cfg)) && Resolved(cfg, net, answers) && i < |cfg.endpoints|
    ensures Wanted(Some(answers), EndpointNames(cfg)[i], kept) == Requested(answers.results[i], kept)
  {
    ResolvedFound(cfg, net, answers, i);
    ResolvedTakeable(cfg, net, answers, i);
  }

  lemma InKernelAt(cfg: Config, s: Sys, accepted: Option<Answers>, after: Sys, name: string)
    requires InKernel(cfg, s, accepted, after) && name in Configured(cfg)
    ensures AddrsUnder(ProdMap(cfg, after), name) == Wanted(accepted, name, AddrsUnder(ProdMap(cfg, s), name))
  {
    assert LkgOf(cfg, ProdMap(cfg, after))[name] == WantedAll(accepted, LkgOf(cfg, ProdMap(cfg, s)))[name];
  }

  /** After a run that accepts what resolution left, within the limit, and takes
      the firewall for updated, production holds under each name exactly what the
      scan of the servers found: its addresses, nothing, or, without a usable
      answer, what it had. */
  lemma FoundIsInstalled(cfg: Config, net: Driver.Network, s: Sys, r: Run, e: Env, answers: Answers, i: nat)
    requires GoodRun(cfg, s, r, e) && ApplyOk(cfg, s, r, e) && !r.plan.overLimit
    requires Resolved(cfg, net, answers) && r.accepted == Some(answers) && i < |cfg.endpoints|
    ensures
      var name, after := EndpointNames(cfg)[i], After(cfg, s, e, Complete);
      AddrsUnder(ProdMap(cfg, after), name) == Requested(answers.results[i], AddrsUnder(ProdMap(cfg, s), name))
  {
    var name := EndpointNames(cfg)[i];
    assert name in EndpointNames(cfg);
    OverLimitExactly(cfg, s, r, e);
    InstalledExactlyWithinLimit(cfg, s, r, e);
    InKernelAt(cfg, s, r.accepted, After(cfg, s, e, Complete), name);
    WantedIsAsked(cfg, net, answers, i, AddrsUnder(ProdMap(cfg, s), name));
  }

  // ---- from the message to the chain ----

  /** The run accepts what resolution left, within the limit, and takes the
      firewall for updated. */
  ghost predicate Delivers(cfg: Config, net: Driver.Network, s: Sys, r: Run, e: Env, answers: Answers) {
    && GoodRun(cfg, s, r, e) && ApplyOk(cfg, s, r, e) && !r.plan.overLimit
    && Resolved(cfg, net, answers) && r.accepted == Some(answers)
  }

  /** The addresses of the A records a name owns in an answer section. */
  function AddressesAt(answers: seq<Record>, owner: Name): set<Addr> {
    set r | r in answers && IsAddressOf(r, owner) :: r.data.ip
  }

  lemma CollectedSet(answers: seq<Record>, owner: Name, addrs: seq<Addr>, minTtl: U32)
    requires Collects(answers, owner, addrs, minTtl)
    ensures AddrSet(addrs) == AddressesAt(answers, owner)
  {}

  /** What the deciding message says about the addresses of the name. */
  lemma MessageRequests(msg: Message, qname: Name, requireAuthenticated: bool, owner: Name, addrs: set<Addr>)
    requires Decisive(msg, qname, requireAuthenticated) && EndsChain(msg.answers, Key(Rooted(qname)), owner)
    requires
      var v := VerdictOf(msg, qname, requireAuthenticated);
      addrs == if v.Answer? then AddrSet(v.addrs) else {}
    ensures addrs == if msg.rcode == NxDomain then {} else AddressesAt(msg.answers, owner)
  {
    var v := VerdictOf(msg, qname, requireAuthenticated);
    NegativeExactly(msg, qname, requireAuthenticated);
    HeaderExactly(msg, qname, requireAuthenticated);
    if v.Answer? {
      AnswerExactly(msg, qname, requireAuthenticated);
      var end :| EndsChain(msg.answers, Key(Rooted(qname)), end) && Collects(msg.answers, end, v.addrs, v.minTtl);
      OneEnd(msg.answers, Key(Rooted(qname)), owner, end);
      CollectedSet(msg.answers, end, v.addrs, v.minTtl);
    } else if msg.rcode == NoError {
      assert AddressesAt(msg.answers, owner) == {};
    }
  }

  lemma ScanRequests(cfg: Config, net: Driver.Network, i: nat, server: nat, a: nat, kept: set<Addr>)
    requires i < |cfg.endpoints| && FirstSettles(cfg, net, server, i, a)
    ensures
      var v := Driver.Verdict(cfg, net, server, i, a);
      Requested(Driver.Final(cfg, net, i), kept) == if v.Answer? then AddrSet(v.addrs) else {}
  {
    ScanRecords(cfg, net, server, i, a);
  }

  /** From the message to the kernel: under each name that some server settles in
      time, production then holds nothing if the first such server said NXDOMAIN,
      and otherwise exactly the addresses of the A records at the end of the
      chain that its message gives. */
  lemma MessageIsInstalled(cfg: Config, net: Driver.Network, s: Sys, r: Run, e: Env, answers: Answers,
      i: nat, server: nat, a: nat, owner: Name)
    requires Delivers(cfg, net, s, r, e, answers) && i < |cfg.endpoints|
    requires answers.results[i] == Driver.Final(cfg, net, i) && FirstSettles(cfg, net, server, i, a)
    requires net.reply(server, i, a).Arrived?
    requires EndsChain(net.reply(server, i, a).msg.answers, Key(Rooted(Asked(cfg, i))), owner)
    ensures
      var msg, after := net.reply(server, i, a).msg, After(cfg, s, e, Complete);
      AddrsUnder(ProdMap(cfg, after), EndpointNames(cfg)[i]) ==
      if msg.rcode == NxDomain then {} else AddressesAt(msg.answers, owner)
  {
    var kept := AddrsUnder(ProdMap(cfg, s), EndpointNames(cfg)[i]);
    FoundIsInstalled(cfg, net, s, r, e, answers, i);
    ScanRequests(cfg, net, i, server, a, kept);
    ReplyDecides(cfg, net, server, i, a);
    MessageRequests(net.reply(server, i, a).msg, Asked(cfg, i), cfg.resolver.requireAuthenticated, owner,
                    Requested(Driver.Final(cfg, net, i), kept));
  }

  /** A name has no usable answer exactly if no server settles it, or not in time. */
  lemma TransientExactly(cfg: Config, net: Driver.Network, answers: Answers, i: nat)
    requires Resolved(cfg, net, answers) && i < |cfg.endpoints|
    ensures
      answers.results[i].outcome == Transient <==>
      || answers.results[i] != Driver.Final(cfg, net, i)
      || !net.tls || Driver.NoneSettles(cfg, net, |cfg.resolver.servers|, i)
  {
    Driver.ScanNone(cfg, net, |cfg.resolver.servers|, i);
    if Driver.Scan(cfg, net, i).Some? {
      var _, _ := ScanIsTrusted(cfg, net, i);
    }
  }

  /** Under such a name production keeps what it had. */
  lemma UnansweredIsKept(cfg: Config, net: Driver.Network, s: Sys, r: Run, e: Env, answers: Answers, i: nat)
    requires Delivers(cfg, net, s, r, e, answers) && i < |cfg.endpoints| && answers.results[i].outcome == Transient
    ensures
      var name := EndpointNames(cfg)[i];
      AddrsUnder(ProdMap(cfg, After(cfg, s, e, Complete)), name) == AddrsUnder(ProdMap(cfg, s), name)
  {
    FoundIsInstalled(cfg, net, s, r, e, answers, i);
  }
}
