/** What one run guarantees. */
module Reconcile {
  import opened Text
  import opened Address
  import opened Config
  import opened Iptables
  import opened Comments
  import opened Codec
  import opened Kernel
  import opened Chains
  import opened Answers
  import opened Plan
  import opened Conntrack
  import opened Hosts
  import opened Statics
  import opened Apply

  // ---- the chains of a machine ----

  ghost function ProdRead(cfg: Config, s: Sys): ChainRead {
    ReadOf(s.production, cfg.firewall.production)
  }

  ghost function MaintRead(cfg: Config, s: Sys): ChainRead {
    ReadOf(s.maintenance, cfg.firewall.maintenance)
  }

  ghost function ProdMap(cfg: Config, s: Sys): AddrMap {
    MapOf(ProdRead(cfg, s).entries)
  }

  ghost function MaintMap(cfg: Config, s: Sys): AddrMap {
    MapOf(MaintRead(cfg, s).entries)
  }

  ghost function Configured(cfg: Config): set<string> {
    NameSet(EndpointNames(cfg))
  }

  /** Only configured names. */
  ghost predicate NamesConfigured(cfg: Config, m: AddrMap) {
    forall ip | ip in m :: m[ip] <= Configured(cfg)
  }

  /** No address without a name. */
  ghost predicate Named(m: AddrMap) {
    forall ip | ip in m :: m[ip] != {}
  }

  ghost predicate GlobalKeys(m: AddrMap) {
    forall ip | ip in m :: IsGlobalUnicast(ip)
  }

  /** Every address is global and stands under some configured name. */
  ghost predicate WellNamed(cfg: Config, m: AddrMap) {
    NamesConfigured(cfg, m) && Named(m) && GlobalKeys(m)
  }

  /** Pointwise containment of address maps. */
  ghost predicate Within(a: AddrMap, b: AddrMap) {
    forall ip | ip in a :: ip in b && a[ip] <= b[ip]
  }

  /** What every run keeps: clean chains, production within its limit and within
      maintenance, only global addresses under configured names. */
  ghost predicate Good(cfg: Config, s: Sys) {
    && !ProdRead(cfg, s).IsDirty() && !MaintRead(cfg, s).IsDirty()
    && WellNamed(cfg, ProdMap(cfg, s)) && WellNamed(cfg, MaintMap(cfg, s))
    && |ProdMap(cfg, s)| <= cfg.firewall.maxAddresses
    && Within(ProdMap(cfg, s), MaintMap(cfg, s))
  }

  /** The kernel applies a batch as a whole or not at all, and lists what it
      applied. Whether it reports success is not constrained. */
  ghost predicate HonestKernel(cfg: Config, e: Env) {
    forall batch :: e.restore(batch).Commit? ==>
      && Relists(batch, cfg.firewall.production, e.restore(batch).production)
      && Relists(batch, cfg.firewall.maintenance, e.restore(batch).maintenance)
  }

  // ---- names and addresses ----

  lemma FirewallChains(cfg: Config)
    requires Valid(cfg)
    ensures ChainsDiffer(cfg.firewall)
  {}

  lemma ConfiguredFits(cfg: Config, m: AddrMap)
    requires Valid(cfg) && NamesConfigured(cfg, m)
    ensures MapFits(m)
  {
    forall ip | ip in m ensures Fits(m[ip]) {
      EndpointSubsetsFit(cfg, m[ip]);
    }
  }

  /** One state per endpoint, in endpoint order. */
  ghost predicate FollowsEndpoints(cfg: Config, names: seq<NameState>) {
    && |names| == |cfg.endpoints|
    && forall i | 0 <= i < |names| ::
         names[i].name == EndpointNames(cfg)[i] && names[i].required == cfg.endpoints[i].required
  }

  ghost predicate GlobalStates(names: seq<NameState>) {
    forall n | n in names :: AllGlobal(n.addrs)
  }

  lemma PreviousMembers(m: AddrMap, name: string)
    ensures forall ip :: ip in Previous(m, name) <==> ip in m && name in m[ip]
  {}

  lemma PreviousGlobal(m: AddrMap, name: string)
    requires GlobalKeys(m)
    ensures AllGlobal(Previous(m, name))
  {
    PreviousMembers(m, name);
  }

  lemma StateGlobal(ep: Endpoint, name: string, answers: Answers, previous: seq<Addr>)
    requires AllGlobal(previous)
    ensures AllGlobal(StateFor(ep, name, answers, previous).addrs)
  {
    var state := StateFor(ep, name, answers, previous);
    if state.source == Fresh {
      var r := Find(answers, name).value;
      assert AllGlobal(r.addrs) && state.addrs == Dedup(r.addrs);
    }
  }

  lemma KernelStatesFollow(cfg: Config, m: AddrMap)
    requires GlobalKeys(m)
    ensures FollowsEndpoints(cfg, KernelStates(cfg, m)) && GlobalStates(KernelStates(cfg, m))
  {
    var names := KernelStates(cfg, m);
    forall i | 0 <= i < |names| ensures AllGlobal(names[i].addrs) {
      PreviousGlobal(m, EndpointNames(cfg)[i]);
    }
  }

  lemma PlannedStatesFollow(cfg: Config, answers: Answers, m: AddrMap)
    requires GlobalKeys(m)
    ensures FollowsEndpoints(cfg, States(cfg, answers, m)) && GlobalStates(States(cfg, answers, m))
  {
    var names := States(cfg, answers, m);
    forall i | 0 <= i < |names| ensures AllGlobal(names[i].addrs) {
      var name := EndpointNames(cfg)[i];
      PreviousGlobal(m, name);
      StateGlobal(cfg.endpoints[i], name, answers, Previous(m, name));
    }
  }

  lemma StatesFollow(cfg: Config, answers: Answers, m: AddrMap)
    ensures FollowsEndpoints(cfg, States(cfg, answers, m))
  {
    var names := States(cfg, answers, m);
    forall i | 0 <= i < |names|
      ensures names[i].name == EndpointNames(cfg)[i] && names[i].required == cfg.endpoints[i].required
    {
      assert names[i] == StateAt(cfg, answers, m, i);
    }
  }

  lemma StateNamesConfigured(cfg: Config, names: seq<NameState>)
    requires FollowsEndpoints(cfg, names)
    ensures forall n | n in names :: n.name in Configured(cfg)
  {
    forall n | n in names ensures n.name in Configured(cfg) {
      var i :| 0 <= i < |names| && names[i] == n;
      assert EndpointNames(cfg)[i] in EndpointNames(cfg);
    }
  }

  lemma InvertNames(cfg: Config, names: seq<NameState>)
    requires FollowsEndpoints(cfg, names)
    ensures NamesConfigured(cfg, Invert(names)) && Named(Invert(names))
  {
    var m := Invert(names);
    StateNamesConfigured(cfg, names);
    forall ip | ip in m ensures m[ip] != {} {
      var n :| n in names && ip in n.addrs;
      assert n.name in m[ip];
    }
  }

  lemma InvertGlobal(names: seq<NameState>)
    requires GlobalStates(names)
    ensures GlobalKeys(Invert(names))
  {
    var m := Invert(names);
    forall ip | ip in m ensures IsGlobalUnicast(ip) {
      var n :| n in names && ip in n.addrs;
    }
  }

  lemma KernelStateAtHas(cfg: Config, m: AddrMap, i: nat, ip: Addr)
    requires i < |cfg.endpoints|
    ensures ip in KernelStates(cfg, m)[i].addrs <==> ip in m && EndpointNames(cfg)[i] in m[ip]
  {
    PreviousMembers(m, EndpointNames(cfg)[i]);
    assert KernelStates(cfg, m)[i] == KernelStateAt(cfg, m, i);
  }

  lemma KernelStateHas(cfg: Config, m: AddrMap, ip: Addr, name: string)
    requires NamesConfigured(cfg, m)
    ensures
      (ip in m && name in m[ip]) <==> exists n :: n in KernelStates(cfg, m) && ip in n.addrs && n.name == name
  {
    var names, eps := KernelStates(cfg, m), EndpointNames(cfg);
    forall i | 0 <= i < |names|
      ensures names[i].name == eps[i] && (ip in names[i].addrs <==> ip in m && eps[i] in m[ip])
    {
      KernelStateAtHas(cfg, m, i, ip);
    }
    if ip in m && name in m[ip] {
      assert name in Configured(cfg);
      var i :| 0 <= i < |eps| && eps[i] == name;
      assert names[i] in names;
    }
  }

  /** Address -> names undoes name -> addresses on installed chains: every name
      of every address is an endpoint, and every address has a name. */
  lemma InvertKernelStates(cfg: Config, m: AddrMap)
    requires NamesConfigured(cfg, m) && Named(m)
    ensures Invert(KernelStates(cfg, m)) == m
  {
    var names := KernelStates(cfg, m);
    forall ip ensures NamesHaving(names, ip) == NamesAt(m, ip) {
      forall name ensures name in NamesHaving(names, ip) <==> name in NamesAt(m, ip) {
        KernelStateHas(cfg, m, ip, name);
      }
    }
    SameNames(names, m);
  }

  lemma SameNames(names: seq<NameState>, m: AddrMap)
    requires Named(m) && forall ip :: NamesHaving(names, ip) == NamesAt(m, ip)
    ensures Invert(names) == m
  {
    forall ip: Addr ensures ip in Invert(names) <==> ip in m {
      InvertAt(names, ip);
      assert NamesHaving(names, ip) == NamesAt(m, ip);
      if ip in Invert(names) {
        var n :| n in names && ip in n.addrs;
        assert n.name in NamesHaving(names, ip);
      }
    }
  }

  // ---- the plan ----

  lemma UnionContains(a: AddrMap, b: AddrMap)
    ensures Within(a, UnionMaps(a, b)) && Within(b, UnionMaps(a, b))
  {}

  lemma UnionAbsorbs(a: AddrMap, b: AddrMap)
    requires Within(b, a)
    ensures UnionMaps(a, b) == a
  {
    forall ip | ip in a ensures NamesAt(a, ip) + NamesAt(b, ip) == a[ip] {}
    assert a.Keys + b.Keys == a.Keys;
  }

  lemma UnionNames(cfg: Config, a: AddrMap, b: AddrMap)
    requires NamesConfigured(cfg, a) && NamesConfigured(cfg, b) && Named(a) && Named(b)
    ensures NamesConfigured(cfg, UnionMaps(a, b)) && Named(UnionMaps(a, b))
  {
    var u := UnionMaps(a, b);
    forall ip | ip in u ensures u[ip] <= Configured(cfg) && u[ip] != {} {
      assert u[ip] == NamesAt(a, ip) + NamesAt(b, ip);
    }
  }

  lemma UnionGlobal(a: AddrMap, b: AddrMap)
    requires GlobalKeys(a) && GlobalKeys(b)
    ensures GlobalKeys(UnionMaps(a, b))
  {}

  lemma PlanFields(cfg: Config, answers: Answers, prod: AddrMap, maint: AddrMap)
    ensures
      var plan, candidate := PlanOf(cfg, answers, prod, maint), Invert(States(cfg, answers, prod));
      && plan.overLimit == (|candidate| > cfg.firewall.maxAddresses)
      && plan.names == (if plan.overLimit then KernelStates(cfg, prod) else States(cfg, answers, prod))
      && plan.production == (if plan.overLimit then prod else candidate)
      && plan.maintenance == UnionMaps(maint, plan.production)
  {}

  /** The states of a plan, and its production map as their inversion. */
  lemma PlanStates(cfg: Config, answers: Answers, prod: AddrMap, maint: AddrMap)
    requires WellNamed(cfg, prod)
    ensures
      var plan := PlanOf(cfg, answers, prod, maint);
      && FollowsEndpoints(cfg, plan.names) && GlobalStates(plan.names) && Invert(plan.names) == plan.production
  {
    PlanFields(cfg, answers, prod, maint);
    if |Invert(States(cfg, answers, prod))| > cfg.firewall.maxAddresses {
      KernelStatesFollow(cfg, prod);
      InvertKernelStates(cfg, prod);
    } else {
      PlannedStatesFollow(cfg, answers, prod);
    }
  }

  /** The plan of any answers keeps what the chains guarantee, and maintenance
      only grows. */
  lemma PlanKeeps(cfg: Config, answers: Answers, prod: AddrMap, maint: AddrMap)
    requires WellNamed(cfg, prod) && WellNamed(cfg, maint) && |prod| <= cfg.firewall.maxAddresses
    ensures
      var plan := PlanOf(cfg, answers, prod, maint);
      && WellNamed(cfg, plan.production) && WellNamed(cfg, plan.maintenance)
      && |plan.production| <= cfg.firewall.maxAddresses
      && Within(plan.production, plan.maintenance) && Within(maint, plan.maintenance)
  {
    var plan := PlanOf(cfg, answers, prod, maint);
    PlanStates(cfg, answers, prod, maint);
    InvertNames(cfg, plan.names);
    InvertGlobal(plan.names);
    UnionContains(maint, plan.production);
    UnionNames(cfg, maint, plan.production);
    UnionGlobal(maint, plan.production);
  }

  // ---- the chains after the firewall step ----

  /** The kernel changed the chains of this run. */
  ghost predicate Changed(cfg: Config, r: Run, e: Env) {
    r.NeedsRestore() && Reaction(cfg, r, e).Commit?
  }

  lemma CommittedReads(cfg: Config, s: Sys, r: Run, e: Env)
    requires Valid(cfg) && HonestKernel(cfg, e) && Changed(cfg, r, e)
    requires NamesConfigured(cfg, r.plan.production) && NamesConfigured(cfg, r.plan.maintenance)
    ensures
      var s' := Restored(cfg, s, r, e);
      && !ProdRead(cfg, s').IsDirty() && ProdMap(cfg, s') == r.plan.production
      && !MaintRead(cfg, s').IsDirty() && MaintMap(cfg, s') == r.plan.maintenance
      && ChainsHold(cfg, s', r.plan)
  {
    var k := Reaction(cfg, r, e);
    FirewallChains(cfg);
    ConfiguredFits(cfg, r.plan.production);
    ConfiguredFits(cfg, r.plan.maintenance);
    RelistedReads(cfg.firewall, r.plan.production, r.plan.maintenance, k.production);
    RelistedReads(cfg.firewall, r.plan.production, r.plan.maintenance, k.maintenance);
    MapOfEntriesOf(r.plan.production);
    MapOfEntriesOf(r.plan.maintenance);
  }

  /** A started run, its machine good, its kernel honest. */
  ghost predicate GoodRun(cfg: Config, s: Sys, r: Run, e: Env) {
    Valid(cfg) && Good(cfg, s) && HonestKernel(cfg, e) && Start(cfg, s, e) == Some(r)
  }

  lemma StartedRun(cfg: Config, s: Sys, r: Run, e: Env)
    requires Start(cfg, s, e) == Some(r)
    ensures r.prod == ProdRead(cfg, s) && r.maint == MaintRead(cfg, s)
    ensures r.plan == PlanOf(cfg, AnswersOr(r.accepted), ProdMap(cfg, s), MaintMap(cfg, s))
    ensures e.clock.Some?
  {}

  lemma AcceptedBy(cfg: Config, s: Sys, r: Run, e: Env)
    requires Start(cfg, s, e) == Some(r)
    ensures e.clock.Some?
    ensures r.accepted == AcceptedOf(e.answers, e.clock.value, PrevOf(s.status, e.bootId).applied)
  {}

  /** A run starts exactly if it gets the lock, the clock and both listings, and a run
      that does not start leaves everything as it is. */
  lemma StartsExactly(cfg: Config, s: Sys, e: Env, cut: Cut)
    ensures Start(cfg, s, e).Some? <==> e.locked && e.clock.Some? && e.listed.prod && e.listed.maint
    ensures Start(cfg, s, e).None? ==> After(cfg, s, e, cut) == s
  {}

  /** Answers are accepted, whole, exactly if the file can be read, is of schema 1 and
      at most 180 seconds old, and is newer than the marker of a status of this
      boot. */
  lemma AcceptsExactly(cfg: Config, s: Sys, r: Run, e: Env)
    requires Start(cfg, s, e) == Some(r)
    ensures e.clock.Some?
    ensures
      r.accepted.Some? <==>
      && e.answers.Some? && e.answers.value.schema == 1
      && e.clock.value <= e.answers.value.generated + 180.0
      && (s.status.Some? && s.status.value.bootId == e.bootId && s.status.value.applied.Some? ==>
            s.status.value.applied.value < e.answers.value.generated)
    ensures r.accepted.Some? ==> r.accepted == e.answers
  {
    AcceptedBy(cfg, s, r, e);
  }

  /** Which parts of the machine the end of a run, possibly cut short, has
      changed. */
  ghost predicate Effects(cfg: Config, s: Sys, f: Sys, p: Policy, st: Status, e: Env, cut: Cut, s': Sys) {
    && (cut.BeforeRestore? ==> s' == s)
    && (!cut.BeforeRestore? ==> s'.production == f.production && s'.maintenance == f.maintenance)
    && s'.hosts == (if cut.BeforeRestore? || cut.AfterRestore? || !e.hostsWritten then s.hosts
                    else Some(HostsText(cfg.staticHosts, p.names)))
    && s'.status == (if cut.Complete? && e.statusWritten then Some(PersistedOf(st)) else s.status)
    && (cut.Complete? ==> s'.flows == Swept(s.flows, ToKill(p, e), e.tool))
  }

  lemma FinishEffects(cfg: Config, s: Sys, f: Sys, p: Policy, st: Status, e: Env, cut: Cut)
    requires f == s.(production := f.production, maintenance := f.maintenance)
    ensures Effects(cfg, s, f, p, st, e, cut, AfterFirewall(cfg, s, f, p, st, e, cut))
  {}

  lemma RestoredKeeps(cfg: Config, s: Sys, r: Run, e: Env)
    ensures
      var f := Restored(cfg, s, r, e);
      f == s.(production := f.production, maintenance := f.maintenance)
  {}

  lemma RunEffects(cfg: Config, s: Sys, r: Run, e: Env, cut: Cut)
    requires Start(cfg, s, e) == Some(r) && e.clock.Some?
    ensures Effects(cfg, s, Restored(cfg, s, r, e), PolicyOf(cfg, s, r, e), StatusOf(cfg, s, r, e), e, cut,
                    After(cfg, s, e, cut))
  {
    RestoredKeeps(cfg, s, r, e);
    FinishEffects(cfg, s, Restored(cfg, s, r, e), PolicyOf(cfg, s, r, e), StatusOf(cfg, s, r, e), e, cut);
  }

  lemma EqualChains(cfg: Config, s: Sys, t: Sys)
    requires s.production == t.production && s.maintenance == t.maintenance
    ensures ProdRead(cfg, s) == ProdRead(cfg, t) && MaintRead(cfg, s) == MaintRead(cfg, t)
    ensures ProdMap(cfg, s) == ProdMap(cfg, t) && MaintMap(cfg, s) == MaintMap(cfg, t)
    ensures Good(cfg, s) <==> Good(cfg, t)
  {}

  /** A completed run leaves the chains as they are after the firewall step. */
  lemma ChainsAtEnd(cfg: Config, s: Sys, r: Run, e: Env)
    requires Start(cfg, s, e) == Some(r)
    ensures
      var s', f := After(cfg, s, e, Complete), Restored(cfg, s, r, e);
      ProdMap(cfg, s') == ProdMap(cfg, f) && MaintMap(cfg, s') == MaintMap(cfg, f)
  {
    StartedRun(cfg, s, r, e);
    RunEffects(cfg, s, r, e, Complete);
    EqualChains(cfg, After(cfg, s, e, Complete), Restored(cfg, s, r, e));
  }

  lemma PlanOfGoodRun(cfg: Config, s: Sys, r: Run, e: Env)
    requires GoodRun(cfg, s, r, e)
    ensures WellNamed(cfg, r.plan.production) && WellNamed(cfg, r.plan.maintenance)
    ensures |r.plan.production| <= cfg.firewall.maxAddresses
    ensures Within(r.plan.production, r.plan.maintenance) && Within(MaintMap(cfg, s), r.plan.maintenance)
  {
    StartedRun(cfg, s, r, e);
    PlanKeeps(cfg, AnswersOr(r.accepted), ProdMap(cfg, s), MaintMap(cfg, s));
  }

  lemma NeedsRestoreWhenDifferent(cfg: Config, s: Sys, r: Run, e: Env)
    requires Start(cfg, s, e) == Some(r)
    requires !ProdRead(cfg, s).IsDirty() && !MaintRead(cfg, s).IsDirty()
    ensures r.NeedsRestore() <==>
      r.plan.production != ProdMap(cfg, s) || r.plan.maintenance != MaintMap(cfg, s)
  {
    StartedRun(cfg, s, r, e);
  }

  /** After the firewall step the chains hold the old maps or the plan, whole. */
  lemma RestoredChains(cfg: Config, s: Sys, r: Run, e: Env)
    requires GoodRun(cfg, s, r, e)
    ensures
      var s' := Restored(cfg, s, r, e);
      && Good(cfg, s')
      && Within(MaintMap(cfg, s), MaintMap(cfg, s'))
      && (if Changed(cfg, r, e) || !r.NeedsRestore()
          then ProdMap(cfg, s') == r.plan.production && MaintMap(cfg, s') == r.plan.maintenance
          else s' == s)
  {
    PlanOfGoodRun(cfg, s, r, e);
    NeedsRestoreWhenDifferent(cfg, s, r, e);
    if Changed(cfg, r, e) {
      CommittedReads(cfg, s, r, e);
    }
  }

  /** The tool reports success and both chains can be read back. */
  ghost predicate Confirmed(cfg: Config, r: Run, e: Env) {
    Reaction(cfg, r, e).reported && e.listed.verifyProd && e.listed.verifyMaint
  }

  /** A run takes the firewall for updated exactly if there is nothing to rewrite
      or the kernel commits and that is confirmed. */
  lemma ApplyOkExactly(cfg: Config, s: Sys, r: Run, e: Env)
    requires GoodRun(cfg, s, r, e)
    ensures
      ApplyOk(cfg, s, r, e) <==>
      !r.NeedsRestore() || (Reaction(cfg, r, e).Commit? && Confirmed(cfg, r, e))
  {
    var k := Reaction(cfg, r, e);
    if r.NeedsRestore() {
      NeedsRestoreWhenDifferent(cfg, s, r, e);
      if k.Commit? {
        PlanOfGoodRun(cfg, s, r, e);
        CommittedReads(cfg, s, r, e);
      }
    }
  }

  // ---- installed equals planned ----

  /** A run that reports the firewall as updated, rewritten or left as it was,
      has both chains listed as exactly the plan, whatever the kernel did: every
      rule line parses, and the rules are a permutation of the plan's. */
  lemma InstalledEqualsPlanned(cfg: Config, s: Sys, r: Run, e: Env)
    requires Start(cfg, s, e) == Some(r) && ApplyOk(cfg, s, r, e)
    ensures
      var s' := Restored(cfg, s, r, e);
      var prod, maint := ProdRead(cfg, s'), MaintRead(cfg, s');
      && prod.ruleLines == |prod.entries| && multiset(prod.entries) == multiset(EntriesOf(r.plan.production))
      && maint.ruleLines == |maint.entries| && multiset(maint.entries) == multiset(EntriesOf(r.plan.maintenance))
      && PolicyOf(cfg, s, r, e) == Policy(r.plan.names, r.plan.production, r.plan.maintenance)
  {
    var s' := Restored(cfg, s, r, e);
    InstalledMaps(cfg, s, r, e);
    CleanMeansExactlyThePlan(s'.production, cfg.firewall.production, r.plan.production);
    CleanMeansExactlyThePlan(s'.maintenance, cfg.firewall.maintenance, r.plan.maintenance);
  }

  lemma PlanNamesConfigured(cfg: Config, answers: Answers, prod: AddrMap, maint: AddrMap)
    requires NamesConfigured(cfg, prod) && NamesConfigured(cfg, maint)
    ensures
      var plan := PlanOf(cfg, answers, prod, maint);
      NamesConfigured(cfg, plan.production) && NamesConfigured(cfg, plan.maintenance)
  {
    var plan := PlanOf(cfg, answers, prod, maint);
    StatesFollow(cfg, answers, prod);
    InvertNames(cfg, States(cfg, answers, prod));
    UnionNamesConfigured(cfg, maint, plan.production);
  }

  lemma UnionNamesConfigured(cfg: Config, a: AddrMap, b: AddrMap)
    requires NamesConfigured(cfg, a) && NamesConfigured(cfg, b)
    ensures NamesConfigured(cfg, UnionMaps(a, b))
  {
    var u := UnionMaps(a, b);
    forall ip | ip in u ensures u[ip] <= Configured(cfg) {
      assert u[ip] == NamesAt(a, ip) + NamesAt(b, ip);
    }
  }

  /** The chains hold only configured names; otherwise they may be in any
      state: foreign rules, duplicates, addresses without names. */
  ghost predicate OnlyConfiguredNames(cfg: Config, s: Sys) {
    NamesConfigured(cfg, ProdMap(cfg, s)) && NamesConfigured(cfg, MaintMap(cfg, s))
  }

  /** An honest kernel that commits the batch never fails verification. */
  lemma HonestKernelVerifies(cfg: Config, s: Sys, r: Run, e: Env)
    requires Valid(cfg) && Start(cfg, s, e) == Some(r) && OnlyConfiguredNames(cfg, s) && HonestKernel(cfg, e)
    requires Reaction(cfg, r, e).Commit? && Reaction(cfg, r, e).reported && e.listed.verifyProd && e.listed.verifyMaint
    ensures ApplyOk(cfg, s, r, e)
  {
    if r.NeedsRestore() {
      StartedRun(cfg, s, r, e);
      PlanNamesConfigured(cfg, AnswersOr(r.accepted), ProdMap(cfg, s), MaintMap(cfg, s));
      CommittedReads(cfg, s, r, e);
    }
  }

  // ---- chains with names of other configurations ----

  /** Every name in the chains is a hostname, configured now or not. */
  ghost predicate HostsInChains(cfg: Config, s: Sys) {
    MapOfHosts(ProdMap(cfg, s)) && MapOfHosts(MaintMap(cfg, s))
  }

  lemma InvertHosts(cfg: Config, names: seq<NameState>)
    requires Valid(cfg) && FollowsEndpoints(cfg, names)
    ensures MapOfHosts(Invert(names))
  {
    InvertNames(cfg, names);
    var m := Invert(names);
    forall ip | ip in m ensures Hostnames(m[ip]) {
      assert m[ip] <= Configured(cfg);
    }
  }

  lemma UnionHosts(a: AddrMap, b: AddrMap)
    requires MapOfHosts(a) && MapOfHosts(b)
    ensures MapOfHosts(UnionMaps(a, b))
  {
    var u := UnionMaps(a, b);
    forall ip | ip in u ensures Hostnames(u[ip]) {
      assert u[ip] == NamesAt(a, ip) + NamesAt(b, ip);
    }
  }

  lemma PlanHosts(cfg: Config, answers: Answers, prod: AddrMap, maint: AddrMap)
    requires Valid(cfg) && MapOfHosts(prod) && MapOfHosts(maint)
    ensures
      var plan := PlanOf(cfg, answers, prod, maint);
      MapOfHosts(plan.production) && MapOfHosts(plan.maintenance)
  {
    PlanFields(cfg, answers, prod, maint);
    StatesFollow(cfg, answers, prod);
    InvertHosts(cfg, States(cfg, answers, prod));
    UnionHosts(maint, PlanOf(cfg, answers, prod, maint).production);
  }

  lemma HoldsKept(m: AddrMap)
    requires MapOfHosts(m)
    ensures Holds(ChainRead(EntriesOf(KeptMap(m)), |m.Keys|), m) <==> MapFits(m)
  {
    MapOfEntriesOf(KeptMap(m));
    KeptWhole(m);
    assert |KeptMap(m)| == |KeptMap(m).Keys| && |m| == |m.Keys|;
  }

  /** After an honest commit the chains are clean and hold every planned address
      with the names its comment keeps. */
  lemma CommittedKeeps(cfg: Config, s: Sys, r: Run, e: Env)
    requires Valid(cfg) && HonestKernel(cfg, e) && Changed(cfg, r, e)
    requires MapOfHosts(r.plan.production) && MapOfHosts(r.plan.maintenance)
    ensures
      var s' := Restored(cfg, s, r, e);
      && !ProdRead(cfg, s').IsDirty() && ProdMap(cfg, s') == KeptMap(r.plan.production)
      && !MaintRead(cfg, s').IsDirty() && MaintMap(cfg, s') == KeptMap(r.plan.maintenance)
  {
    var k := Reaction(cfg, r, e);
    FirewallChains(cfg);
    RelistedKeeps(cfg.firewall, r.plan.production, r.plan.maintenance, k.production);
    RelistedKeeps(cfg.firewall, r.plan.production, r.plan.maintenance, k.maintenance);
    MapOfEntriesOf(KeptMap(r.plan.production));
    MapOfEntriesOf(KeptMap(r.plan.maintenance));
  }

  lemma CommittedHolds(cfg: Config, s: Sys, r: Run, e: Env)
    requires Valid(cfg) && HonestKernel(cfg, e) && Changed(cfg, r, e)
    requires MapOfHosts(r.plan.production) && MapOfHosts(r.plan.maintenance)
    ensures ChainsHold(cfg, Restored(cfg, s, r, e), r.plan)
      <==> MapFits(r.plan.production) && MapFits(r.plan.maintenance)
  {
    var k := Reaction(cfg, r, e);
    FirewallChains(cfg);
    RelistedKeeps(cfg.firewall, r.plan.production, r.plan.maintenance, k.production);
    RelistedKeeps(cfg.firewall, r.plan.production, r.plan.maintenance, k.maintenance);
    HoldsKept(r.plan.production);
    HoldsKept(r.plan.maintenance);
  }

  /** With hostnames of any configuration in the chains, a batch that an honest
      kernel commits is verified if and only if every planned comment fits. */
  lemma HonestKernelVerifiesExactly(cfg: Config, s: Sys, r: Run, e: Env)
    requires Valid(cfg) && Start(cfg, s, e) == Some(r) && HostsInChains(cfg, s) && HonestKernel(cfg, e)
    requires Changed(cfg, r, e) && Reaction(cfg, r, e).reported && e.listed.verifyProd && e.listed.verifyMaint
    ensures ApplyOk(cfg, s, r, e) <==> MapFits(r.plan.production) && MapFits(r.plan.maintenance)
  {
    StartedRun(cfg, s, r, e);
    PlanHosts(cfg, AnswersOr(r.accepted), ProdMap(cfg, s), MaintMap(cfg, s));
    CommittedHolds(cfg, s, r, e);
  }

  // ---- what the status says was changed ----

  lemma DeltasOfPlan(cfg: Config, answers: Answers, prod: AddrMap, maint: AddrMap)
    ensures
      var plan := PlanOf(cfg, answers, prod, maint);
      && AddrSet(plan.added) == plan.production.Keys - prod.Keys
      && AddrSet(plan.removed) == prod.Keys - plan.production.Keys
  {}

  lemma Replaced(before: set<Addr>, after: set<Addr>)
    ensures (before - (before - after)) + (after - before) == after
    ensures (after - before) !! (before - after)
  {}

  /** The reported additions and removals account for the change of the chain:
      what was listed before, less the removed, plus the added, is what is listed
      after an update, and a failed update reports neither. */
  lemma DeltasAccountForChange(cfg: Config, s: Sys, r: Run, e: Env)
    requires Start(cfg, s, e) == Some(r)
    ensures
      var st, before, after := StatusOf(cfg, s, r, e), ProdMap(cfg, s).Keys, ProdMap(cfg, Restored(cfg, s, r, e)).Keys;
      if st.applyOk then
        && after == (before - AddrSet(st.removed)) + AddrSet(st.added) && AddrSet(st.added) !! AddrSet(st.removed)
        && AddrSet(st.production) == after
      else
        st.added == [] && st.removed == []
  {
    StartedRun(cfg, s, r, e);
    StatusDeltas(cfg, s, r, e);
    if ApplyOk(cfg, s, r, e) {
      InstalledMaps(cfg, s, r, e);
      DeltasOfPlan(cfg, AnswersOr(r.accepted), ProdMap(cfg, s), MaintMap(cfg, s));
      Replaced(ProdMap(cfg, s).Keys, r.plan.production.Keys);
    }
  }

  lemma StatusDeltas(cfg: Config, s: Sys, r: Run, e: Env)
    requires e.clock.Some?
    ensures
      var st := StatusOf(cfg, s, r, e);
      && st.applyOk == ApplyOk(cfg, s, r, e)
      && st.added == (if st.applyOk then r.plan.added else [])
      && st.removed == (if st.applyOk then r.plan.removed else [])
      && AddrSet(st.production) == PolicyOf(cfg, s, r, e).production.Keys
  {}

  /** The time a status is made at: the second reading of the clock or, where that
      fails, the first. */
  function ReportTime(e: Env): real
    requires e.clock.Some?
  {
    match e.laterClock
    case Some(later) => later
    case None => e.clock.value
  }

  // ---- a run without answers ----

  lemma NoAnswersStates(cfg: Config, m: AddrMap)
    ensures States(cfg, NO_ANSWERS, m) == KernelStates(cfg, m)
  {
    forall i | 0 <= i < |cfg.endpoints| ensures StateAt(cfg, NO_ANSWERS, m, i) == KernelStateAt(cfg, m, i) {
      assert Find(NO_ANSWERS, EndpointNames(cfg)[i]) == None;
    }
  }

  /** A run that accepts no answers plans exactly what is installed, attempts no
      restore, and reports every name with the addresses it had. */
  lemma AnswerlessRunChangesNothing(cfg: Config, s: Sys, r: Run, e: Env)
    requires Good(cfg, s) && Start(cfg, s, e) == Some(r) && r.accepted.None?
    ensures r.plan.production == ProdMap(cfg, s) && r.plan.maintenance == MaintMap(cfg, s)
    ensures !r.NeedsRestore() && ApplyOk(cfg, s, r, e) && Restored(cfg, s, r, e) == s
    ensures PolicyOf(cfg, s, r, e).names == KernelStates(cfg, ProdMap(cfg, s))
  {
    var prod, maint := ProdMap(cfg, s), MaintMap(cfg, s);
    StartedRun(cfg, s, r, e);
    NoAnswersStates(cfg, prod);
    InvertKernelStates(cfg, prod);
    UnionAbsorbs(maint, prod);
    NeedsRestoreWhenDifferent(cfg, s, r, e);
  }

  // ---- hosts and firewall ----

  /** The (address, name) pairs of a chain. */
  ghost function ChainPairs(m: AddrMap): set<(Addr, string)> {
    set ip, name | ip in m && name in m[ip] :: (ip, name)
  }

  lemma PairsOfInversion(names: seq<NameState>)
    ensures PairsOf(names) == ChainPairs(Invert(names))
  {
    forall ip: Addr, name ensures (ip, name) in PairsOf(names) <==> (ip, name) in ChainPairs(Invert(names)) {
      InvertAt(names, ip);
    }
  }

  lemma KernelStateNames(cfg: Config, m: AddrMap)
    ensures FollowsEndpoints(cfg, KernelStates(cfg, m))
  {
    forall i | 0 <= i < |cfg.endpoints| ensures KernelStates(cfg, m)[i] == KernelStateAt(cfg, m, i) {}
  }

  lemma PlanNamesFollow(cfg: Config, answers: Answers, prod: AddrMap, maint: AddrMap)
    ensures FollowsEndpoints(cfg, PlanOf(cfg, answers, prod, maint).names)
  {
    KernelStateNames(cfg, prod);
    StatesFollow(cfg, answers, prod);
  }

  lemma PolicyFollows(cfg: Config, s: Sys, r: Run, e: Env)
    requires Start(cfg, s, e) == Some(r)
    ensures FollowsEndpoints(cfg, PolicyOf(cfg, s, r, e).names)
  {
    StartedRun(cfg, s, r, e);
    PlanNamesFollow(cfg, AnswersOr(r.accepted), ProdMap(cfg, s), MaintMap(cfg, s));
    KernelStateNames(cfg, PolicyOf(cfg, s, r, e).production);
  }

  lemma FollowersAreHostnames(cfg: Config, names: seq<NameState>)
    requires Valid(cfg) && FollowsEndpoints(cfg, names)
    ensures forall n | n in names :: IsHostname(n.name)
  {
    StateNamesConfigured(cfg, names);
  }

  lemma PolicyWhenFailed(cfg: Config, now: Sys, r: Run, e: Env)
    requires !OkNow(cfg, now, r, e)
    ensures
      var p := PolicyNow(cfg, now, r, e);
      && p.production == (if e.listed.againProd then ProdMap(cfg, now) else r.ProdMap())
      && p.maintenance == (if e.listed.againMaint then MaintMap(cfg, now) else r.MaintMap())
      && p.names == KernelStates(cfg, p.production)
      && r.NeedsRestore()
  {}

  /** The policy after a failed update: each chain as it is re-read, or as it was
      when the run started. */
  lemma PolicyAfterFailure(cfg: Config, s: Sys, r: Run, e: Env)
    requires Start(cfg, s, e) == Some(r) && !ApplyOk(cfg, s, r, e)
    ensures
      var s', p := Restored(cfg, s, r, e), PolicyOf(cfg, s, r, e);
      && p.production == ProdMap(cfg, if e.listed.againProd then s' else s)
      && p.maintenance == MaintMap(cfg, if e.listed.againMaint then s' else s)
      && p.names == KernelStates(cfg, p.production)
      && r.NeedsRestore()
  {
    StartedRun(cfg, s, r, e);
    PolicyWhenFailed(cfg, Restored(cfg, s, r, e), r, e);
  }

  /** When the run knows the installed production chain: unless the kernel
      changed it, that was not confirmed, and it is not read again. */
  ghost predicate SeesProduction(cfg: Config, s: Sys, r: Run, e: Env) {
    !Changed(cfg, r, e) || Confirmed(cfg, r, e) || e.listed.againProd || r.plan.production == ProdMap(cfg, s)
  }

  /** The policy has the installed production chain exactly then. */
  lemma PolicyProduction(cfg: Config, s: Sys, r: Run, e: Env)
    requires GoodRun(cfg, s, r, e)
    ensures PolicyOf(cfg, s, r, e).production == ProdMap(cfg, Restored(cfg, s, r, e)) <==> SeesProduction(cfg, s, r, e)
  {
    ApplyOkExactly(cfg, s, r, e);
    if ApplyOk(cfg, s, r, e) {
      InstalledMaps(cfg, s, r, e);
    } else {
      PolicyAfterFailure(cfg, s, r, e);
      RestoredChains(cfg, s, r, e);
    }
  }

  lemma PolicyInverts(cfg: Config, s: Sys, r: Run, e: Env)
    requires GoodRun(cfg, s, r, e)
    ensures Invert(PolicyOf(cfg, s, r, e).names) == PolicyOf(cfg, s, r, e).production
  {
    if ApplyOk(cfg, s, r, e) {
      StartedRun(cfg, s, r, e);
      InstalledMaps(cfg, s, r, e);
      PlanStates(cfg, AnswersOr(r.accepted), ProdMap(cfg, s), MaintMap(cfg, s));
    } else {
      PolicyAfterFailure(cfg, s, r, e);
      RestoredChains(cfg, s, r, e);
      InvertKernelStates(cfg, PolicyOf(cfg, s, r, e).production);
    }
  }

  /** What the hosts file publishes besides the addresses of the chain. */
  ghost function FixedPairs(cfg: Config): set<(Addr, string)> {
    LinePairs(LOCALHOST) + Published(StaticText(cfg.staticHosts))
  }

  lemma DynamicPairs(cfg: Config, s: Sys, r: Run, e: Env)
    requires GoodRun(cfg, s, r, e)
    ensures
      var p := PolicyOf(cfg, s, r, e);
      Named(p.production) && Published(DynamicText(p.names)) == ChainPairs(p.production)
  {
    var p := PolicyOf(cfg, s, r, e);
    PolicyFollows(cfg, s, r, e);
    PolicyInverts(cfg, s, r, e);
    InvertNames(cfg, p.names);
    FollowersAreHostnames(cfg, p.names);
    DynamicTextPublishes(p.names);
    PairsOfInversion(p.names);
  }

  /** The file a run writes publishes its fixed part and the pairs of the
      production chain in the policy. */
  lemma FileOfRun(cfg: Config, s: Sys, r: Run, e: Env)
    requires GoodRun(cfg, s, r, e) && e.hostsWritten
    ensures
      var s', p := After(cfg, s, e, Complete), PolicyOf(cfg, s, r, e);
      && s'.hosts == Some(HostsText(cfg.staticHosts, p.names))
      && Published(s'.hosts.value) == FixedPairs(cfg) + ChainPairs(p.production)
  {
    var p := PolicyOf(cfg, s, r, e);
    RunEffects(cfg, s, r, e, Complete);
    PolicyFollows(cfg, s, r, e);
    PolicyInverts(cfg, s, r, e);
    FollowersAreHostnames(cfg, p.names);
    HostsPublish(cfg.staticHosts, p.names);
    PairsOfInversion(p.names);
  }

  /** Everything a run publishes besides localhost and the static entries is
      exactly what the production chain holds when the run ends: after a fresh
      update, over the limit, and after a failed update alike. */
  lemma HostsAgreeWithFirewall(cfg: Config, s: Sys, r: Run, e: Env)
    requires GoodRun(cfg, s, r, e) && SeesProduction(cfg, s, r, e) && e.hostsWritten
    ensures
      var s' := After(cfg, s, e, Complete);
      && s'.hosts.Some?
      && Published(s'.hosts.value) ==
           FixedPairs(cfg) + ChainPairs(ProdMap(cfg, s'))
  {
    FileOfRun(cfg, s, r, e);
    PolicyProduction(cfg, s, r, e);
    ChainsAtEnd(cfg, s, r, e);
  }

  lemma PairsDetermine(a: AddrMap, b: AddrMap)
    requires Named(a) && Named(b) && ChainPairs(a) == ChainPairs(b)
    ensures a == b
  {
    forall ip: Addr ensures NamesAt(a, ip) == NamesAt(b, ip) {
      forall name ensures name in NamesAt(a, ip) <==> name in NamesAt(b, ip) {
        assert (ip, name) in ChainPairs(a) <==> (ip, name) in ChainPairs(b);
      }
    }
    SameNamesAt(a, b);
  }

  lemma SameNamesAt(a: AddrMap, b: AddrMap)
    requires Named(a) && Named(b) && forall ip :: NamesAt(a, ip) == NamesAt(b, ip)
    ensures a == b
  {
    forall ip: Addr ensures ip in a <==> ip in b {
      assert NamesAt(a, ip) == NamesAt(b, ip);
    }
    forall ip | ip in a ensures a[ip] == b[ip] {
      assert NamesAt(a, ip) == NamesAt(b, ip);
    }
  }

  /** The dynamic part of the hosts file that a run writes publishes exactly the
      pairs of the installed production chain if and only if the run sees that
      chain. */
  lemma HostsAgreeExactly(cfg: Config, s: Sys, r: Run, e: Env)
    requires GoodRun(cfg, s, r, e) && e.hostsWritten
    ensures
      var s', names := After(cfg, s, e, Complete), PolicyOf(cfg, s, r, e).names;
      && s'.hosts == Some(HostsText(cfg.staticHosts, names))
      && (Published(DynamicText(names)) == ChainPairs(ProdMap(cfg, s')) <==> SeesProduction(cfg, s, r, e))
  {
    FileOfRun(cfg, s, r, e);
    ChainsAtEnd(cfg, s, r, e);
    RestoredChains(cfg, s, r, e);
    DynamicPairs(cfg, s, r, e);
    PolicyProduction(cfg, s, r, e);
    var p, m := PolicyOf(cfg, s, r, e), ProdMap(cfg, Restored(cfg, s, r, e));
    if ChainPairs(p.production) == ChainPairs(m) {
      PairsDetermine(p.production, m);
    }
  }

  /** Newlines in static names stand only behind the last name of a host. */
  ghost predicate StaticNewlinesTrail(cfg: Config) {
    forall h | h in cfg.staticHosts :: NewlinesTrail(h)
  }

  /** It is localhost and the configured static pairs. */
  lemma FixedPart(cfg: Config)
    requires Valid(cfg) && StaticNewlinesTrail(cfg)
    ensures FixedPairs(cfg) == {(0x7F00_0001, "localhost")} + StaticPairs(cfg.staticHosts)
  {
    LocalhostLine();
    StaticTextPublishes(cfg.staticHosts);
  }

  // ---- readiness ----

  lemma InAnInversion(names: seq<NameState>, n: NameState, ip: Addr)
    requires n in names && ip in n.addrs
    ensures ip in Invert(names) && n.name in Invert(names)[ip]
  {}

  lemma PlannedAddressInstalled(cfg: Config, answers: Answers, prod: AddrMap, maint: AddrMap, n: NameState, ip: Addr)
    requires n in PlanOf(cfg, answers, prod, maint).names && ip in n.addrs
    ensures
      var production := PlanOf(cfg, answers, prod, maint).production;
      ip in production && n.name in production[ip]
  {
    var plan := PlanOf(cfg, answers, prod, maint);
    if plan.overLimit {
      var i :| 0 <= i < |plan.names| && plan.names[i] == n;
      KernelStateAtHas(cfg, prod, i, ip);
      KernelStateNames(cfg, prod);
    } else {
      InAnInversion(plan.names, n, ip);
    }
  }

  /** `required_satisfied` in the status means: every required endpoint has an
      address that the production chain, as listed after the run, holds under
      that name, and that the hosts file publishes under that name. */
  lemma SatisfiedMeansReachable(cfg: Config, s: Sys, r: Run, e: Env, i: nat)
    requires Valid(cfg) && Start(cfg, s, e) == Some(r) && StatusOf(cfg, s, r, e).requiredSatisfied
    requires i < |cfg.endpoints| && cfg.endpoints[i].required
    ensures
      var s' := After(cfg, s, e, Complete);
      var name := EndpointNames(cfg)[i];
      exists ip ::
        && ip in ProdMap(cfg, s') && name in ProdMap(cfg, s')[ip]
        && s'.hosts.Some? && (ip, name) in Published(s'.hosts.value)
  {
    var p := PolicyOf(cfg, s, r, e);
    var name := EndpointNames(cfg)[i];
    PolicyFollows(cfg, s, r, e);
    var n := p.names[i];
    assert n in p.names && n.required && n.addrs != [];
    var ip := n.addrs[0];
    SatisfiedAddress(cfg, s, r, e, n, ip);
  }

  lemma SatisfiedAddress(cfg: Config, s: Sys, r: Run, e: Env, n: NameState, ip: Addr)
    requires Valid(cfg) && Start(cfg, s, e) == Some(r) && ApplyOk(cfg, s, r, e) && e.hostsWritten
    requires n in PolicyOf(cfg, s, r, e).names && ip in n.addrs
    ensures
      var s' := After(cfg, s, e, Complete);
      && ip in ProdMap(cfg, s') && n.name in ProdMap(cfg, s')[ip]
      && s'.hosts.Some? && (ip, n.name) in Published(s'.hosts.value)
  {
    var p := PolicyOf(cfg, s, r, e);
    RunEffects(cfg, s, r, e, Complete);
    EqualChains(cfg, After(cfg, s, e, Complete), Restored(cfg, s, r, e));
    InstalledMaps(cfg, s, r, e);
    StartedRun(cfg, s, r, e);
    PlannedAddressInstalled(cfg, AnswersOr(r.accepted), ProdMap(cfg, s), MaintMap(cfg, s), n, ip);
    PolicyFollows(cfg, s, r, e);
    FollowersAreHostnames(cfg, p.names);
    HostsPublish(cfg.staticHosts, p.names);
    assert (ip, n.name) in PairsOf(p.names);
  }

  lemma InstalledMaps(cfg: Config, s: Sys, r: Run, e: Env)
    requires Start(cfg, s, e) == Some(r) && ApplyOk(cfg, s, r, e)
    ensures
      var s' := Restored(cfg, s, r, e);
      && !ProdRead(cfg, s').IsDirty() && ProdMap(cfg, s') == r.plan.production
      && !MaintRead(cfg, s').IsDirty() && MaintMap(cfg, s') == r.plan.maintenance
      && PolicyOf(cfg, s, r, e) == Policy(r.plan.names, r.plan.production, r.plan.maintenance)
  {
    StartedRun(cfg, s, r, e);
  }

  lemma FreshStateHasAddresses(cfg: Config, answers: Answers, m: AddrMap, i: nat)
    requires i < |cfg.endpoints| && States(cfg, answers, m)[i].source == Fresh
    ensures States(cfg, answers, m)[i].addrs != []
  {
    assert States(cfg, answers, m)[i] == StateAt(cfg, answers, m, i);
  }

  lemma KernelStateNotFresh(cfg: Config, m: AddrMap, i: nat)
    requires i < |cfg.endpoints|
    ensures KernelStates(cfg, m)[i].source != Fresh
  {
    assert KernelStates(cfg, m)[i] == KernelStateAt(cfg, m, i);
  }

  lemma FreshHasAddresses(cfg: Config, answers: Answers, prod: AddrMap, maint: AddrMap)
    ensures forall n | n in PlanOf(cfg, answers, prod, maint).names :: n.source == Fresh ==> n.addrs != []
  {
    var plan := PlanOf(cfg, answers, prod, maint);
    forall i | 0 <= i < |plan.names| && plan.names[i].source == Fresh ensures plan.names[i].addrs != [] {
      if plan.overLimit {
        KernelStateNotFresh(cfg, prod, i);
      } else {
        FreshStateHasAddresses(cfg, answers, prod, i);
      }
    }
  }

  /** `required_fresh` and a written hosts file imply `required_satisfied`. */
  lemma FreshAndHostedIsSatisfied(cfg: Config, s: Sys, r: Run, e: Env)
    requires Start(cfg, s, e) == Some(r)
    ensures
      var st := StatusOf(cfg, s, r, e);
      st.requiredFresh && st.hostsOk ==> st.requiredSatisfied
  {
    StartedRun(cfg, s, r, e);
    FreshHasAddresses(cfg, AnswersOr(r.accepted), ProdMap(cfg, s), MaintMap(cfg, s));
  }
}
