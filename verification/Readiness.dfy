/** What the flags and the lists of the status say about the machine and the
    accepted answers. */
module Readiness {
  import opened Text
  import opened Address
  import opened Ordered
  import opened Config
  import opened Iptables
  import opened Answers
  import opened Plan
  import opened Conntrack
  import opened Apply
  import opened Reconcile
  import opened Ideal

  // ---- required_fresh ----

  /** The accepted answers have a usable answer for the name: the first result
      under it is `Ok` with some addresses, all of them global. */
  ghost predicate Answered(accepted: Option<Answers>, name: string) {
    && accepted.Some?
    && var found := Find(accepted.value, name);
       found.Some? && found.value.outcome == Ok && found.value.addrs != [] &&
       forall ip | ip in found.value.addrs :: IsGlobalUnicast(ip)
  }

  lemma StateFreshExactly(ep: Endpoint, name: string, accepted: Option<Answers>, previous: seq<Addr>)
    ensures StateFor(ep, name, AnswersOr(accepted), previous).source == Fresh <==> Answered(accepted, name)
  {
    if accepted.None? {
      assert Find(NO_ANSWERS, name) == None;
    }
  }

  ghost predicate FreshWhereRequired(names: seq<NameState>) {
    forall i | 0 <= i < |names| && names[i].required :: names[i].source == Fresh
  }

  ghost predicate AddressedWhereRequired(names: seq<NameState>) {
    forall i | 0 <= i < |names| && names[i].required :: names[i].addrs != []
  }

  lemma Flags(r: Run, ok: bool, p: Policy, failed: seq<Addr>, e: Env)
    requires e.clock.Some?
    ensures
      var st := StatusFrom(r, ok, p, failed, e);
      && (st.requiredFresh <==> ok && FreshWhereRequired(p.names))
      && (st.requiredSatisfied <==> ok && e.hostsWritten && AddressedWhereRequired(p.names))
  {
    assert forall n :: n in p.names <==> exists i :: 0 <= i < |p.names| && p.names[i] == n;
  }

  lemma FlagsOfRun(cfg: Config, s: Sys, r: Run, e: Env)
    requires Start(cfg, s, e) == Some(r) && e.clock.Some?
    ensures
      var st, ok := StatusOf(cfg, s, r, e), ApplyOk(cfg, s, r, e);
      && (st.requiredFresh <==> ok && FreshWhereRequired(r.plan.names))
      && (st.requiredSatisfied <==> ok && e.hostsWritten && AddressedWhereRequired(r.plan.names))
  {
    var p := PolicyOf(cfg, s, r, e);
    Flags(r, ApplyOk(cfg, s, r, e), p, FailedOf(s, p, e), e);
    if ApplyOk(cfg, s, r, e) {
      InstalledMaps(cfg, s, r, e);
    }
  }

  /** The `i`-th endpoint is not required, or answered in this run. */
  ghost predicate FreshEnough(cfg: Config, r: Run, i: nat)
    requires i < |cfg.endpoints|
  {
    cfg.endpoints[i].required ==> !r.plan.overLimit && Answered(r.accepted, EndpointNames(cfg)[i])
  }

  lemma PlannedFresh(cfg: Config, accepted: Option<Answers>, prod: AddrMap, maint: AddrMap, i: nat)
    requires i < |cfg.endpoints|
    ensures
      var plan := PlanOf(cfg, AnswersOr(accepted), prod, maint);
      && |plan.names| == |cfg.endpoints| && plan.names[i].required == cfg.endpoints[i].required
      && (plan.names[i].source == Fresh <==> !plan.overLimit && Answered(accepted, EndpointNames(cfg)[i]))
  {
    var plan := PlanOf(cfg, AnswersOr(accepted), prod, maint);
    PlanFields(cfg, AnswersOr(accepted), prod, maint);
    PlanNamesFollow(cfg, AnswersOr(accepted), prod, maint);
    if plan.overLimit {
      KernelStateNotFresh(cfg, prod, i);
    } else {
      assert plan.names[i] == StateAt(cfg, AnswersOr(accepted), prod, i);
      StateFreshExactly(cfg.endpoints[i], EndpointNames(cfg)[i], accepted, Previous(prod, EndpointNames(cfg)[i]));
    }
  }

  lemma PlanFresh(cfg: Config, s: Sys, r: Run, e: Env)
    requires Start(cfg, s, e) == Some(r)
    ensures
      FreshWhereRequired(r.plan.names) <==> forall i: nat | i < |cfg.endpoints| :: FreshEnough(cfg, r, i)
  {
    StartedRun(cfg, s, r, e);
    forall i: nat | i < |cfg.endpoints|
      ensures |r.plan.names| == |cfg.endpoints|
      ensures (r.plan.names[i].required ==> r.plan.names[i].source == Fresh) <==> FreshEnough(cfg, r, i)
    {
      PlannedFresh(cfg, r.accepted, ProdMap(cfg, s), MaintMap(cfg, s), i);
    }
    PlanNamesFollow(cfg, AnswersOr(r.accepted), ProdMap(cfg, s), MaintMap(cfg, s));
  }

  /** `required_fresh` holds exactly if the firewall is updated and every required
      endpoint has a usable answer among those accepted in this run, within the
      limit: a last-known-good address does not count. */
  lemma RequiredFreshExactly(cfg: Config, s: Sys, r: Run, e: Env)
    requires Start(cfg, s, e) == Some(r)
    ensures e.clock.Some?
    ensures
      StatusOf(cfg, s, r, e).requiredFresh <==>
      ApplyOk(cfg, s, r, e) && forall i: nat | i < |cfg.endpoints| :: FreshEnough(cfg, r, i)
  {
    StartedRun(cfg, s, r, e);
    FlagsOfRun(cfg, s, r, e);
    PlanFresh(cfg, s, r, e);
  }

  // ---- required_satisfied ----

  /** The `i`-th endpoint is not required, or the map has an address under its name. */
  ghost predicate HasAddresses(cfg: Config, m: AddrMap, i: nat)
    requires i < |cfg.endpoints|
  {
    cfg.endpoints[i].required ==> AddrsUnder(m, EndpointNames(cfg)[i]) != {}
  }

  lemma PlannedAddresses(cfg: Config, answers: Answers, prod: AddrMap, maint: AddrMap, i: nat)
    requires Valid(cfg) && i < |cfg.endpoints|
    ensures
      var plan := PlanOf(cfg, answers, prod, maint);
      && |plan.names| == |cfg.endpoints|
      && (plan.names[i].addrs != [] <==> AddrsUnder(plan.production, EndpointNames(cfg)[i]) != {})
  {
    var plan, name := PlanOf(cfg, answers, prod, maint), EndpointNames(cfg)[i];
    PlanFields(cfg, answers, prod, maint);
    PlanNamesFollow(cfg, answers, prod, maint);
    if plan.overLimit {
      assert plan.names[i] == KernelStateAt(cfg, prod, i);
      PreviousMembers(prod, name);
      SameMembers(plan.names[i].addrs, AddrsUnder(prod, name));
    } else {
      DistinctEndpoints(cfg);
      LkgOfStates(cfg, plan.names, i);
      SameMembers(plan.names[i].addrs, AddrsUnder(plan.production, name));
    }
  }

  lemma SameMembers(ips: seq<Addr>, m: set<Addr>)
    requires forall ip :: ip in m <==> ip in ips
    ensures ips != [] <==> m != {}
  {
    if ips != [] {
      assert ips[0] in m;
    }
  }

  lemma PlanSatisfied(cfg: Config, s: Sys, r: Run, e: Env)
    requires Valid(cfg) && Start(cfg, s, e) == Some(r)
    ensures
      AddressedWhereRequired(r.plan.names) <==>
      forall i: nat | i < |cfg.endpoints| :: HasAddresses(cfg, r.plan.production, i)
  {
    StartedRun(cfg, s, r, e);
    PlanNamesFollow(cfg, AnswersOr(r.accepted), ProdMap(cfg, s), MaintMap(cfg, s));
    forall i: nat | i < |cfg.endpoints|
      ensures
        (r.plan.names[i].required ==> r.plan.names[i].addrs != []) <==> HasAddresses(cfg, r.plan.production, i)
    {
      PlannedAddresses(cfg, AnswersOr(r.accepted), ProdMap(cfg, s), MaintMap(cfg, s), i);
    }
  }

  /** `required_satisfied` holds exactly if the firewall is updated, the hosts file
      is written, and the installed production chain has an address under every
      required name. */
  lemma RequiredSatisfiedExactly(cfg: Config, s: Sys, r: Run, e: Env)
    requires Valid(cfg) && Start(cfg, s, e) == Some(r)
    ensures e.clock.Some?
    ensures
      StatusOf(cfg, s, r, e).requiredSatisfied <==>
      && ApplyOk(cfg, s, r, e) && e.hostsWritten
      && forall i: nat | i < |cfg.endpoints| :: HasAddresses(cfg, ProdMap(cfg, After(cfg, s, e, Complete)), i)
  {
    StartedRun(cfg, s, r, e);
    FlagsOfRun(cfg, s, r, e);
    if ApplyOk(cfg, s, r, e) {
      PlanSatisfied(cfg, s, r, e);
      InstalledMaps(cfg, s, r, e);
      ChainsAtEnd(cfg, s, r, e);
    }
  }

  // ---- the other fields ----

  /** The rest of the status, field by field: the boot, the time and the mode it was
      made in; the generation of the accepted answers; whether the hosts file was
      written and the sweep had no failure; and the addresses of both chains as the
      run knows them, ascending. */
  lemma StatusTells(cfg: Config, s: Sys, r: Run, e: Env)
    requires Start(cfg, s, e) == Some(r)
    ensures e.clock.Some?
    ensures
      var st, p := StatusOf(cfg, s, r, e), PolicyOf(cfg, s, r, e);
      && st.bootId == e.bootId && st.generated == ReportTime(e) && st.mode == e.mode
      && (st.answersUptime.Some? <==> r.accepted.Some?)
      && (st.answersUptime.Some? ==> e.answers.Some? && st.answersUptime.value == e.answers.value.generated)
      && (st.applyOk <==> ApplyOk(cfg, s, r, e)) && (st.hostsOk <==> e.hostsWritten)
      && (st.conntrackOk <==> forall ip | ip in ToKill(p, e) :: ip !in st.killFailed)
      && st.endpoints == p.names
      && (forall ip :: ip in st.production <==> ip in p.production)
      && (forall ip :: ip in st.maintenance <==> ip in p.maintenance)
      && (forall j, k | 0 <= j < k < |st.production| :: st.production[j] < st.production[k])
      && (forall j, k | 0 <= j < k < |st.maintenance| :: st.maintenance[j] < st.maintenance[k])
  {
    StartedRun(cfg, s, r, e);
    AcceptedBy(cfg, s, r, e);
    var p := PolicyOf(cfg, s, r, e);
    ReportedExactly(s.flows, ToKill(p, e), e.tool);
    FieldsOfStatus(r, ApplyOk(cfg, s, r, e), p, FailedOf(s, p, e), e);
  }

  lemma FieldsOfStatus(r: Run, ok: bool, p: Policy, failed: seq<Addr>, e: Env)
    requires e.clock.Some? && forall ip | ip in failed :: ip in ToKill(p, e)
    ensures
      var st := StatusFrom(r, ok, p, failed, e);
      && st.bootId == e.bootId && st.generated == ReportTime(e) && st.mode == e.mode
      && st.answersUptime == (if r.accepted.Some? then Some(r.accepted.value.generated) else None)
      && st.applyOk == ok && st.hostsOk == e.hostsWritten && st.killFailed == failed
      && (st.conntrackOk <==> forall ip | ip in ToKill(p, e) :: ip !in failed)
      && st.endpoints == p.names
      && st.production == SortedAddrs(p.production.Keys) && st.maintenance == SortedAddrs(p.maintenance.Keys)
  {
    if failed != [] {
      assert failed[0] in ToKill(p, e) && failed[0] in failed;
    }
  }
}
