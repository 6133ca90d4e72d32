/** Sequences of runs, each of which may fail or crash anywhere, with the
    connection table changing freely in between. */
module Runs {
  import opened Text
  import opened Address
  import opened Config
  import opened Iptables
  import opened Kernel
  import opened Answers
  import opened Plan
  import opened Conntrack
  import opened Hosts
  import opened Statics
  import opened Apply
  import opened Reconcile

  datatype Step =
    | Pass(e: Env, cut: Cut)     // one run, complete or cut short
    | Traffic(flows: set<Flow>)    // flows come and go

  function Next(cfg: Config, s: Sys, step: Step): Sys {
    match step
    case Pass(e, cut) => After(cfg, s, e, cut)
    case Traffic(flows) => s.(flows := flows)
  }

  function Exec(cfg: Config, s: Sys, steps: seq<Step>): Sys {
    if steps == [] then s else Next(cfg, Exec(cfg, s, steps[..|steps| - 1]), steps[|steps| - 1])
  }

  /** Induction over the steps of a history. */
  lemma {:induction false} ExecInduction(cfg: Config, s: Sys, steps: seq<Step>, p: (Sys, nat) -> bool)
    requires p(s, 0)
    requires forall t, n: nat, step | p(t, n) && step in steps :: p(Next(cfg, t, step), n + 1)
    ensures p(Exec(cfg, s, steps), |steps|)
  {
    if steps != [] {
      var init, last := steps[..|steps| - 1], steps[|steps| - 1];
      assert last in steps && forall step | step in init :: step in steps;
      ExecInduction(cfg, s, init, p);
    }
  }

  /** Both chains exist and are empty; nothing has been recorded. */
  ghost predicate Initial(cfg: Config, s: Sys) {
    && RuleSpecs(s.production, cfg.firewall.production) == []
    && RuleSpecs(s.maintenance, cfg.firewall.maintenance) == []
    && s.status == None
  }

  ghost predicate HonestSteps(cfg: Config, steps: seq<Step>) {
    forall step | step in steps && step.Pass? :: HonestKernel(cfg, step.e)
  }

  // ---- one step ----

  lemma InitialIsGood(cfg: Config, s: Sys)
    requires Valid(cfg) && Initial(cfg, s)
    ensures Good(cfg, s) && ProdMap(cfg, s) == map[] && MaintMap(cfg, s) == map[]
  {
    CountIsSpecs(Lines(s.production), cfg.firewall.production);
    CountIsSpecs(Lines(s.maintenance), cfg.firewall.maintenance);
    assert ProdRead(cfg, s) == ChainRead([], 0) && MaintRead(cfg, s) == ChainRead([], 0);
  }

  /** A run, wherever it ends, keeps the invariant and only grows maintenance;
      the chains hold the old maps or the plan of the run. */
  lemma RunKeepsGood(cfg: Config, s: Sys, e: Env, cut: Cut)
    requires Valid(cfg) && Good(cfg, s) && HonestKernel(cfg, e)
    ensures
      var s' := After(cfg, s, e, cut);
      Good(cfg, s') && Within(MaintMap(cfg, s), MaintMap(cfg, s'))
  {
    match Start(cfg, s, e)
    case None =>
    case Some(r) =>
      RunEffects(cfg, s, r, e, cut);
      RestoredChains(cfg, s, r, e);
      var s' := After(cfg, s, e, cut);
      if !cut.BeforeRestore? {
        EqualChains(cfg, s', Restored(cfg, s, r, e));
      }
  }

  lemma StepKeepsGood(cfg: Config, s: Sys, step: Step)
    requires Valid(cfg) && Good(cfg, s) && (step.Pass? ==> HonestKernel(cfg, step.e))
    ensures
      var s' := Next(cfg, s, step);
      Good(cfg, s') && Within(MaintMap(cfg, s), MaintMap(cfg, s'))
  {
    match step
    case Pass(e, cut) => RunKeepsGood(cfg, s, e, cut);
    case Traffic(flows) => EqualChains(cfg, s, s.(flows := flows));
  }

  // ---- whole runs ----

  /** From empty chains every reachable machine is good: clean chains, at most
      `max_addresses` in production, production pointwise within maintenance,
      every address global unicast and under configured names only. */
  lemma {:induction false} ReachableIsGood(cfg: Config, s: Sys, steps: seq<Step>)
    requires Valid(cfg) && Initial(cfg, s) && HonestSteps(cfg, steps)
    ensures Good(cfg, Exec(cfg, s, steps))
  {
    if steps == [] {
      InitialIsGood(cfg, s);
    } else {
      var init, last := steps[..|steps| - 1], steps[|steps| - 1];
      ReachableIsGood(cfg, s, init);
      assert last in steps;
      StepKeepsGood(cfg, Exec(cfg, s, init), last);
    }
  }

  lemma WithinTransitive(a: AddrMap, b: AddrMap, c: AddrMap)
    requires Within(a, b) && Within(b, c)
    ensures Within(a, c)
  {}

  /** Maintenance never shrinks, and holds every (address, name) that was ever
      in production. */
  lemma {:induction false} EverAllowedStaysInMaintenance(cfg: Config, s: Sys, steps: seq<Step>, i: nat)
    requires Valid(cfg) && Initial(cfg, s) && HonestSteps(cfg, steps) && i <= |steps|
    ensures
      var past, now := Exec(cfg, s, steps[..i]), Exec(cfg, s, steps);
      Within(MaintMap(cfg, past), MaintMap(cfg, now)) && Within(ProdMap(cfg, past), MaintMap(cfg, now))
  {
    if i == |steps| {
      assert steps[..i] == steps;
      ReachableIsGood(cfg, s, steps);
    } else {
      var init, last := steps[..|steps| - 1], steps[|steps| - 1];
      assert init[..i] == steps[..i] && last in steps;
      EverAllowedStaysInMaintenance(cfg, s, init, i);
      ReachableIsGood(cfg, s, init);
      StepKeepsGood(cfg, Exec(cfg, s, init), last);
      var m := MaintMap(cfg, Exec(cfg, s, init));
      WithinTransitive(MaintMap(cfg, Exec(cfg, s, steps[..i])), m, MaintMap(cfg, Exec(cfg, s, steps)));
      WithinTransitive(ProdMap(cfg, Exec(cfg, s, steps[..i])), m, MaintMap(cfg, Exec(cfg, s, steps)));
    }
  }

  // ---- flows ----

  /** Addresses no flow may go to in a mode. */
  ghost function Forbidden(mode: string, prod: AddrMap, maint: AddrMap): set<Addr> {
    set ip | ip in maint && (mode != "production" || ip !in prod)
  }

  /** The run sweeps every address that is forbidden under the chains as they
      are when it ends. */
  ghost predicate SweepsForbidden(cfg: Config, s: Sys, r: Run, e: Env) {
    var s', p := Restored(cfg, s, r, e), PolicyOf(cfg, s, r, e);
    Forbidden(e.mode, ProdMap(cfg, s'), MaintMap(cfg, s')) <= Forbidden(e.mode, p.production, p.maintenance)
  }

  /** When it does: unless the kernel changed the chains, that was not confirmed,
      and then, in production mode, production is not read again after an address
      left it or, in any other mode, maintenance is not read again after an
      address came in. */
  ghost predicate SweepSees(cfg: Config, s: Sys, r: Run, e: Env) {
    || !Changed(cfg, r, e) || Confirmed(cfg, r, e)
    || (if e.mode == "production" then e.listed.againProd || ProdMap(cfg, s).Keys <= r.plan.production.Keys
        else e.listed.againMaint || r.plan.production.Keys <= MaintMap(cfg, s).Keys)
  }

  /** The policy after a failed update that the kernel had committed. */
  lemma ForbiddenAfterFailure(mode: string, oldProd: AddrMap, oldMaint: AddrMap,
      prod: AddrMap, maint: AddrMap, againProd: bool, againMaint: bool)
    requires maint.Keys == oldMaint.Keys + prod.Keys && oldProd.Keys <= oldMaint.Keys
    ensures
      Forbidden(mode, prod, maint) <=
        Forbidden(mode, if againProd then prod else oldProd, if againMaint then maint else oldMaint) <==>
      if mode == "production" then againProd || oldProd.Keys <= prod.Keys else againMaint || prod.Keys <= oldMaint.Keys
  {
    var seenProd, seenMaint := if againProd then prod else oldProd, if againMaint then maint else oldMaint;
    forall ip: Addr
      ensures ip in Forbidden(mode, prod, maint) && ip !in Forbidden(mode, seenProd, seenMaint) <==>
              if mode == "production" then !againProd && ip in oldProd && ip !in prod
              else !againMaint && ip in prod && ip !in oldMaint
    {
      assert ip in maint <==> ip in oldMaint || ip in prod;
      assert ip in oldProd ==> ip in oldMaint;
    }
  }

  lemma PlanMaintenanceKeys(cfg: Config, s: Sys, r: Run, e: Env)
    requires Start(cfg, s, e) == Some(r)
    ensures r.plan.maintenance.Keys == MaintMap(cfg, s).Keys + r.plan.production.Keys
  {
    StartedRun(cfg, s, r, e);
  }

  lemma SweepSeesExactly(cfg: Config, s: Sys, r: Run, e: Env)
    requires GoodRun(cfg, s, r, e)
    ensures SweepsForbidden(cfg, s, r, e) <==> SweepSees(cfg, s, r, e)
  {
    ApplyOkExactly(cfg, s, r, e);
    if ApplyOk(cfg, s, r, e) {
      InstalledMaps(cfg, s, r, e);
    } else {
      PolicyAfterFailure(cfg, s, r, e);
      RestoredChains(cfg, s, r, e);
      PlanMaintenanceKeys(cfg, s, r, e);
      ForbiddenAfterFailure(e.mode, ProdMap(cfg, s), MaintMap(cfg, s), r.plan.production, r.plan.maintenance,
                            e.listed.againProd, e.listed.againMaint);
    }
  }

  lemma KillSetMembers(mode: string, prod: AddrMap, maint: AddrMap, ip: Addr)
    ensures ip in KillSet(mode, prod, maint) <==> ip in Forbidden(mode, prod, maint)
  {}

  ghost predicate HonestTool(tool: Addr -> ToolRun) {
    forall ip :: Honest(tool(ip))
  }

  /** A completed run leaves no flow to a forbidden address except to those it
      reports as failed, and it reports exactly the broken deletions. */
  lemma SweepLeavesOnlyFailed(cfg: Config, s: Sys, r: Run, e: Env, f: Flow)
    requires Start(cfg, s, e) == Some(r) && SweepsForbidden(cfg, s, r, e) && HonestTool(e.tool)
    requires f in After(cfg, s, e, Complete).flows
    requires
      var s' := After(cfg, s, e, Complete);
      f.dst in Forbidden(e.mode, ProdMap(cfg, s'), MaintMap(cfg, s'))
    ensures f.dst in StatusOf(cfg, s, r, e).killFailed && e.tool(f.dst).Breaks?
  {
    var p := PolicyOf(cfg, s, r, e);
    RunEffects(cfg, s, r, e, Complete);
    EqualChains(cfg, After(cfg, s, e, Complete), Restored(cfg, s, r, e));
    KillSetMembers(e.mode, p.production, p.maintenance, f.dst);
    SweepIsExact(s.flows, ToKill(p, e), e.tool);
  }

  /** What a sweep whose deletions all work leaves behind. */
  lemma SweepLeaves(p: Policy, e: Env, f: Flow)
    requires forall ip :: e.tool(ip) == Works
    ensures f in Swept({f}, ToKill(p, e), e.tool) <==> f.dst !in Forbidden(e.mode, p.production, p.maintenance)
  {
    SweepIsExact({f}, ToKill(p, e), e.tool);
    KillSetMembers(e.mode, p.production, p.maintenance, f.dst);
  }

  /** A sweep whose deletions all work covers the forbidden addresses exactly
      under that condition: otherwise some flow to one survives. */
  lemma SweepCoversExactly(cfg: Config, s: Sys, r: Run, e: Env)
    requires GoodRun(cfg, s, r, e) && forall ip :: e.tool(ip) == Works
    ensures
      SweepSees(cfg, s, r, e) <==>
      forall f: Flow ::
        f in Swept({f}, ToKill(PolicyOf(cfg, s, r, e), e), e.tool) ==>
        var s' := Restored(cfg, s, r, e);
        f.dst !in Forbidden(e.mode, ProdMap(cfg, s'), MaintMap(cfg, s'))
  {
    SweepSeesExactly(cfg, s, r, e);
    var s', p := Restored(cfg, s, r, e), PolicyOf(cfg, s, r, e);
    SweepCovers(p, e, Forbidden(e.mode, ProdMap(cfg, s'), MaintMap(cfg, s')));
  }

  lemma SweepCovers(p: Policy, e: Env, bad: set<Addr>)
    requires forall ip :: e.tool(ip) == Works
    ensures
      bad <= Forbidden(e.mode, p.production, p.maintenance) <==>
      forall f: Flow :: f in Swept({f}, ToKill(p, e), e.tool) ==> f.dst !in bad
  {
    forall f: Flow ensures f in Swept({f}, ToKill(p, e), e.tool) <==>
      f.dst !in Forbidden(e.mode, p.production, p.maintenance)
    {
      SweepLeaves(p, e, f);
    }
    forall ip | ip in bad && ip !in Forbidden(e.mode, p.production, p.maintenance)
      ensures exists f: Flow :: f in Swept({f}, ToKill(p, e), e.tool) && f.dst in bad
    {
      assert Flow(0, ip) in Swept({Flow(0, ip)}, ToKill(p, e), e.tool);
    }
  }

  lemma {:induction false} ExceptMembers(ips: seq<Addr>, failed: seq<Addr>)
    ensures forall ip :: ip in Except(ips, AddrSet(failed)) <==> ip in ips && ip !in failed
  {
    if ips != [] {
      ExceptMembers(ips[..|ips| - 1], failed);
      assert ips == ips[..|ips| - 1] + [ips[|ips| - 1]];
    }
  }

  /** The addresses reported as killed have no flow left, and with those reported
      as failed they are the whole kill set. */
  lemma KilledAreGone(cfg: Config, s: Sys, r: Run, e: Env)
    requires Start(cfg, s, e) == Some(r) && HonestTool(e.tool)
    ensures
      var st, after := StatusOf(cfg, s, r, e), After(cfg, s, e, Complete);
      && (forall f | f in after.flows :: f.dst !in st.killed)
      && (forall ip :: ip in ToKill(PolicyOf(cfg, s, r, e), e) <==> ip in st.killed || ip in st.killFailed)
      && (forall ip :: !(ip in st.killed && ip in st.killFailed))
  {
    var p := PolicyOf(cfg, s, r, e);
    StartedRun(cfg, s, r, e);
    RunEffects(cfg, s, r, e, Complete);
    SweepIsExact(s.flows, ToKill(p, e), e.tool);
    ExceptMembers(ToKill(p, e), KillFailed(s.flows, ToKill(p, e), e.tool));
    StatusKills(cfg, s, r, e);
  }

  lemma StatusKills(cfg: Config, s: Sys, r: Run, e: Env)
    requires e.clock.Some?
    ensures
      var st, ips := StatusOf(cfg, s, r, e), ToKill(PolicyOf(cfg, s, r, e), e);
      && st.killFailed == KillFailed(s.flows, ips, e.tool)
      && st.killed == Except(ips, AddrSet(st.killFailed))
  {}

  /** The flow goes to an address reported as failed, or to one that production
      mode allows now; the latter if nothing is reported. */
  ghost predicate Excused(cfg: Config, s: Sys, st: Status, mode: string, f: Flow) {
    var allowed := mode == "production" && f.dst in ProdMap(cfg, s);
    (f.dst in st.killFailed || allowed) && (st.conntrackOk ==> allowed)
  }

  lemma SurvivorIsExcused(cfg: Config, s: Sys, r: Run, e: Env, f: Flow)
    requires GoodRun(cfg, s, r, e) && SweepSees(cfg, s, r, e) && HonestTool(e.tool)
    requires
      var after := After(cfg, s, e, Complete);
      f in after.flows && f.dst in MaintMap(cfg, after)
    ensures Excused(cfg, After(cfg, s, e, Complete), StatusOf(cfg, s, r, e), e.mode, f)
  {
    var after := After(cfg, s, e, Complete);
    SweepSeesExactly(cfg, s, r, e);
    FailuresAreReported(cfg, s, r, e);
    if f.dst in Forbidden(e.mode, ProdMap(cfg, after), MaintMap(cfg, after)) {
      SweepLeavesOnlyFailed(cfg, s, r, e, f);
    }
  }

  lemma FailuresAreReported(cfg: Config, s: Sys, r: Run, e: Env)
    requires e.clock.Some?
    ensures StatusOf(cfg, s, r, e).conntrackOk <==> StatusOf(cfg, s, r, e).killFailed == []
  {}

  lemma HistoryToNow(cfg: Config, s: Sys, steps: seq<Step>, step: Step, i: nat, ip: Addr)
    requires Valid(cfg) && Initial(cfg, s) && HonestSteps(cfg, steps) && (step.Pass? ==> HonestKernel(cfg, step.e))
    requires i <= |steps| + 1 && ip in ProdMap(cfg, Exec(cfg, s, (steps + [step])[..i]))
    ensures ip in MaintMap(cfg, Next(cfg, Exec(cfg, s, steps), step))
  {
    var all := steps + [step];
    assert all[..|steps|] == steps;
    assert HonestSteps(cfg, all);
    EverAllowedStaysInMaintenance(cfg, s, all, i);
  }

  /** Over whole runs: after a completed run every surviving flow to an address
      that was ever allowed goes to an address reported as failed, or, in
      production mode, to an address allowed now. */
  lemma SweepCoversEverAllowed(cfg: Config, s: Sys, steps: seq<Step>, e: Env, r: Run, i: nat, f: Flow)
    requires Valid(cfg) && Initial(cfg, s) && HonestSteps(cfg, steps) && HonestKernel(cfg, e) && HonestTool(e.tool)
    requires i <= |steps| + 1
    requires
      var before := Exec(cfg, s, steps);
      var after := After(cfg, before, e, Complete);
      && Start(cfg, before, e) == Some(r) && SweepSees(cfg, before, r, e)
      && f in after.flows && f.dst in ProdMap(cfg, Exec(cfg, s, (steps + [Pass(e, Complete)])[..i]))
    ensures
      var before := Exec(cfg, s, steps);
      Excused(cfg, After(cfg, before, e, Complete), StatusOf(cfg, before, r, e), e.mode, f)
  {
    HistoryToNow(cfg, s, steps, Pass(e, Complete), i, f.dst);
    ReachableIsGood(cfg, s, steps);
    SurvivorIsExcused(cfg, Exec(cfg, s, steps), r, e, f);
  }

  // ---- the hosts file ----

  /** Over whole runs: whenever a run that sees the installed chain has written
      the hosts file, the file publishes exactly the pairs of the production
      chain besides its fixed part. */
  lemma HostsAgreeAlways(cfg: Config, s: Sys, steps: seq<Step>, e: Env, r: Run)
    requires Valid(cfg) && Initial(cfg, s) && HonestSteps(cfg, steps) && HonestKernel(cfg, e)
    requires
      var before := Exec(cfg, s, steps);
      Start(cfg, before, e) == Some(r) && SeesProduction(cfg, before, r, e) && e.hostsWritten
    ensures
      var after := Exec(cfg, s, steps + [Pass(e, Complete)]);
      && after.hosts.Some?
      && Published(after.hosts.value) ==
           FixedPairs(cfg) + ChainPairs(ProdMap(cfg, after))
    ensures StaticNewlinesTrail(cfg) ==> FixedPairs(cfg) == {(0x7F00_0001, "localhost")} + StaticPairs(cfg.staticHosts)
  {
    var all := steps + [Pass(e, Complete)];
    assert all[..|steps|] == steps;
    ReachableIsGood(cfg, s, steps);
    HostsAgreeWithFirewall(cfg, Exec(cfg, s, steps), r, e);
    if StaticNewlinesTrail(cfg) { FixedPart(cfg); }
  }

  // ---- runs without answers ----

  /** From any reachable machine, a run that accepts no answers leaves both
      chains as they are, whatever the kernel would have done. */
  lemma AnswerlessRunIsFixpoint(cfg: Config, s: Sys, steps: seq<Step>, e: Env, cut: Cut)
    requires Valid(cfg) && Initial(cfg, s) && HonestSteps(cfg, steps)
    requires
      var before := Exec(cfg, s, steps);
      Start(cfg, before, e).Some? && Start(cfg, before, e).value.accepted.None?
    ensures
      var before, after := Exec(cfg, s, steps), Exec(cfg, s, steps + [Pass(e, cut)]);
      && after.production == before.production && after.maintenance == before.maintenance
      && !Start(cfg, before, e).value.NeedsRestore()
      && forall name | name in Configured(cfg) ::
           AddrsUnder(ProdMap(cfg, after), name) == AddrsUnder(ProdMap(cfg, before), name)
  {
    var all, before := steps + [Pass(e, cut)], Exec(cfg, s, steps);
    assert all[..|steps|] == steps;
    ReachableIsGood(cfg, s, steps);
    var r := Start(cfg, before, e).value;
    AnswerlessRunChangesNothing(cfg, before, r, e);
    RunEffects(cfg, before, r, e, cut);
    EqualChains(cfg, After(cfg, before, e, cut), before);
  }

  // ---- the generation marker ----

  ghost function MarkerOf(s: Sys): Option<real> {
    if s.status.Some? then s.status.value.applied else None
  }

  ghost predicate NotAfter(a: Option<real>, b: Option<real>) {
    a.None? || (b.Some? && a.value <= b.value)
  }

  ghost predicate Before(a: Option<real>, b: Option<real>) {
    b.Some? && (a.None? || a.value < b.value)
  }

  /** The status file, if any, was written during this boot. */
  ghost predicate SameBoot(s: Sys, bootId: string) {
    s.status.Some? ==> s.status.value.bootId == bootId
  }

  /** The run accepts answers, takes the firewall for updated and records that;
      over the limit it does so without having changed the chains. */
  ghost predicate RecordsAnswers(cfg: Config, s: Sys, e: Env, cut: Cut) {
    var start := Start(cfg, s, e);
    && cut.Complete? && e.statusWritten && start.Some?
    && start.value.accepted.Some? && ApplyOk(cfg, s, start.value, e)
  }

  /** Within a boot the marker moves exactly on such runs, and then it rises to the
      generation of the accepted answers; otherwise it stays. */
  lemma MarkerMovesForward(cfg: Config, s: Sys, e: Env, cut: Cut)
    requires SameBoot(s, e.bootId)
    ensures
      var s' := After(cfg, s, e, cut);
      && SameBoot(s', e.bootId)
      && (if RecordsAnswers(cfg, s, e, cut)
          then Before(MarkerOf(s), MarkerOf(s')) && MarkerOf(s') == Some(e.answers.value.generated)
          else MarkerOf(s') == MarkerOf(s))
  {
    var start := Start(cfg, s, e);
    if start.Some? {
      RecordedMarker(cfg, s, start.value, e);
      RunEffects(cfg, s, start.value, e, cut);
      AcceptedGeneration(cfg, s, e, start.value);
    }
  }

  /** The marker and the boot that a run records. */
  lemma RecordedMarker(cfg: Config, s: Sys, r: Run, e: Env)
    requires Start(cfg, s, e) == Some(r)
    ensures e.clock.Some?
    ensures
      var p := PersistedOf(StatusOf(cfg, s, r, e));
      && p.bootId == e.bootId
      && p.applied == (if ApplyOk(cfg, s, r, e) && r.accepted.Some? then Some(r.accepted.value.generated)
                       else if SameBoot(s, e.bootId) then MarkerOf(s) else None)
  {
    StartedRun(cfg, s, r, e);
  }

  /** A status file of another boot, or a boot id that cannot be read, is the one
      way down: the marker then forgets what was installed before. */
  lemma MarkerForgetsOtherBoot(cfg: Config, s: Sys, e: Env)
    requires !SameBoot(s, e.bootId) && e.statusWritten && Start(cfg, s, e).Some?
    ensures
      MarkerOf(After(cfg, s, e, Complete)) ==
      if RecordsAnswers(cfg, s, e, Complete) then Some(e.answers.value.generated) else None
  {
    RunEffects(cfg, s, Start(cfg, s, e).value, e, Complete);
  }

  /** The one way the marker goes back: a recorded run that finds the status of
      another boot, with a marker that the answers it records do not reach. */
  lemma MarkerGoesBackExactly(cfg: Config, s: Sys, e: Env)
    requires e.statusWritten && Start(cfg, s, e).Some?
    ensures
      NotAfter(MarkerOf(s), MarkerOf(After(cfg, s, e, Complete))) <==>
      || SameBoot(s, e.bootId) || MarkerOf(s).None?
      || (RecordsAnswers(cfg, s, e, Complete) && MarkerOf(s).value <= e.answers.value.generated)
  {
    if SameBoot(s, e.bootId) {
      MarkerMovesForward(cfg, s, e, Complete);
    } else {
      MarkerForgetsOtherBoot(cfg, s, e);
    }
  }

  ghost predicate OneBoot(steps: seq<Step>, bootId: string) {
    forall step | step in steps && step.Pass? :: step.e.bootId == bootId
  }

  /** Over whole runs of one boot the marker never decreases, whatever answers
      files appear in between. */
  lemma {:induction false} MarkerNeverDecreases(cfg: Config, s: Sys, steps: seq<Step>, bootId: string, i: nat)
    requires s.status == None && OneBoot(steps, bootId) && i <= |steps|
    ensures NotAfter(MarkerOf(Exec(cfg, s, steps[..i])), MarkerOf(Exec(cfg, s, steps)))
    ensures SameBoot(Exec(cfg, s, steps), bootId)
  {
    if steps != [] {
      var init, last := steps[..|steps| - 1], steps[|steps| - 1];
      assert last in steps;
      MarkerNeverDecreases(cfg, s, init, bootId, if i < |steps| then i else 0);
      if i < |steps| { assert init[..i] == steps[..i]; } else { assert steps[..i] == steps; }
      if last.Pass? {
        MarkerMovesForward(cfg, Exec(cfg, s, init), last.e, last.cut);
      }
    } else {
      assert steps[..i] == steps;
    }
  }

  /** Answers that a run accepted stay acceptable within the boot exactly if the
      run did not record them, until they are too old: a failed update or a crash
      leaves them for the next run. */
  lemma FailedGenerationStaysAcceptable(cfg: Config, s: Sys, e: Env, cut: Cut, r: Run, later: real)
    requires SameBoot(s, e.bootId) && Start(cfg, s, e) == Some(r) && r.accepted.Some?
    ensures
      AcceptedOf(e.answers, later, PrevOf(After(cfg, s, e, cut).status, e.bootId).applied).Some? <==>
      !RecordsAnswers(cfg, s, e, cut) && later - e.answers.value.generated <= 180.0
  {
    MarkerMovesForward(cfg, s, e, cut);
    AcceptedGeneration(cfg, s, e, r);
    AcceptableLater(e.answers.value, later, PrevOf(After(cfg, s, e, cut).status, e.bootId).applied);
    MarkerIsPrevious(After(cfg, s, e, cut), e.bootId);
  }

  lemma AcceptedGeneration(cfg: Config, s: Sys, e: Env, r: Run)
    requires Start(cfg, s, e) == Some(r) && SameBoot(s, e.bootId)
    ensures r.accepted.Some? ==> e.answers == r.accepted && e.answers.value.schema == 1
    ensures r.accepted.Some? ==> MarkerOf(s).None? || MarkerOf(s).value < e.answers.value.generated
  {
    AcceptsExactly(cfg, s, r, e);
  }

  lemma AcceptableLater(file: Answers, later: real, applied: Option<real>)
    requires file.schema == 1
    ensures
      AcceptedOf(Some(file), later, applied).Some? <==>
      later - file.generated <= 180.0 && (applied.None? || applied.value < file.generated)
  {}

  lemma MarkerIsPrevious(s: Sys, bootId: string)
    requires SameBoot(s, bootId)
    ensures PrevOf(s.status, bootId).applied == MarkerOf(s)
  {}
}
