/** The way a run can be blind: the kernel commits, the run counts the update as
    failed, and neither chain can be read back. */
module BlindFailure {
  import opened Text
  import opened Address
  import opened Config
  import opened Iptables
  import opened Conntrack
  import opened Hosts
  import opened Apply
  import opened Reconcile
  import opened Runs
  import opened Sample

  /** From empty chains, one answer for the first endpoint, an update that the
      kernel commits but reports as failed, and no second look at the chains. */
  function BlindEnv(name: string, ip: Addr): Env {
    Env(true, Some(1.0), "boot", Some(FirstAnswers(name, [ip])), Reads(true, true, true, true, false, false),
        batch => Commit(batch, batch, false), true, "maintenance", (dst: Addr) => Works, None, true)
  }

  lemma BlindStart(cfg: Config, ip: Addr)
    requires Valid(cfg) && IsGlobalUnicast(ip)
    ensures
      var s, e := FirstSys(ip), BlindEnv(EndpointNames(cfg)[0], ip);
      Initial(cfg, s) && HonestKernel(cfg, e) && Start(cfg, s, e).Some? && Start(cfg, s, e).value.accepted == e.answers
  {}

  lemma BlindUpdate(cfg: Config, ip: Addr, r: Run)
    requires Valid(cfg) && IsGlobalUnicast(ip)
    requires Start(cfg, FirstSys(ip), BlindEnv(EndpointNames(cfg)[0], ip)) == Some(r)
    ensures
      var s, e := FirstSys(ip), BlindEnv(EndpointNames(cfg)[0], ip);
      && GoodRun(cfg, s, r, e) && Changed(cfg, r, e) && !ApplyOk(cfg, s, r, e)
      && ip in r.plan.production && ProdMap(cfg, s) == MaintMap(cfg, s) == map[]
  {
    var s, e := FirstSys(ip), BlindEnv(EndpointNames(cfg)[0], ip);
    BlindStart(cfg, ip);
    OneAddress(cfg, ip);
    FirstGood(cfg, s, r, e, [ip]);
    FirstPlan(cfg, s, r, e, [ip]);
  }

  lemma NothingToKill(mode: string, prod: AddrMap)
    ensures KillSet(mode, prod, map[]) == []
  {
    assert |KillSet(mode, prod, map[])| == |Forbidden(mode, prod, map[])|;
  }

  /** The chains such a run leaves. */
  lemma BlindChains(cfg: Config, ip: Addr, r: Run)
    requires Valid(cfg) && IsGlobalUnicast(ip)
    requires Start(cfg, FirstSys(ip), BlindEnv(EndpointNames(cfg)[0], ip)) == Some(r)
    ensures
      var s' := After(cfg, FirstSys(ip), BlindEnv(EndpointNames(cfg)[0], ip), Complete);
      ProdMap(cfg, s') == r.plan.production && MaintMap(cfg, s') == r.plan.maintenance && ip in r.plan.maintenance
  {
    var s, e := FirstSys(ip), BlindEnv(EndpointNames(cfg)[0], ip);
    BlindUpdate(cfg, ip, r);
    RestoredChains(cfg, s, r, e);
    PlanMaintenanceKeys(cfg, s, r, e);
    ChainsAtEnd(cfg, s, r, e);
  }

  /** For every valid configuration and every global address the sweep of such a
      run reports success and yet leaves a flow to an address that is forbidden
      in the current mode. */
  lemma BlindFailureLeavesFlow(cfg: Config, ip: Addr)
    requires Valid(cfg) && IsGlobalUnicast(ip)
    ensures
      var s, e := FirstSys(ip), BlindEnv(EndpointNames(cfg)[0], ip);
      var s' := After(cfg, s, e, Complete);
      && Initial(cfg, s) && HonestKernel(cfg, e) && Start(cfg, s, e).Some?
      && StatusOf(cfg, s, Start(cfg, s, e).value, e).conntrackOk
      && Flow(0, ip) in s'.flows
      && ip in Forbidden(e.mode, ProdMap(cfg, s'), MaintMap(cfg, s'))
  {
    var s, e := FirstSys(ip), BlindEnv(EndpointNames(cfg)[0], ip);
    BlindStart(cfg, ip);
    var r := Start(cfg, s, e).value;
    BlindUpdate(cfg, ip, r);
    BlindChains(cfg, ip, r);
    PolicyAfterFailure(cfg, s, r, e);
    NothingToKill(e.mode, PolicyOf(cfg, s, r, e).production);
    RunEffects(cfg, s, r, e, Complete);
  }

  /** The same run writes a hosts file that does not publish the address it has
      just let the production chain allow. */
  lemma BlindFailureHidesAddress(cfg: Config, ip: Addr)
    requires Valid(cfg) && IsGlobalUnicast(ip)
    ensures
      var s, e := FirstSys(ip), BlindEnv(EndpointNames(cfg)[0], ip);
      var s' := After(cfg, s, e, Complete);
      && Initial(cfg, s) && HonestKernel(cfg, e) && Start(cfg, s, e).Some? && s'.hosts.Some?
      && ip in ProdMap(cfg, s')
      && Published(DynamicText(PolicyOf(cfg, s, Start(cfg, s, e).value, e).names)) == {}
      && Published(s'.hosts.value) == FixedPairs(cfg)
  {
    var s, e := FirstSys(ip), BlindEnv(EndpointNames(cfg)[0], ip);
    BlindStart(cfg, ip);
    var r := Start(cfg, s, e).value;
    BlindUpdate(cfg, ip, r);
    BlindChains(cfg, ip, r);
    PolicyAfterFailure(cfg, s, r, e);
    BlindFile(cfg, s, r, e);
  }

  lemma BlindFile(cfg: Config, s: Sys, r: Run, e: Env)
    requires GoodRun(cfg, s, r, e) && e.hostsWritten && PolicyOf(cfg, s, r, e).production == map[]
    ensures
      var s' := After(cfg, s, e, Complete);
      && s'.hosts.Some? && Published(s'.hosts.value) == FixedPairs(cfg)
      && Published(DynamicText(PolicyOf(cfg, s, r, e).names)) == {}
  {
    FileOfRun(cfg, s, r, e);
    DynamicPairs(cfg, s, r, e);
    NoPairs(PolicyOf(cfg, s, r, e).production, FixedPairs(cfg));
  }

  lemma NoPairs(m: AddrMap, fixed: set<(Addr, string)>)
    requires m == map[]
    ensures ChainPairs(m) == {} && fixed + ChainPairs(m) == fixed
  {}
}
