/** Answers that would take production over its limit: the run keeps the chains,
    and yet counts as a run that installed them. */
module OverLimit {
  import opened Text
  import opened Address
  import opened Config
  import opened Answers
  import opened Plan
  import opened Apply
  import opened Reconcile
  import opened Runs
  import opened Ideal
  import opened Sample

  /** The production chain carries what the accepted answers ask for. */
  ghost predicate InKernel(cfg: Config, s: Sys, accepted: Option<Answers>, after: Sys) {
    LkgOf(cfg, ProdMap(cfg, after)) == WantedAll(accepted, LkgOf(cfg, ProdMap(cfg, s)))
  }

  ghost function WantedAddrs(cfg: Config, s: Sys, accepted: Option<Answers>): set<Addr> {
    AddrsIn(WantedAll(accepted, LkgOf(cfg, ProdMap(cfg, s))))
  }

  lemma InstalledWithinLimit(cfg: Config, s: Sys)
    requires Good(cfg, s)
    ensures |AddrsIn(LkgOf(cfg, ProdMap(cfg, s)))| <= cfg.firewall.maxAddresses
  {
    var m := ProdMap(cfg, s);
    InverseOfLkg(cfg, m);
    assert m.Keys == Inverse(LkgOf(cfg, m)).Keys == AddrsIn(LkgOf(cfg, m));
    assert |m| == |m.Keys|;
  }

  lemma TargetIsWanted(cfg: Config, accepted: Option<Answers>, lkg: map<string, set<Addr>>)
    requires |AddrsIn(lkg)| <= cfg.firewall.maxAddresses
    ensures
      TargetOf(cfg, accepted, lkg) == WantedAll(accepted, lkg) <==>
      |AddrsIn(WantedAll(accepted, lkg))| <= cfg.firewall.maxAddresses
  {}

  /** After a run that takes the firewall for updated, the chain carries what the
      accepted answers ask for if and only if that is within the limit. */
  lemma InstalledExactlyWithinLimit(cfg: Config, s: Sys, r: Run, e: Env)
    requires GoodRun(cfg, s, r, e) && ApplyOk(cfg, s, r, e)
    ensures
      InKernel(cfg, s, r.accepted, After(cfg, s, e, Complete)) <==>
      |WantedAddrs(cfg, s, r.accepted)| <= cfg.firewall.maxAddresses
  {
    TargetInstalled(cfg, s, r, e);
    InstalledMaps(cfg, s, r, e);
    ChainsAtEnd(cfg, s, r, e);
    InstalledWithinLimit(cfg, s);
    TargetIsWanted(cfg, r.accepted, LkgOf(cfg, ProdMap(cfg, s)));
  }

  lemma OverLimitExactly(cfg: Config, s: Sys, r: Run, e: Env)
    requires GoodRun(cfg, s, r, e)
    ensures r.plan.overLimit <==> |WantedAddrs(cfg, s, r.accepted)| > cfg.firewall.maxAddresses
  {
    StartedRun(cfg, s, r, e);
    PlanIsTarget(cfg, r.accepted, ProdMap(cfg, s), MaintMap(cfg, s));
  }

  /** Over the limit a run has nothing to rewrite and succeeds. */
  lemma OverLimitKeepsChains(cfg: Config, s: Sys, r: Run, e: Env)
    requires GoodRun(cfg, s, r, e) && r.plan.overLimit
    ensures !r.NeedsRestore() && ApplyOk(cfg, s, r, e) && Restored(cfg, s, r, e) == s
  {
    var prod, maint := ProdMap(cfg, s), MaintMap(cfg, s);
    StartedRun(cfg, s, r, e);
    PlanFields(cfg, AnswersOr(r.accepted), prod, maint);
    UnionAbsorbs(maint, prod);
    NeedsRestoreWhenDifferent(cfg, s, r, e);
  }

  /** The marker rises only over answers that are in the kernel, if and only if the
      run accepted none or kept within the limit. */
  lemma MarkerTellsTruthExactly(cfg: Config, s: Sys, r: Run, e: Env)
    requires GoodRun(cfg, s, r, e) && SameBoot(s, e.bootId) && e.statusWritten
    ensures
      var after := After(cfg, s, e, Complete);
      (Before(MarkerOf(s), MarkerOf(after)) ==> InKernel(cfg, s, r.accepted, after)) <==>
      r.accepted.None? || !r.plan.overLimit
  {
    MarkerMovesForward(cfg, s, e, Complete);
    OverLimitExactly(cfg, s, r, e);
    if r.plan.overLimit {
      OverLimitKeepsChains(cfg, s, r, e);
    }
    if ApplyOk(cfg, s, r, e) {
      InstalledExactlyWithinLimit(cfg, s, r, e);
    }
  }

  /** For every valid configuration and more answered addresses than it allows:
      from empty chains the run changes no chain and yet moves the marker, so the
      same answers, never installed, are rejected from then on. */
  lemma OverLimitSupersedes(cfg: Config, ips: seq<Addr>, later: real)
    requires Valid(cfg) && Answerable(ips) && |AddrSet(ips)| > cfg.firewall.maxAddresses
    ensures
      var s, e := FirstSys(ips[0]), FirstEnv(EndpointNames(cfg)[0], ips);
      var after := After(cfg, s, e, Complete);
      && Initial(cfg, s) && HonestKernel(cfg, e)
      && MarkerOf(s) == None && MarkerOf(after) == Some(1.0)
      && after.production == s.production && after.maintenance == s.maintenance && ProdMap(cfg, after) == map[]
      && AcceptedOf(e.answers, later, PrevOf(after.status, e.bootId).applied) == None
  {
    var s, e := FirstSys(ips[0]), FirstEnv(EndpointNames(cfg)[0], ips);
    FirstStart(cfg, ips);
    var r := Start(cfg, s, e).value;
    FirstGood(cfg, s, r, e, ips);
    FirstPlan(cfg, s, r, e, ips);
    OverLimitKeepsChains(cfg, s, r, e);
    MarkerMovesForward(cfg, s, e, Complete);
    FailedGenerationStaysAcceptable(cfg, s, e, Complete, r, later);
    RunEffects(cfg, s, r, e, Complete);
    ChainsAtEnd(cfg, s, r, e);
  }

  /** It happens with room for one address and an answer of two. */
  lemma OverLimitHappens() returns (cfg: Config, ips: seq<Addr>)
    ensures Valid(cfg) && cfg.firewall.maxAddresses == 1
    ensures Answerable(ips) && |AddrSet(ips)| == 2
  {
    cfg := SomeConfig(1);
    var a := SomeAddress(1);
    var b := SomeAddress(2);
    ips := [a, b];
    TwoAddresses(a, b);
  }

  lemma TwoAddresses(a: Addr, b: Addr)
    requires a != b && IsGlobalUnicast(a) && IsGlobalUnicast(b)
    ensures Answerable([a, b]) && |AddrSet([a, b])| == 2
  {
    assert AddrSet([a, b]) == {a, b};
  }
}
