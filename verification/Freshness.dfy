/** The freshness times in the status file are the history of the runs. */
module Freshness {
  import opened Text
  import opened Config
  import opened Plan
  import opened Apply
  import opened Reconcile
  import opened Runs
  import opened Ideal

  /** The run installed a fresh answer or an authenticated negative answer for
      the name and recorded it. */
  ghost predicate RecordsRenewal(cfg: Config, s: Sys, step: Step, name: string) {
    && step.Pass? && step.cut.Complete? && step.e.statusWritten
    && Start(cfg, s, step.e).Some?
    && name in FreshNames(PolicyOf(cfg, s, Start(cfg, s, step.e).value, step.e).names)
  }

  /** When the latest such run recorded it. */
  ghost function LatestRenewal(cfg: Config, s: Sys, steps: seq<Step>, name: string): Option<real> {
    if steps == [] then None
    else
      var init, last := steps[..|steps| - 1], steps[|steps| - 1];
      if RecordsRenewal(cfg, Exec(cfg, s, init), last, name)
      then Some(ReportTime(last.e))
      else LatestRenewal(cfg, s, init, name)
  }

  ghost function LastFreshOf(s: Sys, name: string): Option<real> {
    if s.status.Some? && name in s.status.value.lastFresh then Some(s.status.value.lastFresh[name]) else None
  }

  /** A failed update and an over-limit plan renew nothing. */
  lemma NothingRenewedWithoutInstall(cfg: Config, s: Sys, r: Run, e: Env)
    requires Start(cfg, s, e) == Some(r)
    requires !ApplyOk(cfg, s, r, e) || r.plan.overLimit
    ensures FreshNames(PolicyOf(cfg, s, r, e).names) == {}
  {
    StartedRun(cfg, s, r, e);
    if ApplyOk(cfg, s, r, e) {
      KernelStatesNotRenewed(cfg, ProdMap(cfg, s));
    } else {
      KernelStatesNotRenewed(cfg, PolicyOf(cfg, s, r, e).production);
    }
  }

  lemma UpdateFreshAt(last: map<string, real>, states: seq<NameState>, now: real, names: set<string>, name: string)
    requires (set n | n in states :: n.name) == names && name in names
    ensures
      var u := UpdateFresh(last, states, now);
      && (name in u <==> name in FreshNames(states) || name in last)
      && (name in u ==> u[name] == if name in FreshNames(states) then now else last[name])
  {}

  lemma FreshnessStep(cfg: Config, s: Sys, step: Step, name: string)
    requires name in Configured(cfg) && (step.Pass? ==> SameBoot(s, step.e.bootId))
    ensures
      LastFreshOf(Next(cfg, s, step), name) ==
      if RecordsRenewal(cfg, s, step, name) then Some(ReportTime(step.e)) else LastFreshOf(s, name)
  {
    if step.Pass? && Start(cfg, s, step.e).Some? {
      var r := Start(cfg, s, step.e).value;
      var names := PolicyOf(cfg, s, r, step.e).names;
      StartedRun(cfg, s, r, step.e);
      RunEffects(cfg, s, r, step.e, step.cut);
      PersistedFields(cfg, s, r, step.e);
      PolicyFollows(cfg, s, r, step.e);
      NamesAreConfigured(cfg, names);
      UpdateFreshAt(r.prev.lastFresh, names, ReportTime(step.e), Configured(cfg), name);
    }
  }

  /** A recorded run that finds the status of another boot forgets every time of that
      boot: only what it renews itself has one. */
  lemma FreshnessForgetsOtherBoot(cfg: Config, s: Sys, e: Env, name: string)
    requires name in Configured(cfg) && !SameBoot(s, e.bootId) && e.statusWritten && Start(cfg, s, e).Some?
    ensures
      LastFreshOf(After(cfg, s, e, Complete), name) ==
      if RecordsRenewal(cfg, s, Pass(e, Complete), name) then Some(ReportTime(e)) else None
  {
    var r := Start(cfg, s, e).value;
    var names := PolicyOf(cfg, s, r, e).names;
    StartedRun(cfg, s, r, e);
    RunEffects(cfg, s, r, e, Complete);
    PersistedFields(cfg, s, r, e);
    PolicyFollows(cfg, s, r, e);
    NamesAreConfigured(cfg, names);
    UpdateFreshAt(r.prev.lastFresh, names, ReportTime(e), Configured(cfg), name);
    ForgetsOtherBoot(cfg, s, r, e);
  }

  lemma ForgetsOtherBoot(cfg: Config, s: Sys, r: Run, e: Env)
    requires Start(cfg, s, e) == Some(r) && !SameBoot(s, e.bootId)
    ensures r.prev.lastFresh == map[]
  {}

  /** For every configured name the recorded freshness time is that of the latest
      recorded run that renewed it, and is absent if there was none. */
  lemma {:induction false} FreshnessMatchesHistory(cfg: Config, s: Sys, steps: seq<Step>, bootId: string, name: string)
    requires s.status == None && OneBoot(steps, bootId) && name in Configured(cfg)
    ensures LastFreshOf(Exec(cfg, s, steps), name) == LatestRenewal(cfg, s, steps, name)
  {
    if steps != [] {
      var init, last := steps[..|steps| - 1], steps[|steps| - 1];
      assert last in steps;
      FreshnessMatchesHistory(cfg, s, init, bootId, name);
      MarkerNeverDecreases(cfg, s, init, bootId, 0);
      FreshnessStep(cfg, Exec(cfg, s, init), last, name);
    }
  }

  /** Times of later runs are not smaller. */
  ghost predicate ClockMonotone(steps: seq<Step>) {
    forall i, j | 0 <= i < j < |steps| :: InOrder(steps[i], steps[j])
  }

  ghost predicate InOrder(a: Step, b: Step) {
    a.Pass? && a.e.clock.Some? && b.Pass? && b.e.clock.Some? ==> ReportTime(a.e) <= ReportTime(b.e)
  }

  lemma {:induction false} RenewalBeforeLast(cfg: Config, s: Sys, steps: seq<Step>, name: string, last: Step)
    requires forall step | step in steps :: InOrder(step, last)
    requires last.Pass? && last.e.clock.Some?
    ensures NotAfter(LatestRenewal(cfg, s, steps, name), Some(ReportTime(last.e)))
  {
    if steps != [] {
      assert steps[|steps| - 1] in steps;
      RenewalBeforeLast(cfg, s, steps[..|steps| - 1], name, last);
    }
  }

  lemma LastInOrder(steps: seq<Step>, init: seq<Step>, last: Step)
    requires steps == init + [last] && ClockMonotone(steps)
    ensures forall step | step in init :: InOrder(step, last)
    ensures ClockMonotone(init)
  {
    forall step | step in init ensures InOrder(step, last) {
      var j :| 0 <= j < |init| && init[j] == step;
      assert InOrder(steps[j], steps[|init|]);
    }
    forall i, j | 0 <= i < j < |init| ensures InOrder(init[i], init[j]) {
      assert InOrder(steps[i], steps[j]);
    }
  }

  lemma RenewalMovesForward(cfg: Config, s: Sys, steps: seq<Step>, name: string)
    requires steps != [] && ClockMonotone(steps)
    ensures NotAfter(LatestRenewal(cfg, s, steps[..|steps| - 1], name), LatestRenewal(cfg, s, steps, name))
  {
    var init, last := steps[..|steps| - 1], steps[|steps| - 1];
    LastInOrder(steps, init, last);
    if RecordsRenewal(cfg, Exec(cfg, s, init), last, name) {
      RenewedClock(cfg, Exec(cfg, s, init), last, name);
      RenewalBeforeLast(cfg, s, init, name, last);
    }
  }

  lemma RenewedClock(cfg: Config, s: Sys, step: Step, name: string)
    requires RecordsRenewal(cfg, s, step, name)
    ensures step.Pass? && step.e.clock.Some?
  {
    StartedRun(cfg, s, Start(cfg, s, step.e).value, step.e);
  }

  /** Under a monotone clock the latest renewal never moves back. */
  lemma {:induction false} RenewalsMoveForward(cfg: Config, s: Sys, steps: seq<Step>, name: string, i: nat)
    requires ClockMonotone(steps) && i <= |steps|
    ensures NotAfter(LatestRenewal(cfg, s, steps[..i], name), LatestRenewal(cfg, s, steps, name))
  {
    if i == |steps| {
      assert steps[..i] == steps;
    } else {
      var init := steps[..|steps| - 1];
      LastInOrder(steps, init, steps[|steps| - 1]);
      RenewalMovesForward(cfg, s, steps, name);
      RenewalsMoveForward(cfg, s, init, name, i);
      assert init[..i] == steps[..i];
    }
  }

  /** Under a monotone clock recorded freshness times never decrease. */
  lemma FreshnessNeverDecreases(cfg: Config, s: Sys, steps: seq<Step>, bootId: string, name: string, i: nat)
    requires s.status == None && OneBoot(steps, bootId) && name in Configured(cfg)
    requires ClockMonotone(steps) && i <= |steps|
    ensures NotAfter(LastFreshOf(Exec(cfg, s, steps[..i]), name), LastFreshOf(Exec(cfg, s, steps), name))
  {
    FreshnessMatchesHistory(cfg, s, steps[..i], bootId, name);
    FreshnessMatchesHistory(cfg, s, steps, bootId, name);
    RenewalsMoveForward(cfg, s, steps, name, i);
  }
}
