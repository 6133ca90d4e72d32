/** The reconciler keeps its state in rule comments. This module gives the
    machine that would store that state explicitly, and shows that the chains
    always carry exactly what it stores. */
module Ideal {
  import opened Text
  import opened Address
  import opened Config
  import opened Iptables
  import opened Answers
  import opened Plan
  import opened Apply
  import opened Reconcile
  import opened Runs

  /** Last-known-good addresses per configured name, everything ever allowed
      with its names, and the recorded status. */
  datatype Ideal = Ideal(lkg: map<string, set<Addr>>, seen: AddrMap, status: Option<Persisted>)

  /** What the kernel does with a batch, as far as the machine can tell. */
  datatype Choice = Choice(commit: bool, reported: bool)

  /** Addresses a name should have: a usable answer replaces, an authenticated
      negative answer clears, anything else keeps. */
  function Wanted(accepted: Option<Answers>, name: string, kept: set<Addr>): set<Addr> {
    match Verdict(accepted, name)
    case Replace(addrs) => addrs
    case Clear => {}
    case Keep => kept
  }

  datatype NameVerdict = Replace(addrs: set<Addr>) | Clear | Keep

  function Verdict(accepted: Option<Answers>, name: string): NameVerdict {
    if accepted.None? then Keep
    else
      match Find(accepted.value, name)
      case Some(r) =>
        if Usable(r) then Replace(set ip | ip in r.addrs) else if r.outcome == Empty then Clear else Keep
      case None => Keep
  }

  function WantedAll(accepted: Option<Answers>, lkg: map<string, set<Addr>>): map<string, set<Addr>> {
    map name | name in lkg :: Wanted(accepted, name, lkg[name])
  }

  function AddrsIn(lkg: map<string, set<Addr>>): set<Addr> {
    set name, ip | name in lkg && ip in lkg[name] :: ip
  }

  function NamesWith(lkg: map<string, set<Addr>>, ip: Addr): set<string> {
    set name | name in lkg && ip in lkg[name]
  }

  /** Address -> names. */
  function Inverse(lkg: map<string, set<Addr>>): AddrMap {
    map ip | ip in AddrsIn(lkg) :: NamesWith(lkg, ip)
  }

  function TargetOf(cfg: Config, accepted: Option<Answers>, lkg: map<string, set<Addr>>): map<string, set<Addr>> {
    var wanted := WantedAll(accepted, lkg);
    if |AddrsIn(wanted)| > cfg.firewall.maxAddresses then lkg else wanted
  }

  function RenewedNames(cfg: Config, accepted: Option<Answers>, lkg: map<string, set<Addr>>): set<string> {
    if |AddrsIn(WantedAll(accepted, lkg))| > cfg.firewall.maxAddresses then {}
    else set name | name in lkg && !Verdict(accepted, name).Keep?
  }

  function IdealPass(cfg: Config, a: Ideal, e: Env, cut: Cut, choice: Choice): Ideal {
    if !e.locked || e.clock.None? || !e.listed.prod || !e.listed.maint then a
    else
      var prev := PrevOf(a.status, e.bootId);
      var accepted := AcceptedOf(e.answers, e.clock.value, prev.applied);
      var lkg := NextLkg(cfg, a.lkg, accepted, cut, choice);
      Ideal(lkg, UnionMaps(a.seen, Inverse(lkg)), NextStatus(cfg, a, prev, accepted, e, cut, choice))
  }

  function NextLkg(cfg: Config, lkg: map<string, set<Addr>>, accepted: Option<Answers>, cut: Cut, choice: Choice)
    : map<string, set<Addr>>
  {
    if cut.BeforeRestore? || !choice.commit then lkg else TargetOf(cfg, accepted, lkg)
  }

  function NextStatus(cfg: Config, a: Ideal, prev: Persisted, accepted: Option<Answers>, e: Env,
      cut: Cut, choice: Choice): Option<Persisted>
    requires e.clock.Some?
  {
    var ok := TargetOf(cfg, accepted, a.lkg) == a.lkg ||
              (choice.commit && choice.reported && e.listed.verifyProd && e.listed.verifyMaint);
    if cut.Complete? && e.statusWritten
    then Some(IdealStatus(prev, accepted, ok, if ok then RenewedNames(cfg, accepted, a.lkg) else {}, a.lkg.Keys, e))
    else a.status
  }

  function IdealStatus(prev: Persisted, accepted: Option<Answers>, ok: bool, renewed: set<string>,
      names: set<string>, e: Env): Persisted
    requires e.clock.Some?
  {
    Persisted(
      e.bootId,
      if ok && accepted.Some? then Some(accepted.value.generated) else prev.applied,
      IdealFresh(prev.lastFresh, renewed, names, ReportTime(e)))
  }

  function IdealNext(cfg: Config, a: Ideal, step: Step, choice: Choice): Ideal {
    match step
    case Pass(e, cut) => IdealPass(cfg, a, e, cut, choice)
    case Traffic(_) => a
  }

  // ---- what a machine carries ----

  ghost function LkgOf(cfg: Config, m: AddrMap): map<string, set<Addr>> {
    map name | name in Configured(cfg) :: AddrsUnder(m, name)
  }

  ghost function IdealOf(cfg: Config, s: Sys): Ideal {
    Ideal(LkgOf(cfg, ProdMap(cfg, s)), MaintMap(cfg, s), s.status)
  }

  ghost function ChoiceOf(cfg: Config, s: Sys, step: Step): Choice {
    if step.Traffic? then Choice(false, false)
    else
      match Start(cfg, s, step.e)
      case None => Choice(false, false)
      case Some(r) => Choice(Reaction(cfg, r, step.e).Commit?, Reaction(cfg, r, step.e).reported)
  }

  ghost function IdealExec(cfg: Config, s: Sys, steps: seq<Step>): Ideal {
    if steps == [] then Ideal(map name | name in Configured(cfg) :: {}, map[], None)
    else
      var init, last := steps[..|steps| - 1], steps[|steps| - 1];
      IdealNext(cfg, IdealExec(cfg, s, init), last, ChoiceOf(cfg, Exec(cfg, s, init), last))
  }

  // ---- names to addresses and back ----

  lemma InverseOfLkg(cfg: Config, m: AddrMap)
    requires NamesConfigured(cfg, m) && Named(m)
    ensures Inverse(LkgOf(cfg, m)) == m
  {
    var lkg := LkgOf(cfg, m);
    forall ip ensures ip in AddrsIn(lkg) <==> ip in m {
      if ip in m {
        var name :| name in m[ip];
        assert name in lkg && ip in lkg[name];
      }
    }
    forall ip | ip in m ensures NamesWith(lkg, ip) == m[ip] {}
  }

  lemma LkgOfStates(cfg: Config, names: seq<NameState>, i: nat)
    requires FollowsEndpoints(cfg, names) && i < |names|
    requires forall j, k | 0 <= j < k < |names| :: EndpointNames(cfg)[j] != EndpointNames(cfg)[k]
    ensures forall ip :: ip in AddrsUnder(Invert(names), names[i].name) <==> ip in names[i].addrs
  {
    var m, name := Invert(names), names[i].name;
    forall ip: Addr ensures ip in AddrsUnder(m, name) <==> ip in names[i].addrs {
      InvertAt(names, ip);
      if ip in AddrsUnder(m, name) {
        assert name in NamesHaving(names, ip);
        var n :| n in names && ip in n.addrs && n.name == name;
        var j :| 0 <= j < |names| && names[j] == n;
      }
    }
  }

  /** The state a run computes for a name has the addresses the explicit machine
      wants for it. */
  lemma StateIsWanted(ep: Endpoint, name: string, accepted: Option<Answers>, previous: seq<Addr>, kept: set<Addr>)
    requires forall ip :: ip in previous <==> ip in kept
    ensures
      var n := StateFor(ep, name, AnswersOr(accepted), previous);
      && (forall ip :: ip in n.addrs <==> ip in Wanted(accepted, name, kept))
      && (IsRenewed(n) <==> !Verdict(accepted, name).Keep?)
  {
    if accepted.None? {
      assert Find(NO_ANSWERS, name) == None;
    }
  }

  lemma DistinctEndpoints(cfg: Config)
    requires Valid(cfg)
    ensures forall j, k | 0 <= j < k < |cfg.endpoints| :: EndpointNames(cfg)[j] != EndpointNames(cfg)[k]
  {}

  lemma CandidateLkgAt(cfg: Config, accepted: Option<Answers>, m: AddrMap, i: nat)
    requires Valid(cfg) && i < |cfg.endpoints|
    ensures
      var name := EndpointNames(cfg)[i];
      AddrsUnder(Invert(States(cfg, AnswersOr(accepted), m)), name) == Wanted(accepted, name, AddrsUnder(m, name))
  {
    var names, name := States(cfg, AnswersOr(accepted), m), EndpointNames(cfg)[i];
    DistinctEndpoints(cfg);
    StatesFollow(cfg, AnswersOr(accepted), m);
    LkgOfStates(cfg, names, i);
    assert names[i] == StateAt(cfg, AnswersOr(accepted), m, i);
    PreviousMembers(m, name);
    StateIsWanted(cfg.endpoints[i], name, accepted, Previous(m, name), AddrsUnder(m, name));
  }

  lemma CandidateLkgName(cfg: Config, accepted: Option<Answers>, m: AddrMap, name: string)
    requires Valid(cfg) && name in Configured(cfg)
    ensures
      AddrsUnder(Invert(States(cfg, AnswersOr(accepted), m)), name) == Wanted(accepted, name, AddrsUnder(m, name))
  {
    var i :| 0 <= i < |cfg.endpoints| && EndpointNames(cfg)[i] == name;
    CandidateLkgAt(cfg, accepted, m, i);
  }

  lemma CandidateLkg(cfg: Config, accepted: Option<Answers>, m: AddrMap)
    requires Valid(cfg)
    ensures LkgOf(cfg, Invert(States(cfg, AnswersOr(accepted), m))) == WantedAll(accepted, LkgOf(cfg, m))
  {
    forall name | name in Configured(cfg)
      ensures
        AddrsUnder(Invert(States(cfg, AnswersOr(accepted), m)), name) == Wanted(accepted, name, AddrsUnder(m, name))
    {
      CandidateLkgName(cfg, accepted, m, name);
    }
  }

  lemma CandidateAddrs(cfg: Config, accepted: Option<Answers>, m: AddrMap)
    requires Valid(cfg)
    ensures AddrsIn(WantedAll(accepted, LkgOf(cfg, m))) == Invert(States(cfg, AnswersOr(accepted), m)).Keys
  {
    var candidate := Invert(States(cfg, AnswersOr(accepted), m));
    CandidateLkg(cfg, accepted, m);
    StatesFollow(cfg, AnswersOr(accepted), m);
    InvertNames(cfg, States(cfg, AnswersOr(accepted), m));
    InverseOfLkg(cfg, candidate);
    assert Inverse(LkgOf(cfg, candidate)).Keys == AddrsIn(LkgOf(cfg, candidate));
  }

  /** The planned production map carries the target of the explicit machine. */
  lemma PlanIsTarget(cfg: Config, accepted: Option<Answers>, prod: AddrMap, maint: AddrMap)
    requires Valid(cfg) && WellNamed(cfg, prod)
    ensures
      var plan, lkg := PlanOf(cfg, AnswersOr(accepted), prod, maint), LkgOf(cfg, prod);
      && LkgOf(cfg, plan.production) == TargetOf(cfg, accepted, lkg)
      && (plan.overLimit <==> |AddrsIn(WantedAll(accepted, lkg))| > cfg.firewall.maxAddresses)
  {
    PlanFields(cfg, AnswersOr(accepted), prod, maint);
    var plan := PlanOf(cfg, AnswersOr(accepted), prod, maint);
    CandidateIsTarget(cfg, accepted, prod, plan.production, plan.overLimit);
  }

  lemma CandidateIsTarget(cfg: Config, accepted: Option<Answers>, prod: AddrMap, production: AddrMap, over: bool)
    requires Valid(cfg)
    requires
      var candidate := Invert(States(cfg, AnswersOr(accepted), prod));
      over == (|candidate| > cfg.firewall.maxAddresses) && production == if over then prod else candidate
    ensures LkgOf(cfg, production) == TargetOf(cfg, accepted, LkgOf(cfg, prod))
    ensures over <==> |AddrsIn(WantedAll(accepted, LkgOf(cfg, prod)))| > cfg.firewall.maxAddresses
  {
    CandidateLkg(cfg, accepted, prod);
    CandidateAddrs(cfg, accepted, prod);
    TargetChosen(cfg, accepted, prod, Invert(States(cfg, AnswersOr(accepted), prod)), production, over);
  }

  lemma TargetChosen(cfg: Config, accepted: Option<Answers>, prod: AddrMap, candidate: AddrMap,
      production: AddrMap, over: bool)
    requires LkgOf(cfg, candidate) == WantedAll(accepted, LkgOf(cfg, prod))
    requires AddrsIn(WantedAll(accepted, LkgOf(cfg, prod))) == candidate.Keys
    requires over == (|candidate| > cfg.firewall.maxAddresses) && production == if over then prod else candidate
    ensures LkgOf(cfg, production) == TargetOf(cfg, accepted, LkgOf(cfg, prod))
    ensures over <==> |AddrsIn(WantedAll(accepted, LkgOf(cfg, prod)))| > cfg.firewall.maxAddresses
  {
    assert |candidate| == |candidate.Keys|;
  }

  /** Two well-named maps with the same addresses per name are the same. */
  lemma LkgDetermines(cfg: Config, a: AddrMap, b: AddrMap)
    requires NamesConfigured(cfg, a) && Named(a) && NamesConfigured(cfg, b) && Named(b)
    requires LkgOf(cfg, a) == LkgOf(cfg, b)
    ensures a == b
  {
    InverseOfLkg(cfg, a);
    InverseOfLkg(cfg, b);
  }

  // ---- renewed names ----

  lemma RenewedByPlan(cfg: Config, accepted: Option<Answers>, prod: AddrMap, maint: AddrMap)
    requires Valid(cfg) && WellNamed(cfg, prod)
    ensures
      FreshNames(PlanOf(cfg, AnswersOr(accepted), prod, maint).names) ==
      RenewedNames(cfg, accepted, LkgOf(cfg, prod))
  {
    var plan, lkg := PlanOf(cfg, AnswersOr(accepted), prod, maint), LkgOf(cfg, prod);
    PlanIsTarget(cfg, accepted, prod, maint);
    if plan.overLimit {
      KernelStatesNotRenewed(cfg, prod);
    } else {
      forall name ensures name in FreshNames(plan.names) <==> name in lkg && !Verdict(accepted, name).Keep? {
        RenewedName(cfg, accepted, prod, name);
      }
    }
  }

  lemma KernelStatesNotRenewed(cfg: Config, m: AddrMap)
    ensures FreshNames(KernelStates(cfg, m)) == {}
  {
    var names := KernelStates(cfg, m);
    forall i | 0 <= i < |names| ensures !IsRenewed(names[i]) {
      KernelStateAtNotRenewed(cfg, m, i);
    }
    NoneRenewed(names);
  }

  lemma KernelStateAtNotRenewed(cfg: Config, m: AddrMap, i: nat)
    requires i < |cfg.endpoints|
    ensures !IsRenewed(KernelStates(cfg, m)[i])
  {
    assert KernelStates(cfg, m)[i] == KernelStateAt(cfg, m, i);
  }

  lemma NoneRenewed(names: seq<NameState>)
    requires forall i | 0 <= i < |names| :: !IsRenewed(names[i])
    ensures FreshNames(names) == {}
  {}

  lemma StateRenewed(ep: Endpoint, name: string, accepted: Option<Answers>, previous: seq<Addr>)
    ensures IsRenewed(StateFor(ep, name, AnswersOr(accepted), previous)) <==> !Verdict(accepted, name).Keep?
  {
    StateIsWanted(ep, name, accepted, previous, set ip | ip in previous);
  }

  lemma RenewedName(cfg: Config, accepted: Option<Answers>, m: AddrMap, name: string)
    ensures
      name in FreshNames(States(cfg, AnswersOr(accepted), m)) <==>
      name in Configured(cfg) && !Verdict(accepted, name).Keep?
  {
    var names := States(cfg, AnswersOr(accepted), m);
    forall i | 0 <= i < |names|
      ensures names[i].name == EndpointNames(cfg)[i] &&
        (IsRenewed(names[i]) <==> !Verdict(accepted, EndpointNames(cfg)[i]).Keep?)
    {
      assert names[i] == StateAt(cfg, AnswersOr(accepted), m, i);
      StateRenewed(cfg.endpoints[i], EndpointNames(cfg)[i], accepted, Previous(m, EndpointNames(cfg)[i]));
    }
    if name in Configured(cfg) {
      var i :| 0 <= i < |names| && EndpointNames(cfg)[i] == name;
      assert names[i] in names;
    }
  }

  // ---- refinement ----

  /** A restore is needed exactly when the explicit machine changes. */
  lemma NeedsRestoreIffTargetDiffers(cfg: Config, s: Sys, r: Run, e: Env)
    requires GoodRun(cfg, s, r, e)
    ensures r.NeedsRestore() <==> TargetOf(cfg, r.accepted, LkgOf(cfg, ProdMap(cfg, s))) != LkgOf(cfg, ProdMap(cfg, s))
  {
    var prod, maint := ProdMap(cfg, s), MaintMap(cfg, s);
    StartedRun(cfg, s, r, e);
    PlanOfGoodRun(cfg, s, r, e);
    NeedsRestoreWhenDifferent(cfg, s, r, e);
    PlanIsTarget(cfg, r.accepted, prod, maint);
    if LkgOf(cfg, r.plan.production) == LkgOf(cfg, prod) {
      LkgDetermines(cfg, r.plan.production, prod);
      UnionAbsorbs(maint, prod);
    }
  }

  lemma CommitInstallsPlan(cfg: Config, s: Sys, r: Run, e: Env)
    requires GoodRun(cfg, s, r, e)
    ensures
      if Reaction(cfg, r, e).Commit?
      then ProdMap(cfg, Restored(cfg, s, r, e)) == r.plan.production
      else Restored(cfg, s, r, e) == s
  {
    RestoredChains(cfg, s, r, e);
  }

  /** After any step maintenance is what it was, joined with production. */
  lemma SeenAfterRestore(cfg: Config, s: Sys, r: Run, e: Env)
    requires GoodRun(cfg, s, r, e)
    ensures
      var s' := Restored(cfg, s, r, e);
      MaintMap(cfg, s') == UnionMaps(MaintMap(cfg, s), Inverse(LkgOf(cfg, ProdMap(cfg, s'))))
  {
    StartedRun(cfg, s, r, e);
    RestoredChains(cfg, s, r, e);
    InverseOfLkg(cfg, ProdMap(cfg, Restored(cfg, s, r, e)));
    if !Changed(cfg, r, e) {
      UnionAbsorbs(MaintMap(cfg, s), ProdMap(cfg, s));
    }
  }

  /** Freshness times as the explicit machine keeps them: forget unknown names,
      then write over. */
  function IdealFresh(last: map<string, real>, renewed: set<string>, names: set<string>, now: real): map<string, real> {
    (last - (last.Keys - names)) + (map n | n in renewed :: now)
  }

  lemma PersistedFields(cfg: Config, s: Sys, r: Run, e: Env)
    requires e.clock.Some?
    ensures
      PersistedOf(StatusOf(cfg, s, r, e)) ==
      Persisted(e.bootId, AppliedOf(ApplyOk(cfg, s, r, e), r),
                UpdateFresh(r.prev.lastFresh, PolicyOf(cfg, s, r, e).names, ReportTime(e)))
  {}

  lemma PolicyRenewed(cfg: Config, s: Sys, r: Run, e: Env)
    requires GoodRun(cfg, s, r, e)
    ensures
      FreshNames(PolicyOf(cfg, s, r, e).names) ==
      if ApplyOk(cfg, s, r, e) then RenewedNames(cfg, r.accepted, LkgOf(cfg, ProdMap(cfg, s))) else {}
  {
    StartedRun(cfg, s, r, e);
    if ApplyOk(cfg, s, r, e) {
      InstalledMaps(cfg, s, r, e);
      RenewedByPlan(cfg, r.accepted, ProdMap(cfg, s), MaintMap(cfg, s));
    } else {
      KernelStatesNotRenewed(cfg, PolicyOf(cfg, s, r, e).production);
    }
  }

  lemma PersistedIsIdeal(r: Run, ok: bool, states: seq<NameState>, renewed: set<string>, names: set<string>, e: Env)
    requires e.clock.Some? && FreshNames(states) == renewed && (set n | n in states :: n.name) == names
    ensures
      Persisted(e.bootId, AppliedOf(ok, r), UpdateFresh(r.prev.lastFresh, states, ReportTime(e))) ==
      IdealStatus(r.prev, r.accepted, ok, renewed, names, e)
  {}

  lemma StatusAfterRun(cfg: Config, s: Sys, r: Run, e: Env)
    requires GoodRun(cfg, s, r, e) && e.clock.Some?
    ensures
      var lkg := LkgOf(cfg, ProdMap(cfg, s));
      var ok := ApplyOk(cfg, s, r, e);
      PersistedOf(StatusOf(cfg, s, r, e)) ==
      IdealStatus(r.prev, r.accepted, ok, if ok then RenewedNames(cfg, r.accepted, lkg) else {}, lkg.Keys, e)
  {
    var names, lkg, ok := PolicyOf(cfg, s, r, e).names, LkgOf(cfg, ProdMap(cfg, s)), ApplyOk(cfg, s, r, e);
    assert lkg.Keys == Configured(cfg);
    PersistedFields(cfg, s, r, e);
    PolicyRenewed(cfg, s, r, e);
    PolicyFollows(cfg, s, r, e);
    NamesAreConfigured(cfg, names);
    PersistedIsIdeal(r, ok, names, if ok then RenewedNames(cfg, r.accepted, lkg) else {}, lkg.Keys, e);
  }

  lemma NamesAreConfigured(cfg: Config, names: seq<NameState>)
    requires FollowsEndpoints(cfg, names)
    ensures (set n | n in names :: n.name) == Configured(cfg)
  {
    var eps := EndpointNames(cfg);
    StateNamesConfigured(cfg, names);
    forall name | name in Configured(cfg) ensures exists n :: n in names && n.name == name {
      var i :| 0 <= i < |eps| && eps[i] == name;
      assert names[i] in names && names[i].name == name;
    }
  }

  lemma LkgStep(cfg: Config, accepted: Option<Answers>, prod: AddrMap, planned: AddrMap, next: AddrMap,
      cut: Cut, choice: Choice)
    requires LkgOf(cfg, planned) == TargetOf(cfg, accepted, LkgOf(cfg, prod))
    requires next == if cut.BeforeRestore? || !choice.commit then prod else planned
    ensures LkgOf(cfg, next) == NextLkg(cfg, LkgOf(cfg, prod), accepted, cut, choice)
  {}

  lemma RefinesLkg(cfg: Config, s: Sys, r: Run, e: Env, cut: Cut)
    requires GoodRun(cfg, s, r, e)
    ensures
      LkgOf(cfg, ProdMap(cfg, After(cfg, s, e, cut))) ==
      NextLkg(cfg, LkgOf(cfg, ProdMap(cfg, s)), r.accepted, cut, ChoiceOf(cfg, s, Pass(e, cut)))
  {
    ProductionAfter(cfg, s, r, e, cut);
    TargetInstalled(cfg, s, r, e);
    LkgStep(cfg, r.accepted, ProdMap(cfg, s), r.plan.production, ProdMap(cfg, After(cfg, s, e, cut)), cut,
            ChoiceOf(cfg, s, Pass(e, cut)));
  }

  lemma TargetInstalled(cfg: Config, s: Sys, r: Run, e: Env)
    requires GoodRun(cfg, s, r, e)
    ensures LkgOf(cfg, r.plan.production) == TargetOf(cfg, r.accepted, LkgOf(cfg, ProdMap(cfg, s)))
  {
    StartedRun(cfg, s, r, e);
    PlanIsTarget(cfg, r.accepted, ProdMap(cfg, s), MaintMap(cfg, s));
  }

  /** One run of the reconciler, wherever it is cut, is one pass of the explicit
      machine on what the chains carry. */
  lemma RunRefines(cfg: Config, s: Sys, e: Env, cut: Cut)
    requires Valid(cfg) && Good(cfg, s) && HonestKernel(cfg, e)
    ensures
      IdealOf(cfg, After(cfg, s, e, cut)) ==
      IdealPass(cfg, IdealOf(cfg, s), e, cut, ChoiceOf(cfg, s, Pass(e, cut)))
  {
    match Start(cfg, s, e)
    case None =>
    case Some(r) =>
      StartedRun(cfg, s, r, e);
      RefinesLkg(cfg, s, r, e, cut);
      RefinesSeen(cfg, s, r, e, cut);
      RefinesStatus(cfg, s, r, e, cut);
  }

  /** Chain maps at the end of a run, wherever it is cut. */
  lemma MapsAfter(cfg: Config, s: Sys, r: Run, e: Env, cut: Cut)
    requires Start(cfg, s, e) == Some(r)
    ensures
      var s', f := After(cfg, s, e, cut), if cut.BeforeRestore? then s else Restored(cfg, s, r, e);
      ProdMap(cfg, s') == ProdMap(cfg, f) && MaintMap(cfg, s') == MaintMap(cfg, f)
  {
    StartedRun(cfg, s, r, e);
    RunEffects(cfg, s, r, e, cut);
    if !cut.BeforeRestore? {
      EqualChains(cfg, After(cfg, s, e, cut), Restored(cfg, s, r, e));
    }
  }

  /** Production holds the plan if the kernel got to commit it, else it is as it
      was. */
  lemma ProductionAfter(cfg: Config, s: Sys, r: Run, e: Env, cut: Cut)
    requires GoodRun(cfg, s, r, e)
    ensures
      ProdMap(cfg, After(cfg, s, e, cut)) ==
      if cut.BeforeRestore? || !Reaction(cfg, r, e).Commit? then ProdMap(cfg, s) else r.plan.production
  {
    MapsAfter(cfg, s, r, e, cut);
    CommitInstallsPlan(cfg, s, r, e);
  }

  lemma RefinesSeen(cfg: Config, s: Sys, r: Run, e: Env, cut: Cut)
    requires GoodRun(cfg, s, r, e)
    ensures
      var s' := After(cfg, s, e, cut);
      MaintMap(cfg, s') == UnionMaps(MaintMap(cfg, s), Inverse(LkgOf(cfg, ProdMap(cfg, s'))))
  {
    MapsAfter(cfg, s, r, e, cut);
    SeenAfterRestore(cfg, s, r, e);
    MaintenanceAbsorbs(cfg, s);
  }

  lemma MaintenanceAbsorbs(cfg: Config, s: Sys)
    requires Good(cfg, s)
    ensures MaintMap(cfg, s) == UnionMaps(MaintMap(cfg, s), Inverse(LkgOf(cfg, ProdMap(cfg, s))))
  {
    InverseOfLkg(cfg, ProdMap(cfg, s));
    UnionAbsorbs(MaintMap(cfg, s), ProdMap(cfg, s));
  }

  lemma RefinesStatus(cfg: Config, s: Sys, r: Run, e: Env, cut: Cut)
    requires GoodRun(cfg, s, r, e) && e.clock.Some?
    ensures
      After(cfg, s, e, cut).status ==
      NextStatus(cfg, IdealOf(cfg, s), r.prev, r.accepted, e, cut, ChoiceOf(cfg, s, Pass(e, cut)))
  {
    RunEffects(cfg, s, r, e, cut);
    NeedsRestoreIffTargetDiffers(cfg, s, r, e);
    ApplyOkExactly(cfg, s, r, e);
    StatusAfterRun(cfg, s, r, e);
  }

  /** Over any sequence of runs from empty chains, with crashes anywhere and
      restores that commit or not, the chains and the status file carry exactly
      the state of the explicit machine: per name its last-known-good addresses,
      in maintenance everything ever allowed. */
  lemma {:induction false} ChainsCarryTheIdealState(cfg: Config, s: Sys, steps: seq<Step>)
    requires Valid(cfg) && Initial(cfg, s) && HonestSteps(cfg, steps)
    ensures IdealOf(cfg, Exec(cfg, s, steps)) == IdealExec(cfg, s, steps)
  {
    if steps == [] {
      InitialIsGood(cfg, s);
      LkgOfEmpty(cfg);
    } else {
      var init, last := steps[..|steps| - 1], steps[|steps| - 1];
      assert last in steps;
      ChainsCarryTheIdealState(cfg, s, init);
      ReachableIsGood(cfg, s, init);
      StepRefines(cfg, Exec(cfg, s, init), last);
    }
  }

  lemma LkgOfEmpty(cfg: Config)
    ensures LkgOf(cfg, map[]) == map name | name in Configured(cfg) :: {}
  {
    assert forall name :: AddrsUnder(map[], name) == {};
  }

  lemma StepRefines(cfg: Config, s: Sys, step: Step)
    requires Valid(cfg) && Good(cfg, s) && (step.Pass? ==> HonestKernel(cfg, step.e))
    ensures IdealOf(cfg, Next(cfg, s, step)) == IdealNext(cfg, IdealOf(cfg, s), step, ChoiceOf(cfg, s, step))
  {
    match step
    case Pass(e, cut) => RunRefines(cfg, s, e, cut);
    case Traffic(flows) => EqualChains(cfg, s, s.(flows := flows));
  }
}
