/** A name that is configured no more, but still stands in the maintenance chain,
    can make the comment it shares with a configured name too long. */
module FormerNames {
  import opened Text
  import opened Address
  import opened Ordered
  import opened Config
  import opened Iptables
  import opened Comments
  import opened Codec
  import opened Kernel
  import opened Chains
  import opened Plan
  import opened Apply
  import opened Statics
  import opened Reconcile
  import opened Runs
  import opened Sample

  /** One address under one name. */
  function One(ip: Addr, name: string): AddrMap {
    map[ip := {name}]
  }

  /** A machine whose maintenance chain holds one address under a former name. */
  function FormerSys(cfg: Config, ip: Addr, former: string): Sys {
    Sys("", BatchOf(cfg.firewall, map[], One(ip, former)), None, None, {})
  }

  /** A former name that fits a comment alone but not beside the first name that
      is configured now. */
  ghost predicate Crowding(cfg: Config, ip: Addr, former: string) {
    && Valid(cfg) && IsGlobalUnicast(ip)
    && Fits({former}) && !Fits({former, EndpointNames(cfg)[0]})
  }

  lemma CrowdingNames(cfg: Config, ip: Addr, former: string)
    requires Crowding(cfg, ip, former)
    ensures
      var name := EndpointNames(cfg)[0];
      former != name && Hostnames({former, name}) && Fits({name})
  {
    var name := EndpointNames(cfg)[0];
    assert name in EndpointNames(cfg);
    OneNameFits(name);
    assert former == name ==> {former, name} == {former};
  }

  // ---- the plan of each run ----

  /** Maintenance holds the address under the former name, production at most
      under the configured one, and the answer is not recorded as installed. */
  ghost predicate Stuck(cfg: Config, s: Sys, ip: Addr, former: string)
    requires cfg.endpoints != []
  {
    && (ProdMap(cfg, s) == map[] || ProdMap(cfg, s) == One(ip, EndpointNames(cfg)[0]))
    && MaintMap(cfg, s) == One(ip, former)
    && PrevOf(s.status, "boot").applied == None
  }

  /** Both chains hold the address under the configured name, cleanly. */
  ghost predicate Done(cfg: Config, s: Sys, ip: Addr)
    requires cfg.endpoints != []
  {
    && !ProdRead(cfg, s).IsDirty() && !MaintRead(cfg, s).IsDirty()
    && ProdMap(cfg, s) == MaintMap(cfg, s) == One(ip, EndpointNames(cfg)[0])
  }

  function AnswerEnv(cfg: Config, ip: Addr): Env
    requires cfg.endpoints != []
  {
    FirstEnv(EndpointNames(cfg)[0], [ip])
  }

  lemma UnderOne(ip: Addr, name: string)
    ensures Under([ip], name) == One(ip, name)
  {}

  lemma OnePlanned(cfg: Config, ip: Addr, prod: AddrMap, maint: AddrMap)
    requires Valid(cfg) && IsGlobalUnicast(ip)
    requires prod == map[] || prod == One(ip, EndpointNames(cfg)[0])
    ensures
      var name := EndpointNames(cfg)[0];
      var plan := PlanOf(cfg, FirstAnswers(name, [ip]), prod, maint);
      plan.production == One(ip, name) && plan.maintenance == UnionMaps(maint, One(ip, name))
  {
    FirstOnly(cfg, ip, prod);
    OneAddress(cfg, ip);
    OneAnswerPlanned(cfg, [ip], prod, maint);
    UnderOne(ip, EndpointNames(cfg)[0]);
  }

  lemma FirstOnly(cfg: Config, ip: Addr, prod: AddrMap)
    requires cfg.endpoints != [] && (prod == map[] || prod == One(ip, EndpointNames(cfg)[0]))
    ensures OnlyFirstName(cfg, prod)
  {}

  lemma UnionOfOnes(ip: Addr, a: string, b: string)
    ensures UnionMaps(One(ip, a), One(ip, b)) == map[ip := {a, b}]
  {
    assert {a} + {b} == {a, b};
  }

  lemma FirstAccepted(cfg: Config, s: Sys, r: Run, ip: Addr)
    requires Valid(cfg) && PrevOf(s.status, "boot").applied == None
    requires Start(cfg, s, AnswerEnv(cfg, ip)) == Some(r)
    ensures AnswersOr(r.accepted) == FirstAnswers(EndpointNames(cfg)[0], [ip])
  {
    AcceptedBy(cfg, s, r, AnswerEnv(cfg, ip));
  }

  lemma StuckPlan(cfg: Config, s: Sys, r: Run, ip: Addr, former: string)
    requires Crowding(cfg, ip, former) && Stuck(cfg, s, ip, former) && Start(cfg, s, AnswerEnv(cfg, ip)) == Some(r)
    ensures
      var name := EndpointNames(cfg)[0];
      r.plan.production == One(ip, name) && r.plan.maintenance == map[ip := {former, name}] && r.NeedsRestore()
  {
    var name := EndpointNames(cfg)[0];
    StartedRun(cfg, s, r, AnswerEnv(cfg, ip));
    FirstAccepted(cfg, s, r, ip);
    OnePlanned(cfg, ip, ProdMap(cfg, s), MaintMap(cfg, s));
    UnionOfOnes(ip, former, name);
    CrowdingNames(cfg, ip, former);
    DifferentOnes(ip, former, name);
    MustRestore(r);
  }

  lemma DifferentOnes(ip: Addr, former: string, name: string)
    requires former != name
    ensures map[ip := {former, name}] != One(ip, former)
  {
    assert name in map[ip := {former, name}][ip] && name !in One(ip, former)[ip];
  }

  lemma MustRestore(r: Run)
    requires r.plan.maintenance != r.MaintMap()
    ensures r.NeedsRestore()
  {}

  // ---- what each run leaves ----

  lemma KeptOne(ip: Addr, name: string)
    requires Fits({name})
    ensures MapOfHosts(One(ip, name)) && KeptMap(One(ip, name)) == One(ip, name)
  {
    KeptWhole(One(ip, name));
  }

  lemma KeptPair(ip: Addr, a: string, b: string, m: AddrMap)
    requires m == map[ip := {a, b}] && a != b && Hostnames({a, b}) && !Fits({a, b})
    ensures MapOfHosts(m) && !MapFits(m) && KeptMap(m) == One(ip, if StringLess(a, b) then a else b)
  {
    KeptOfTwo(a, b);
    assert ip in m && m[ip] == {a, b};
    forall x | x in KeptMap(m) ensures x == ip && KeptMap(m)[x] == Kept({a, b}) {}
  }

  lemma KeptMaps(cfg: Config, ip: Addr, former: string)
    requires Crowding(cfg, ip, former)
    ensures
      var name := EndpointNames(cfg)[0];
      var m: AddrMap := map[ip := {former, name}];
      && MapOfHosts(One(ip, name)) && KeptMap(One(ip, name)) == One(ip, name)
      && MapOfHosts(m) && !MapFits(m) && KeptMap(m) == One(ip, if StringLess(former, name) then former else name)
  {
    var name := EndpointNames(cfg)[0];
    CrowdingNames(cfg, ip, former);
    KeptOne(ip, name);
    KeptPair(ip, former, name, map[ip := {former, name}]);
  }

  lemma AnswerEnvIsHonest(cfg: Config, ip: Addr)
    requires cfg.endpoints != []
    ensures HonestKernel(cfg, AnswerEnv(cfg, ip))
  {}

  /** The run fails, although the kernel commits and lists the batch honestly and
      everything else works, and maintenance keeps the name that sorts first. */
  lemma StuckFails(cfg: Config, s: Sys, r: Run, ip: Addr, former: string)
    requires Crowding(cfg, ip, former) && Stuck(cfg, s, ip, former) && Start(cfg, s, AnswerEnv(cfg, ip)) == Some(r)
    ensures
      var e, name := AnswerEnv(cfg, ip), EndpointNames(cfg)[0];
      var s' := Restored(cfg, s, r, e);
      && HonestKernel(cfg, e) && Changed(cfg, r, e) && Confirmed(cfg, r, e) && !ApplyOk(cfg, s, r, e)
      && !ProdRead(cfg, s').IsDirty() && !MaintRead(cfg, s').IsDirty()
      && ProdMap(cfg, s') == One(ip, name)
      && MaintMap(cfg, s') == One(ip, if StringLess(former, name) then former else name)
  {
    var e := AnswerEnv(cfg, ip);
    StuckPlan(cfg, s, r, ip, former);
    KeptMaps(cfg, ip, former);
    AnswerEnvIsHonest(cfg, ip);
    CommittedKeeps(cfg, s, r, e);
    CommittedHolds(cfg, s, r, e);
  }

  /** A failed run leaves the marker. */
  lemma FailedRunKeepsMarker(cfg: Config, s: Sys, r: Run, e: Env)
    requires Start(cfg, s, e) == Some(r) && !ApplyOk(cfg, s, r, e)
    ensures PrevOf(After(cfg, s, e, Complete).status, e.bootId).applied == PrevOf(s.status, e.bootId).applied
  {
    StartedRun(cfg, s, r, e);
    RunEffects(cfg, s, r, e, Complete);
    PrevOfStart(cfg, s, r, e);
  }

  lemma PrevOfStart(cfg: Config, s: Sys, r: Run, e: Env)
    requires Start(cfg, s, e) == Some(r)
    ensures r.prev == PrevOf(s.status, e.bootId)
  {}

  lemma ReadsAtEnd(cfg: Config, s: Sys, r: Run, e: Env)
    requires Start(cfg, s, e) == Some(r)
    ensures
      var s', f := After(cfg, s, e, Complete), Restored(cfg, s, r, e);
      ProdRead(cfg, s') == ProdRead(cfg, f) && MaintRead(cfg, s') == MaintRead(cfg, f)
  {
    StartedRun(cfg, s, r, e);
    RunEffects(cfg, s, r, e, Complete);
    EqualChains(cfg, After(cfg, s, e, Complete), Restored(cfg, s, r, e));
  }

  lemma StuckMoves(cfg: Config, s: Sys, ip: Addr, former: string)
    requires Crowding(cfg, ip, former) && Stuck(cfg, s, ip, former)
    ensures
      var s' := After(cfg, s, AnswerEnv(cfg, ip), Complete);
      if StringLess(former, EndpointNames(cfg)[0]) then Stuck(cfg, s', ip, former) else Done(cfg, s', ip)
  {
    var e := AnswerEnv(cfg, ip);
    AlwaysStarts(cfg, s, ip);
    var r := Start(cfg, s, e).value;
    StuckFails(cfg, s, r, ip, former);
    ReadsAtEnd(cfg, s, r, e);
    FailedRunKeepsMarker(cfg, s, r, e);
  }

  lemma AlwaysStarts(cfg: Config, s: Sys, ip: Addr)
    requires cfg.endpoints != []
    ensures Start(cfg, s, AnswerEnv(cfg, ip)).Some?
  {}

  // ---- once the former name is lost ----

  lemma DoneIsGood(cfg: Config, s: Sys, ip: Addr)
    requires Valid(cfg) && IsGlobalUnicast(ip) && Done(cfg, s, ip)
    ensures Good(cfg, s)
  {
    var name := EndpointNames(cfg)[0];
    assert name in EndpointNames(cfg);
    assert |One(ip, name)| == 1;
  }

  lemma DonePlan(cfg: Config, ip: Addr)
    requires Valid(cfg) && IsGlobalUnicast(ip)
    ensures
      var name := EndpointNames(cfg)[0];
      var plan := PlanOf(cfg, FirstAnswers(name, [ip]), One(ip, name), One(ip, name));
      plan.production == plan.maintenance == One(ip, name)
  {
    var name := EndpointNames(cfg)[0];
    OnePlanned(cfg, ip, One(ip, name), One(ip, name));
    UnionOfSame(One(ip, name));
  }

  lemma UnionOfSame(m: AddrMap)
    ensures UnionMaps(m, m) == m
  {
    UnionAbsorbs(m, m);
  }

  lemma DoneAgain(cfg: Config, s: Sys, r: Run, ip: Addr)
    requires Valid(cfg) && IsGlobalUnicast(ip) && Done(cfg, s, ip)
    requires Start(cfg, s, AnswerEnv(cfg, ip)) == Some(r) && r.accepted.Some?
    ensures !r.NeedsRestore()
  {
    var e := AnswerEnv(cfg, ip);
    StartedRun(cfg, s, r, e);
    AcceptedBy(cfg, s, r, e);
    DonePlan(cfg, ip);
    NeedsRestoreWhenDifferent(cfg, s, r, e);
  }

  lemma DoneSucceeds(cfg: Config, s: Sys, r: Run, ip: Addr)
    requires Valid(cfg) && IsGlobalUnicast(ip) && Done(cfg, s, ip)
    requires Start(cfg, s, AnswerEnv(cfg, ip)) == Some(r)
    ensures ApplyOk(cfg, s, r, AnswerEnv(cfg, ip)) && Restored(cfg, s, r, AnswerEnv(cfg, ip)) == s
  {
    if r.accepted.Some? {
      DoneAgain(cfg, s, r, ip);
    } else {
      DoneIsGood(cfg, s, ip);
      AnswerlessRunChangesNothing(cfg, s, r, AnswerEnv(cfg, ip));
    }
  }

  lemma DoneStays(cfg: Config, s: Sys, ip: Addr)
    requires Valid(cfg) && IsGlobalUnicast(ip) && Done(cfg, s, ip)
    ensures Done(cfg, After(cfg, s, AnswerEnv(cfg, ip), Complete), ip)
  {
    AlwaysStarts(cfg, s, ip);
    var r := Start(cfg, s, AnswerEnv(cfg, ip)).value;
    DoneSucceeds(cfg, s, r, ip);
    ReadsAtEnd(cfg, s, r, AnswerEnv(cfg, ip));
  }

  // ---- run after run ----

  lemma EmptyListing(chain: string)
    ensures MapOf(ReadOf("", chain).entries) == map[]
  {
    LinesEnd();
  }

  lemma FormerListing(cfg: Config, m: AddrMap)
    requires Valid(cfg) && MapFits(m)
    ensures MapOf(ReadOf(BatchOf(cfg.firewall, map[], m), cfg.firewall.maintenance).entries) == m
  {
    FirewallChains(cfg);
    BatchReads(cfg.firewall, map[], m);
    MapOfEntriesOf(m);
  }

  lemma FormerChains(cfg: Config, ip: Addr, former: string)
    requires Crowding(cfg, ip, former)
    ensures Stuck(cfg, FormerSys(cfg, ip, former), ip, former)
  {
    FormerMaps(cfg, FormerSys(cfg, ip, former), One(ip, former));
  }

  lemma FormerMaps(cfg: Config, s: Sys, m: AddrMap)
    requires Valid(cfg) && MapFits(m)
    requires s.production == "" && s.maintenance == BatchOf(cfg.firewall, map[], m)
    ensures ProdMap(cfg, s) == map[] && MaintMap(cfg, s) == m
  {
    EmptyListing(cfg.firewall.production);
    FormerListing(cfg, m);
  }

  /** Nothing but complete runs that learn the address for the configured name. */
  ghost predicate OnlyAnswered(cfg: Config, ip: Addr, steps: seq<Step>)
    requires cfg.endpoints != []
  {
    forall step | step in steps :: step == Pass(AnswerEnv(cfg, ip), Complete)
  }

  /** What holds after `n` such runs. */
  ghost predicate Reaches(cfg: Config, s: Sys, ip: Addr, former: string, n: nat)
    requires cfg.endpoints != []
  {
    if n == 0 || StringLess(former, EndpointNames(cfg)[0]) then Stuck(cfg, s, ip, former) else Done(cfg, s, ip)
  }

  lemma OneMoreRun(cfg: Config, s: Sys, ip: Addr, former: string, n: nat)
    requires Crowding(cfg, ip, former) && Reaches(cfg, s, ip, former, n)
    ensures Reaches(cfg, After(cfg, s, AnswerEnv(cfg, ip), Complete), ip, former, n + 1)
  {
    if n == 0 || StringLess(former, EndpointNames(cfg)[0]) {
      StuckMoves(cfg, s, ip, former);
    } else {
      DoneStays(cfg, s, ip);
    }
  }

  lemma NextRun(cfg: Config, s: Sys, step: Step, ip: Addr, former: string, n: nat)
    requires Crowding(cfg, ip, former) && Reaches(cfg, s, ip, former, n) && step == Pass(AnswerEnv(cfg, ip), Complete)
    ensures Reaches(cfg, Next(cfg, s, step), ip, former, n + 1)
  {
    OneMoreRun(cfg, s, ip, former, n);
  }

  lemma AfterRuns(cfg: Config, s: Sys, ip: Addr, former: string, steps: seq<Step>)
    requires Crowding(cfg, ip, former) && Reaches(cfg, s, ip, former, 0) && OnlyAnswered(cfg, ip, steps)
    ensures Reaches(cfg, Exec(cfg, s, steps), ip, former, |steps|)
  {
    var p := (t: Sys, n: nat) => Reaches(cfg, t, ip, former, n);
    forall t, n: nat, step | p(t, n) && step in steps ensures p(Next(cfg, t, step), n + 1) {
      NextRun(cfg, t, step, ip, former, n);
    }
    ExecInduction(cfg, s, steps, p);
  }

  /** Run after run with an honest kernel and everything working: the first run
      fails verification; the later ones succeed exactly if the former name does
      not sort before the configured one, because then the first read-back loses
      it. */
  lemma FormerNameFailsExactly(cfg: Config, ip: Addr, former: string, steps: seq<Step>, r: Run)
    requires Crowding(cfg, ip, former) && OnlyAnswered(cfg, ip, steps)
    requires Start(cfg, Exec(cfg, FormerSys(cfg, ip, former), steps), AnswerEnv(cfg, ip)) == Some(r)
    ensures
      ApplyOk(cfg, Exec(cfg, FormerSys(cfg, ip, former), steps), r, AnswerEnv(cfg, ip)) <==>
      steps != [] && !StringLess(former, EndpointNames(cfg)[0])
  {
    var s := Exec(cfg, FormerSys(cfg, ip, former), steps);
    FormerChains(cfg, ip, former);
    AfterRuns(cfg, FormerSys(cfg, ip, former), ip, former, steps);
    ReachedFails(cfg, s, r, ip, former, |steps|);
  }

  lemma ReachedFails(cfg: Config, s: Sys, r: Run, ip: Addr, former: string, n: nat)
    requires Crowding(cfg, ip, former) && Reaches(cfg, s, ip, former, n)
    requires Start(cfg, s, AnswerEnv(cfg, ip)) == Some(r)
    ensures ApplyOk(cfg, s, r, AnswerEnv(cfg, ip)) <==> n > 0 && !StringLess(former, EndpointNames(cfg)[0])
  {
    if n == 0 || StringLess(former, EndpointNames(cfg)[0]) {
      StuckFails(cfg, s, r, ip, former);
    } else {
      DoneSucceeds(cfg, s, r, ip);
    }
  }

  /** The first run fails verification, although the kernel commits and lists the
      batch honestly and everything else works. */
  lemma FormerNameFailsVerification(cfg: Config, ip: Addr, former: string, r: Run)
    requires Crowding(cfg, ip, former) && Start(cfg, FormerSys(cfg, ip, former), AnswerEnv(cfg, ip)) == Some(r)
    ensures
      var s, e := FormerSys(cfg, ip, former), AnswerEnv(cfg, ip);
      HonestKernel(cfg, e) && Changed(cfg, r, e) && Confirmed(cfg, r, e) && !ApplyOk(cfg, s, r, e)
  {
    FormerChains(cfg, ip, former);
    StuckFails(cfg, FormerSys(cfg, ip, former), r, ip, former);
  }

  // ---- such names exist ----

  function Letters(c: char, n: nat): (s: string)
    ensures |s| == n && forall x | x in s :: x == c
  {
    seq(n, _ => c)
  }

  /** A longest hostname. */
  lemma LongestHostname(c: char) returns (name: string)
    requires 'a' <= c <= 'z' || '0' <= c <= '9'
    ensures IsHostname(name) && |name| == 253 && name[0] == c
  {
    var a, b := Letters(c, 63), Letters(c, 61);
    name := Join([a, a, a, b], ".");
    JoinFour(a, a, a, b);
    LettersAreLabel(c, 63);
    LettersAreLabel(c, 61);
    JoinedLabels([a, a, a, b]);
  }

  lemma LettersAreLabel(c: char, n: nat)
    requires ('a' <= c <= 'z' || '0' <= c <= '9') && 0 < n <= 63
    ensures IsLabel(Letters(c, n)) && '.' !in Letters(c, n)
  {}

  lemma JoinedLabels(parts: seq<string>)
    requires parts != [] && forall part | part in parts :: IsLabel(part) && '.' !in part
    requires 0 < |Join(parts, ".")| <= 253
    ensures IsHostname(Join(parts, "."))
  {
    SplitOfJoin(parts, '.');
  }

  lemma PairLength(a: string, b: string)
    requires a != b
    ensures JoinedLength({a, b}) == |a| + |b| + 1
  {
    JoinedLengthOf({a, b});
    SetLengthRemove({a, b}, a);
    SetLengthRemove({b}, b);
    assert {a, b} - {a} == {b} && {b} - {b} == {};
    assert |{a, b}| == 2;
  }

  /** There are a configuration, an address and a former name of this kind, in
      either order. */
  lemma FormerNameExists(first: bool) returns (cfg: Config, ip: Addr, former: string)
    ensures Crowding(cfg, ip, former) && StringLess(former, EndpointNames(cfg)[0]) == first
  {
    cfg := SomeConfig(64);
    ip := SomeAddress(0);
    former := LongestHostname(if first then '0' else 'b');
    OneNameFits(former);
    var name := EndpointNames(cfg)[0];
    assert name in EndpointNames(cfg);
    PairLength(former, name);
  }
}
