/** A configuration and a run that meet the premises of the claims over runs. */
module Sample {
  import opened Text
  import opened Address
  import opened Config
  import opened Iptables
  import opened Comments
  import opened Answers
  import opened Plan
  import opened Conntrack
  import opened Apply
  import opened Reconcile
  import opened Runs

  // ---- a valid configuration ----

  function OneEndpoint(name: string, limit: nat): Config {
    Config(
      Resolver([0x0101_0101], "a", 853, 5, 3, 30, true), Firewall("P", "M", 443, limit), [Endpoint(name, true)], [])
  }

  lemma OneEndpointIsValid(name: string, limit: nat)
    requires IsHostname(name) && NormalizeName(name) == name && limit > 0
    ensures Valid(OneEndpoint(name, limit))
  {
    var names := EndpointNames(OneEndpoint(name, limit));
    assert names == [name];
    assert NameSet(names) == {name};
    OneNameFits(name);
  }

  lemma OneNameFits(name: string)
    requires IsHostname(name)
    ensures JoinedLength({name}) <= 255
  {
    JoinedLengthOf({name});
    SetLengthRemove({name}, name);
    assert {name} - {name} == {};
  }

  lemma LabelEnds(a: string)
    requires IsLabel(a)
    ensures '.' !in a && !IsSpace(a[0]) && !IsSpace(a[|a| - 1]) && a[|a| - 1] != '.'
  {
    assert a[0] in a && a[|a| - 1] in a;
  }

  lemma TwoLabelsHostname(a: string, b: string)
    requires IsLabel(a) && IsLabel(b)
    ensures IsHostname(a + "." + b)
  {
    LabelEnds(a);
    LabelEnds(b);
    SplitPiece(a, '.', b);
    SplitWhole(b, '.');
    assert a + "." + b == a + ['.'] + b;
    assert SplitOn(a + "." + b, '.') == [a, b];
  }

  lemma TwoLabelsNormal(a: string, b: string)
    requires IsLabel(a) && IsLabel(b) && LowerAll(a) == a && LowerAll(b) == b
    ensures NormalizeName(a + "." + b) == a + "." + b
  {
    var name := a + "." + b;
    LabelEnds(a);
    LabelEnds(b);
    TrimNoop(name);
    assert TrimDots(name) == name;
    forall i | 0 <= i < |name| ensures Lower(name[i]) == name[i] {
      if i < |a| {
        assert name[i] == a[i] == LowerAll(a)[i];
      } else if i > |a| {
        assert name[i] == b[i - |a| - 1] == LowerAll(b)[i - |a| - 1];
      }
    }
  }

  /** One endpoint, and room for any number of addresses above none. */
  lemma SampleIsValid(limit: nat)
    requires limit > 0
    ensures Valid(OneEndpoint("a.io", limit)) && EndpointNames(OneEndpoint("a.io", limit)) == ["a.io"]
  {
    assert IsLabel("a") && IsLabel("io") && LowerAll("a") == "a" && LowerAll("io") == "io";
    TwoLabelsHostname("a", "io");
    TwoLabelsNormal("a", "io");
    assert "a" + "." + "io" == "a.io";
    OneEndpointIsValid("a.io", limit);
  }

  /** The addresses of 8.0.0.0/8 are global. */
  lemma EightIsGlobal(ip: Addr)
    requires 0x0800_0000 <= ip < 0x0900_0000
    ensures IsGlobalUnicast(ip)
  {
    Powers();
    RangesDisjoint(0, 1);
    forall i | 0 <= i < SPECIAL_COUNT ensures !InInterval(ip, SpecialRange(i)) {
      if i > 1 { RangesDisjoint(1, i); }
    }
    GlobalUnicastIsComplement(ip);
  }

  lemma SomeConfig(limit: nat) returns (cfg: Config)
    requires limit > 0
    ensures Valid(cfg) && cfg.firewall.maxAddresses == limit 
    ensures |EndpointNames(cfg)[0]| == 4 && EndpointNames(cfg)[0][0] == 'a'
  {
    SampleIsValid(limit);
    cfg := OneEndpoint("a.io", limit);
  }

  lemma SomeAddress(n: nat) returns (ip: Addr)
    requires n < 0x100_0000
    ensures IsGlobalUnicast(ip) && ip == 0x0800_0000 + n
  {
    ip := 0x0800_0000 + n;
    EightIsGlobal(ip);
  }

  // ---- the first answer ----

  /** A machine with empty chains and one flow. */
  function FirstSys(ip: Addr): Sys {
    Sys("", "", None, None, {Flow(0, ip)})
  }

  function FirstAnswers(name: string, ips: seq<Addr>): Answers {
    Answers(SCHEMA, 1.0, [NameResult(name, Ok, ips, None, None)])
  }

  /** Its first run, with one answer for one name, a kernel that commits and says
      so, and reads, tool and writes that all work. */
  function FirstEnv(name: string, ips: seq<Addr>): Env {
    Env(true, Some(1.0), "boot", Some(FirstAnswers(name, ips)), Reads(true, true, true, true, true, true),
        batch => Commit(batch, batch, true), true, "maintenance", (dst: Addr) => Works, None, true)
  }

  /** Different global addresses, at least one. */
  ghost predicate Answerable(ips: seq<Addr>) {
    ips != [] && AllGlobal(ips) && forall i, j | 0 <= i < j < |ips| :: ips[i] != ips[j]
  }

  /** The chain holds no other name than the first one configured. */
  ghost predicate OnlyFirstName(cfg: Config, m: AddrMap)
    requires cfg.endpoints != []
  {
    forall ip | ip in m :: m[ip] <= {EndpointNames(cfg)[0]}
  }

  lemma NothingUnder(m: AddrMap, name: string)
    requires forall ip | ip in m :: name !in m[ip]
    ensures Previous(m, name) == []
  {
    assert AddrsUnder(m, name) == {};
  }

  lemma StateWithOneAnswer(cfg: Config, ips: seq<Addr>, prod: AddrMap, i: nat)
    requires Valid(cfg) && Answerable(ips) && OnlyFirstName(cfg, prod) && i < |cfg.endpoints|
    ensures States(cfg, FirstAnswers(EndpointNames(cfg)[0], ips), prod)[i].addrs == if i == 0 then ips else []
  {
    var eps := EndpointNames(cfg);
    var answers := FirstAnswers(eps[0], ips);
    assert States(cfg, answers, prod)[i] == StateAt(cfg, answers, prod, i);
    assert Find(answers, eps[i]) == if eps[0] == eps[i] then Some(answers.results[0]) else None;
    DedupOfDistinct(ips);
    if i > 0 {
      assert eps[0] != eps[i];
      NothingUnder(prod, eps[i]);
    }
  }

  lemma InversionOfOne(names: seq<NameState>, ips: seq<Addr>)
    requires names != [] && forall i | 0 <= i < |names| :: names[i].addrs == if i == 0 then ips else []
    ensures Invert(names) == Under(ips, names[0].name)
  {
    assert names[0] in names;
    forall ip: Addr ensures NamesHaving(names, ip) == if ip in ips then {names[0].name} else {} {}
    forall ip: Addr ensures ip in Invert(names) <==> ip in ips {
      InvertAt(names, ip);
    }
  }

  lemma UnderKeys(ips: seq<Addr>, name: string)
    ensures Under(ips, name).Keys == AddrSet(ips) && |Under(ips, name)| == |AddrSet(ips)|
  {
    assert Under(ips, name).Keys == AddrSet(ips);
    assert |Under(ips, name)| == |Under(ips, name).Keys|;
  }

  lemma OneAnswerPlanned(cfg: Config, ips: seq<Addr>, prod: AddrMap, maint: AddrMap)
    requires Valid(cfg) && Answerable(ips) && OnlyFirstName(cfg, prod)
    ensures
      var name := EndpointNames(cfg)[0];
      var plan := PlanOf(cfg, FirstAnswers(name, ips), prod, maint);
      && (plan.overLimit <==> |AddrSet(ips)| > cfg.firewall.maxAddresses)
      && plan.production == (if plan.overLimit then prod else Under(ips, name))
      && plan.maintenance == UnionMaps(maint, plan.production)
  {
    var answers := FirstAnswers(EndpointNames(cfg)[0], ips);
    var names := States(cfg, answers, prod);
    forall i | 0 <= i < |names| ensures names[i].addrs == if i == 0 then ips else [] {
      StateWithOneAnswer(cfg, ips, prod, i);
    }
    StatesFollow(cfg, answers, prod);
    InversionOfOne(names, ips);
    UnderKeys(ips, EndpointNames(cfg)[0]);
    PlanFields(cfg, answers, prod, maint);
  }

  // ---- the first run ----

  lemma FirstStart(cfg: Config, ips: seq<Addr>)
    requires Valid(cfg) && Answerable(ips)
    ensures
      var s, e := FirstSys(ips[0]), FirstEnv(EndpointNames(cfg)[0], ips);
      && Initial(cfg, s) && HonestKernel(cfg, e) && HonestTool(e.tool)
      && Start(cfg, s, e).Some? && Start(cfg, s, e).value.accepted == e.answers
  {}

  /** From empty chains, a run that accepts such an answer. */
  ghost predicate FirstRun(cfg: Config, s: Sys, r: Run, e: Env, ips: seq<Addr>) {
    && Valid(cfg) && Initial(cfg, s) && HonestKernel(cfg, e) && Answerable(ips)
    && Start(cfg, s, e) == Some(r) && r.accepted == Some(FirstAnswers(EndpointNames(cfg)[0], ips))
  }

  lemma FirstGood(cfg: Config, s: Sys, r: Run, e: Env, ips: seq<Addr>)
    requires FirstRun(cfg, s, r, e, ips)
    ensures GoodRun(cfg, s, r, e) && ProdMap(cfg, s) == MaintMap(cfg, s) == map[]
    ensures r.plan == PlanOf(cfg, FirstAnswers(EndpointNames(cfg)[0], ips), map[], map[])
  {
    InitialIsGood(cfg, s);
    StartedRun(cfg, s, r, e);
  }

  lemma FirstPlan(cfg: Config, s: Sys, r: Run, e: Env, ips: seq<Addr>)
    requires FirstRun(cfg, s, r, e, ips)
    ensures r.plan.overLimit <==> |AddrSet(ips)| > cfg.firewall.maxAddresses
    ensures r.plan.production.Keys == if r.plan.overLimit then {} else AddrSet(ips)
    ensures r.NeedsRestore() <==> !r.plan.overLimit
  {
    FirstGood(cfg, s, r, e, ips);
    OneAnswerPlanned(cfg, ips, map[], map[]);
    UnderKeys(ips, EndpointNames(cfg)[0]);
    NeedsRestoreWhenDifferent(cfg, s, r, e);
    EmptyUnion(r.plan.production, ips);
  }

  lemma EmptyUnion(m: AddrMap, ips: seq<Addr>)
    requires ips != []
    ensures m.Keys == {} ==> UnionMaps(map[], m) == map[] && m == map[]
    ensures m.Keys == AddrSet(ips) ==> m != map[]
  {
    assert ips[0] in AddrSet(ips);
  }

  lemma OneAddress(cfg: Config, ip: Addr)
    requires Valid(cfg) && IsGlobalUnicast(ip)
    ensures AddrSet([ip]) == {ip} && Answerable([ip]) && |AddrSet([ip])| <= cfg.firewall.maxAddresses
  {
    assert AddrSet([ip]) == {ip};
  }

  lemma GoodNames(cfg: Config, s: Sys)
    requires Good(cfg, s)
    ensures OnlyConfiguredNames(cfg, s)
  {}

  /** For every valid configuration and global address such a run meets the
      premises of the claims over runs and installs the answer. */
  lemma FirstRunInstalls(cfg: Config, ip: Addr, r: Run)
    requires Valid(cfg) && IsGlobalUnicast(ip)
    requires Start(cfg, FirstSys(ip), FirstEnv(EndpointNames(cfg)[0], [ip])) == Some(r)
    ensures
      var s, e := FirstSys(ip), FirstEnv(EndpointNames(cfg)[0], [ip]);
      && GoodRun(cfg, s, r, e) && ApplyOk(cfg, s, r, e)
      && SweepSees(cfg, s, r, e) && SeesProduction(cfg, s, r, e)
      && ProdMap(cfg, After(cfg, s, e, Complete)).Keys == {ip}
  {
    var s, e := FirstSys(ip), FirstEnv(EndpointNames(cfg)[0], [ip]);
    OneAddress(cfg, ip);
    FirstStart(cfg, [ip]);
    FirstGood(cfg, s, r, e, [ip]);
    FirstPlan(cfg, s, r, e, [ip]);
    GoodNames(cfg, s);
    HonestKernelVerifies(cfg, s, r, e);
    InstalledMaps(cfg, s, r, e);
    ChainsAtEnd(cfg, s, r, e);
  }

  /** There is such a configuration, address and run. */
  lemma PremisesCanBeMet() returns (cfg: Config, s: Sys, e: Env, r: Run, ip: Addr)
    ensures GoodRun(cfg, s, r, e) && Initial(cfg, s) && HonestTool(e.tool)
    ensures ApplyOk(cfg, s, r, e) && SweepSees(cfg, s, r, e) && SeesProduction(cfg, s, r, e)
    ensures ProdMap(cfg, After(cfg, s, e, Complete)).Keys == {ip}
  {
    cfg := SomeConfig(64);
    ip := SomeAddress(0);
    s, e := FirstSys(ip), FirstEnv(EndpointNames(cfg)[0], [ip]);
    FirstStart(cfg, [ip]);
    r := Start(cfg, s, e).value;
    FirstRunInstalls(cfg, ip, r);
  }
}
