/** Planning: merge fresh answers with what the chains hold now. */
module Plan {
  import opened Text
  import opened Address
  import opened Ordered
  import opened Config
  import opened Iptables
  import opened Answers

  datatype Source = Fresh | LastKnownGood | EmptyAnswer | Missing

  datatype NameState = NameState(
    name: string, required: bool, outcome: Outcome, source: Source, addrs: seq<Addr>)

  datatype Plan = Plan(
    names: seq<NameState>, production: AddrMap, maintenance: AddrMap,
    added: seq<Addr>, removed: seq<Addr>, overLimit: bool)

  predicate RequiredSatisfied(names: seq<NameState>) {
    forall n | n in names :: n.required ==> n.addrs != []
  }

  predicate RequiredFresh(names: seq<NameState>) {
    forall n | n in names :: n.required ==> n.source == Fresh
  }

  // ---- per-name state ----

  function AddrsUnder(m: AddrMap, name: string): set<Addr> {
    set ip | ip in m && name in m[ip]
  }

  /** Addresses the chain holds for a name, ascending. */
  function Previous(m: AddrMap, name: string): seq<Addr> {
    SortedAddrs(AddrsUnder(m, name))
  }

  function Lkg(name: string, required: bool, previous: seq<Addr>): NameState {
    NameState(name, required, Transient, if previous == [] then Missing else LastKnownGood, previous)
  }

  predicate AllGlobal(addrs: seq<Addr>) {
    forall ip | ip in addrs :: IsGlobalUnicast(ip)
  }

  /** An `Ok` result that is applied: some addresses, all of them global. */
  predicate Usable(r: NameResult) {
    r.outcome == Ok && r.addrs != [] && AllGlobal(r.addrs)
  }

  function StateFor(ep: Endpoint, name: string, answers: Answers, previous: seq<Addr>): (n: NameState)
    ensures n.name == name && n.required == ep.required
    ensures n.source == Fresh ==> n.addrs != []
  {
    match Find(answers, name)
    case Some(r) =>
      if r.outcome == Ok then
        if Usable(r) then
          assert r.addrs[0] in Dedup(r.addrs);
          NameState(name, ep.required, Ok, Fresh, Dedup(r.addrs))
        else Lkg(name, ep.required, previous)
      else if r.outcome == Empty then NameState(name, ep.required, Empty, EmptyAnswer, [])
      else Lkg(name, ep.required, previous)
    case None => Lkg(name, ep.required, previous)
  }

  /** Outcome, source and addresses of a state always agree. */
  lemma StateIsConsistent(ep: Endpoint, name: string, answers: Answers, previous: seq<Addr>)
    ensures
      var n := StateFor(ep, name, answers, previous);
      && (n.outcome == Ok <==> n.source == Fresh) && (n.outcome == Empty <==> n.source == EmptyAnswer)
      && (n.addrs == [] <==> n.source == EmptyAnswer || n.source == Missing)
      && (n.outcome == Transient ==> n.addrs == previous)
      && forall i, j | 0 <= i < j < |n.addrs| :: n.source == Fresh ==> n.addrs[i] != n.addrs[j]
  {}

  function StateAt(cfg: Config, answers: Answers, current: AddrMap, i: nat): NameState
    requires i < |cfg.endpoints|
  {
    var name := EndpointNames(cfg)[i];
    StateFor(cfg.endpoints[i], name, answers, Previous(current, name))
  }

  function States(cfg: Config, answers: Answers, current: AddrMap): (names: seq<NameState>)
    ensures |names| == |cfg.endpoints|
    ensures forall i | 0 <= i < |names| :: names[i] == StateAt(cfg, answers, current, i)
  {
    seq(|cfg.endpoints|, i requires 0 <= i < |cfg.endpoints| => StateAt(cfg, answers, current, i))
  }

  function KernelStateAt(cfg: Config, current: AddrMap, i: nat): NameState
    requires i < |cfg.endpoints|
  {
    var name := EndpointNames(cfg)[i];
    Lkg(name, cfg.endpoints[i].required, Previous(current, name))
  }

  /** Per-name state of the installed chain alone. */
  function KernelStates(cfg: Config, current: AddrMap): (names: seq<NameState>)
    ensures |names| == |cfg.endpoints|
    ensures forall i | 0 <= i < |names| :: names[i] == KernelStateAt(cfg, current, i)
  {
    seq(|cfg.endpoints|, i requires 0 <= i < |cfg.endpoints| => KernelStateAt(cfg, current, i))
  }

  // ---- address maps ----

  function AllAddrs(names: seq<NameState>): set<Addr> {
    set n, ip | n in names && ip in n.addrs :: ip
  }

  function NamesHaving(names: seq<NameState>, ip: Addr): set<string> {
    set n | n in names && ip in n.addrs :: n.name
  }

  /** Address -> names, from name -> addresses. */
  function Invert(names: seq<NameState>): AddrMap {
    map ip | ip in AllAddrs(names) :: NamesHaving(names, ip)
  }

  function UnionMaps(a: AddrMap, b: AddrMap): AddrMap {
    map ip | ip in a.Keys + b.Keys :: NamesAt(a, ip) + NamesAt(b, ip)
  }

  function PlanOf(cfg: Config, answers: Answers, curProd: AddrMap, curMaint: AddrMap): Plan {
    var candidate := Invert(States(cfg, answers, curProd));
    var over := |candidate| > cfg.firewall.maxAddresses;
    var production := if over then curProd else candidate;
    Plan(
      if over then KernelStates(cfg, curProd) else States(cfg, answers, curProd),
      production,
      UnionMaps(curMaint, production),
      SortedAddrs(production.Keys - curProd.Keys),
      SortedAddrs(curProd.Keys - production.Keys),
      over)
  }

  // ---- the computation ----

  method AddrsFor(m: AddrMap, name: string) returns (previous: seq<Addr>)
    ensures previous == Previous(m, name)
  {
    previous := FilterKeys(m, set ip | ip in m && name !in m[ip]);
    assert m.Keys - (set ip | ip in m && name !in m[ip]) == AddrsUnder(m, name);
  }

  function AddrSet(ips: seq<Addr>): set<Addr> {
    set ip | ip in ips
  }

  /** What is left of a list without some addresses. */
  function Except(keys: seq<Addr>, excluded: set<Addr>): seq<Addr> {
    if keys == [] then []
    else
      Except(keys[..|keys| - 1], excluded) + (if keys[|keys| - 1] in excluded then [] else [keys[|keys| - 1]])
  }

  ghost predicate Rising(keys: seq<Addr>) {
    forall j, k | 0 <= j < k < |keys| :: keys[j] < keys[k]
  }

  lemma RisingFront(init: seq<Addr>, last: Addr)
    requires Rising(init + [last])
    ensures Rising(init) && forall x | x in init :: x < last
  {
    var keys := init + [last];
    assert forall j | 0 <= j < |init| :: init[j] == keys[j] < keys[|init|];
    forall j, k | 0 <= j < k < |init| ensures init[j] < init[k] {
      assert keys[j] < keys[k];
    }
  }

  lemma RisingSnoc(init: seq<Addr>, last: Addr)
    requires Rising(init) && forall x | x in init :: x < last
    ensures Rising(init + [last])
  {
    forall j | 0 <= j < |init| ensures init[j] < last {
      assert init[j] in init;
    }
  }

  lemma {:induction false} ExceptIsAscending(keys: seq<Addr>, excluded: set<Addr>)
    requires Rising(keys)
    ensures
      var kept := Except(keys, excluded);
      (forall x :: x in kept <==> x in keys && x !in excluded) && Rising(kept)
  {
    if keys != [] {
      var init, last := keys[..|keys| - 1], keys[|keys| - 1];
      assert keys == init + [last];
      RisingFront(init, last);
      ExceptIsAscending(init, excluded);
      if last !in excluded {
        RisingSnoc(Except(init, excluded), last);
      }
    }
  }

  lemma ExceptOfKeys(keys: set<Addr>, excluded: set<Addr>)
    ensures Except(SortedAddrs(keys), excluded) == SortedAddrs(keys - excluded)
  {
    ExceptIsAscending(SortedAddrs(keys), excluded);
    AscendingUnique(Except(SortedAddrs(keys), excluded), SortedAddrs(keys - excluded));
  }

  method Exclude(keys: seq<Addr>, excluded: set<Addr>) returns (kept: seq<Addr>)
    ensures kept == Except(keys, excluded)
  {
    kept := [];
    for i := 0 to |keys|
      invariant kept == Except(keys[..i], excluded)
    {
      assert keys[..i + 1][..i] == keys[..i];
      if keys[i] !in excluded {
        kept := kept + [keys[i]];
      }
    }
    assert keys[..|keys|] == keys;
  }

  /** The keys of a map outside a set, ascending. */
  method FilterKeys(m: AddrMap, excluded: set<Addr>) returns (kept: seq<Addr>)
    ensures kept == SortedAddrs(m.Keys - excluded)
  {
    kept := Exclude(SortedAddrs(m.Keys), excluded);
    ExceptOfKeys(m.Keys, excluded);
  }

  method DedupAddrs(addrs: seq<Addr>) returns (r: seq<Addr>)
    ensures r == Dedup(addrs)
  {
    var seen: set<Addr> := {};
    r := [];
    for i := 0 to |addrs|
      invariant r == Dedup(addrs[..i])
      invariant forall x :: x in seen <==> x in addrs[..i]
    {
      assert addrs[..i + 1][..i] == addrs[..i] && addrs[..i + 1] == addrs[..i] + [addrs[i]];
      if addrs[i] !in seen {
        seen := seen + {addrs[i]};
        r := r + [addrs[i]];
      }
    }
    assert addrs[..|addrs|] == addrs;
  }

  method ComputeState(ep: Endpoint, name: string, answers: Answers, previous: seq<Addr>) returns (state: NameState)
    ensures state == StateFor(ep, name, answers, previous)
  {
    var found := Find(answers, name);
    if found.Some? && found.value.outcome == Ok {
      var r := found.value;
      if r.addrs == [] || !AllGlobal(r.addrs) {
        return Lkg(name, ep.required, previous);
      }
      var addrs := DedupAddrs(r.addrs);
      return NameState(name, ep.required, Ok, Fresh, addrs);
    } else if found.Some? && found.value.outcome == Empty {
      return NameState(name, ep.required, Empty, EmptyAnswer, []);
    }
    return Lkg(name, ep.required, previous);
  }

  method KernelStateOf(cfg: Config, m: AddrMap, i: nat) returns (state: NameState)
    requires i < |cfg.endpoints|
    ensures state == KernelStateAt(cfg, m, i)
  {
    var name := NormalizeName(cfg.endpoints[i].name);
    var previous := AddrsFor(m, name);
    state := Lkg(name, cfg.endpoints[i].required, previous);
  }

  method NamesFromKernel(cfg: Config, current: seq<RuleEntry>) returns (names: seq<NameState>)
    ensures names == KernelStates(cfg, MapOf(current))
  {
    var m := EntriesToMap(current);
    names := [];
    for i := 0 to |cfg.endpoints|
      invariant |names| == i
      invariant forall j | 0 <= j < i :: names[j] == KernelStateAt(cfg, m, j)
    {
      var state := KernelStateOf(cfg, m, i);
      names := names + [state];
    }
  }

  method StateOf(cfg: Config, answers: Answers, current: AddrMap, i: nat) returns (state: NameState)
    requires i < |cfg.endpoints|
    ensures state == States(cfg, answers, current)[i]
  {
    var name := NormalizeName(cfg.endpoints[i].name);
    var previous := AddrsFor(current, name);
    state := ComputeState(cfg.endpoints[i], name, answers, previous);
  }

  method ComputeStates(cfg: Config, answers: Answers, current: AddrMap) returns (names: seq<NameState>)
    ensures names == States(cfg, answers, current)
  {
    ghost var all := States(cfg, answers, current);
    names := [];
    for i := 0 to |cfg.endpoints|
      invariant names == all[..i]
    {
      var state := StateOf(cfg, answers, current, i);
      StateNext(all, names, i, state);
      names := names + [state];
    }
  }

  lemma StateNext(all: seq<NameState>, names: seq<NameState>, i: nat, state: NameState)
    requires i < |all| && names == all[..i] && state == all[i]
    ensures names + [state] == all[..i + 1]
  {}

  lemma SameAt(a: AddrMap, b: AddrMap)
    requires a.Keys == b.Keys && forall ip | ip in a :: NamesAt(a, ip) == NamesAt(b, ip)
    ensures a == b
  {
    forall ip | ip in a ensures a[ip] == b[ip] {
      assert NamesAt(a, ip) == NamesAt(b, ip);
    }
  }

  lemma UnionAddAt(m: AddrMap, a: AddrMap, e: RuleEntry, ip: Addr)
    ensures NamesAt(UnionMaps(m, AddEntry(a, e)), ip) == NamesAt(AddEntry(UnionMaps(m, a), e), ip)
  {
    UnionAt(m, AddEntry(a, e), ip);
    UnionAt(m, a, ip);
    AddEntryAt(a, e, ip);
    AddEntryAt(UnionMaps(m, a), e, ip);
  }

  lemma UnionAddKeys(m: AddrMap, a: AddrMap, e: RuleEntry)
    ensures UnionMaps(m, AddEntry(a, e)).Keys == AddEntry(UnionMaps(m, a), e).Keys
  {}

  lemma UnionAdd(m: AddrMap, a: AddrMap, e: RuleEntry)
    ensures UnionMaps(m, AddEntry(a, e)) == AddEntry(UnionMaps(m, a), e)
  {
    var l, r := UnionMaps(m, AddEntry(a, e)), AddEntry(UnionMaps(m, a), e);
    UnionAddKeys(m, a, e);
    forall ip | ip in l ensures NamesAt(l, ip) == NamesAt(r, ip) {
      UnionAddAt(m, a, e, ip);
    }
    SameAt(l, r);
  }

  lemma UnionAt(a: AddrMap, b: AddrMap, ip: Addr)
    ensures NamesAt(UnionMaps(a, b), ip) == NamesAt(a, ip) + NamesAt(b, ip)
  {}

  lemma AddEntryAt(m: AddrMap, e: RuleEntry, ip: Addr)
    ensures NamesAt(AddEntry(m, e), ip) == NamesAt(m, ip) + (if ip == e.ip then e.names else {})
  {}

  lemma UnionEmpty(m: AddrMap)
    ensures UnionMaps(m, map[]) == m
  {
    assert forall ip | ip in m :: m[ip] + {} == m[ip];
  }

  /** Every address of a sequence under one name. */
  function Under(addrs: seq<Addr>, name: string): AddrMap {
    map ip | ip in addrs :: {name}
  }

  method AddAddrs(m: AddrMap, n: NameState) returns (r: AddrMap)
    ensures r == UnionMaps(m, Under(n.addrs, n.name))
  {
    r := m;
    AddEnds(m, n.addrs, n.name);
    for j := 0 to |n.addrs|
      invariant r == UnionMaps(m, Under(n.addrs[..j], n.name))
    {
      AddStep(m, n.addrs, j, n.name);
      r := AddEntry(r, RuleEntry(n.addrs[j], {n.name}));
    }
  }

  lemma AddEnds(m: AddrMap, addrs: seq<Addr>, name: string)
    ensures UnionMaps(m, Under(addrs[..0], name)) == m
    ensures UnionMaps(m, Under(addrs[..|addrs|], name)) == UnionMaps(m, Under(addrs, name))
  {
    UnionEmpty(m);
    assert Under(addrs[..0], name) == map[];
    assert addrs[..|addrs|] == addrs;
  }

  lemma AddStep(m: AddrMap, addrs: seq<Addr>, j: nat, name: string)
    requires j < |addrs|
    ensures
      UnionMaps(m, Under(addrs[..j + 1], name)) ==
      AddEntry(UnionMaps(m, Under(addrs[..j], name)), RuleEntry(addrs[j], {name}))
  {
    UnderNext(addrs[..j], addrs[j], name);
    UnionAdd(m, Under(addrs[..j], name), RuleEntry(addrs[j], {name}));
    assert addrs[..j + 1] == addrs[..j] + [addrs[j]];
  }

  lemma UnderNext(addrs: seq<Addr>, ip: Addr, name: string)
    ensures Under(addrs + [ip], name) == AddEntry(Under(addrs, name), RuleEntry(ip, {name}))
  {
    assert forall x :: x in addrs + [ip] <==> x in addrs || x == ip;
    assert NamesAt(Under(addrs, name), ip) + {name} == {name};
  }

  method BuildProduction(names: seq<NameState>) returns (production: AddrMap)
    ensures production == Invert(names)
  {
    production := map[];
    for i := 0 to |names|
      invariant production == Invert(names[..i])
    {
      production := AddAddrs(production, names[i]);
      InvertNext(names[..i], names[i]);
      assert names[..i + 1] == names[..i] + [names[i]];
    }
    assert names[..|names|] == names;
  }

  lemma InvertAt(names: seq<NameState>, ip: Addr)
    ensures NamesAt(Invert(names), ip) == NamesHaving(names, ip)
    ensures ip in Invert(names) <==> exists n :: n in names && ip in n.addrs
  {
    if ip !in Invert(names) {
      assert NamesHaving(names, ip) == {};
    }
  }

  lemma NamesHavingNext(names: seq<NameState>, n: NameState, ip: Addr)
    ensures NamesHaving(names + [n], ip) == NamesHaving(names, ip) + (if ip in n.addrs then {n.name} else {})
  {
    assert forall x :: x in names + [n] <==> x in names || x == n;
  }

  lemma InvertNext(names: seq<NameState>, n: NameState)
    ensures Invert(names + [n]) == UnionMaps(Invert(names), Under(n.addrs, n.name))
  {
    var l, r := Invert(names + [n]), UnionMaps(Invert(names), Under(n.addrs, n.name));
    assert forall x :: x in names + [n] <==> x in names || x == n;
    forall ip: Addr ensures ip in l <==> ip in r {
      InvertAt(names + [n], ip);
      InvertAt(names, ip);
    }
    forall ip | ip in l ensures l[ip] == r[ip] {
      InvertAt(names, ip);
      NamesHavingNext(names, n, ip);
    }
  }

  method ExtendMap(m: AddrMap, production: AddrMap) returns (r: AddrMap)
    ensures r == UnionMaps(m, production)
  {
    var keys := SortedAddrs(production.Keys);
    r := m;
    ExtendEnds(m, production, keys);
    for i := 0 to |keys|
      invariant r == UnionMaps(m, Restrict(production, keys[..i]))
    {
      assert keys[i] in keys;
      ExtendStep(m, production, keys, i);
      r := AddEntry(r, RuleEntry(keys[i], production[keys[i]]));
    }
  }

  lemma ExtendEnds(m: AddrMap, p: AddrMap, keys: seq<Addr>)
    requires forall ip :: ip in keys <==> ip in p
    ensures UnionMaps(m, Restrict(p, keys[..0])) == m
    ensures UnionMaps(m, Restrict(p, keys[..|keys|])) == UnionMaps(m, p)
  {
    UnionEmpty(m);
    assert Restrict(p, keys[..0]) == map[];
    assert keys[..|keys|] == keys;
    assert Restrict(p, keys) == p;
  }

  lemma ExtendStep(m: AddrMap, p: AddrMap, keys: seq<Addr>, i: nat)
    requires i < |keys| && keys[i] in p
    ensures
      UnionMaps(m, Restrict(p, keys[..i + 1])) ==
      AddEntry(UnionMaps(m, Restrict(p, keys[..i])), RuleEntry(keys[i], p[keys[i]]))
  {
    RestrictNext(p, keys[..i], keys[i]);
    UnionAdd(m, Restrict(p, keys[..i]), RuleEntry(keys[i], p[keys[i]]));
    assert keys[..i + 1] == keys[..i] + [keys[i]];
  }

  function Restrict(m: AddrMap, keys: seq<Addr>): AddrMap {
    map ip | ip in keys && ip in m :: m[ip]
  }

  lemma RestrictNext(p: AddrMap, keys: seq<Addr>, ip: Addr)
    requires ip in p
    ensures Restrict(p, keys + [ip]) == AddEntry(Restrict(p, keys), RuleEntry(ip, p[ip]))
  {
    assert forall x :: x in keys + [ip] <==> x in keys || x == ip;
    assert NamesAt(Restrict(p, keys), ip) + p[ip] == p[ip];
  }

  method Compute(cfg: Config, answers: Answers, curProd: seq<RuleEntry>, curMaint: seq<RuleEntry>)
    returns (plan: Plan)
    ensures plan == PlanOf(cfg, answers, MapOf(curProd), MapOf(curMaint))
  {
    var current := EntriesToMap(curProd);
    var names := ComputeStates(cfg, answers, current);
    var production := BuildProduction(names);
    var overLimit := |production| > cfg.firewall.maxAddresses;
    if overLimit {
      names := NamesFromKernel(cfg, curProd);
      production := current;
    }
    var maintenance := EntriesToMap(curMaint);
    maintenance := ExtendMap(maintenance, production);
    var added := FilterKeys(production, current.Keys);
    var removed := FilterKeys(current, production.Keys);
    plan := Plan(names, production, maintenance, added, removed, overLimit);
  }
}
