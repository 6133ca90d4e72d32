/** One reconciliation run: read the answers and the chains, plan, rewrite the
    chains if needed, read them back, publish the hosts file, sweep flows,
    record the status. */
module Apply {
  import opened Text
  import opened Address
  import opened Ordered
  import opened Config
  import opened Iptables
  import opened Answers
  import opened Plan
  import opened Conntrack
  import opened Hosts

  /** Answers older than this many seconds are ignored. */
  const ANSWERS_MAX_AGE_SECS := 180.0

  // ---- the machine a run works on ----

  /** What a run carries over from the previous status file. */
  datatype Persisted = Persisted(bootId: string, applied: Option<real>, lastFresh: map<string, real>)

  /** The listings of both chains, the hosts file, the status file and the
      connection table. */
  datatype Sys = Sys(
    production: string, maintenance: string, hosts: Option<string>, status: Option<Persisted>, flows: set<Flow>)

  /** What the kernel does with a restore batch, and what the tool reports. */
  datatype Restore =
    | Commit(production: string, maintenance: string, reported: bool)
    | Leave(reported: bool)

  /** Which of the (up to six) chain reads succeed. */
  datatype Reads = Reads(prod: bool, maint: bool, verifyProd: bool, verifyMaint: bool,
      againProd: bool, againMaint: bool)

  /** Everything a run meets and does not control. */
  datatype Env = Env(
    locked: bool, clock: Option<real>, bootId: string, answers: Option<Answers>, listed: Reads,
    restore: string -> Restore, hostsWritten: bool, mode: string, tool: Addr -> ToolRun,
    laterClock: Option<real>, statusWritten: bool)

  // ---- start: status, answers, chains, plan ----

  function PrevOf(status: Option<Persisted>, bootId: string): Persisted {
    if status.Some? && status.value.bootId == bootId then status.value else Persisted("", None, map[])
  }

  /** The answers a run accepts: readable, of this schema, recent, and newer
      than the last installed generation. */
  function AcceptedOf(file: Option<Answers>, now: real, applied: Option<real>): Option<Answers> {
    if file.None? then None
    else if file.value.schema != SCHEMA then None
    else if now - file.value.generated > ANSWERS_MAX_AGE_SECS then None
    else if applied.Some? && file.value.generated <= applied.value then None
    else file
  }

  const NO_ANSWERS := Answers(SCHEMA, 0.0, [])

  function AnswersOr(accepted: Option<Answers>): Answers {
    if accepted.Some? then accepted.value else NO_ANSWERS
  }

  datatype Run = Run(prev: Persisted, accepted: Option<Answers>, prod: ChainRead, maint: ChainRead, plan: Plan) {
    function ProdMap(): AddrMap { MapOf(prod.entries) }
    function MaintMap(): AddrMap { MapOf(maint.entries) }

    predicate NeedsRestore() {
      prod.IsDirty() || maint.IsDirty() || plan.production != ProdMap() || plan.maintenance != MaintMap()
    }
  }

  /** The run as it is before it changes anything; none if the lock, the clock
      or a chain read fails. */
  function Start(cfg: Config, s: Sys, e: Env): Option<Run> {
    if !e.locked || e.clock.None? || !e.listed.prod || !e.listed.maint then None
    else
      var prev := PrevOf(s.status, e.bootId);
      var accepted := AcceptedOf(e.answers, e.clock.value, prev.applied);
      var prod := ReadOf(s.production, cfg.firewall.production);
      var maint := ReadOf(s.maintenance, cfg.firewall.maintenance);
      Some(Run(prev, accepted, prod, maint,
               PlanOf(cfg, AnswersOr(accepted), MapOf(prod.entries), MapOf(maint.entries))))
  }

  // ---- firewall ----

  predicate Holds(read: ChainRead, m: AddrMap) {
    !read.IsDirty() && |read.entries| == |m| && MapOf(read.entries) == m
  }

  predicate ChainsHold(cfg: Config, s: Sys, plan: Plan) {
    && Holds(ReadOf(s.production, cfg.firewall.production), plan.production)
    && Holds(ReadOf(s.maintenance, cfg.firewall.maintenance), plan.maintenance)
  }

  /** What the kernel does with the batch of this run. */
  function Reaction(cfg: Config, r: Run, e: Env): Restore {
    e.restore(BatchOf(cfg.firewall, r.plan.production, r.plan.maintenance))
  }

  /** The machine after the restore step. */
  function Restored(cfg: Config, s: Sys, r: Run, e: Env): Sys {
    var k := Reaction(cfg, r, e);
    if r.NeedsRestore() && k.Commit? then s.(production := k.production, maintenance := k.maintenance) else s
  }

  /** The run takes the chains, which are now as `now` shows them, for updated. */
  predicate OkNow(cfg: Config, now: Sys, r: Run, e: Env) {
    r.NeedsRestore() ==>
      Reaction(cfg, r, e).reported && e.listed.verifyProd && e.listed.verifyMaint && ChainsHold(cfg, now, r.plan)
  }

  predicate ApplyOk(cfg: Config, s: Sys, r: Run, e: Env) {
    OkNow(cfg, Restored(cfg, s, r, e), r, e)
  }

  datatype Policy = Policy(names: seq<NameState>, production: AddrMap, maintenance: AddrMap)

  /** The policy in force, as the run sees it: the plan, or what the chains show
      after a failed update. */
  function PolicyNow(cfg: Config, now: Sys, r: Run, e: Env): Policy {
    if OkNow(cfg, now, r, e) then Policy(r.plan.names, r.plan.production, r.plan.maintenance)
    else
      var prod := if e.listed.againProd then MapOf(ReadOf(now.production, cfg.firewall.production).entries)
        else r.ProdMap();
      var maint := if e.listed.againMaint then MapOf(ReadOf(now.maintenance, cfg.firewall.maintenance).entries)
        else r.MaintMap();
      Policy(KernelStates(cfg, prod), prod, maint)
  }

  function PolicyOf(cfg: Config, s: Sys, r: Run, e: Env): Policy {
    PolicyNow(cfg, Restored(cfg, s, r, e), r, e)
  }

  // ---- hosts, flows, status ----

  function Hosted(cfg: Config, s: Sys, p: Policy, e: Env): Sys {
    if e.hostsWritten then s.(hosts := Some(HostsText(cfg.staticHosts, p.names))) else s
  }

  function ToKill(p: Policy, e: Env): seq<Addr> {
    KillSet(e.mode, p.production, p.maintenance)
  }

  predicate IsRenewed(n: NameState) {
    n.source == Fresh || n.source == EmptyAnswer
  }

  function FreshNames(names: seq<NameState>): set<string> {
    set n | n in names && IsRenewed(n) :: n.name
  }

  /** Freshness times: names with a fresh or an authenticated negative answer
      get the time of this run, other known names keep theirs. */
  function UpdateFresh(last: map<string, real>, names: seq<NameState>, now: real): map<string, real> {
    var renewed := FreshNames(names);
    map n | n in renewed + (last.Keys * (set x | x in names :: x.name)) :: if n in renewed then now else last[n]
  }

  datatype Status = Status(
    bootId: string, generated: real, answersUptime: Option<real>, applied: Option<real>, mode: string,
    applyOk: bool, hostsOk: bool, conntrackOk: bool, requiredSatisfied: bool, requiredFresh: bool,
    lastFresh: map<string, real>, endpoints: seq<NameState>, production: seq<Addr>, maintenance: seq<Addr>,
    added: seq<Addr>, removed: seq<Addr>, killed: seq<Addr>, killFailed: seq<Addr>)

  function GeneratedOf(e: Env): real
    requires e.clock.Some?
  {
    if e.laterClock.Some? then e.laterClock.value else e.clock.value
  }

  function AppliedOf(applyOk: bool, r: Run): Option<real> {
    if applyOk && r.accepted.Some? then Some(r.accepted.value.generated) else r.prev.applied
  }

  /** The status, from what a run has gathered: whether the update succeeded, the
      policy in force and the addresses whose sweep failed. */
  function StatusFrom(r: Run, ok: bool, p: Policy, failed: seq<Addr>, e: Env): Status
    requires e.clock.Some?
  {
    Status(
      e.bootId, GeneratedOf(e),
      if r.accepted.Some? then Some(r.accepted.value.generated) else None,
      AppliedOf(ok, r), e.mode, ok, e.hostsWritten, failed == [],
      ok && e.hostsWritten && RequiredSatisfied(p.names),
      ok && RequiredFresh(p.names),
      UpdateFresh(r.prev.lastFresh, p.names, GeneratedOf(e)),
      p.names, SortedAddrs(p.production.Keys), SortedAddrs(p.maintenance.Keys),
      if ok then r.plan.added else [], if ok then r.plan.removed else [],
      Except(ToKill(p, e), AddrSet(failed)), failed)
  }

  /** The addresses whose sweep fails on a machine. */
  function FailedOf(s: Sys, p: Policy, e: Env): seq<Addr> {
    KillFailed(s.flows, ToKill(p, e), e.tool)
  }

  function StatusOf(cfg: Config, s: Sys, r: Run, e: Env): Status
    requires e.clock.Some?
  {
    var p := PolicyOf(cfg, s, r, e);
    StatusFrom(r, ApplyOk(cfg, s, r, e), p, FailedOf(s, p, e), e)
  }

  function PersistedOf(st: Status): Persisted {
    Persisted(st.bootId, st.applied, st.lastFresh)
  }

  // ---- a whole run, possibly cut short ----

  /** How far a run gets before it ends: a crash leaves what is done so far. */
  datatype Cut = BeforeRestore | AfterRestore | AfterHosts | AfterKills(n: nat) | Complete

  function After(cfg: Config, s: Sys, e: Env, cut: Cut): Sys {
    match Start(cfg, s, e)
    case None => s
    case Some(r) => AfterRun(cfg, s, r, e, cut)
  }

  function AfterRun(cfg: Config, s: Sys, r: Run, e: Env, cut: Cut): Sys
    requires e.clock.Some?
  {
    AfterFirewall(cfg, s, Restored(cfg, s, r, e), PolicyOf(cfg, s, r, e), StatusOf(cfg, s, r, e), e, cut)
  }

  /** The rest of a run, once the policy in force is known. */
  function AfterFirewall(cfg: Config, s: Sys, restored: Sys, p: Policy, st: Status, e: Env, cut: Cut): Sys {
    var ips := ToKill(p, e);
    var hosted := Hosted(cfg, restored, p, e);
    match cut
    case BeforeRestore => s
    case AfterRestore => restored
    case AfterHosts => hosted
    case AfterKills(n) => hosted.(flows := Swept(restored.flows, if n < |ips| then ips[..n] else ips, e.tool))
    case Complete => Recorded(hosted.(flows := Swept(restored.flows, ips, e.tool)), st, e)
  }

  function Recorded(s: Sys, st: Status, e: Env): Sys {
    if e.statusWritten then s.(status := Some(PersistedOf(st))) else s
  }

  // ---- the run itself ----

  method LoadAnswers(file: Option<Answers>, now: real, applied: Option<real>)
    returns (answers: Answers, generated: Option<real>)
    ensures answers == AnswersOr(AcceptedOf(file, now, applied))
    ensures generated == if AcceptedOf(file, now, applied).Some? then Some(file.value.generated) else None
  {
    if file.Some? {
      var a := file.value;
      if a.schema != SCHEMA {
        // unsupported schema
      } else if now - a.generated > ANSWERS_MAX_AGE_SECS {
        // too old
      } else if applied.Some? && a.generated <= applied.value {
        // already applied or superseded
      } else {
        return a, Some(a.generated);
      }
    }
    return NO_ANSWERS, None;
  }

  /** The times in `kept`, those of renewed names written over. */
  function Renewed(kept: map<string, real>, renewed: set<string>, now: real): map<string, real> {
    map n | n in renewed + kept.Keys :: if n in renewed then now else kept[n]
  }

  lemma RenewedNext(kept: map<string, real>, renewed: set<string>, name: string, now: real)
    ensures Renewed(kept, renewed + {name}, now) == Renewed(kept, renewed, now)[name := now]
  {}

  lemma RenewedNone(kept: map<string, real>, now: real)
    ensures Renewed(kept, {}, now) == kept
  {}

  lemma RenewedAll(last: map<string, real>, names: seq<NameState>, now: real, kept: map<string, real>)
    requires kept == map n | n in last && n in (set x | x in names :: x.name) :: last[n]
    ensures Renewed(kept, FreshNames(names), now) == UpdateFresh(last, names, now)
  {}

  method RefreshTimes(last: map<string, real>, names: seq<NameState>, now: real) returns (r: map<string, real>)
    ensures r == UpdateFresh(last, names, now)
  {
    var known := set n | n in names :: n.name;
    r := map n | n in last && n in known :: last[n];
    ghost var kept := r;
    RenewedNone(kept, now);
    RenewedAll(last, names, now, kept);
    assert FreshNames(names[..0]) == {};
    for i := 0 to |names|
      invariant r == Renewed(kept, FreshNames(names[..i]), now)
    {
      FreshNamesNext(names[..i], names[i]);
      assert names[..i + 1] == names[..i] + [names[i]];
      if IsRenewed(names[i]) {
        RenewedNext(kept, FreshNames(names[..i]), names[i].name, now);
        r := r[names[i].name := now];
      } else {
        assert FreshNames(names[..i]) + {} == FreshNames(names[..i]);
      }
    }
    assert names[..|names|] == names;
  }

  lemma FreshNamesNext(names: seq<NameState>, n: NameState)
    ensures FreshNames(names + [n]) == FreshNames(names) + (if IsRenewed(n) then {n.name} else {})
  {
    assert forall x :: x in names + [n] <==> x in names || x == n;
  }

  method Killed(ips: seq<Addr>, failed: seq<Addr>) returns (r: seq<Addr>)
    ensures r == Except(ips, AddrSet(failed))
  {
    r := [];
    for i := 0 to |ips|
      invariant r == Except(ips[..i], AddrSet(failed))
    {
      assert ips[..i + 1][..i] == ips[..i];
      if ips[i] !in failed {
        r := r + [ips[i]];
      }
    }
    assert ips[..|ips|] == ips;
  }

  /** The machine, updated in place. */
  class Host {
    var production: string
    var maintenance: string
    var hosts: Option<string>
    var status: Option<Persisted>
    var flows: set<Flow>

    ghost function State(): Sys
      reads this
    {
      Sys(production, maintenance, hosts, status, flows)
    }

    method ReadChain(text: string, chain: string) returns (read: ChainRead)
      ensures read == ReadOf(text, chain)
    {
      var entries := ParseChain(text, chain);
      read := ChainRead(entries, CountRules(text, chain));
    }

    /** Hand the batch to the kernel. */
    method ApplyRestore(batch: string, e: Env) returns (ok: bool)
      modifies this`production, this`maintenance
      ensures ok == e.restore(batch).reported
      ensures
        var k := e.restore(batch);
        if k.Commit? then production == k.production && maintenance == k.maintenance
        else production == old(production) && maintenance == old(maintenance)
    {
      var k := e.restore(batch);
      if k.Commit? {
        production, maintenance := k.production, k.maintenance;
      }
      ok := k.reported;
    }

    method HoldsExactly(read: ChainRead, m: AddrMap) returns (ok: bool)
      ensures ok == Holds(read, m)
    {
      var got := EntriesToMap(read.entries);
      ok := !read.IsDirty() && |read.entries| == |m| && got == m;
    }

    /** Read both chains back and require them to hold exactly the plan. */
    method VerifyChains(cfg: Config, plan: Plan, e: Env) returns (ok: bool)
      ensures ok == (e.listed.verifyProd && e.listed.verifyMaint && ChainsHold(cfg, State(), plan))
    {
      if !e.listed.verifyProd || !e.listed.verifyMaint {
        return false;
      }
      var prod := ReadChain(production, cfg.firewall.production);
      var maint := ReadChain(maintenance, cfg.firewall.maintenance);
      var prodOk := HoldsExactly(prod, plan.production);
      var maintOk := HoldsExactly(maint, plan.maintenance);
      ok := prodOk && maintOk;
    }

    /** Delete the flows to each address in turn. */
    method Kill(ips: seq<Addr>, tool: Addr -> ToolRun) returns (failed: seq<Addr>)
      modifies this`flows
      ensures flows == Swept(old(flows), ips, tool)
      ensures failed == KillFailed(old(flows), ips, tool)
    {
      failed := [];
      for i := 0 to |ips|
        invariant flows == Swept(old(flows), ips[..i], tool)
        invariant failed == KillFailed(old(flows), ips[..i], tool)
      {
        assert ips[..i + 1][..i] == ips[..i];
        var reply := ReplyOf(flows, ips[i], tool(ips[i]));
        flows := FlowsAfter(flows, ips[i], tool(ips[i]));
        if !Conntrack.Accepted(reply) {
          failed := failed + [ips[i]];
        }
      }
      assert ips[..|ips|] == ips;
    }

    method Begin(cfg: Config, e: Env) returns (run: Option<Run>)
      ensures run == Start(cfg, State(), e)
    {
      if !e.locked || e.clock.None? {
        return None;
      }
      var prev := PrevOf(status, e.bootId);
      var answers, generated := LoadAnswers(e.answers, e.clock.value, prev.applied);
      if !e.listed.prod || !e.listed.maint {
        return None;
      }
      var prod := ReadChain(production, cfg.firewall.production);
      var maint := ReadChain(maintenance, cfg.firewall.maintenance);
      var plan := Compute(cfg, answers, prod.entries, maint.entries);
      return Some(Run(prev, if generated.Some? then Some(answers) else None, prod, maint, plan));
    }

    /** Whether the chains differ from the plan, or hold anything else than one
        rule per address. */
    method MustRewrite(r: Run) returns (must: bool)
      ensures must == r.NeedsRestore()
    {
      var prodMap := EntriesToMap(r.prod.entries);
      var maintMap := EntriesToMap(r.maint.entries);
      var dirty := r.prod.IsDirty() || r.maint.IsDirty();
      must := dirty || r.plan.production != prodMap || r.plan.maintenance != maintMap;
    }

    /** Rewrite both chains if needed, then read them back. */
    method UpdateFirewall(cfg: Config, r: Run, e: Env) returns (ok: bool)
      modifies this`production, this`maintenance
      ensures State() == Restored(cfg, old(State()), r, e)
      ensures ok == ApplyOk(cfg, old(State()), r, e)
    {
      var must := MustRewrite(r);
      if !must {
        return true;
      }
      var batch := RenderRestore(cfg.firewall, r.plan.production, r.plan.maintenance);
      ok := ApplyRestore(batch, e);
      if ok {
        ok := VerifyChains(cfg, r.plan, e);
      }
    }

    /** The installed policy: the plan, or what the chains show after a failure. */
    method Effective(cfg: Config, ghost s: Sys, r: Run, ok: bool, e: Env) returns (p: Policy)
      requires State() == Restored(cfg, s, r, e) && ok == ApplyOk(cfg, s, r, e)
      ensures p == PolicyOf(cfg, s, r, e)
    {
      if ok {
        return Policy(r.plan.names, r.plan.production, r.plan.maintenance);
      }
      var prod, maint := r.prod, r.maint;
      if e.listed.againProd {
        prod := ReadChain(production, cfg.firewall.production);
      }
      if e.listed.againMaint {
        maint := ReadChain(maintenance, cfg.firewall.maintenance);
      }
      var names := NamesFromKernel(cfg, prod.entries);
      var prodMap := EntriesToMap(prod.entries);
      var maintMap := EntriesToMap(maint.entries);
      return Policy(names, prodMap, maintMap);
    }

    method Publish(cfg: Config, p: Policy, e: Env)
      modifies this`hosts
      ensures State() == Hosted(cfg, old(State()), p, e)
    {
      var text := Render(cfg.staticHosts, p.names);
      if e.hostsWritten {
        hosts := Some(text);
      }
    }

    method Report(r: Run, applyOk: bool, p: Policy, failed: seq<Addr>, e: Env) returns (st: Status)
      requires e.clock.Some?
      ensures st == StatusFrom(r, applyOk, p, failed, e)
    {
      var killed := Killed(KillSet(e.mode, p.production, p.maintenance), failed);
      var now := GeneratedOf(e);
      var lastFresh := RefreshTimes(r.prev.lastFresh, p.names, now);
      st := Status(
        e.bootId, now, if r.accepted.Some? then Some(r.accepted.value.generated) else None,
        AppliedOf(applyOk, r), e.mode, applyOk, e.hostsWritten, failed == [],
        applyOk && e.hostsWritten && RequiredSatisfied(p.names), applyOk && RequiredFresh(p.names),
        lastFresh, p.names, SortedAddrs(p.production.Keys), SortedAddrs(p.maintenance.Keys),
        if applyOk then r.plan.added else [], if applyOk then r.plan.removed else [], killed, failed);
    }

    method Record(st: Status, e: Env)
      modifies this`status
      ensures State() == Recorded(old(State()), st, e)
    {
      if e.statusWritten {
        status := Some(PersistedOf(st));
      }
    }

    /** Everything after the firewall step. */
    method Finish(cfg: Config, r: Run, applyOk: bool, p: Policy, e: Env) returns (st: Status)
      requires e.clock.Some?
      modifies this
      ensures st == StatusFrom(r, applyOk, p, FailedOf(old(State()), p, e), e)
      ensures State() == AfterFirewall(cfg, old(State()), old(State()), p, st, e, Complete)
    {
      ghost var f := State();
      Publish(cfg, p, e);
      assert flows == f.flows;
      var failed := Kill(ToKill(p, e), e.tool);
      assert State() == Hosted(cfg, f, p, e).(flows := Swept(f.flows, ToKill(p, e), e.tool));
      st := Report(r, applyOk, p, failed, e);
      Record(st, e);
    }

    /** A run from the firewall step on. */
    method Proceed(cfg: Config, r: Run, e: Env) returns (st: Status)
      requires e.clock.Some?
      modifies this
      ensures st == StatusOf(cfg, old(State()), r, e)
      ensures State() == AfterRun(cfg, old(State()), r, e, Complete)
    {
      ghost var s := State();
      var applyOk := UpdateFirewall(cfg, r, e);
      var p := Effective(cfg, s, r, applyOk, e);
      st := Finish(cfg, r, applyOk, p, e);
      SameEnd(cfg, s, Restored(cfg, s, r, e), p, st, e);
    }

    /** A whole run. */
    method RunApply(cfg: Config, e: Env) returns (st: Option<Status>)
      modifies this
      ensures State() == After(cfg, old(State()), e, Complete)
      ensures st == match Start(cfg, old(State()), e)
                    case None => None
                    case Some(r) => Some(StatusOf(cfg, old(State()), r, e))
    {
      var run := Begin(cfg, e);
      if run.None? {
        return None;
      }
      var report := Proceed(cfg, run.value, e);
      return Some(report);
    }
  }

  /** The firewall step changes no flow, so the rest of the run is the same. */
  lemma SameEnd(cfg: Config, s: Sys, f: Sys, p: Policy, st: Status, e: Env)
    requires f.flows == s.flows
    ensures AfterFirewall(cfg, f, f, p, st, e, Complete) == AfterFirewall(cfg, s, f, p, st, e, Complete)
    ensures FailedOf(f, p, e) == FailedOf(s, p, e)
  {}
}
