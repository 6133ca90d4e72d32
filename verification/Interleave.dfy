/** Any number of processes that take turns under the lock, while the answers
    file is replaced at arbitrary moments. */
module Interleave {
  import opened Text
  import opened Address
  import opened Config
  import opened Answers
  import opened Conntrack
  import opened Apply
  import opened Reconcile
  import opened Runs

  /** What a process gathers on its way: whether the update succeeded, the policy
      in force, and the addresses whose deletion failed so far. */
  datatype Memory = Memory(ok: bool, policy: Policy, failed: seq<Addr>)

  const NOTHING_YET := Memory(false, Policy([], map[], map[]), [])

  /** A process that holds the lock: before it has read anything, or between two
      of its steps. */
  datatype Phase = Locked | Working(r: Run, cut: Cut, memory: Memory)

  datatype Holder = Holder(pid: nat, e: Env, phase: Phase)

  /** The machine, the answers file, the lock, and the runs that have ended. */
  datatype World = World(sys: Sys, file: Option<Answers>, holder: Option<Holder>, log: seq<Step>)

  datatype Event =
    | Replace(file: Option<Answers>)  // somebody replaces the answers file
    | Arrive(flows: set<Flow>)        // flows change while nobody holds the lock
    | Acquire(pid: nat, e: Env)       // a process asks for the lock
    | Load                            // the holder reads status, answers and chains
    | Work                            // the holder takes its next step
    | Quit                            // the holder ends or dies; the lock is released

  function NextCut(cut: Cut, kills: nat): Cut {
    match cut
    case BeforeRestore => AfterRestore
    case AfterRestore => AfterHosts
    case AfterHosts => if kills > 0 then AfterKills(1) else Complete
    case AfterKills(n) => if n < kills then AfterKills(n + 1) else Complete
    case Complete => Complete
  }

  /** The machine and the memory after a step. */
  datatype Progress = Progress(sys: Sys, memory: Memory)

  /** One step of a run, from the machine as it is and what the run has gathered. */
  function WorkOn(cfg: Config, now: Sys, e: Env, r: Run, cut: Cut, m: Memory): Progress
    requires e.clock.Some?
  {
    match cut
    case BeforeRestore =>
      var f := Restored(cfg, now, r, e);
      Progress(f, Memory(OkNow(cfg, f, r, e), PolicyNow(cfg, f, r, e), []))
    case AfterRestore => Progress(Hosted(cfg, now, m.policy, e), m)
    case AfterHosts => KillNext(now, e, r, m, 0)
    case AfterKills(n) => KillNext(now, e, r, m, n)
    case Complete => Progress(now, m)
  }

  /** Sweep the next address, or record the status when all are done. */
  function KillNext(now: Sys, e: Env, r: Run, m: Memory, n: nat): Progress
    requires e.clock.Some?
  {
    var ips := ToKill(m.policy, e);
    if n < |ips| then
      var run := e.tool(ips[n]);
      Progress(
        now.(flows := FlowsAfter(now.flows, ips[n], run)),
        m.(failed := m.failed + if Accepted(ReplyOf(now.flows, ips[n], run)) then [] else [ips[n]]))
    else
      Progress(Recorded(now, StatusFrom(r, m.ok, m.policy, m.failed, e), e), m)
  }

  function Turn(cfg: Config, w: World, event: Event): World {
    match event
    case Replace(file) => w.(file := file)
    case Arrive(flows) =>
      if w.holder.Some? then w else w.(sys := w.sys.(flows := flows), log := w.log + [Traffic(flows)])
    case Acquire(pid, e) =>
      if w.holder.Some? then w else w.(holder := Some(Holder(pid, e, Locked)))
    case Load => if w.holder.Some? && w.holder.value.phase.Locked? then Loaded(cfg, w, w.holder.value) else w
    case Work => if CanWork(w) then Worked(cfg, w, w.holder.value) else w
    case Quit => if w.holder.None? then w else w.(holder := None, log := SerialOf(w))
  }

  /** The holder has taken the lock and now reads everything. */
  function Loaded(cfg: Config, w: World, h: Holder): World {
    var e := h.e.(answers := w.file);
    match Start(cfg, w.sys, e)
    case None => w.(holder := None, log := w.log + [Pass(e, BeforeRestore)])
    case Some(r) => w.(holder := Some(Holder(h.pid, e, Working(r, BeforeRestore, NOTHING_YET))))
  }

  predicate CanWork(w: World) {
    w.holder.Some? && w.holder.value.phase.Working? && w.holder.value.e.clock.Some?
  }

  function Worked(cfg: Config, w: World, h: Holder): World
    requires h.phase.Working? && h.e.clock.Some?
  {
    var Working(r, cut, m) := h.phase;
    var next := WorkOn(cfg, w.sys, h.e, r, cut, m);
    w.(sys := next.sys,
       holder := Some(Holder(h.pid, h.e, Working(r, NextCut(cut, |ToKill(m.policy, h.e)|), next.memory))))
  }

  /** The serial history: ended runs, and the run in progress as far as it is. */
  function SerialOf(w: World): seq<Step> {
    if w.holder.Some? && w.holder.value.phase.Working?
    then w.log + [Pass(w.holder.value.e, w.holder.value.phase.cut)]
    else w.log
  }

  function History(cfg: Config, w: World, events: seq<Event>): World {
    if events == [] then w else Turn(cfg, History(cfg, w, events[..|events| - 1]), events[|events| - 1])
  }

  ghost predicate AtStart(w: World, s: Sys) {
    w.sys == s && w.holder == None && w.log == []
  }

  /** What a run has gathered at a cut point. */
  ghost function MemoryAt(cfg: Config, base: Sys, r: Run, e: Env, cut: Cut): Memory {
    var p := PolicyOf(cfg, base, r, e);
    var ips := ToKill(p, e);
    match cut
    case BeforeRestore => NOTHING_YET
    case AfterRestore => Memory(ApplyOk(cfg, base, r, e), p, [])
    case AfterHosts => Memory(ApplyOk(cfg, base, r, e), p, [])
    case AfterKills(n) => Memory(ApplyOk(cfg, base, r, e), p,
      KillFailed(base.flows, if n < |ips| then ips[..n] else ips, e.tool))
    case Complete => Memory(ApplyOk(cfg, base, r, e), p, KillFailed(base.flows, ips, e.tool))
  }

  /** What holds in every world: the machine is what the serial history makes of
      it, and the holder works on the machine nobody else has changed. */
  ghost predicate Serial(cfg: Config, s: Sys, w: World) {
    if w.holder.Some? && w.holder.value.phase.Working? then
      var Holder(_, e, Working(r, cut, m)) := w.holder.value;
      var base := Exec(cfg, s, w.log);
      && Start(cfg, base, e) == Some(r)
      && Reached(cfg, base, r, e, cut)
      && w.sys == After(cfg, base, e, cut)
      && m == MemoryAt(cfg, base, r, e, cut)
    else
      w.sys == Exec(cfg, s, w.log)
  }

  /** The cut points a run passes through. */
  ghost predicate Reached(cfg: Config, base: Sys, r: Run, e: Env, cut: Cut) {
    cut.AfterKills? ==> cut.n <= |ToKill(PolicyOf(cfg, base, r, e), e)|
  }

  lemma ExecSnoc(cfg: Config, s: Sys, steps: seq<Step>, step: Step)
    ensures Exec(cfg, s, steps + [step]) == Next(cfg, Exec(cfg, s, steps), step)
  {
    assert (steps + [step])[..|steps|] == steps;
  }

  lemma SweptNext(flows: set<Flow>, ips: seq<Addr>, tool: Addr -> ToolRun, n: nat)
    requires n < |ips|
    ensures Swept(flows, ips[..n + 1], tool) == FlowsAfter(Swept(flows, ips[..n], tool), ips[n], tool(ips[n]))
    ensures
      KillFailed(flows, ips[..n + 1], tool) ==
      KillFailed(flows, ips[..n], tool) +
      (if Accepted(ReplyOf(Swept(flows, ips[..n], tool), ips[n], tool(ips[n]))) then [] else [ips[n]])
  {
    assert ips[..n + 1][..n] == ips[..n];
  }

  /** The machine and the memory after `n` deletions. */
  ghost function Killing(cfg: Config, f: Sys, ok: bool, p: Policy, e: Env, n: nat): Progress
    requires n <= |ToKill(p, e)|
  {
    var ips := ToKill(p, e)[..n];
    Progress(Hosted(cfg, f, p, e).(flows := Swept(f.flows, ips, e.tool)),
             Memory(ok, p, KillFailed(f.flows, ips, e.tool)))
  }

  lemma KillStep(cfg: Config, f: Sys, r: Run, ok: bool, p: Policy, e: Env, n: nat)
    requires e.clock.Some? && n <= |ToKill(p, e)|
    ensures
      var now := Killing(cfg, f, ok, p, e, n);
      KillNext(now.sys, e, r, now.memory, n) ==
      if n < |ToKill(p, e)| then Killing(cfg, f, ok, p, e, n + 1)
      else Progress(Recorded(now.sys, StatusFrom(r, ok, p, now.memory.failed, e), e), now.memory)
  {
    if n < |ToKill(p, e)| {
      SweptNext(f.flows, ToKill(p, e), e.tool, n);
    }
  }

  lemma KillingNone(cfg: Config, f: Sys, ok: bool, p: Policy, e: Env)
    ensures Killing(cfg, f, ok, p, e, 0) == Progress(Hosted(cfg, f, p, e), Memory(ok, p, []))
  {
    assert ToKill(p, e)[..0] == [];
  }

  /** The rest of a run after the firewall step, as far as it gets. */
  ghost function FirewallProgress(cfg: Config, base: Sys, r: Run, e: Env, cut: Cut): Progress
    requires e.clock.Some?
  {
    Progress(AfterRun(cfg, base, r, e, cut), MemoryAt(cfg, base, r, e, cut))
  }

  lemma ProgressOfKills(cfg: Config, base: Sys, r: Run, e: Env, n: nat)
    requires e.clock.Some?
    ensures
      var f, p := Restored(cfg, base, r, e), PolicyOf(cfg, base, r, e);
      n <= |ToKill(p, e)| ==>
        FirewallProgress(cfg, base, r, e, AfterKills(n)) == Killing(cfg, f, ApplyOk(cfg, base, r, e), p, e, n)
  {
    var ips := ToKill(PolicyOf(cfg, base, r, e), e);
    if n == |ips| { assert ips[..n] == ips; }
    RestoredKeeps(cfg, base, r, e);
  }

  lemma ProgressOfEnd(cfg: Config, base: Sys, r: Run, e: Env)
    requires e.clock.Some?
    ensures
      var f, p, ok := Restored(cfg, base, r, e), PolicyOf(cfg, base, r, e), ApplyOk(cfg, base, r, e);
      var last := Killing(cfg, f, ok, p, e, |ToKill(p, e)|);
      FirewallProgress(cfg, base, r, e, Complete) ==
      Progress(Recorded(last.sys, StatusFrom(r, ok, p, last.memory.failed, e), e), last.memory)
  {
    var ips := ToKill(PolicyOf(cfg, base, r, e), e);
    assert ips[..|ips|] == ips;
    RestoredKeeps(cfg, base, r, e);
  }

  lemma KillMoves(cfg: Config, base: Sys, r: Run, e: Env, n: nat)
    requires e.clock.Some? && n <= |ToKill(PolicyOf(cfg, base, r, e), e)|
    ensures
      var f, p, ok := Restored(cfg, base, r, e), PolicyOf(cfg, base, r, e), ApplyOk(cfg, base, r, e);
      var now := Killing(cfg, f, ok, p, e, n);
      KillNext(now.sys, e, r, now.memory, n) ==
      FirewallProgress(cfg, base, r, e, if n < |ToKill(p, e)| then AfterKills(n + 1) else Complete)
  {
    var f, p, ok := Restored(cfg, base, r, e), PolicyOf(cfg, base, r, e), ApplyOk(cfg, base, r, e);
    KillStep(cfg, f, r, ok, p, e, n);
    ProgressOfKills(cfg, base, r, e, n + 1);
    ProgressOfEnd(cfg, base, r, e);
  }

  ghost predicate Moves(cfg: Config, base: Sys, r: Run, e: Env, cut: Cut, next: Cut)
    requires e.clock.Some?
  {
    var now := FirewallProgress(cfg, base, r, e, cut);
    WorkOn(cfg, now.sys, e, r, cut, now.memory) == FirewallProgress(cfg, base, r, e, next)
  }

  lemma RestoreMoves(cfg: Config, base: Sys, r: Run, e: Env)
    requires e.clock.Some?
    ensures Moves(cfg, base, r, e, BeforeRestore, AfterRestore)
  {}

  lemma HostsMoves(cfg: Config, base: Sys, r: Run, e: Env)
    requires e.clock.Some?
    ensures Moves(cfg, base, r, e, AfterRestore, AfterHosts)
  {}

  lemma SweepStarts(cfg: Config, base: Sys, r: Run, e: Env)
    requires e.clock.Some?
    ensures
      Moves(cfg, base, r, e, AfterHosts, if |ToKill(PolicyOf(cfg, base, r, e), e)| > 0 then AfterKills(1) else Complete)
  {
    KillingNone(cfg, Restored(cfg, base, r, e), ApplyOk(cfg, base, r, e), PolicyOf(cfg, base, r, e), e);
    KillMoves(cfg, base, r, e, 0);
  }

  lemma SweepMoves(cfg: Config, base: Sys, r: Run, e: Env, n: nat)
    requires e.clock.Some? && n <= |ToKill(PolicyOf(cfg, base, r, e), e)|
    ensures
      Moves(cfg, base, r, e, AfterKills(n),
        if n < |ToKill(PolicyOf(cfg, base, r, e), e)| then AfterKills(n + 1) else Complete)
  {
    ProgressOfKills(cfg, base, r, e, n);
    KillMoves(cfg, base, r, e, n);
  }

  lemma NextOf(cfg: Config, base: Sys, r: Run, e: Env, cut: Cut)
    requires Reached(cfg, base, r, e, cut)
    ensures
      var next := NextCut(cut, |ToKill(MemoryAt(cfg, base, r, e, cut).policy, e)|);
      && Reached(cfg, base, r, e, next)
      && (!cut.BeforeRestore? ==> next == NextCut(cut, |ToKill(PolicyOf(cfg, base, r, e), e)|))
  {}

  /** Working one step moves the run, and what it has gathered, to its next cut
      point. */
  lemma WorkMoves(cfg: Config, base: Sys, r: Run, e: Env, cut: Cut)
    requires e.clock.Some? && Reached(cfg, base, r, e, cut)
    ensures
      var next := NextCut(cut, |ToKill(MemoryAt(cfg, base, r, e, cut).policy, e)|);
      Moves(cfg, base, r, e, cut, next) && Reached(cfg, base, r, e, next)
  {
    NextOf(cfg, base, r, e, cut);
    match cut
    case BeforeRestore => RestoreMoves(cfg, base, r, e);
    case AfterRestore => HostsMoves(cfg, base, r, e);
    case AfterHosts => SweepStarts(cfg, base, r, e);
    case AfterKills(n) => SweepMoves(cfg, base, r, e, n);
    case Complete =>
  }

  lemma WorkReachesNextCut(cfg: Config, base: Sys, r: Run, e: Env, cut: Cut)
    requires Start(cfg, base, e) == Some(r) && e.clock.Some? && Reached(cfg, base, r, e, cut)
    ensures
      var m := MemoryAt(cfg, base, r, e, cut);
      var next := NextCut(cut, |ToKill(m.policy, e)|);
      && WorkOn(cfg, After(cfg, base, e, cut), e, r, cut, m) ==
           Progress(After(cfg, base, e, next), MemoryAt(cfg, base, r, e, next))
      && Reached(cfg, base, r, e, next)
  {
    WorkMoves(cfg, base, r, e, cut);
  }

  lemma LoadedKeepsSerial(cfg: Config, s: Sys, w: World)
    requires Serial(cfg, s, w) && w.holder.Some? && w.holder.value.phase.Locked?
    ensures Serial(cfg, s, Loaded(cfg, w, w.holder.value))
  {
    ExecSnoc(cfg, s, w.log, Pass(w.holder.value.e.(answers := w.file), BeforeRestore));
  }

  lemma WorkedKeepsSerial(cfg: Config, s: Sys, w: World)
    requires Serial(cfg, s, w) && CanWork(w)
    ensures Serial(cfg, s, Worked(cfg, w, w.holder.value))
  {
    var Holder(_, e, Working(r, cut, _)) := w.holder.value;
    WorkReachesNextCut(cfg, Exec(cfg, s, w.log), r, e, cut);
  }

  lemma TurnKeepsSerial(cfg: Config, s: Sys, w: World, event: Event)
    requires Serial(cfg, s, w)
    ensures Serial(cfg, s, Turn(cfg, w, event))
  {
    match event
    case Replace(file) =>
    case Arrive(flows) => ExecSnoc(cfg, s, w.log, Traffic(flows));
    case Acquire(pid, e) =>
    case Load => if w.holder.Some? && w.holder.value.phase.Locked? { LoadedKeepsSerial(cfg, s, w); }
    case Work => if CanWork(w) { WorkedKeepsSerial(cfg, s, w); }
    case Quit => SerialIsExec(cfg, s, w);
  }

  lemma SerialIsExec(cfg: Config, s: Sys, w: World)
    requires Serial(cfg, s, w)
    ensures w.sys == Exec(cfg, s, SerialOf(w))
  {
    if w.holder.Some? && w.holder.value.phase.Working? {
      ExecSnoc(cfg, s, w.log, Pass(w.holder.value.e, w.holder.value.phase.cut));
    }
  }

  /** Every interleaving is serial: the machine is always what one run after
      another makes of it, each cut where it is or ended. Which answers file each
      of them has is `EachRunHasItsFile`. */
  lemma {:induction false} InterleavingsAreSerial(cfg: Config, s: Sys, w: World, events: seq<Event>)
    requires AtStart(w, s)
    ensures
      var w' := History(cfg, w, events);
      Serial(cfg, s, w') && w'.sys == Exec(cfg, s, SerialOf(w'))
  {
    if events != [] {
      InterleavingsAreSerial(cfg, s, w, events[..|events| - 1]);
      TurnKeepsSerial(cfg, s, History(cfg, w, events[..|events| - 1]), events[|events| - 1]);
    }
    SerialIsExec(cfg, s, History(cfg, w, events));
  }

  // ---- the answers file each run has ----

  /** The answers file after some events: what the last of them put there. */
  function FileAt(file: Option<Answers>, events: seq<Event>): Option<Answers> {
    if events == [] then file
    else
      match events[|events| - 1]
      case Replace(f) => f
      case _ => FileAt(file, events[..|events| - 1])
  }

  lemma {:induction false} WorldFile(cfg: Config, w: World, events: seq<Event>)
    ensures History(cfg, w, events).file == FileAt(w.file, events)
  {
    if events != [] {
      WorldFile(cfg, w, events[..|events| - 1]);
    }
  }

  predicate CanLoad(w: World) {
    w.holder.Some? && w.holder.value.phase.Locked?
  }

  /** When the runs read, in order. */
  function LoadTimes(cfg: Config, w: World, events: seq<Event>): seq<nat> {
    if events == [] then []
    else
      var init := events[..|events| - 1];
      LoadTimes(cfg, w, init) +
      (if events[|init|].Load? && CanLoad(History(cfg, w, init)) then [|init|] else [])
  }

  /** What the runs of a history met, in order. */
  function RunsIn(steps: seq<Step>): seq<Env> {
    if steps == [] then []
    else
      var init, last := steps[..|steps| - 1], steps[|steps| - 1];
      RunsIn(init) + (if last.Pass? then [last.e] else [])
  }

  lemma RunsSnoc(steps: seq<Step>, step: Step)
    ensures RunsIn(steps + [step]) == RunsIn(steps) + (if step.Pass? then [step.e] else [])
  {
    assert (steps + [step])[..|steps|] == steps;
  }

  /** The run an event adds to the history. */
  function RunsAdded(w: World, event: Event): seq<Env> {
    if event.Load? && CanLoad(w) then [w.holder.value.e.(answers := w.file)] else []
  }

  lemma LoadAddsRun(cfg: Config, w: World)
    requires CanLoad(w)
    ensures RunsIn(SerialOf(Loaded(cfg, w, w.holder.value))) == RunsIn(w.log) + [w.holder.value.e.(answers := w.file)]
  {
    RunsSnoc(w.log, Pass(w.holder.value.e.(answers := w.file), BeforeRestore));
  }

  lemma WorkAddsNone(cfg: Config, w: World)
    requires CanWork(w)
    ensures RunsIn(SerialOf(Worked(cfg, w, w.holder.value))) == RunsIn(SerialOf(w))
  {
    var h := w.holder.value;
    RunsSnoc(w.log, Pass(h.e, h.phase.cut));
    RunsSnoc(w.log, Pass(h.e, NextCut(h.phase.cut, |ToKill(h.phase.memory.policy, h.e)|)));
  }

  lemma OthersAddNone(cfg: Config, w: World, event: Event)
    requires !event.Load? && !event.Work?
    ensures RunsIn(SerialOf(Turn(cfg, w, event))) == RunsIn(SerialOf(w))
  {
    if event.Arrive? { RunsSnoc(w.log, Traffic(event.flows)); }
  }

  /** An event adds a run to the history exactly when the lock holder reads, and
      that run has the answers file of this moment. */
  lemma TurnAddsRun(cfg: Config, w: World, event: Event)
    ensures RunsIn(SerialOf(Turn(cfg, w, event))) == RunsIn(SerialOf(w)) + RunsAdded(w, event)
  {
    if event.Load? {
      if CanLoad(w) { LoadAddsRun(cfg, w); }
    } else if event.Work? {
      if CanWork(w) { WorkAddsNone(cfg, w); }
    } else {
      OthersAddNone(cfg, w, event);
    }
  }

  /** The runs read at these times, each the answers file of its time. */
  ghost predicate ReadAt(file: Option<Answers>, events: seq<Event>, runs: seq<Env>, times: seq<nat>) {
    && |runs| == |times|
    && (forall i | 0 <= i < |times| ::
          times[i] < |events| && events[times[i]].Load? && runs[i].answers == FileAt(file, events[..times[i]]))
    && (forall i, j | 0 <= i < j < |times| :: times[i] < times[j])
  }

  lemma ReadEarlier(file: Option<Answers>, init: seq<Event>, last: Event, runs: seq<Env>, times: seq<nat>)
    requires ReadAt(file, init, runs, times)
    ensures ReadAt(file, init + [last], runs, times)
  {
    forall i | 0 <= i < |times|
      ensures (init + [last])[times[i]] == init[times[i]] && (init + [last])[..times[i]] == init[..times[i]]
    {}
  }

  lemma ReadNow(file: Option<Answers>, init: seq<Event>, last: Event, runs: seq<Env>, times: seq<nat>, run: Env)
    requires ReadAt(file, init, runs, times) && last.Load? && run.answers == FileAt(file, init)
    ensures ReadAt(file, init + [last], runs + [run], times + [|init|])
  {
    ReadEarlier(file, init, last, runs, times);
    assert (init + [last])[..|init|] == init;
  }

  lemma ReadNext(file: Option<Answers>, init: seq<Event>, last: Event, runs: seq<Env>, times: seq<nat>, added: seq<Env>)
    requires ReadAt(file, init, runs, times)
    requires added != [] ==> |added| == 1 && last.Load? && added[0].answers == FileAt(file, init)
    ensures ReadAt(file, init + [last], runs + added, times + if added == [] then [] else [|init|])
  {
    if added == [] {
      ReadEarlier(file, init, last, runs, times);
      assert runs + added == runs;
    } else {
      ReadNow(file, init, last, runs, times, added[0]);
      assert added == [added[0]];
    }
  }

  lemma HistoryAddsRun(cfg: Config, w: World, init: seq<Event>, last: Event)
    ensures
      var w' := History(cfg, w, init);
      && RunsIn(SerialOf(History(cfg, w, init + [last]))) == RunsIn(SerialOf(w')) + RunsAdded(w', last)
      && LoadTimes(cfg, w, init + [last]) == LoadTimes(cfg, w, init) +
        if RunsAdded(w', last) == [] then [] else [|init|]
  {
    assert (init + [last])[..|init|] == init;
    TurnAddsRun(cfg, History(cfg, w, init), last);
  }

  lemma AddedRunHasFile(cfg: Config, w: World, init: seq<Event>, last: Event)
    ensures
      var added := RunsAdded(History(cfg, w, init), last);
      added != [] ==> |added| == 1 && last.Load? && added[0].answers == FileAt(w.file, init)
  {
    WorldFile(cfg, w, init);
  }

  /** The runs of the serial history are those that have read, in the order in
      which they read, each with the answers file as it was at that moment. */
  ghost predicate RunsHaveTheirFiles(cfg: Config, w: World, events: seq<Event>) {
    ReadAt(w.file, events, RunsIn(SerialOf(History(cfg, w, events))), LoadTimes(cfg, w, events))
  }

  lemma NoRunYet(cfg: Config, w: World)
    requires w.holder == None && w.log == []
    ensures RunsHaveTheirFiles(cfg, w, [])
  {}

  lemma NextRunHasItsFile(cfg: Config, w: World, init: seq<Event>, last: Event)
    requires RunsHaveTheirFiles(cfg, w, init)
    ensures RunsHaveTheirFiles(cfg, w, init + [last])
  {
    HistoryAddsRun(cfg, w, init, last);
    AddedRunHasFile(cfg, w, init, last);
    ReadNext(w.file, init, last, RunsIn(SerialOf(History(cfg, w, init))), LoadTimes(cfg, w, init),
             RunsAdded(History(cfg, w, init), last));
  }

  lemma {:induction false} EachRunHasItsFile(cfg: Config, w: World, events: seq<Event>)
    requires w.holder == None && w.log == []
    ensures RunsHaveTheirFiles(cfg, w, events)
  {
    if events == [] {
      NoRunYet(cfg, w);
    } else {
      var init, last := events[..|events| - 1], events[|events| - 1];
      EachRunHasItsFile(cfg, w, init);
      NextRunHasItsFile(cfg, w, init, last);
      assert events == init + [last];
    }
  }

  // ---- the marker over interleavings ----

  ghost predicate OneBootEvents(events: seq<Event>, bootId: string) {
    forall event | event in events && event.Acquire? :: event.e.bootId == bootId
  }

  ghost predicate OneBootWorld(w: World, bootId: string) {
    OneBoot(w.log, bootId) && (w.holder.Some? ==> w.holder.value.e.bootId == bootId)
  }

  lemma WorkedMarker(cfg: Config, s: Sys, w: World, bootId: string)
    requires Serial(cfg, s, w) && s.status == None && OneBootWorld(w, bootId) && CanWork(w)
    ensures NotAfter(MarkerOf(w.sys), MarkerOf(Worked(cfg, w, w.holder.value).sys))
  {
    var Holder(_, e, Working(r, cut, m)) := w.holder.value;
    WorkedReaches(cfg, s, w);
    MarkerOfNextCut(cfg, s, w.log, e, cut, |ToKill(m.policy, e)|);
  }

  lemma MarkerOfNextCut(cfg: Config, s: Sys, log: seq<Step>, e: Env, cut: Cut, n: nat)
    requires s.status == None && OneBoot(log, e.bootId)
    ensures
      var base := Exec(cfg, s, log);
      NotAfter(MarkerOf(After(cfg, base, e, cut)), MarkerOf(After(cfg, base, e, NextCut(cut, n))))
  {
    MarkerNeverDecreases(cfg, s, log, e.bootId, 0);
    MarkerOfLaterCut(cfg, Exec(cfg, s, log), e, cut, NextCut(cut, n));
  }

  lemma WorkedReaches(cfg: Config, s: Sys, w: World)
    requires Serial(cfg, s, w) && CanWork(w)
    ensures
      var Holder(_, e, Working(r, cut, m)) := w.holder.value;
      var base, next := Exec(cfg, s, w.log), NextCut(cut, |ToKill(m.policy, e)|);
      && w.sys == After(cfg, base, e, cut) && Worked(cfg, w, w.holder.value).sys == After(cfg, base, e, next)
  {
    var Holder(_, e, Working(r, cut, m)) := w.holder.value;
    WorkReachesNextCut(cfg, Exec(cfg, s, w.log), r, e, cut);
  }

  lemma MarkerOfLaterCut(cfg: Config, base: Sys, e: Env, cut: Cut, next: Cut)
    requires SameBoot(base, e.bootId) && (cut.Complete? ==> next.Complete?)
    ensures NotAfter(MarkerOf(After(cfg, base, e, cut)), MarkerOf(After(cfg, base, e, next)))
  {
    MarkerMovesForward(cfg, base, e, cut);
    MarkerMovesForward(cfg, base, e, next);
  }

  lemma OneBootSnoc(steps: seq<Step>, step: Step, bootId: string)
    requires OneBoot(steps, bootId) && (step.Pass? ==> step.e.bootId == bootId)
    ensures OneBoot(steps + [step], bootId)
  {
    assert forall x :: x in steps + [step] <==> x in steps || x == step;
  }

  lemma TurnOneBoot(cfg: Config, w: World, event: Event, bootId: string)
    requires OneBootWorld(w, bootId) && (event.Acquire? ==> event.e.bootId == bootId)
    ensures OneBootWorld(Turn(cfg, w, event), bootId)
  {
    match event
    case Replace(file) =>
    case Arrive(flows) => OneBootSnoc(w.log, Traffic(flows), bootId);
    case Acquire(pid, e) =>
    case Load =>
      if CanLoad(w) { OneBootSnoc(w.log, Pass(w.holder.value.e.(answers := w.file), BeforeRestore), bootId); }
    case Work =>
    case Quit =>
      if w.holder.Some? && w.holder.value.phase.Working? {
        OneBootSnoc(w.log, Pass(w.holder.value.e, w.holder.value.phase.cut), bootId);
      }
  }

  lemma OthersKeepStatus(cfg: Config, w: World, event: Event)
    requires !(event.Work? && CanWork(w))
    ensures Turn(cfg, w, event).sys.status == w.sys.status
  {}

  lemma SameStatus(a: Sys, b: Sys)
    requires a.status == b.status
    ensures NotAfter(MarkerOf(a), MarkerOf(b))
  {}

  lemma WorkMarker(cfg: Config, s: Sys, w: World, init: seq<Event>, bootId: string)
    requires AtStart(w, s) && s.status == None && OneBootWorld(History(cfg, w, init), bootId)
    requires CanWork(History(cfg, w, init))
    ensures
      var now := History(cfg, w, init);
      NotAfter(MarkerOf(now.sys), MarkerOf(Worked(cfg, now, now.holder.value).sys))
  {
    InterleavingsAreSerial(cfg, s, w, init);
    WorkedMarker(cfg, s, History(cfg, w, init), bootId);
  }

  lemma TurnMarker(cfg: Config, s: Sys, w: World, init: seq<Event>, last: Event, bootId: string)
    requires AtStart(w, s) && s.status == None && OneBootWorld(History(cfg, w, init), bootId)
    ensures
      var now := History(cfg, w, init);
      NotAfter(MarkerOf(now.sys), MarkerOf(Turn(cfg, now, last).sys))
  {
    var now := History(cfg, w, init);
    if last.Work? && CanWork(now) {
      WorkMarker(cfg, s, w, init, bootId);
    } else {
      OthersKeepStatus(cfg, now, last);
      SameStatus(now.sys, Turn(cfg, now, last).sys);
    }
  }

  /** With any number of processes and any replacement of the answers file, the
      persisted marker never decreases within a boot. */
  lemma {:induction false} MarkerNeverDecreasesInterleaved(cfg: Config, s: Sys, w: World, events: seq<Event>,
      bootId: string, i: nat)
    requires AtStart(w, s) && s.status == None && OneBootEvents(events, bootId) && i <= |events|
    ensures NotAfter(MarkerOf(History(cfg, w, events[..i]).sys), MarkerOf(History(cfg, w, events).sys))
    ensures OneBootWorld(History(cfg, w, events), bootId)
  {
    if events == [] {
      assert events[..i] == events;
    } else {
      var init, last := events[..|events| - 1], events[|events| - 1];
      assert last in events;
      MarkerNeverDecreasesInterleaved(cfg, s, w, init, bootId, if i < |events| then i else 0);
      TurnOneBoot(cfg, History(cfg, w, init), last, bootId);
      TurnMarker(cfg, s, w, init, last, bootId);
      if i < |events| { assert init[..i] == events[..i]; } else { assert events[..i] == events; }
    }
  }
}
