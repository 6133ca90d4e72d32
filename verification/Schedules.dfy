/** Every schedule of the queries: the resolution as a state machine in which one
    attempt of any pending name is answered at a time, and which the deadline may
    cut in any state. */
module Schedules {
  import opened Text
  import opened Config
  import opened Answers
  import opened Driver

  datatype Phase =
    | Connecting(server: nat)
    | Asking(server: nat, attempts: map<nat, nat>)  // the running attempt of each pending name
    | Finished

  datatype Drive = Drive(phase: Phase, results: seq<Option<NameResult>>)

  function Begin(cfg: Config, net: Network): Drive {
    Drive(if net.tls then Connecting(0) else Finished, seq(|cfg.endpoints|, _ => None))
  }

  /** The state after the running attempt of `i` is answered. */
  function Answered(cfg: Config, net: Network, d: Drive, i: nat): Drive
    requires d.phase.Asking? && i in d.phase.attempts
    requires d.phase.server < |cfg.resolver.servers| && i < |d.results| == |cfg.endpoints|
  {
    var s, attempts := d.phase.server, d.phase.attempts;
    var gone := Asking(s, attempts - {i});
    if attempts[i] > cfg.resolver.attempts then Drive(gone, d.results)
    else
      var v := Verdict(cfg, net, s, i, attempts[i]);
      if !v.Failed? then Drive(gone, d.results[i := Settled(EndpointNames(cfg)[i], cfg.resolver.servers[s], v)])
      else if v.retry then Drive(Asking(s, attempts[i := attempts[i] + 1]), d.results)
      else Drive(gone, d.results)
  }

  function Connected(cfg: Config, net: Network, d: Drive): Phase
    requires d.phase.Connecting?
  {
    var s := d.phase.server;
    if s >= |cfg.resolver.servers| || Pending(d.results) == {} then Finished
    else if !net.connects(s) then Connecting(s + 1)
    else Asking(s, map i | i in Pending(d.results) :: 1)
  }

  ghost predicate Step(cfg: Config, net: Network, d: Drive, e: Drive) {
    match d.phase
    case Finished => false
    case Connecting(_) => e == d.(phase := Connected(cfg, net, d))
    case Asking(s, attempts) =>
      if attempts == map[] then e == d.(phase := Connecting(s + 1))
      else
        && s < |cfg.resolver.servers| && |d.results| == |cfg.endpoints|
        && exists i: nat :: i in attempts && i < |d.results| && e == Answered(cfg, net, d, i)
  }

  /** A schedule: any sequence of steps from the beginning. */
  ghost predicate Schedule(cfg: Config, net: Network, path: seq<Drive>) {
    && path != [] && path[0] == Begin(cfg, net)
    && forall k | 0 <= k < |path| - 1 :: Step(cfg, net, path[k], path[k + 1])
  }

  // ---- the invariant ----

  /** A name being asked: not settled yet, and its attempts so far all failed in
      a way worth retrying. */
  ghost predicate BeingAsked(cfg: Config, net: Network, s: nat, i: nat, attempt: nat, r: Option<NameResult>)
    requires s < |cfg.resolver.servers| && i < |cfg.endpoints|
  {
    && r == None == ScanBelow(cfg, net, s, i)
    && 1 <= attempt <= cfg.resolver.attempts + 1 && Tries(cfg, net, s, i, attempt) == Tries(cfg, net, s, i, 1)
  }

  ghost predicate Sound(cfg: Config, net: Network, d: Drive) {
    && |d.results| == |cfg.endpoints|
    && (!d.phase.Finished? ==> net.tls)
    && match d.phase
       case Connecting(s) =>
         s <= |cfg.resolver.servers| && forall i: nat | i < |d.results| :: d.results[i] == ScanBelow(cfg, net, s, i)
       case Asking(s, attempts) =>
         && s < |cfg.resolver.servers| && net.connects(s)
         && (forall i | i in attempts :: i < |d.results|)
         && forall i: nat | i < |d.results| ::
              if i in attempts then BeingAsked(cfg, net, s, i, attempts[i], d.results[i])
              else d.results[i] == ScanBelow(cfg, net, s + 1, i)
       case Finished => forall i: nat | i < |d.results| :: d.results[i] == Scan(cfg, net, i)
  }

  lemma BeginIsSound(cfg: Config, net: Network)
    ensures Sound(cfg, net, Begin(cfg, net))
  {}

  lemma ConnectKeepsSound(cfg: Config, net: Network, d: Drive)
    requires Sound(cfg, net, d) && d.phase.Connecting?
    ensures Sound(cfg, net, d.(phase := Connected(cfg, net, d)))
  {
    var s := d.phase.server;
    if s < |cfg.resolver.servers| && Pending(d.results) == {} {
      AllSettled(cfg, net, s, d.results);
    }
  }

  lemma AnswerKeepsSound(cfg: Config, net: Network, d: Drive, i: nat)
    requires Sound(cfg, net, d) && d.phase.Asking? && i in d.phase.attempts
    ensures Sound(cfg, net, Answered(cfg, net, d, i))
  {}

  lemma StepKeepsSound(cfg: Config, net: Network, d: Drive, e: Drive)
    requires Sound(cfg, net, d) && Step(cfg, net, d, e)
    ensures Sound(cfg, net, e)
  {
    match d.phase
    case Connecting(_) =>
      ConnectKeepsSound(cfg, net, d);
    case Asking(s, attempts) =>
      if attempts != map[] {
        var i: nat :| i in attempts && i < |d.results| && e == Answered(cfg, net, d, i);
        AnswerKeepsSound(cfg, net, d, i);
      }
  }

  lemma {:induction false} ScheduleIsSound(cfg: Config, net: Network, path: seq<Drive>, k: nat)
    requires Schedule(cfg, net, path) && k < |path|
    ensures Sound(cfg, net, path[k])
  {
    if k == 0 {
      BeginIsSound(cfg, net);
    } else {
      ScheduleIsSound(cfg, net, path, k - 1);
      StepKeepsSound(cfg, net, path[k - 1], path[k]);
    }
  }

  // ---- what a cut schedule reports ----

  /** The answers when the process stops in a state. */
  function Report(cfg: Config, d: Drive, uptime: real): Answers
    requires |d.results| == |cfg.endpoints|
  {
    Answers(SCHEMA, uptime, seq(|d.results|, i requires 0 <= i < |d.results| =>
      if d.results[i].Some? then d.results[i].value else Unresolved(EndpointNames(cfg)[i])))
  }

  lemma SoundReport(cfg: Config, net: Network, d: Drive, uptime: real, i: nat)
    requires Sound(cfg, net, d) && i < |cfg.endpoints|
    ensures
      var r := Report(cfg, d, uptime).results[i];
      r == Final(cfg, net, i) || (!d.phase.Finished? && r == Unresolved(EndpointNames(cfg)[i]))
  {
    match d.phase
    case Finished =>
    case Connecting(s) =>
      if d.results[i].Some? { ScanStays(cfg, net, s, |cfg.resolver.servers|, i); }
    case Asking(s, attempts) =>
      if d.results[i].Some? { ScanStays(cfg, net, s + 1, |cfg.resolver.servers|, i); }
  }

  /** Cut anywhere, every schedule reports one result a name, in order: that of
      the sequential scan, or "no usable answer"; a finished one is the scan. */
  lemma CutAnywhere(cfg: Config, net: Network, path: seq<Drive>, k: nat, uptime: real)
    requires Schedule(cfg, net, path) && k < |path|
    ensures |path[k].results| == |cfg.endpoints|
    ensures forall i: nat | i < |cfg.endpoints| ::
      var r := Report(cfg, path[k], uptime).results[i];
      r == Final(cfg, net, i) || (!path[k].phase.Finished? && r == Unresolved(EndpointNames(cfg)[i]))
  {
    ScheduleIsSound(cfg, net, path, k);
    forall i: nat | i < |cfg.endpoints|
      ensures
        var r := Report(cfg, path[k], uptime).results[i];
        r == Final(cfg, net, i) || (!path[k].phase.Finished? && r == Unresolved(EndpointNames(cfg)[i]))
    {
      SoundReport(cfg, net, path[k], uptime, i);
    }
  }

  /** Two finished schedules report the same, whatever the order of completion. */
  lemma OrderOfCompletionDoesNotMatter(cfg: Config, net: Network, one: seq<Drive>, two: seq<Drive>)
    requires Schedule(cfg, net, one) && Schedule(cfg, net, two)
    requires one[|one| - 1].phase.Finished? && two[|two| - 1].phase.Finished?
    ensures one[|one| - 1].results == two[|two| - 1].results
  {
    ScheduleIsSound(cfg, net, one, |one| - 1);
    ScheduleIsSound(cfg, net, two, |two| - 1);
  }

  /** What is recorded stays: a later deadline never loses an answer. */
  lemma {:induction false} RecordedStays(cfg: Config, net: Network, path: seq<Drive>, j: nat, k: nat, i: nat)
    requires Schedule(cfg, net, path) && j <= k < |path| && i < |cfg.endpoints|
    ensures |path[j].results| == |path[k].results| == |cfg.endpoints|
    ensures path[j].results[i].Some? ==> path[k].results[i] == path[j].results[i]
  {
    ScheduleIsSound(cfg, net, path, j);
    ScheduleIsSound(cfg, net, path, k);
    if j < k {
      RecordedStays(cfg, net, path, j, k - 1, i);
      ScheduleIsSound(cfg, net, path, k - 1);
      StepKeepsResult(cfg, net, path[k - 1], path[k], i);
    }
  }

  lemma StepKeepsResult(cfg: Config, net: Network, d: Drive, e: Drive, i: nat)
    requires Sound(cfg, net, d) && Step(cfg, net, d, e) && i < |d.results|
    ensures |e.results| == |d.results|
    ensures d.results[i].Some? ==> e.results[i] == d.results[i]
  {
    if d.phase.Asking? && d.phase.attempts != map[] {
      var j: nat :| j in d.phase.attempts && j < |d.results| && e == Answered(cfg, net, d, j);
      assert BeingAsked(cfg, net, d.phase.server, j, d.phase.attempts[j], d.results[j]);
    }
  }

  // ---- progress ----

  /** Servers still to try, counted so that every change of phase lowers it. */
  function ServersLeft(cfg: Config, d: Drive): int {
    match d.phase
    case Finished => 0
    case Connecting(s) => 2 * (|cfg.resolver.servers| - s) + 1
    case Asking(s, _) => 2 * (|cfg.resolver.servers| - s)
  }

  /** Attempts still to be made by the pending names below `n`. */
  function AttemptsLeft(cfg: Config, attempts: map<nat, nat>, n: nat): int {
    if n == 0 then 0
    else
      AttemptsLeft(cfg, attempts, n - 1) +
      (if n - 1 in attempts then cfg.resolver.attempts + 2 - attempts[n - 1] else 0)
  }

  function Work(cfg: Config, d: Drive): int {
    if d.phase.Asking? then AttemptsLeft(cfg, d.phase.attempts, |d.results|) else 0
  }

  ghost predicate Bounded(cfg: Config, attempts: map<nat, nat>) {
    forall i | i in attempts :: attempts[i] <= cfg.resolver.attempts + 1
  }

  lemma {:induction false} WorkIsNatural(cfg: Config, attempts: map<nat, nat>, n: nat)
    requires Bounded(cfg, attempts)
    ensures AttemptsLeft(cfg, attempts, n) >= 0
  {
    if n > 0 {
      WorkIsNatural(cfg, attempts, n - 1);
    }
  }

  lemma {:induction false} AttemptsLeftFalls(cfg: Config, before: map<nat, nat>, after: map<nat, nat>, i: nat, n: nat)
    requires Bounded(cfg, before) && i in before
    requires forall j: nat | j != i :: (j in after <==> j in before) && (j in before ==> after[j] == before[j])
    requires i in after ==> after[i] > before[i]
    ensures AttemptsLeft(cfg, after, n) <= AttemptsLeft(cfg, before, n)
    ensures i < n ==> AttemptsLeft(cfg, after, n) < AttemptsLeft(cfg, before, n)
    ensures i >= n ==> AttemptsLeft(cfg, after, n) == AttemptsLeft(cfg, before, n)
  {
    if n > 0 {
      AttemptsLeftFalls(cfg, before, after, i, n - 1);
    }
  }

  /** Lower in the order that every step descends; both parts are natural. */
  ghost predicate Descends(cfg: Config, d: Drive, e: Drive) {
    && 0 <= ServersLeft(cfg, e) && 0 <= Work(cfg, e)
    && (ServersLeft(cfg, e) < ServersLeft(cfg, d) ||
        (ServersLeft(cfg, e) == ServersLeft(cfg, d) && Work(cfg, e) < Work(cfg, d)))
  }

  lemma SoundIsNatural(cfg: Config, net: Network, d: Drive)
    requires Sound(cfg, net, d)
    ensures ServersLeft(cfg, d) >= 0 && Work(cfg, d) >= 0
  {
    if d.phase.Asking? {
      forall i | i in d.phase.attempts ensures d.phase.attempts[i] <= cfg.resolver.attempts + 1 {
        assert i < |d.results|;
        assert BeingAsked(cfg, net, d.phase.server, i, d.phase.attempts[i], d.results[i]);
      }
      WorkIsNatural(cfg, d.phase.attempts, |d.results|);
    }
  }

  lemma AnswerFalls(cfg: Config, net: Network, d: Drive, i: nat)
    requires Sound(cfg, net, d) && d.phase.Asking? && i in d.phase.attempts
    ensures Work(cfg, Answered(cfg, net, d, i)) < Work(cfg, d)
  {
    forall j | j in d.phase.attempts ensures d.phase.attempts[j] <= cfg.resolver.attempts + 1 {
      assert j < |d.results|;
      assert BeingAsked(cfg, net, d.phase.server, j, d.phase.attempts[j], d.results[j]);
    }
    AttemptsLeftFalls(cfg, d.phase.attempts, Answered(cfg, net, d, i).phase.attempts, i, |d.results|);
  }

  /** Every step brings the end nearer, so no schedule goes on for ever. */
  lemma StepDescends(cfg: Config, net: Network, d: Drive, e: Drive)
    requires Sound(cfg, net, d) && Step(cfg, net, d, e)
    ensures Descends(cfg, d, e)
  {
    StepKeepsSound(cfg, net, d, e);
    SoundIsNatural(cfg, net, e);
    if d.phase.Asking? && d.phase.attempts != map[] {
      var i: nat :| i in d.phase.attempts && i < |d.results| && e == Answered(cfg, net, d, i);
      AnswerFalls(cfg, net, d, i);
    }
  }

  /** Only a finished state has no next step. */
  lemma NeverStuck(cfg: Config, net: Network, d: Drive) returns (e: Drive)
    requires Sound(cfg, net, d) && !d.phase.Finished?
    ensures Step(cfg, net, d, e)
  {
    match d.phase
    case Connecting(_) =>
      e := d.(phase := Connected(cfg, net, d));
    case Asking(s, attempts) =>
      if attempts == map[] {
        e := d.(phase := Connecting(s + 1));
      } else {
        var i: nat :| i in attempts;
        e := Answered(cfg, net, d, i);
      }
  }

  lemma CarryOn(cfg: Config, net: Network, path: seq<Drive>) returns (full: seq<Drive>)
    requires Schedule(cfg, net, path)
    ensures Schedule(cfg, net, full) && path <= full && full[|full| - 1].phase.Finished?
    decreases ServersLeft(cfg, path[|path| - 1]), Work(cfg, path[|path| - 1])
  {
    var d := path[|path| - 1];
    ScheduleIsSound(cfg, net, path, |path| - 1);
    if d.phase.Finished? {
      full := path;
    } else {
      var e := NeverStuck(cfg, net, d);
      StepDescends(cfg, net, d, e);
      SoundIsNatural(cfg, net, d);
      full := CarryOn(cfg, net, path + [e]);
    }
  }

  /** Every schedule, however far it got, can be carried on to its end, where the
      results are those of the sequential scan. */
  lemma EveryScheduleEnds(cfg: Config, net: Network, path: seq<Drive>) returns (full: seq<Drive>)
    requires Schedule(cfg, net, path)
    ensures Schedule(cfg, net, full) && path <= full && full[|full| - 1].phase.Finished?
    ensures
      var results := full[|full| - 1].results;
      |results| == |cfg.endpoints| && forall i: nat | i < |results| :: results[i] == Scan(cfg, net, i)
  {
    full := CarryOn(cfg, net, path);
    ScheduleIsSound(cfg, net, full, |full| - 1);
  }
}
