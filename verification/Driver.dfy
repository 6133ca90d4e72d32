/** Resolution of all names: servers in order, the open names of each server
    asked at the same time, retries, and a deadline that can end it anywhere. */
module Driver {
  import opened Text
  import opened Address
  import opened Config
  import opened Answers
  import opened Classify

  /** What comes back for one query. */
  datatype Reply = Arrived(msg: Message) | Lost | NotAsked

  /** The network: whether TLS can be set up, which servers (by position) can be
      connected, and the reply to each (server, name, attempt). */
  datatype Network = Network(tls: bool, connects: nat -> bool, reply: (nat, nat, nat) -> Reply)

  // ---- what one server says about one name ----

  function Verdict(cfg: Config, net: Network, s: nat, i: nat, attempt: nat): Classified
    requires i < |cfg.endpoints|
  {
    match net.reply(s, i, attempt)
    case Arrived(msg) => VerdictOf(msg, Name(EndpointNames(cfg)[i], true), cfg.resolver.requireAuthenticated)
    case Lost => Failed(NoResponse, true)
    case NotAsked => Failed(BadName, false)
  }

  /** The result a verdict settles a name with, if it does. */
  function Settled(name: string, server: Addr, v: Classified): Option<NameResult> {
    match v
    case Answer(addrs, minTtl) => Some(NameResult(name, Ok, addrs, Some(minTtl as nat), Some(server)))
    case Negative(_) => Some(NameResult(name, Empty, [], None, Some(server)))
    case Failed(_, _) => None
  }

  /** The outcome of the attempts from `attempt` on. */
  function Tries(cfg: Config, net: Network, s: nat, i: nat, attempt: nat): Option<NameResult>
    requires s < |cfg.resolver.servers| && i < |cfg.endpoints|
    decreases cfg.resolver.attempts + 1 - attempt, cfg
  {
    if attempt > cfg.resolver.attempts then None
    else
      var v := Verdict(cfg, net, s, i, attempt);
      if v.Failed? && v.retry then Tries(cfg, net, s, i, attempt + 1)
      else Settled(EndpointNames(cfg)[i], cfg.resolver.servers[s], v)
  }

  // ---- the sequential scan ----

  /** What the first of the servers below `s` that settles the name says. */
  function ScanBelow(cfg: Config, net: Network, s: nat, i: nat): Option<NameResult>
    requires s <= |cfg.resolver.servers| && i < |cfg.endpoints|
  {
    if s == 0 then None
    else if ScanBelow(cfg, net, s - 1, i).Some? then ScanBelow(cfg, net, s - 1, i)
    else if net.connects(s - 1) then Tries(cfg, net, s - 1, i, 1)
    else None
  }

  function Scan(cfg: Config, net: Network, i: nat): Option<NameResult>
    requires i < |cfg.endpoints|
  {
    if net.tls then ScanBelow(cfg, net, |cfg.resolver.servers|, i) else None
  }

  lemma {:induction false} ScanStays(cfg: Config, net: Network, s: nat, t: nat, i: nat)
    requires s <= t <= |cfg.resolver.servers| && i < |cfg.endpoints|
    requires ScanBelow(cfg, net, s, i).Some?
    ensures ScanBelow(cfg, net, t, i) == ScanBelow(cfg, net, s, i)
  {
    if s < t {
      ScanStays(cfg, net, s, t - 1, i);
    }
  }

  // ---- what the scan means ----

  /** All attempts before `attempt` failed in a way worth retrying. */
  ghost predicate Retried(cfg: Config, net: Network, s: nat, i: nat, attempt: nat)
    requires i < |cfg.endpoints|
  {
    forall b: nat | 1 <= b < attempt :: Verdict(cfg, net, s, i, b).Failed? && Verdict(cfg, net, s, i, b).retry
  }

  /** On server `s` the name is settled by exactly this attempt: all earlier ones
      failed in a way worth retrying. */
  ghost predicate SettlesAt(cfg: Config, net: Network, s: nat, i: nat, attempt: nat)
    requires i < |cfg.endpoints|
  {
    && 1 <= attempt <= cfg.resolver.attempts && !Verdict(cfg, net, s, i, attempt).Failed?
    && Retried(cfg, net, s, i, attempt)
  }

  ghost predicate Settles(cfg: Config, net: Network, s: nat, i: nat)
    requires i < |cfg.endpoints|
  {
    net.connects(s) && exists attempt: nat :: SettlesAt(cfg, net, s, i, attempt)
  }

  lemma {:induction false} TriesReach(cfg: Config, net: Network, s: nat, i: nat, attempt: nat)
    requires s < |cfg.resolver.servers| && i < |cfg.endpoints| && 1 <= attempt <= cfg.resolver.attempts + 1
    requires Retried(cfg, net, s, i, attempt)
    ensures Tries(cfg, net, s, i, 1) == Tries(cfg, net, s, i, attempt)
  {
    if attempt > 1 {
      var before := attempt - 1;
      TriesReach(cfg, net, s, i, before);
      assert Verdict(cfg, net, s, i, before).Failed? && Verdict(cfg, net, s, i, before).retry;
    }
  }

  lemma TriesAt(cfg: Config, net: Network, s: nat, i: nat, a: nat)
    requires s < |cfg.resolver.servers| && i < |cfg.endpoints| && SettlesAt(cfg, net, s, i, a)
    ensures Tries(cfg, net, s, i, 1)
      == Settled(EndpointNames(cfg)[i], cfg.resolver.servers[s], Verdict(cfg, net, s, i, a))
    ensures Tries(cfg, net, s, i, 1).Some?
  {
    TriesReach(cfg, net, s, i, a);
  }

  lemma TriesNext(cfg: Config, net: Network, s: nat, i: nat, attempt: nat)
    requires s < |cfg.resolver.servers| && i < |cfg.endpoints| && attempt >= 1
    requires Retried(cfg, net, s, i, attempt) && Tries(cfg, net, s, i, attempt).Some?
    ensures attempt <= cfg.resolver.attempts
    ensures
      || SettlesAt(cfg, net, s, i, attempt)
      || (Retried(cfg, net, s, i, attempt + 1) && Tries(cfg, net, s, i, attempt + 1).Some?)
  {}

  lemma {:induction false} TriesFind(cfg: Config, net: Network, s: nat, i: nat, attempt: nat)
    requires s < |cfg.resolver.servers| && i < |cfg.endpoints| && attempt >= 1
    requires Retried(cfg, net, s, i, attempt) && Tries(cfg, net, s, i, attempt).Some?
    ensures exists a: nat :: SettlesAt(cfg, net, s, i, a)
    decreases cfg.resolver.attempts + 1 - attempt
  {
    TriesNext(cfg, net, s, i, attempt);
    if !SettlesAt(cfg, net, s, i, attempt) {
      TriesFind(cfg, net, s, i, attempt + 1);
    }
  }

  /** A server gives a result exactly when one attempt settles the name. */
  lemma TriesMeaning(cfg: Config, net: Network, s: nat, i: nat)
    requires s < |cfg.resolver.servers| && i < |cfg.endpoints|
    ensures Tries(cfg, net, s, i, 1).Some? <==> exists a: nat :: SettlesAt(cfg, net, s, i, a)
  {
    if Tries(cfg, net, s, i, 1).Some? {
      TriesFind(cfg, net, s, i, 1);
    } else {
      forall a: nat ensures !SettlesAt(cfg, net, s, i, a) {
        if SettlesAt(cfg, net, s, i, a) { TriesAt(cfg, net, s, i, a); }
      }
    }
  }

  lemma SettlesTries(cfg: Config, net: Network, s: nat, i: nat)
    requires s < |cfg.resolver.servers| && i < |cfg.endpoints|
    ensures Settles(cfg, net, s, i) <==> net.connects(s) && Tries(cfg, net, s, i, 1).Some?
  {
    TriesMeaning(cfg, net, s, i);
  }

  /** No server below `s` settles the name. */
  ghost predicate NoneSettles(cfg: Config, net: Network, s: nat, i: nat)
    requires i < |cfg.endpoints|
  {
    forall t: nat | t < s :: !Settles(cfg, net, t, i)
  }

  lemma NoneSettlesNext(cfg: Config, net: Network, s: nat, i: nat)
    requires i < |cfg.endpoints|
    ensures NoneSettles(cfg, net, s + 1, i) <==> NoneSettles(cfg, net, s, i) && !Settles(cfg, net, s, i)
  {}

  lemma {:induction false} ScanNone(cfg: Config, net: Network, s: nat, i: nat)
    requires s <= |cfg.resolver.servers| && i < |cfg.endpoints|
    ensures ScanBelow(cfg, net, s, i).None? <==> NoneSettles(cfg, net, s, i)
  {
    if s > 0 {
      var last: nat := s - 1;
      ScanNone(cfg, net, last, i);
      SettlesTries(cfg, net, last, i);
      NoneSettlesNext(cfg, net, last, i);
    }
  }

  /** The scan gives a result exactly when some server settles the name, and then
      the one of the first such server, from its one decisive attempt. */
  lemma ScanMeaning(cfg: Config, net: Network, i: nat)
    requires i < |cfg.endpoints|
    ensures Scan(cfg, net, i).Some? <==>
      net.tls && exists s: nat :: s < |cfg.resolver.servers| && Settles(cfg, net, s, i)
    ensures forall s: nat, a: nat |
      && net.tls && s < |cfg.resolver.servers| && net.connects(s) && SettlesAt(cfg, net, s, i, a)
      && NoneSettles(cfg, net, s, i) ::
      Scan(cfg, net, i) == Settled(EndpointNames(cfg)[i], cfg.resolver.servers[s], Verdict(cfg, net, s, i, a))
  {
    ScanNone(cfg, net, |cfg.resolver.servers|, i);
    forall s: nat, a: nat |
      && net.tls && s < |cfg.resolver.servers| && net.connects(s) && SettlesAt(cfg, net, s, i, a)
      && NoneSettles(cfg, net, s, i)
      ensures Scan(cfg, net, i) == Settled(EndpointNames(cfg)[i], cfg.resolver.servers[s], Verdict(cfg, net, s, i, a))
    {
      ScanNone(cfg, net, s, i);
      TriesAt(cfg, net, s, i, a);
      ScanStays(cfg, net, s + 1, |cfg.resolver.servers|, i);
    }
  }

  // ---- the computation ----

  method Query(cfg: Config, net: Network, s: nat, i: nat, attempt: nat) returns (c: Classified)
    requires i < |cfg.endpoints|
    ensures c == Verdict(cfg, net, s, i, attempt)
  {
    match net.reply(s, i, attempt)
    case Arrived(msg) =>
      c := Classify.Classify(msg, Name(EndpointNames(cfg)[i], true), cfg.resolver.requireAuthenticated);
    case Lost =>
      c := Failed(NoResponse, true);
    case NotAsked =>
      c := Failed(BadName, false);
  }

  method ResolveName(cfg: Config, net: Network, s: nat, i: nat) returns (r: Option<NameResult>)
    requires s < |cfg.resolver.servers| && i < |cfg.endpoints|
    ensures r == Tries(cfg, net, s, i, 1)
  {
    var attempt := 1;
    while attempt <= cfg.resolver.attempts
      invariant 1 <= attempt <= cfg.resolver.attempts + 1
      invariant Tries(cfg, net, s, i, attempt) == Tries(cfg, net, s, i, 1)
    {
      var v := Query(cfg, net, s, i, attempt);
      if !v.Failed? || !v.retry {
        return Settled(EndpointNames(cfg)[i], cfg.resolver.servers[s], v);
      }
      attempt := attempt + 1;
    }
    return None;
  }

  /** Records the outcomes of the pending queries in the order in which they
      happen to complete, until the deadline, if it comes first. */
  method Settle(cfg: Config, net: Network, s: nat, pending: set<nat>, results: array<Option<NameResult>>)
    returns (inTime: bool)
    requires s < |cfg.resolver.servers| && results.Length == |cfg.endpoints|
    requires forall i | i in pending :: i < results.Length && results[i] == None
    modifies results
    ensures forall i | 0 <= i < results.Length ::
      if i !in pending then results[i] == old(results[i])
      else results[i] == Tries(cfg, net, s, i, 1) || (!inTime && results[i] == None)
  {
    var left := pending;
    while left != {}
      invariant left <= pending
      invariant forall i | 0 <= i < results.Length ::
        if i !in pending then results[i] == old(results[i])
        else if i in left then results[i] == None
        else results[i] == Tries(cfg, net, s, i, 1)
    {
      if * {
        return false;
      }
      var i :| i in left;
      left := left - {i};
      var outcome := ResolveName(cfg, net, s, i);
      if outcome.Some? {
        results[i] := outcome;
      }
    }
    return true;
  }

  function Pending(results: seq<Option<NameResult>>): set<nat> {
    set i | 0 <= i < |results| && results[i].None?
  }

  method ResolveServers(cfg: Config, net: Network, results: array<Option<NameResult>>) returns (inTime: bool)
    requires results.Length == |cfg.endpoints| && forall i | 0 <= i < results.Length :: results[i] == None
    modifies results
    ensures forall i | 0 <= i < results.Length :: results[i] == Scan(cfg, net, i) || (!inTime && results[i] == None)
  {
    if !net.tls {
      return true;
    }
    for s := 0 to |cfg.resolver.servers|
      invariant forall i | 0 <= i < results.Length :: results[i] == ScanBelow(cfg, net, s, i)
    {
      var pending := Pending(results[..]);
      if pending == {} {
        AllSettled(cfg, net, s, results[..]);
        return true;
      }
      if * {
        PartlySettled(cfg, net, s, results[..]);
        return false;
      }
      if !net.connects(s) {
        continue;
      }
      ghost var before := results[..];
      inTime := Settle(cfg, net, s, pending, results);
      if !inTime {
        SettledBelow(cfg, net, s, before, results[..]);
        PartlySettled(cfg, net, s + 1, results[..]);
        return;
      }
    }
    return true;
  }

  /** The result of a name no server settled. */
  function Unresolved(name: string): NameResult {
    NameResult(name, Transient, [], None, None)
  }

  function Final(cfg: Config, net: Network, i: nat): NameResult
    requires i < |cfg.endpoints|
  {
    match Scan(cfg, net, i)
    case Some(r) => r
    case None => Unresolved(EndpointNames(cfg)[i])
  }

  /** Resolves all names: one result a name, in the order of the configuration. */
  method ResolveAll(cfg: Config, net: Network, uptime: real) returns (answers: Answers, inTime: bool)
    ensures answers.schema == SCHEMA && answers.generated == uptime && |answers.results| == |cfg.endpoints|
    ensures forall i | 0 <= i < |cfg.endpoints| ::
      answers.results[i] == Final(cfg, net, i) || (!inTime && answers.results[i] == Unresolved(EndpointNames(cfg)[i]))
  {
    var names := EndpointNames(cfg);
    var results := new Option<NameResult>[|names|](_ => None);
    inTime := ResolveServers(cfg, net, results);
    var list: seq<NameResult> := [];
    for i := 0 to |names|
      invariant |list| == i
      invariant forall j | 0 <= j < i :: list[j] == if results[j].Some? then results[j].value else Unresolved(names[j])
    {
      list := list + [if results[i].Some? then results[i].value else Unresolved(names[i])];
    }
    answers := Answers(SCHEMA, uptime, list);
  }

  /** What the results are while server `s` is being asked. */
  ghost predicate Between(cfg: Config, net: Network, s: nat, results: seq<Option<NameResult>>)
    requires s <= |cfg.resolver.servers|
  {
    && |results| == |cfg.endpoints|
    && forall i | 0 <= i < |results| :: results[i] == None || results[i] == ScanBelow(cfg, net, s, i)
  }

  lemma PartlySettled(cfg: Config, net: Network, s: nat, results: seq<Option<NameResult>>)
    requires net.tls && s <= |cfg.resolver.servers| && Between(cfg, net, s, results)
    ensures forall i | 0 <= i < |results| :: results[i] == None || results[i] == Scan(cfg, net, i)
  {
    forall i | 0 <= i < |results| && results[i].Some? ensures results[i] == Scan(cfg, net, i) {
      ScanStays(cfg, net, s, |cfg.resolver.servers|, i);
    }
  }

  lemma AllSettled(cfg: Config, net: Network, s: nat, results: seq<Option<NameResult>>)
    requires net.tls && s <= |cfg.resolver.servers| && Between(cfg, net, s, results) && Pending(results) == {}
    ensures forall i | 0 <= i < |results| :: results[i] == Scan(cfg, net, i)
  {
    PartlySettled(cfg, net, s, results);
    forall i | 0 <= i < |results| ensures results[i].Some? {
      assert i !in Pending(results);
    }
  }

  lemma SettledBelow(cfg: Config, net: Network, s: nat, before: seq<Option<NameResult>>,
      results: seq<Option<NameResult>>)
    requires s < |cfg.resolver.servers| && net.connects(s) && |before| == |results| == |cfg.endpoints|
    requires forall i | 0 <= i < |before| :: before[i] == ScanBelow(cfg, net, s, i)
    requires forall i | 0 <= i < |before| ::
      if before[i].Some? then results[i] == before[i] else results[i] == Tries(cfg, net, s, i, 1) || results[i] == None
    ensures Between(cfg, net, s + 1, results)
  {}
}
