/** Connection hygiene: which flows must not exist, and what deleting them one
    destination at a time leaves behind. */
module Conntrack {
  import opened Address
  import opened Ordered
  import opened Iptables

  datatype Flow = Flow(id: nat, dst: Addr)

  /** What one `conntrack -D -d` run reports: it could not be started, or its
      exit status and whether it printed the no-match summary. */
  datatype Reply = NotRun | Exit(status: int, nothingDeleted: bool)

  /** The reply counts as success. */
  predicate Accepted(r: Reply) {
    r.Exit? && (r.status == 0 || (r.status == 1 && r.nothingDeleted))
  }

  /** One run of the tool: it works, or it breaks with some reply after deleting
      any part of what it was asked to delete. */
  datatype ToolRun = Works | Breaks(reply: Reply, kept: set<Flow>)

  /** The tool could not be started, or exited with another status than 0 and 1,
      or with 1 without saying that nothing matched, which a netlink error does. */
  ghost predicate TellsOfFailure(reply: Reply) {
    reply == NotRun || reply.status !in {0, 1} || (reply.status == 1 && !reply.nothingDeleted)
  }

  /** A run that breaks tells of it. */
  ghost predicate Honest(run: ToolRun) {
    run.Breaks? ==> TellsOfFailure(run.reply)
  }

  function ReplyOf(flows: set<Flow>, ip: Addr, run: ToolRun): Reply {
    match run
    case Works => if exists f :: f in flows && f.dst == ip then Exit(0, false) else Exit(1, true)
    case Breaks(reply, _) => reply
  }

  function FlowsAfter(flows: set<Flow>, ip: Addr, run: ToolRun): set<Flow> {
    set f | f in flows && (f.dst != ip || (run.Breaks? && f in run.kept))
  }

  /** Addresses whose flows must not exist now, ascending. */
  function KillSet(mode: string, production: AddrMap, maintenance: AddrMap): seq<Addr> {
    SortedAddrs(set ip | ip in maintenance && (mode != "production" || ip !in production))
  }

  /** The flow table after sweeping the addresses in order. */
  function Swept(flows: set<Flow>, ips: seq<Addr>, tool: Addr -> ToolRun): set<Flow> {
    if ips == [] then flows
    else
      var ip := ips[|ips| - 1];
      FlowsAfter(Swept(flows, ips[..|ips| - 1], tool), ip, tool(ip))
  }

  /** The addresses whose deletion was reported as failed. */
  function KillFailed(flows: set<Flow>, ips: seq<Addr>, tool: Addr -> ToolRun): seq<Addr> {
    if ips == [] then []
    else
      var init, ip := ips[..|ips| - 1], ips[|ips| - 1];
      KillFailed(flows, init, tool) +
      (if Accepted(ReplyOf(Swept(flows, init, tool), ip, tool(ip))) then [] else [ip])
  }

  /** An address is reported as failed exactly if the tool, honest or not, broke on it
      with a reply that tells of failure. */
  lemma {:induction false} ReportedExactly(flows: set<Flow>, ips: seq<Addr>, tool: Addr -> ToolRun)
    ensures
      forall ip :: ip in KillFailed(flows, ips, tool) <==>
        ip in ips && tool(ip).Breaks? && TellsOfFailure(tool(ip).reply)
  {
    if ips != [] {
      var init, ip := ips[..|ips| - 1], ips[|ips| - 1];
      assert ips == init + [ip];
      ReportedExactly(flows, init, tool);
    }
  }

  /** Whatever survives on a swept address is on an address reported as failed,
      nothing else is touched, and exactly the broken runs are reported. */
  lemma {:induction false} SweepIsExact(flows: set<Flow>, ips: seq<Addr>, tool: Addr -> ToolRun)
    requires forall ip | ip in ips :: Honest(tool(ip))
    ensures
      var after, failed := Swept(flows, ips, tool), KillFailed(flows, ips, tool);
      && after <= flows
      && (forall f | f in after && f.dst in ips :: f.dst in failed)
      && (forall f | f in flows && f.dst !in ips :: f in after)
      && (forall ip :: ip in failed <==> ip in ips && tool(ip).Breaks?)
  {
    if ips != [] {
      var init, ip := ips[..|ips| - 1], ips[|ips| - 1];
      assert ips == init + [ip];
      SweepIsExact(flows, init, tool);
      assert Honest(tool(ip));
    }
  }
}
