# egress-resolver: model and proofs

egress-resolver keeps two iptables chains, a container's hosts file and the
connection table in step with a list of DNS names. It stores almost nothing of
its own: the addresses a name had last are the comments on the firewall rules it
wrote earlier. This project models that program in Dafny and proves what its
design rests on. `dafny verify dfyconfig.toml` checks everything.

The state that runs hand to each other is text: the listings of both chains, the
hosts file, the status record, and the set of connections. A run reads the
listings character by character with the program's own tokenizer, plans, renders
a restore batch, lets the kernel react to that text, and reads the listings back.

## How it is built

| file | what it holds |
|---|---|
| `Text`, `Ordered` | strings as the standard library splits, trims and joins them; sorted sets |
| `Address` | dotted quads, mask arithmetic, the special-purpose ranges |
| `Config`, `Names` | configuration, validation, name normalization; which names pass, character by character |
| `Iptables` | the chain codec: tokenizer, rule parser, comments, restore batch (methods and the functions they compute) |
| `Comments`, `Codec`, `Batch`, `Kernel`, `Chains` | the codec's properties: lossless comments, round trips, what the batch declares, re-listing, clean chains |
| `Answers`, `Plan`, `Conntrack`, `Hosts`, `Statics` | answers file, plan, sweep of flows, hosts file and what a reader learns from it |
| `Apply` | one run: class `Host`, updated in place by `RunApply`, against the function `After`, which also says what a crash at any step leaves |
| `Reconcile` | what one run guarantees |
| `Readiness` | what the flags and lists of the status say |
| `Runs` | sequences of runs, with crashes anywhere and any traffic in between |
| `Ideal` | the machine that would store the state explicitly, and the refinement |
| `Freshness` | freshness times against history |
| `Interleave` | any number of processes under the lock, step by step, with the answers file replaced at any moment |
| `Sample` | a valid configuration, and a run that meets the premises of the claims over runs |
| `BlindFailure` | the input for which the sweep misses a flow and the hosts file an address |
| `FormerNames` | a name of an earlier configuration that makes verification fail, and when later runs recover |
| `OverLimit` | answers over the limit: the input for which the marker misleads, and when it does |
| `Classify`, `Walks`, `Verdicts` | classification of a DNS response, what a verdict depends on, and exactly when there is which |
| `Driver` | retries, servers in order, concurrent queries, deadline; the sequential scan they equal |
| `Outcomes` | what resolution records, in terms of the replies |
| `Schedules` | the resolution as a state machine with one attempt answered at a time |
| `HandOff`, `Delivery` | from resolution to the plan, and from the message to the installed chain |

## The kernel, the tool, the clock

The kernel answers a restore batch with new listings of both chains or leaves
them alone, and separately reports success or failure; it may commit and report
failure. An honest kernel (`Reconcile.HonestKernel`) lists what it committed for
every chain that the batch declares, since to any other chain rules are only added:
the same rules in the same order, each with its tokens unchanged or with the implicit
`-m tcp` after `-p tcp`; quoting is free. Nothing is assumed of a dishonest one
where `HonestKernel` is not required. The connection tool may break on any
address, deleting any part of what it was asked to delete; an honest one then could
not be started, or exits with another status than 0 and 1, or with 1 without saying
that nothing matched. Files are replaced atomically or not at all. All of this, every
read that may fail, the clock, the boot id and the mode are fields of `Apply.Env`.

## What does not hold, and when it does

* **A sweep can report success and miss a flow.** If the kernel commits a batch,
  the run counts the update as failed (the tool reported an error, or the
  read-back failed), and the second reading of a chain fails too
  (src/main.rs:361-366), the sweep works from the listing the run started with.
  `BlindFailure.BlindFailureLeavesFlow` gives the input, for every valid
  configuration and every global address. `Runs.SweepSeesExactly` gives the exact
  condition: the sweep covers everything that is forbidden if and only if the
  kernel did not change the chains, or the change was confirmed (the tool reported
  success and both chains could be read back), or (production mode) production is
  read again or no address left it, or (any other mode) maintenance is read again
  or no address came in. The sweep claims over whole runs require that condition
  for the last run only.
* **The hosts file can disagree with the firewall** in the same situation. The
  dynamic part of the file that a run writes publishes exactly the pairs of the
  installed production chain if and only if the kernel did not change the chains, or
  the change was confirmed, or production is read again, or the plan was what was
  installed (`Reconcile.HostsAgreeExactly`); `BlindFailure.BlindFailureHidesAddress`
  gives the input.
* **A newline before the text of a static name breaks the section.** Names are
  validated after trimming (src/config.rs:197-201) and written as they stand
  (src/hosts.rs:20). A configured name is then published under no address
  (`Statics.NewlineLosesName`, for a host with different names), and a name may be
  published under an address that nobody configured
  (`Statics.NewlinePublishesUnconfigured`, for any two addresses). A newline in the
  white space behind the last name of a host does no harm. With pairwise different
  names that is exact: the lines of a host, and the whole section, publish exactly
  the configured pairs if and only if newlines stand only there
  (`Statics.HostPublishesExactly`, `Statics.StaticTextExactly`).
* **The generation marker is a claim about one boot.** A status file of another
  boot, or a boot id that cannot be read the same way twice, makes the run forget
  the marker (`Runs.MarkerForgetsOtherBoot`). A recorded run moves it back if and only
  if there was a marker of another boot and the run records no answers that reach it
  (`Runs.MarkerGoesBackExactly`).
* **The marker can move past answers that were never installed.** src/main.rs:402-406
  means it to advance only when the run's answers made it into the kernel. An
  over-limit run keeps the chains and still counts as a success (src/plan.rs:183-195),
  so it moves the marker, and the same answers are rejected from then on
  (`OverLimit.OverLimitSupersedes`, for every valid configuration and every answer of
  more addresses than it allows). `OverLimit.MarkerTellsTruthExactly` gives the exact
  condition: the marker rises only over installed answers if and only if the run
  accepted none or its plan is within the limit.
* **Verification can fail on names of an earlier configuration.** With hostnames of any
  configuration in the chains, a batch that the kernel commits honestly is verified if
  and only if every planned comment fits (`Reconcile.HonestKernelVerifiesExactly`);
  with configured names only it always is (`Reconcile.HonestKernelVerifies`).
  `FormerNames.FormerNameFailsVerification` gives the input. Whether the failure lasts
  depends on the order of the names: with the former name first it never ends, and
  with the configured name first every run after the first succeeds
  (`FormerNames.FormerNameFailsExactly`); there are names in either order
  (`FormerNames.FormerNameExists`).
* **`normalize_name` is not idempotent** on names with white space before their
  trailing dots (`Config.SpaceBeforeDot`); `Config.NormalizeTwice` says exactly
  when it is.

## Model

| member | source | states |
|---|---|---|
| Address.IpRoundTrip | src/iptables.rs:63-67 | a printed address parses back to itself, for every 32-bit address |
| Address.OnlyOneText | src/iptables.rs:63-67 | a text that parses to an address is exactly what that address prints as: no leading zeros, no other form |
| Address.MaskTestIsInterval | src/validate.rs:40-47 | for every prefix length 0..32 and every network aligned to it, the mask test is membership in the interval of 2^(32-len) addresses from the network |
| Address.RangesDisjoint | src/validate.rs:15-31 | the special ranges are pairwise disjoint, in ascending order |
| Address.GlobalUnicastIsComplement | src/validate.rs:34-38 | an address is global unicast exactly when it lies in none of the special intervals |
| Address.SpecialByOctets | src/validate.rs:15-38 | an address is global unicast exactly when its octets are none of those written out, such as first octet 10, or 169 then 254 |
| Config.CheckSettings | src/config.rs:143-174 | no error exactly for settings within all limits, with two different well-formed chain names; an error names a fault that is there |
| Config.CheckEndpoints | src/config.rs:175-192 | no error exactly when the normalized endpoint names are hostnames, pairwise different, and fit one comment together; an error names a fault that is there |
| Config.CheckStatics | src/config.rs:193-202 | no error exactly when every static host has names and all of them normalize to hostnames; an error names a fault that is there |
| Config.Validate | src/config.rs:142-204 | accepts exactly the valid configurations, the ones every other claim is about |
| Config.ValidExactly | src/config.rs:142-204 | a configuration is valid exactly if it has none of the fourteen faults, each spelled out with its limit |
| Config.HostnameChars | src/config.rs:232-245 | a hostname has no character outside letters, digits, hyphen and dot: nothing a comment must quote |
| Names.HostnameExactly | src/config.rs:232-245 | a hostname is exactly a text of at most 253 letters, digits, hyphens and dots, with a letter or digit at both ends and on both sides of every dot, and no 64 characters in a row without a dot |
| Names.NormalizedExactly | src/config.rs:226-228 | a normalized name is the trimmed one less all the dots at its end, without upper-case letters and with every character kept but for its case |
| Names.CaseDoesNotMatter | src/config.rs:226-228 | names that differ in case only normalize alike |
| Config.NormalizeTwice | src/config.rs:226-228 | normalizing is idempotent on a name exactly when no white space stands right before the trailing dots of its trimmed text |
| Config.SpaceBeforeDot | src/config.rs:226-228 | a name on which it is not |
| Config.AcceptedNameIsNormal | src/config.rs:177-180 | it is on every name that validation accepts |
| Ordered.LessExactly | src/iptables.rs:118-119 | names are ordered as in a dictionary by character codes, which is the order of the source's sets |
| Comments.JoinedLengthMonotone | src/config.rs:185-192 | the checked length bounds that of every subset of the names |
| Comments.EndpointSubsetsFit | src/config.rs:185-192 | in a valid configuration every subset of the endpoint names fits a comment |
| Comments.CommentLossless | src/iptables.rs:118-133 | within the bound the comment is the sorted names joined by spaces, and its words are exactly the names |
| Comments.CommentKeepsFirstNames | src/iptables.rs:118-133 | beyond it, for any non-empty set of hostnames, the comment is at most 255 bytes and joins a non-empty run of the first names, none of them cut |
| Comments.KeptExactly | src/iptables.rs:118-133 | reading a comment of hostnames back gives all of them exactly when they fit |
| Iptables.EntriesToMap | src/iptables.rs:38-44 | the union of the names per address; `Chains.MapOfSize` says when nothing is merged |
| Iptables.Tokenize | src/iptables.rs:82-116 | the tokens of a rule; `Codec.TokensOfTexts` is its inverse law |
| Iptables.ParseSpec | src/iptables.rs:56-75 | the entry of one rule, if it has a destination address; `Codec.ParseRuleWords` is its inverse law |
| Iptables.ParseChain | src/iptables.rs:50-78 | the entries of one chain of a listing; `Kernel.RelistedReads` is its inverse law |
| Iptables.Comment | src/iptables.rs:118-133 | the comment cut at a character boundary, then at the last space: its meaning is `Comments.CommentLossless` and `Comments.CommentKeepsFirstNames` |
| Iptables.PushRules | src/iptables.rs:141-155 | appends exactly the rule lines of one chain, in address order |
| Iptables.RenderRestore | src/iptables.rs:136-158 | the batch that declares both chains and lists both maps: `Batch.BatchShape`, `Kernel.BatchRules`, and read back by `Kernel.BatchReads` |
| Codec.TokensOfTexts | src/iptables.rs:80-116 | tokenizing undoes showing, for every token text and every mixture of bare and quoted tokens with any extra escapes |
| Codec.TokensOfRule | src/iptables.rs:82-116 | the words of a rule are read back exactly, however its comment is shown |
| Codec.ParseRuleWords | src/iptables.rs:58-75 | a rule's words parse to its address and the words of its comment, with or without the implicit match |
| Codec.RepeatedOptions | src/iptables.rs:58-75 | of several destinations in a rule the last counts, even if it is no address, and of several comments all do |
| Codec.PrefixIsExact | src/iptables.rs:51-56 | the prefix of one chain matches no rule line of another, even when one name starts with the other |
| Codec.SpecsOfTwoChains | src/iptables.rs:136-158 | a text of two chains yields for each exactly its own rules |
| Batch.BatchShape | src/iptables.rs:136-158 | line by line, the batch starts the table and commits it, declares each of the two chains on exactly one line before every rule, and else holds only their rules |
| Kernel.BatchReads | src/iptables.rs:136-158 | the batch parses back to both maps in address order, for all maps whose comments fit |
| Kernel.BatchRules | src/iptables.rs:141-155 | rule by rule, in address order: production accepts new TCP connections to one port of each of its addresses, maintenance drops everything to its own, each rule under all names of its address |
| Kernel.RelistedReads | src/iptables.rs:46-78 | so does every listing the kernel may show for a committed batch, which it shows for chains that the batch declares, and its rule count is the number of addresses |
| Kernel.RelistedKeeps | src/iptables.rs:46-78 | for hostnames that need not fit, it gives every address with the names its comment keeps, and the same count |
| Kernel.StyledListingRelists | src/iptables.rs:46-78 | listings with `-m tcp` added or not and single names quoted or not, freely per rule, are such listings |
| Chains.MapOfSize | src/iptables.rs:38-44 | merging never adds addresses, and merges nothing exactly when all addresses differ |
| Chains.MapOfEntriesOf | src/iptables.rs:38-44 | the map of a map's entries is the map |
| Chains.EntriesAtMostRules | src/iptables.rs:169-187 | parsed entries never outnumber counted rule lines |
| Chains.CleanMeansExactlyThePlan | src/iptables.rs:169-178 | "not dirty and map equals plan" holds exactly when every rule line parses and the rules are a permutation of the plan's (address, names) pairs |
| Plan.ComputeState | src/plan.rs:115-171 | the state of one name: a usable answer, an authenticated negative, or what the chain has; related to a specification without the program's steps by `Ideal.StateIsWanted` |
| Plan.StateIsConsistent | src/plan.rs:115-171 | outcome, source and addresses of a state agree: no address exactly when the source is a negative answer or nothing is known, no repetition in a fresh answer, the previous addresses after a transient failure |
| Plan.NamesFromKernel | src/plan.rs:79-97 | the states an installed chain stands for; `Reconcile.InvertKernelStates` inverts it |
| Plan.DedupAddrs | src/plan.rs:137-143 | the addresses without repetition, in order of first occurrence |
| Plan.BuildProduction | src/plan.rs:175-180 | name -> addresses turned into address -> names |
| Plan.ExtendMap | src/plan.rs:197-203 | the pointwise union of both maps |
| Plan.FilterKeys | src/plan.rs:205-214 | exactly the keys outside a set, ascending |
| Plan.Compute | src/plan.rs:99-224 | the whole plan; its meaning is `Reconcile.PlanKeeps` and `Ideal.PlanIsTarget` |
| Conntrack.SweepIsExact | src/conntrack.rs:40-52 | after a sweep the flows left on swept addresses are on addresses reported as failed, no other flow is touched, and exactly the broken deletions are reported |
| Conntrack.ReportedExactly | src/conntrack.rs:40-61 | for any tool, an address is reported as failed exactly if the deletion broke and was not started, or exited with another status than 0 and 1, or with 1 without the no-match summary |
| Hosts.Render | src/hosts.rs:12-36 | the hosts text; what it publishes is `Hosts.HostsPublish` |
| Hosts.HostsPublish | src/hosts.rs:12-36 | for any static names at all, a reader learns what the fixed part publishes and exactly the addresses of the name states; the fixed part is `Statics.FilePublishes` |
| Statics.StaticTextPublishes | src/hosts.rs:17-22 | the static section publishes exactly the configured (address, trimmed name) pairs, for validated names with newlines only behind the last name of a host |
| Statics.HostPublishesExactly | src/hosts.rs:19-21 | the lines of a validated host with different names publish exactly its configured pairs if and only if newlines stand only behind the text of its last name |
| Statics.StaticTextExactly | src/hosts.rs:17-22 | so does the whole section, if and only if that holds of every host, for names that are different throughout |
| Statics.NewlineLosesName | src/config.rs:193-202 | a newline before the text of a name, accepted by validation, leaves some configured name of the host published under no address |
| Statics.OneLineExactly | src/hosts.rs:19-21 | a static host takes one line of the file exactly when none of its names has a newline |
| Statics.NewlinePublishesUnconfigured | src/config.rs:193-202 | for any two addresses, a static host that passes validation and whose section publishes a name under the address it was not configured for |
| Statics.FilePublishes | src/hosts.rs:12-36 | the whole file publishes localhost at 127.0.0.1, the configured static pairs and the addresses of the name states, and nothing else, for static names with newlines only behind the last name of a host |
| Apply.LoadAnswers | src/main.rs:215-260 | answers are accepted exactly if readable, of this schema, at most 180 s old and newer than the marker; otherwise none |
| Apply.RefreshTimes | src/main.rs:414-422 | renewed names get this run's time, other known names keep theirs, unknown ones are dropped |
| Apply.Host.ReadChain | src/iptables.rs:191-206 | entries and rule count of one listing |
| Apply.Host.ApplyRestore | src/iptables.rs:209-221 | both chains become what the kernel makes of the batch, or stay; success is what the tool reports |
| Apply.Host.VerifyChains | src/main.rs:470-504 | true exactly if both chains can be read and hold the plan with one rule per address and nothing else |
| Apply.Host.Kill | src/conntrack.rs:40-52 | the flow table after deleting address by address, and the addresses reported as failed; their meaning is `Conntrack.SweepIsExact` and `Conntrack.ReportedExactly` |
| Apply.Host.Begin | src/main.rs:293-310 | the run's view of status, answers and both chains, and its plan; none if the lock, the clock or a read fails |
| Apply.Host.MustRewrite | src/main.rs:320-327 | whether a chain is dirty or differs from the plan |
| Apply.Host.UpdateFirewall | src/main.rs:320-348 | the machine after the firewall step and whether the run takes it for updated |
| Apply.Host.Effective | src/main.rs:350-376 | the policy in force: the plan, or after a failure what the chains show |
| Apply.Host.Publish | src/main.rs:378-386 | replaces the hosts file whole, or leaves it |
| Apply.Host.Report | src/main.rs:396-453 | every field of the status but its texts; their meaning is `Readiness.RequiredFreshExactly`, `Readiness.RequiredSatisfiedExactly`, `Readiness.StatusTells`, `Reconcile.DeltasAccountForChange`, `Runs.KilledAreGone` and the laws of marker and freshness |
| Apply.Host.Finish | src/main.rs:378-459 | hosts, sweep and status together |
| Apply.Host.RunApply | src/main.rs:281-467 | a whole run changes the machine as `After` says and returns the status |
| Reconcile.StartsExactly | src/main.rs:293-306 | a run starts exactly if it gets the lock, the clock and both listings, and otherwise leaves everything as it is |
| Reconcile.AcceptsExactly | src/main.rs:215-250 | a run accepts the answers file exactly if it can be read, is of schema 1, at most 180 seconds old, and newer than the marker of a status of this boot |
| Reconcile.InvertKernelStates | src/plan.rs:79-97 | address -> names undoes name -> addresses on every chain that holds only configured names and no nameless address |
| Reconcile.PlanKeeps | src/plan.rs:175-203 | whatever the answers, the plan keeps production within `max_addresses` and within maintenance, all addresses global and under configured names, and loses no (address, name) pair of maintenance |
| Reconcile.RestoredChains | src/main.rs:320-348 | after the firewall step the chains hold the old maps or the whole plan, and maintenance has only grown |
| Reconcile.ApplyOkExactly | src/main.rs:320-348 | `apply_ok` holds exactly if there is nothing to rewrite, or the kernel commits, the tool reports success and both chains can be read back |
| Reconcile.InstalledEqualsPlanned | src/main.rs:320-348 | `apply_ok` implies, whatever the kernel did and whether or not the chains were rewritten, that both are listed as exactly a permutation of the plan's rules |
| Reconcile.HonestKernelVerifies | src/main.rs:470-504 | an honest kernel that commits the batch never fails verification, from any chains that hold only configured names |
| Reconcile.HonestKernelVerifiesExactly | src/main.rs:470-504 | from chains of any hostnames, an honestly committed batch is verified if and only if every planned name set fits a comment |
| FormerNames.FormerNameFailsVerification | src/main.rs:470-504 | with a former name in maintenance that fits a comment alone but not beside a configured one, a run fails verification although kernel, reads and tool all work |
| FormerNames.FormerNameFailsExactly | src/main.rs:470-504 | of any number of such runs with the same answer the first fails, and a later one succeeds if and only if the former name does not sort before the configured one |
| FormerNames.FormerNameExists | src/iptables.rs:118-133 | there is a valid configuration and a former name of this kind, in either order |
| Reconcile.DeltasAccountForChange | src/plan.rs:205-214 | the production chain before, less the reported removals, plus the reported additions, is the chain after an update; a failed update reports neither |
| Reconcile.AnswerlessRunChangesNothing | src/main.rs:252-259 | a run that accepts no answers plans what is installed and attempts no restore |
| Reconcile.PolicyAfterFailure | src/main.rs:360-376 | after a failed update each chain of the policy is the one re-read or the one the run started with |
| Reconcile.PolicyProduction | src/main.rs:354-376 | the policy has the installed production chain exactly under `SeesProduction` |
| Reconcile.HostsAgreeWithFirewall | src/main.rs:378-386 | what the hosts file publishes besides its fixed part is exactly the (address, name) pairs of the installed production chain, on the fresh, over-limit and failed paths alike |
| Reconcile.HostsAgreeExactly | src/main.rs:354-386 | the dynamic part of the written file publishes exactly the pairs of the installed production chain if and only if `SeesProduction`, a condition on what the kernel did, its confirmation, the re-read and the plan |
| Reconcile.SatisfiedMeansReachable | src/main.rs:434-434 | `required_satisfied` implies that every required name has an address that the listed production chain holds under that name and the hosts file publishes under it |
| Reconcile.FreshAndHostedIsSatisfied | src/main.rs:434-435 | `required_fresh` with `hosts_ok` implies `required_satisfied` |
| Readiness.RequiredFreshExactly | src/plan.rs:67-74 | `required_fresh` holds exactly if the firewall is updated and, within the limit, every required name has a usable answer among those accepted in this run |
| Readiness.RequiredSatisfiedExactly | src/main.rs:434-434 | `required_satisfied` holds exactly if the firewall is updated, the hosts file written, and the installed production chain has an address under every required name |
| Readiness.StatusTells | src/main.rs:424-453 | the other fields: boot, mode, time (the second clock reading, or the first if that fails), generation of the accepted answers, flags of hosts and sweep, and both address lists in ascending order |
| Runs.RunKeepsGood | src/main.rs:281-467 | a run, wherever it is cut, keeps the invariant and only grows maintenance in addresses and names |
| Runs.ReachableIsGood | src/plan.rs:175-203 | from empty chains, over all sequences of runs cut anywhere: clean chains, production within its limit and pointwise within maintenance, only global addresses, only configured names |
| Runs.EverAllowedStaysInMaintenance | src/plan.rs:197-203 | every (address, name) ever in production or maintenance is in maintenance from then on |
| Runs.SweepLeavesOnlyFailed | src/main.rs:388-400 | after a completed run flows to forbidden addresses survive only on addresses reported as failed, whose deletion broke |
| Runs.KilledAreGone | src/main.rs:388-400 | no flow is left to an address reported as killed, and killed and failed addresses partition the kill set |
| Runs.SweepSeesExactly | src/main.rs:354-391 | the sweep covers all addresses forbidden under the installed chains if and only if `SweepSees`, a condition on what the kernel did, its confirmation, the re-reads and the plan |
| Runs.SweepCoversExactly | src/main.rs:388-400 | with a tool that always works, no flow to a forbidden address survives any flow table if and only if `SweepSees` |
| Runs.SweepCoversEverAllowed | src/conntrack.rs:22-52 | over whole runs: a flow that survives to an address ever allowed goes to an address reported as failed or, in production mode, to one allowed now; with `conntrack_ok` only the latter |
| Runs.HostsAgreeAlways | src/hosts.rs:23-34 | over whole runs the hosts file publishes exactly its fixed part, spelled out for static names with newlines only behind the last name of a host, and the pairs of the production chain |
| Runs.AnswerlessRunIsFixpoint | src/main.rs:325-327 | from every reachable machine a run without accepted answers leaves both listings and every name's addresses unchanged and attempts no restore |
| Runs.MarkerMovesForward | src/main.rs:407-408 | within a boot the marker rises exactly on runs that accept answers, end with `apply_ok` (over the limit too) and write the status, to the generation of the answers, and otherwise stays |
| Runs.MarkerForgetsOtherBoot | src/status.rs:82-86 | after a change of boot id the marker is that of this run alone |
| Runs.MarkerGoesBackExactly | src/status.rs:82-86 | a recorded run moves the marker back if and only if it finds a marker of another boot and records no answers of that generation or a later one |
| Runs.MarkerNeverDecreases | src/main.rs:293-303 | over all runs of one boot, with any answers files, the marker never decreases |
| Runs.FailedGenerationStaysAcceptable | src/main.rs:402-408 | answers a run accepted stay acceptable exactly if the run failed to update the firewall or to record its status, and then until they are too old |
| Ideal.StateIsWanted | src/plan.rs:115-171 | a usable answer replaces, an authenticated negative clears, anything else keeps |
| Ideal.PlanIsTarget | src/plan.rs:99-195 | the planned production map carries the explicit machine's target: the wanted addresses, or all kept when over the limit |
| Ideal.RunRefines | src/main.rs:281-467 | one run of the reconciler, wherever it is cut, is one pass of the machine that stores name -> last-known-good addresses explicitly |
| Ideal.ChainsCarryTheIdealState | src/plan.rs:99-224 | over any sequence of runs from empty chains the chains and the status file carry exactly that machine's state |
| OverLimit.InstalledExactlyWithinLimit | src/plan.rs:183-195 | after a run with `apply_ok` the production chain carries what the accepted answers ask for if and only if that is at most `max_addresses` addresses |
| OverLimit.MarkerTellsTruthExactly | src/main.rs:402-408 | the marker rises only over answers that are in the kernel if and only if the run accepted none or its plan is within the limit |
| OverLimit.OverLimitSupersedes | src/main.rs:402-408 | for every valid configuration and every answer of more addresses than it allows, a run from empty chains that changes no chain, moves the marker, and so has the same answers rejected ever after |
| OverLimit.OverLimitHappens | src/plan.rs:183-195 | there is such a configuration, with room for one address, and such an answer, of two |
| Freshness.NothingRenewedWithoutInstall | src/main.rs:410-422 | failed and over-limit runs renew no name |
| Freshness.FreshnessMatchesHistory | src/main.rs:414-422 | a configured name's freshness time is that of the latest recorded run that installed a fresh or negative answer for it (its second clock reading, or the first if that fails), and absent if there was none |
| Freshness.FreshnessForgetsOtherBoot | src/status.rs:82-86 | a recorded run that finds the status of another boot forgets the times of that boot |
| Freshness.FreshnessNeverDecreases | src/main.rs:414-422 | under a monotone clock it never decreases |
| BlindFailure.BlindFailureLeavesFlow | src/main.rs:361-391 | for every valid configuration and global address, a run from empty chains that reports `conntrack_ok` and leaves a flow to a forbidden address |
| BlindFailure.BlindFailureHidesAddress | src/main.rs:361-386 | the same run writes a hosts file that does not publish the address it has just let production allow |
| Sample.FirstRunInstalls | src/main.rs:281-467 | for every valid configuration and global address, a first run with one answer meets the premises of the claims over runs and installs it |
| Sample.PremisesCanBeMet | src/main.rs:281-467 | there is such a configuration, address and run |
| Interleave.WorkReachesNextCut | src/main.rs:289-459 | taking a run's steps one at a time, each from the machine as it is and what the run has gathered, passes exactly through the cut points of the whole run |
| Interleave.InterleavingsAreSerial | src/main.rs:289-303 | under the lock every interleaving of processes, deaths and answers files leaves the machine as one run after another does |
| Interleave.EachRunHasItsFile | src/main.rs:289-303 | those runs are the ones that have read, in the order of their reads, each with the answers file that the events up to its read have left |
| Interleave.MarkerNeverDecreasesInterleaved | src/main.rs:293-303 | over all interleavings of one boot the persisted marker never decreases |
| Classify.FindCname | src/resolve.rs:98-101 | the target of the first CNAME owned by a name, case aside |
| Classify.FollowChain | src/resolve.rs:92-112 | the end of the chain, or its rejection as a loop; its meaning is `Walks.WalkMeaning` |
| Classify.CollectAddresses | src/resolve.rs:114-141 | the verdict on the records at the end of the chain; its meaning is `Walks.AnswerExactly` and `Verdicts.SectionExactly` |
| Classify.Classify | src/resolve.rs:72-142 | the verdict on a whole message; its meaning is `Verdicts.HeaderExactly` and `Verdicts.SectionExactly` |
| Verdicts.HeaderExactly | src/resolve.rs:72-90 | only messages that are complete, and authentic where that is asked, are accepted; NXDOMAIN is negative exactly then; exactly truncated messages and error codes are worth another attempt |
| Verdicts.SectionExactly | src/resolve.rs:92-141 | once the header passes: exactly when a chain is rejected as a loop, an address as non-global, the records as unrelated, when there is an answer, and that the negative answer is the section without any A record |
| Verdicts.SameNameExactly | src/resolve.rs:92-101 | the walk takes two names for one exactly when they differ in case only |
| Verdicts.FirstAlias | src/resolve.rs:97-109 | it follows the first CNAME of a name |
| Walks.WalkMeaning | src/resolve.rs:92-112 | the walk loops exactly when an iterate within the hops repeats, and otherwise ends at the iterate that has no CNAME or is the last hop |
| Walks.LoopExactly | src/resolve.rs:92-112 | once the header passes, the loop rejection is returned exactly when two of the first nine names of the chain are equal |
| Walks.AnswerExactly | src/resolve.rs:114-141 | accepted addresses are exactly the first-occurrence-ordered, duplicate-free A records of the chain's end, all global, with the minimum of all their TTLs |
| Walks.DedupKeepsFirstOrder | src/resolve.rs:127-129 | addresses stand in the order of their first records |
| Walks.OffChainRecordsDoNotMatter | src/resolve.rs:97-126 | messages that agree on the records of the followed chain get the same verdict; without any address the count of unrelated records may show |
| Walks.OrderDoesNotMatter | src/resolve.rs:97-141 | when all CNAMEs of an owner agree, permuting or repeating records changes neither kind, retry flag, address set nor TTL |
| Driver.Query | src/resolve.rs:362-389 | the verdict of one attempt |
| Driver.ResolveName | src/resolve.rs:287-340 | the retry loop; its meaning is `Driver.TriesMeaning`, `Outcomes.SettlesExactly` and `Outcomes.ScanRecords` |
| Driver.TriesMeaning | src/resolve.rs:296-339 | a server settles a name exactly when one attempt is decisive and all before it failed in a way worth retrying |
| Driver.Settle | src/resolve.rs:270-283 | whatever the order of completion and wherever the deadline cuts, a pending name has its own result or none, and other names are untouched |
| Driver.ResolveServers | src/resolve.rs:212-268 | each name has the result of the sequential scan or, if cut, none |
| Driver.ResolveAll | src/resolve.rs:167-210 | one result a name in configuration order: that of the scan, or "no usable answer" |
| Driver.ScanMeaning | src/resolve.rs:230-267 | the scan gives a result exactly when some server that can be connected settles the name, and then that of the first such server |
| Outcomes.SettlesExactly | src/resolve.rs:296-389 | a server settles a name at an attempt exactly when all replies before were lost, truncated or error codes and this one is decisive, said of the message alone |
| Outcomes.ScanRecords | src/resolve.rs:297-324 | the result of the first server that settles the name: an answer with exactly its addresses and TTL, a negative one as having none |
| Outcomes.ScanIsTrusted | src/resolve.rs:72-90 | every result comes from a reply that is complete and, where the configuration asks for it, authentic; none stands for a failure; it is empty exactly for NXDOMAIN or a section without A records |
| Schedules.CutAnywhere | src/resolve.rs:167-283 | in every state of every schedule of single attempts, a cut reports per name the scan's result or "no usable answer", and a finished schedule the scan's |
| Schedules.OrderOfCompletionDoesNotMatter | src/resolve.rs:247-283 | two finished schedules have the same results |
| Schedules.RecordedStays | src/resolve.rs:270-272 | what is recorded is never lost by running on |
| Schedules.StepDescends | src/resolve.rs:230-267 | every step descends a well-founded order, so no schedule goes on for ever |
| Schedules.EveryScheduleEnds | src/resolve.rs:230-267 | every schedule can be carried on to its end, where the results are those of the scan |
| HandOff.FoundIsPlanned | src/plan.rs:115-171 | what resolution found is exactly what is planned: the plan's checks reject no answer that resolution accepted |
| Delivery.FoundIsInstalled | src/main.rs:281-467 | after a run that accepts what resolution left, within the limit and with `apply_ok`, the production chain holds under each name the addresses that the scan found, none for an authenticated negative, or what it had |
| Delivery.MessageIsInstalled | src/main.rs:281-467 | under such a run, production holds under each name settled in time exactly the addresses of the A records at the end of the chain in the deciding message, and nothing for NXDOMAIN |
| Delivery.TransientExactly | src/resolve.rs:167-210 | a name has no usable answer exactly if no server settles it, or not in time |
| Delivery.UnansweredIsKept | src/plan.rs:115-171 | under such a name production keeps what it had |

## Left out

- TLS, sockets, the DNS wire format and the runtime: the network is an oracle
  giving a message, or nothing, for each (server, name, attempt).
- Comparison of domain names is taken to ignore ASCII case and to need equal root
  flags; the DNS library is not part of this model.
- Spawning processes, file reading and writing, fsync, rename and flock: replaced
  by atomic replacement, failing reads and a lock that a dying process releases.
- TOML and JSON parsing, metrics and status texts, argument parsing, log lines and
  error texts; error reasons are constructors, and the error list of the status and
  the `error` field of name states are not carried.
- Uptime is a real number, not a 64-bit float.
- Connections that appear while a run holds the lock: traffic changes the table
  between runs only.
- Whether the connection tool printed its no-match summary is one field of its reply;
  the search for that text in its output (src/conntrack.rs:58-60) is not modelled.
- The read-back compares addresses and names, as src/main.rs:474-488 does; ports and
  targets of listed rules are not compared, and what rules mean for packets is not
  part of this model.
- Runs.SweepCoversEverAllowed: requires `SweepSees` of the last run, because the claim
  fails without it (`BlindFailure.BlindFailureLeavesFlow`, `Runs.SweepCoversExactly`).
- Runs.HostsAgreeAlways: requires `SeesProduction` of the last run for the same reason
  (`Reconcile.HostsAgreeExactly`, `BlindFailure.BlindFailureHidesAddress`).
- Hosts.HostsPublish: what a static section publishes is not spelled out when a newline
  stands before the text of a name; otherwise `Statics.StaticTextPublishes` does.
- Statics.StaticTextExactly: requires different names, because a name that is
  configured twice can be published by its other occurrence; that newlines behind the
  last name do no harm needs no such condition (`Statics.StaticTextPublishes`).
- Kernel.RelistedReads: the kernel's freedom in re-listing is the implicit `-m tcp` and
  quoting; other rewritings by iptables are not modelled.
- A carriage return before a newline is left to the trimming that every line gets.
- `min_ttl` and the answering server are carried to the answers and not used further,
  as in the program.
- `toggle`, `firewall-config` and the static chains that jump to the dynamic ones.
