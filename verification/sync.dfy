/** The ruleset synchronizer: full setup, the incremental local-address update, the route-address
    update and teardown, each a pure function from the redirector's state, the interface snapshot
    and the kernel's answers to the operations it attempts, its new state and its result. */
module Sync {
  import opened Types
  import opened Batch
  import opened LocalAddressSet
  import opened Ruleset

  /** The parts of the redirector these operations read and write: the policy, the local-address
      list last handed to the kernel, and whether a network callback is registered. */
  datatype AutoRedirect = AutoRedirect(config: Config, localAddresses: seq<Prefix>, listening: bool)

  /** What one call did: the operations attempted, the redirector afterwards, and the returned error. */
  datatype Run = Run(ops: seq<Op>, next: AutoRedirect, result: Outcome)

  /** Setup's operations in program order when nothing fails, up to and including the commit, for a
      given local-address list and a given list of chains and rules. */
  function InstallPlan(tableName: string, local: seq<Prefix>, rules: seq<Op>): (plan: seq<Op>)
  {
    [Open, AddTable(tableName, INet), CreateAddressSets(false), CreateLocalAddressSets(local, [])]
    + rules + [ConfigureOpenWRT(false), Flush]
  }

  /** Setup's plan with the ruleset the builder produces. */
  function SetupPlan(cfg: Config, local: seq<Prefix>): (plan: seq<Op>)
  {
    InstallPlan(cfg.tableName, local, Rules(cfg))
  }

  /** Full install: open the connection, add the table, create the address sets, record the local
      list and create its sets, build the chains, configure OpenWRT, commit, then register the
      network callback. Each failure returns at once; the connection is closed on every return
      after it was opened. */
  function SetupNFTables(r: AutoRedirect, interfaces: seq<Interface>, isGlobalUnicast: Classifier,
                         kernel: Kernel): (run: Run)
    ensures run.next.config == r.config
    ensures 0 < |run.ops| && run.ops[0] == Open
    ensures run.next.listening <==> r.listening || run.result.Ok?
  {
    Install(r, LocalAddresses(interfaces, isGlobalUnicast), Rules(r.config), kernel)
  }

  /** The body of setup for a given local-address list and a given list of chains and rules. */
  function Install(r: AutoRedirect, local: seq<Prefix>, rules: seq<Op>, kernel: Kernel): (run: Run)
    ensures run.next.config == r.config
    ensures 0 < |run.ops| && run.ops[0] == Open
    ensures run.next.listening <==> r.listening || run.result.Ok?
    ensures run.next.localAddresses == local || run.next.localAddresses == r.localAddresses
  {
    var open := Execute([Open], kernel);
    if open.result.Err? then Run(open.ops, r, open.result)
    else
      var tables := Execute([AddTable(r.config.tableName, INet), CreateAddressSets(false)], kernel);
      if tables.result.Err? then Run(open.ops + tables.ops + [Close], r, tables.result)
      else
        var recorded := r.(localAddresses := local);
        var build := Execute([CreateLocalAddressSets(local, [])] + rules + [ConfigureOpenWRT(false), Flush], kernel);
        if build.result.Err? then Run(open.ops + tables.ops + build.ops + [Close], recorded, build.result)
        else Run(open.ops + tables.ops + build.ops + [RegisterCallback, Close], recorded.(listening := true), Ok)
  }

  /** Incremental update, run by the network callback: recompute the local-address list and, only if
      it differs element-wise from the recorded one, replace the kernel's local-address sets. */
  function UpdateLocalAddressSet(r: AutoRedirect, interfaces: seq<Interface>, isGlobalUnicast: Classifier,
                                 kernel: Kernel): (run: Run)
    ensures run.next.config == r.config && run.next.listening == r.listening
  {
    Replace(r, LocalAddresses(interfaces, isGlobalUnicast), kernel)
  }

  /** The body of the update for a given recomputed list. The recorded list is replaced as soon as the
      set helper succeeded, before the commit. */
  function Replace(r: AutoRedirect, current: seq<Prefix>, kernel: Kernel): (run: Run)
    ensures run.next.config == r.config && run.next.listening == r.listening
    ensures run.ops == [] <==> current == r.localAddresses
    ensures run.ops != [] ==> run.ops[0] == Open
    ensures run.next.localAddresses == current || run.next.localAddresses == r.localAddresses
  {
    if current == r.localAddresses then Run([], r, Ok)
    else
      var open := Execute([Open], kernel);
      if open.result.Err? then Run(open.ops, r, open.result)
      else
        var sets := Execute([ListTable(r.config.tableName, INet), CreateLocalAddressSets(current, r.localAddresses)], kernel);
        if sets.result.Err? then Run(open.ops + sets.ops + [Close], r, sets.result)
        else
          var commit := Execute([Flush], kernel);
          Run(open.ops + sets.ops + commit.ops + [Close], r.(localAddresses := current), commit.result)
  }

  /** Route-address update: recreate the destination address sets in update mode and commit. */
  function UpdateRouteAddressSet(r: AutoRedirect, kernel: Kernel): (run: Run)
    ensures run.next == r
    ensures 0 < |run.ops| && run.ops[0] == Open
    ensures (Close in run.ops) == kernel(Open).Ok?
  {
    var open := Execute([Open], kernel);
    if open.result.Err? then Run(open.ops, r, open.result)
    else
      var rest := Execute([ListTable(r.config.tableName, INet), CreateAddressSets(true), Flush], kernel);
      Run(open.ops + rest.ops + [Close], r, rest.result)
  }

  /** How teardown ends: it returns normally, or the OpenWRT revert failed and `Must` panicked. */
  datatype Teardown = Completed | Panicked(error: Error)

  datatype CleanupRun = CleanupRun(ops: seq<Op>, outcome: Teardown)

  /** Teardown: unregister the callback if one is registered, then, if a connection opens, delete the
      table, revert the OpenWRT configuration (fatal on failure), commit and close, ignoring those
      two errors. */
  function CleanupNFTables(r: AutoRedirect, kernel: Kernel): (run: CleanupRun)
    ensures run.outcome.Panicked? <==> kernel(Open).Ok? && kernel(ConfigureOpenWRT(true)).Err?
    ensures Open in run.ops && RegisterCallback !in run.ops
    ensures (Close in run.ops) == (kernel(Open).Ok? && run.outcome == Completed)
  {
    var unregister := if r.listening then [UnregisterCallback] else [];
    if kernel(Open).Err? then CleanupRun(unregister + [Open], Completed)
    else
      var deleted := unregister + [Open, DelTable(r.config.tableName, INet), ConfigureOpenWRT(true)];
      if kernel(ConfigureOpenWRT(true)).Err? then CleanupRun(deleted, Panicked(kernel(ConfigureOpenWRT(true)).error))
      else CleanupRun(deleted + [Flush, Close], Completed)
  }

  /** The operations of an update whose list changed, in program order when nothing fails. */
  function UpdatePlan(cfg: Config, current: seq<Prefix>, previous: seq<Prefix>): (plan: seq<Op>)
  {
    [Open, ListTable(cfg.tableName, INet), CreateLocalAddressSets(current, previous), Flush]
  }

  /** The operations of a route update, in program order when nothing fails. */
  function RoutePlan(cfg: Config): (plan: seq<Op>)
  {
    [Open, ListTable(cfg.tableName, INet), CreateAddressSets(true), Flush]
  }

  // ---------------------------------------------------------------------------------------------
  // Setup

  /** What setup did, in terms of its plan: the plan run up to the first failure, followed by the
      callback registration when the whole plan went through and by the deferred close whenever the
      connection opened; the local list recorded when the address sets were created. */
  predicate FollowsPlan(r: AutoRedirect, local: seq<Prefix>, rules: seq<Op>, kernel: Kernel, run: Run)
  {
    var x := Execute(InstallPlan(r.config.tableName, local, rules), kernel);
    && run.result == x.result
    && run.ops == x.ops + (if x.result.Ok? then [RegisterCallback] else [])
                        + (if kernel(Open).Ok? then [Close] else [])
    && run.next.localAddresses ==
         (if kernel(Open).Ok? && kernel(CreateAddressSets(false)).Ok? then local else r.localAddresses)
  }

  /** Setup is its plan run up to the first failure, followed by the callback registration when the
      whole plan went through and by the deferred close whenever the connection opened. The local
      list is recorded as soon as the address sets exist, before anything else can fail. */
  lemma InstallFollowsPlan(r: AutoRedirect, local: seq<Prefix>, rules: seq<Op>, kernel: Kernel)
    ensures FollowsPlan(r, local, rules, kernel, Install(r, local, rules, kernel))
  {
    if kernel(Open).Err? {
      OpenFails(r, local, rules, kernel);
    } else if kernel(CreateAddressSets(false)).Err? {
      TablesFail(r, local, rules, kernel);
    } else {
      TablesSucceed(r, local, rules, kernel);
    }
  }

  /** The three stages of setup's plan: opening, the table and address sets, and the build. */
  lemma InstallPlanStages(tableName: string, local: seq<Prefix>, rules: seq<Op>, kernel: Kernel)
    ensures var tables := [AddTable(tableName, INet), CreateAddressSets(false)];
            var build := [CreateLocalAddressSets(local, [])] + rules + [ConfigureOpenWRT(false), Flush];
            && InstallPlan(tableName, local, rules) == [Open] + (tables + build)
            && Execute(tables + build, kernel) ==
                 (if kernel(CreateAddressSets(false)).Err? then Execute(tables, kernel)
                  else Execution(tables + Execute(build, kernel).ops, Execute(build, kernel).result))
            && (kernel(CreateAddressSets(false)).Ok? ==> Execute(tables, kernel) == Execution(tables, Ok))
  {
    var tables := [AddTable(tableName, INet), CreateAddressSets(false)];
    var build := [CreateLocalAddressSets(local, [])] + rules + [ConfigureOpenWRT(false), Flush];
    assert InstallPlan(tableName, local, rules) == [Open] + (tables + build);
    ExecuteAppend(tables, build, kernel);
    if kernel(CreateAddressSets(false)).Ok? {
      assert tables[1..] == [CreateAddressSets(false)];
      assert Execute(tables[1..], kernel) == Execution(tables[1..], Ok) by {
        assert tables[1..][1..] == [];
      }
    }
  }

  /** Case of InstallFollowsPlan: the connection does not open. */
  lemma OpenFails(r: AutoRedirect, local: seq<Prefix>, rules: seq<Op>, kernel: Kernel)
    requires kernel(Open).Err?
    ensures FollowsPlan(r, local, rules, kernel, Install(r, local, rules, kernel))
  {
  }

  /** Case of InstallFollowsPlan: the connection opens but the address sets are not created. */
  lemma TablesFail(r: AutoRedirect, local: seq<Prefix>, rules: seq<Op>, kernel: Kernel)
    requires kernel(Open).Ok? && kernel(CreateAddressSets(false)).Err?
    ensures FollowsPlan(r, local, rules, kernel, Install(r, local, rules, kernel))
  {
    var tables := [AddTable(r.config.tableName, INet), CreateAddressSets(false)];
    var build := [CreateLocalAddressSets(local, [])] + rules + [ConfigureOpenWRT(false), Flush];
    InstallPlanStages(r.config.tableName, local, rules, kernel);
    ExecuteAppend([Open], tables + build, kernel);
    var run := Install(r, local, rules, kernel);
    var xt := Execute(tables, kernel);
    assert Execute([Open], kernel).ops == [Open];
    assert run.ops == ([Open] + xt.ops) + [] + [Close];
  }

  /** Case of InstallFollowsPlan: the address sets exist and the build phase runs. */
  lemma TablesSucceed(r: AutoRedirect, local: seq<Prefix>, rules: seq<Op>, kernel: Kernel)
    requires kernel(Open).Ok? && kernel(CreateAddressSets(false)).Ok?
    ensures FollowsPlan(r, local, rules, kernel, Install(r, local, rules, kernel))
  {
    var tables := [AddTable(r.config.tableName, INet), CreateAddressSets(false)];
    var xb := Execute([CreateLocalAddressSets(local, [])] + rules + [ConfigureOpenWRT(false), Flush], kernel);
    var tail := if xb.result.Ok? then [RegisterCallback, Close] else [Close];
    var run := Install(r, local, rules, kernel);
    var x := Execute(InstallPlan(r.config.tableName, local, rules), kernel);
    PlanRunAfterTables(r.config.tableName, local, rules, kernel);
    InstallAfterTables(r, local, rules, kernel);
    assert x.ops == [Open] + (tables + xb.ops) && x.result == xb.result;
    assert run.ops == [Open] + tables + xb.ops + tail && run.result == xb.result;
    assert run.next.localAddresses == local;
    if xb.result.Ok? {
      assert run.ops == x.ops + [RegisterCallback] + [Close];
    } else {
      assert run.ops == x.ops + [] + [Close];
    }
  }

  /** Once the table and the address sets exist, the plan's run is the build phase's run. */
  lemma PlanRunAfterTables(tableName: string, local: seq<Prefix>, rules: seq<Op>, kernel: Kernel)
    requires kernel(Open).Ok? && kernel(CreateAddressSets(false)).Ok?
    ensures var tables := [AddTable(tableName, INet), CreateAddressSets(false)];
            var xb := Execute([CreateLocalAddressSets(local, [])] + rules + [ConfigureOpenWRT(false), Flush], kernel);
            Execute(InstallPlan(tableName, local, rules), kernel) == Execution([Open] + (tables + xb.ops), xb.result)
  {
    var tables := [AddTable(tableName, INet), CreateAddressSets(false)];
    var build := [CreateLocalAddressSets(local, [])] + rules + [ConfigureOpenWRT(false), Flush];
    InstallPlanStages(tableName, local, rules, kernel);
    ExecuteAppend([Open], tables + build, kernel);
  }

  /** Once the table and the address sets exist, setup is the build phase followed by the callback
      registration on success and the deferred close. */
  lemma InstallAfterTables(r: AutoRedirect, local: seq<Prefix>, rules: seq<Op>, kernel: Kernel)
    requires kernel(Open).Ok? && kernel(CreateAddressSets(false)).Ok?
    ensures var tables := [AddTable(r.config.tableName, INet), CreateAddressSets(false)];
            var xb := Execute([CreateLocalAddressSets(local, [])] + rules + [ConfigureOpenWRT(false), Flush], kernel);
            var tail := if xb.result.Ok? then [RegisterCallback, Close] else [Close];
            Install(r, local, rules, kernel)
            == Run([Open] + tables + xb.ops + tail,
                   r.(localAddresses := local, listening := r.listening || xb.result.Ok?), xb.result)
  {
    assert Execute([Open], kernel) == Execution([Open], Ok);
    InstallPlanStages(r.config.tableName, local, rules, kernel);
  }

  /** The shape of setup's plan: the connection is opened once, first, and the commit happens once,
      last, right after configuring OpenWRT; no callback is registered inside the plan. */
  predicate SetupShape(plan: seq<Op>)
  {
    && |plan| >= 2
    && plan[0] == Open
    && plan[|plan| - 2] == ConfigureOpenWRT(false)
    && plan[|plan| - 1] == Flush
    && (forall i :: 0 < i < |plan| ==> plan[i] != Open)
    && (forall i :: 0 <= i < |plan| - 1 ==> plan[i] != Flush)
    && RegisterCallback !in plan
  }

  /** Setup's plan has that shape whenever the builder adds only chains and rules. */
  lemma InstallPlanShape(tableName: string, local: seq<Prefix>, rules: seq<Op>)
    requires OnlyChainsAndRules(rules)
    ensures SetupShape(InstallPlan(tableName, local, rules))
  {
  }

  /** Running a plan of that shape: the commit is attempted only after the OpenWRT configuration
      succeeded, and a failure after the commit was attempted is the commit's own error. */
  lemma ExecuteShapedPlan(plan: seq<Op>, kernel: Kernel)
    requires SetupShape(plan)
    ensures var x := Execute(plan, kernel);
            && (Flush in x.ops ==> kernel(ConfigureOpenWRT(false)).Ok?)
            && (Flush in x.ops && x.result.Err? ==> x.result == kernel(Flush))
            && RegisterCallback !in x.ops
            && (0 < |x.ops| - 1 || x.result.Ok? <==> kernel(Open).Ok?)
  {
    var x := Execute(plan, kernel);
    ExecuteMeaning(plan, kernel);
    if Flush in x.ops {
      var i :| 0 <= i < |x.ops| && x.ops[i] == Flush;
      assert plan[i] == Flush;
      assert i == |plan| - 1;
      assert Succeeds(plan[|plan| - 2], kernel);
    }
    forall i | 0 <= i < |x.ops| ensures x.ops[i] != RegisterCallback {
      assert x.ops[i] == plan[i];
    }
    if 0 < |x.ops| - 1 || x.result.Ok? {
      assert Succeeds(plan[0], kernel);
    }
  }

  /** Early exit of a setup run against its plan: when step k is the first to fail, the run returns
      that step's error right after attempting it, closing the connection unless it was the opening
      that failed; nothing later is attempted, no callback is registered, and a commit is attempted
      only if it is the failing step itself. */
  predicate EarlyExit(plan: seq<Op>, k: nat, r: AutoRedirect, run: Run, kernel: Kernel)
    requires k < |plan|
  {
    && run.result == kernel(plan[k])
    && run.ops == plan[..k + 1] + (if k == 0 then [] else [Close])
    && RegisterCallback !in run.ops
    && run.next.listening == r.listening
    && (Flush in run.ops <==> plan[k] == Flush)
  }

  /** The failure that early exit is about: step k fails and every earlier step went through. */
  predicate FirstFailure(plan: seq<Op>, k: nat, kernel: Kernel)
  {
    && k < |plan| && !Succeeds(plan[k], kernel)
    && forall j :: 0 <= j < k ==> Succeeds(plan[j], kernel)
  }

  /** Early exit of the install body, for any builder output of chains and rules. */
  lemma InstallStopsAtFirstFailure(r: AutoRedirect, local: seq<Prefix>, rules: seq<Op>, kernel: Kernel, k: nat)
    requires OnlyChainsAndRules(rules)
    requires FirstFailure(InstallPlan(r.config.tableName, local, rules), k, kernel)
    ensures EarlyExit(InstallPlan(r.config.tableName, local, rules), k, r, Install(r, local, rules, kernel), kernel)
  {
    var plan := InstallPlan(r.config.tableName, local, rules);
    InstallFollowsPlan(r, local, rules, kernel);
    StopsAtFirstFailure(plan, kernel, k);
    InstallPlanShape(r.config.tableName, local, rules);
    assert kernel(Open).Ok? <==> k != 0 by {
      if k != 0 {
        assert Succeeds(plan[0], kernel);
      }
    }
    assert Flush in plan[..k + 1] <==> plan[k] == Flush by {
      if Flush in plan[..k + 1] {
        var i :| 0 <= i < k + 1 && plan[..k + 1][i] == Flush;
        assert plan[i] == Flush;
      }
    }
  }

  /** Commit discipline of a setup run against its plan: it succeeds exactly when every step of the
      plan goes through, and then it has configured OpenWRT, committed once, registered the callback
      and closed, in that order. The callback is registered only after a successful commit, and a
      commit is attempted only after the OpenWRT configuration succeeded. */
  predicate CommitDiscipline(plan: seq<Op>, run: Run, kernel: Kernel)
  {
    && (run.result.Ok? <==> forall i :: 0 <= i < |plan| ==> Succeeds(plan[i], kernel))
    && (run.result.Ok? ==> run.ops == plan + [RegisterCallback, Close])
    && (RegisterCallback in run.ops <==> run.result.Ok?)
    && (Flush in run.ops ==> kernel(ConfigureOpenWRT(false)).Ok?)
    && (Flush in run.ops && run.result.Err? ==> run.result == kernel(Flush))
  }

  /** Commit discipline of any run that follows setup's plan, for any builder output of chains and
      rules. */
  lemma InstallCommitDiscipline(r: AutoRedirect, local: seq<Prefix>, rules: seq<Op>, kernel: Kernel, run: Run)
    requires OnlyChainsAndRules(rules)
    requires FollowsPlan(r, local, rules, kernel, run)
    ensures CommitDiscipline(InstallPlan(r.config.tableName, local, rules), run, kernel)
  {
    var plan := InstallPlan(r.config.tableName, local, rules);
    var x := Execute(plan, kernel);
    InstallPlanShape(r.config.tableName, local, rules);
    ExecuteShapedPlan(plan, kernel);
    ExecuteMeaning(plan, kernel);
    var tail := (if x.result.Ok? then [RegisterCallback] else []) + (if kernel(Open).Ok? then [Close] else []);
    assert run.ops == x.ops + tail;
    assert Flush !in tail && (RegisterCallback in tail <==> x.result.Ok?);
  }

  /** The early exit of setup itself, with the ruleset the builder produces. */
  lemma SetupStopsAtFirstFailure(r: AutoRedirect, interfaces: seq<Interface>, isGlobalUnicast: Classifier,
                                 kernel: Kernel, k: nat)
    requires FirstFailure(SetupPlan(r.config, LocalAddresses(interfaces, isGlobalUnicast)), k, kernel)
    ensures EarlyExit(SetupPlan(r.config, LocalAddresses(interfaces, isGlobalUnicast)), k, r,
                      SetupNFTables(r, interfaces, isGlobalUnicast, kernel), kernel)
  {
    RulesAreOnlyChainsAndRules(r.config);
    InstallStopsAtFirstFailure(r, LocalAddresses(interfaces, isGlobalUnicast), Rules(r.config), kernel, k);
  }

  /** The commit discipline of setup itself, with the ruleset the builder produces. */
  lemma SetupCommitDiscipline(r: AutoRedirect, interfaces: seq<Interface>, isGlobalUnicast: Classifier, kernel: Kernel)
    ensures CommitDiscipline(SetupPlan(r.config, LocalAddresses(interfaces, isGlobalUnicast)),
                             SetupNFTables(r, interfaces, isGlobalUnicast, kernel), kernel)
  {
    var local := LocalAddresses(interfaces, isGlobalUnicast);
    RulesAreOnlyChainsAndRules(r.config);
    InstallFollowsPlan(r, local, Rules(r.config), kernel);
    InstallCommitDiscipline(r, local, Rules(r.config), kernel, Install(r, local, Rules(r.config), kernel));
  }

  /** The local list is recorded exactly when the connection opened and the address sets were
      created, whatever happens afterwards. */
  lemma SetupRecordsLocalAddresses(r: AutoRedirect, interfaces: seq<Interface>, isGlobalUnicast: Classifier, kernel: Kernel)
    ensures SetupNFTables(r, interfaces, isGlobalUnicast, kernel).next.localAddresses ==
              (if kernel(Open).Ok? && kernel(CreateAddressSets(false)).Ok?
               then LocalAddresses(interfaces, isGlobalUnicast) else r.localAddresses)
  {
    InstallFollowsPlan(r, LocalAddresses(interfaces, isGlobalUnicast), Rules(r.config), kernel);
  }

  // ---------------------------------------------------------------------------------------------
  // Incremental update

  /** The no-op short-circuit: an update attempts no operation at all exactly when the recomputed list
      equals the recorded one element by element, in order; it then succeeds and changes nothing. */
  lemma UpdateSkipsUnchanged(r: AutoRedirect, interfaces: seq<Interface>, isGlobalUnicast: Classifier, kernel: Kernel)
    ensures var run := UpdateLocalAddressSet(r, interfaces, isGlobalUnicast, kernel);
            && (run.ops == [] <==> LocalAddresses(interfaces, isGlobalUnicast) == r.localAddresses)
            && (run.ops == [] ==> run.result.Ok? && run.next == r)
  {
  }

  /** What an update with a changed list did, in terms of its plan: the plan run up to the first
      failure, then the deferred close whenever the connection opened; the new list recorded exactly
      when the connection, the listing and the set helper succeeded, whatever the commit returned. */
  predicate ReplaceFollows(r: AutoRedirect, current: seq<Prefix>, kernel: Kernel, run: Run)
  {
    var x := Execute(UpdatePlan(r.config, current, r.localAddresses), kernel);
    && run.result == x.result
    && run.ops == x.ops + (if kernel(Open).Ok? then [Close] else [])
    && run.next.localAddresses ==
         (if kernel(Open).Ok? && kernel(ListTable(r.config.tableName, INet)).Ok?
             && kernel(CreateLocalAddressSets(current, r.localAddresses)).Ok?
          then current else r.localAddresses)
  }

  /** A changed list: the update lists the table, hands the new and the recorded list to the set
      helper and commits, stopping at the first failure. */
  lemma UpdateFollowsPlan(r: AutoRedirect, interfaces: seq<Interface>, isGlobalUnicast: Classifier, kernel: Kernel)
    requires LocalAddresses(interfaces, isGlobalUnicast) != r.localAddresses
    ensures ReplaceFollows(r, LocalAddresses(interfaces, isGlobalUnicast), kernel,
                           UpdateLocalAddressSet(r, interfaces, isGlobalUnicast, kernel))
  {
    ReplaceFollowsPlan(r, LocalAddresses(interfaces, isGlobalUnicast), kernel);
  }

  /** The update body follows its plan, for any recomputed list that differs from the recorded one. */
  lemma ReplaceFollowsPlan(r: AutoRedirect, current: seq<Prefix>, kernel: Kernel)
    requires current != r.localAddresses
    ensures ReplaceFollows(r, current, kernel, Replace(r, current, kernel))
  {
    var sets := [ListTable(r.config.tableName, INet), CreateLocalAddressSets(current, r.localAddresses)];
    if kernel(Open).Err? {
      var plan := UpdatePlan(r.config, current, r.localAddresses);
      assert plan[0] == Open;
      assert Execute(plan, kernel) == Execution([Open], kernel(Open));
    } else if Execute(sets, kernel).result.Err? {
      ReplaceSetsFail(r, current, kernel);
    } else {
      ReplaceSetsSucceed(r, current, kernel);
    }
  }

  /** The update's plan after a successful open: the listing and the set helper, then the commit. */
  lemma UpdatePlanStages(r: AutoRedirect, current: seq<Prefix>, kernel: Kernel)
    requires kernel(Open).Ok?
    ensures var sets := [ListTable(r.config.tableName, INet), CreateLocalAddressSets(current, r.localAddresses)];
            var xs := Execute(sets, kernel);
            && Execute(UpdatePlan(r.config, current, r.localAddresses), kernel) ==
                 (if xs.result.Err? then Execution([Open] + xs.ops, xs.result)
                  else Execution([Open] + (sets + Execute([Flush], kernel).ops), Execute([Flush], kernel).result))
            && (xs.result.Ok? <==> kernel(ListTable(r.config.tableName, INet)).Ok?
                                   && kernel(CreateLocalAddressSets(current, r.localAddresses)).Ok?)
            && (xs.result.Ok? ==> xs.ops == sets)
  {
    var sets := [ListTable(r.config.tableName, INet), CreateLocalAddressSets(current, r.localAddresses)];
    assert UpdatePlan(r.config, current, r.localAddresses) == [Open] + (sets + [Flush]);
    ExecuteAppend([Open], sets + [Flush], kernel);
    ExecuteAppend(sets, [Flush], kernel);
    assert sets[1..] == [CreateLocalAddressSets(current, r.localAddresses)];
    assert sets[1..][1..] == [];
  }

  /** Case of ReplaceFollowsPlan: the listing or the set helper fails. */
  lemma ReplaceSetsFail(r: AutoRedirect, current: seq<Prefix>, kernel: Kernel)
    requires current != r.localAddresses
    requires kernel(Open).Ok?
    requires Execute([ListTable(r.config.tableName, INet), CreateLocalAddressSets(current, r.localAddresses)], kernel).result.Err?
    ensures ReplaceFollows(r, current, kernel, Replace(r, current, kernel))
  {
    UpdatePlanStages(r, current, kernel);
    var xs := Execute([ListTable(r.config.tableName, INet), CreateLocalAddressSets(current, r.localAddresses)], kernel);
    assert Execute([Open], kernel) == Execution([Open], Ok);
    assert Replace(r, current, kernel) == Run([Open] + xs.ops + [Close], r, xs.result);
  }

  /** Case of ReplaceFollowsPlan: the set helper succeeded and the commit is attempted. */
  lemma ReplaceSetsSucceed(r: AutoRedirect, current: seq<Prefix>, kernel: Kernel)
    requires current != r.localAddresses
    requires kernel(Open).Ok?
    requires Execute([ListTable(r.config.tableName, INet), CreateLocalAddressSets(current, r.localAddresses)], kernel).result.Ok?
    ensures ReplaceFollows(r, current, kernel, Replace(r, current, kernel))
  {
    UpdatePlanStages(r, current, kernel);
    var sets := [ListTable(r.config.tableName, INet), CreateLocalAddressSets(current, r.localAddresses)];
    var xf := Execute([Flush], kernel);
    assert Execute([Open], kernel) == Execution([Open], Ok);
    assert Replace(r, current, kernel) == Run([Open] + sets + xf.ops + [Close], r.(localAddresses := current), xf.result);
    assert [Open] + sets + xf.ops + [Close] == [Open] + (sets + xf.ops) + [Close];
  }

  /** Setup and update filter the snapshot identically: once setup has created the address sets, an
      update against the same snapshot finds nothing to do and touches neither kernel nor state. */
  lemma SetupThenUpdateIsNoOp(r: AutoRedirect, interfaces: seq<Interface>, isGlobalUnicast: Classifier,
                              setupKernel: Kernel, updateKernel: Kernel)
    requires setupKernel(Open).Ok? && setupKernel(CreateAddressSets(false)).Ok?
    ensures var s := SetupNFTables(r, interfaces, isGlobalUnicast, setupKernel);
            UpdateLocalAddressSet(s.next, interfaces, isGlobalUnicast, updateKernel) == Run([], s.next, Ok)
  {
    SetupRecordsLocalAddresses(r, interfaces, isGlobalUnicast, setupKernel);
  }

  /** The recorded list is replaced before the commit: once the set helper succeeded, repeating the
      update with the same snapshot is a no-op, even when the first update's commit failed. */
  lemma RepeatedUpdateIsNoOp(r: AutoRedirect, interfaces: seq<Interface>, isGlobalUnicast: Classifier,
                             first: Kernel, second: Kernel)
    requires var current := LocalAddresses(interfaces, isGlobalUnicast);
             first(Open).Ok? && first(ListTable(r.config.tableName, INet)).Ok?
             && first(CreateLocalAddressSets(current, r.localAddresses)).Ok?
    ensures var u := UpdateLocalAddressSet(r, interfaces, isGlobalUnicast, first);
            UpdateLocalAddressSet(u.next, interfaces, isGlobalUnicast, second) == Run([], u.next, Ok)
  {
    var current := LocalAddresses(interfaces, isGlobalUnicast);
    if current != r.localAddresses {
      ReplaceFollowsPlan(r, current, first);
    }
  }

  /** The comparison is order-sensitive: the same two prefixes listed in the other order make the
      update open a connection and rewrite the sets. */
  lemma ReorderedSnapshotIsNotANoOp(cfg: Config, kernel: Kernel)
    ensures var p, q := Prefix(Addr(IPv4, 1), 24), Prefix(Addr(IPv4, 2), 24);
            var r := AutoRedirect(cfg, [q, p], true);
            var snapshot := [Interface("eth0", [p]), Interface("eth1", [q])];
            UpdateLocalAddressSet(r, snapshot, _ => true, kernel).ops != []
  {
    var p, q := Prefix(Addr(IPv4, 1), 24), Prefix(Addr(IPv4, 2), 24);
    var g: Classifier := _ => true;
    var snapshot := [Interface("eth0", [p]), Interface("eth1", [q])];
    LocalPrefixesSingle("eth0", p, g);
    LocalPrefixesSingle("eth1", q, g);
    assert snapshot[1..][1..] == [];
    assert LocalAddresses(snapshot[1..], g) == [q];
    assert LocalAddresses(snapshot, g) == [p, q];
    assert [p, q] != [q, p] by {
      assert [p, q][0] != [q, p][0];
    }
    UpdateSkipsUnchanged(AutoRedirect(cfg, [q, p], true), snapshot, g, kernel);
  }

  // ---------------------------------------------------------------------------------------------
  // Route-address update

  /** The route update lists the table, recreates the address sets in update mode and commits,
      returning the first error; it never changes the redirector's state. */
  lemma RouteUpdateFollowsPlan(r: AutoRedirect, kernel: Kernel)
    ensures var run := UpdateRouteAddressSet(r, kernel);
            var x := Execute(RoutePlan(r.config), kernel);
            && run.next == r
            && run.result == x.result
            && run.ops == x.ops + (if kernel(Open).Ok? then [Close] else [])
  {
    var rest := [ListTable(r.config.tableName, INet), CreateAddressSets(true), Flush];
    assert RoutePlan(r.config) == [Open] + rest;
    ExecuteAppend([Open], rest, kernel);
  }

  // ---------------------------------------------------------------------------------------------
  // Teardown

  /** The callback is unregistered exactly when one is registered, and before anything else. */
  lemma CleanupUnregistersFirst(r: AutoRedirect, kernel: Kernel)
    ensures var run := CleanupNFTables(r, kernel);
            && (UnregisterCallback in run.ops <==> r.listening)
            && (r.listening ==> run.ops[0] == UnregisterCallback && UnregisterCallback !in run.ops[1..])
  {
  }

  /** Teardown panics exactly when the connection opened and the OpenWRT revert failed; the table is
      deleted before that revert, and after a panic nothing more is attempted. If the connection
      does not open, it returns silently having attempted nothing on the table. The full trace of
      each case follows: after the optional unregistration, the open, then the deletion and the
      revert, then, unless the revert panicked, the commit and the close. */
  lemma CleanupOrder(r: AutoRedirect, kernel: Kernel)
    ensures var run := CleanupNFTables(r, kernel);
            var del := DelTable(r.config.tableName, INet);
            var unregister := if r.listening then [UnregisterCallback] else [];
            && (kernel(Open).Err? ==> run.ops == unregister + [Open] && run.outcome == Completed)
            && (kernel(Open).Ok? && kernel(ConfigureOpenWRT(true)).Err? ==>
                  run.ops == unregister + [Open, del, ConfigureOpenWRT(true)])
            && (kernel(Open).Ok? && kernel(ConfigureOpenWRT(true)).Ok? ==>
                  run.ops == unregister + [Open, del, ConfigureOpenWRT(true), Flush, Close]
                  && run.outcome == Completed)
            && (run.outcome.Panicked? <==> kernel(Open).Ok? && kernel(ConfigureOpenWRT(true)).Err?)
            && (run.outcome.Panicked? ==> run.outcome.error == kernel(ConfigureOpenWRT(true)).error
                                          && run.ops[|run.ops| - 1] == ConfigureOpenWRT(true)
                                          && Flush !in run.ops)
            && (del in run.ops <==> kernel(Open).Ok?)
            && (kernel(Open).Ok? ==> exists i :: 0 <= i < |run.ops| - 1 && run.ops[i] == del
                                                 && run.ops[i + 1] == ConfigureOpenWRT(true))
            && (kernel(Open).Err? ==> run.ops[|run.ops| - 1] == Open && run.outcome == Completed)
  {
    var run := CleanupNFTables(r, kernel);
    var u := if r.listening then 1 else 0;
    if kernel(Open).Ok? {
      assert run.ops[u + 1] == DelTable(r.config.tableName, INet);
      assert run.ops[u + 2] == ConfigureOpenWRT(true);
    }
  }

  /** The commit and close errors of teardown are ignored: kernels that differ only there produce
      the same teardown. */
  lemma CleanupIgnoresCommitErrors(r: AutoRedirect, k1: Kernel, k2: Kernel)
    requires forall op :: op != Flush && op != Close ==> k1(op) == k2(op)
    ensures CleanupNFTables(r, k1) == CleanupNFTables(r, k2)
  {
    assert k1(Open) == k2(Open);
    assert k1(ConfigureOpenWRT(true)) == k2(ConfigureOpenWRT(true));
  }

  /** After a successful setup, teardown starts by unregistering the callback setup registered. */
  lemma SetupThenCleanupUnregisters(r: AutoRedirect, interfaces: seq<Interface>, isGlobalUnicast: Classifier,
                                    setupKernel: Kernel, cleanupKernel: Kernel)
    requires SetupNFTables(r, interfaces, isGlobalUnicast, setupKernel).result.Ok?
    ensures CleanupNFTables(SetupNFTables(r, interfaces, isGlobalUnicast, setupKernel).next, cleanupKernel).ops[0]
            == UnregisterCallback
  {
  }
}
