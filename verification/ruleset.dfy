/** The ruleset builder: the chains and abstract rules setup appends to the table, in order, and
    views of that list (which chains, which rules per chain) that the properties are stated over. */
module Ruleset {
  import opened Types

  /** nftables' mangle priority (NF_IP_PRI_MANGLE). */
  const Mangle: int := -150

  const OutputChain := Chain("output", HookOutput, Mangle, NatType)
  const OutputUdpChain := Chain("output_udp", HookOutput, Mangle, RouteType)
  const PreroutingChain := Chain("prerouting", HookPrerouting, Mangle, NatType)
  const PreroutingUdpChain := Chain("prerouting_udp", HookPrerouting, Mangle + 1, FilterType)

  const Inet4LocalSet := "inet4_local_address_set"
  const Inet6LocalSet := "inet6_local_address_set"

  /** The output chains are left out when an include list is given without "lo", or "lo" is excluded. */
  predicate SkipOutput(cfg: Config): (skip: bool)
    ensures "lo" in cfg.excludeInterface ==> skip
    ensures "lo" in cfg.includeInterface && "lo" !in cfg.excludeInterface ==> !skip
    ensures cfg.includeInterface == [] ==> (skip <==> "lo" in cfg.excludeInterface)
    ensures |cfg.includeInterface| > 0 && "lo" !in cfg.includeInterface ==> skip
  {
    (|cfg.includeInterface| > 0 && "lo" !in cfg.includeInterface) || "lo" in cfg.excludeInterface
  }

  /** Adding the given rules to the named chain, one AddRule each, in order. */
  function AddRules(name: string, rules: seq<Rule>): (ops: seq<Op>)
  {
    if rules == [] then [] else [AddRule(name, rules[0])] + AddRules(name, rules[1..])
  }

  /** One AddRule per rule, to the named chain, in the rules' order. */
  lemma {:induction false} AddRulesIndex(name: string, rules: seq<Rule>)
    ensures |AddRules(name, rules)| == |rules|
    ensures forall i :: 0 <= i < |rules| ==> AddRules(name, rules)[i] == AddRule(name, rules[i])
  {
    if rules != [] {
      AddRulesIndex(name, rules[1..]);
      var r := AddRules(name, rules);
      forall i | 1 <= i < |rules| ensures r[i] == AddRule(name, rules[i]) {
        assert r[i] == AddRules(name, rules[1..])[i - 1];
      }
    }
  }

  /** Creating a chain and then filling it. */
  function ChainWith(chain: Chain, rules: seq<Rule>): (ops: seq<Op>)
  {
    [AddChain(chain)] + AddRules(chain.name, rules)
  }

  /** The "output" chain and, in mark mode, the "output_udp" chain. */
  function OutputRules(cfg: Config): (ops: seq<Op>)
  {
    if SkipOutput(cfg) then []
    else if cfg.markMode then
      ChainWith(OutputChain, [ExcludeRules, Unreachable, Redirect(Unguarded)])
      + ChainWith(OutputUdpChain, [ExcludeRules, Unreachable, Mark])
    else
      ChainWith(OutputChain, [Redirect(OifNameIs(cfg.tunName))])
  }

  /** The "prerouting" chain, emitted in every mode. */
  function PreroutingRules(): (ops: seq<Op>)
  {
    ChainWith(PreroutingChain, [ExcludeRules, Unreachable, Redirect(Unguarded), Mark])
  }

  /** The "prerouting_udp" chain of mark mode: the destination exclusions of the enabled families,
      then the rule that copies the conntrack mark onto UDP packets. */
  function PreroutingUdpRules(cfg: Config): (ops: seq<Op>)
  {
    if !cfg.markMode then []
    else
      ChainWith(PreroutingUdpChain, UdpRuleList(cfg))
  }

  /** The rules of "prerouting_udp", in order. */
  function UdpRuleList(cfg: Config): (rules: seq<Rule>)
  {
    (if cfg.enableIPv4 then [ExcludeDestSet(TableIPv4, Inet4LocalSet)] else [])
    + (if cfg.enableIPv6 then [ExcludeDestSet(TableIPv6, Inet6LocalSet)] else [])
    + [UdpCtMarkCopy(cfg.inputMark)]
  }

  /** Everything setup adds between the local address sets and the OpenWRT configuration. */
  function Rules(cfg: Config): (ops: seq<Op>)
    ensures 0 < |ops| && ops[0] == AddChain(if SkipOutput(cfg) then PreroutingChain else OutputChain)
  {
    OutputRules(cfg) + PreroutingRules() + PreroutingUdpRules(cfg)
  }

  /** Only chain and rule additions: no connection, commit or callback operation. */
  predicate OnlyChainsAndRules(ops: seq<Op>)
  {
    forall i :: 0 <= i < |ops| ==> ops[i].AddChain? || ops[i].AddRule?
  }

  /** Creating and filling one chain only adds chains and rules. */
  lemma ChainWithIsOnlyChainsAndRules(chain: Chain, rules: seq<Rule>)
    ensures OnlyChainsAndRules(ChainWith(chain, rules))
  {
    var ops := ChainWith(chain, rules);
    AddRulesIndex(chain.name, rules);
    forall i | 1 <= i < |ops| ensures ops[i] == AddRules(chain.name, rules)[i - 1] {}
  }

  /** Concatenating two lists of chain and rule additions gives one. */
  lemma OnlyChainsAndRulesAppend(a: seq<Op>, b: seq<Op>)
    requires OnlyChainsAndRules(a) && OnlyChainsAndRules(b)
    ensures OnlyChainsAndRules(a + b)
  {
  }

  /** The builder's output only adds chains and rules. */
  lemma RulesAreOnlyChainsAndRules(cfg: Config)
    ensures OnlyChainsAndRules(Rules(cfg))
  {
    var output, udp := OutputRules(cfg), PreroutingUdpRules(cfg);
    if !SkipOutput(cfg) {
      if cfg.markMode {
        ChainWithIsOnlyChainsAndRules(OutputChain, [ExcludeRules, Unreachable, Redirect(Unguarded)]);
        ChainWithIsOnlyChainsAndRules(OutputUdpChain, [ExcludeRules, Unreachable, Mark]);
        OnlyChainsAndRulesAppend(ChainWith(OutputChain, [ExcludeRules, Unreachable, Redirect(Unguarded)]),
                                 ChainWith(OutputUdpChain, [ExcludeRules, Unreachable, Mark]));
      } else {
        ChainWithIsOnlyChainsAndRules(OutputChain, [Redirect(OifNameIs(cfg.tunName))]);
      }
    }
    ChainWithIsOnlyChainsAndRules(PreroutingChain, [ExcludeRules, Unreachable, Redirect(Unguarded), Mark]);
    if cfg.markMode {
      ChainWithIsOnlyChainsAndRules(PreroutingUdpChain, UdpRuleList(cfg));
    }
    OnlyChainsAndRulesAppend(output, PreroutingRules());
    OnlyChainsAndRulesAppend(output + PreroutingRules(), udp);
  }

  /** The chains an operation list adds, in order. */
  function Chains(ops: seq<Op>): (chains: seq<Chain>)
  {
    if ops == [] then []
    else (if ops[0].AddChain? then [ops[0].chain] else []) + Chains(ops[1..])
  }

  /** The rules an operation list adds to the named chain, in order. */
  function ChainRules(ops: seq<Op>, name: string): (rules: seq<Rule>)
  {
    if ops == [] then []
    else (if ops[0].AddRule? && ops[0].chainName == name then [ops[0].rule] else []) + ChainRules(ops[1..], name)
  }

  /** The names of a list of chains, in order. */
  function ChainNames(chains: seq<Chain>): (names: seq<string>)
  {
    seq(|chains|, i requires 0 <= i < |chains| => chains[i].name)
  }

  /** The chains of a concatenation are the chains of its parts, in order. */
  lemma {:induction false} ChainsAppend(a: seq<Op>, b: seq<Op>)
    ensures Chains(a + b) == Chains(a) + Chains(b)
  {
    if a == [] {
      assert a + b == b;
    } else {
      assert (a + b)[0] == a[0];
      assert (a + b)[1..] == a[1..] + b;
      ChainsAppend(a[1..], b);
    }
  }

  /** The rules of one chain in a concatenation are its rules in each part, in order. */
  lemma {:induction false} ChainRulesAppend(a: seq<Op>, b: seq<Op>, name: string)
    ensures ChainRules(a + b, name) == ChainRules(a, name) + ChainRules(b, name)
  {
    if a == [] {
      assert a + b == b;
    } else {
      assert (a + b)[0] == a[0];
      assert (a + b)[1..] == a[1..] + b;
      ChainRulesAppend(a[1..], b, name);
    }
  }

  /** Filling a chain adds rules to that chain only, and no chain. */
  lemma {:induction false} AddRulesViews(name: string, rules: seq<Rule>, other: string)
    ensures Chains(AddRules(name, rules)) == []
    ensures ChainRules(AddRules(name, rules), other) == if name == other then rules else []
  {
    if rules != [] {
      AddRulesViews(name, rules[1..], other);
      var ops := AddRules(name, rules);
      assert ops[1..] == AddRules(name, rules[1..]);
      assert rules == [rules[0]] + rules[1..];
    }
  }

  /** Creating and filling one chain adds exactly that chain, and its rules to it alone. */
  lemma ChainWithViews(chain: Chain, rules: seq<Rule>, other: string)
    ensures Chains(ChainWith(chain, rules)) == [chain]
    ensures ChainRules(ChainWith(chain, rules), other) == if chain.name == other then rules else []
  {
    var ops := ChainWith(chain, rules);
    assert ops[1..] == AddRules(chain.name, rules);
    AddRulesViews(chain.name, rules, other);
  }

  /** The chains of the output part of the builder. */
  lemma OutputRulesChains(cfg: Config)
    ensures Chains(OutputRules(cfg)) ==
              (if SkipOutput(cfg) then []
               else if cfg.markMode then [OutputChain, OutputUdpChain]
               else [OutputChain])
  {
    if !SkipOutput(cfg) {
      if cfg.markMode {
        ChainsAppend(ChainWith(OutputChain, [ExcludeRules, Unreachable, Redirect(Unguarded)]),
                     ChainWith(OutputUdpChain, [ExcludeRules, Unreachable, Mark]));
        ChainWithViews(OutputChain, [ExcludeRules, Unreachable, Redirect(Unguarded)], "");
        ChainWithViews(OutputUdpChain, [ExcludeRules, Unreachable, Mark], "");
      } else {
        ChainWithViews(OutputChain, [Redirect(OifNameIs(cfg.tunName))], "");
      }
    }
  }

  /** The chains setup creates, with hook, priority and type, in creation order: the output chains
      unless suppressed, then "prerouting", then "prerouting_udp" exactly in mark mode. */
  lemma {:induction false} ChainsByMode(cfg: Config)
    ensures Chains(Rules(cfg)) ==
              (if SkipOutput(cfg) then []
               else if cfg.markMode then [OutputChain, OutputUdpChain]
               else [OutputChain])
              + [PreroutingChain]
              + (if cfg.markMode then [PreroutingUdpChain] else [])
  {
    var out, pre, udp := OutputRules(cfg), PreroutingRules(), PreroutingUdpRules(cfg);
    OutputRulesChains(cfg);
    ChainWithViews(PreroutingChain, [ExcludeRules, Unreachable, Redirect(Unguarded), Mark], "");
    if cfg.markMode {
      ChainWithViews(PreroutingUdpChain, UdpRuleList(cfg), "");
    }
    ChainsAppend(out + pre, udp);
    ChainsAppend(out, pre);
  }

  /** The output chains are present exactly when they are not suppressed; "prerouting" always is. */
  lemma {:induction false} OutputSuppression(cfg: Config)
    ensures var names := ChainNames(Chains(Rules(cfg)));
            && ("output" in names <==> !SkipOutput(cfg))
            && ("output_udp" in names <==> !SkipOutput(cfg) && cfg.markMode)
            && "prerouting" in names
  {
    if SkipOutput(cfg) {
      SuppressedOutputChains(cfg);
    } else if cfg.markMode {
      MarkModeChains(cfg);
    } else {
      SimpleModeChains(cfg);
    }
  }

  lemma SuppressedOutputChains(cfg: Config)
    requires SkipOutput(cfg)
    ensures var names := ChainNames(Chains(Rules(cfg)));
            "output" !in names && "output_udp" !in names && "prerouting" in names
  {
    ChainsByMode(cfg);
    var chains := Chains(Rules(cfg));
    assert chains == [PreroutingChain] + (if cfg.markMode then [PreroutingUdpChain] else []);
    assert ChainNames(chains) == if cfg.markMode then ["prerouting", "prerouting_udp"] else ["prerouting"];
  }

  /** Mark mode creates four chains, the output pair first. */
  lemma MarkModeChains(cfg: Config)
    requires !SkipOutput(cfg) && cfg.markMode
    ensures ChainNames(Chains(Rules(cfg))) == ["output", "output_udp", "prerouting", "prerouting_udp"]
  {
    ChainsByMode(cfg);
    var chains := Chains(Rules(cfg));
    assert chains == [OutputChain, OutputUdpChain] + [PreroutingChain] + [PreroutingUdpChain];
    MarkModeNames(chains);
  }

  /** Simple mode creates "output" and "prerouting" only. */
  lemma SimpleModeChains(cfg: Config)
    requires !SkipOutput(cfg) && !cfg.markMode
    ensures ChainNames(Chains(Rules(cfg))) == ["output", "prerouting"]
  {
    ChainsByMode(cfg);
    var chains := Chains(Rules(cfg));
    assert chains == [OutputChain, PreroutingChain];
    assert ChainNames(chains) == ["output", "prerouting"];
  }

  /** The names of the mark-mode chain list. Stated apart from MarkModeChains, whose context makes
      this step expensive for the solver. */
  lemma MarkModeNames(chains: seq<Chain>)
    requires chains == [OutputChain, OutputUdpChain, PreroutingChain, PreroutingUdpChain]
    ensures ChainNames(chains) == ["output", "output_udp", "prerouting", "prerouting_udp"]
  {
  }

  /** Mark mode: "output" holds the exclusions, the unreachable short-circuit and an unguarded
      redirect; "output_udp" the exclusions, the short-circuit and the mark. */
  lemma {:induction false} MarkModeOutputRules(cfg: Config)
    requires cfg.markMode && !SkipOutput(cfg)
    ensures ChainRules(Rules(cfg), "output") == [ExcludeRules, Unreachable, Redirect(Unguarded)]
    ensures ChainRules(Rules(cfg), "output_udp") == [ExcludeRules, Unreachable, Mark]
  {
    RulesOfChain(cfg, "output");
    RulesOfChain(cfg, "output_udp");
  }

  /** Simple mode: "output" holds a single redirect guarded by the tun interface name, and no
      UDP chain is created. */
  lemma {:induction false} SimpleModeOutputRules(cfg: Config)
    requires !cfg.markMode && !SkipOutput(cfg)
    ensures ChainRules(Rules(cfg), "output") == [Redirect(OifNameIs(cfg.tunName))]
    ensures ChainRules(Rules(cfg), "output_udp") == []
    ensures ChainRules(Rules(cfg), "prerouting_udp") == []
  {
    RulesOfChain(cfg, "output");
    RulesOfChain(cfg, "output_udp");
    RulesOfChain(cfg, "prerouting_udp");
  }

  /** Suppressed output: no rule goes to an output chain. */
  lemma {:induction false} SuppressedOutputRules(cfg: Config)
    requires SkipOutput(cfg)
    ensures ChainRules(Rules(cfg), "output") == []
    ensures ChainRules(Rules(cfg), "output_udp") == []
  {
    RulesOfChain(cfg, "output");
    RulesOfChain(cfg, "output_udp");
  }

  /** "prerouting" holds exclusions, the short-circuit, redirect and mark, in that order, in every mode. */
  lemma {:induction false} PreroutingChainRules(cfg: Config)
    ensures ChainRules(Rules(cfg), "prerouting") == [ExcludeRules, Unreachable, Redirect(Unguarded), Mark]
  {
    RulesOfChain(cfg, "prerouting");
  }

  /** "prerouting_udp" holds the IPv4 destination exclusion if IPv4 is on, then the IPv6 one if IPv6
      is on, then the conntrack-mark copy for UDP; it is empty outside mark mode. */
  lemma {:induction false} PreroutingUdpChainRules(cfg: Config)
    ensures ChainRules(Rules(cfg), "prerouting_udp") ==
              (if !cfg.markMode then []
               else (if cfg.enableIPv4 then [ExcludeDestSet(TableIPv4, Inet4LocalSet)] else [])
                    + (if cfg.enableIPv6 then [ExcludeDestSet(TableIPv6, Inet6LocalSet)] else [])
                    + [UdpCtMarkCopy(cfg.inputMark)])
  {
    RulesOfChain(cfg, "prerouting_udp");
  }

  /** The rules of one chain, gathered from the three parts of the builder. */
  lemma {:induction false} RulesOfChain(cfg: Config, name: string)
    ensures ChainRules(Rules(cfg), name) ==
              OutputRulesOf(cfg, name)
              + (if name == "prerouting" then [ExcludeRules, Unreachable, Redirect(Unguarded), Mark] else [])
              + (if cfg.markMode && name == "prerouting_udp" then UdpRuleList(cfg) else [])
  {
    var out, pre, udp := OutputRules(cfg), PreroutingRules(), PreroutingUdpRules(cfg);
    OutputRulesOfChain(cfg, name);
    ChainWithViews(PreroutingChain, [ExcludeRules, Unreachable, Redirect(Unguarded), Mark], name);
    if cfg.markMode {
      ChainWithViews(PreroutingUdpChain, UdpRuleList(cfg), name);
    }
    ChainRulesAppend(out + pre, udp, name);
    ChainRulesAppend(out, pre, name);
  }

  /** What the output part of the builder adds to the named chain. */
  function OutputRulesOf(cfg: Config, name: string): (rules: seq<Rule>)
  {
    if SkipOutput(cfg) then []
    else if cfg.markMode then
      (if name == "output" then [ExcludeRules, Unreachable, Redirect(Unguarded)] else [])
      + (if name == "output_udp" then [ExcludeRules, Unreachable, Mark] else [])
    else if name == "output" then [Redirect(OifNameIs(cfg.tunName))] else []
  }

  /** The output part of the builder adds exactly OutputRulesOf to each chain. */
  lemma OutputRulesOfChain(cfg: Config, name: string)
    ensures ChainRules(OutputRules(cfg), name) == OutputRulesOf(cfg, name)
  {
    if !SkipOutput(cfg) {
      if cfg.markMode {
        ChainRulesAppend(ChainWith(OutputChain, [ExcludeRules, Unreachable, Redirect(Unguarded)]),
                         ChainWith(OutputUdpChain, [ExcludeRules, Unreachable, Mark]), name);
        ChainWithViews(OutputChain, [ExcludeRules, Unreachable, Redirect(Unguarded)], name);
        ChainWithViews(OutputUdpChain, [ExcludeRules, Unreachable, Mark], name);
      } else {
        ChainWithViews(OutputChain, [Redirect(OifNameIs(cfg.tunName))], name);
      }
    }
  }

  /** Each of the given chains created and then filled with the rules an operation list adds to it,
      chain after chain. */
  function Grouped(chains: seq<Chain>, ops: seq<Op>): (grouped: seq<Op>)
  {
    if chains == [] then []
    else ChainWith(chains[0], ChainRules(ops, chains[0].name)) + Grouped(chains[1..], ops)
  }

  /** Grouping a concatenation of chain lists groups each part in turn. */
  lemma {:induction false} GroupedAppend(a: seq<Chain>, b: seq<Chain>, ops: seq<Op>)
    ensures Grouped(a + b, ops) == Grouped(a, ops) + Grouped(b, ops)
  {
    if a == [] {
      assert a + b == b;
    } else {
      var head := ChainWith(a[0], ChainRules(ops, a[0].name));
      assert (a + b)[0] == a[0];
      assert (a + b)[1..] == a[1..] + b;
      GroupedAppend(a[1..], b, ops);
      assert Grouped(a + b, ops) == head + Grouped(a[1..] + b, ops);
      assert Grouped(a, ops) == head + Grouped(a[1..], ops);
    }
  }

  /** Grouping a single chain creates it and fills it. */
  lemma GroupedSingle(chain: Chain, ops: seq<Op>)
    ensures Grouped([chain], ops) == ChainWith(chain, ChainRules(ops, chain.name))
  {
    assert [chain][1..] == [];
  }

  /** The output part of the builder fills each of its chains right after creating it. */
  lemma OutputRulesGrouped(cfg: Config)
    ensures Grouped(Chains(OutputRules(cfg)), Rules(cfg)) == OutputRules(cfg)
  {
    OutputRulesChains(cfg);
    if !SkipOutput(cfg) {
      if cfg.markMode {
        MarkModeOutputRules(cfg);
        GroupedAppend([OutputChain], [OutputUdpChain], Rules(cfg));
        assert [OutputChain] + [OutputUdpChain] == [OutputChain, OutputUdpChain];
        GroupedSingle(OutputChain, Rules(cfg));
        GroupedSingle(OutputUdpChain, Rules(cfg));
      } else {
        SimpleModeOutputRules(cfg);
        GroupedSingle(OutputChain, Rules(cfg));
      }
    }
  }

  /** The "prerouting" part of the builder fills its chain right after creating it. */
  lemma PreroutingRulesGrouped(cfg: Config)
    ensures Grouped(Chains(PreroutingRules()), Rules(cfg)) == PreroutingRules()
  {
    ChainWithViews(PreroutingChain, [ExcludeRules, Unreachable, Redirect(Unguarded), Mark], "");
    PreroutingChainRules(cfg);
    GroupedSingle(PreroutingChain, Rules(cfg));
  }

  /** The "prerouting_udp" part of the builder fills its chain right after creating it. */
  lemma PreroutingUdpRulesGrouped(cfg: Config)
    ensures Grouped(Chains(PreroutingUdpRules(cfg)), Rules(cfg)) == PreroutingUdpRules(cfg)
  {
    if cfg.markMode {
      ChainWithViews(PreroutingUdpChain, UdpRuleList(cfg), "");
      PreroutingUdpChainRules(cfg);
      GroupedSingle(PreroutingUdpChain, Rules(cfg));
    }
  }

  /** Every chain is filled right after it is created and before the next one is: the builder's
      output is exactly its chains, in creation order, each followed by all of its rules. */
  lemma {:induction false} RulesGroupedByChain(cfg: Config)
    ensures Rules(cfg) == Grouped(Chains(Rules(cfg)), Rules(cfg))
  {
    var out, pre, udp := OutputRules(cfg), PreroutingRules(), PreroutingUdpRules(cfg);
    var ops := Rules(cfg);
    ChainsAppend(out + pre, udp);
    ChainsAppend(out, pre);
    GroupedAppend(Chains(out) + Chains(pre), Chains(udp), ops);
    GroupedAppend(Chains(out), Chains(pre), ops);
    OutputRulesGrouped(cfg);
    PreroutingRulesGrouped(cfg);
    PreroutingUdpRulesGrouped(cfg);
  }
}
