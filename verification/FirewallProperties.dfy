/**
 What the firewall commands achieve: the verdict an applied policy gives every
 packet, who stays connected while the commands run, and what survives any
 sequence of applies and rollbacks.
 */
module FirewallProperties {
  import opened Iptables
  import opened NodeFirewalls

  // ----- the policy, read directly --------------------------------------------

  predicate Whitelisted(whitelist: seq<Source>, p: Packet) {
    exists i :: 0 <= i < |whitelist| && whitelist[i].Net? && InSource(whitelist[i], p.src)
  }

  /** Packets that a layer lets through whatever its policy says; the host's leaves SSH open. */
  predicate Protected(layer: Layer, p: Packet) {
    p.established || p.loopback || (layer.Host? && p.proto == "tcp" && p.dport == 22)
  }

  /** Packets no rule may turn away. */
  predicate Trusted(layer: Layer, policy: Policy, p: Packet) {
    Protected(layer, p) || Whitelisted(policy.whitelist, p)
  }

  predicate HasPort(r: RuleParam) {
    r.portStart.PortNumber? && r.portStart.value > 0 && r.protocol != ""
  }

  predicate PortFits(r: RuleParam, port: int) {
    HasPort(r) ==>
      r.portStart.value <= port &&
      (port == r.portStart.value || (r.portEnd.PortNumber? && port <= r.portEnd.value))
  }

  /** What iptables takes: known protocols, ports with a protocol that has them, networks it can read. */
  predicate Readable(r: RuleParam) {
    !r.source.Malformed? && (r.source.Net? ==> r.source.bits <= 32) && (r.protocol == "" || r.protocol in PROTOCOLS) &&
    (HasPort(r) ==>
      r.protocol in PORT_PROTOCOLS && r.portStart.value <= 65535 &&
      (r.portEnd.PortNumber? && r.portEnd.value >= r.portStart.value ==> r.portEnd.value <= 65535))
  }

  /** A rule that iptables refuses takes no part; otherwise protocol, port and source must fit. */
  predicate Applies(r: RuleParam, p: Packet) {
    Readable(r) && (r.protocol in {"", "all"} || r.protocol == p.proto) &&
    PortFits(r, p.dport) && (r.source.Net? ==> InSource(r.source, p.src))
  }

  function FirstAction(rules: seq<RuleParam>, p: Packet): Decision {
    if rules == [] then Undecided
    else if Applies(rules[0], p) then Decided(if rules[0].action in {"allow", "accept"} then Accept else Drop)
    else FirstAction(rules[1..], p)
  }

  function PolicyDecision(layer: Layer, policy: Policy, p: Packet): Decision {
    if Trusted(layer, policy, p) then Decided(Accept) else FirstAction(policy.rules, p)
  }

  // ----- compilation is correct -----------------------------------------------

  predicate AllAccept(rules: seq<Rule>) {
    forall i | 0 <= i < |rules| :: rules[i].target == Accept
  }

  lemma {:induction false} AcceptingChain(rules: seq<Rule>, p: Packet)
    requires AllAccept(rules)
    ensures ChainDecision(rules, p) != Decided(Drop)
  {
    if rules != [] {
      AcceptingChain(rules[1..], p);
    }
  }

  lemma {:induction false} WhitelistAccepts(whitelist: seq<Source>, p: Packet)
    ensures AllAccept(WhitelistRules(whitelist))
    ensures ChainDecision(Kept(WhitelistRules(whitelist)), p) ==
            if Whitelisted(whitelist, p) then Decided(Accept) else Undecided
  {
    if whitelist != [] {
      var front, last := whitelist[..|whitelist| - 1], whitelist[|whitelist| - 1];
      WhitelistAccepts(front, p);
      assert Whitelisted(whitelist, p) <==> Whitelisted(front, p) || (last.Net? && InSource(last, p.src));
      var tail := if last.Blank? then [] else [WhitelistRule(last)];
      KeptConcat(WhitelistRules(front), tail);
      DecisionConcat(Kept(WhitelistRules(front)), Kept(tail), p);
      EntryAccepts(last, p);
    }
  }

  lemma EntryAccepts(s: Source, p: Packet)
    ensures var tail := if s.Blank? then [] else [WhitelistRule(s)];
            ChainDecision(Kept(tail), p) == if s.Net? && InSource(s, p.src) then Decided(Accept) else Undecided
  {
    var r := WhitelistRule(s);
    assert [r][1..] == [];
    assert Kept([r]) == if Accepted(r.match_) then [r] else [];
    assert ChainDecision([r], p) == if Matches(r.match_, p) then Decided(Accept) else Undecided;
  }

  lemma {:induction false} RulesDecide(rules: seq<RuleParam>, p: Packet)
    ensures ChainDecision(Kept(PolicyRules(rules)), p) == FirstAction(rules, p)
  {
    if rules != [] {
      var r := RuleOf(rules[0]);
      RulesDecide(rules[1..], p);
      assert PolicyRules(rules) == [r] + PolicyRules(rules[1..]);
      assert (Kept(PolicyRules(rules)))[0..] == Kept(PolicyRules(rules));
      assert Accepted(r.match_) <==> Readable(rules[0]);
      if Accepted(r.match_) {
        assert Kept(PolicyRules(rules))[1..] == Kept(PolicyRules(rules[1..]));
        assert Matches(r.match_, p) <==> Applies(rules[0], p);
      }
    }
  }

  lemma OneRule(r: Rule, p: Packet)
    requires Accepted(r.match_)
    ensures Kept([r]) == [r] && ChainDecision([r], p) == if Matches(r.match_, p) then Decided(r.target) else Undecided
  {
    assert [r][1..] == [];
  }

  lemma NodePreambleDecides(p: Packet)
    ensures Kept(NODE_PREAMBLE) == NODE_PREAMBLE && AllAccept(NODE_PREAMBLE)
    ensures ChainDecision(NODE_PREAMBLE, p) == if Protected(Node, p) then Decided(Accept) else Undecided
  {
    OneRule(ESTABLISHED, p);
    OneRule(LOOPBACK, p);
    assert NODE_PREAMBLE == [ESTABLISHED] + [LOOPBACK];
    KeptConcat([ESTABLISHED], [LOOPBACK]);
    DecisionConcat([ESTABLISHED], [LOOPBACK], p);
  }

  lemma PreambleDecides(layer: Layer, p: Packet)
    ensures Kept(PreambleOf(layer)) == PreambleOf(layer) && AllAccept(PreambleOf(layer))
    ensures ChainDecision(PreambleOf(layer), p) == if Protected(layer, p) then Decided(Accept) else Undecided
  {
    NodePreambleDecides(p);
    if layer.Host? {
      OneRule(SSH, p);
      assert HOST_PREAMBLE == NODE_PREAMBLE + [SSH];
      KeptConcat(NODE_PREAMBLE, [SSH]);
      DecisionConcat(NODE_PREAMBLE, [SSH], p);
    }
  }

  /** The chain that an apply builds decides every packet the way the policy reads. */
  lemma ChainCompiles(layer: Layer, policy: Policy, p: Packet)
    ensures ChainDecision(Filled(ChainRules(PreambleOf(layer), policy)), p) == PolicyDecision(layer, policy, p)
  {
    var pre, w, r := PreambleOf(layer), WhitelistRules(policy.whitelist), PolicyRules(policy.rules);
    AddIfAbsentIsTransparent(ChainRules(pre, policy), p);
    KeptConcat(pre + w, r);
    KeptConcat(pre, w);
    DecisionConcat(Kept(pre) + Kept(w), Kept(r), p);
    DecisionConcat(Kept(pre), Kept(w), p);
    PreambleDecides(layer, p);
    WhitelistAccepts(policy.whitelist, p);
    RulesDecide(policy.rules, p);
  }

  lemma StartResult(t: Table, chain: string)
    ensures Fill(chain, []) == [NewChain(chain), Flush(chain)]
    ensures RunAll(t, Fill(chain, [])) == t.(chains := t.chains[chain := []])
  {
    FillNone(t, chain);
  }

  lemma FillResult(t: Table, chain: string, rules: seq<Rule>)
    ensures RunAll(t, Fill(chain, rules)) == t.(chains := t.chains[chain := Filled(rules)])
  {
    var adds := Adds(chain, rules);
    StartResult(t, chain);
    RunConcat(t, Fill(chain, []), adds);
    FillSplit(chain, rules);
    RunOnStart(t, chain, rules);
  }

  lemma FillSplit(chain: string, rules: seq<Rule>)
    ensures Fill(chain, rules) == Fill(chain, []) + Adds(chain, rules)
  {
  }

  lemma RunOnStart(t: Table, chain: string, rules: seq<Rule>)
    ensures RunAll(t.(chains := t.chains[chain := []]), Adds(chain, rules)) == t.(chains := t.chains[chain := Filled(rules)])
  {
    var start := t.(chains := t.chains[chain := []]);
    AddsFill(start, chain, rules);
    assert start.chains[chain := Filled(rules)] == t.chains[chain := Filled(rules)];
  }

  /** INPUT's policy afterwards: only the node baseline sets it. */
  function PolicyAfter(layer: Layer, policy: Policy, was: Verdict): Verdict {
    if layer.Host? then was
    else if policy.enabled && policy.defaultAction in {"drop", "deny"} then Drop
    else Accept
  }

  function JumpIf(layer: Layer, policy: Policy): seq<InputRule> {
    if policy.enabled then [Jump(ChainOf(layer))] else []
  }

  lemma ApplyResult(t: Table, layer: Layer, policy: Policy)
    ensures RunAll(t, CommandsFor(layer, policy)) ==
            Table(t.chains[ChainOf(layer) := Filled(ChainRules(PreambleOf(layer), policy))],
                  JumpIf(layer, policy) + WithoutJump(t.input, ChainOf(layer)),
                  PolicyAfter(layer, policy, t.policy))
  {
    var fill := FillOf(layer, policy);
    FillResult(t, ChainOf(layer), ChainRules(PreambleOf(layer), policy));
    RunConcat(t, fill, HookOf(layer, policy));
    HookResult(RunAll(t, fill), layer, policy);
  }

  lemma HookResult(t: Table, layer: Layer, policy: Policy)
    requires ChainOf(layer) in t.chains
    ensures RunAll(t, HookOf(layer, policy)) ==
            t.(input := JumpIf(layer, policy) + WithoutJump(t.input, ChainOf(layer)),
               policy := PolicyAfter(layer, policy, t.policy))
  {
    var hook := HookOf(layer, policy);
    RejumpResult(t, layer, policy);
    if layer.Host? {
      assert hook == Rejump(layer, policy);
    } else {
      var verdict := if policy.enabled then DefaultOf(policy) else Accept;
      assert hook == Rejump(layer, policy) + [SetPolicy(verdict)];
      RunOne(t, Rejump(layer, policy), SetPolicy(verdict));
    }
  }

  lemma RejumpResult(t: Table, layer: Layer, policy: Policy)
    requires ChainOf(layer) in t.chains
    ensures RunAll(t, Rejump(layer, policy)) == t.(input := JumpIf(layer, policy) + WithoutJump(t.input, ChainOf(layer)))
  {
    var c := ChainOf(layer);
    RunOne(t, [], DeleteJump(c));
    assert [] + [DeleteJump(c)] == [DeleteJump(c)];
    if policy.enabled {
      RunOne(t, [DeleteJump(c)], InsertJump(c));
    } else {
      assert [DeleteJump(c)] + [] == [DeleteJump(c)] && [] + WithoutJump(t.input, c) == WithoutJump(t.input, c);
    }
  }

  /**
   The verdict of a successful apply: what an enabled policy decides, and for the
   packets it leaves open, or when it is disabled, the rest of INPUT, with the chosen
   default for the node baseline and the default there was for the host protection.
   */
  lemma ApplyGivesPolicyVerdict(t: Table, layer: Layer, policy: Policy, p: Packet)
    requires JumpCount(t.input, ChainOf(layer)) <= 1
    ensures VerdictOf(RunAll(t, CommandsFor(layer, policy)), p) ==
            match (if policy.enabled then PolicyDecision(layer, policy, p) else Undecided)
            case Decided(v) => v
            case Undecided => InputVerdict(t.chains, WithoutJump(t.input, ChainOf(layer)), PolicyAfter(layer, policy, t.policy), p)
  {
    var c, t' := ChainOf(layer), RunAll(t, CommandsFor(layer, policy));
    ApplyResult(t, layer, policy);
    ChainCompiles(layer, policy, p);
    WithoutJumpCount(t.input, c, c);
    assert if policy.enabled then t'.input[1..] == WithoutJump(t.input, c) else t'.input == WithoutJump(t.input, c);
    assert t'.chains - {c} == t.chains - {c};
    UnreferencedChain(t.chains, t'.chains, c, WithoutJump(t.input, c), t'.policy, p);
  }

  /** The first rule that applies to a packet nobody has to let through. */
  predicate FirstToApply(policy: Policy, p: Packet, i: nat) {
    i < |policy.rules| && Applies(policy.rules[i], p) && forall k | 0 <= k < i :: !Applies(policy.rules[k], p)
  }

  /** After an enabled apply that rule's action is the verdict: allow and accept open, every other word closes. */
  lemma FirstRuleDecides(t: Table, layer: Layer, policy: Policy, p: Packet, i: nat)
    requires policy.enabled && JumpCount(t.input, ChainOf(layer)) <= 1
    requires !Trusted(layer, policy, p) && FirstToApply(policy, p, i)
    ensures VerdictOf(RunAll(t, CommandsFor(layer, policy)), p) == Accept <==>
              policy.rules[i].action == "allow" || policy.rules[i].action == "accept"
  {
    ApplyGivesPolicyVerdict(t, layer, policy, p);
    FirstActionAt(policy.rules, p, i);
  }

  lemma {:induction false} FirstActionAt(rules: seq<RuleParam>, p: Packet, i: nat)
    requires i < |rules| && Applies(rules[i], p) && forall k | 0 <= k < i :: !Applies(rules[k], p)
    ensures FirstAction(rules, p) == Decided(if rules[i].action in {"allow", "accept"} then Accept else Drop)
  {
    if i > 0 {
      assert rules[1..][i - 1] == rules[i] && forall k | 0 <= k < i - 1 :: rules[1..][k] == rules[k + 1];
      FirstActionAt(rules[1..], p, i - 1);
    }
  }

  // ----- nobody trusted is cut off while the commands run ----------------------

  /** What INPUT says without the jump to the chain. */
  function Rest(t: Table, chain: string, p: Packet): Verdict {
    InputVerdict(t.chains, WithoutJump(t.input, chain), t.policy, p)
  }

  /** A chain that cannot drop p can only add acceptance to what the rest of INPUT says. */
  lemma {:induction false} HarmlessChain(
      chains: map<string, seq<Rule>>, chains': map<string, seq<Rule>>, chain: string, input: seq<InputRule>,
      policy: Verdict, p: Packet)
    requires chains - {chain} == chains' - {chain} && JumpCount(input, chain) <= 1
    requires RuleDecision(chains', Jump(chain), p) != Decided(Drop)
    requires InputVerdict(chains, WithoutJump(input, chain), policy, p) == Accept
    ensures InputVerdict(chains', input, policy, p) == Accept
  {
    if input != [] {
      if input[0] == Jump(chain) {
        UnreferencedChain(chains, chains', chain, input[1..], policy, p);
      } else {
        var w := WithoutJump(input, chain);
        assert w[1..] == WithoutJump(input[1..], chain);
        UnreferencedChain(chains, chains', chain, [input[0]], policy, p);
        assert [input[0]][1..] == [];
        SameDecision(chains, chains', chain, input[0], p);
        if RuleDecision(chains, input[0], p).Undecided? {
          HarmlessChain(chains, chains', chain, input[1..], policy, p);
        }
      }
    }
  }

  lemma SameDecision(
      chains: map<string, seq<Rule>>, chains': map<string, seq<Rule>>, chain: string, r: InputRule, p: Packet)
    requires chains - {chain} == chains' - {chain} && r != Jump(chain)
    ensures RuleDecision(chains, r, p) == RuleDecision(chains', r, p)
  {
    match r {
      case Jump(c) =>
        assert c in chains - {chain} <==> c in chains;
        assert c in chains' - {chain} <==> c in chains';
        if c in chains {
          assert (chains - {chain})[c] == (chains' - {chain})[c];
        }
      case Foreign(_) =>
    }
  }

  /** At no moment of the filling does the chain drop a trusted packet. */
  lemma PartialChainHarmless(layer: Layer, policy: Policy, k: nat, p: Packet)
    requires Trusted(layer, policy, p) && k <= |ChainRules(PreambleOf(layer), policy)|
    ensures ChainDecision(Filled(ChainRules(PreambleOf(layer), policy)[..k]), p) != Decided(Drop)
  {
    var pre, w, r := PreambleOf(layer), WhitelistRules(policy.whitelist), PolicyRules(policy.rules);
    var head, rules := pre + w, ChainRules(pre, policy);
    AddIfAbsentIsTransparent(rules[..k], p);
    PreambleDecides(layer, p);
    WhitelistAccepts(policy.whitelist, p);
    if k <= |head| {
      assert rules[..k] == head[..k] && AllAccept(head[..k]);
      KeptAccept(head[..k]);
      AcceptingChain(Kept(head[..k]), p);
    } else {
      assert rules[..k] == head + r[..k - |head|];
      KeptConcat(head, r[..k - |head|]);
      KeptConcat(pre, w);
      DecisionConcat(Kept(head), Kept(r[..k - |head|]), p);
      DecisionConcat(Kept(pre), Kept(w), p);
    }
  }

  lemma {:induction false} KeptAccept(rules: seq<Rule>)
    requires AllAccept(rules)
    ensures AllAccept(Kept(rules))
  {
    if rules != [] {
      KeptAccept(rules[1..]);
    }
  }

  lemma FillPrefix(t: Table, c: string, rules: seq<Rule>, k: nat)
    requires k <= |Fill(c, rules)|
    ensures var t' := RunAll(t, Fill(c, rules)[..k]);
            t'.input == t.input && t'.policy == t.policy && t'.chains - {c} == t.chains - {c} &&
            (k >= 2 ==> t'.chains == t.chains[c := Filled(rules[..k - 2])])
  {
    if k >= 2 {
      assert Fill(c, rules)[..k] == Fill(c, rules[..k - 2]);
      FillResult(t, c, rules[..k - 2]);
    } else if k == 1 {
      assert Fill(c, rules)[..0] == [];
      PrefixStep(t, Fill(c, rules), 0);
    }
  }

  /** While the chain is being filled, a packet that the rest of INPUT accepts stays accepted. */
  lemma FillingKeepsTrusted(t: Table, layer: Layer, policy: Policy, k: nat, p: Packet)
    requires JumpCount(t.input, ChainOf(layer)) <= 1 && Trusted(layer, policy, p)
    requires Rest(t, ChainOf(layer), p) == Accept && VerdictOf(t, p) == Accept
    requires k <= |FillOf(layer, policy)|
    ensures VerdictOf(RunAll(t, FillOf(layer, policy)[..k]), p) == Accept
  {
    var c, rules := ChainOf(layer), ChainRules(PreambleOf(layer), policy);
    var t' := RunAll(t, Fill(c, rules)[..k]);
    FillPrefix(t, c, rules, k);
    if k == 0 {
      assert Fill(c, rules)[..0] == [];
    } else if k == 1 {
      PrefixStep(t, Fill(c, rules), 0);
      assert Fill(c, rules)[..0] == [];
      if c !in t.chains {
        EmptyChain(t, c, p);
      }
    } else {
      PartialChainHarmless(layer, policy, k - 2, p);
      HarmlessChain(t.chains, t'.chains, c, t.input, t.policy, p);
    }
  }

  lemma EmptyChain(t: Table, c: string, p: Packet)
    requires c !in t.chains && JumpCount(t.input, c) <= 1 && Rest(t, c, p) == Accept
    ensures InputVerdict(t.chains[c := []], t.input, t.policy, p) == Accept
  {
    assert t.chains[c := []] - {c} == t.chains - {c};
    HarmlessChain(t.chains, t.chains[c := []], c, t.input, t.policy, p);
  }

  lemma {:induction false} LooserPolicy(chains: map<string, seq<Rule>>, input: seq<InputRule>, policy: Verdict, p: Packet)
    requires InputVerdict(chains, input, policy, p) == Accept
    ensures InputVerdict(chains, input, Accept, p) == Accept
  {
    if input != [] && RuleDecision(chains, input[0], p).Undecided? {
      LooserPolicy(chains, input[1..], policy, p);
    }
  }

  /** Unhooked, hooked in again, tightened: accepted at each of the three. */
  lemma HookingKeepsTrusted(t: Table, layer: Layer, policy: Policy, k: nat, p: Packet)
    requires ChainOf(layer) in t.chains && JumpCount(t.input, ChainOf(layer)) <= 1 && Rest(t, ChainOf(layer), p) == Accept
    requires ChainDecision(t.chains[ChainOf(layer)], p) == Decided(Accept)
    requires 1 <= k <= |HookOf(layer, policy)|
    ensures VerdictOf(RunAll(t, HookOf(layer, policy)[..k]), p) == Accept
  {
    var c, hook := ChainOf(layer), HookOf(layer, policy);
    assert hook[..1] == [DeleteJump(c)] && [] + [DeleteJump(c)] == [DeleteJump(c)];
    RunOne(t, [], DeleteJump(c));
    if k > 1 {
      RejumpResult(t, layer, policy);
      HookResult(t, layer, policy);
      LooserPolicy(t.chains, WithoutJump(t.input, c), t.policy, p);
      if k == |hook| {
        assert hook[..k] == hook;
      } else {
        assert hook[..k] == Rejump(layer, policy);
      }
    }
  }

  ghost predicate AcceptedThroughout(t: Table, cmds: seq<Cmd>, p: Packet) {
    forall k | 0 <= k <= |cmds| :: VerdictOf(RunAll(t, cmds[..k]), p) == Accept
  }

  /**
   "Write first, tighten afterwards": a trusted packet is accepted after every
   single command exactly when it was accepted before and the rest of INPUT, under
   the policy in force before, accepts it too. The second half is what a live chain
   is flushed and unhooked in front of.
   */
  lemma TrustedStaysConnectedExactly(t: Table, layer: Layer, policy: Policy, p: Packet)
    requires JumpCount(t.input, ChainOf(layer)) <= 1 && Trusted(layer, policy, p)
    ensures AcceptedThroughout(t, CommandsFor(layer, policy), p) <==>
              VerdictOf(t, p) == Accept && Rest(t, ChainOf(layer), p) == Accept
  {
    var cmds := CommandsFor(layer, policy);
    if VerdictOf(t, p) == Accept && Rest(t, ChainOf(layer), p) == Accept {
      forall k | 0 <= k <= |cmds| ensures VerdictOf(RunAll(t, cmds[..k]), p) == Accept {
        StaysAccepted(t, layer, policy, k, p);
      }
    }
    if AcceptedThroughout(t, cmds, p) {
      assert cmds[..0] == [] && VerdictOf(RunAll(t, cmds[..0]), p) == Accept;
      Unhooked(t, layer, policy, p);
      assert VerdictOf(RunAll(t, cmds[..|FillOf(layer, policy)| + 1]), p) == Accept;
    }
  }

  lemma StaysAccepted(t: Table, layer: Layer, policy: Policy, k: nat, p: Packet)
    requires JumpCount(t.input, ChainOf(layer)) <= 1 && Trusted(layer, policy, p) && k <= |CommandsFor(layer, policy)|
    requires VerdictOf(t, p) == Accept && Rest(t, ChainOf(layer), p) == Accept
    ensures VerdictOf(RunAll(t, CommandsFor(layer, policy)[..k]), p) == Accept
  {
    var cmds, fill, hook := CommandsFor(layer, policy), FillOf(layer, policy), HookOf(layer, policy);
    if k <= |fill| {
      assert cmds[..k] == fill[..k];
      FillingKeepsTrusted(t, layer, policy, k, p);
    } else {
      assert cmds[..k] == fill + hook[..k - |fill|];
      RunConcat(t, fill, hook[..k - |fill|]);
      FilledKeepsTrusted(t, layer, policy, k - |fill|, p);
    }
  }

  lemma FilledKeepsTrusted(t: Table, layer: Layer, policy: Policy, k: nat, p: Packet)
    requires JumpCount(t.input, ChainOf(layer)) <= 1 && Trusted(layer, policy, p) && Rest(t, ChainOf(layer), p) == Accept
    requires 1 <= k <= |HookOf(layer, policy)|
    ensures VerdictOf(RunAll(RunAll(t, FillOf(layer, policy)), HookOf(layer, policy)[..k]), p) == Accept
  {
    FilledRest(t, layer, policy, p);
    ChainCompiles(layer, policy, p);
    HookingKeepsTrusted(RunAll(t, FillOf(layer, policy)), layer, policy, k, p);
  }

  /** Filling the chain does not change what the rest of INPUT says. */
  lemma FilledRest(t: Table, layer: Layer, policy: Policy, p: Packet)
    requires JumpCount(t.input, ChainOf(layer)) <= 1
    ensures var t1 := RunAll(t, FillOf(layer, policy));
            t1 == t.(chains := t.chains[ChainOf(layer) := Filled(ChainRules(PreambleOf(layer), policy))]) &&
            Rest(t1, ChainOf(layer), p) == Rest(t, ChainOf(layer), p)
  {
    var c, t1 := ChainOf(layer), RunAll(t, FillOf(layer, policy));
    FillResult(t, c, ChainRules(PreambleOf(layer), policy));
    WithoutJumpCount(t.input, c, c);
    assert t1.chains - {c} == t.chains - {c};
    UnreferencedChain(t.chains, t1.chains, c, WithoutJump(t.input, c), t.policy, p);
  }

  /** After the first command of the hook the verdict is that of the rest of INPUT. */
  lemma Unhooked(t: Table, layer: Layer, policy: Policy, p: Packet)
    requires JumpCount(t.input, ChainOf(layer)) <= 1
    ensures var k := |FillOf(layer, policy)| + 1;
            k <= |CommandsFor(layer, policy)| &&
            VerdictOf(RunAll(t, CommandsFor(layer, policy)[..k]), p) == Rest(t, ChainOf(layer), p)
  {
    var c, fill := ChainOf(layer), FillOf(layer, policy);
    assert CommandsFor(layer, policy)[..|fill| + 1] == fill + [DeleteJump(c)];
    RunOne(t, fill, DeleteJump(c));
    FilledRest(t, layer, policy, p);
  }

  /** On a first apply there is no jump yet, and nobody trusted is ever cut off. */
  lemma FirstApplyKeepsTrusted(t: Table, layer: Layer, policy: Policy, p: Packet)
    requires JumpCount(t.input, ChainOf(layer)) == 0 && Trusted(layer, policy, p) && VerdictOf(t, p) == Accept
    ensures AcceptedThroughout(t, CommandsFor(layer, policy), p)
  {
    NoJump(t.input, ChainOf(layer));
    TrustedStaysConnectedExactly(t, layer, policy, p);
  }

  lemma {:induction false} NoJump(input: seq<InputRule>, c: string)
    requires JumpCount(input, c) == 0
    ensures WithoutJump(input, c) == input
  {
    if input != [] {
      NoJump(input[1..], c);
    }
  }

  /** A second apply under a DROP policy does cut an established connection off for a moment, on either layer. */
  lemma SecondApplyCutsOff(layer: Layer)
    ensures var t := Table(map[ChainOf(layer) := [ESTABLISHED]], [Jump(ChainOf(layer))], Drop);
            var p := Packet(true, false, "tcp", 22, 0);
            var policy := Policy(true, "deny", [], []);
            VerdictOf(t, p) == Accept && Trusted(layer, policy, p) && !AcceptedThroughout(t, CommandsFor(layer, policy), p)
  {
    var t := Table(map[ChainOf(layer) := [ESTABLISHED]], [Jump(ChainOf(layer))], Drop);
    var p := Packet(true, false, "tcp", 22, 0);
    OneRule(ESTABLISHED, p);
    assert WithoutJump(t.input, ChainOf(layer)) == [] && [Jump(ChainOf(layer))][1..] == [];
    TrustedStaysConnectedExactly(t, layer, Policy(true, "deny", [], []), p);
  }

  // ----- any sequence of operations --------------------------------------------

  datatype Op = NodeApply(policy: Policy) | HostApply(policy: Policy) | Rollback

  function CommandsOf(op: Op): seq<Cmd> {
    match op
    case NodeApply(policy) => CommandsFor(Node, policy)
    case HostApply(policy) => CommandsFor(Host, policy)
    case Rollback => ROLLBACK
  }

  /** An operation that may stop after some of its commands. */
  datatype Attempt = Attempt(op: Op, commands: nat)

  function Carried(a: Attempt): seq<Cmd> {
    var cmds := CommandsOf(a.op);
    if a.commands < |cmds| then cmds[..a.commands] else cmds
  }

  function RunAttempts(t: Table, attempts: seq<Attempt>): Table {
    if attempts == [] then t
    else RunAll(RunAttempts(t, attempts[..|attempts| - 1]), Carried(attempts[|attempts| - 1]))
  }

  predicate OneJump(t: Table) {
    JumpCount(t.input, FW) <= 1 && JumpCount(t.input, HFW) <= 1
  }

  /** Every insertion of a jump directly follows its deletion. */
  predicate Guarded(cmds: seq<Cmd>) {
    forall i | 0 <= i < |cmds| && cmds[i].InsertJump? :: i > 0 && cmds[i - 1] == DeleteJump(cmds[i].chain)
  }

  lemma {:induction false} GuardedKeepsOneJump(t: Table, cmds: seq<Cmd>)
    requires OneJump(t) && Guarded(cmds)
    ensures OneJump(RunAll(t, cmds))
    ensures cmds != [] && cmds[|cmds| - 1].DeleteJump? && cmds[|cmds| - 1].chain in {FW, HFW} ==>
              JumpCount(RunAll(t, cmds).input, cmds[|cmds| - 1].chain) == 0
  {
    if cmds != [] {
      var front, last := cmds[..|cmds| - 1], cmds[|cmds| - 1];
      GuardedKeepsOneJump(t, front);
      var t1 := RunAll(t, front);
      match last {
        case DeleteJump(c) =>
          WithoutJumpCount(t1.input, c, FW);
          WithoutJumpCount(t1.input, c, HFW);
        case InsertJump(c) =>
          assert cmds[|cmds| - 1].InsertJump? && front[|front| - 1] == DeleteJump(c);
          assert ([Jump(c)] + t1.input)[1..] == t1.input;
        case _ =>
      }
    }
  }

  lemma OperationsAreGuarded(op: Op)
    ensures Guarded(CommandsOf(op))
  {
    match op {
      case NodeApply(policy) => ApplyIsGuarded(Node, policy);
      case HostApply(policy) => ApplyIsGuarded(Host, policy);
      case Rollback =>
    }
  }

  lemma ApplyIsGuarded(layer: Layer, policy: Policy)
    ensures Guarded(CommandsFor(layer, policy))
  {
    FillIsGuarded(ChainOf(layer), ChainRules(PreambleOf(layer), policy));
    GuardedBehind(FillOf(layer, policy), HookOf(layer, policy));
  }

  lemma GuardedBehind(a: seq<Cmd>, b: seq<Cmd>)
    requires (forall i | 0 <= i < |a| :: !a[i].InsertJump?) && Guarded(b)
    ensures Guarded(a + b)
  {
    forall i | 0 <= i < |a + b| && (a + b)[i].InsertJump?
      ensures i > 0 && (a + b)[i - 1] == DeleteJump((a + b)[i].chain)
    {
      assert (a + b)[i] == b[i - |a|];
    }
  }

  lemma FillIsGuarded(chain: string, rules: seq<Rule>)
    ensures forall i | 0 <= i < |Fill(chain, rules)| :: !Fill(chain, rules)[i].InsertJump?
  {
  }

  /** INPUT never holds two jumps to one of the chains, however often and however far the operations get. */
  lemma {:induction false} AtMostOneJumpAlways(t: Table, attempts: seq<Attempt>)
    requires OneJump(t)
    ensures OneJump(RunAttempts(t, attempts))
  {
    if attempts != [] {
      var last := attempts[|attempts| - 1];
      AtMostOneJumpAlways(t, attempts[..|attempts| - 1]);
      OperationsAreGuarded(last.op);
      GuardedKeepsOneJump(RunAttempts(t, attempts[..|attempts| - 1]), Carried(last));
    }
  }

  /** After any history, a rollback leaves INPUT without the jumps, without the chains, and open. */
  lemma RollbackClears(t: Table, attempts: seq<Attempt>)
    requires OneJump(t)
    ensures var before := RunAttempts(t, attempts);
            var after := RunAll(before, ROLLBACK);
            JumpCount(after.input, FW) == 0 && JumpCount(after.input, HFW) == 0 &&
            after.chains == before.chains - {FW, HFW} && after.policy == Accept &&
            after.input == WithoutJump(WithoutJump(before.input, FW), HFW)
  {
    AtMostOneJumpAlways(t, attempts);
    RollbackResult(RunAttempts(t, attempts));
  }

  lemma RollbackResult(t0: Table)
    requires OneJump(t0)
    ensures var after := RunAll(t0, ROLLBACK);
            JumpCount(after.input, FW) == 0 && JumpCount(after.input, HFW) == 0 &&
            after.chains == t0.chains - {FW, HFW} && after.policy == Accept &&
            after.input == WithoutJump(WithoutJump(t0.input, FW), HFW)
  {
    var t1 := RunAll(t0, Clear(FW));
    var t2 := RunAll(t1, Clear(HFW));
    ClearResult(t0, FW);
    WithoutJumpCount(t0.input, FW, HFW);
    ClearResult(t1, HFW);
    WithoutJumpCount(t1.input, HFW, FW);
    assert ROLLBACK == Clear(FW) + Clear(HFW) + [SetPolicy(Accept)];
    RunConcat(t0, Clear(FW), Clear(HFW));
    RunOne(t0, Clear(FW) + Clear(HFW), SetPolicy(Accept));
    assert t0.chains - {FW} - {HFW} == t0.chains - {FW, HFW};
  }

  function Clear(chain: string): seq<Cmd> {
    [DeleteJump(chain), Flush(chain), DeleteChain(chain)]
  }

  lemma ClearResult(t: Table, chain: string)
    requires JumpCount(t.input, chain) <= 1
    ensures var t' := RunAll(t, Clear(chain));
            t' == Table(t.chains - {chain}, WithoutJump(t.input, chain), t.policy) && JumpCount(t'.input, chain) == 0
  {
    WithoutJumpCount(t.input, chain, chain);
    PrefixStep(t, Clear(chain), 0);
    PrefixStep(t, Clear(chain), 1);
    PrefixStep(t, Clear(chain), 2);
    assert Clear(chain)[..0] == [] && Clear(chain)[..3] == Clear(chain);
    assert t.chains[chain := []] - {chain} == t.chains - {chain};
  }
}
