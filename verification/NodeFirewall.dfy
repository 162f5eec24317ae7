/**
 The two firewalls a node keeps in INPUT: the node baseline (KC-FW) and the host
 protection (KC-HFW), each compiled from a policy to a chain, and the emergency
 rollback of both.
 */
module NodeFirewalls {
  import opened Iptables

  const FW := "KC-FW"

  const HFW := "KC-HFW"

  const ESTABLISHED := Rule(Match(true, false, "", AnyPort, Blank), Accept)

  const LOOPBACK := Rule(Match(false, true, "", AnyPort, Blank), Accept)

  const SSH := Rule(Match(false, false, "tcp", Range(22, 22), Blank), Accept)

  /** A rule as the control plane sends it; absent ports are NoPort. */
  datatype Port = NoPort | PortNumber(value: int)

  datatype RuleParam = RuleParam(action: string, protocol: string, portStart: Port, portEnd: Port, source: Source)

  datatype Policy = Policy(enabled: bool, defaultAction: string, whitelist: seq<Source>, rules: seq<RuleParam>)

  // ----- compilation ----------------------------------------------------------

  function WhitelistRule(s: Source): Rule {
    Rule(Match(false, false, "", AnyPort, s), Accept)
  }

  function PortsOf(r: RuleParam): Ports {
    if r.portStart.PortNumber? && r.portStart.value > 0 && r.protocol != "" then
      Range(r.portStart.value,
            if r.portEnd.PortNumber? && r.portEnd.value >= r.portStart.value then r.portEnd.value else r.portStart.value)
    else AnyPort
  }

  function ActionOf(r: RuleParam): Verdict {
    if r.action == "allow" || r.action == "accept" then Accept else Drop
  }

  function RuleOf(r: RuleParam): Rule {
    Rule(Match(false, false, r.protocol, PortsOf(r), r.source), ActionOf(r))
  }

  /** Empty whitelist entries are skipped; the others are handed to iptables as they are. */
  function WhitelistRules(whitelist: seq<Source>): seq<Rule> {
    if whitelist == [] then []
    else
      var front, last := whitelist[..|whitelist| - 1], whitelist[|whitelist| - 1];
      WhitelistRules(front) + (if last.Blank? then [] else [WhitelistRule(last)])
  }

  function PolicyRules(rules: seq<RuleParam>): seq<Rule> {
    seq(|rules|, i requires 0 <= i < |rules| => RuleOf(rules[i]))
  }

  function ChainRules(preamble: seq<Rule>, policy: Policy): seq<Rule> {
    preamble + WhitelistRules(policy.whitelist) + PolicyRules(policy.rules)
  }

  function Fill(chain: string, rules: seq<Rule>): seq<Cmd> {
    [NewChain(chain), Flush(chain)] + Adds(chain, rules)
  }

  function DefaultOf(policy: Policy): Verdict {
    if policy.defaultAction == "drop" || policy.defaultAction == "deny" then Drop else Accept
  }

  /** The node baseline and the host protection, which have a chain each. */
  datatype Layer = Node | Host

  const NODE_PREAMBLE := [ESTABLISHED, LOOPBACK]

  const HOST_PREAMBLE := [ESTABLISHED, LOOPBACK, SSH]

  function ChainOf(layer: Layer): string {
    if layer.Node? then FW else HFW
  }

  function PreambleOf(layer: Layer): seq<Rule> {
    if layer.Node? then NODE_PREAMBLE else HOST_PREAMBLE
  }

  /** How the chain is hooked in: the jump is renewed, and the baseline tightens the policy last. */
  function HookOf(layer: Layer, policy: Policy): seq<Cmd> {
    [DeleteJump(ChainOf(layer))] + (if policy.enabled then [InsertJump(ChainOf(layer))] else []) +
    if layer.Host? then [] else [SetPolicy(if policy.enabled then DefaultOf(policy) else Accept)]
  }

  function FillOf(layer: Layer, policy: Policy): seq<Cmd> {
    Fill(ChainOf(layer), ChainRules(PreambleOf(layer), policy))
  }

  /** The commands of firewall.apply and of host_firewall.apply. */
  function CommandsFor(layer: Layer, policy: Policy): seq<Cmd> {
    FillOf(layer, policy) + HookOf(layer, policy)
  }

  const ROLLBACK := [
    DeleteJump(FW), Flush(FW), DeleteChain(FW),
    DeleteJump(HFW), Flush(HFW), DeleteChain(HFW),
    SetPolicy(Accept)]

  // ----- the agent's code -----------------------------------------------------

  class Firewall {
    var table: Table

    /** One iptables call; the agent looks at the outcome of -I and -P only. */
    method Call(cmd: Cmd)
      modifies this
      ensures table == Exec(old(table), cmd)
    {
      table := Exec(table, cmd);
    }

    /** iptables -C, then -A unless the rule is there. */
    method IptablesAdd(chain: string, rule: Rule)
      modifies this
      ensures table == Exec(old(table), AddIfAbsent(chain, rule))
    {
      if chain in table.chains && rule !in table.chains[chain] {
        if Accepted(rule.match_) {
          table := table.(chains := table.chains[chain := table.chains[chain] + [rule]]);
        }
      }
      assert table.chains == Exec(old(table), AddIfAbsent(chain, rule)).chains;
    }

    /** -N and -F: from here on the chain exists and is empty. */
    method StartChain(chain: string)
      modifies this
      ensures Filling(old(table), chain, [], table)
    {
      ghost var was := table;
      Call(NewChain(chain));
      Call(Flush(chain));
      FillNone(was, chain);
    }

    method AddTo(chain: string, rule: Rule, ghost was: Table, ghost done: seq<Rule>)
      requires Filling(was, chain, done, table)
      modifies this
      ensures Filling(was, chain, done + [rule], table)
    {
      IptablesAdd(chain, rule);
      FillOne(was, chain, done, rule);
    }

    method AddWhitelist(chain: string, whitelist: seq<Source>, ghost was: Table, ghost head: seq<Rule>)
      requires Filling(was, chain, head, table)
      modifies this
      ensures Filling(was, chain, head + WhitelistRules(whitelist), table)
    {
      assert head + [] == head;
      for i := 0 to |whitelist|
        invariant Filling(was, chain, head + WhitelistRules(whitelist[..i]), table)
      {
        var s := whitelist[i];
        ghost var done := head + WhitelistRules(whitelist[..i]);
        assert whitelist[..i + 1][..i] == whitelist[..i];
        if !s.Blank? {
          AddTo(chain, WhitelistRule(s), was, done);
          assert done + [WhitelistRule(s)] == head + WhitelistRules(whitelist[..i + 1]);
        } else {
          assert done == head + WhitelistRules(whitelist[..i + 1]);
        }
      }
      assert whitelist[..|whitelist|] == whitelist;
    }

    method AddRules(chain: string, rules: seq<RuleParam>, ghost was: Table, ghost head: seq<Rule>)
      requires Filling(was, chain, head, table)
      modifies this
      ensures Filling(was, chain, head + PolicyRules(rules), table)
    {
      assert head + PolicyRules(rules)[..0] == head;
      for i := 0 to |rules|
        invariant Filling(was, chain, head + PolicyRules(rules)[..i], table)
      {
        var r := rules[i];
        var target := Drop;
        if r.action == "allow" || r.action == "accept" {
          target := Accept;
        }
        var ports := AnyPort;
        if r.portStart.PortNumber? && r.portStart.value > 0 && r.protocol != "" {
          var last := r.portStart.value;
          if r.portEnd.PortNumber? && r.portEnd.value >= r.portStart.value {
            last := r.portEnd.value;
          }
          ports := Range(r.portStart.value, last);
        }
        var rule := Rule(Match(false, false, r.protocol, ports, r.source), target);
        AddTo(chain, rule, was, head + PolicyRules(rules)[..i]);
        assert head + PolicyRules(rules)[..i] + [rule] == head + PolicyRules(rules)[..i + 1];
      }
      assert PolicyRules(rules)[..|rules|] == PolicyRules(rules);
    }

    /** firewall.apply; -I or -P may fail, which leaves a prefix of the commands carried out. */
    method FirewallApply(policy: Policy) returns (ok: bool)
      modifies this
      ensures ok ==> table == RunAll(old(table), CommandsFor(Node, policy))
      ensures !ok ==> StoppedShort(old(table), CommandsFor(Node, policy), table)
    {
      ghost var was := table;
      StartChain(FW);
      AddTo(FW, ESTABLISHED, was, []);
      AddTo(FW, LOOPBACK, was, [ESTABLISHED]);
      assert [ESTABLISHED] + [LOOPBACK] == NODE_PREAMBLE;
      AddWhitelist(FW, policy.whitelist, was, NODE_PREAMBLE);
      AddRules(FW, policy.rules, was, NODE_PREAMBLE + WhitelistRules(policy.whitelist));
      ok := HookIn(Node, policy, was);
      if ok {
        var verdict := Accept;
        if policy.enabled {
          var fault: bool := *;
          if fault {
            StoppedBefore(was, Node, policy);
            return false;
          }
          if policy.defaultAction == "drop" || policy.defaultAction == "deny" {
            verdict := Drop;
          }
        }
        Call(SetPolicy(verdict));
        LastCommand(was, Node, policy, SetPolicy(verdict));
      }
    }

    /** host_firewall.apply; its action may also ask for the rollback. */
    method HostFirewallApply(action: string, policy: Policy) returns (ok: bool)
      modifies this
      ensures action == "rollback" ==> ok && table == RunAll(old(table), ROLLBACK)
      ensures action != "rollback" && ok ==> table == RunAll(old(table), CommandsFor(Host, policy))
      ensures action != "rollback" && !ok ==> StoppedShort(old(table), CommandsFor(Host, policy), table)
    {
      if action == "rollback" {
        FirewallRollback();
        return true;
      }
      ghost var was := table;
      StartChain(HFW);
      AddTo(HFW, ESTABLISHED, was, []);
      AddTo(HFW, LOOPBACK, was, [ESTABLISHED]);
      AddTo(HFW, SSH, was, [ESTABLISHED] + [LOOPBACK]);
      assert [ESTABLISHED] + [LOOPBACK] + [SSH] == HOST_PREAMBLE;
      AddWhitelist(HFW, policy.whitelist, was, HOST_PREAMBLE);
      AddRules(HFW, policy.rules, was, HOST_PREAMBLE + WhitelistRules(policy.whitelist));
      ok := HookIn(Host, policy, was);
      assert FillOf(Host, policy) + Rejump(Host, policy) == CommandsFor(Host, policy);
    }

    /** Renews the jump to the chain; inserting it may fail. */
    method HookIn(layer: Layer, policy: Policy, ghost was: Table) returns (ok: bool)
      requires Filling(was, ChainOf(layer), ChainRules(PreambleOf(layer), policy), table)
      modifies this
      ensures ok ==> table == RunAll(was, FillOf(layer, policy) + Rejump(layer, policy))
      ensures !ok ==> StoppedShort(was, CommandsFor(layer, policy), table)
    {
      var chain := ChainOf(layer);
      ghost var fill := FillOf(layer, policy);
      Call(DeleteJump(chain));
      RunOne(was, fill, DeleteJump(chain));
      if policy.enabled {
        var fault: bool := *;
        if fault {
          Stopped(was, fill + [DeleteJump(chain)], HookOf(layer, policy)[1..], CommandsFor(layer, policy));
          return false;
        }
        Call(InsertJump(chain));
        RunOne(was, fill + [DeleteJump(chain)], InsertJump(chain));
      }
      assert fill + [DeleteJump(chain)] + (if policy.enabled then [InsertJump(chain)] else []) == fill + Rejump(layer, policy);
      ok := true;
    }

    /** firewall.rollback: no outcome is looked at. */
    method FirewallRollback()
      modifies this
      ensures table == RunAll(old(table), ROLLBACK)
    {
      ghost var was := table;
      var chains := [FW, HFW];
      for i := 0 to |chains|
        invariant table == RunAll(was, ROLLBACK[..3 * i])
      {
        Call(DeleteJump(chains[i]));
        PrefixStep(was, ROLLBACK, 3 * i);
        Call(Flush(chains[i]));
        PrefixStep(was, ROLLBACK, 3 * i + 1);
        Call(DeleteChain(chains[i]));
        PrefixStep(was, ROLLBACK, 3 * i + 2);
      }
      Call(SetPolicy(Accept));
      PrefixStep(was, ROLLBACK, 6);
      assert ROLLBACK[..7] == ROLLBACK;
    }
  }

  /** The part of the hook that both layers share. */
  function Rejump(layer: Layer, policy: Policy): seq<Cmd> {
    [DeleteJump(ChainOf(layer))] + if policy.enabled then [InsertJump(ChainOf(layer))] else []
  }

  lemma StoppedBefore(t: Table, layer: Layer, policy: Policy)
    requires layer.Node?
    ensures StoppedShort(t, CommandsFor(layer, policy), RunAll(t, FillOf(layer, policy) + Rejump(layer, policy)))
  {
    var last := [SetPolicy(if policy.enabled then DefaultOf(policy) else Accept)];
    assert CommandsFor(layer, policy) == FillOf(layer, policy) + Rejump(layer, policy) + last;
    Stopped(t, FillOf(layer, policy) + Rejump(layer, policy), last, CommandsFor(layer, policy));
  }

  lemma LastCommand(t: Table, layer: Layer, policy: Policy, cmd: Cmd)
    requires layer.Node? && cmd == SetPolicy(if policy.enabled then DefaultOf(policy) else Accept)
    ensures RunAll(t, CommandsFor(layer, policy)) == Exec(RunAll(t, FillOf(layer, policy) + Rejump(layer, policy)), cmd)
  {
    assert CommandsFor(layer, policy) == FillOf(layer, policy) + Rejump(layer, policy) + [cmd];
    RunOne(t, FillOf(layer, policy) + Rejump(layer, policy), cmd);
  }

  lemma PrefixStep(t: Table, cmds: seq<Cmd>, i: nat)
    requires i < |cmds|
    ensures RunAll(t, cmds[..i + 1]) == Exec(RunAll(t, cmds[..i]), cmds[i])
  {
    assert cmds[..i + 1] == cmds[..i] + [cmds[i]];
    RunOne(t, cmds[..i], cmds[i]);
  }

  /** now is what filling the chain with done has made of was. */
  ghost predicate Filling(was: Table, chain: string, done: seq<Rule>, now: Table) {
    now == RunAll(was, Fill(chain, done))
  }

  /** The commands were carried out up to some point before the last one. */
  ghost predicate StoppedShort(was: Table, cmds: seq<Cmd>, now: Table) {
    exists k :: 0 <= k < |cmds| && now == RunAll(was, cmds[..k])
  }

  lemma Stopped(t: Table, done: seq<Cmd>, rest: seq<Cmd>, cmds: seq<Cmd>)
    requires cmds == done + rest && rest != []
    ensures StoppedShort(t, cmds, RunAll(t, done))
  {
    assert cmds[..|done|] == done;
  }

  lemma FillNone(t: Table, chain: string)
    ensures Filling(t, chain, [], Exec(Exec(t, NewChain(chain)), Flush(chain)))
  {
    RunOne(t, [], NewChain(chain));
    RunOne(t, [NewChain(chain)], Flush(chain));
    assert [] + [NewChain(chain)] == [NewChain(chain)];
    assert [NewChain(chain)] + [Flush(chain)] == Fill(chain, []);
  }

  lemma FillOne(t: Table, chain: string, done: seq<Rule>, r: Rule)
    ensures RunAll(t, Fill(chain, done + [r])) == Exec(RunAll(t, Fill(chain, done)), AddIfAbsent(chain, r))
  {
    assert Fill(chain, done + [r]) == Fill(chain, done) + [AddIfAbsent(chain, r)];
    RunOne(t, Fill(chain, done), AddIfAbsent(chain, r));
  }
}
