/**
 The part of iptables the node's firewall uses: first-match chains, the INPUT
 chain with its policy, and the handful of commands the agent runs.
 */
module Iptables {

  datatype Verdict = Accept | Drop

  datatype Decision = Undecided | Decided(verdict: Verdict)

  /** established stands for conntrack state ESTABLISHED or RELATED, loopback for arrival on lo. */
  datatype Packet = Packet(established: bool, loopback: bool, proto: string, dport: nat, src: nat)

  /** What follows -s: nothing, text iptables refuses, or an IPv4 network. */
  datatype Source = Blank | Malformed | Net(base: nat, bits: nat)

  datatype Ports = AnyPort | Range(first: int, last: int)

  /** proto "" means that no -p was given. */
  datatype Match = Match(established: bool, loopback: bool, proto: string, ports: Ports, source: Source)

  datatype Rule = Rule(match_: Match, target: Verdict)

  /** A rule of INPUT: a jump to one of our chains, or a rule of somebody else. */
  datatype InputRule = Jump(chain: string) | Foreign(decide: Packet -> Decision)

  datatype Table = Table(chains: map<string, seq<Rule>>, input: seq<InputRule>, policy: Verdict)

  const PROTOCOLS := {"tcp", "udp", "icmp", "sctp", "dccp", "all"}

  const PORT_PROTOCOLS := {"tcp", "udp", "sctp", "dccp"}

  /** Whether iptables takes the rule; the agent ignores a refusal. */
  predicate Accepted(m: Match) {
    !m.source.Malformed? && (m.source.Net? ==> m.source.bits <= 32) &&
    (m.proto != "" ==> m.proto in PROTOCOLS) &&
    (m.ports.Range? ==> m.proto in PORT_PROTOCOLS && 0 <= m.ports.first <= m.ports.last <= 65535)
  }

  function Pow2(n: nat): (r: nat)
    ensures r > 0
  {
    if n == 0 then 1 else 2 * Pow2(n - 1)
  }

  predicate InSource(s: Source, addr: nat) {
    match s
    case Blank => true
    case Malformed => false
    case Net(base, bits) => bits <= 32 && addr / Pow2(32 - bits) == base / Pow2(32 - bits)
  }

  predicate Matches(m: Match, p: Packet) {
    (m.established ==> p.established) && (m.loopback ==> p.loopback) &&
    (m.proto != "" && m.proto != "all" ==> m.proto == p.proto) &&
    (m.ports.Range? ==> m.ports.first <= p.dport <= m.ports.last) &&
    InSource(m.source, p.src)
  }

  /** First match wins. */
  function ChainDecision(rules: seq<Rule>, p: Packet): Decision {
    if rules == [] then Undecided
    else if Matches(rules[0].match_, p) then Decided(rules[0].target)
    else ChainDecision(rules[1..], p)
  }

  function RuleDecision(chains: map<string, seq<Rule>>, r: InputRule, p: Packet): Decision {
    match r
    case Jump(chain) => if chain in chains then ChainDecision(chains[chain], p) else Undecided
    case Foreign(decide) => decide(p)
  }

  function InputVerdict(chains: map<string, seq<Rule>>, input: seq<InputRule>, policy: Verdict, p: Packet): Verdict {
    if input == [] then policy
    else
      match RuleDecision(chains, input[0], p)
      case Decided(v) => v
      case Undecided => InputVerdict(chains, input[1..], policy, p)
  }

  function VerdictOf(t: Table, p: Packet): Verdict {
    InputVerdict(t.chains, t.input, t.policy, p)
  }

  // ----- commands -------------------------------------------------------------

  datatype Cmd =
    | NewChain(chain: string)
    | Flush(chain: string)
    | AddIfAbsent(chain: string, rule: Rule)
    | DeleteJump(chain: string)
    | InsertJump(chain: string)
    | SetPolicy(policy: Verdict)
    | DeleteChain(chain: string)

  function JumpCount(input: seq<InputRule>, chain: string): nat {
    if input == [] then 0
    else (if input[0].Jump? && input[0].chain == chain then 1 else 0) + JumpCount(input[1..], chain)
  }

  /** INPUT after -D INPUT -j chain: the first such jump is gone, if there is one. */
  function WithoutJump(input: seq<InputRule>, chain: string): seq<InputRule> {
    if input == [] then []
    else if input[0].Jump? && input[0].chain == chain then input[1..]
    else [input[0]] + WithoutJump(input[1..], chain)
  }

  /** A chain after adding one rule: refused rules and rules it already has leave it alone. */
  function Extended(rules: seq<Rule>, r: Rule): seq<Rule> {
    if Accepted(r.match_) && r !in rules then rules + [r] else rules
  }

  /** One command; a command that iptables refuses changes nothing. */
  function Exec(t: Table, cmd: Cmd): Table {
    match cmd
    case NewChain(c) => if c in t.chains then t else t.(chains := t.chains[c := []])
    case Flush(c) => if c in t.chains then t.(chains := t.chains[c := []]) else t
    case AddIfAbsent(c, r) => if c in t.chains then t.(chains := t.chains[c := Extended(t.chains[c], r)]) else t
    case DeleteJump(c) => t.(input := WithoutJump(t.input, c))
    case InsertJump(c) => if c in t.chains then t.(input := [Jump(c)] + t.input) else t
    case SetPolicy(v) => t.(policy := v)
    case DeleteChain(c) =>
      if c in t.chains && t.chains[c] == [] && JumpCount(t.input, c) == 0 then t.(chains := t.chains - {c}) else t
  }

  function RunAll(t: Table, cmds: seq<Cmd>): Table {
    if cmds == [] then t else Exec(RunAll(t, cmds[..|cmds| - 1]), cmds[|cmds| - 1])
  }

  lemma RunOne(t: Table, cmds: seq<Cmd>, cmd: Cmd)
    ensures RunAll(t, cmds + [cmd]) == Exec(RunAll(t, cmds), cmd)
  {
    assert (cmds + [cmd])[..|cmds|] == cmds;
  }

  lemma {:induction false} RunConcat(t: Table, a: seq<Cmd>, b: seq<Cmd>)
    ensures RunAll(t, a + b) == RunAll(RunAll(t, a), b)
    decreases |b|
  {
    if b == [] {
      assert a + b == a;
    } else {
      var b' := b[..|b| - 1];
      RunConcat(t, a, b');
      assert a + b == (a + b') + [b[|b| - 1]];
      RunOne(t, a + b', b[|b| - 1]);
    }
  }

  /** The commands that fill a chain. */
  function Adds(chain: string, rules: seq<Rule>): seq<Cmd> {
    seq(|rules|, i requires 0 <= i < |rules| => AddIfAbsent(chain, rules[i]))
  }

  /** What the chain holds in the end. */
  function Filled(rules: seq<Rule>): seq<Rule> {
    if rules == [] then [] else Extended(Filled(rules[..|rules| - 1]), rules[|rules| - 1])
  }

  lemma {:induction false} AddsFill(t: Table, chain: string, rules: seq<Rule>)
    requires chain in t.chains && t.chains[chain] == []
    ensures RunAll(t, Adds(chain, rules)) == t.(chains := t.chains[chain := Filled(rules)])
  {
    if rules == [] {
      assert t.chains[chain := []] == t.chains;
    } else {
      var front := rules[..|rules| - 1];
      AddsFill(t, chain, front);
      assert Adds(chain, rules) == Adds(chain, front) + [AddIfAbsent(chain, rules[|rules| - 1])];
      RunOne(t, Adds(chain, front), AddIfAbsent(chain, rules[|rules| - 1]));
    }
  }

  /** The rules iptables takes, duplicates included. */
  function Kept(rules: seq<Rule>): seq<Rule> {
    if rules == [] then []
    else if Accepted(rules[0].match_) then [rules[0]] + Kept(rules[1..])
    else Kept(rules[1..])
  }

  lemma {:induction false} DecisionConcat(a: seq<Rule>, b: seq<Rule>, p: Packet)
    ensures ChainDecision(a + b, p) == if ChainDecision(a, p).Decided? then ChainDecision(a, p) else ChainDecision(b, p)
  {
    if a == [] {
      assert a + b == b;
    } else {
      assert (a + b)[1..] == a[1..] + b;
      DecisionConcat(a[1..], b, p);
    }
  }

  lemma {:induction false} DecidedByMember(rules: seq<Rule>, r: Rule, p: Packet)
    requires r in rules && Matches(r.match_, p)
    ensures ChainDecision(rules, p).Decided?
  {
    if !Matches(rules[0].match_, p) {
      DecidedByMember(rules[1..], r, p);
    }
  }

  lemma {:induction false} KeptConcat(a: seq<Rule>, b: seq<Rule>)
    ensures Kept(a + b) == Kept(a) + Kept(b)
  {
    if a == [] {
      assert a + b == b;
    } else {
      assert (a + b)[1..] == a[1..] + b;
      KeptConcat(a[1..], b);
    }
  }

  /** Adding a rule only when it is absent never changes what the chain decides. */
  lemma {:induction false} AddIfAbsentIsTransparent(rules: seq<Rule>, p: Packet)
    ensures ChainDecision(Filled(rules), p) == ChainDecision(Kept(rules), p)
  {
    if rules != [] {
      var front, last := rules[..|rules| - 1], rules[|rules| - 1];
      AddIfAbsentIsTransparent(front, p);
      assert rules == front + [last];
      KeptConcat(front, [last]);
      assert [last][1..] == [];
      assert Kept([last]) == if Accepted(last.match_) then [last] else [];
      assert Kept(front) + [] == Kept(front);
      if Accepted(last.match_) {
        DecisionConcat(Kept(front), [last], p);
        DecisionConcat(Filled(front), [last], p);
        if last in Filled(front) && Matches(last.match_, p) {
          DecidedByMember(Filled(front), last, p);
        }
      }
    }
  }

  // ----- jumps ----------------------------------------------------------------

  lemma {:induction false} WithoutJumpCount(input: seq<InputRule>, chain: string, other: string)
    ensures JumpCount(WithoutJump(input, chain), other) ==
            if other == chain && JumpCount(input, chain) > 0 then JumpCount(input, chain) - 1 else JumpCount(input, other)
  {
    if input != [] && !(input[0].Jump? && input[0].chain == chain) {
      WithoutJumpCount(input[1..], chain, other);
    }
  }

  /** Chains nobody jumps to are irrelevant to INPUT. */
  lemma {:induction false} UnreferencedChain(
      chains: map<string, seq<Rule>>, chains': map<string, seq<Rule>>, chain: string,
      input: seq<InputRule>, policy: Verdict, p: Packet)
    requires JumpCount(input, chain) == 0 && chains - {chain} == chains' - {chain}
    ensures InputVerdict(chains, input, policy, p) == InputVerdict(chains', input, policy, p)
  {
    if input != [] {
      match input[0] {
        case Jump(c) =>
          assert c in chains - {chain} <==> c in chains;
          assert c in chains' - {chain} <==> c in chains';
          if c in chains {
            assert (chains - {chain})[c] == (chains' - {chain})[c];
          }
        case Foreign(_) =>
      }
      UnreferencedChain(chains, chains', chain, input[1..], policy, p);
    }
  }
}
