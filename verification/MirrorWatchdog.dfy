/**
 Port mirroring with a watchdog on the node. A mirror copies all traffic of a
 port, so one that nobody confirms must come off by itself, also when the agent
 crashes in between: the deadline is kept in a file next to the in-memory timer.
 Each handler is one atomic step of the node.
 */
module MirrorWatchdogs {

  type Name = string

  datatype WatchdogFile = Deadline(at: int) | Corrupt

  datatype Timer = Timer(name: Name, due: int)

  /** Mirrors in OVS, the files under /run, the agent's timers, the clock. */
  datatype Node = Node(
    now: int,
    up: bool,
    attached: set<Name>,
    confirmed: set<Name>,
    files: map<Name, WatchdogFile>,
    timers: multiset<Timer>)

  /** ok says whether OVS carried out the enable: sources given, bridge found, row written. */
  datatype Event =
    | Enable(name: Name, watchdog: int, ok: bool)
    | Confirm(name: Name)
    | Disable(name: Name)
    | Tick(seconds: nat)
    | Fire(timer: Timer)
    | Crash
    | Restart

  function Max(a: int, b: int): int {
    if a < b then b else a
  }

  /** The timers a starting agent derives from the files it finds; past deadlines are due at once. */
  function Rearmed(files: map<Name, WatchdogFile>, names: set<Name>, now: int): set<Timer> {
    set f | f in names && f in files && files[f].Deadline? :: Timer(f, Max(now, files[f].at))
  }

  function Readable(files: map<Name, WatchdogFile>, names: set<Name>): map<Name, WatchdogFile> {
    map f | f in files && (f in names ==> files[f].Deadline?) :: files[f]
  }

  predicate Possible(n: Node, e: Event) {
    match e
    case Tick(_) => true
    case Restart => !n.up
    case Fire(t) => n.up && t in n.timers && t.due <= n.now
    case _ => n.up
  }

  function Step(n: Node, e: Event): Node {
    match e
    case Enable(name, wd, ok) =>
      if !ok then n
      else
        var m := n.(attached := n.attached + {name}, confirmed := n.confirmed - {name});
        if wd > 0 then
          m.(files := m.files[name := Deadline(n.now + wd)],
             timers := m.timers + multiset{Timer(name, n.now + wd)})
        else m
    case Confirm(name) => n.(confirmed := n.confirmed + {name}, files := n.files - {name})
    case Disable(name) => n.(attached := n.attached - {name}, confirmed := n.confirmed - {name})
    case Tick(seconds) => n.(now := n.now + seconds)
    case Fire(t) =>
      n.(attached := if t.name in n.confirmed then n.attached else n.attached - {t.name},
         files := n.files - {t.name},
         timers := n.timers - multiset{t})
    case Crash => n.(up := false, timers := multiset{})
    case Restart =>
      n.(up := true,
         files := Readable(n.files, n.files.Keys),
         timers := multiset(Rearmed(n.files, n.files.Keys, n.now)))
  }

  /** The handlers of the agent, working on the node. */
  class MirrorAgent {
    var now: int
    var up: bool
    var attached: set<Name>
    var confirmed: set<Name>
    var files: map<Name, WatchdogFile>
    var timers: multiset<Timer>

    function View(): Node
      reads this
    {
      Node(now, up, attached, confirmed, files, timers)
    }

    /** port_mirror.enable; a missing watchdog parameter means 120 seconds. */
    method PortMirrorEnable(name: Name, sources: seq<string>, given: bool, seconds: int, ovs: bool) returns (ok: bool)
      requires up
      modifies this
      ensures ok == (sources != [] && ovs)
      ensures View() == Step(old(View()), Enable(name, if given then seconds else 120, ok))
    {
      if |sources| == 0 || !ovs {
        return false;
      }
      attached := attached + {name};
      var wd := 120;
      if given {
        wd := seconds;
      }
      confirmed := confirmed - {name};
      if wd > 0 {
        ArmWatchdog(name, wd);
      }
      ok := true;
    }

    method ArmWatchdog(name: Name, seconds: int)
      requires up
      modifies this`files, this`timers
      ensures files == old(files)[name := Deadline(now + seconds)]
      ensures timers == old(timers) + multiset{Timer(name, now + seconds)}
    {
      files := files[name := Deadline(now + seconds)];
      timers := timers + multiset{Timer(name, now + seconds)};
    }

    method FireWatchdog(t: Timer)
      requires Possible(View(), Fire(t))
      modifies this
      ensures View() == Step(old(View()), Fire(t))
    {
      timers := timers - multiset{t};
      if t.name !in confirmed {
        attached := attached - {t.name};
      }
      files := files - {t.name};
    }

    /** What the agent does when it starts: one timer per readable file, damaged files are dropped. */
    method RearmWatchdogs()
      requires !up && timers == multiset{}
      modifies this
      ensures View() == Step(old(View()), Restart)
    {
      RearmAll();
      up := true;
    }

    method RearmAll()
      requires timers == multiset{}
      modifies this`files, this`timers
      ensures files == Readable(old(files), old(files).Keys)
      ensures timers == multiset(Rearmed(old(files), old(files).Keys, now))
    {
      ghost var was := files;
      ghost var seen: set<Name> := {};
      var names := files.Keys;
      while names != {}
        invariant names !! seen && names + seen == was.Keys
        invariant files == Readable(was, seen)
        invariant timers == multiset(Rearmed(was, seen, now))
        decreases |names|
      {
        var f :| f in names;
        RearmFile(f, was, seen);
        names, seen := names - {f}, seen + {f};
      }
      assert seen == was.Keys;
    }

    method RearmFile(f: Name, ghost was: map<Name, WatchdogFile>, ghost seen: set<Name>)
      requires f in was && f !in seen
      requires files == Readable(was, seen) && timers == multiset(Rearmed(was, seen, now))
      modifies this`files, this`timers
      ensures files == Readable(was, seen + {f}) && timers == multiset(Rearmed(was, seen + {f}, now))
    {
      RearmOne(was, seen, f, now);
      match files[f] {
        case Corrupt =>
          files := files - {f};
        case Deadline(at) =>
          var remaining := at - now;
          if remaining < 0 {
            remaining := 0;
          }
          timers := timers + multiset{Timer(f, now + remaining)};
      }
    }

    method PortMirrorConfirm(name: Name)
      requires up
      modifies this
      ensures View() == Step(old(View()), Confirm(name))
    {
      confirmed := confirmed + {name};
      files := files - {name};
    }

    method PortMirrorDisable(name: Name)
      requires up
      modifies this
      ensures View() == Step(old(View()), Disable(name))
    {
      attached := attached - {name};
      confirmed := confirmed - {name};
    }
  }

  lemma RearmOne(files: map<Name, WatchdogFile>, seen: set<Name>, f: Name, now: int)
    requires f in files && f !in seen
    ensures files[f].Corrupt? ==>
              Rearmed(files, seen + {f}, now) == Rearmed(files, seen, now) &&
              Readable(files, seen + {f}) == Readable(files, seen) - {f}
    ensures files[f].Deadline? ==>
              multiset(Rearmed(files, seen + {f}, now)) ==
                multiset(Rearmed(files, seen, now)) + multiset{Timer(f, Max(now, files[f].at))} &&
              Readable(files, seen + {f}) == Readable(files, seen)
  {
    if files[f].Deadline? {
      var t := Timer(f, Max(now, files[f].at));
      assert t !in Rearmed(files, seen, now);
      assert Rearmed(files, seen + {f}, now) == Rearmed(files, seen, now) + {t};
    }
  }

  // ----- runs -----------------------------------------------------------------

  /** What the user last said about a mirror. */
  datatype Phase = Off | Unwatched | Awaiting(deadline: int) | Kept

  /** A node together with what its history says about each mirror. */
  datatype History = History(node: Node, phases: map<Name, Phase>, restarted: int)

  function PhaseOf(h: History, name: Name): Phase {
    if name in h.phases then h.phases[name] else Off
  }

  function Record(h: History, e: Event): History {
    var node := Step(h.node, e);
    match e
    case Enable(name, wd, ok) =>
      if !ok then h.(node := node)
      else h.(node := node, phases := h.phases[name := if wd > 0 then Awaiting(h.node.now + wd) else Unwatched])
    case Confirm(name) => h.(node := node, phases := h.phases[name := Kept])
    case Disable(name) => h.(node := node, phases := h.phases[name := Off])
    case Restart => h.(node := node, restarted := h.node.now)
    case _ => h.(node := node)
  }

  predicate Legal(h: History, events: seq<Event>)
    decreases |events|
  {
    events == [] || (Possible(h.node, events[0]) && Legal(Record(h, events[0]), events[1..]))
  }

  function Run(h: History, events: seq<Event>): History
    decreases |events|
  {
    if events == [] then h else Run(Record(h, events[0]), events[1..])
  }

  /** A node after boot: /run is empty and nothing is mirrored. */
  function Boot(now: int, up: bool): History {
    History(Node(now, up, {}, {}, map[], multiset{}), map[], now)
  }

  ghost predicate TimerPending(n: Node, name: Name, limit: int) {
    exists t :: t in n.timers && t.name == name && t.due <= limit
  }

  /** An attached mirror that still waits for its confirmation is covered by its file and, while the agent is up, by a timer. */
  ghost predicate Covered(h: History, name: Name) {
    name in h.node.attached && PhaseOf(h, name).Awaiting? ==>
      var deadline := PhaseOf(h, name).deadline;
      name in h.node.files && h.node.files[name] == Deadline(deadline) && name !in h.node.confirmed &&
      (h.node.up ==> TimerPending(h.node, name, Max(deadline, h.restarted)))
  }

  /** A confirmed mirror has its confirmation on file and no deadline. */
  ghost predicate Settled(h: History, name: Name) {
    PhaseOf(h, name).Kept? ==> name in h.node.confirmed && name !in h.node.files
  }

  /** A mirror that was never enabled, or disabled last, is off. */
  predicate Detached(h: History, name: Name) {
    PhaseOf(h, name).Off? ==> name !in h.node.attached
  }

  ghost predicate Inv(h: History) {
    h.restarted <= h.node.now && (!h.node.up ==> h.node.timers == multiset{}) &&
    forall name :: Covered(h, name) && Settled(h, name) && Detached(h, name)
  }

  lemma StepKeepsInv(h: History, e: Event)
    requires Inv(h) && Possible(h.node, e)
    ensures Inv(Record(h, e))
  {
    var h' := Record(h, e);
    forall name ensures Covered(h', name) && Settled(h', name) && Detached(h', name) {
      assert Covered(h, name) && Settled(h, name) && Detached(h, name);
      CoveredStep(h, e, name);
      SettledStep(h, e, name);
    }
  }

  lemma SettledStep(h: History, e: Event, name: Name)
    requires Settled(h, name) && Detached(h, name) && Possible(h.node, e)
    ensures Settled(Record(h, e), name) && Detached(Record(h, e), name)
  {
  }

  lemma CoveredStep(h: History, e: Event, name: Name)
    requires Covered(h, name) && Possible(h.node, e) && h.restarted <= h.node.now
    ensures Covered(Record(h, e), name)
  {
    match e
    case Enable(_, _, _) => CoveredByEnable(h, e, name);
    case Restart => CoveredByRestart(h, name);
    case Fire(t) => CoveredBesideFire(h, t, name);
    case _ => CoveredOtherwise(h, e, name);
  }

  lemma CoveredByEnable(h: History, e: Event, name: Name)
    requires Covered(h, name) && Possible(h.node, e) && e.Enable? && h.restarted <= h.node.now
    ensures Covered(Record(h, e), name)
  {
    var h' := Record(h, e);
    if name in h'.node.attached && PhaseOf(h', name).Awaiting? {
      if e.ok && e.name == name {
        assert Timer(name, PhaseOf(h', name).deadline) in h'.node.timers;
      } else {
        TimersGrow(h.node, h'.node, name, Max(PhaseOf(h, name).deadline, h.restarted));
      }
    }
  }

  lemma CoveredByRestart(h: History, name: Name)
    requires Covered(h, name) && Possible(h.node, Restart)
    ensures Covered(Record(h, Restart), name)
  {
    if name in h.node.attached && PhaseOf(h, name).Awaiting? {
      var due := Max(h.node.now, PhaseOf(h, name).deadline);
      assert Timer(name, due) in Rearmed(h.node.files, h.node.files.Keys, h.node.now);
      assert Timer(name, due) in Step(h.node, Restart).timers;
    }
  }

  lemma CoveredBesideFire(h: History, t: Timer, name: Name)
    requires Covered(h, name) && Possible(h.node, Fire(t))
    ensures Covered(Record(h, Fire(t)), name)
  {
    if t.name != name && name in h.node.attached && PhaseOf(h, name).Awaiting? {
      var limit := Max(PhaseOf(h, name).deadline, h.restarted);
      var t' :| t' in h.node.timers && t'.name == name && t'.due <= limit;
      assert t' in Step(h.node, Fire(t)).timers;
    }
  }

  lemma CoveredOtherwise(h: History, e: Event, name: Name)
    requires Covered(h, name) && Possible(h.node, e) && !e.Enable? && !e.Restart? && !e.Fire?
    ensures Covered(Record(h, e), name)
  {
    var h' := Record(h, e);
    if name in h'.node.attached && PhaseOf(h', name).Awaiting? && h'.node.up {
      TimersGrow(h.node, h'.node, name, Max(PhaseOf(h, name).deadline, h.restarted));
    }
  }

  lemma TimersGrow(n: Node, n': Node, name: Name, limit: int)
    requires n.timers <= n'.timers && TimerPending(n, name, limit)
    ensures TimerPending(n', name, limit)
  {
    var t :| t in n.timers && t.name == name && t.due <= limit;
    assert t in n'.timers;
  }

  /** The invariant of every run from boot. */
  lemma {:induction false} RunKeepsInv(h: History, events: seq<Event>)
    requires Inv(h) && Legal(h, events)
    ensures Inv(Run(h, events))
    decreases |events|
  {
    if events != [] {
      StepKeepsInv(h, events[0]);
      RunKeepsInv(Record(h, events[0]), events[1..]);
    }
  }

  /** No unconfirmed mirror outlives its deadline (or the restart after it) once the due timers have fired. */
  lemma NoneOutlivesItsDeadline(now: int, up: bool, events: seq<Event>, name: Name)
    requires Legal(Boot(now, up), events)
    ensures var h := Run(Boot(now, up), events);
            Inv(h) &&
            (h.node.up && (forall t | t in h.node.timers :: h.node.now < t.due) &&
             name in h.node.attached && PhaseOf(h, name).Awaiting?
             ==> h.node.now < Max(PhaseOf(h, name).deadline, h.restarted))
  {
    RunKeepsInv(Boot(now, up), events);
    assert Covered(Run(Boot(now, up), events), name);
  }

  predicate Concerns(e: Event, name: Name) {
    (e.Enable? || e.Confirm? || e.Disable?) && e.name == name
  }

  /** After a confirmation nothing but the next enable or disable of that name takes the mirror off. */
  lemma {:induction false} ConfirmedStays(h: History, events: seq<Event>, name: Name)
    requires Inv(h) && Legal(h, events) && PhaseOf(h, name).Kept?
    requires forall e | e in events :: Concerns(e, name) ==> e.Confirm?
    ensures name in Run(h, events).node.attached <==> name in h.node.attached
    ensures PhaseOf(Run(h, events), name).Kept?
    decreases |events|
  {
    if events != [] {
      var h' := Record(h, events[0]);
      assert events[0] in events && Settled(h, name);
      StepKeepsInv(h, events[0]);
      ConfirmedStays(h', events[1..], name);
    }
  }

  // ----- off and gone ------------------------------------------------------------

  predicate Enables(e: Event, name: Name) {
    e.Enable? && e.ok && e.name == name
  }

  /** After a disable, or a timer that took it off, a mirror stays off until it is enabled again. */
  lemma {:induction false} StaysOff(h: History, events: seq<Event>, name: Name)
    requires Legal(h, events) && (forall e | e in events :: !Enables(e, name)) && name !in h.node.attached
    ensures name !in Run(h, events).node.attached
    decreases |events|
  {
    if events != [] {
      assert events[0] in events;
      StaysOff(Record(h, events[0]), events[1..], name);
    }
  }

  /** Disabling takes the mirror off, whatever timers and files there are, until the next successful enable. */
  lemma DisabledStaysOff(h: History, events: seq<Event>, name: Name)
    requires h.node.up && Legal(Record(h, Disable(name)), events) && forall e | e in events :: !Enables(e, name)
    ensures name !in Run(Record(h, Disable(name)), events).node.attached
  {
    StaysOff(Record(h, Disable(name)), events, name);
  }

  /** A timer that fires takes an unconfirmed mirror off until the next successful enable. */
  lemma FiredStaysOff(h: History, t: Timer, events: seq<Event>)
    requires Possible(h.node, Fire(t)) && t.name !in h.node.confirmed
    requires Legal(Record(h, Fire(t)), events) && forall e | e in events :: !Enables(e, t.name)
    ensures t.name !in Run(Record(h, Fire(t)), events).node.attached
  {
    StaysOff(Record(h, Fire(t)), events, t.name);
  }

  lemma {:induction false} NoFileStays(h: History, events: seq<Event>, name: Name)
    requires Legal(h, events) && (forall e | e in events :: !Enables(e, name)) && name !in h.node.files
    ensures name !in Run(h, events).node.files
    decreases |events|
  {
    if events != [] {
      assert events[0] in events;
      NoFileStays(Record(h, events[0]), events[1..], name);
    }
  }

  /** A timer that has fired, and a confirmation, leave no deadline from which a later start could arm another timer. */
  lemma DeadlineIsGone(h: History, e: Event, name: Name, events: seq<Event>)
    requires Possible(h.node, e) && (e == Confirm(name) || (e.Fire? && e.timer.name == name))
    requires Legal(Record(h, e), events + [Restart]) && forall x | x in events :: !Enables(x, name)
    ensures name !in Run(Record(h, e), events + [Restart]).node.files
    ensures forall t | t in Run(Record(h, e), events + [Restart]).node.timers :: t.name != name
  {
    var h' := Record(h, e);
    LegalPrefix(h', events, Restart);
    NoFileStays(h', events, name);
    RestartFromFiles(Run(h', events).node);
  }

  lemma {:induction false} LegalPrefix(h: History, events: seq<Event>, e: Event)
    requires Legal(h, events + [e])
    ensures Legal(h, events) && Possible(Run(h, events).node, e) && Run(h, events + [e]) == Record(Run(h, events), e)
    decreases |events|
  {
    if events == [] {
      assert [] + [e] == [e] && [e][1..] == [];
    } else {
      assert (events + [e])[1..] == events[1..] + [e];
      LegalPrefix(Record(h, events[0]), events[1..], e);
    }
  }

  /** After a start every file is readable and has its timer, and every timer its file. */
  lemma RestartFromFiles(n: Node)
    requires Possible(n, Restart)
    ensures var n' := Step(n, Restart);
            (forall f | f in n'.files :: n'.files[f].Deadline? && Timer(f, Max(n.now, n'.files[f].at)) in n'.timers) &&
            (forall t | t in n'.timers :: t.name in n'.files && t.due == Max(n.now, n'.files[t.name].at))
  {
    var armed := Rearmed(n.files, n.files.Keys, n.now);
    assert forall t :: t in Step(n, Restart).timers <==> t in armed;
    assert forall f | f in n.files && n.files[f].Deadline? :: Timer(f, Max(n.now, n.files[f].at)) in armed;
  }

  // ----- the repair path --------------------------------------------------------

  /** Nothing is left that could take the mirror off. */
  ghost predicate Disarmed(n: Node, name: Name) {
    (forall t | t in n.timers :: t.name != name) && (name in n.files ==> n.files[name].Corrupt?)
  }

  ghost predicate SticksForever(h: History, name: Name) {
    forall events | Legal(h, events) && (forall e | e in events :: !Concerns(e, name)) ::
      name in Run(h, events).node.attached
  }

  lemma DisarmedStep(h: History, e: Event, name: Name)
    requires Possible(h.node, e) && !Concerns(e, name)
    requires name in h.node.attached && Disarmed(h.node, name)
    ensures name in Record(h, e).node.attached && Disarmed(Record(h, e).node, name)
  {
    match e {
      case Restart => DisarmedRestart(h.node, name);
      case Fire(t) => assert t.name != name;
      case _ =>
    }
  }

  lemma DisarmedRestart(n: Node, name: Name)
    requires Possible(n, Restart) && name in n.attached && Disarmed(n, name)
    ensures name in Step(n, Restart).attached && Disarmed(Step(n, Restart), name)
  {
    assert forall t | t in Step(n, Restart).timers :: t in Rearmed(n.files, n.files.Keys, n.now);
  }

  lemma {:induction false} DisarmedSticks(h: History, events: seq<Event>, name: Name)
    requires Legal(h, events) && (forall e | e in events :: !Concerns(e, name))
    requires name in h.node.attached && Disarmed(h.node, name)
    ensures name in Run(h, events).node.attached
    decreases |events|
  {
    if events != [] {
      assert events[0] in events;
      DisarmedStep(h, events[0], name);
      DisarmedSticks(Record(h, events[0]), events[1..], name);
    }
  }

  /**
   Re-issuing a mirror without a watchdog (a repair) is meant not to reopen the
   confirmation window. It does when something is left from an earlier enable:
   the repair sticks exactly when neither a timer nor a deadline file of that
   name exists at that moment.
   */
  lemma RepairSticksExactly(h: History, name: Name, wd: int)
    requires h.node.up && wd <= 0
    ensures SticksForever(Record(h, Enable(name, wd, true)), name) <==> Disarmed(h.node, name)
  {
    var h' := Record(h, Enable(name, wd, true));
    if Disarmed(h.node, name) {
      forall events | Legal(h', events) && (forall e | e in events :: !Concerns(e, name))
        ensures name in Run(h', events).node.attached
      {
        DisarmedSticks(h', events, name);
      }
    } else if t :| t in h.node.timers && t.name == name {
      LeftoverFires(h', t);
    } else {
      RestartRearms(h', name);
    }
  }

  function LeftoverRun(n: Node, t: Timer): seq<Event> {
    [Tick(Max(0, t.due - n.now)), Fire(t)]
  }

  lemma LeftoverFires(h: History, t: Timer)
    requires h.node.up && t in h.node.timers && t.name !in h.node.confirmed
    ensures var events := LeftoverRun(h.node, t);
            Legal(h, events) && t.name !in Run(h, events).node.attached &&
            Run(h, events).node.now == Max(h.node.now, t.due)
    ensures !SticksForever(h, t.name)
  {
    var events := LeftoverRun(h.node, t);
    var h1 := Record(h, events[0]);
    assert events[1..] == [Fire(t)];
    assert Legal(h1, [Fire(t)]);
    assert Run(h, events) == Run(h1, [Fire(t)]) == Record(h1, Fire(t));
  }

  /** Without a timer it takes a crash and a restart, which turns the left-over file into a timer. */
  lemma RestartRearms(h: History, name: Name)
    requires h.node.up && name !in h.node.confirmed
    requires name in h.node.files && h.node.files[name].Deadline?
    ensures !SticksForever(h, name)
  {
    var h1 := Record(h, Crash);
    var h2 := Record(h1, Restart);
    var t := Timer(name, Max(h.node.now, h.node.files[name].at));
    assert t in Rearmed(h.node.files, h.node.files.Keys, h.node.now);
    LeftoverFires(h2, t);
    var rest := LeftoverRun(h2.node, t);
    var events := [Crash] + ([Restart] + rest);
    assert events[1..] == [Restart] + rest && ([Restart] + rest)[1..] == rest;
    assert Legal(h1, [Restart] + rest) && Run(h1, [Restart] + rest) == Run(h2, rest);
    assert Legal(h, events) && Run(h, events) == Run(h2, rest);
  }

  // ----- a repair with a watchdog of its own ----------------------------------------

  /** Attached until the deadline in every run that does not name it. */
  ghost predicate StaysUntil(h: History, name: Name, deadline: int) {
    forall events | Legal(h, events) && (forall e | e in events :: !Concerns(e, name)) && Run(h, events).node.now < deadline ::
      name in Run(h, events).node.attached
  }

  /** Nothing takes the mirror off before the deadline. */
  predicate NothingBefore(n: Node, name: Name, deadline: int) {
    (forall t | t in n.timers && t.name == name :: deadline <= t.due) &&
    (name in n.files && n.files[name].Deadline? ==> deadline <= n.files[name].at)
  }

  lemma {:induction false} ClockGrows(h: History, events: seq<Event>)
    requires Legal(h, events)
    ensures h.node.now <= Run(h, events).node.now
    decreases |events|
  {
    if events != [] {
      ClockGrows(Record(h, events[0]), events[1..]);
    }
  }

  lemma NothingBeforeStep(h: History, e: Event, name: Name, deadline: int)
    requires Possible(h.node, e) && !Concerns(e, name) && h.node.now < deadline
    requires name in h.node.attached && NothingBefore(h.node, name, deadline)
    ensures name in Record(h, e).node.attached && NothingBefore(Record(h, e).node, name, deadline)
  {
    if e.Restart? {
      NothingBeforeRestart(h.node, name, deadline);
    }
  }

  lemma NothingBeforeRestart(n: Node, name: Name, deadline: int)
    requires Possible(n, Restart) && NothingBefore(n, name, deadline)
    ensures NothingBefore(Step(n, Restart), name, deadline)
  {
    assert forall t | t in Step(n, Restart).timers :: t in Rearmed(n.files, n.files.Keys, n.now);
  }

  lemma {:induction false} NothingBeforeStays(h: History, events: seq<Event>, name: Name, deadline: int)
    requires Legal(h, events) && (forall e | e in events :: !Concerns(e, name))
    requires name in h.node.attached && NothingBefore(h.node, name, deadline)
    ensures Run(h, events).node.now < deadline ==> name in Run(h, events).node.attached
    decreases |events|
  {
    if events != [] && Run(h, events).node.now < deadline {
      ClockGrows(h, events);
      assert events[0] in events;
      NothingBeforeStep(h, events[0], name, deadline);
      NothingBeforeStays(Record(h, events[0]), events[1..], name, deadline);
    }
  }

  /**
   A repair with a watchdog takes the deadline file over, but not the timers: it lasts until
   its own deadline exactly when no timer of an earlier enable falls due before.
   */
  lemma WatchedRepairLastsExactly(h: History, name: Name, wd: int)
    requires h.node.up && wd > 0
    ensures StaysUntil(Record(h, Enable(name, wd, true)), name, h.node.now + wd) <==>
              forall t | t in h.node.timers && t.name == name :: h.node.now + wd <= t.due
  {
    var h', deadline := Record(h, Enable(name, wd, true)), h.node.now + wd;
    if t :| t in h.node.timers && t.name == name && t.due < deadline {
      assert t in h'.node.timers;
      LeftoverFiresBefore(h', t, deadline);
    } else {
      assert NothingBefore(h'.node, name, deadline);
      forall events | Legal(h', events) && (forall e | e in events :: !Concerns(e, name)) && Run(h', events).node.now < deadline
        ensures name in Run(h', events).node.attached
      {
        NothingBeforeStays(h', events, name, deadline);
      }
    }
  }

  lemma LeftoverFiresBefore(h: History, t: Timer, deadline: int)
    requires h.node.up && t in h.node.timers && t.name !in h.node.confirmed
    requires t.due < deadline && h.node.now < deadline
    ensures !StaysUntil(h, t.name, deadline)
  {
    LeftoverFires(h, t);
    assert forall e | e in LeftoverRun(h.node, t) :: !Concerns(e, t.name);
  }

  lemma OneEventMore(h: History, e: Event, rest: seq<Event>)
    ensures Legal(h, [e] + rest) <==> Possible(h.node, e) && Legal(Record(h, e), rest)
    ensures Run(h, [e] + rest) == Run(Record(h, e), rest)
  {
    assert ([e] + rest)[1..] == rest;
  }

  /** Such left-overs do occur: enable, confirm, repair, and the first timer still takes the mirror off. */
  lemma ConfirmedRepairIsLost()
    ensures var events := [Enable("m", 120, true), Confirm("m"), Enable("m", -1, true), Tick(120), Fire(Timer("m", 120))];
            Legal(Boot(0, true), events) && "m" !in Run(Boot(0, true), events).node.attached
  {
    RepairedRun("m");
    assert [Enable("m", 120, true)] + ([Confirm("m")] + ([Enable("m", -1, true)] + [Tick(120), Fire(Timer("m", 120))])) ==
           [Enable("m", 120, true), Confirm("m"), Enable("m", -1, true), Tick(120), Fire(Timer("m", 120))];
  }

  lemma RepairedRun(m: Name)
    ensures var rest := [Tick(120), Fire(Timer(m, 120))];
            var events := [Enable(m, 120, true)] + ([Confirm(m)] + ([Enable(m, -1, true)] + rest));
            Legal(Boot(0, true), events) && m !in Run(Boot(0, true), events).node.attached
  {
    var rest := [Tick(120), Fire(Timer(m, 120))];
    var h0 := Boot(0, true);
    var h1 := Record(h0, Enable(m, 120, true));
    var h2 := Record(h1, Confirm(m));
    var h3 := Record(h2, Enable(m, -1, true));
    OneEventMore(h2, Enable(m, -1, true), rest);
    OneEventMore(h1, Confirm(m), [Enable(m, -1, true)] + rest);
    OneEventMore(h0, Enable(m, 120, true), [Confirm(m)] + ([Enable(m, -1, true)] + rest));
    LeftoverFires(h3, Timer(m, 120));
  }
}
