/**
 Two runs of an offline migration that end badly: a repeated takeover and the cleanup
 destroy both copies of the firmware file, and a refused takeover has already replaced
 a disk of another machine.
 */
module MigrationLosses {
  import opened Text
  import opened ColdMigrations
  import opened MigrationRuns
  import opened Remappings
  import opened FirmwarePaths

  /** A machine with one disk and a firmware file, both where the platform keeps them. */
  datatype Machine = Machine(disk: Entry, firmware: Entry, xml: string)

  predicate Typical(m: Machine) {
    m.disk.kind.Disk? && m.firmware.kind.Nvram? && Placed(m.disk) && Placed(m.firmware) && m.disk.name != m.firmware.name &&
    m.disk.sourcePath == Dst(m.disk) && m.firmware.sourcePath == Dst(m.firmware) &&
    m.xml != "" && NvramPath(m.xml) == Dst(m.firmware) && FirmwareElsewhere(m.xml)
  }

  function List(m: Machine): seq<Entry> {
    [m.disk, m.firmware]
  }

  function Originals(m: Machine): map<string, File> {
    map[Dst(m.disk) := Whole(1), Dst(m.firmware) := Whole(2)]
  }

  function Staged(m: Machine): map<string, File> {
    map[m.disk.name := Whole(1), m.firmware.name := Whole(2)]
  }

  function JobOf(m: Machine): Job {
    Job(List(m), m.xml, "u", Originals(m))
  }

  // ----- the paths --------------------------------------------------------------------

  /** Files that already lie where the target puts them: the definition stays as it is. */
  lemma {:induction false} RemappedAtHome(xml: string, entries: seq<Entry>)
    requires forall e | e in entries :: e.sourcePath == Dst(e)
    ensures Remapped(xml, entries) == xml
  {
    if entries != [] {
      var last := entries[|entries| - 1];
      RemappedAtHome(xml, entries[..|entries| - 1]);
      ReplaceSame(xml, last.sourcePath);
    }
  }

  predicate DefinesFirmware(xml: string, path: string) {
    xml != "" && NvramPath(xml) == path
  }

  lemma NoBrackets(name: string)
    requires '<' !in name
    ensures '<' !in NVRAM_DIR + name && |NVRAM_DIR + name| > 9 && (NVRAM_DIR + name)[9] == 'l'
  {
    assert NVRAM_DIR[9] == 'l';
  }

  lemma Elsewhere(p: string)
    requires |p| > 9 && p[9] == 'l'
    ensures !HasPrefix(p, IMAGES_DIR)
  {
    assert IMAGES_DIR[9] == 'k';
  }

  lemma JobIsOk(m: Machine)
    requires Typical(m)
    ensures JobOk(JobOf(m)) && Lists(List(m), List(m)) && Remapped(m.xml, List(m)) == m.xml
    ensures Dst(m.disk) != Dst(m.firmware)
  {
    DistinctDestinations(m.disk, m.firmware);
    RemappedAtHome(m.xml, List(m));
    ListsItself(m);
    ListedAtHome(m);
  }

  lemma ListsItself(m: Machine)
    requires Typical(m)
    ensures DistinctNames(List(m)) && Lists(List(m), List(m))
  {
    SlashInPlace(m.disk);
    SlashInPlace(m.firmware);
  }

  lemma ListedAtHome(m: Machine)
    requires Typical(m)
    ensures forall sent | Lists(List(m), sent) :: FirmwareElsewhere(Remapped(m.xml, sent))
  {
    forall sent | Lists(List(m), sent)
      ensures FirmwareElsewhere(Remapped(m.xml, sent))
    {
      assert forall e | e in sent :: e in List(m);
      RemappedAtHome(m.xml, sent);
    }
  }

  // ----- one takeover, by renaming ----------------------------------------------------------

  /** Both files renamed into place. */
  function Moved(m: Machine, t: Target): Target {
    t.(files := t.files[Dst(m.disk) := Whole(1)][Dst(m.firmware) := Whole(2)], staging := map[])
  }

  lemma MovesBoth(m: Machine, t: Target)
    requires Typical(m) && t.staging == Staged(m)
    ensures PlacedUpTo(t, Moved(m, t), List(m), 2)
  {
    var t1 := t.(files := t.files[Dst(m.disk) := Whole(1)], staging := Staged(m) - {m.disk.name});
    assert PlacedUpTo(t, t, List(m), 0) && EntryStep(t, t1, List(m)[0], true);
    assert PlacedUpTo(t, t1, List(m), 1);
    assert Staged(m) - {m.disk.name} - {m.firmware.name} == map[];
    assert EntryStep(t1, Moved(m, t), List(m)[1], true);
  }

  // ----- the firmware is lost ------------------------------------------------------------

  function Exporting(m: Machine): Source {
    Source(Originals(m), Staged(m), List(m), Domain("u", m.xml))
  }

  const EMPTY := Target(map[], map[], NoDomain)

  function Taken(m: Machine): Target {
    Target(Originals(m), map[], Domain("u", m.xml))
  }

  function Retaken(m: Machine): Target {
    Target(map[Dst(m.disk) := Whole(1)], map[], Domain("u", m.xml))
  }

  function Beginning(m: Machine, t: Target): World {
    World(Source(Originals(m), map[], [], Domain("u", m.xml)), t, [], false, false, false, false)
  }

  /** The files are staged on the source. */
  function Sent(m: Machine, t: Target, taken: bool): World {
    World(Exporting(m), t, List(m), true, false, taken, false)
  }

  /** The files have arrived at the target. */
  function Arrived(m: Machine, t: Target, taken: bool): World {
    World(Exporting(m), t, List(m), true, true, taken, false)
  }

  function WithStaged(m: Machine, t: Target): Target {
    t.(staging := Staged(m))
  }

  function Cleaned(m: Machine, t: Target): World {
    World(Source(map[], map[], [], NoDomain), t, List(m), false, true, true, true)
  }

  function LossEvents(m: Machine): seq<Event> {
    [Export(List(m), true), Transfer(true), Takeover(true)] +
    [Export(List(m), true)] + [Transfer(true)] + [Takeover(true)] + [Cleanup(true)]
  }

  function LossWorlds(m: Machine): seq<World> {
    [Beginning(m, EMPTY), Sent(m, EMPTY, false), Arrived(m, WithStaged(m, EMPTY), false), Arrived(m, Taken(m), true)] +
    [Sent(m, Taken(m), true)] + [Arrived(m, WithStaged(m, Taken(m)), true)] + [Arrived(m, Retaken(m), true)] +
    [Cleaned(m, Retaken(m))]
  }

  lemma ExportStep(m: Machine, s: Source)
    requires Typical(m) && s.files == Originals(m) && s.domain == Domain("u", m.xml) && s.staging.Keys <= Staged(m).Keys
    ensures Exported(s, Exporting(m), List(m), List(m), true)
  {
    JobIsOk(m);
    StagesBoth(m);
    NothingElsewhere(m, s);
  }

  lemma StagesBoth(m: Machine)
    requires Typical(m)
    ensures forall e | e in List(m) :: StagedAsIs(Exporting(m), e)
  {
    DistinctDestinations(m.disk, m.firmware);
  }

  lemma NothingElsewhere(m: Machine, s: Source)
    requires s.staging.Keys <= Staged(m).Keys
    ensures StagedElsewhere(s, Exporting(m), List(m))
  {
    assert m.disk in List(m) && m.firmware in List(m);
  }

  lemma TransferStep(m: Machine, t: Target)
    requires Typical(m)
    ensures Transferred(Exporting(m), t, WithStaged(m, t), List(m), true)
  {
  }

  /** A takeover that renames both files and then goes on as it does. */
  lemma TakesOver(m: Machine, t: Target, t': Target, ok: bool)
    requires Typical(m) && t.staging == Staged(m) && Redefined(Moved(m, t), t', "u", m.xml, ok)
    ensures TookOver(t, t', m.xml, "u", List(m), ok)
  {
    JobIsOk(m);
    MovesBoth(m, t);
  }

  lemma Defines(m: Machine, t: Target)
    requires Typical(m) && t == WithStaged(m, EMPTY)
    ensures Redefined(Moved(m, t), Taken(m), "u", m.xml, true)
  {
    assert Moved(m, t).files == Originals(m);
  }

  lemma DefinesAgain(m: Machine, t: Target)
    requires Typical(m) && t == WithStaged(m, Taken(m))
    ensures Redefined(Moved(m, t), Retaken(m), "u", m.xml, true)
  {
    DistinctDestinations(m.disk, m.firmware);
    OneIsLeft(Dst(m.disk), Dst(m.firmware));
  }

  lemma OneIsLeft(d: string, f: string)
    requires d != f
    ensures map[d := Whole(1), f := Whole(2)][d := Whole(1)][f := Whole(2)] - {f} == map[d := Whole(1)]
  {
  }

  lemma LastCleanup(m: Machine)
    requires Typical(m)
    ensures CleanedUp(Exporting(m), Source(map[], map[], [], NoDomain), List(m), true)
  {
    assert m.disk in List(m);
  }

  // ----- the steps of both runs -------------------------------------------------------------

  lemma Exports(m: Machine, w: World)
    requires Typical(m) && w.source.files == Originals(m) && w.source.domain == Domain("u", m.xml) && !w.cleaning
    requires w.source.staging.Keys <= Staged(m).Keys
    ensures Step(JobOf(m), w, Export(List(m), true), Sent(m, w.target, w.taken))
  {
    ExportStep(m, w.source);
  }

  lemma Transfers(m: Machine, t: Target, taken: bool)
    requires Typical(m)
    ensures Step(JobOf(m), Sent(m, t, taken), Transfer(true), Arrived(m, WithStaged(m, t), taken))
  {
    TransferStep(m, t);
  }

  lemma Takes(m: Machine, t: Target, t': Target, taken: bool, ok: bool)
    requires Typical(m) && t.staging == Staged(m) && Redefined(Moved(m, t), t', "u", m.xml, ok)
    ensures Step(JobOf(m), Arrived(m, t, taken), Takeover(ok), Arrived(m, t', ok))
  {
    TakesOver(m, t, t', ok);
  }

  lemma Cleans(m: Machine)
    requires Typical(m)
    ensures Step(JobOf(m), Arrived(m, Retaken(m), true), Cleanup(true), Cleaned(m, Retaken(m)))
  {
    LastCleanup(m);
  }

  lemma {:induction false} RunFromSteps(job: Job, ws: seq<World>, evs: seq<Event>)
    requires |ws| == |evs| + 1 && JobOk(job) && Starts(job, ws[0])
    requires forall i | 0 <= i < |evs| :: Step(job, ws[i], evs[i], ws[i + 1])
    ensures Run(job, ws, evs)
  {
  }

  lemma ThreeSteps(job: Job, w0: World, e0: Event, w1: World, e1: Event, w2: World, e2: Event, w3: World)
    requires JobOk(job) && Starts(job, w0)
    requires Step(job, w0, e0, w1) && Step(job, w1, e1, w2) && Step(job, w2, e2, w3)
    ensures Run(job, [w0, w1, w2, w3], [e0, e1, e2])
  {
    RunFromSteps(job, [w0, w1, w2, w3], [e0, e1, e2]);
  }

  lemma {:induction false} LongerRun(job: Job, ws: seq<World>, evs: seq<Event>, ev: Event, w: World)
    requires Run(job, ws, evs) && Step(job, ws[|evs|], ev, w)
    ensures Run(job, ws + [w], evs + [ev])
  {
    forall i | 0 <= i < |evs| + 1
      ensures StepAt(job, ws + [w], evs + [ev], i)
    {
      assert i < |evs| ==> StepAt(job, ws, evs, i);
    }
  }

  /**
   The reply to a takeover that succeeded is lost, or recording it fails; the
   migration is repeated and succeeds; and then there is no firmware file any more.
   */
  lemma FirmwareIsLost(m: Machine)
    requires Typical(m)
    ensures Run(JobOf(m), LossWorlds(m), LossEvents(m)) && IsFirmware(JobOf(m), m.firmware)
    ensures var w := LossWorlds(m)[7];
            !OnSource(JobOf(m), w.source, m.firmware) && !OnTarget(JobOf(m), w.target, m.firmware)
  {
    FirstRound(m);
    SecondRound(m, [Beginning(m, EMPTY), Sent(m, EMPTY, false), Arrived(m, WithStaged(m, EMPTY), false), Arrived(m, Taken(m), true)],
                [Export(List(m), true), Transfer(true), Takeover(true)]);
    JobIsOk(m);
    assert LossWorlds(m)[7] == Cleaned(m, Retaken(m));
  }

  lemma FirstRound(m: Machine)
    requires Typical(m)
    ensures Run(JobOf(m), [Beginning(m, EMPTY), Sent(m, EMPTY, false), Arrived(m, WithStaged(m, EMPTY), false), Arrived(m, Taken(m), true)],
                [Export(List(m), true), Transfer(true), Takeover(true)])
  {
    JobIsOk(m);
    Exports(m, Beginning(m, EMPTY));
    Transfers(m, EMPTY, false);
    Defines(m, WithStaged(m, EMPTY));
    Takes(m, WithStaged(m, EMPTY), Taken(m), false, true);
    ThreeSteps(JobOf(m), Beginning(m, EMPTY), Export(List(m), true), Sent(m, EMPTY, false), Transfer(true),
               Arrived(m, WithStaged(m, EMPTY), false), Takeover(true), Arrived(m, Taken(m), true));
  }

  /** The migration is repeated after a takeover that succeeded. */
  lemma SecondRound(m: Machine, ws: seq<World>, evs: seq<Event>)
    requires Typical(m) && Run(JobOf(m), ws, evs) && ws[|evs|] == Arrived(m, Taken(m), true)
    ensures Run(JobOf(m),
                ws + [Sent(m, Taken(m), true)] + [Arrived(m, WithStaged(m, Taken(m)), true)] + [Arrived(m, Retaken(m), true)] +
                [Cleaned(m, Retaken(m))],
                evs + [Export(List(m), true)] + [Transfer(true)] + [Takeover(true)] + [Cleanup(true)])
  {
    var job := JobOf(m);
    Exports(m, Arrived(m, Taken(m), true));
    LongerRun(job, ws, evs, Export(List(m), true), Sent(m, Taken(m), true));
    var ws4, evs4 := ws + [Sent(m, Taken(m), true)], evs + [Export(List(m), true)];
    Transfers(m, Taken(m), true);
    LongerRun(job, ws4, evs4, Transfer(true), Arrived(m, WithStaged(m, Taken(m)), true));
    var ws5, evs5 := ws4 + [Arrived(m, WithStaged(m, Taken(m)), true)], evs4 + [Transfer(true)];
    DefinesAgain(m, WithStaged(m, Taken(m)));
    Takes(m, WithStaged(m, Taken(m)), Retaken(m), true, true);
    LongerRun(job, ws5, evs5, Takeover(true), Arrived(m, Retaken(m), true));
    Cleans(m);
    LongerRun(job, ws5 + [Arrived(m, Retaken(m), true)], evs5 + [Takeover(true)], Cleanup(true), Cleaned(m, Retaken(m)));
  }

  /** A machine whose definition names its firmware file. */
  lemma NamedFirmware(disk: Entry, firmware: Entry)
    requires disk.kind.Disk? && firmware.kind.Nvram? && Placed(disk) && Placed(firmware) && disk.name != firmware.name
    requires disk.sourcePath == Dst(disk) && firmware.sourcePath == Dst(firmware) && '<' !in firmware.name
    ensures exists m :: Typical(m)
  {
    NoBrackets(firmware.name);
    var xml := SomeDefinition(Dst(firmware));
    Elsewhere(Dst(firmware));
    assert Typical(Machine(disk, firmware, xml));
  }

  lemma SomeDefinition(path: string) returns (xml: string)
    requires path != "" && '<' !in path
    ensures DefinesFirmware(xml, path)
  {
    xml := Element("", path);
    FirstElementIsNamed("", "", path, "");
    assert "" + (Element("", path) + "") == xml;
  }

  /** There are such machines. */
  lemma SomeMachine()
    ensures exists m :: Typical(m)
  {
    NamedFirmware(Entry("d", Disk, IMAGES_DIR + "d"), Entry("f", Nvram, NVRAM_DIR + "f"));
  }

  // ----- another machine loses its disk ------------------------------------------------------

  /** A node that has a machine of the same name, with a disk of the same name. */
  function Stranger(m: Machine): Target {
    Target(map[Dst(m.disk) := Whole(9)], map[], Domain("v", ""))
  }

  function Robbed(m: Machine): Target {
    Target(Originals(m), map[], Domain("v", ""))
  }

  function StrangerEvents(m: Machine): seq<Event> {
    [Export(List(m), true), Transfer(true), Takeover(false)]
  }

  function StrangerWorlds(m: Machine): seq<World> {
    [Beginning(m, Stranger(m)), Sent(m, Stranger(m), false), Arrived(m, WithStaged(m, Stranger(m)), false),
     Arrived(m, Robbed(m), false)]
  }

  lemma Refuses(m: Machine, t: Target)
    requires Typical(m) && t == WithStaged(m, Stranger(m))
    ensures Redefined(Moved(m, t), Robbed(m), "u", m.xml, false)
  {
    assert Moved(m, t).files == Originals(m);
  }

  /** The takeover is refused because of the other machine, whose disk is gone by then. */
  lemma StrangerLosesItsDisk(m: Machine)
    requires Typical(m)
    ensures Run(JobOf(m), StrangerWorlds(m), StrangerEvents(m))
    ensures var t, t' := Stranger(m), StrangerWorlds(m)[3].target;
            t'.domain == t.domain && Dst(m.disk) in t.files && Dst(m.disk) in t'.files &&
            t'.files[Dst(m.disk)] != t.files[Dst(m.disk)]
  {
    JobIsOk(m);
    Exports(m, Beginning(m, Stranger(m)));
    Transfers(m, Stranger(m), false);
    Refuses(m, WithStaged(m, Stranger(m)));
    Takes(m, WithStaged(m, Stranger(m)), Robbed(m), false, false);
    ThreeSteps(JobOf(m), Beginning(m, Stranger(m)), Export(List(m), true), Sent(m, Stranger(m), false), Transfer(true),
               Arrived(m, WithStaged(m, Stranger(m)), false), Takeover(false), Arrived(m, Robbed(m), false));
  }
}
