/**
 Runs of an offline migration: any interleaving of exports, transfers, takeovers and
 cleanups, each failing anywhere and repeated at will. The control plane takes over
 only what a successful transfer carried, cleans up only after a takeover that
 succeeded, and does not take over again once it has begun to clean up.
 */
module MigrationRuns {
  import opened Text
  import opened ColdMigrations

  /** What stays fixed: the machine, its definition, its files and what they hold. */
  datatype Job = Job(entries: seq<Entry>, xml: string, uuid: string, originals: map<string, File>)

  datatype World = World(source: Source, target: Target, sent: seq<Entry>,
                         exported: bool, arrived: bool, taken: bool, cleaning: bool)

  datatype Event =
    | Export(sent: seq<Entry>, ok: bool)
    | Transfer(ok: bool)
    | Takeover(ok: bool)
    | Cleanup(undefined: bool)

  /** A definition's firmware file is none of the disks. */
  predicate FirmwareElsewhere(xml: string) {
    !HasPrefix(NvramPath(xml), IMAGES_DIR)
  }

  ghost predicate JobOk(job: Job) {
    DistinctNames(job.entries) &&
    (forall e | e in job.entries && e.kind.Disk? :: e.sourcePath in job.originals && job.originals[e.sourcePath].Whole?) &&
    forall sent | Lists(job.entries, sent) :: FirmwareElsewhere(Remapped(job.xml, sent))
  }

  ghost predicate Starts(job: Job, w: World) {
    w.source.files == job.originals && w.source.domain == Domain(job.uuid, job.xml) &&
    (Ours(job, w.target) ==> FirmwareElsewhere(w.target.domain.xml)) &&
    !w.exported && !w.arrived && !w.taken && !w.cleaning
  }

  /** The transfer writes the target's staging area only; a success has copied every listed file. */
  ghost predicate Transferred(s: Source, t: Target, t': Target, sent: seq<Entry>, ok: bool) {
    t'.files == t.files && t'.domain == t.domain &&
    (ok ==> forall e | e in sent ::
      e.name in s.staging && e.name in t'.staging && t'.staging[e.name] == s.staging[e.name])
  }

  ghost predicate Step(job: Job, w: World, ev: Event, w': World) {
    match ev
    case Export(sent, ok) =>
      Exported(w.source, w'.source, job.entries, sent, ok) &&
      w' == w.(source := w'.source,
               sent := if ok then sent else w.sent,
               exported := ok && w.source.domain.Domain?,
               arrived := w.arrived && !ok)
    case Transfer(ok) =>
      (ok ==> w.exported) &&
      Transferred(w.source, w.target, w'.target, w.sent, ok) &&
      w' == w.(target := w'.target, arrived := ok)
    case Takeover(ok) =>
      w.arrived && !w.cleaning &&
      TookOver(w.target, w'.target, job.xml, job.uuid, w.sent, ok) &&
      w' == w.(target := w'.target, taken := ok)
    case Cleanup(undefined) =>
      w.taken &&
      CleanedUp(w.source, w'.source, w.sent, undefined) &&
      w' == w.(source := w'.source, exported := false, cleaning := true)
  }

  /** The path on the target holds what the original held. */
  predicate OnTarget(job: Job, t: Target, e: Entry) {
    e.sourcePath in job.originals && Dst(e) in t.files && t.files[Dst(e)] == job.originals[e.sourcePath]
  }

  predicate OnSource(job: Job, s: Source, e: Entry) {
    e.sourcePath in job.originals && e.sourcePath in s.files && s.files[e.sourcePath] == job.originals[e.sourcePath]
  }

  predicate StagedRight(job: Job, staging: map<string, File>, e: Entry) {
    e.sourcePath in job.originals && e.name in staging && staging[e.name] == job.originals[e.sourcePath]
  }

  /** Either the right copy is staged, or the right copy is in place; firmware may also have gone with a definition. */
  predicate Ready(job: Job, t: Target, e: Entry) {
    if e.name in t.staging then StagedRight(job, t.staging, e)
    else OnTarget(job, t, e) || (!e.kind.Disk? && Dst(e) !in t.files)
  }

  ghost predicate Ours(job: Job, t: Target) {
    t.domain.Domain? && t.domain.uuid == job.uuid
  }

  /** The source has lost nothing yet. */
  predicate Intact(job: Job, s: Source) {
    s.files == job.originals && s.domain == Domain(job.uuid, job.xml)
  }

  ghost predicate Inv(job: Job, w: World) {
    (!w.cleaning ==> Intact(job, w.source)) &&
    (w.exported || w.arrived ==> Lists(job.entries, w.sent) || w.cleaning) &&
    (w.exported ==> forall e | e in w.sent :: w.cleaning || StagedRight(job, w.source.staging, e)) &&
    (w.arrived ==> forall e | e in w.sent :: w.cleaning || Ready(job, w.target, e)) &&
    (w.cleaning ==> w.taken) &&
    (w.taken ==> Ours(job, w.target)) &&
    (Ours(job, w.target) ==> FirmwareElsewhere(w.target.domain.xml)) &&
    (w.taken ==> forall e | e in job.entries && e.kind.Disk? :: OnTarget(job, w.target, e))
  }

  // ----- each kind of step keeps the invariant -----------------------------------------

  lemma ExportKeeps(job: Job, w: World, ev: Event, w': World)
    requires JobOk(job) && Inv(job, w) && ev.Export? && Step(job, w, ev, w')
    ensures Inv(job, w')
  {
  }

  lemma TransferKeeps(job: Job, w: World, ev: Event, w': World)
    requires JobOk(job) && Inv(job, w) && ev.Transfer? && Step(job, w, ev, w')
    ensures Inv(job, w')
  {
  }

  lemma CleanupKeeps(job: Job, w: World, ev: Event, w': World)
    requires JobOk(job) && Inv(job, w) && ev.Cleanup? && Step(job, w, ev, w')
    ensures Inv(job, w')
  {
  }

  lemma NoDiskIsFirmware(e: Entry, xml: string)
    requires e.kind.Disk? && FirmwareElsewhere(xml)
    ensures NvramPath(xml) != Dst(e)
  {
    assert HasPrefix(Dst(e), IMAGES_DIR);
  }

  lemma TakeoverKeepsReady(job: Job, w: World, ok: bool, w': World, e: Entry)
    requires JobOk(job) && Inv(job, w) && Step(job, w, Takeover(ok), w') && e in w.sent
    ensures Ready(job, w'.target, e)
    ensures ok && e.kind.Disk? ==> OnTarget(job, w'.target, e)
    ensures ok ==> (OnTarget(job, w'.target, e) <==> !Removes(w.target, job.uuid, Dst(e)))
  {
    TakeoverFile(w.target, w'.target, job.xml, job.uuid, w.sent, ok, e);
    if e.kind.Disk? && Removes(w.target, job.uuid, Dst(e)) {
      NoDiskIsFirmware(e, w.target.domain.xml);
    }
  }

  lemma TakeoverKeeps(job: Job, w: World, ok: bool, w': World)
    requires JobOk(job) && Inv(job, w) && Step(job, w, Takeover(ok), w')
    ensures Inv(job, w')
  {
    TakeoverDomain(w.target, w'.target, job.xml, job.uuid, w.sent, ok);
    forall e | e in w.sent
      ensures Ready(job, w'.target, e) && (ok && e.kind.Disk? ==> OnTarget(job, w'.target, e))
    {
      TakeoverKeepsReady(job, w, ok, w', e);
    }
  }

  lemma StepKeeps(job: Job, w: World, ev: Event, w': World)
    requires JobOk(job) && Inv(job, w) && Step(job, w, ev, w')
    ensures Inv(job, w')
  {
    match ev
    case Export(_, _) => ExportKeeps(job, w, ev, w');
    case Transfer(_) => TransferKeeps(job, w, ev, w');
    case Takeover(ok) => TakeoverKeeps(job, w, ok, w');
    case Cleanup(_) => CleanupKeeps(job, w, ev, w');
  }

  // ----- runs ------------------------------------------------------------------------------

  ghost predicate StepAt(job: Job, ws: seq<World>, evs: seq<Event>, i: nat)
    requires |ws| == |evs| + 1 && i < |evs|
  {
    Step(job, ws[i], evs[i], ws[i + 1])
  }

  ghost predicate Run(job: Job, ws: seq<World>, evs: seq<Event>) {
    |ws| == |evs| + 1 && JobOk(job) && Starts(job, ws[0]) && forall i | 0 <= i < |evs| :: StepAt(job, ws, evs, i)
  }

  lemma {:induction false} RunKeeps(job: Job, ws: seq<World>, evs: seq<Event>, k: nat)
    requires Run(job, ws, evs) && k < |ws|
    ensures Inv(job, ws[k])
  {
    if k > 0 {
      RunKeeps(job, ws, evs, k - 1);
      assert StepAt(job, ws, evs, k - 1);
      StepKeeps(job, ws[k - 1], evs[k - 1], ws[k]);
    }
  }

  /** At every moment of every run each disk has a complete copy, and a node holds the definition. */
  lemma NothingIsLost(job: Job, ws: seq<World>, evs: seq<Event>, k: nat)
    requires Run(job, ws, evs) && k < |ws|
    ensures forall e | e in job.entries && e.kind.Disk? ::
              job.originals[e.sourcePath].Whole? &&
              (OnSource(job, ws[k].source, e) || OnTarget(job, ws[k].target, e))
    ensures ws[k].source.domain == Domain(job.uuid, job.xml) || Ours(job, ws[k].target)
  {
    RunKeeps(job, ws, evs, k);
  }

  /** However earlier attempts broke off, a takeover that succeeds ends in the same disks and definition. */
  lemma RetriesEndAlike(job: Job, ws: seq<World>, evs: seq<Event>, k: nat)
    requires Run(job, ws, evs) && k < |evs| && evs[k] == Takeover(true)
    ensures ws[k + 1].target.domain == Domain(job.uuid, Remapped(job.xml, ws[k].sent)) && Lists(job.entries, ws[k].sent)
    ensures forall e | e in job.entries && e.kind.Disk? :: OnTarget(job, ws[k + 1].target, e)
  {
    RunKeeps(job, ws, evs, k);
    assert StepAt(job, ws, evs, k);
    RunKeeps(job, ws, evs, k + 1);
    TakeoverDomain(ws[k].target, ws[k + 1].target, job.xml, job.uuid, ws[k].sent, true);
  }

  // ----- sending the list again -------------------------------------------------------------

  /** An export that succeeded while the source had its definition. */
  predicate ExportsAt(ws: seq<World>, evs: seq<Event>, i: nat)
    requires |ws| == |evs| + 1 && i < |evs|
  {
    evs[i].Export? && evs[i].ok && ws[i].source.domain.Domain?
  }

  /** Between two moments no export succeeds with the definition there. */
  predicate NoExport(ws: seq<World>, evs: seq<Event>, j: nat, k: nat)
    requires |ws| == |evs| + 1 && j <= k <= |evs|
  {
    forall i | j <= i < k :: !ExportsAt(ws, evs, i)
  }

  lemma {:induction false} StoredListStays(job: Job, ws: seq<World>, evs: seq<Event>, j: nat, k: nat)
    requires Run(job, ws, evs) && j <= k <= |evs| && NoExport(ws, evs, j, k)
    ensures ws[k].source.manifest == ws[j].source.manifest || ws[k].source.manifest == []
    decreases k
  {
    if j < k {
      StoredListStays(job, ws, evs, j, k - 1);
      assert StepAt(job, ws, evs, k - 1) && !ExportsAt(ws, evs, k - 1);
      ListStep(job, ws[k - 1], evs[k - 1], ws[k]);
    }
  }

  lemma ListStep(job: Job, w: World, ev: Event, w': World)
    requires Step(job, w, ev, w') && !(ev.Export? && ev.ok && w.source.domain.Domain?)
    ensures w'.source.manifest == w.source.manifest || w'.source.manifest == []
  {
  }

  /**
   An export that succeeds without a definition sends exactly the list of the last
   successful export with one, if and only if that export has stored it; otherwise it
   sends the list that was stored before.
   */
  lemma ResendsExactly(job: Job, ws: seq<World>, evs: seq<Event>, j: nat, k: nat)
    requires Run(job, ws, evs) && j < k < |evs| && ExportsAt(ws, evs, j) && NoExport(ws, evs, j + 1, k)
    requires evs[k].Export? && evs[k].ok && ws[k].source.domain.NoDomain?
    ensures evs[k].sent == evs[j].sent <==> ws[j + 1].source.manifest == evs[j].sent
    ensures evs[k].sent == evs[j].sent || evs[k].sent == ws[j].source.manifest
  {
    StoredListStays(job, ws, evs, j + 1, k);
    assert StepAt(job, ws, evs, j) && StepAt(job, ws, evs, k);
  }

  lemma {:induction false} StoredListHasDisks(job: Job, ws: seq<World>, evs: seq<Event>, k: nat)
    requires Run(job, ws, evs) && k < |ws| && ws[0].source.manifest == []
    ensures ws[k].source.manifest == [] || Lists(job.entries, ws[k].source.manifest)
  {
    if k > 0 {
      StoredListHasDisks(job, ws, evs, k - 1);
      assert StepAt(job, ws, evs, k - 1);
    }
  }

  /** Whatever is sent, first or again, holds every disk of the machine. */
  lemma EveryDiskIsSent(job: Job, ws: seq<World>, evs: seq<Event>, k: nat)
    requires Run(job, ws, evs) && k < |evs| && ws[0].source.manifest == [] && evs[k].Export? && evs[k].ok
    ensures Lists(job.entries, evs[k].sent)
  {
    StoredListHasDisks(job, ws, evs, k);
    assert StepAt(job, ws, evs, k);
  }

  // ----- the firmware file ------------------------------------------------------------------

  /** The machine's firmware file, which its definition names. */
  predicate IsFirmware(job: Job, f: Entry) {
    f in job.entries && f.kind.Nvram? && Placed(f) && f.sourcePath == NvramPath(job.xml)
  }

  /** The firmware is in place once the takeover has succeeded. */
  predicate Kept(job: Job, w: World, f: Entry) {
    (f in w.sent || OnTarget(job, w.target, f)) && !Removes(w.target, job.uuid, Dst(f))
  }

  /**
   After a takeover that succeeds the firmware is in place if and only if it was
   handed over or there already, and no definition was removed that names its place.
   */
  lemma FirmwareInPlaceExactly(job: Job, ws: seq<World>, evs: seq<Event>, k: nat, f: Entry)
    requires Run(job, ws, evs) && k < |evs| && evs[k] == Takeover(true) && IsFirmware(job, f)
    ensures OnTarget(job, ws[k + 1].target, f) <==> Kept(job, ws[k], f)
  {
    var w, w' := ws[k], ws[k + 1];
    RunKeeps(job, ws, evs, k);
    assert StepAt(job, ws, evs, k);
    if f in w.sent {
      TakeoverKeepsReady(job, w, true, w', f);
    } else {
      forall e | e in w.sent && Placed(e)
        ensures Dst(e) != Dst(f)
      {
        OthersGoElsewhere(job.entries, e, f);
      }
      TakeoverOther(w.target, w'.target, job.xml, job.uuid, w.sent, Dst(f));
    }
  }

  lemma OthersGoElsewhere(entries: seq<Entry>, e: Entry, f: Entry)
    requires DistinctNames(entries) && e in entries && f in entries && e != f
    ensures Dst(e) != Dst(f)
  {
    var k :| 0 <= k < |entries| && entries[k] == f;
    SameNameSameEntry(entries, e, k);
    DistinctDestinations(e, f);
  }

  /** From moment j on the run takes nothing over any more. */
  predicate NoTakeover(evs: seq<Event>, j: nat, k: nat)
    requires j <= k <= |evs|
  {
    forall i | j <= i < k :: !evs[i].Takeover?
  }

  lemma {:induction false} TargetFilesStay(job: Job, ws: seq<World>, evs: seq<Event>, j: nat, k: nat)
    requires Run(job, ws, evs) && j <= k <= |evs| && NoTakeover(evs, j, k)
    ensures ws[k].target.files == ws[j].target.files
    decreases k
  {
    if j < k {
      TargetFilesStay(job, ws, evs, j, k - 1);
      assert StepAt(job, ws, evs, k - 1);
    }
  }

  /** What the source has lost stays lost. */
  lemma {:induction false} SourceLosses(job: Job, ws: seq<World>, evs: seq<Event>, i: nat, k: nat, p: string)
    requires Run(job, ws, evs) && i <= k <= |evs| && p !in ws[i].source.files
    ensures p !in ws[k].source.files
    decreases k
  {
    if i < k {
      SourceLosses(job, ws, evs, i, k - 1, p);
      assert StepAt(job, ws, evs, k - 1);
    }
  }

  /** The source keeps its definition until a cleanup removes it. */
  lemma {:induction false} DefinitionStays(job: Job, ws: seq<World>, evs: seq<Event>, k: nat)
    requires Run(job, ws, evs) && k <= |evs|
    requires ws[k].source.domain.Domain?
    ensures ws[k].source.domain == Domain(job.uuid, job.xml)
    decreases k
  {
    if k > 0 {
      assert StepAt(job, ws, evs, k - 1);
      DefinitionStays(job, ws, evs, k - 1);
    }
  }

  /**
   Once a cleanup has removed the source's definition, and its firmware file with it,
   a copy of the firmware survives if and only if the last takeover left it in place.
   */
  lemma FirmwareSurvivesExactly(job: Job, ws: seq<World>, evs: seq<Event>, j: nat, i: nat, k: nat, f: Entry)
    requires Run(job, ws, evs) && IsFirmware(job, f) && j < i < k <= |evs|
    requires evs[j] == Takeover(true) && NoTakeover(evs, j + 1, k) && evs[i] == Cleanup(true)
    ensures OnSource(job, ws[k].source, f) || OnTarget(job, ws[k].target, f) <==> Kept(job, ws[j], f)
  {
    FirmwareInPlaceExactly(job, ws, evs, j, f);
    TargetFilesStay(job, ws, evs, j + 1, k);
    assert StepAt(job, ws, evs, i);
    DefinitionStays(job, ws, evs, i);
    SourceLosses(job, ws, evs, i + 1, k, f.sourcePath);
  }

  // ----- another machine of the same name ------------------------------------------------------

  /** Its definition stays, and the source loses nothing; its files are another matter. */
  lemma {:induction false} StrangersKeepTheirDefinition(job: Job, ws: seq<World>, evs: seq<Event>, k: nat)
    requires Run(job, ws, evs) && k < |ws|
    requires ws[0].target.domain.Domain? && ws[0].target.domain.uuid != job.uuid
    ensures ws[k].target.domain == ws[0].target.domain
    ensures Intact(job, ws[k].source) && !ws[k].taken
  {
    RunKeeps(job, ws, evs, k);
    if k > 0 {
      var w, w' := ws[k - 1], ws[k];
      StrangersKeepTheirDefinition(job, ws, evs, k - 1);
      RunKeeps(job, ws, evs, k - 1);
      assert StepAt(job, ws, evs, k - 1);
      if evs[k - 1].Takeover? {
        TakeoverDomain(w.target, w'.target, job.xml, job.uuid, w.sent, evs[k - 1].ok);
      }
    }
  }
}
