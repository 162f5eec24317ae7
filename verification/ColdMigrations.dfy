/**
 Offline migration of a machine between two nodes with separate file systems: the
 source stages its disks, the control plane carries them over, the target puts them
 in place and defines the domain, and only then is the source cleaned up. Every
 operation may fail at any file and may be repeated.
 */
module ColdMigrations {
  import opened Text

  /** A file on a node: a complete copy of something, or what an interrupted copy left. */
  datatype File = Whole(content: int) | Partial

  datatype Kind = Disk | Nvram | Memory

  /** One entry of the list that the source hands over. */
  datatype Entry = Entry(name: string, kind: Kind, sourcePath: string)

  /** A definition; the firmware file it names is part of its text. */
  datatype Definition = NoDomain | Domain(uuid: string, xml: string)

  /** The source: files by path, staged copies by base name, the list left for retries ([] when unreadable). */
  datatype Source = Source(files: map<string, File>, staging: map<string, File>, manifest: seq<Entry>, domain: Definition)

  datatype Target = Target(files: map<string, File>, staging: map<string, File>, domain: Definition)

  const IMAGES_DIR := "/var/lib/k_cockpit/images/"

  const NVRAM_DIR := "/var/lib/libvirt/qemu/nvram/"

  predicate CleanName(name: string) {
    name != "" && '/' !in name
  }

  /** Only disks and firmware with clean base names are placed. */
  predicate Placed(e: Entry) {
    CleanName(e.name) && !e.kind.Memory?
  }

  function Dst(e: Entry): string {
    (if e.kind.Disk? then IMAGES_DIR else NVRAM_DIR) + e.name
  }

  /** strings.ReplaceAll; the empty pattern occurs in front of every character and at the end. */
  function ReplaceAll(s: string, pattern: string, replacement: string): string {
    if pattern == "" then Interspersed(s, replacement)
    else if Index(s, pattern) < 0 then s
    else
      var i := Index(s, pattern);
      s[..i] + replacement + ReplaceAll(s[i + |pattern|..], pattern, replacement)
  }

  function Interspersed(s: string, between: string): string {
    if s == "" then between else between + [s[0]] + Interspersed(s[1..], between)
  }

  /** The domain definition with every placed file's path replaced, in list order. */
  function Remapped(xml: string, entries: seq<Entry>): string {
    if entries == [] then xml
    else
      var last := entries[|entries| - 1];
      var before := Remapped(xml, entries[..|entries| - 1]);
      if Placed(last) then ReplaceAll(before, last.sourcePath, Dst(last)) else before
  }

  /** The text of an nvram element that starts the string, "" when none does. */
  function NvramHere(s: string): string {
    if !HasPrefix(s, "<nvram") || Index(s[6..], ">") < 0 then ""
    else
      var rest := s[6 + Index(s[6..], ">") + 1..];
      var end := Index(rest, "<");
      if end > 0 && HasPrefix(rest[end..], "</nvram>") then rest[..end] else ""
  }

  /** The firmware path that a definition names, "" when it names none. */
  function NvramPath(xml: string): string {
    if xml == "" then ""
    else if NvramHere(xml) != "" then NvramHere(xml)
    else NvramPath(xml[1..])
  }

  /** Each entry has its own base name. */
  predicate DistinctNames(entries: seq<Entry>) {
    forall i, j | 0 <= i < j < |entries| :: entries[i].name != entries[j].name
  }

  lemma DistinctDestinations(a: Entry, b: Entry)
    requires a.name != b.name
    ensures Dst(a) != Dst(b)
  {
    var dirA, dirB := if a.kind.Disk? then IMAGES_DIR else NVRAM_DIR, if b.kind.Disk? then IMAGES_DIR else NVRAM_DIR;
    assert Dst(a)[|dirA|..] == a.name && Dst(b)[|dirB|..] == b.name;
    assert IMAGES_DIR[9] == 'k' && NVRAM_DIR[9] == 'l';
    assert Dst(a)[9] == dirA[9] && Dst(b)[9] == dirB[9];
  }

  // ----- what each operation may do -------------------------------------------------

  /** The list handed over holds every disk, possibly without the firmware file. */
  ghost predicate Lists(entries: seq<Entry>, sent: seq<Entry>) {
    DistinctNames(sent) &&
    (forall e | e in sent :: e in entries && Placed(e) && e.sourcePath != "") &&
    (forall e | e in entries && e.kind.Disk? :: e in sent)
  }

  /**
   vm.migrate: originals and definition untouched. With a definition, success has staged
   every listed file as it is and stores the whole list, unless that fails and leaves the
   list there was or nothing readable. Without one, the stored list is sent again.
   */
  ghost predicate Exported(s: Source, s': Source, entries: seq<Entry>, sent: seq<Entry>, ok: bool) {
    s'.files == s.files && s'.domain == s.domain &&
    (s.domain.NoDomain? ==> s' == s && (ok <==> s.manifest != []) && (ok ==> sent == s.manifest)) &&
    (ok && s.domain.Domain? ==> Lists(entries, sent)) &&
    (ok && s.domain.Domain? ==> forall e | e in sent :: StagedAsIs(s', e)) &&
    (if ok then s'.manifest in {sent, s.manifest, []} else s'.manifest == s.manifest) &&
    StagedElsewhere(s, s', entries)
  }

  /** Storing the list: written, the file damaged, or the file as it was. */
  datatype Storing = Written | Damaged | AsBefore

  /** virsh undefine: does nothing, fails after removing the firmware file, or succeeds. */
  datatype Undefining = Refuses | BreaksOff | Undefines

  /** A file that is there under a clean name and can be copied. */
  predicate Copyable(files: map<string, File>, e: Entry, unreadable: set<string>) {
    CleanName(e.name) && e.name != "." && e.sourcePath != "" && e.sourcePath in files && e.sourcePath !in unreadable
  }

  /** Staged files of other names stay as they are. */
  ghost predicate StagedElsewhere(s: Source, s': Source, entries: seq<Entry>) {
    forall n | (forall e | e in entries :: e.name != n) ::
      (n in s'.staging <==> n in s.staging) && (n in s.staging ==> s'.staging[n] == s.staging[n])
  }

  predicate StagedAsIs(s: Source, e: Entry) {
    e.sourcePath in s.files && e.name in s.staging && s.staging[e.name] == s.files[e.sourcePath]
  }

  /** virsh undefine --nvram: the firmware file goes with the definition, and may go even when the call fails. */
  predicate Undefined(files: map<string, File>, files': map<string, File>, xml: string, done: bool) {
    files' == files - {NvramPath(xml)} || (!done && files' == files)
  }

  /**
   action=cleanup, best effort: the definition goes with its firmware file, listed or
   not, and the listed files and the staging area may each go or stay.
   */
  ghost predicate CleanedUp(s: Source, s': Source, sent: seq<Entry>, undefined: bool) {
    (undefined ==> s.domain.Domain? && NvramPath(s.domain.xml) !in s'.files) &&
    s'.domain == (if undefined then NoDomain else s.domain) &&
    (forall p | p in s'.files :: p in s.files && s'.files[p] == s.files[p]) &&
    (forall p | p in s.files && p !in s'.files ::
      (s.domain.Domain? && p == NvramPath(s.domain.xml)) || exists e :: e in sent && Placed(e) && Dst(e) == p) &&
    (forall n | n in s'.staging :: n in s.staging && s'.staging[n] == s.staging[n]) &&
    (s'.manifest == s.manifest || s'.manifest == [])
  }

  /** Nothing to do for an entry: it is no file to place, or it has been placed before. */
  predicate Settled(t: Target, e: Entry) {
    !Placed(e) || (e.name !in t.staging && Dst(e) in t.files)
  }

  /** Placing one staged entry: rename, or copy when renaming fails, which may stop half-way. */
  predicate PlaceStep(t: Target, t': Target, e: Entry, ok: bool) {
    e.name in t.staging &&
    var placed := t.files[Dst(e) := t.staging[e.name]];
    if ok then t' == t.(files := placed, staging := t.staging - {e.name}) || t' == t.(files := placed)
    else t' == t || t' == t.(files := t.files[Dst(e) := Partial])
  }

  /** One round of the loop over the list. */
  predicate EntryStep(t: Target, t': Target, e: Entry, ok: bool) {
    if Settled(t, e) then ok && t' == t
    else if e.name !in t.staging then !ok && t' == t
    else PlaceStep(t, t', e, ok)
  }

  /** The first `i` entries are done. */
  ghost predicate PlacedUpTo(t: Target, t': Target, entries: seq<Entry>, i: nat)
    requires i <= |entries|
    decreases i
  {
    if i == 0 then t' == t
    else
      var j := i - 1;
      exists m :: PlacedUpTo(t, m, entries, j) && EntryStep(m, t', entries[j], true)
  }

  /** The loop gave up at some entry. */
  ghost predicate StoppedAt(t: Target, t': Target, entries: seq<Entry>, i: int) {
    0 <= i < |entries| && exists m :: PlacedUpTo(t, m, entries, i) && EntryStep(m, t', entries[i], false)
  }

  /** The other machine's definition is refused; an earlier one of ours is removed with its firmware file. */
  ghost predicate Redefined(t: Target, t': Target, uuid: string, xml: string, ok: bool) {
    StagingShrinks(t, t') && (!ok ==> t'.staging == t.staging) &&
    if Refused(t, uuid) then !ok && t' == t
    else if ok then
      t'.domain == Domain(uuid, xml) &&
      t'.files == if t.domain.Domain? then t.files - {NvramPath(t.domain.xml)} else t.files
    else
      (t'.domain == t.domain || t'.domain == NoDomain) &&
      if t.domain.NoDomain? then t'.files == t.files
      else Undefined(t.files, t'.files, t.domain.xml, t'.domain == NoDomain)
  }

  predicate Refused(t: Target, uuid: string) {
    t.domain.Domain? && (uuid == "" || t.domain.uuid != uuid)
  }

  ghost predicate StagingShrinks(t: Target, t': Target) {
    forall n | n in t'.staging :: n in t.staging && t'.staging[n] == t.staging[n]
  }

  /** vm.migrate.takeover: places the files in order, then replaces the definition. */
  ghost predicate TookOver(t: Target, t': Target, xml: string, uuid: string, entries: seq<Entry>, ok: bool) {
    if xml == "" then !ok && t' == t
    else
      (!ok && exists i :: StoppedAt(t, t', entries, i)) ||
      exists m :: PlacedUpTo(t, m, entries, |entries|) && Redefined(m, t', uuid, Remapped(xml, entries), ok)
  }

  // ----- what placing amounts to ------------------------------------------------------

  /** The staged copy is in place, or what was there when nothing was staged. */
  predicate PlacedFully(t: Target, t': Target, e: Entry) {
    Dst(e) in t'.files &&
    if e.name in t.staging then t'.files[Dst(e)] == t.staging[e.name]
    else Dst(e) in t.files && t'.files[Dst(e)] == t.files[Dst(e)]
  }

  predicate Untouched(t: Target, t': Target, e: Entry) {
    (Dst(e) in t.files <==> Dst(e) in t'.files) &&
    (Dst(e) in t.files ==> t'.files[Dst(e)] == t.files[Dst(e)]) &&
    (e.name in t.staging <==> e.name in t'.staging) &&
    (e.name in t.staging ==> t'.staging[e.name] == t.staging[e.name])
  }

  /** Whatever is not a destination of the list stays as it is. */
  ghost predicate OthersUntouched(t: Target, t': Target, entries: seq<Entry>) {
    forall p | (forall e | e in entries && Placed(e) :: Dst(e) != p) ::
      (p in t.files <==> p in t'.files) && (p in t.files ==> t'.files[p] == t.files[p])
  }

  /** The loop's state with `i` entries done, entry by entry. */
  ghost predicate PlacedState(t: Target, t': Target, entries: seq<Entry>, i: nat)
    requires i <= |entries|
  {
    StagingShrinks(t, t') && OthersUntouched(t, t', entries) && t'.domain == t.domain &&
    (forall k | 0 <= k < i && Placed(entries[k]) :: PlacedFully(t, t', entries[k])) &&
    (forall k | i <= k < |entries| && Placed(entries[k]) :: Untouched(t, t', entries[k]))
  }

  lemma EntryPlaced(t1: Target, t2: Target, e: Entry, d: Entry)
    requires PlaceStep(t1, t2, e, true) && d.name != e.name
    ensures Untouched(t1, t2, d)
  {
    DistinctDestinations(d, e);
  }

  lemma EntryDone(t: Target, t1: Target, t2: Target, entries: seq<Entry>, i: nat)
    requires i < |entries| && DistinctNames(entries)
    requires PlacedState(t, t1, entries, i) && EntryStep(t1, t2, entries[i], true)
    ensures PlacedState(t, t2, entries, i + 1)
  {
    if Settled(t1, entries[i]) {
      SettledDone(t, t1, entries, i);
    } else {
      StepDone(t, t1, t2, entries, i);
    }
  }

  lemma SettledDone(t: Target, t1: Target, entries: seq<Entry>, i: nat)
    requires i < |entries| && PlacedState(t, t1, entries, i) && Settled(t1, entries[i])
    ensures PlacedState(t, t1, entries, i + 1)
  {
  }

  lemma StepDone(t: Target, t1: Target, t2: Target, entries: seq<Entry>, i: nat)
    requires i < |entries| && DistinctNames(entries) && Placed(entries[i])
    requires PlacedState(t, t1, entries, i) && PlaceStep(t1, t2, entries[i], true)
    ensures PlacedState(t, t2, entries, i + 1)
  {
    forall k | 0 <= k < |entries| && k != i
      ensures Untouched(t1, t2, entries[k])
    {
      EntryPlaced(t1, t2, entries[i], entries[k]);
    }
    OthersStay(t, t1, t2, entries, i);
    PlacedStay(t, t1, t2, entries, i);
    assert Untouched(t, t1, entries[i]);
  }

  lemma PlacedStay(t: Target, t1: Target, t2: Target, entries: seq<Entry>, i: nat)
    requires i < |entries| && forall k | 0 <= k < i && Placed(entries[k]) :: PlacedFully(t, t1, entries[k])
    requires forall k | 0 <= k < |entries| && k != i :: Untouched(t1, t2, entries[k])
    ensures forall k | 0 <= k < i && Placed(entries[k]) :: PlacedFully(t, t2, entries[k])
  {
    forall k | 0 <= k < i && Placed(entries[k])
      ensures PlacedFully(t, t2, entries[k])
    {
      assert Untouched(t1, t2, entries[k]);
    }
  }

  lemma OthersStay(t: Target, t1: Target, t2: Target, entries: seq<Entry>, i: nat)
    requires i < |entries| && Placed(entries[i]) && OthersUntouched(t, t1, entries)
    requires forall p | p != Dst(entries[i]) :: (p in t1.files <==> p in t2.files) && (p in t1.files ==> t2.files[p] == t1.files[p])
    ensures OthersUntouched(t, t2, entries)
  {
    assert entries[i] in entries;
  }

  lemma OneMorePlaced(t: Target, m: Target, t': Target, entries: seq<Entry>, i: nat)
    requires i < |entries| && PlacedUpTo(t, m, entries, i) && EntryStep(m, t', entries[i], true)
    ensures PlacedUpTo(t, t', entries, i + 1)
  {
  }

  lemma NotPlaced(t: Target, m: Target, t': Target, entries: seq<Entry>, i: nat)
    requires i < |entries| && PlacedUpTo(t, m, entries, i) && EntryStep(m, t', entries[i], false)
    ensures StoppedAt(t, t', entries, i)
  {
  }

  lemma LastPlaced(t: Target, t': Target, entries: seq<Entry>, i: nat) returns (m: Target)
    requires i < |entries| && PlacedUpTo(t, t', entries, i + 1)
    ensures PlacedUpTo(t, m, entries, i) && EntryStep(m, t', entries[i], true)
  {
    m :| PlacedUpTo(t, m, entries, i) && EntryStep(m, t', entries[i], true);
  }

  lemma {:induction false} PlacedUpToIs(t: Target, t': Target, entries: seq<Entry>, i: nat)
    requires i <= |entries| && DistinctNames(entries) && PlacedUpTo(t, t', entries, i)
    ensures PlacedState(t, t', entries, i)
    decreases i
  {
    if i > 0 {
      var m := LastPlaced(t, t', entries, i - 1);
      PlacedUpToIs(t, m, entries, i - 1);
      EntryDone(t, m, t', entries, i - 1);
    }
  }

  /** What an attempt may have made of one entry: nothing, a move, a copy, or an interrupted copy. */
  predicate PlacedSoFar(t: Target, t': Target, e: Entry) {
    (Dst(e) in t.files ==> Dst(e) in t'.files) &&
    (Dst(e) in t'.files ==>
      (Dst(e) in t.files && t'.files[Dst(e)] == t.files[Dst(e)]) ||
      (e.name in t.staging && t'.files[Dst(e)] == t.staging[e.name]) ||
      (e.name in t'.staging && t'.files[Dst(e)] == Partial)) &&
    (e.name in t.staging && e.name !in t'.staging ==>
      Dst(e) in t'.files && t'.files[Dst(e)] == t.staging[e.name])
  }

  lemma StateSoFar(t: Target, t': Target, entries: seq<Entry>, i: nat, e: Entry)
    requires i <= |entries| && PlacedState(t, t', entries, i) && e in entries && Placed(e)
    ensures PlacedSoFar(t, t', e)
  {
    var k :| 0 <= k < |entries| && entries[k] == e;
    assert if k < i then PlacedFully(t, t', e) else Untouched(t, t', e);
  }

  /** A loop that gave up leaves each entry in one of the expected states. */
  lemma StoppedState(t: Target, t': Target, entries: seq<Entry>, i: int, e: Entry)
    requires DistinctNames(entries) && StoppedAt(t, t', entries, i) && e in entries && Placed(e)
    ensures PlacedSoFar(t, t', e) && t'.domain == t.domain && StagingShrinks(t, t')
  {
    var m :| PlacedUpTo(t, m, entries, i) && EntryStep(m, t', entries[i], false);
    PlacedUpToIs(t, m, entries, i);
    StateSoFar(t, m, entries, i, e);
    if e.name != entries[i].name {
      DistinctDestinations(e, entries[i]);
    }
    SameNameSameEntry(entries, e, i);
  }

  lemma SameNameSameEntry(entries: seq<Entry>, e: Entry, i: nat)
    requires DistinctNames(entries) && e in entries && i < |entries|
    ensures e.name == entries[i].name ==> e == entries[i]
  {
    var k :| 0 <= k < |entries| && entries[k] == e;
  }

  /** A takeover would remove a definition, and the file with it. */
  predicate Removes(t: Target, uuid: string, p: string) {
    t.domain.Domain? && !Refused(t, uuid) && NvramPath(t.domain.xml) == p
  }

  /** A takeover's effect on one listed file: it is placed, unless the removed definition takes it along. */
  lemma TakeoverFile(t: Target, t': Target, xml: string, uuid: string, entries: seq<Entry>, ok: bool, e: Entry)
    requires DistinctNames(entries) && TookOver(t, t', xml, uuid, entries, ok) && e in entries && Placed(e)
    ensures StagingShrinks(t, t')
    ensures Dst(e) in t'.files || !Removes(t, uuid, Dst(e)) ==> PlacedSoFar(t, t', e)
    ensures ok ==> (Dst(e) in t'.files <==> !Removes(t, uuid, Dst(e)))
    ensures ok && Dst(e) in t'.files ==> PlacedFully(t, t', e)
  {
    if xml != "" {
      if !ok && exists i :: StoppedAt(t, t', entries, i) {
        var i :| StoppedAt(t, t', entries, i);
        StoppedState(t, t', entries, i, e);
      } else {
        var m :| PlacedUpTo(t, m, entries, |entries|) && Redefined(m, t', uuid, Remapped(xml, entries), ok);
        PlacedUpToIs(t, m, entries, |entries|);
        StateSoFar(t, m, entries, |entries|, e);
        FullyPlaced(t, m, entries, e);
        RedefinedFile(t, m, t', uuid, Remapped(xml, entries), ok, e);
      }
    }
  }

  lemma FullyPlaced(t: Target, m: Target, entries: seq<Entry>, e: Entry)
    requires PlacedState(t, m, entries, |entries|) && e in entries && Placed(e)
    ensures PlacedFully(t, m, e)
  {
    var k :| 0 <= k < |entries| && entries[k] == e;
  }

  lemma RedefinedFile(t: Target, m: Target, t': Target, uuid: string, xml: string, ok: bool, e: Entry)
    requires Redefined(m, t', uuid, xml, ok) && m.domain == t.domain && StagingShrinks(t, m)
    requires PlacedFully(t, m, e) && PlacedSoFar(t, m, e)
    ensures StagingShrinks(t, t')
    ensures Dst(e) in t'.files || !Removes(t, uuid, Dst(e)) ==> PlacedSoFar(t, t', e)
    ensures ok ==> (Dst(e) in t'.files <==> !Removes(t, uuid, Dst(e)))
    ensures ok && Dst(e) in t'.files ==> PlacedFully(t, t', e)
  {
  }

  /** Its effect on a file that is nobody's destination. */
  lemma TakeoverOther(t: Target, t': Target, xml: string, uuid: string, entries: seq<Entry>, p: string)
    requires DistinctNames(entries) && TookOver(t, t', xml, uuid, entries, true)
    requires forall e | e in entries && Placed(e) :: Dst(e) != p
    ensures p in t'.files <==> p in t.files && !Removes(t, uuid, p)
    ensures p in t'.files ==> t'.files[p] == t.files[p]
  {
    var m :| PlacedUpTo(t, m, entries, |entries|) && Redefined(m, t', uuid, Remapped(xml, entries), true);
    PlacedUpToIs(t, m, entries, |entries|);
  }

  /** Its effect on the definition. */
  lemma TakeoverDomain(t: Target, t': Target, xml: string, uuid: string, entries: seq<Entry>, ok: bool)
    requires DistinctNames(entries) && TookOver(t, t', xml, uuid, entries, ok)
    ensures ok ==> !Refused(t, uuid) && t'.domain == Domain(uuid, Remapped(xml, entries))
    ensures !ok ==> t'.domain == t.domain || (t'.domain.NoDomain? && !Refused(t, uuid))
  {
    if xml != "" {
      if !ok && exists i :: StoppedAt(t, t', entries, i) {
        var i :| StoppedAt(t, t', entries, i);
        StoppedDomain(t, t', entries, i);
      } else {
        var m :| PlacedUpTo(t, m, entries, |entries|) && Redefined(m, t', uuid, Remapped(xml, entries), ok);
        PlacedUpToIs(t, m, entries, |entries|);
      }
    }
  }

  lemma StoppedDomain(t: Target, t': Target, entries: seq<Entry>, i: int)
    requires DistinctNames(entries) && StoppedAt(t, t', entries, i)
    ensures t'.domain == t.domain
  {
    var m :| PlacedUpTo(t, m, entries, i) && EntryStep(m, t', entries[i], false);
    PlacedUpToIs(t, m, entries, i);
  }

  /** The first i entries have been dealt with: all that could be copied are sent, and every disk is. */
  ghost predicate Sending(was: Source, s: Source, entries: seq<Entry>, i: nat, sent: seq<Entry>, unreadable: set<string>)
    requires i <= |entries|
  {
    s.files == was.files && s.domain == was.domain && s.manifest == was.manifest && StagedElsewhere(was, s, entries) &&
    DistinctNames(sent) &&
    (forall e | e in sent :: Placed(e) && e.sourcePath != "" && StagedAsIs(s, e)) &&
    (forall e | e in sent :: exists k | 0 <= k < i :: entries[k] == e) &&
    (forall k | 0 <= k < i :: entries[k] in sent <==> Copyable(s.files, entries[k], unreadable)) &&
    forall k | 0 <= k < i && entries[k].kind.Disk? :: entries[k] in sent
  }

  /** Only the staged copy of this entry has changed. */
  ghost predicate OnlyStaged(s: Source, s': Source, e: Entry) {
    s' == s.(staging := s'.staging) &&
    forall n | n != e.name :: (n in s'.staging <==> n in s.staging) && (n in s.staging ==> s'.staging[n] == s.staging[n])
  }

  lemma OneMoreSent(
      was: Source, s: Source, s': Source, entries: seq<Entry>, i: nat, sent: seq<Entry>, unreadable: set<string>)
    requires DistinctNames(entries) && i < |entries| && Sending(was, s, entries, i, sent, unreadable)
    requires OnlyStaged(s, s', entries[i]) && StagedAsIs(s', entries[i]) && Placed(entries[i])
    requires Copyable(s.files, entries[i], unreadable)
    ensures Sending(was, s', entries, i + 1, sent + [entries[i]], unreadable)
  {
    var e := entries[i];
    ElsewhereStays(was, s, s', entries, e);
    OtherNames(entries, i, sent);
    SentEntries(s, s', entries, i, sent);
    SentExactly(s.files, entries, i, sent, unreadable);
  }

  lemma OtherNames(entries: seq<Entry>, i: nat, sent: seq<Entry>)
    requires DistinctNames(entries) && i < |entries| && DistinctNames(sent)
    requires forall e | e in sent :: exists k | 0 <= k < i :: entries[k] == e
    ensures (forall x | x in sent :: x.name != entries[i].name) && DistinctNames(sent + [entries[i]])
  {
    assert forall k | 0 <= k < |sent| :: sent[k] in sent;
  }

  lemma SentEntries(s: Source, s': Source, entries: seq<Entry>, i: nat, sent: seq<Entry>)
    requires i < |entries| && OnlyStaged(s, s', entries[i]) && StagedAsIs(s', entries[i])
    requires Placed(entries[i]) && entries[i].sourcePath != ""
    requires forall x | x in sent :: Placed(x) && x.sourcePath != "" && StagedAsIs(s, x) && x.name != entries[i].name
    requires forall x | x in sent :: exists k | 0 <= k < i :: entries[k] == x
    ensures forall x | x in sent + [entries[i]] :: Placed(x) && x.sourcePath != "" && StagedAsIs(s', x)
    ensures forall x | x in sent + [entries[i]] :: exists k | 0 <= k < i + 1 :: entries[k] == x
  {
    forall x | x in sent + [entries[i]]
      ensures exists k | 0 <= k < i + 1 :: entries[k] == x
    {
      if x == entries[i] {
        assert entries[i] == x;
      }
    }
  }

  lemma SentExactly(files: map<string, File>, entries: seq<Entry>, i: nat, sent: seq<Entry>, unreadable: set<string>)
    requires DistinctNames(entries) && i < |entries| && Copyable(files, entries[i], unreadable)
    requires forall k | 0 <= k < i :: entries[k] in sent <==> Copyable(files, entries[k], unreadable)
    ensures forall k | 0 <= k < i + 1 :: entries[k] in sent + [entries[i]] <==> Copyable(files, entries[k], unreadable)
  {
  }

  lemma OneLeftOut(
      was: Source, s: Source, s': Source, entries: seq<Entry>, i: nat, sent: seq<Entry>, unreadable: set<string>)
    requires DistinctNames(entries) && i < |entries| && Sending(was, s, entries, i, sent, unreadable)
    requires OnlyStaged(s, s', entries[i]) && !entries[i].kind.Disk? && !Copyable(s.files, entries[i], unreadable)
    ensures Sending(was, s', entries, i + 1, sent, unreadable)
  {
    ElsewhereStays(was, s, s', entries, entries[i]);
    OtherNames(entries, i, sent);
    assert entries[i] !in sent;
    SentStay(s, s', entries[i], sent);
  }

  lemma SentStay(s: Source, s': Source, e: Entry, sent: seq<Entry>)
    requires OnlyStaged(s, s', e) && forall x | x in sent :: StagedAsIs(s, x) && x.name != e.name
    ensures forall x | x in sent :: StagedAsIs(s', x)
  {
  }

  lemma ElsewhereStays(was: Source, s: Source, s': Source, entries: seq<Entry>, e: Entry)
    requires StagedElsewhere(was, s, entries) && OnlyStaged(s, s', e) && e in entries
    ensures StagedElsewhere(was, s', entries)
  {
  }

  // ----- the agents' code -------------------------------------------------------------

  class SourceAgent {
    var files: map<string, File>
    var staging: map<string, File>
    var manifest: seq<Entry>
    var domain: Definition

    function View(): Source
      reads this
    {
      Source(files, staging, manifest, domain)
    }

    /**
     Copies each file into the staging area, then stores the list; keeps the definition.
     unreadable are the files that cannot be copied, stored is what becomes of the list.
     */
    method Migrate(entries: seq<Entry>, unreadable: set<string>, stored: Storing) returns (ok: bool, sent: seq<Entry>)
      requires DistinctNames(entries) && forall e | e in entries :: !e.kind.Memory?
      modifies this
      ensures Exported(old(View()), View(), entries, sent, ok)
      ensures domain.Domain? ==> (ok <==> forall e | e in entries && e.kind.Disk? :: Copyable(files, e, unreadable))
      ensures domain.Domain? && ok ==> forall e | e in entries :: e in sent <==> Copyable(files, e, unreadable)
      ensures domain.Domain? && ok && stored.Written? ==> manifest == sent
    {
      if domain.NoDomain? {
        return manifest != [], manifest;  // a retry after the definition is gone
      }
      ghost var was := View();
      sent := [];
      for i := 0 to |entries|
        invariant domain == old(domain) && Sending(was, View(), entries, i, sent, unreadable)
      {
        var e := entries[i];
        ghost var s := View();
        var staged := Stage(e, unreadable);
        if staged {
          OneMoreSent(was, s, View(), entries, i, sent, unreadable);
          sent := sent + [e];
        } else if e.kind.Disk? {
          return false, [];
        } else {
          OneLeftOut(was, s, View(), entries, i, sent, unreadable);
        }
      }
      match stored {
        case Written => manifest := sent;
        case Damaged => manifest := [];
        case AsBefore =>
      }
      ok := true;
    }

    /** Copies one file; a copy that fails may leave part of it behind. */
    method Stage(e: Entry, unreadable: set<string>) returns (ok: bool)
      requires !e.kind.Memory?
      modifies this`staging
      ensures ok <==> Copyable(files, e, unreadable)
      ensures ok ==> Placed(e) && StagedAsIs(View(), e)
      ensures OnlyStaged(old(View()), View(), e)
    {
      if !CleanName(e.name) || e.name == "." || e.sourcePath == "" {
        return false;  // the base name of the empty path is the dot
      }
      if e.sourcePath !in files || e.sourcePath in unreadable {
        var started: bool := *;
        if started {
          staging := staging[e.name := Partial];
        }
        return false;
      }
      staging := staging[e.name := files[e.sourcePath]];
      ok := true;
    }

    /**
     Every removal is tried once and its failure ignored. stuck are the files that cannot
     be removed; left and listLeft say what stays of the staging area.
     */
    method Cleanup(sent: seq<Entry>, virsh: Undefining, stuck: set<string>, left: set<string>, listLeft: bool)
      modifies this
      ensures CleanedUp(old(View()), View(), sent, old(domain).Domain? && virsh.Undefines?)
      ensures forall e | e in sent && Placed(e) && Dst(e) in files :: Dst(e) in stuck
      ensures staging.Keys == old(staging).Keys * left
      ensures manifest == if listLeft then old(manifest) else []
    {
      Undefine(virsh);
      ghost var s := View();
      for i := 0 to |sent|
        invariant domain == s.domain && staging == s.staging && manifest == s.manifest
        invariant forall p | p in files :: p in s.files && files[p] == s.files[p]
        invariant forall p | p in s.files && p !in files :: exists e :: e in sent && Placed(e) && Dst(e) == p
        invariant forall k | 0 <= k < i && Placed(sent[k]) && Dst(sent[k]) in files :: Dst(sent[k]) in stuck
      {
        var e := sent[i];
        if Placed(e) && Dst(e) !in stuck {
          assert e in sent;
          files := files - {Dst(e)};
        }
      }
      staging := map n | n in staging && n in left :: staging[n];
      if !listLeft {
        manifest := [];
      }
    }

    method Undefine(virsh: Undefining)
      modifies this`files, this`domain
      ensures domain == if virsh.Undefines? then NoDomain else old(domain)
      ensures files == if old(domain).Domain? && !virsh.Refuses? then old(files) - {NvramPath(old(domain).xml)} else old(files)
    {
      if domain.NoDomain? || virsh.Refuses? {
        return;
      }
      files := files - {NvramPath(domain.xml)};
      if virsh.Undefines? {
        domain := NoDomain;
      }
    }
  }

  class TargetAgent {
    var files: map<string, File>
    var staging: map<string, File>
    var domain: Definition

    function View(): Target
      reads this
    {
      Target(files, staging, domain)
    }

    /** Renames the staged file into place, or copies it when renaming fails. */
    method PlaceFile(e: Entry) returns (ok: bool)
      requires e.name in staging
      modifies this`files, this`staging
      ensures PlaceStep(old(View()), View(), e, ok)
    {
      var content := staging[e.name];
      var renamed: bool := *;
      if renamed {
        files, staging := files[Dst(e) := content], staging - {e.name};
        return true;
      }
      var readable: bool := *;
      if !readable {
        return false;
      }
      var written: bool := *;
      var begun: bool := *;
      if written {
        files := files[Dst(e) := content];
      } else if begun {
        files := files[Dst(e) := Partial];
      }
      ok := written;
    }

    /** Puts the staged files in place, then defines the domain; never replaces another machine's definition. */
    method Takeover(xml: string, uuid: string, entries: seq<Entry>) returns (ok: bool)
      modifies this
      ensures TookOver(old(View()), View(), xml, uuid, entries, ok)
    {
      if xml == "" {
        return false;
      }
      var placed, remapped := PlaceAll(xml, entries);
      if !placed {
        return false;
      }
      ghost var m := View();
      ok := Define(uuid, remapped);
      if ok {
        var swept: bool := *;  // a failure to empty the staging area is ignored
        if swept {
          staging := map[];
        }
      }
      assert Redefined(m, View(), uuid, Remapped(xml, entries), ok);
    }

    /** The loop over the list: places each file and rewrites its path in the definition. */
    method PlaceAll(xml: string, entries: seq<Entry>) returns (ok: bool, remapped: string)
      modifies this`files, this`staging
      ensures ok ==> remapped == Remapped(xml, entries) && PlacedUpTo(old(View()), View(), entries, |entries|)
      ensures !ok ==> exists i :: StoppedAt(old(View()), View(), entries, i)
    {
      ghost var t := View();
      remapped := xml;
      for i := 0 to |entries|
        invariant PlacedUpTo(t, View(), entries, i)
        invariant remapped == Remapped(xml, entries[..i])
      {
        var e := entries[i];
        ghost var m := View();
        assert entries[..i + 1][..i] == entries[..i];
        var done := PlaceEntry(e);
        if !done {
          NotPlaced(t, m, View(), entries, i);
          return false, remapped;
        }
        if Placed(e) {
          remapped := ReplaceAll(remapped, e.sourcePath, Dst(e));
        }
        OneMorePlaced(t, m, View(), entries, i);
      }
      assert entries[..|entries|] == entries;
      ok := true;
    }

    /** One entry: skipped, there already, missing, or placed. */
    method PlaceEntry(e: Entry) returns (ok: bool)
      modifies this`files, this`staging
      ensures EntryStep(old(View()), View(), e, ok)
    {
      if !Placed(e) {
        return true;
      }
      if e.name !in staging {
        return Dst(e) in files;
      }
      ok := PlaceFile(e);
    }

    /** Removes an earlier definition of the same machine, with its firmware file, and defines it anew. */
    method Define(uuid: string, xml: string) returns (ok: bool)
      modifies this`domain, this`files
      ensures Redefined(old(View()), View(), uuid, xml, ok)
    {
      var written: bool := *;
      if !written {
        return false;
      }
      if domain.Domain? {
        var readable: bool := *;
        if !readable || uuid == "" || domain.uuid != uuid {
          return false;
        }
        var started: bool := *;
        if !started {
          return false;
        }
        files := files - {NvramPath(domain.xml)};
        var removed: bool := *;
        if !removed {
          return false;
        }
        domain := NoDomain;
      }
      var accepted: bool := *;
      if accepted {
        domain := Domain(uuid, xml);
      }
      ok := accepted;
    }
  }
}
