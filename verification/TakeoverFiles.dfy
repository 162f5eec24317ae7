/**
 Which files of the target a takeover may cost: placing comes before the check for
 another machine of the same name, and removing a definition removes its firmware.
 */
module TakeoverFiles {
  import opened ColdMigrations

  /** The loop can get as far as entry `i`. */
  predicate Reached(t: Target, entries: seq<Entry>, i: nat) {
    i <= |entries| && forall k | 0 <= k < i && Placed(entries[k]) :: entries[k].name in t.staging || Dst(entries[k]) in t.files
  }

  predicate OverwrittenBy(t: Target, entries: seq<Entry>, p: string, i: int) {
    0 <= i < |entries| && Reached(t, entries, i) && Placed(entries[i]) && entries[i].name in t.staging && Dst(entries[i]) == p
  }

  ghost predicate Overwritten(t: Target, entries: seq<Entry>, p: string) {
    exists i :: OverwrittenBy(t, entries, p, i)
  }

  predicate UndefinedAway(t: Target, uuid: string, entries: seq<Entry>, p: string) {
    Removes(t, uuid, p) && Reached(t, entries, |entries|)
  }

  predicate Same(t: Target, t': Target, p: string) {
    p in t.files && p in t'.files && t'.files[p] == t.files[p]
  }

  ghost predicate KeptByAll(t: Target, xml: string, uuid: string, entries: seq<Entry>, p: string) {
    forall t', ok | TookOver(t, t', xml, uuid, entries, ok) :: Same(t, t', p)
  }

  lemma StateReached(t: Target, m: Target, entries: seq<Entry>, i: nat)
    requires i <= |entries| && PlacedState(t, m, entries, i)
    ensures Reached(t, entries, i)
  {
    forall k | 0 <= k < i && Placed(entries[k])
      ensures entries[k].name in t.staging || Dst(entries[k]) in t.files
    {
      assert PlacedFully(t, m, entries[k]);
    }
  }

  lemma KeptByPlacing(t: Target, m: Target, entries: seq<Entry>, i: nat, p: string)
    requires i <= |entries| && PlacedState(t, m, entries, i) && p in t.files && !Overwritten(t, entries, p)
    ensures Same(t, m, p)
  {
    if k :| 0 <= k < |entries| && Placed(entries[k]) && Dst(entries[k]) == p {
      if k < i {
        StateReached(t, m, entries, i);
        assert !OverwrittenBy(t, entries, p, k) && PlacedFully(t, m, entries[k]);
      } else {
        assert Untouched(t, m, entries[k]);
      }
    } else {
      assert forall e | e in entries && Placed(e) :: Dst(e) != p;
    }
  }

  lemma KeptByFailure(t: Target, t': Target, entries: seq<Entry>, i: int, p: string)
    requires DistinctNames(entries) && StoppedAt(t, t', entries, i) && p in t.files && !Overwritten(t, entries, p)
    ensures Same(t, t', p)
  {
    var m :| PlacedUpTo(t, m, entries, i) && EntryStep(m, t', entries[i], false);
    PlacedUpToIs(t, m, entries, i);
    KeptByPlacing(t, m, entries, i, p);
    StateReached(t, m, entries, i);
    assert !OverwrittenBy(t, entries, p, i);
  }

  lemma KeptByTakeover(t: Target, t': Target, xml: string, uuid: string, entries: seq<Entry>, ok: bool, p: string)
    requires DistinctNames(entries) && TookOver(t, t', xml, uuid, entries, ok)
    requires p in t.files && !Overwritten(t, entries, p) && !UndefinedAway(t, uuid, entries, p)
    ensures Same(t, t', p)
  {
    if xml != "" {
      if !ok && exists i :: StoppedAt(t, t', entries, i) {
        var i :| StoppedAt(t, t', entries, i);
        KeptByFailure(t, t', entries, i, p);
      } else {
        var m :| PlacedUpTo(t, m, entries, |entries|) && Redefined(m, t', uuid, Remapped(xml, entries), ok);
        PlacedUpToIs(t, m, entries, |entries|);
        KeptByPlacing(t, m, entries, |entries|, p);
        StateReached(t, m, entries, |entries|);
      }
    }
  }

  /** Renaming never fails, say: then the loop does get there. */
  lemma {:induction false} Reaches(t: Target, entries: seq<Entry>, i: nat)
    requires DistinctNames(entries) && Reached(t, entries, i)
    ensures exists m :: PlacedUpTo(t, m, entries, i)
    decreases i
  {
    if i == 0 {
      assert PlacedUpTo(t, t, entries, 0);
    } else {
      var j, e := i - 1, entries[i - 1];
      Reaches(t, entries, j);
      var m :| PlacedUpTo(t, m, entries, j);
      PlacedUpToIs(t, m, entries, j);
      assert Placed(e) ==> Untouched(t, m, e);
      var m' := if Settled(m, e) then m else m.(files := m.files[Dst(e) := m.staging[e.name]], staging := m.staging - {e.name});
      assert EntryStep(m, m', entries[j], true);
      assert PlacedUpTo(t, m', entries, i);
    }
  }

  lemma OverwrittenIsLost(t: Target, xml: string, uuid: string, entries: seq<Entry>, p: string)
    requires DistinctNames(entries) && xml != "" && p in t.files && t.files[p].Whole? && Overwritten(t, entries, p)
    ensures !KeptByAll(t, xml, uuid, entries, p)
  {
    var i :| OverwrittenBy(t, entries, p, i);
    Reaches(t, entries, i);
    var m :| PlacedUpTo(t, m, entries, i);
    PlacedUpToIs(t, m, entries, i);
    assert Untouched(t, m, entries[i]);
    var t' := m.(files := m.files[p := Partial]);
    assert EntryStep(m, t', entries[i], false);
    assert StoppedAt(t, t', entries, i);
    assert TookOver(t, t', xml, uuid, entries, false) && !Same(t, t', p);
  }

  lemma UndefinedIsLost(t: Target, xml: string, uuid: string, entries: seq<Entry>, p: string)
    requires DistinctNames(entries) && xml != "" && p in t.files && UndefinedAway(t, uuid, entries, p)
    ensures !KeptByAll(t, xml, uuid, entries, p)
  {
    Reaches(t, entries, |entries|);
    var m :| PlacedUpTo(t, m, entries, |entries|);
    PlacedUpToIs(t, m, entries, |entries|);
    var t' := Target(m.files - {p}, m.staging, Domain(uuid, Remapped(xml, entries)));
    assert Redefined(m, t', uuid, Remapped(xml, entries), true);
    assert TookOver(t, t', xml, uuid, entries, true) && !Same(t, t', p);
  }

  /**
   A complete file of the target outlives every possible takeover if and only if it is
   neither the destination of a staged file that the loop gets to, nor the firmware of
   a definition that the takeover may remove. Whose definition it is does not matter
   for the first half.
   */
  lemma FileKeptExactly(t: Target, xml: string, uuid: string, entries: seq<Entry>, p: string)
    requires DistinctNames(entries) && xml != "" && p in t.files && t.files[p].Whole?
    ensures KeptByAll(t, xml, uuid, entries, p) <==> !Overwritten(t, entries, p) && !UndefinedAway(t, uuid, entries, p)
  {
    if Overwritten(t, entries, p) {
      OverwrittenIsLost(t, xml, uuid, entries, p);
    } else if UndefinedAway(t, uuid, entries, p) {
      UndefinedIsLost(t, xml, uuid, entries, p);
    } else {
      forall t', ok | TookOver(t, t', xml, uuid, entries, ok)
        ensures Same(t, t', p)
      {
        KeptByTakeover(t, t', xml, uuid, entries, ok, p);
      }
    }
  }
}
