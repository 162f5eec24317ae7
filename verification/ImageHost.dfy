/**
 The operations that maintain the images: qemu-img as an abstract machine over
 the store, and the agent's code that drives it. Every command may fail at any
 moment; a failing rebase leaves the clusters it has already copied.
 */
module ImageHosts {
  import opened BackingChains

  datatype DomainDisk = DomainDisk(source: Path, cdrom: bool, floppy: bool)

  /** parent may become the backing image of every listed child without closing a cycle. */
  ghost predicate MayAdopt(s: Store, parent: Path, children: seq<Path>)
    requires Acyclic(s)
  {
    parent != "" ==> forall c | c in children :: !BuiltOn(s, parent, c)
  }

  /** tmps are the time-stamped scratch names: no file has one and no image refers to one. */
  ghost predicate Scratch(s: Store, parent: Path, tmps: seq<Path>) {
    forall t | t in tmps :: Unused(s, t) && t != parent
  }

  /** The image holds what it held, and the first clusters that it does not store read alike in both backing images. */
  ghost predicate Rebasing(was: Store, s: Store, target: Path, parent: Path, c: nat) {
    Acyclic(was) && Acyclic(s) && target in was && target in s && s == was[target := s[target]] &&
    s[target].backing == was[target].backing && s[target].size == was[target].size &&
    (forall k: nat :: ReadAt(s, target, k) == ReadAt(was, target, k)) &&
    forall k | 0 <= k < c && k !in s[target].data :: ReadAt(was, parent, k) == ReadAt(was, target, k)
  }

  class ImageHost {
    var disks: Store

    /** Walks the chain upwards until a cluster is found. */
    method ReadCluster(p: Path, c: nat) returns (o: Outcome)
      requires Acyclic(disks)
      ensures o == ReadAt(disks, p, c)
    {
      var cur := p;
      while cur in disks && c < disks[cur].size && c !in disks[cur].data && disks[cur].backing != ""
        invariant ReadAt(disks, cur, c) == ReadAt(disks, p, c)
        decreases RankOf(disks)(cur)
      {
        cur := disks[cur].backing;
      }
      if cur !in disks {
        o := Broken;
      } else if c < disks[cur].size && c in disks[cur].data {
        o := Got(disks[cur].data[c]);
      } else {
        o := Got(Zero);
      }
    }

    /** qemu-img info: fails on a missing file, and may fail anyway. */
    method QemuImgBacking(p: Path) returns (ok: bool, backing: Path)
      ensures ok ==> p in disks && backing == disks[p].backing
    {
      ok, backing := false, "";
      var fault: bool := *;
      if p in disks && !fault {
        ok, backing := true, disks[p].backing;
      }
    }

    /**
     qemu-img rebase in safe mode: every cluster the image does not store itself
     and that the two backing images disagree on is copied into the image first;
     only then is the backing file switched.
     */
    method QemuRebase(target: Path, parent: Path) returns (ok: bool)
      requires Acyclic(disks) && parent != "" && !BuiltOn(disks, parent, target)
      modifies this
      ensures SameContents(old(disks), disks)
      ensures ok ==> target in disks && parent in disks
      ensures target in disks ==>
                disks == old(disks)[target := disks[target]] &&
                disks[target].backing == (if ok then parent else old(disks)[target].backing)
      ensures target !in old(disks) ==> disks == old(disks)
    {
      ghost var was := disks;
      ok := false;
      if target !in disks || parent !in disks {
        return;
      }
      var base, size := disks[target].backing, disks[target].size;
      var c := 0;
      while c < size
        invariant 0 <= c <= size == was[target].size && Rebasing(was, disks, target, parent, c)
        invariant base == was[target].backing
      {
        var copied := CopyDifference(was, target, parent, base, c);
        if !copied {
          ReplaceKeepsContents(was, target, disks[target]);
          return;
        }
        c := c + 1;
      }
      ReplaceKeepsContents(was, target, disks[target]);
      var fault: bool := *;
      if fault {
        return;
      }
      SwitchBacking(was, disks, target, parent);
      disks := disks[target := disks[target].(backing := parent)];
      ok := true;
    }

    /** Compares one cluster of the two backing images and copies it if they disagree; reading may fail. */
    method CopyDifference(ghost was: Store, target: Path, parent: Path, base: Path, c: nat) returns (ok: bool)
      requires Acyclic(was) && target in was && parent != "" && parent in was && !BuiltOn(was, parent, target)
      requires Rebasing(was, disks, target, parent, c) && c < was[target].size && base == was[target].backing
      modifies this
      ensures Rebasing(was, disks, target, parent, if ok then c + 1 else c)
    {
      ok := true;
      if c !in disks[target].data {
        var before := Got(Zero);
        if base != "" {
          before := ReadCluster(base, c);
        }
        var after := ReadCluster(parent, c);
        var fault: bool := *;
        if fault || before.Broken? || after.Broken? {
          return false;
        }
        assert before == ReadAt(was, target, c);
        ReplaceUnseen(was, target, disks[target], parent, c);
        if before != after {
          CopyUp(was, disks, target, c, before.block);
          disks := disks[target := disks[target].(data := disks[target].data[c := before.block])];
        }
      }
    }

    /** qemu-img convert: reads the whole chain of src into a fresh stand-alone image. */
    method QemuConvert(src: Path, dst: Path) returns (ok: bool)
      requires Acyclic(disks) && Unused(disks, dst)
      modifies this
      ensures Acyclic(disks) && disks - {dst} == old(disks)
      ensures ok ==> src in old(disks) && dst in disks && disks[dst].backing == ""
      ensures ok ==> disks[dst].size == disks[src].size
      ensures ok ==> forall c: nat :: ReadAt(disks, dst, c) == ReadAt(old(disks), src, c)
    {
      ghost var was := disks;
      ok := false;
      if src !in disks {
        assert disks - {dst} == was;
        return;
      }
      var size := disks[src].size;
      var data: map<nat, Block> := map[];
      var c := 0;
      while c < size
        invariant 0 <= c <= size && disks == was
        invariant forall k | k in data :: k < c
        invariant forall k | 0 <= k < c :: ReadAt(was, src, k) == Got(if k in data then data[k] else Zero)
      {
        var o := ReadCluster(src, c);
        var fault: bool := *;
        if fault || o.Broken? {
          AddStandalone(disks, dst, Image(size, data, ""));
          disks := disks[dst := Image(size, data, "")];
          assert disks - {dst} == was;
          return;
        }
        if o.block != Zero {
          data := data[c := o.block];
        }
        c := c + 1;
      }
      AddStandalone(disks, dst, Image(size, data, ""));
      disks := disks[dst := Image(size, data, "")];
      assert disks - {dst} == was;
      ok := true;
    }

    method OsRemove(p: Path)
      requires Acyclic(disks)
      modifies this
      ensures disks == old(disks) - {p}
    {
      disks := disks - {p};
    }

    /** Replaces an image by a stand-alone one with the same contents, through a scratch file and a rename. */
    method FlattenStandalone(target: Path, tmp: Path) returns (ok: bool)
      requires Acyclic(disks) && Unused(disks, tmp)
      modifies this
      ensures SameContents(old(disks), disks)
      ensures ok ==> target in disks && disks == old(disks)[target := disks[target]] && disks[target].backing == ""
      ensures !ok ==> disks == old(disks)
    {
      ghost var was := disks;
      OsRemove(tmp);
      assert disks == was;
      ok := QemuConvert(target, tmp);
      if !ok {
        OsRemove(tmp);
        return;
      }
      var known, backing := QemuImgBacking(tmp);
      var fault: bool := *;
      if !known || backing != "" || fault {
        OsRemove(tmp);
        ok := false;
        return;
      }
      // os.Rename(tmp, target)
      ReplaceByStandalone(was, disks, target, tmp);
      disks := disks[target := disks[tmp]] - {tmp};
    }

    /** Moves one image onto a new backing image; the empty name makes it stand alone. */
    method ReparentOne(target: Path, parent: Path, tmp: Path) returns (ok: bool)
      requires Acyclic(disks) && Unused(disks, tmp)
      requires parent != "" ==> !BuiltOn(disks, parent, target)
      modifies this
      ensures SameContents(old(disks), disks)
      ensures ok ==> target in disks && (parent != "" ==> parent in disks)
      ensures target in disks ==>
                disks == old(disks)[target := disks[target]] &&
                disks[target].backing == (if ok then parent else old(disks)[target].backing)
      ensures target !in old(disks) ==> disks == old(disks)
    {
      if parent == "" {
        ok := FlattenStandalone(target, tmp);
      } else {
        ok := QemuRebase(target, parent);
      }
    }

    /** template.rebase (parent given) and template.flatten (parent empty). */
    method TemplateReparent(target: Path, parent: Path, tmp: Path, templates: set<Path>) returns (ok: bool)
      requires Acyclic(disks) && Unused(disks, tmp)
      requires parent != "" ==> !BuiltOn(disks, parent, target)
      modifies this
      ensures SameContents(old(disks), disks)
      ensures NoDangling(old(disks)) ==> NoDangling(disks)
      ensures disks.Keys == old(disks).Keys && forall p | p in disks && p != target :: disks[p] == old(disks)[p]
      ensures ok ==> Permitted(old(disks), target, parent, templates) && disks[target].backing == parent
      ensures !Permitted(old(disks), target, parent, templates) ==> disks == old(disks)
    {
      ok := false;
      if target !in templates || target !in disks {
        return;
      }
      if parent != "" && (parent !in templates || parent !in disks) {
        return;
      }
      ok := ReparentOne(target, parent, tmp);
      if !ok {
        return;
      }
      var known, backing := QemuImgBacking(target);
      ok := known && backing == parent;
    }

    /** The loop shared by promote_child and promote_delete: stops at the first child that fails. */
    method ReparentAll(children: seq<Path>, parent: Path, tmps: seq<Path>) returns (ok: bool)
      requires Acyclic(disks) && MayAdopt(disks, parent, children)
      requires |tmps| == |children| && Scratch(disks, parent, tmps)
      modifies this
      ensures Reparented(old(disks), disks, children, parent)
      ensures ok ==> forall c | c in children :: c in disks && disks[c].backing == parent
    {
      ghost var was := disks;
      var i := 0;
      while i < |children|
        invariant 0 <= i <= |children| && Reparenting(was, disks, children, parent, i)
      {
        StillUnused(was, disks, children, parent, tmps, tmps[i]);
        ok := ReparentChild(was, children, i, parent, tmps[i]);
        if !ok {
          return;
        }
        i := i + 1;
      }
      ok := true;
    }

    /** One round of that loop. */
    method ReparentChild(ghost was: Store, children: seq<Path>, i: nat, parent: Path, tmp: Path) returns (ok: bool)
      requires i < |children| && Reparenting(was, disks, children, parent, i) && Unused(disks, tmp)
      modifies this
      ensures Reparenting(was, disks, children, parent, if ok then i + 1 else i)
    {
      ghost var s := disks;
      var child := children[i];
      ok := ReparentOne(child, parent, tmp);
      if child in disks {
        ReparentedStep(was, s, child, disks[child], children, parent);
        StillMayAdopt(s, child, disks[child], parent, children);
      }
    }

    /** template.promote_child */
    method PromoteChild(children: seq<Path>, parent: Path, tmps: seq<Path>) returns (ok: bool)
      requires Acyclic(disks) && MayAdopt(disks, parent, children)
      requires |tmps| == |children| && Scratch(disks, parent, tmps)
      modifies this
      ensures SameContents(old(disks), disks)
      ensures NoDangling(old(disks)) ==> NoDangling(disks)
      ensures forall p | p in disks && p !in children :: disks[p] == old(disks)[p]
      ensures ok ==> children != []
      ensures ok ==> forall c | c in children :: c in disks && disks[c].backing == parent
    {
      if |children| == 0 {
        return false;
      }
      ok := ReparentAll(children, parent, tmps);
    }

    /**
     template.promote_delete. The last two clauses are the point: nobody loses
     data when the listed children are all there are and the new parent is not
     the generation being deleted, and that is also exactly when no image is left
     without its backing file.
     */
    method PromoteDelete(target: Path, children: seq<Path>, parent: Path, tmps: seq<Path>, templates: set<Path>)
      returns (ok: bool)
      requires Acyclic(disks) && MayAdopt(disks, parent, children)
      requires |tmps| == |children| && Scratch(disks, parent, tmps) && "" !in templates
      modifies this
      ensures Acyclic(disks)
      ensures ok ==> target in templates && disks.Keys == old(disks).Keys - {target}
      ensures !ok ==> SameContents(old(disks), disks) && disks.Keys == old(disks).Keys
      ensures forall p | p in disks && p !in children :: disks[p] == old(disks)[p]
      ensures ok ==> forall c | c in children && c != target :: c in disks && disks[c].backing == parent
      ensures ok && SafeToDelete(old(disks), target, children, parent) ==>
                forall p | p in disks :: ReadsAlike(old(disks), disks, p)
      ensures ok && NoDangling(old(disks)) ==>
                (NoDangling(disks) <==> SafeToDelete(old(disks), target, children, parent))
    {
      ghost var was := disks;
      ok := ReparentAll(children, parent, tmps);
      if !ok {
        return;
      }
      var fault: bool := *;
      if target !in templates || fault {
        return false;
      }
      ghost var s := disks;
      assert Ranked(s - {target}, RankOf(s));
      OsRemove(target);
      if NoDangling(was) {
        DeleteExact(was, s, target, children, parent);
      }
      if SafeToDelete(was, target, children, parent) {
        forall p | p in disks ensures ReadsAlike(was, disks, p) {
          assert ReadsAlike(was, s, p);
          NobodyBuiltOn(s, p, target);
          forall c: nat ensures ReadAt(disks, p, c) == ReadAt(was, p, c) {
            RemoveUnseen(s, target, p, c);
          }
        }
      }
    }

    /** vm.disks.independent, after the checks that the machine is stopped and has no snapshots. */
    method DisksIndependent(domain: seq<DomainDisk>, tmps: seq<Path>, running: bool, snapshots: bool)
      returns (ok: bool, merged: nat)
      requires Acyclic(disks) && |tmps| == |domain| && Scratch(disks, "", tmps)
      modifies this
      ensures MadeIndependent(old(disks), disks) && merged == |Severed(old(disks), disks)|
      ensures running || snapshots ==> !ok && disks == old(disks)
      ensures forall p | p in disks && !Writable(domain, p) :: disks[p] == old(disks)[p]
      ensures ok ==> forall d | d in domain && !d.cdrom && !d.floppy && d.source != "" ::
                       d.source in disks && disks[d.source].backing == ""
    {
      ghost var was := disks;
      ok, merged := false, 0;
      if running || snapshots {
        return;
      }
      var i := 0;
      while i < |domain|
        invariant 0 <= i <= |domain| && Freeing(was, disks, domain, i, merged) && Scratch(disks, "", tmps)
      {
        var d := domain[i];
        assert tmps[i] in tmps;
        if !d.cdrom && !d.floppy && d.source != "" {
          var known, backing := QemuImgBacking(d.source);
          if !known {
            return;
          }
          if backing != "" {
            ghost var s := disks;
            var done := FlattenStandalone(d.source, tmps[i]);
            if !done {
              return;
            }
            FreesOne(was, s, disks, domain, i, merged);
            merged := merged + 1;
          }
        }
        i := i + 1;
      }
      ok := true;
    }
  }

  // ----- facts behind the methods ---------------------------------------------

  /** An existing template, and a new parent that is none or another existing template. */
  predicate Permitted(s: Store, target: Path, parent: Path, templates: set<Path>) {
    target in templates && target in s && (parent != "" ==> parent in templates && parent in s)
  }

  /** children lists every image backed by target (other than itself), and none of them is put back onto it. */
  ghost predicate SafeToDelete(s: Store, target: Path, children: seq<Path>, parent: Path) {
    (forall p | p in s && p != target && s[p].backing == target :: p in children) &&
    (children != [] ==> parent != target)
  }

  /** What the reparenting loop has done at any point: contents kept, only children touched, backings old or new. */
  ghost predicate Reparented(was: Store, s: Store, children: seq<Path>, parent: Path) {
    SameContents(was, s) &&
    forall p | p in s && s[p] != was[p] ::
      p in children &&
      (s[p].backing == was[p].backing || (s[p].backing == parent && (parent != "" ==> parent in s)))
  }

  /** The same, with the first children moved. */
  ghost predicate Reparenting(was: Store, s: Store, children: seq<Path>, parent: Path, i: nat)
    requires i <= |children|
  {
    Reparented(was, s, children, parent) && MayAdopt(s, parent, children) &&
    forall k | 0 <= k < i :: children[k] in s && s[children[k]].backing == parent
  }

  lemma ReparentedStep(was: Store, s: Store, child: Path, image: Image, children: seq<Path>, parent: Path)
    requires Reparented(was, s, children, parent) && child in children && child in s
    requires SameContents(s, s[child := image])
    requires image.backing == s[child].backing || (image.backing == parent && (parent != "" ==> parent in s))
    ensures Reparented(was, s[child := image], children, parent)
  {
    SameContentsTransitive(was, s, s[child := image]);
  }

  lemma StillUnused(was: Store, s: Store, children: seq<Path>, parent: Path, tmps: seq<Path>, t: Path)
    requires Reparented(was, s, children, parent) && Scratch(was, parent, tmps) && t in tmps
    ensures Unused(s, t)
  {
  }

  lemma DeleteExact(was: Store, s: Store, target: Path, children: seq<Path>, parent: Path)
    requires Acyclic(was) && NoDangling(was) && MayAdopt(was, parent, children) && target != ""
    requires Reparented(was, s, children, parent)
    requires forall c | c in children :: c in s && s[c].backing == parent
    ensures NoDangling(s - {target}) <==> SafeToDelete(was, target, children, parent)
  {
    var s' := s - {target};
    if NoDangling(s') {
      forall p | p in was && p != target && was[p].backing == target ensures p in children {
        assert p in s';
      }
      if children != [] {
        var c := children[0];
        assert c in children && c in s;
        if c != target {
          assert c in s';
        }
      }
    }
  }

  lemma AddStandalone(s: Store, p: Path, image: Image)
    requires Acyclic(s) && Unused(s, p) && image.backing == ""
    ensures Acyclic(s[p := image])
  {
    assert Ranked(s[p := image], RankOf(s));
  }

  /** Renaming a faithful stand-alone copy of target over target changes nobody's contents. */
  lemma ReplaceByStandalone(was: Store, s: Store, target: Path, tmp: Path)
    requires Acyclic(was) && Unused(was, tmp) && target in was
    requires tmp in s && s - {tmp} == was
    requires Acyclic(s) && s[tmp].backing == "" && s[tmp].size == was[target].size
    requires forall c: nat :: ReadAt(s, tmp, c) == ReadAt(was, target, c)
    ensures s[target := s[tmp]] - {tmp} == was[target := s[tmp]]
    ensures SameContents(was, was[target := s[tmp]])
  {
    ReparentAcyclic(was, target, s[tmp]);
    forall c: nat ensures ReadAt(was[target := s[tmp]], target, c) == ReadAt(was, target, c) {
      assert ReadAt(s, tmp, c) == ReadAt(was, target, c);
    }
    ReplaceKeepsContents(was, target, s[tmp]);
  }

  /** Reparenting one child leaves the others adoptable: it does not touch the chain above parent. */
  lemma StillMayAdopt(s: Store, child: Path, image: Image, parent: Path, children: seq<Path>)
    requires Acyclic(s) && Acyclic(s[child := image]) && child in s && child in children
    requires MayAdopt(s, parent, children)
    ensures MayAdopt(s[child := image], parent, children)
  {
    if parent != "" {
      forall c | c in children ensures !BuiltOn(s[child := image], parent, c) {
        ReplaceUnseenChain(s, child, image, parent, c);
      }
    }
  }

  lemma {:induction false} NobodyBuiltOn(s: Store, p: Path, target: Path)
    requires Acyclic(s) && p != target
    requires forall q | q in s && q != target :: s[q].backing != target
    ensures !BuiltOn(s, p, target)
    decreases RankOf(s)(p)
  {
    if p in s && s[p].backing != "" {
      NobodyBuiltOn(s, s[p].backing, target);
    }
  }

  /** Writing into t what t reads anyway leaves the store acyclic and t readable as before. */
  lemma CopyUp(was: Store, s: Store, t: Path, c: nat, b: Block)
    requires Acyclic(was) && Acyclic(s) && t in s && c < s[t].size
    requires t in was && s == was[t := s[t]]
    requires ReadAt(s, t, c) == Got(b)
    ensures var s' := s[t := s[t].(data := s[t].data[c := b])];
            Acyclic(s') && forall k: nat :: ReadAt(s', t, k) == ReadAt(s, t, k)
  {
    var image := s[t].(data := s[t].data[c := b]);
    var s' := s[t := image];
    assert Ranked(s', RankOf(s));
    forall k: nat ensures ReadAt(s', t, k) == ReadAt(s, t, k) {
      if k < s[t].size && k !in image.data && image.backing != "" {
        BackingUnseen(s, t);
        ReplaceUnseen(s, t, image, image.backing, k);
      }
    }
  }

  lemma BackingUnseen(s: Store, t: Path)
    requires Acyclic(s) && t in s && s[t].backing != ""
    ensures !BuiltOn(s, s[t].backing, t)
  {
    if BuiltOn(s, s[t].backing, t) {
      BuiltOnRank(s, s[t].backing, t);
    }
  }

  /** Once the clusters the two backings disagree on are stored in t, the switch is invisible. */
  lemma SwitchBacking(was: Store, s: Store, t: Path, parent: Path)
    requires Acyclic(was) && Acyclic(s) && t in s && t in was && s == was[t := s[t]]
    requires parent != "" && parent in was && !BuiltOn(was, parent, t) && s[t].size == was[t].size
    requires forall k: nat :: ReadAt(s, t, k) == ReadAt(was, t, k)
    requires forall k | 0 <= k < s[t].size && k !in s[t].data :: ReadAt(was, parent, k) == ReadAt(was, t, k)
    ensures SameContents(was, s[t := s[t].(backing := parent)])
  {
    var image := s[t].(backing := parent);
    ReparentAcyclic(was, t, image);
    SwitchedReads(was, s, t, parent);
    ReplaceKeepsContents(was, t, image);
    OneRewritten(was, s, t, image);
  }

  lemma OneRewritten(was: Store, s: Store, t: Path, image: Image)
    requires t in s && t in was && s == was[t := s[t]]
    ensures s[t := image] == was[t := image]
  {
  }

  lemma SwitchedReads(was: Store, s: Store, t: Path, parent: Path)
    requires Acyclic(was) && Acyclic(s) && t in s && t in was && s == was[t := s[t]]
    requires parent != "" && parent in was && !BuiltOn(was, parent, t) && Acyclic(was[t := s[t].(backing := parent)])
    requires forall k: nat :: ReadAt(s, t, k) == ReadAt(was, t, k)
    requires forall k | 0 <= k < s[t].size && k !in s[t].data :: ReadAt(was, parent, k) == ReadAt(was, t, k)
    ensures forall k: nat :: ReadAt(was[t := s[t].(backing := parent)], t, k) == ReadAt(was, t, k)
  {
    forall k: nat ensures ReadAt(was[t := s[t].(backing := parent)], t, k) == ReadAt(was, t, k) {
      SwitchedRead(was, s, t, parent, k);
    }
  }

  lemma SwitchedRead(was: Store, s: Store, t: Path, parent: Path, k: nat)
    requires Acyclic(was) && Acyclic(s) && t in s && t in was && s == was[t := s[t]]
    requires parent != "" && parent in was && !BuiltOn(was, parent, t) && Acyclic(was[t := s[t].(backing := parent)])
    requires ReadAt(s, t, k) == ReadAt(was, t, k)
    requires k < s[t].size && k !in s[t].data ==> ReadAt(was, parent, k) == ReadAt(was, t, k)
    ensures ReadAt(was[t := s[t].(backing := parent)], t, k) == ReadAt(was, t, k)
  {
    var image := s[t].(backing := parent);
    if k < image.size && k !in image.data {
      ReplaceUnseen(was, t, image, parent, k);
    }
  }

  // ----- what the operations are for ------------------------------------------

  /**
   The control plane's rule: the children are images backed by the target, all of
   them, and the new parent is neither the target nor built on it. It gives both
   what promote_delete needs to run and what it needs to lose nothing.
   */
  lemma CompleteListIsSafe(s: Store, target: Path, children: seq<Path>, parent: Path)
    requires Acyclic(s) && target != "" && !BuiltOn(s, parent, target)
    requires forall c | c in children :: c in s && s[c].backing == target
    requires forall p | p in s && s[p].backing == target :: p in children
    ensures MayAdopt(s, parent, children) && SafeToDelete(s, target, children, parent)
  {
    forall c | c in children ensures !BuiltOn(s, parent, c) {
      if BuiltOn(s, parent, c) {
        assert BuiltOn(s, s[c].backing, target);
        BuiltOnTransitive(s, parent, c, target);
      }
    }
  }

  /** Leaving a child out, or naming the doomed generation as the new parent, strands an image. */
  lemma IncompleteListStrands()
    ensures var s := map["t" := Image(1, map[], ""), "c" := Image(1, map[], "t")];
            Healthy(s) && MayAdopt(s, "", []) && MayAdopt(s, "t", ["c"]) &&
            !SafeToDelete(s, "t", [], "") && !SafeToDelete(s, "t", ["c"], "t") && !NoDangling(s - {"t"})
  {
    var s := map["t" := Image(1, map[], ""), "c" := Image(1, map[], "t")];
    assert Ranked(s, (p: Path) => if p == "c" then 1 else 0);
    assert (s - {"t"})["c"].backing == "t";
    assert !BuiltOn(s, "t", "c");
    assert "c" != "t" && "c" !in [];
  }

  /** A disk of the machine that can be written to. */
  predicate Writable(domain: seq<DomainDisk>, p: Path) {
    exists i :: 0 <= i < |domain| && domain[i].source == p != "" && !domain[i].cdrom && !domain[i].floppy
  }

  /** The images that have lost their backing image. */
  function Severed(was: Store, s: Store): set<Path> {
    set p | p in s && p in was && s[p].backing != was[p].backing
  }

  /** The first i disks have been dealt with. */
  ghost predicate Freeing(was: Store, s: Store, domain: seq<DomainDisk>, i: nat, merged: nat)
    requires i <= |domain|
  {
    MadeIndependent(was, s) && merged == |Severed(was, s)| &&
    (forall p | p in s && !Writable(domain, p) :: s[p] == was[p]) &&
    forall k | 0 <= k < i && !domain[k].cdrom && !domain[k].floppy && domain[k].source != "" ::
      domain[k].source in s && s[domain[k].source].backing == ""
  }

  lemma FreesOne(was: Store, s: Store, s': Store, domain: seq<DomainDisk>, i: nat, merged: nat)
    requires i < |domain| && Freeing(was, s, domain, i, merged)
    requires var d := domain[i]; !d.cdrom && !d.floppy && d.source != "" && d.source in s && s[d.source].backing != ""
    requires var p := domain[i].source; p in s' && s' == s[p := s'[p]] && s'[p].backing == "" && SameContents(s, s')
    ensures Freeing(was, s', domain, i + 1, merged + 1)
  {
    var p := domain[i].source;
    SameContentsTransitive(was, s, s');
    SeveredOnce(was, s, s', p);
    assert Writable(domain, p);
  }

  lemma SeveredOnce(was: Store, s: Store, s': Store, p: Path)
    requires was.Keys == s.Keys && p in s && p in s' && s' == s[p := s'[p]]
    requires s[p] == was[p] && s[p].backing != "" && s'[p].backing == ""
    ensures |Severed(was, s')| == |Severed(was, s)| + 1
  {
    assert Severed(was, s') == Severed(was, s) + {p};
  }

  /** Some images have been made to stand alone, and no other has changed. */
  ghost predicate MadeIndependent(was: Store, s: Store) {
    SameContents(was, s) && forall p | p in s :: s[p] == was[p] || s[p].backing == ""
  }

  /**
   However many disks were made to stand alone: deleting anything that such a disk used
   to be built on changes neither its contents nor those of the images built on it.
   */
  lemma StandaloneOutlivesParents(was: Store, s: Store, t: Path, former: Path, p: Path)
    requires MadeIndependent(was, s) && t in was && s[t].backing == ""
    requires former != t && BuiltOn(was, t, former) && BuiltOn(was, p, t) && p in was
    ensures Acyclic(s - {former}) && ReadsAlike(was, s - {former}, p)
  {
    assert Ranked(s - {former}, RankOf(s));
    assert ReadsAlike(was, s, p);
    StandaloneCutsChain(was, s, t, former, p);
    forall c: nat ensures ReadAt(s - {former}, p, c) == ReadAt(was, p, c) {
      RemoveUnseen(s, former, p, c);
    }
  }

  lemma {:induction false} StandaloneCutsChain(was: Store, s: Store, t: Path, former: Path, p: Path)
    requires MadeIndependent(was, s) && t in was && s[t].backing == ""
    requires former != t && BuiltOn(was, t, former) && BuiltOn(was, p, t)
    ensures !BuiltOn(s, p, former) && p != former
    decreases RankOf(was)(p)
  {
    BuiltOnRank(was, t, former);
    BuiltOnRank(was, p, t);
    if p != t {
      StandaloneCutsChain(was, s, t, former, was[p].backing);
    }
  }

  /** The hypothesis on the new parent is exact: any other choice closes a cycle. */
  lemma ReparentAcyclicExactly(s: Store, t: Path, parent: Path)
    requires Acyclic(s) && t in s && parent != ""
    ensures Acyclic(s[t := s[t].(backing := parent)]) <==> !BuiltOn(s, parent, t)
  {
    var s' := s[t := s[t].(backing := parent)];
    if !BuiltOn(s, parent, t) {
      ReparentAcyclic(s, t, s[t].(backing := parent));
    } else if Acyclic(s') {
      assert t in s' && s'[t].backing == parent;
      ClosedCycle(s, s', t, RankOf(s'), parent);
    }
  }

  lemma {:induction false} ClosedCycle(s: Store, s': Store, t: Path, rank: Path -> nat, p: Path)
    requires Acyclic(s) && Ranked(s', rank) && BuiltOn(s, p, t)
    requires forall q | q in s && q != t :: q in s' && s'[q] == s[q]
    ensures rank(t) <= rank(p)
    decreases RankOf(s)(p)
  {
    if p != t {
      ClosedCycle(s, s', t, rank, s[p].backing);
    }
  }
}
