/**
 The disk images of one node and the template-maintenance operations on them.

 An image stores some of its clusters itself and falls through to its backing
 image for the others. The operations rewrite one image in place (rebase in
 safe mode, or convert and rename over it), so what has to be shown is that
 nobody else's contents change: not those of the image, not those of any image
 further down the chain.
 */
module BackingChains {

  type Path = string

  /** The contents of one cluster; an unwritten cluster reads as zeros. */
  datatype Block = Zero | Bytes(id: int)

  /** What a read finds. A chain that runs into a missing file is an error. */
  datatype Outcome = Got(block: Block) | Broken

  /** One qcow2 file: its virtual size in clusters, what it stores, and its backing file ("" for none). */
  datatype Image = Image(size: nat, data: map<nat, Block>, backing: Path)

  type Store = map<Path, Image>

  // ----- chains ---------------------------------------------------------------

  ghost predicate Ranked(s: Store, rank: Path -> nat) {
    forall p | p in s && s[p].backing != "" :: rank(s[p].backing) < rank(p)
  }

  /** No image is its own (direct or indirect) backing image. */
  ghost predicate Acyclic(s: Store) {
    exists rank: Path -> nat :: Ranked(s, rank)
  }

  ghost function RankOf(s: Store): (rank: Path -> nat)
    requires Acyclic(s)
    ensures Ranked(s, rank)
  {
    var rank: Path -> nat :| Ranked(s, rank);
    rank
  }

  /** Every backing file exists. */
  ghost predicate NoDangling(s: Store) {
    forall p | p in s && s[p].backing != "" :: s[p].backing in s
  }

  ghost predicate Healthy(s: Store) {
    Acyclic(s) && NoDangling(s)
  }

  /** q is p itself or one of the images p is built on. */
  ghost predicate BuiltOn(s: Store, p: Path, q: Path)
    requires Acyclic(s)
    decreases RankOf(s)(p)
  {
    p == q || (p in s && s[p].backing != "" && BuiltOn(s, s[p].backing, q))
  }

  /** What a reader of image p sees in cluster c. */
  ghost function ReadAt(s: Store, p: Path, c: nat): Outcome
    requires Acyclic(s)
    decreases RankOf(s)(p)
  {
    if p !in s then Broken
    else if c >= s[p].size then Got(Zero)
    else if c in s[p].data then Got(s[p].data[c])
    else if s[p].backing == "" then Got(Zero)
    else ReadAt(s, s[p].backing, c)
  }

  /** Both stores hold image p with the same readable contents. */
  ghost predicate ReadsAlike(s: Store, s': Store, p: Path)
    requires Acyclic(s) && Acyclic(s')
  {
    p in s && p in s' && s'[p].size == s[p].size &&
    forall c: nat :: ReadAt(s', p, c) == ReadAt(s, p, c)
  }

  /** Same files, same readable contents: what an in-place rewrite owes everyone. */
  ghost predicate SameContents(s: Store, s': Store) {
    Acyclic(s) && Acyclic(s') && s'.Keys == s.Keys &&
    forall p | p in s :: ReadsAlike(s, s', p)
  }

  lemma {:induction false} BuiltOnTransitive(s: Store, p: Path, q: Path, r: Path)
    requires Acyclic(s) && BuiltOn(s, p, q) && BuiltOn(s, q, r)
    ensures BuiltOn(s, p, r)
    decreases RankOf(s)(p)
  {
    if p != q {
      BuiltOnTransitive(s, s[p].backing, q, r);
    }
  }

  /** Two images that are built on each other are the same image. */
  lemma {:induction false} BuiltOnRank(s: Store, p: Path, q: Path)
    requires Acyclic(s) && BuiltOn(s, p, q)
    ensures p == q || RankOf(s)(q) < RankOf(s)(p)
    decreases RankOf(s)(p)
  {
    if p != q {
      BuiltOnRank(s, s[p].backing, q);
    }
  }

  lemma {:induction false} HealthyReads(s: Store, p: Path, c: nat)
    requires Healthy(s) && p in s
    ensures ReadAt(s, p, c).Got?
    decreases RankOf(s)(p)
  {
    if c < s[p].size && c !in s[p].data && s[p].backing != "" {
      HealthyReads(s, s[p].backing, c);
    }
  }

  // ----- replacing one image --------------------------------------------------

  /** Moving t onto a new backing image keeps the store acyclic unless that image is built on t. */
  lemma ReparentAcyclic(s: Store, t: Path, image: Image)
    requires Acyclic(s) && t in s
    requires image.backing != "" ==> !BuiltOn(s, image.backing, t)
    ensures Acyclic(s[t := image])
  {
    var rank := RankOf(s);
    var lift := if image.backing != "" then rank(image.backing) + 1 else 0;
    var rank' := (q: Path) => if BuiltOn(s, q, t) then rank(q) + lift else rank(q);
    assert Ranked(s[t := image], rank');
  }

  /** Images that are not built on t do not notice that t was replaced. */
  lemma {:induction false} ReplaceUnseen(s: Store, t: Path, image: Image, p: Path, c: nat)
    requires Acyclic(s) && Acyclic(s[t := image])
    requires t in s && !BuiltOn(s, p, t)
    ensures ReadAt(s[t := image], p, c) == ReadAt(s, p, c)
    ensures !BuiltOn(s[t := image], p, t)
    decreases RankOf(s)(p)
  {
    if p in s && s[p].backing != "" {
      ReplaceUnseen(s, t, image, s[p].backing, c);
    }
  }

  /** If t itself reads as before, then so does every image built on it, at any depth. */
  lemma {:induction false} ReplaceKeepsReader(s: Store, t: Path, image: Image, p: Path, c: nat)
    requires Acyclic(s) && Acyclic(s[t := image]) && t in s
    requires forall k: nat :: ReadAt(s[t := image], t, k) == ReadAt(s, t, k)
    ensures ReadAt(s[t := image], p, c) == ReadAt(s, p, c)
    decreases RankOf(s)(p)
  {
    if p != t && p in s && s[p].backing != "" {
      ReplaceKeepsReader(s, t, image, s[p].backing, c);
    }
  }

  lemma ReplaceKeepsContents(s: Store, t: Path, image: Image)
    requires Acyclic(s) && Acyclic(s[t := image]) && t in s && image.size == s[t].size
    requires forall k: nat :: ReadAt(s[t := image], t, k) == ReadAt(s, t, k)
    ensures SameContents(s, s[t := image])
  {
    forall p | p in s ensures ReadsAlike(s, s[t := image], p) {
      ReplaceKeepsImage(s, t, image, p);
    }
  }

  lemma ReplaceKeepsImage(s: Store, t: Path, image: Image, p: Path)
    requires Acyclic(s) && Acyclic(s[t := image]) && t in s && image.size == s[t].size && p in s
    requires forall k: nat :: ReadAt(s[t := image], t, k) == ReadAt(s, t, k)
    ensures ReadsAlike(s, s[t := image], p)
  {
    forall c: nat ensures ReadAt(s[t := image], p, c) == ReadAt(s, p, c) {
      ReplaceKeepsReader(s, t, image, p, c);
    }
  }

  lemma SameContentsTransitive(s: Store, s': Store, s'': Store)
    requires SameContents(s, s') && SameContents(s', s'')
    ensures SameContents(s, s'')
  {
    forall p | p in s ensures ReadsAlike(s, s'', p) {
      assert ReadsAlike(s, s', p) && ReadsAlike(s', s'', p);
    }
  }

  /** The chain above an image that is not built on t is untouched by replacing t. */
  lemma {:induction false} ReplaceUnseenChain(s: Store, t: Path, image: Image, p: Path, q: Path)
    requires Acyclic(s) && Acyclic(s[t := image])
    requires t in s && !BuiltOn(s, p, t)
    ensures BuiltOn(s[t := image], p, q) == BuiltOn(s, p, q)
    decreases RankOf(s)(p)
  {
    if p in s && s[p].backing != "" {
      ReplaceUnseenChain(s, t, image, s[p].backing, q);
    }
  }

  // ----- adding and removing files --------------------------------------------

  /** No file has this name and no image expects one to. */
  ghost predicate Unused(s: Store, p: Path) {
    p !in s && forall q | q in s :: s[q].backing != p
  }

  lemma {:induction false} RemoveUnseen(s: Store, q: Path, p: Path, c: nat)
    requires Acyclic(s) && !BuiltOn(s, p, q)
    ensures Acyclic(s - {q})
    ensures ReadAt(s - {q}, p, c) == ReadAt(s, p, c)
    decreases RankOf(s)(p)
  {
    assert Ranked(s - {q}, RankOf(s));
    if p in s && s[p].backing != "" {
      RemoveUnseen(s, q, s[p].backing, c);
    }
  }
}
