/** What the invariant means for chains and for the directory tree, without the book. */
module FatTree {
  import opened Counting
  import opened Layout
  import opened FatState
  import opened Chains
  import opened FatInvariant

  // ---- Chains ----

  /** Slot i of live directory d is in use. */
  predicate Used(v: Volume, b: Book, d: nat, i: nat) {
    d < MAP_SIZE && Folder(b, d) && 2 <= i < SLOTS && v.tabs[d][i] != Blank()
  }

  function EntryChain(v: Volume, d: nat, i: nat): seq<nat>
    requires d < MAP_SIZE && i < SLOTS
  {
    Chain(v.words, v.tabs[d][i].cluster)
  }

  lemma ChainOwner(v: Volume, b: Book, d: nat, i: nat)
    requires Sound(v, b) && Used(v, b, d, i)
    ensures EntryOk(v, b, d, i)
    ensures forall x :: x in EntryChain(v, d, i) ==> b.owner[x] == Held(d, i, v.tabs[d][i].Folder())
  {
    assert EntryOk(v, b, d, i);
    ChainOwned(v, b, v.tabs[d][i].cluster);
  }

  /** The chain of every used entry runs strictly upwards through clusters 3 to 511, ends in
      END_OF_FILE, and has one cluster for a directory and the fewest that hold its size for a
      file. */
  lemma ChainsRunUp(v: Volume, b: Book, d: nat, i: nat)
    requires Sound(v, b) && Used(v, b, d, i)
    ensures var e, chain := v.tabs[d][i], EntryChain(v, d, i);
      && Ascending(chain) && Within(chain, 3, MAP_SIZE) && Linked(v.words, chain)
      && |chain| == (if e.Folder() then 1 else Parts(e.size))
  {
    ChainOwner(v, b, d, i);
    ChainAscends(v.words, v.tabs[d][i].cluster);
    ChainEnds(v, b, v.tabs[d][i].cluster);
  }

  /** No cluster is on the chains of two entries. */
  lemma ChainsAreDisjoint(v: Volume, b: Book, d: nat, i: nat, e: nat, j: nat)
    requires Sound(v, b) && Used(v, b, d, i) && Used(v, b, e, j) && (d, i) != (e, j)
    ensures forall x :: x in EntryChain(v, d, i) ==> x !in EntryChain(v, e, j)
  {
    ChainOwner(v, b, d, i);
    ChainOwner(v, b, e, j);
  }

  /** The words in use are exactly the three reserved ones and those on some entry's chain. */
  lemma NothingLeaks(v: Volume, b: Book, c: nat)
    requires Sound(v, b) && c < MAP_SIZE
    ensures v.words[c] != EMPTY <==> c < 3 || exists d, i :: Used(v, b, d, i) && c in EntryChain(v, d, i)
  {
    if v.words[c] != EMPTY && c >= 3 {
      assert HeldOk(v, b, c);
      assert Used(v, b, b.owner[c].parent, b.owner[c].slot) && c in EntryChain(v, b.owner[c].parent, b.owner[c].slot);
    }
    if d, i :| Used(v, b, d, i) && c in EntryChain(v, d, i) {
      ChainOwner(v, b, d, i);
    }
  }

  // ---- Directories ----

  /** The n directories above c, c first. */
  function Above(b: Book, c: nat, n: nat): (path: seq<nat>)
    requires |b.owner| == MAP_SIZE && c < MAP_SIZE
    ensures path != [] && path[0] == c
    decreases n
  {
    if n == 0 || ParentOf(b, c) >= MAP_SIZE then [c] else [c] + Above(b, ParentOf(b, c), n - 1)
  }

  /** The directories from c up to the root. */
  function Path(b: Book, c: nat): seq<nat>
    requires |b.owner| == |b.depth| == MAP_SIZE && c < MAP_SIZE
  {
    Above(b, c, b.depth[c])
  }

  predicate OneUp(b: Book, c: nat)
    requires |b.owner| == |b.depth| == MAP_SIZE && c < MAP_SIZE
  {
    ParentOf(b, c) < MAP_SIZE && Folder(b, ParentOf(b, c)) && b.depth[c] == b.depth[ParentOf(b, c)] + 1
  }

  /** Every directory below the root has a parent one level up. */
  predicate Climbable(b: Book) {
    && |b.owner| == |b.depth| == MAP_SIZE && Folder(b, ROOT_CLUSTER) && b.depth[ROOT_CLUSTER] == 0
    && forall c {:trigger Folder(b, c)} :: 0 <= c < MAP_SIZE && Folder(b, c) && c != ROOT_CLUSTER ==> OneUp(b, c)
  }

  lemma SoundIsClimbable(v: Volume, b: Book)
    requires Sound(v, b)
    ensures Climbable(b)
  {
    assert HeadOk(v, b, ROOT_CLUSTER);
    forall c | 0 <= c < MAP_SIZE && Folder(b, c) && c != ROOT_CLUSTER
      ensures OneUp(b, c)
    {
      FolderEntry(v, b, c);
    }
  }

  /** Step k of a path of n steps: a directory at its depth, and its parent behind it. */
  predicate Rung(b: Book, path: seq<nat>, k: nat)
    requires k < |path|
  {
    && Folder(b, path[k]) && path[k] < |b.depth| && b.depth[path[k]] + k + 1 == |path|
    && (k + 1 < |path| ==> path[k] != ROOT_CLUSTER && path[k + 1] == ParentOf(b, path[k]))
  }

  predicate Ladder(b: Book, path: seq<nat>) {
    path != [] && path[|path| - 1] == ROOT_CLUSTER && forall k {:trigger Rung(b, path, k)} :: 0 <= k < |path| ==> Rung(b, path, k)
  }

  lemma LadderGrows(b: Book, c: nat, rest: seq<nat>)
    requires Ladder(b, rest) && |b.owner| == |b.depth| == MAP_SIZE && Folder(b, c) && c != ROOT_CLUSTER
    requires rest[0] == ParentOf(b, c) && b.depth[c] == |rest|
    ensures Ladder(b, [c] + rest)
  {
    var path := [c] + rest;
    forall k | 0 <= k < |path|
      ensures Rung(b, path, k)
    {
      if k > 0 {
        assert Rung(b, rest, k - 1) && path[k] == rest[k - 1];
        assert k + 1 < |path| ==> path[k + 1] == rest[k];
      }
    }
  }

  lemma {:induction false} PathIsLadder(b: Book, c: nat)
    requires Climbable(b) && c < MAP_SIZE && Folder(b, c)
    ensures Ladder(b, Path(b, c)) && |Path(b, c)| == b.depth[c] + 1
    decreases b.depth[c]
  {
    if c == ROOT_CLUSTER {
      assert Path(b, c) == [c] && Rung(b, [c], 0);
    } else {
      assert OneUp(b, c);
      var p := ParentOf(b, c);
      PathIsLadder(b, p);
      assert Path(b, c) == [c] + Path(b, p);
      LadderGrows(b, c, Path(b, p));
    }
  }

  lemma ClimbsLadder(b: Book, path: seq<nat>)
    requires Ladder(b, path)
    ensures forall k :: 0 <= k < |path| ==> Folder(b, path[k]) && path[k] < |b.depth| && b.depth[path[k]] == |path| - 1 - k
    ensures forall k :: 0 <= k < |path| - 1 ==>
      Folder(b, path[k]) && path[k] != ROOT_CLUSTER && path[k + 1] == ParentOf(b, path[k])
  {
    forall k | 0 <= k < |path|
      ensures Folder(b, path[k]) && path[k] < |b.depth| && b.depth[path[k]] == |path| - 1 - k
    {
      assert Rung(b, path, k);
    }
    forall k | 0 <= k < |path| - 1
      ensures Folder(b, path[k]) && path[k] != ROOT_CLUSTER && path[k + 1] == ParentOf(b, path[k])
    {
      assert Rung(b, path, k);
    }
  }

  /** Each directory of a path is the parent of the one before, one level less deep; the last is
      the root. */
  lemma PathClimbs(v: Volume, b: Book, c: nat)
    requires Sound(v, b) && Folder(b, c)
    ensures var path := Path(b, c);
      && |path| == b.depth[c] + 1 && path[|path| - 1] == ROOT_CLUSTER
      && (forall k :: 0 <= k < |path| ==> Folder(b, path[k]) && b.depth[path[k]] == b.depth[c] - k)
      && (forall k :: 0 <= k < |path| - 1 ==> path[k] != ROOT_CLUSTER && path[k + 1] == ParentOf(b, path[k]))
  {
    SoundIsClimbable(v, b);
    PathIsLadder(b, c);
    ClimbsLadder(b, Path(b, c));
  }

  lemma DepthsDiffer(v: Volume, b: Book, path: seq<nat>, n: nat)
    requires Shape(v, b)
    requires forall k :: 0 <= k < |path| ==> Folder(b, path[k]) && b.depth[path[k]] == n - k
    ensures |path| <= MAP_SIZE - 2
  {
    forall k | 0 <= k < |path|
      ensures 2 <= path[k] < MAP_SIZE
    {
      assert !b.owner[path[k]].System?;
    }
    Pigeonhole(path, 2, MAP_SIZE);
  }

  /** No path to the root repeats a directory, so it has at most 510 of them. */
  lemma PathIsShort(v: Volume, b: Book, c: nat)
    requires Sound(v, b) && Folder(b, c)
    ensures |Path(b, c)| <= MAP_SIZE - 2
  {
    PathClimbs(v, b, c);
    DepthsDiffer(v, b, Path(b, c), b.depth[c]);
  }

  /** The path is what the headers on disk say: entry 0 of each directory is itself, entry 1 the
      next one up, and only the last one is the root. */
  lemma PathByHeaders(v: Volume, b: Book, c: nat, k: nat)
    requires Sound(v, b) && Folder(b, c) && k < |Path(b, c)|
    ensures var path := Path(b, c);
      && path[k] < MAP_SIZE && Folder(b, path[k]) && v.tabs[path[k]][0].cluster == path[k]
      && (path[k] == ROOT_CLUSTER <==> k + 1 == |path|)
      && (k + 1 < |path| ==> path[k + 1] < MAP_SIZE && v.tabs[path[k]][1].cluster == path[k + 1]
                             && v.tabs[path[k]][1].name == v.tabs[path[k + 1]][0].name)
  {
    PathClimbs(v, b, c);
    assert HeadOk(v, b, Path(b, c)[k]);
  }
}
