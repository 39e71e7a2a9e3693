/** The delete request keeps the invariant, and exactly when. */
module FatRemoval {
  import opened Layout
  import opened FatState
  import opened FatInvariant
  import opened FatUnlink
  import opened FatRequests

  /** The entry a delete (or a read) lands on: the first match, headers included. */
  function Target(s: Fs, r: Request): nat
    requires r.parent < DISK_CLUSTERS
  {
    Find(Parent(s, r), r.name, r.ext, 0)
  }

  /** What the request finds, if it finds anything in a directory, is an entry in use. */
  predicate FindsUsed(s: Fs, r: Request)
    requires r.parent < DISK_CLUSTERS
  {
    Parent(s, r)[0].Folder() && Target(s, r) < SLOTS ==> Parent(s, r)[Target(s, r)].Live()
  }

  /** A request with a name or an extension never finds an unused entry. */
  lemma NamedFindsUsed(s: Fs, b: Book, r: Request)
    requires Inv(s, b) && ParentKnown(s, b, r) && !BlankKey(r)
    ensures FindsUsed(s, r)
  {
    if Parent(s, r)[0].Folder() && Target(s, r) < SLOTS {
      VolAt(s, r.parent);
      assert HeadOk(Vol(s), b, r.parent);
      assert Target(s, r) >= 2 ==> Parent(s, r)[Target(s, r)] == Blank() || EntryOk(Vol(s), b, r.parent, Target(s, r));
    }
  }

  /** The request names the very directory it is made in, and that directory is empty. */
  predicate SelfDelete(s: Fs, r: Request)
    requires r.parent < DISK_CLUSTERS
  {
    Parent(s, r)[0].Folder() && Parent(s, r)[0].Named(r.name, r.ext) && EmptyFolder(Parent(s, r))
  }

  /** A target past the headers is a used entry of a live directory. */
  lemma TargetIsLive(s: Fs, b: Book, r: Request)
    requires Inv(s, b) && Folder(b, r.parent) && FindsUsed(s, r) && 2 <= Target(s, r) < SLOTS
    ensures Vol(s).tabs[r.parent] == Parent(s, r) && Parent(s, r)[0].Folder()
    ensures Parent(s, r)[Target(s, r)] != Blank() && EntryOk(Vol(s), b, r.parent, Target(s, r))
  {
    VolAt(s, r.parent);
    assert HeadOk(Vol(s), b, r.parent);
    assert Parent(s, r)[Target(s, r)] == Blank() || EntryOk(Vol(s), b, r.parent, Target(s, r));
  }

  /** Entry 0 as target is the directory itself. */
  lemma TargetZero(s: Fs, b: Book, r: Request)
    requires Inv(s, b) && Folder(b, r.parent) && Target(s, r) == 0
    ensures Parent(s, r)[0].Folder() && Parent(s, r)[0].cluster == r.parent
  {
    VolAt(s, r.parent);
    assert HeadOk(Vol(s), b, r.parent);
  }

  /** Entry 1 as target is a directory that is not empty: the one the request is made in lies
      in it. */
  lemma TargetOne(s: Fs, b: Book, r: Request)
    requires Inv(s, b) && Folder(b, r.parent) && Target(s, r) == 1
    ensures DeleteCode(s, r) == 2
  {
    VolAt(s, r.parent);
    assert HeadOk(Vol(s), b, r.parent);
    assert b.owner[r.parent].Held? ==> HeldOk(Vol(s), b, r.parent);
    var q := ParentOf(b, r.parent);
    VolAt(s, q);
    if r.parent != ROOT_CLUSTER {
      var o := b.owner[r.parent];
      assert EntryOk(Vol(s), b, o.parent, o.slot);
    }
  }

  lemma DeleteTarget(s: Fs, b: Book, r: Request)
    requires Inv(s, b) && ParentKnown(s, b, r) && FindsUsed(s, r) && DeleteCode(s, r) == 0
    ensures Folder(b, r.parent) && Target(s, r) < SLOTS && Parent(s, r)[Target(s, r)].cluster < MAP_SIZE
    ensures Target(s, r) == 0 || Target(s, r) >= 2
    ensures SelfDelete(s, r) <==> Target(s, r) == 0
  {
    if Target(s, r) == 0 {
      TargetZero(s, b, r);
    } else if Target(s, r) == 1 {
      TargetOne(s, b, r);
    } else {
      TargetIsLive(s, b, r);
    }
  }

  lemma DeleteStepAllowed(s: Fs, b: Book, r: Request)
    requires Inv(s, b) && ParentKnown(s, b, r) && FindsUsed(s, r) && DeleteCode(s, r) == 0 && !SelfDelete(s, r)
    ensures Target(s, r) < SLOTS && Parent(s, r)[Target(s, r)].cluster < MAP_SIZE
    ensures UnlinkStep(s, b, r.parent, Target(s, r)).Allowed()
  {
    DeleteTarget(s, b, r);
    TargetIsLive(s, b, r);
    VolAt(s, Parent(s, r)[Target(s, r)].cluster);
  }

  predicate CanDelete(s: Fs, b: Book, r: Request) {
    Inv(s, b) && ParentKnown(s, b, r) && FindsUsed(s, r) && !SelfDelete(s, r)
  }

  /** The book after a delete. */
  function DeleteBook(s: Fs, b: Book, r: Request): Book
    requires CanDelete(s, b, r)
  {
    if DeleteCode(s, r) != 0 then b
    else
      DeleteStepAllowed(s, b, r);
      UnlinkStep(s, b, r.parent, Target(s, r)).After()
  }

  /** A delete keeps the invariant. */
  lemma DeleteKeepsInv(s: Fs, b: Book, r: Request)
    requires CanDelete(s, b, r)
    ensures Inv(DeleteState(s, r), DeleteBook(s, b, r))
  {
    if DeleteCode(s, r) == 0 {
      DeleteStepAllowed(s, b, r);
      UnlinkIsStep(s, b, r.parent, Target(s, r));
      UnlinkKeepsSound(UnlinkStep(s, b, r.parent, Target(s, r)));
    }
  }

  /** A directory is a chain of one cluster. */
  lemma FolderIsItsChain(s: Fs, b: Book, d: nat)
    requires Inv(s, b) && d < MAP_SIZE && Folder(b, d)
    ensures Chain(s.words, d) == [d] && d >= 2
  {
    assert !b.owner[d].System?;
    if d != ROOT_CLUSTER {
      FolderEntry(Vol(s), b, d);
      assert EntryOk(Vol(s), b, b.owner[d].parent, b.owner[d].slot);
    }
  }

  /** A self-deletion frees the directory's cluster and touches no other directory. */
  lemma SelfDeleteLeaves(s: Fs, b: Book, r: Request)
    requires Inv(s, b) && ParentKnown(s, b, r) && FindsUsed(s, r) && SelfDelete(s, r)
    ensures Folder(b, r.parent) && Parent(s, r)[0].cluster == r.parent && Target(s, r) == 0 && DeleteCode(s, r) == 0
    ensures var t := DeleteState(s, r);
      t.words[r.parent] == EMPTY
      && forall c :: 0 <= c < MAP_SIZE && Folder(b, c) && c != r.parent ==> Vol(t).tabs[c] == Vol(s).tabs[c]
  {
    TargetZero(s, b, r);
    FolderIsItsChain(s, b, r.parent);
    UnlinkAt(s, r.parent, 0);
    VolumeStep(s, Unlink(s, r.parent, 0), r.parent, 0, ZeroSlot(), [r.parent]);
    assert !b.owner[FAT_CLUSTER].Root?;
  }

  /** Directories other than d are directories in any book of t that fits their tables. */
  lemma {:induction false} FolderSurvives(v: Volume, b: Book, t: Volume, a: Book, d: nat, x: nat)
    requires Sound(v, b) && Sound(t, a) && d < MAP_SIZE && EmptyFolder(v.tabs[d])
    requires forall c :: 0 <= c < MAP_SIZE && Folder(b, c) && c != d ==> t.tabs[c] == v.tabs[c]
    requires x < MAP_SIZE && Folder(b, x) && x != d
    ensures Folder(a, x)
    decreases b.depth[x]
  {
    if x != ROOT_CLUSTER {
      FolderEntry(v, b, x);
      var o := b.owner[x];
      FolderSurvives(v, b, t, a, d, o.parent);
      assert EntryOk(t, a, o.parent, o.slot);
    }
  }

  /** A delete keeps the state well-formed if and only if it is not a self-deletion. */
  lemma DeleteKeepsExactly(s: Fs, b: Book, r: Request)
    requires Inv(s, b) && ParentKnown(s, b, r) && FindsUsed(s, r)
    ensures WellFormed(DeleteState(s, r)) <==> !SelfDelete(s, r)
  {
    if SelfDelete(s, r) {
      SelfDeleteLeaves(s, b, r);
      var t, d := DeleteState(s, r), r.parent;
      VolAt(s, d);
      forall a
        ensures !Inv(t, a)
      {
        if Inv(t, a) && d != ROOT_CLUSTER {
          FolderEntry(Vol(s), b, d);
          var o := b.owner[d];
          FolderSurvives(Vol(s), b, Vol(t), a, d, o.parent);
        }
      }
    } else {
      DeleteKeepsInv(s, b, r);
    }
  }
}
