/** Disks on which the shell's paths go wrong, each reached by two writes from a format. */
module ShellExamples {
  import opened Layout
  import opened Disk
  import opened FatState
  import opened FatInvariant
  import opened FatRequests
  import opened FatExamples
  import R = FatRun
  import opened ShellPaths
  import opened ShellWalk
  import opened Shell
  import opened ShellRun

  const EXT_X: Ext := [120, 0, 0]
  const EXT_Y: Ext := [121, 0, 0]

  /** A run from a fresh disk ends in w. */
  ghost predicate EndsRun(disk: Clusters, tail: seq<byte>, ops: seq<R.Op>, w: R.World) {
    && |tail| == CLUSTER_SIZE - BLOCK_SIZE && R.Fine(R.Formatted(disk, tail)) && R.LegalRun(R.Formatted(disk, tail), ops)
    && w == R.Run(R.Formatted(disk, tail), ops)
  }

  ghost predicate Reached(w: R.World) { exists disk, tail, ops :: EndsRun(disk, tail, ops, w) }

  /** The entries of r and q come first in the root. */
  predicate Holding(t: Table, r: Request, q: Request) {
    FilledTo(t, 4) && Made(t[2], r) && Made(t[3], q)
  }

  lemma EntriesDiffer(w: R.World, i: nat, j: nat)
    requires Inv(w.s, w.b) && 2 <= i < j < SLOTS && RootTable(w)[i] != Blank() && RootTable(w)[j] != Blank()
    ensures RootTable(w)[i].cluster != RootTable(w)[j].cluster
  {
    VolAt(w.s, ROOT_CLUSTER);
    assert EntryOk(Vol(w.s), w.b, ROOT_CLUSTER, i) && EntryOk(Vol(w.s), w.b, ROOT_CLUSTER, j);
  }

  /** A polite run from a fresh disk reaches a disk with an atlas. */
  lemma RunReaches(disk: Clusters, tail: seq<byte>, ops: seq<R.Op>)
    requires |tail| == CLUSTER_SIZE - BLOCK_SIZE && R.Fine(R.Formatted(disk, tail)) && R.LegalRun(R.Formatted(disk, tail), ops)
    requires forall i :: 0 <= i < |ops| ==> Polite(ops[i])
    ensures var w := R.Run(R.Formatted(disk, tail), ops);
      Reached(w) && Inv(w.s, w.b) && Mapped(w.s, Survey(Vol(w.s), w.b))
  {
    AtlasAfterAnyRun(disk, tail, ops);
    assert EndsRun(disk, tail, ops, R.Run(R.Formatted(disk, tail), ops));
  }

  /** Two small writes to a fresh disk reach a disk with an atlas that holds both entries. */
  lemma TwoEntries(disk: Clusters, tail: seq<byte>, buf: seq<byte>, r: Request, q: Request) returns (w: R.World, a: Atlas)
    requires |tail| == CLUSTER_SIZE - BLOCK_SIZE && |buf| >= CLUSTER_SIZE && Small(r) && Small(q)
    requires !(q.name == r.name && q.ext == r.ext && RequestAttr(q) == RequestAttr(r))
    requires Plain(TextOf(r.name)) && Plain(TextOf(q.name))
    ensures Reached(w) && Mapped(w.s, a) && Holding(RootTable(w), r, q)
    ensures RootTable(w)[2].cluster != RootTable(w)[3].cluster
  {
    var ops := [R.Write(r, buf), R.Write(q, buf)];
    TwoWrites(disk, tail, buf, r, q);
    RunReaches(disk, tail, ops);
    w := R.Run(R.Formatted(disk, tail), ops);
    a := Survey(Vol(w.s), w.b);
    EntriesDiffer(w, 2, 3);
  }

  lemma NameAIsPlain()
    ensures TextOf(OneByteName(NAME_A)) == [NAME_A] && Plain([NAME_A])
  {
    LenIs(OneByteName(NAME_A), 1);
  }

  /** Cluster d is a directory right below the root, called t. */
  predicate RightBelow(a: Atlas, d: nat, t: Text) {
    Charted(a) && Known(a, d) && d != ROOT_CLUSTER && a.parent[d] == ROOT_CLUSTER && a.title[d] == t
  }

  lemma PathBelowRoot(a: Atlas, d: nat, t: Text)
    requires RightBelow(a, d, t)
    ensures RootPath(a, d) == [SLASH] + t
  {
    assert Below(a, d);
  }

  /** A directory entry i of the root leads to one. */
  lemma ChildOfRoot(s: Fs, a: Atlas, i: nat, r: Request)
    requires Mapped(s, a) && 2 <= i < SLOTS && Made(TableOf(s.disk[ROOT_CLUSTER])[i], r) && r.size == 0
    ensures var d := TableOf(s.disk[ROOT_CLUSTER])[i].cluster;
      RightBelow(a, d, TextOf(r.name)) && TableOf(s.disk[d])[0].name == r.name && RootPath(a, d) == [SLASH] + TextOf(r.name)
  {
    var d := TableOf(s.disk[ROOT_CLUSTER])[i].cluster;
    assert EntryFits(s, a, ROOT_CLUSTER, i);
    assert HeaderFits(s, a, d);
    assert Below(a, d);
    PathBelowRoot(a, d, TextOf(r.name));
  }

  // ---- A file hides a directory ----

  const PATH_A: Text := [SLASH, NAME_A]

  /** Directory d is called /a, and cd /a does not get there from c. */
  predicate Unreached(s: Fs, a: Atlas, d: nat, c: nat, p: Text) {
    Mapped(s, a) && Stands(a, d, PATH_A) && !AllFindable(s, a, d) && Target(s, c, p, PATH_A) != At(d, PATH_A)
  }

  lemma HiddenIsUnreached(s: Fs, a: Atlas, r: Request, q: Request, c: nat, p: Text)
    requires Mapped(s, a) && r == FileCalled(NAME_A, EXT_X) && q == FolderCalled(NAME_A, NoExt())
    requires Made(TableOf(s.disk[ROOT_CLUSTER])[2], r) && Made(TableOf(s.disk[ROOT_CLUSTER])[3], q)
    ensures Unreached(s, a, TableOf(s.disk[ROOT_CLUSTER])[3].cluster, c, p)
  {
    var t := TableOf(s.disk[ROOT_CLUSTER]);
    NameAIsPlain();
    ChildOfRoot(s, a, 3, q);
    assert FindName(t, q.name, 2) == 2 && !t[2].Folder();
    CdToItsPath(s, a, t[3].cluster, PATH_A, c, p);
  }

  /** With a file a.x in front of it, the directory a of the root is out of the reach of cd. */
  lemma FileHidesDirectory(disk: Clusters, tail: seq<byte>, buf: seq<byte>, c: nat, p: Text) returns (w: R.World, a: Atlas, d: nat)
    requires |tail| == CLUSTER_SIZE - BLOCK_SIZE && |buf| >= CLUSTER_SIZE
    ensures Reached(w) && Unreached(w.s, a, d, c, p)
  {
    var r, q := FileCalled(NAME_A, EXT_X), FolderCalled(NAME_A, NoExt());
    NameAIsPlain();
    w, a := TwoEntries(disk, tail, buf, r, q);
    d := RootTable(w)[3].cluster;
    HiddenIsUnreached(w.s, a, r, q, c, p);
  }

  // ---- Two directories share a path ----

  predicate SharedPath(s: Fs, a: Atlas, d: nat, e: nat) {
    Mapped(s, a) && d != e && SamePath(a, d, e) && !PathsAreUnique(a)
  }

  lemma TwinsShareAPath(s: Fs, a: Atlas, r: Request, q: Request)
    requires Mapped(s, a) && r.name == q.name && r.size == q.size == 0
    requires Made(TableOf(s.disk[ROOT_CLUSTER])[2], r) && Made(TableOf(s.disk[ROOT_CLUSTER])[3], q)
    requires TableOf(s.disk[ROOT_CLUSTER])[2].cluster != TableOf(s.disk[ROOT_CLUSTER])[3].cluster
    ensures SharedPath(s, a, TableOf(s.disk[ROOT_CLUSTER])[2].cluster, TableOf(s.disk[ROOT_CLUSTER])[3].cluster)
  {
    ChildOfRoot(s, a, 2, r);
    ChildOfRoot(s, a, 3, q);
    assert SamePath(a, TableOf(s.disk[ROOT_CLUSTER])[2].cluster, TableOf(s.disk[ROOT_CLUSTER])[3].cluster);
  }

  /** Directories a.x and a.y of the root are both called /a. */
  lemma ExtensionsShareAPath(disk: Clusters, tail: seq<byte>, buf: seq<byte>) returns (w: R.World, a: Atlas, d: nat, e: nat)
    requires |tail| == CLUSTER_SIZE - BLOCK_SIZE && |buf| >= CLUSTER_SIZE
    ensures Reached(w) && SharedPath(w.s, a, d, e)
  {
    var r, q := FolderCalled(NAME_A, EXT_X), FolderCalled(NAME_A, EXT_Y);
    NameAIsPlain();
    assert EXT_X[0] != EXT_Y[0];
    w, a := TwoEntries(disk, tail, buf, r, q);
    d, e := RootTable(w)[2].cluster, RootTable(w)[3].cluster;
    TwinsShareAPath(w.s, a, r, q);
  }
}
