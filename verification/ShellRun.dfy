/** The shell's view of the file system while the file system changes. */
module ShellRun {
  import opened Layout
  import opened Disk
  import opened FatState
  import opened FatInvariant
  import opened FatLink
  import opened FatUnlink
  import opened FatRequests
  import opened FatRemoval
  import opened FatFiles
  import opened FatTheorems
  import R = FatRun
  import opened ShellPaths
  import opened ShellWalk

  // ---- Names stay plain ----

  /** Every directory in the map of files has a plain name. */
  ghost predicate PlainFolders(tree: imap<Key, Node>) {
    forall key: Key :: key in tree && key.folder ==> Plain(TextOf(key.name))
  }

  /** A request that creates no directory with an empty name or one with a separator in it. */
  predicate Polite(op: R.Op) { op.Write? && op.r.size == 0 ==> Plain(TextOf(op.r.name)) }

  lemma StepStaysPlain(w: R.World, op: R.Op)
    requires R.Fine(w) && R.Legal(w, op) && Polite(op) && PlainFolders(Tree(w.s, w.b))
    ensures PlainFolders(Tree(R.Step(w, op).s, R.Step(w, op).b))
  {
    R.StepChanges(w, op);
  }

  lemma {:induction false} RunStaysPlain(w: R.World, ops: seq<R.Op>)
    requires R.Fine(w) && R.LegalRun(w, ops) && (forall i :: 0 <= i < |ops| ==> Polite(ops[i]))
    requires PlainFolders(Tree(w.s, w.b))
    ensures PlainFolders(Tree(R.Run(w, ops).s, R.Run(w, ops).b))
    decreases |ops|
  {
    if ops != [] {
      R.StepIsFine(w, ops[0]);
      StepStaysPlain(w, ops[0]);
      RunStaysPlain(R.Step(w, ops[0]), ops[1..]);
    }
  }

  function NameExt(v: Volume, b: Book, c: nat): Ext
    requires c < MAP_SIZE && |b.owner| == MAP_SIZE && b.owner[c].Held?
  {
    var o := b.owner[c];
    if o.parent < MAP_SIZE && o.slot < SLOTS then v.tabs[o.parent][o.slot].ext else NoExt()
  }

  function FolderKey(v: Volume, b: Book, c: nat): Key
    requires c < MAP_SIZE && |b.owner| == MAP_SIZE && b.owner[c].Held?
  {
    Key(b.owner[c].parent, v.tabs[c][0].name, NameExt(v, b, c), true)
  }

  /** The name in a directory's header is the one it has in the map of files. */
  lemma HeaderIsKey(v: Volume, b: Book, c: nat)
    requires Sound(v, b) && c < MAP_SIZE && Folder(b, c) && c != ROOT_CLUSTER
    ensures b.owner[c].Held? && Holds(v, b, FolderKey(v, b, c), b.owner[c].slot)
  {
    FolderEntry(v, b, c);
    assert HeadOk(v, b, c);
  }

  /** The name a directory's header holds is the one the map of files leads to it by. */
  lemma HeaderNamesKey(s: Fs, b: Book, c: nat)
    requires Inv(s, b) && c < MAP_SIZE && Folder(b, c) && c != ROOT_CLUSTER
    ensures b.owner[c].Held? && FolderKey(Vol(s), b, c) in Tree(s, b) && Tree(s, b)[FolderKey(Vol(s), b, c)] == FolderNode(c)
    ensures FolderKey(Vol(s), b, c).dir == ParentOf(b, c) && FolderKey(Vol(s), b, c).name == TableOf(s.disk[c])[0].name
  {
    HeaderIsKey(Vol(s), b, c);
    TreeAt(s, b, FolderKey(Vol(s), b, c), b.owner[c].slot);
    FolderEntry(Vol(s), b, c);
    VolAt(s, c);
  }

  lemma HeaderIsPlain(s: Fs, b: Book, c: nat)
    requires Inv(s, b) && PlainFolders(Tree(s, b)) && c < MAP_SIZE && Folder(b, c) && c != ROOT_CLUSTER
    ensures Plain(LabelOf(Vol(s), c))
  {
    HeaderIsKey(Vol(s), b, c);
    var key := FolderKey(Vol(s), b, c);
    TreeAt(s, b, key, b.owner[c].slot);
    assert key in Tree(s, b) && key.folder;
  }

  lemma PlainIsMapped(w: R.World)
    requires R.Fine(w) && PlainFolders(Tree(w.s, w.b))
    ensures Mapped(w.s, Survey(Vol(w.s), w.b)) && Stands(Survey(Vol(w.s), w.b), ROOT_CLUSTER, [SLASH])
  {
    var a := Survey(Vol(w.s), w.b);
    SurveyIsCharted(Vol(w.s), w.b);
    forall c | 0 <= c < MAP_SIZE && a.folder[c] && c != ROOT_CLUSTER
      ensures Plain(a.title[c])
    {
      HeaderIsPlain(w.s, w.b, c);
    }
    SurveyIsMapped(w.s, w.b);
  }

  /** After any polite run from a format the disk has an atlas, and the shell can start at its root. */
  lemma AtlasAfterAnyRun(disk: Clusters, tail: seq<byte>, ops: seq<R.Op>)
    requires |tail| == CLUSTER_SIZE - BLOCK_SIZE && R.Fine(R.Formatted(disk, tail)) && R.LegalRun(R.Formatted(disk, tail), ops)
    requires forall i :: 0 <= i < |ops| ==> Polite(ops[i])
    ensures var w := R.Run(R.Formatted(disk, tail), ops);
      Inv(w.s, w.b) && Mapped(w.s, Survey(Vol(w.s), w.b)) && Stands(Survey(Vol(w.s), w.b), ROOT_CLUSTER, [SLASH])
  {
    R.FormatIsEmpty(disk, tail);
    R.RunIsFine(R.Formatted(disk, tail), ops);
    RunStaysPlain(R.Formatted(disk, tail), ops);
    PlainIsMapped(R.Run(R.Formatted(disk, tail), ops));
  }

  // ---- Paths stay the same ----

  /** Directory c is in the other atlas too, below the same parent and under the same name. */
  predicate Agrees(a: Atlas, other: Atlas, c: nat)
    requires Sized(a) && Sized(other) && c < MAP_SIZE
  {
    Known(other, c) && other.parent[c] == a.parent[c] && other.title[c] == a.title[c]
  }

  /** So is every directory of the first one. */
  predicate Inside(a: Atlas, other: Atlas)
    requires Sized(a) && Sized(other)
  {
    forall c {:trigger Agrees(a, other, c)} :: 0 <= c < MAP_SIZE && a.folder[c] ==> Agrees(a, other, c)
  }

  lemma {:induction false} PathSurvives(a: Atlas, other: Atlas, c: nat)
    requires Charted(a) && Charted(other) && Inside(a, other) && Known(a, c)
    ensures Known(other, c) && RootPath(other, c) == RootPath(a, c)
    decreases a.depth[c]
  {
    assert Agrees(a, other, c);
    if c != ROOT_CLUSTER {
      assert Below(a, c);
      PathSurvives(a, other, a.parent[c]);
    }
  }

  /** A directory keeps its place if its owner and its header stay. */
  lemma SurveysAgree(v: Volume, b: Book, u: Volume, d: Book, c: nat)
    requires |b.owner| == |b.depth| == |d.owner| == |d.depth| == MAP_SIZE && c < MAP_SIZE && Folder(b, c)
    requires d.owner[c] == b.owner[c] && u.tabs[c][0] == v.tabs[c][0]
    ensures Agrees(Survey(v, b), Survey(u, d), c)
  {
  }

  lemma LinkAgrees(m: Linkage, c: nat)
    requires m.Valid() && c < MAP_SIZE && Folder(m.b, c)
    ensures Agrees(Survey(m.v, m.b), Survey(m.t, m.After()), c)
  {
    LinkEntries(m, c, 0);
    SurveysAgree(m.v, m.b, m.t, m.After(), c);
  }

  /** A write moves and renames no directory that was there. */
  lemma LinkInside(m: Linkage)
    requires m.Valid()
    ensures Inside(Survey(m.v, m.b), Survey(m.t, m.After()))
  {
    forall c | 0 <= c < MAP_SIZE && Folder(m.b, c)
      ensures Agrees(Survey(m.v, m.b), Survey(m.t, m.After()), c)
    {
      LinkAgrees(m, c);
    }
  }

  lemma UnlinkAgrees(m: Unlinkage, c: nat)
    requires m.Valid() && c < MAP_SIZE && Folder(m.After(), c)
    ensures Agrees(Survey(m.t, m.After()), Survey(m.v, m.b), c)
  {
    UnlinkEntries(m, c, 0);
    SurveysAgree(m.t, m.After(), m.v, m.b, c);
  }

  /** A delete moves and renames no directory that it leaves. */
  lemma UnlinkInside(m: Unlinkage)
    requires m.Valid()
    ensures Inside(Survey(m.t, m.After()), Survey(m.v, m.b))
  {
    forall c | 0 <= c < MAP_SIZE && Folder(m.After(), c)
      ensures Agrees(Survey(m.t, m.After()), Survey(m.v, m.b), c)
    {
      UnlinkAgrees(m, c);
    }
  }

  lemma WriteInside(w: R.World, r: Request, buf: seq<byte>)
    requires R.Fine(w) && R.Legal(w, R.Write(r, buf)) && WriteCode(w.s, r) == 0
    ensures var t := R.Step(w, R.Write(r, buf));
      |t.b.owner| == |t.b.depth| == MAP_SIZE && Inside(Survey(Vol(w.s), w.b), Survey(Vol(t.s), t.b))
  {
    WriteStepValid(w.s, w.b, r, buf);
    LinkInside(WriteStep(w.s, w.b, r, buf));
  }

  lemma DeleteInside(w: R.World, r: Request)
    requires R.Fine(w) && R.Legal(w, R.Delete(r)) && DeleteCode(w.s, r) == 0
    ensures var t := R.Step(w, R.Delete(r));
      |t.b.owner| == |t.b.depth| == MAP_SIZE && Inside(Survey(Vol(t.s), t.b), Survey(Vol(w.s), w.b))
  {
    DeleteStep(w.s, w.b, r);
    UnlinkInside(UnlinkStep(w.s, w.b, r.parent, Target(w.s, r)));
  }

  /** One of the two atlases lies inside the other. */
  lemma StepInside(w: R.World, op: R.Op)
    requires R.Fine(w) && R.Legal(w, op)
    ensures var t := R.Step(w, op);
      && R.Fine(t)
      && (Inside(Survey(Vol(w.s), w.b), Survey(Vol(t.s), t.b)) || Inside(Survey(Vol(t.s), t.b), Survey(Vol(w.s), w.b)))
  {
    R.StepIsFine(w, op);
    match op
    case Write(r, buf) =>
      if WriteCode(w.s, r) == 0 {
        WriteInside(w, r, buf);
      }
    case Delete(r) =>
      if DeleteCode(w.s, r) == 0 {
        DeleteInside(w, r);
      }
    case Remount(tail) =>
      R.MountIsIdentity(w.s, w.b, tail);
  }

  lemma OneIsInside(a: Atlas, other: Atlas, c: nat)
    requires Charted(a) && Charted(other) && (Inside(a, other) || Inside(other, a)) && Known(a, c)
    ensures Known(other, c) ==> RootPath(other, c) == RootPath(a, c)
  {
    if Known(other, c) {
      if Inside(a, other) {
        PathSurvives(a, other, c);
      } else {
        PathSurvives(other, a, c);
      }
    }
  }

  /** A directory that is there before and after a request goes by the same path. */
  lemma StepKeepsPath(w: R.World, op: R.Op, c: nat, p: Text)
    requires R.Fine(w) && R.Legal(w, op) && Charted(Survey(Vol(w.s), w.b)) && Stands(Survey(Vol(w.s), w.b), c, p)
    ensures var t := R.Step(w, op);
      && R.Fine(t) && Charted(Survey(Vol(t.s), t.b))
      && (Known(Survey(Vol(t.s), t.b), c) ==> Stands(Survey(Vol(t.s), t.b), c, p))
  {
    StepInside(w, op);
    var t := R.Step(w, op);
    SurveyIsCharted(Vol(t.s), t.b);
    OneIsInside(Survey(Vol(w.s), w.b), Survey(Vol(t.s), t.b), c);
  }

  /** Directory c is there in every state of the run. */
  predicate Stays(w: R.World, ops: seq<R.Op>, c: nat)
    requires R.Fine(w) && R.LegalRun(w, ops)
    decreases |ops|
  {
    Folder(w.b, c) && (ops == [] || (R.StepIsFine(w, ops[0]); Stays(R.Step(w, ops[0]), ops[1..], c)))
  }

  /** A directory that is there in every state of a run goes by the same path at its end. */
  lemma {:induction false} RunKeepsPath(w: R.World, ops: seq<R.Op>, c: nat, p: Text)
    requires R.Fine(w) && R.LegalRun(w, ops) && Stays(w, ops, c)
    requires Charted(Survey(Vol(w.s), w.b)) && Stands(Survey(Vol(w.s), w.b), c, p)
    ensures var t := R.Run(w, ops); R.Fine(t) && Charted(Survey(Vol(t.s), t.b)) && Stands(Survey(Vol(t.s), t.b), c, p)
    decreases |ops|
  {
    if ops != [] {
      StepKeepsPath(w, ops[0], c, p);
      RunKeepsPath(R.Step(w, ops[0]), ops[1..], c, p);
    }
  }
}
