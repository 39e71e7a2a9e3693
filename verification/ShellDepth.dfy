/** Directories nested so deep that the path of the last one does not fit the path buffer: a run
    from a format makes them, and one cd more overruns the buffer. */
module ShellDepth {
  import opened Layout
  import opened Disk
  import opened FatState
  import opened FatInvariant
  import opened FatLink
  import opened FatRequests
  import opened FatExamples
  import R = FatRun
  import opened ShellPaths
  import opened ShellWalk
  import opened Shell
  import opened ShellRun
  import opened ShellExamples

  // ---- A nest of directories ----

  /** A name of eight characters. */
  function LongName(): Name { [97, 97, 97, 97, 97, 97, 97, 97] }

  function LongText(): Text { [97, 97, 97, 97, 97, 97, 97, 97] }

  lemma LongNameIsPlain()
    ensures TextOf(LongName()) == LongText() && Plain(LongText()) && Padded(LongText())[..8] == LongName()
  {
    LenIs(LongName(), 8);
  }

  /** A directory of that name inside directory c. */
  function Inner(c: nat): Request { Request(LongName(), NoExt(), c, 0) }

  /** The first entry of table t is a directory of that name in cluster c. */
  predicate LeadsTo(t: Table, c: nat) { t[2].Folder() && t[2].Live() && t[2].name == LongName() && t[2].cluster == c }

  predicate NoEntries(t: Table) { forall i :: 2 <= i < SLOTS ==> t[i] == Blank() }

  /** Directories 2 to n, each inside the one before, the last one empty. */
  predicate Nest(v: Volume, b: Book, n: nat) {
    && ROOT_CLUSTER <= n < MAP_SIZE && |b.owner| == |b.depth| == MAP_SIZE
    && (forall c :: ROOT_CLUSTER <= c <= n ==> Folder(b, c))
    && (forall c :: ROOT_CLUSTER <= c < n ==> LeadsTo(v.tabs[c], c + 1)) && NoEntries(v.tabs[n])
  }

  /** The first n + 1 words are used, the others are free. */
  predicate Filled(w: Words, n: nat) {
    (forall c :: 0 <= c <= n && c < MAP_SIZE ==> w[c] != EMPTY) && forall c :: n < c < MAP_SIZE ==> w[c] == EMPTY
  }

  /** A disk with a nest and nothing else. */
  predicate OnlyNest(w: R.World, n: nat) { R.Fine(w) && Nest(Vol(w.s), w.b, n) && Filled(w.s.words, n) }

  lemma FormatIsNest(disk: Clusters, tail: seq<byte>)
    requires |tail| == CLUSTER_SIZE - BLOCK_SIZE
    ensures OnlyNest(R.Formatted(disk, tail), ROOT_CLUSTER)
  {
    var s := Format(disk, tail);
    R.FormatIsSound(disk, tail);
    R.FormatAt(disk, tail);
    forall c | 0 <= c < MAP_SIZE
      ensures s.words[c] == R.FormatMap()[c]
    {
      assert s.words[c] == s.words[..MAP_SIZE][c];
    }
  }

  // ---- One directory more ----

  lemma EmptyTakesAny(t: Table)
    requires NoEntries(t)
    ensures FindSame(t, LongName(), NoExt(), ATTR_SUBDIRECTORY, 2) == SLOTS && FindUnused(t, 2) == 2
  {
    assert LongName()[0] != Zeros(8)[0];
    assert t[2] == Blank();
  }

  lemma NextIsFree(w: Words, n: nat)
    requires n + 1 < MAP_SIZE && Filled(w, n)
    ensures FirstFree(w, 0, MAP_SIZE) == n + 1
  {
    assert w[n + 1] == EMPTY;
  }

  lemma InnerCode(s: Fs, n: nat)
    requires n + 1 < MAP_SIZE && TableOf(s.disk[n])[0].Folder() && NoEntries(TableOf(s.disk[n])) && Filled(s.words, n)
    ensures WriteCode(s, Inner(n)) == 0 && FindUnused(Parent(s, Inner(n)), 2) == 2
    ensures FirstFree(s.words, 0, MAP_SIZE) == n + 1 && !OverAdmits(s, Inner(n))
  {
    EmptyTakesAny(TableOf(s.disk[n]));
    NextIsFree(s.words, n);
  }

  lemma InnerIsLegal(w: R.World, n: nat)
    requires OnlyNest(w, n) && n + 1 < MAP_SIZE
    ensures R.Legal(w, R.Write(Inner(n), [])) && WriteCode(w.s, Inner(n)) == 0
    ensures FindUnused(Parent(w.s, Inner(n)), 2) == 2 && FirstFree(w.s.words, 0, MAP_SIZE) == n + 1
  {
    VolAt(w.s, n);
    assert HeadOk(Vol(w.s), w.b, n);
    InnerCode(w.s, n);
  }

  /** The step that makes directory n + 1. */
  predicate Grows(m: Linkage, n: nat) {
    m.Valid() && n + 1 < MAP_SIZE && m.p == n && m.k == 2 && m.chain == [n + 1] && m.e.Folder() && m.e.name == LongName()
  }

  lemma LevelStays(m: Linkage, n: nat, c: nat)
    requires Grows(m, n) && ROOT_CLUSTER <= c <= n && Folder(m.b, c)
    ensures |m.After().owner| == |m.After().depth| == MAP_SIZE && Folder(m.After(), c)
    ensures if c < n then m.t.tabs[c] == m.v.tabs[c] else LeadsTo(m.t.tabs[c], n + 1)
  {
    OwnedIsOffChain(m, c);
  }

  lemma NewLevel(m: Linkage, n: nat)
    requires Grows(m, n)
    ensures |m.After().owner| == MAP_SIZE && Folder(m.After(), n + 1) && NoEntries(m.t.tabs[n + 1])
  {
    assert m.chain[0] == n + 1 && n + 1 in m.chain;
  }

  lemma NestGrows(m: Linkage, n: nat)
    requires Grows(m, n) && Nest(m.v, m.b, n)
    ensures Nest(m.t, m.After(), n + 1)
  {
    NewLevel(m, n);
    forall c | ROOT_CLUSTER <= c <= n
      ensures Folder(m.After(), c) && LeadsTo(m.t.tabs[c], c + 1)
    {
      LevelStays(m, n, c);
    }
  }

  lemma FillsOneMore(v: Words, w: Words, chain: seq<nat>, n: nat)
    requires Filled(v, n) && n + 1 < MAP_SIZE && chain == [n + 1] && w[n + 1] != EMPTY
    requires forall c :: 0 <= c < MAP_SIZE && c !in chain ==> w[c] == v[c]
    ensures Filled(w, n + 1)
  {
    forall c | 0 <= c < MAP_SIZE && c != n + 1
      ensures w[c] == v[c]
    {
      assert c !in chain;
    }
  }

  lemma InnerGrows(w: R.World, n: nat)
    requires OnlyNest(w, n) && n + 1 < MAP_SIZE && R.Legal(w, R.Write(Inner(n), [])) && WriteCode(w.s, Inner(n)) == 0
    requires FindUnused(Parent(w.s, Inner(n)), 2) == 2 && FirstFree(w.s.words, 0, MAP_SIZE) == n + 1
    ensures Grows(WriteStep(w.s, w.b, Inner(n), []), n)
  {
    WriteStepValid(w.s, w.b, Inner(n), []);
    ChainStartsAtFirstFree(w.s, Inner(n));
    WriteEntry(w.s, Inner(n));
  }

  lemma InnerStep(w: R.World, n: nat)
    requires OnlyNest(w, n) && n + 1 < MAP_SIZE && R.Legal(w, R.Write(Inner(n), []))
    ensures OnlyNest(R.Step(w, R.Write(Inner(n), [])), n + 1)
  {
    InnerIsLegal(w, n);
    InnerGrows(w, n);
    var m, t := WriteStep(w.s, w.b, Inner(n), []), R.Step(w, R.Write(Inner(n), []));
    NestGrows(m, n);
    assert m.t.words[m.chain[0]] == END_OF_FILE;
    FillsOneMore(m.v.words, m.t.words, m.chain, n);
    R.StepIsFine(w, R.Write(Inner(n), []));
    assert m.t == Vol(t.s) && m.After() == t.b && m.t.words == t.s.words;
  }

  // ---- The run ----

  /** The requests that make directories 3 to n. */
  function NestOps(n: nat): (ops: seq<R.Op>) {
    if n <= ROOT_CLUSTER then [] else NestOps(n - 1) + [R.Write(Inner(n - 1), [])]
  }

  lemma {:induction false} NestIsPolite(n: nat)
    ensures forall i :: 0 <= i < |NestOps(n)| ==> Polite(NestOps(n)[i])
  {
    LongNameIsPlain();
    if n > ROOT_CLUSTER {
      NestIsPolite(n - 1);
    }
  }

  lemma NextIsReached(w: R.World, ops: seq<R.Op>, n: nat)
    requires R.Fine(w) && R.LegalRun(w, ops) && OnlyNest(R.Run(w, ops), n) && n + 1 < MAP_SIZE
    ensures var more := ops + [R.Write(Inner(n), [])]; R.LegalRun(w, more) && OnlyNest(R.Run(w, more), n + 1)
  {
    InnerIsLegal(R.Run(w, ops), n);
    RunSnoc(w, ops, R.Write(Inner(n), []));
    InnerStep(R.Run(w, ops), n);
  }

  lemma {:induction false} NestIsReached(disk: Clusters, tail: seq<byte>, n: nat)
    requires |tail| == CLUSTER_SIZE - BLOCK_SIZE && ROOT_CLUSTER <= n < MAP_SIZE
    ensures R.Fine(R.Formatted(disk, tail)) && R.LegalRun(R.Formatted(disk, tail), NestOps(n))
    ensures OnlyNest(R.Run(R.Formatted(disk, tail), NestOps(n)), n)
  {
    if n == ROOT_CLUSTER {
      FormatIsNest(disk, tail);
    } else {
      NestIsReached(disk, tail, n - 1);
      NextIsReached(R.Formatted(disk, tail), NestOps(n - 1), n - 1);
    }
  }

  // ---- Its paths ----

  /** Directory c of the nest on the map of names. */
  lemma NestAt(s: Fs, b: Book, a: Atlas, n: nat, c: nat)
    requires Nest(Vol(s), b, n) && Mapped(s, a) && ROOT_CLUSTER <= c < n && Known(a, c)
    ensures Known(a, c + 1) && a.parent[c + 1] == c && a.title[c + 1] == LongText() && Below(a, c + 1)
    ensures TableOf(s.disk[c + 1])[0].name == LongName() && FindName(TableOf(s.disk[c]), LongName(), 2) == 2
    ensures LeadsTo(TableOf(s.disk[c]), c + 1) && Findable(s, a, c + 1)
  {
    VolAt(s, c);
    LongNameIsPlain();
    assert EntryFits(s, a, c, 2);
    assert HeaderFits(s, a, c + 1);
    assert Below(a, c + 1);
  }

  lemma {:induction false} NestPath(s: Fs, b: Book, a: Atlas, n: nat, c: nat)
    requires Nest(Vol(s), b, n) && Mapped(s, a) && ROOT_CLUSTER <= c <= n
    ensures Known(a, c) && AllFindable(s, a, c)
    ensures |RootPath(a, c)| == if c == ROOT_CLUSTER then 1 else 9 * (c - ROOT_CLUSTER)
  {
    if c > ROOT_CLUSTER {
      NestPath(s, b, a, n, c - 1);
      NestAt(s, b, a, n, c - 1);
    }
  }

  // ---- One cd too many ----

  lemma OneComponent(s: Fs, c: nat, p: Text)
    ensures Target(s, c, p, LongText()) == Follow(s, c, p, Padded(LongText()))
  {
    LongNameIsPlain();
    var t := LongText();
    ComponentsMore([], t);
    assert [] + t == t && Core(t) == t && Components(t) == [t];
    assert Followed(t) == [Padded(t)];
    WalkOne(s, c, p, Padded(t));
  }

  /** From the last but one directory of a nest of 57 the name of the last one overruns the path. */
  lemma NestOverruns(s: Fs, b: Book, a: Atlas, d: nat)
    requires Mapped(s, a) && d == ROOT_CLUSTER + DEEPEST && Nest(Vol(s), b, d + 1)
    ensures Known(a, d) && |RootPath(a, d)| < LINE && AllFindable(s, a, d)
    ensures Target(s, d, RootPath(a, d), LongText()).Overflow?
  {
    var row := Padded(LongText());
    NestPath(s, b, a, d + 1, d);
    NestPath(s, b, a, d + 1, d + 1);
    NestAt(s, b, a, d + 1, d);
    LongNameIsPlain();
    PaddedHolds(LongText());
    OneComponent(s, d, RootPath(a, d));
    assert HeaderFits(s, a, d);
    EnteredIsChild(s, a, d, row);
    OverflowWhen(s, a, d, RootPath(a, d), row);
  }

  /** The shell comes to directory d of the disk by its path p, and the name of one more directory
      overruns the buffer. */
  predicate Overruns(s: Fs, a: Atlas, d: nat, p: Text) {
    && Mapped(s, a) && Stands(a, d, p) && |p| < LINE
    && Target(s, ROOT_CLUSTER, [SLASH], p) == At(d, p) && Target(s, d, p, LongText()).Overflow?
  }

  /** A disk on which two calls of cd overrun the path buffer. */
  lemma DeepNestOverruns(disk: Clusters, tail: seq<byte>) returns (w: R.World, a: Atlas, d: nat, p: Text)
    requires |tail| == CLUSTER_SIZE - BLOCK_SIZE
    ensures Reached(w) && Overruns(w.s, a, d, p)
  {
    d := ROOT_CLUSTER + DEEPEST;
    var ops := NestOps(d + 1);
    NestIsReached(disk, tail, d + 1);
    NestIsPolite(d + 1);
    RunReaches(disk, tail, ops);
    w := R.Run(R.Formatted(disk, tail), ops);
    a := Survey(Vol(w.s), w.b);
    NestOverruns(w.s, w.b, a, d);
    p := RootPath(a, d);
    CdToItsPath(w.s, a, d, p, ROOT_CLUSTER, [SLASH]);
  }
}
