/** Where a path leads: the current directory's cluster and the text of the current path are kept
    naming one directory of the tree. */
module ShellWalk {
  import opened Layout
  import opened FatState
  import opened FatInvariant
  import opened FatRequests
  import opened ShellPaths

  // ---- The directories of a disk ----

  /** Which clusters are directories, what lies above each, how deep it is and what it is called. */
  datatype Atlas = Atlas(folder: seq<bool>, parent: seq<nat>, depth: seq<nat>, title: seq<Text>)

  predicate Known(a: Atlas, c: nat) { c < |a.folder| && a.folder[c] }

  predicate Sized(a: Atlas) { |a.folder| == |a.parent| == |a.depth| == |a.title| == MAP_SIZE }

  /** Directory c lies one level below another one. */
  predicate Below(a: Atlas, c: nat)
    requires Sized(a) && c < MAP_SIZE
  {
    Known(a, a.parent[c]) && a.depth[c] == a.depth[a.parent[c]] + 1
  }

  /** Every directory but the root does. */
  predicate Charted(a: Atlas) {
    && Sized(a) && a.folder[ROOT_CLUSTER] && a.depth[ROOT_CLUSTER] == 0
    && forall c {:trigger Below(a, c)} :: 0 <= c < MAP_SIZE && a.folder[c] && c != ROOT_CLUSTER ==> Below(a, c)
  }

  /** A name that is not empty and has no separator in it. */
  predicate Plain(t: Text) { t != [] && Whole(t) }

  /** Every directory below the root has one. */
  predicate PlainNames(a: Atlas)
    requires Sized(a)
  {
    forall c {:trigger Plain(a.title[c])} :: 0 <= c < MAP_SIZE && a.folder[c] && c != ROOT_CLUSTER ==> Plain(a.title[c])
  }

  /** The headers of directory c are as charted. */
  predicate HeaderFits(s: Fs, a: Atlas, c: nat)
    requires Charted(a) && c < MAP_SIZE
  {
    var own, up := TableOf(s.disk[c])[0], TableOf(s.disk[c])[1];
    && own.Folder() && own.cluster == c && TextOf(own.name) == a.title[c]
    && (c != ROOT_CLUSTER ==> up.cluster == a.parent[c])
  }

  /** A directory entry leads to a directory of that name right below. */
  predicate EntryFits(s: Fs, a: Atlas, c: nat, i: nat)
    requires Charted(a) && c < MAP_SIZE && i < SLOTS
  {
    var e := TableOf(s.disk[c])[i];
    && Known(a, e.cluster) && e.cluster != ROOT_CLUSTER && a.parent[e.cluster] == c
    && TableOf(s.disk[e.cluster])[0].name == e.name
  }

  /** The atlas is that of the disk. */
  predicate Mapped(s: Fs, a: Atlas) {
    && Charted(a) && PlainNames(a)
    && (forall c {:trigger HeaderFits(s, a, c)} :: 0 <= c < MAP_SIZE && a.folder[c] ==> HeaderFits(s, a, c))
    && forall c, i {:trigger EntryFits(s, a, c, i)} :: 0 <= c < MAP_SIZE && a.folder[c] && 2 <= i < SLOTS && TableOf(s.disk[c])[i].Folder() ==>
         EntryFits(s, a, c, i)
  }

  function LabelOf(v: Volume, c: nat): Text
    requires c < MAP_SIZE
  {
    TextOf(v.tabs[c][0].name)
  }

  /** The atlas of a volume with its book. */
  function Survey(v: Volume, b: Book): Atlas
    requires |b.owner| == |b.depth| == MAP_SIZE
  {
    Atlas(seq(MAP_SIZE, c requires 0 <= c < MAP_SIZE => Folder(b, c)),
          seq(MAP_SIZE, c requires 0 <= c < MAP_SIZE => ParentOf(b, c)),
          b.depth,
          seq(MAP_SIZE, c requires 0 <= c < MAP_SIZE => LabelOf(v, c)))
  }

  lemma SurveyIsCharted(v: Volume, b: Book)
    requires Sound(v, b)
    ensures Charted(Survey(v, b))
  {
    var a := Survey(v, b);
    forall c | 0 <= c < MAP_SIZE && a.folder[c] && c != ROOT_CLUSTER
      ensures Below(a, c)
    {
      FolderEntry(v, b, c);
    }
    assert HeadOk(v, b, ROOT_CLUSTER);
  }

  lemma EntryLeadsDown(s: Fs, b: Book, c: nat, i: nat)
    requires Sound(Vol(s), b) && c < MAP_SIZE && Folder(b, c) && 2 <= i < SLOTS && TableOf(s.disk[c])[i].Folder()
    ensures var e := TableOf(s.disk[c])[i];
      && e.cluster < MAP_SIZE && Folder(b, e.cluster) && e.cluster != ROOT_CLUSTER && ParentOf(b, e.cluster) == c
      && TableOf(s.disk[e.cluster])[0].name == e.name
  {
    VolAt(s, c);
    assert EntryOk(Vol(s), b, c, i);
    var d := TableOf(s.disk[c])[i].cluster;
    assert HeadOk(Vol(s), b, d);
    VolAt(s, d);
  }

  /** Every well-formed disk with plain names has an atlas. */
  lemma SurveyIsMapped(s: Fs, b: Book)
    requires Inv(s, b) && Charted(Survey(Vol(s), b)) && PlainNames(Survey(Vol(s), b))
    ensures Mapped(s, Survey(Vol(s), b))
  {
    var v, a := Vol(s), Survey(Vol(s), b);
    forall c | 0 <= c < MAP_SIZE && a.folder[c]
      ensures HeaderFits(s, a, c)
    {
      assert HeadOk(v, b, c);
      VolAt(s, c);
    }
    forall c, i | 0 <= c < MAP_SIZE && a.folder[c] && 2 <= i < SLOTS && TableOf(s.disk[c])[i].Folder()
      ensures EntryFits(s, a, c, i)
    {
      VolAt(s, c);
      EntryLeadsDown(s, b, c, i);
    }
  }

  // ---- Naming ----

  /** The names from the root down to c, each behind a slash; the root itself is one slash. */
  function RootPath(a: Atlas, c: nat): (p: Text)
    requires Charted(a) && Known(a, c)
    ensures p != [] && p[0] == SLASH
    decreases a.depth[c]
  {
    if c == ROOT_CLUSTER then [SLASH]
    else
      assert Below(a, c);
      Appended(RootPath(a, a.parent[c]), a.title[c])
  }

  /** Only the root is called by a single slash. */
  lemma OnlyRootIsSlash(a: Atlas, c: nat)
    requires Charted(a) && PlainNames(a) && Known(a, c)
    ensures |RootPath(a, c)| == 1 <==> c == ROOT_CLUSTER
  {
    if c != ROOT_CLUSTER {
      assert Plain(a.title[c]);
    }
  }

  /** Cutting the last name off names the parent. */
  lemma UpNamesParent(a: Atlas, c: nat)
    requires Charted(a) && PlainNames(a) && Known(a, c) && c != ROOT_CLUSTER
    ensures Known(a, a.parent[c]) && Retracted(RootPath(a, c)) == RootPath(a, a.parent[c])
  {
    assert Below(a, c) && Plain(a.title[c]);
    RetractUndoesAppend(RootPath(a, a.parent[c]), a.title[c]);
  }

  // ---- One component ----

  /** At a directory, refused with a code, climbing above the root for ever, past the end of the
      path buffer, or sent off the disk. */
  datatype Outcome = At(cluster: nat, text: Text) | Err(code: int) | Stuck | Overflow | Astray

  /** The request change_directory makes: the first eight bytes of the component, no extension. */
  function Asked(row: Buffer, c: nat): Request { Request(row[..8], NoExt(), c, CLUSTER_SIZE) }

  /** The header of the table read_directory hands back. */
  function Entered(s: Fs, r: Request): Item
    requires r.parent < DISK_CLUSTERS && ReadDirectoryCode(s, r) == 0
  {
    TableOf(Pointed(s, Parent(s, r), FindName(Parent(s, r), r.name, 2)))[0]
  }

  predicate IsUp(row: Buffer) { TextOf(row) == [DOT, DOT] }

  predicate IsHere(row: Buffer) { TextOf(row) == [DOT] }

  /** The name of a directory to enter. */
  predicate IsName(row: Buffer) { !IsUp(row) && !IsHere(row) }

  /** A place on the disk, and a path that begins at the root. */
  predicate Place(c: nat, p: Text) { c < DISK_CLUSTERS && p != [] && p[0] == SLASH }

  /** Entering a directory by name. */
  function Enter(s: Fs, c: nat, p: Text, row: Buffer): (o: Outcome)
    requires Place(c, p)
  {
    var r := Asked(row, c);
    if ReadDirectoryCode(s, r) != 0 then Err(ReadDirectoryCode(s, r))
    else
      var own := Entered(s, r);
      var q := Appended(p, TextOf(own.name));
      if |q| < LINE then At(own.cluster, q) else Overflow
  }

  function GoUp(s: Fs, c: nat, p: Text): (o: Outcome)
    requires Place(c, p)
  {
    if p == [SLASH] then Stuck else At(TableOf(s.disk[c])[1].cluster, Retracted(p))
  }

  /** What one component of a path does from cluster c with current path p. */
  function Follow(s: Fs, c: nat, p: Text, row: Buffer): (o: Outcome) {
    if !Place(c, p) then Astray
    else if IsUp(row) then GoUp(s, c, p)
    else if IsHere(row) then At(c, p)
    else Enter(s, c, p, row)
  }

  /** The shell is in directory c and calls it by its path. */
  predicate Stands(a: Atlas, c: nat, p: Text)
    requires Charted(a)
  {
    Known(a, c) && p == RootPath(a, c)
  }

  /** Where a directory found by name is. */
  lemma EnteredIsChild(s: Fs, a: Atlas, c: nat, row: Buffer)
    requires Mapped(s, a) && Known(a, c) && ReadDirectoryCode(s, Asked(row, c)) == 0
    ensures var own := Entered(s, Asked(row, c)); var d := own.cluster;
      && Known(a, d) && d != ROOT_CLUSTER && a.parent[d] == c && TextOf(own.name) == a.title[d] && own.name == row[..8]
      && d == TableOf(s.disk[c])[FindName(TableOf(s.disk[c]), row[..8], 2)].cluster
      && RootPath(a, d) == Appended(RootPath(a, c), a.title[d])
  {
    var i := FindName(TableOf(s.disk[c]), row[..8], 2);
    assert EntryFits(s, a, c, i);
    assert HeaderFits(s, a, TableOf(s.disk[c])[i].cluster) && Below(a, TableOf(s.disk[c])[i].cluster);
  }

  lemma UpStands(s: Fs, a: Atlas, c: nat, p: Text)
    requires Mapped(s, a) && Stands(a, c, p) && c != ROOT_CLUSTER
    ensures TableOf(s.disk[c])[1].cluster == a.parent[c] && Stands(a, a.parent[c], Retracted(p))
  {
    assert HeaderFits(s, a, c) && Below(a, c);
    UpNamesParent(a, c);
  }

  /** A component never breaks the agreement between the cluster and the path. */
  lemma FollowStands(s: Fs, a: Atlas, c: nat, p: Text, row: Buffer)
    requires Mapped(s, a) && Stands(a, c, p)
    ensures var o := Follow(s, c, p, row); !o.Astray? && (o.At? ==> Stands(a, o.cluster, o.text))
  {
    if IsUp(row) {
      OnlyRootIsSlash(a, c);
      if c != ROOT_CLUSTER {
        UpStands(s, a, c, p);
      }
    } else if !IsHere(row) && ReadDirectoryCode(s, Asked(row, c)) == 0 {
      EnteredIsChild(s, a, c, row);
    }
  }

  /** Climbing from the root is the one way to get stuck. */
  lemma StuckWhen(s: Fs, a: Atlas, c: nat, p: Text, row: Buffer)
    requires Charted(a) && PlainNames(a) && c < MAP_SIZE && Stands(a, c, p)
    ensures Follow(s, c, p, row).Stuck? <==> IsUp(row) && c == ROOT_CLUSTER
  {
    OnlyRootIsSlash(a, c);
  }

  // ---- A whole path ----

  /** Component after component, until one fails. */
  function Walk(s: Fs, c: nat, p: Text, rows: seq<Buffer>): (o: Outcome) {
    if rows == [] then At(c, p)
    else
      var o := Walk(s, c, p, rows[..|rows| - 1]);
      if o.At? then Follow(s, o.cluster, o.text, rows[|rows| - 1]) else o
  }

  lemma WalkMore(s: Fs, c: nat, p: Text, rows: seq<Buffer>, n: nat)
    requires n < |rows|
    ensures var o := Walk(s, c, p, rows[..n]);
      Walk(s, c, p, rows[..n + 1]) == if o.At? then Follow(s, o.cluster, o.text, rows[n]) else o
  {
    assert rows[..n + 1][..n] == rows[..n];
  }

  /** A failure is final. */
  lemma {:induction false} WalkStops(s: Fs, c: nat, p: Text, rows: seq<Buffer>, n: nat)
    requires n <= |rows| && !Walk(s, c, p, rows[..n]).At?
    ensures Walk(s, c, p, rows) == Walk(s, c, p, rows[..n])
    decreases |rows| - n
  {
    if n == |rows| {
      assert rows[..n] == rows;
    } else {
      WalkMore(s, c, p, rows, n);
      WalkStops(s, c, p, rows, n + 1);
    }
  }

  /** The next component either goes on or decides the whole walk. */
  lemma WalkNext(s: Fs, c: nat, p: Text, rows: seq<Buffer>, n: nat)
    requires n < |rows| && Walk(s, c, p, rows[..n]).At?
    ensures var o := Walk(s, c, p, rows[..n]); var f := Follow(s, o.cluster, o.text, rows[n]);
      if f.At? then Walk(s, c, p, rows[..n + 1]) == f else Walk(s, c, p, rows) == f
  {
    WalkMore(s, c, p, rows, n);
    if !Walk(s, c, p, rows[..n + 1]).At? {
      WalkStops(s, c, p, rows, n + 1);
    }
  }

  /** Where the loop is after n components, when the last of them left the code. */
  function Progress(s: Fs, c: nat, p: Text, rows: seq<Buffer>, n: nat, code: int): Outcome
    requires n <= |rows|
  {
    if code == 0 then Walk(s, c, p, rows[..n]) else Walk(s, c, p, rows)
  }

  /** Wherever a walk ends, the path names the directory it ends in. */
  lemma {:induction false} WalkStands(s: Fs, a: Atlas, c: nat, p: Text, rows: seq<Buffer>)
    requires Mapped(s, a) && Stands(a, c, p)
    ensures var o := Walk(s, c, p, rows); !o.Astray? && (o.At? ==> Stands(a, o.cluster, o.text))
  {
    if rows != [] {
      WalkStands(s, a, c, p, rows[..|rows| - 1]);
      var o := Walk(s, c, p, rows[..|rows| - 1]);
      if o.At? {
        FollowStands(s, a, o.cluster, o.text, rows[|rows| - 1]);
      }
    }
  }

  /** The walk comes to the root and its next component climbs. */
  predicate ClimbsOut(s: Fs, c: nat, p: Text, rows: seq<Buffer>, n: nat) {
    n < |rows| && IsUp(rows[n]) && var o := Walk(s, c, p, rows[..n]); o.At? && o.cluster == ROOT_CLUSTER
  }

  lemma ClimbingSticks(s: Fs, a: Atlas, c: nat, p: Text, rows: seq<Buffer>, n: nat)
    requires Mapped(s, a) && Stands(a, c, p) && ClimbsOut(s, c, p, rows, n)
    ensures Walk(s, c, p, rows).Stuck?
  {
    var o := Walk(s, c, p, rows[..n]);
    WalkStands(s, a, c, p, rows[..n]);
    StuckWhen(s, a, o.cluster, o.text, rows[n]);
    WalkNext(s, c, p, rows, n);
  }

  /** A path repeats for ever if and only if it climbs from the root somewhere. */
  lemma {:induction false} WalkStuckWhen(s: Fs, a: Atlas, c: nat, p: Text, rows: seq<Buffer>)
    requires Mapped(s, a) && Stands(a, c, p)
    ensures Walk(s, c, p, rows).Stuck? <==> exists n :: ClimbsOut(s, c, p, rows, n)
    decreases |rows|
  {
    if n: nat :| ClimbsOut(s, c, p, rows, n) {
      ClimbingSticks(s, a, c, p, rows, n);
    } else if rows != [] {
      var m := |rows| - 1;
      var init, o := rows[..m], Walk(s, c, p, rows[..m]);
      if o.Stuck? {
        WalkStuckWhen(s, a, c, p, init);
        var n: nat :| ClimbsOut(s, c, p, init, n);
        assert init[..n] == rows[..n];
        assert ClimbsOut(s, c, p, rows, n);
      } else if o.At? {
        WalkStands(s, a, c, p, init);
        StuckWhen(s, a, o.cluster, o.text, rows[m]);
        assert !ClimbsOut(s, c, p, rows, m);
      }
    }
  }

  // ---- Dots ----

  /** The components that are not a single dot. */
  function WithoutDots(rows: seq<Buffer>): seq<Buffer> {
    if rows == [] then []
    else WithoutDots(rows[..|rows| - 1]) + if IsHere(rows[|rows| - 1]) then [] else [rows[|rows| - 1]]
  }

  lemma DotStays(s: Fs, c: nat, p: Text, row: Buffer)
    requires Place(c, p) && IsHere(row)
    ensures Follow(s, c, p, row) == At(c, p)
  {
  }

  /** A component put at the end of a path. */
  lemma WalkSnoc(s: Fs, c: nat, p: Text, rows: seq<Buffer>, row: Buffer)
    ensures var o := Walk(s, c, p, rows); Walk(s, c, p, rows + [row]) == if o.At? then Follow(s, o.cluster, o.text, row) else o
  {
    assert (rows + [row])[..|rows|] == rows;
  }

  /** Single dots make no difference to where a path leads. */
  lemma {:induction false} DotsDoNotMatter(s: Fs, a: Atlas, c: nat, p: Text, rows: seq<Buffer>)
    requires Mapped(s, a) && Stands(a, c, p)
    ensures Walk(s, c, p, rows) == Walk(s, c, p, WithoutDots(rows))
    decreases |rows|
  {
    if rows != [] {
      var init, row := rows[..|rows| - 1], rows[|rows| - 1];
      var o := Walk(s, c, p, init);
      DotsDoNotMatter(s, a, c, p, init);
      WalkStands(s, a, c, p, init);
      if IsHere(row) {
        assert WithoutDots(rows) == WithoutDots(init);
        if o.At? {
          DotStays(s, o.cluster, o.text, row);
        }
      } else {
        WalkSnoc(s, c, p, WithoutDots(init), row);
      }
    }
  }

  // ---- Names ----

  /** Where an entry leads. */
  function Called(a: Atlas, e: Item): Outcome
    requires Charted(a)
  {
    if !e.Folder() then Err(1)
    else if !Known(a, e.cluster) then Astray
    else if |RootPath(a, e.cluster)| < LINE then At(e.cluster, RootPath(a, e.cluster))
    else Overflow
  }

  /** A name goes by its first eight bytes: error 2 if nothing is called so. */
  lemma UnknownName(s: Fs, a: Atlas, c: nat, p: Text, row: Buffer)
    requires Mapped(s, a) && Stands(a, c, p) && IsName(row) && NoneNamed(TableOf(s.disk[c]), row[..8])
    ensures Follow(s, c, p, row) == Err(2)
  {
    assert HeaderFits(s, a, c);
    FindsFirstNamed(TableOf(s.disk[c]), row[..8]);
  }

  /** Otherwise the first entry called so decides: error 1 if it is a file; a directory is entered, and
      the path becomes its path if it fits. */
  lemma NameAnswers(s: Fs, a: Atlas, c: nat, p: Text, row: Buffer, i: nat)
    requires Mapped(s, a) && Stands(a, c, p) && IsName(row) && FirstNamed(TableOf(s.disk[c]), i, row[..8])
    ensures Follow(s, c, p, row) == Called(a, TableOf(s.disk[c])[i])
  {
    assert HeaderFits(s, a, c);
    FindsFirstNamed(TableOf(s.disk[c]), row[..8]);
    if TableOf(s.disk[c])[i].Folder() {
      EnteredIsChild(s, a, c, row);
    }
  }

  // ---- How deep and how long ----

  /** A component leads at most one level down, and then to a child entered by its name. */
  lemma FollowDeepens(s: Fs, a: Atlas, c: nat, p: Text, row: Buffer)
    requires Mapped(s, a) && Stands(a, c, p) && Follow(s, c, p, row).At?
    ensures var d := Follow(s, c, p, row).cluster;
      && Known(a, d) && a.depth[d] <= a.depth[c] + 1
      && (a.depth[d] == a.depth[c] + 1 ==>
            && IsName(row) && d != ROOT_CLUSTER && a.parent[d] == c
            && ReadDirectoryCode(s, Asked(row, c)) == 0 && Entered(s, Asked(row, c)).cluster == d)
  {
    if IsUp(row) {
      OnlyRootIsSlash(a, c);
      UpStands(s, a, c, p);
      assert Below(a, c);
    } else if !IsHere(row) {
      EnteredIsChild(s, a, c, row);
      assert Below(a, Entered(s, Asked(row, c)).cluster);
    }
  }

  lemma {:induction false} WalkDepth(s: Fs, a: Atlas, c: nat, p: Text, rows: seq<Buffer>)
    requires Mapped(s, a) && Stands(a, c, p) && Walk(s, c, p, rows).At?
    ensures var d := Walk(s, c, p, rows).cluster; Known(a, d) && a.depth[d] <= a.depth[c] + |rows|
  {
    if rows != [] {
      var init := rows[..|rows| - 1];
      var o := Walk(s, c, p, init);
      WalkDepth(s, a, c, p, init);
      WalkStands(s, a, c, p, init);
      FollowDeepens(s, a, o.cluster, o.text, rows[|rows| - 1]);
    }
  }

  /** No title is longer than the eight bytes of a name. */
  predicate ShortTitles(a: Atlas)
    requires Sized(a)
  {
    forall c {:trigger |a.title[c]|} :: 0 <= c < MAP_SIZE && a.folder[c] ==> |a.title[c]| <= 8
  }

  lemma TitlesAreShort(s: Fs, a: Atlas)
    requires Mapped(s, a)
    ensures ShortTitles(a)
  {
    forall c | 0 <= c < MAP_SIZE && a.folder[c]
      ensures |a.title[c]| <= 8
    {
      assert HeaderFits(s, a, c);
    }
  }

  /** A path has at most nine characters for each level. */
  lemma {:induction false} PathLength(a: Atlas, c: nat)
    requires Charted(a) && ShortTitles(a) && Known(a, c)
    ensures |RootPath(a, c)| <= if c == ROOT_CLUSTER then 1 else 9 * a.depth[c]
    decreases a.depth[c]
  {
    if c != ROOT_CLUSTER {
      assert Below(a, c) && |a.title[c]| <= 8;
      PathLength(a, a.parent[c]);
    }
  }

  /** The component names a directory whose path does not fit the path buffer with its end. */
  predicate Overlong(s: Fs, a: Atlas, c: nat, row: Buffer)
    requires Charted(a) && Known(a, c)
  {
    && IsName(row) && ReadDirectoryCode(s, Asked(row, c)) == 0
    && var d := Entered(s, Asked(row, c)).cluster; Known(a, d) && |RootPath(a, d)| >= LINE
  }

  /** Naming such a directory is the one way to overrun the buffer. */
  lemma OverflowWhen(s: Fs, a: Atlas, c: nat, p: Text, row: Buffer)
    requires Mapped(s, a) && Stands(a, c, p)
    ensures Follow(s, c, p, row).Overflow? <==> Overlong(s, a, c, row)
  {
    if IsName(row) && ReadDirectoryCode(s, Asked(row, c)) == 0 {
      EnteredIsChild(s, a, c, row);
    }
  }

  /** The walk comes to a directory and its next component names one whose path does not fit. */
  predicate RunsOver(s: Fs, a: Atlas, c: nat, p: Text, rows: seq<Buffer>, n: nat)
    requires Charted(a)
  {
    n < |rows| && var o := Walk(s, c, p, rows[..n]); o.At? && Known(a, o.cluster) && Overlong(s, a, o.cluster, rows[n])
  }

  lemma RunsOverStill(s: Fs, a: Atlas, c: nat, p: Text, rows: seq<Buffer>, m: nat, n: nat)
    requires Charted(a) && m <= |rows| && RunsOver(s, a, c, p, rows[..m], n)
    ensures RunsOver(s, a, c, p, rows, n)
  {
    assert rows[..m][..n] == rows[..n];
  }

  lemma RunningOver(s: Fs, a: Atlas, c: nat, p: Text, rows: seq<Buffer>, n: nat)
    requires Mapped(s, a) && Stands(a, c, p) && RunsOver(s, a, c, p, rows, n)
    ensures Walk(s, c, p, rows).Overflow?
  {
    var o := Walk(s, c, p, rows[..n]);
    WalkStands(s, a, c, p, rows[..n]);
    OverflowWhen(s, a, o.cluster, o.text, rows[n]);
    WalkNext(s, c, p, rows, n);
  }

  /** A path overruns the buffer if and only if it names a directory whose path does not fit somewhere. */
  lemma {:induction false} WalkOverflowsWhen(s: Fs, a: Atlas, c: nat, p: Text, rows: seq<Buffer>)
    requires Mapped(s, a) && Stands(a, c, p)
    ensures Walk(s, c, p, rows).Overflow? <==> exists n :: RunsOver(s, a, c, p, rows, n)
    decreases |rows|
  {
    if n: nat :| RunsOver(s, a, c, p, rows, n) {
      RunningOver(s, a, c, p, rows, n);
    } else if rows != [] {
      var m := |rows| - 1;
      var init, o := rows[..m], Walk(s, c, p, rows[..m]);
      if o.Overflow? {
        WalkOverflowsWhen(s, a, c, p, init);
        var n: nat :| RunsOver(s, a, c, p, init, n);
        RunsOverStill(s, a, c, p, rows, m, n);
      } else if o.At? {
        WalkStands(s, a, c, p, init);
        OverflowWhen(s, a, o.cluster, o.text, rows[m]);
        assert !RunsOver(s, a, c, p, rows, m);
      }
    }
  }

  const DEEPEST := 56

  /** A directory at most 56 levels down has a path that fits. */
  lemma ShallowFits(s: Fs, a: Atlas, c: nat, row: Buffer)
    requires Mapped(s, a) && Known(a, c) && a.depth[c] < DEEPEST
    ensures !Overlong(s, a, c, row)
  {
    if IsName(row) && ReadDirectoryCode(s, Asked(row, c)) == 0 {
      EnteredIsChild(s, a, c, row);
      var d := Entered(s, Asked(row, c)).cluster;
      assert Below(a, d);
      TitlesAreShort(s, a);
      PathLength(a, d);
    }
  }

  /** A path of which the depth at its start and the components together are at most 56 never
      overruns the path buffer. */
  lemma NeverOverflows(s: Fs, a: Atlas, c: nat, p: Text, rows: seq<Buffer>)
    requires Mapped(s, a) && Stands(a, c, p) && a.depth[c] + |rows| <= DEEPEST
    ensures !Walk(s, c, p, rows).Overflow?
  {
    WalkOverflowsWhen(s, a, c, p, rows);
    if n: nat :| RunsOver(s, a, c, p, rows, n) {
      var o := Walk(s, c, p, rows[..n]);
      WalkDepth(s, a, c, p, rows[..n]);
      ShallowFits(s, a, o.cluster, rows[n]);
    }
  }

  lemma {:induction false} WalkAppend(s: Fs, c: nat, p: Text, xs: seq<Buffer>, ys: seq<Buffer>)
    ensures var o := Walk(s, c, p, xs);
      Walk(s, c, p, xs + ys) == if o.At? then Walk(s, o.cluster, o.text, ys) else o
  {
    if ys == [] {
      assert xs + ys == xs;
    } else {
      var init := ys[..|ys| - 1];
      WalkAppend(s, c, p, xs, init);
      assert (xs + ys)[..|xs + ys| - 1] == xs + init;
    }
  }

  lemma WalkOne(s: Fs, c: nat, p: Text, row: Buffer)
    ensures Walk(s, c, p, [row]) == Follow(s, c, p, row)
  {
    assert [row][..0] == [];
  }

  // ---- Down and back ----

  /** Going up from where a name led is going back. */
  lemma UpFromChild(s: Fs, a: Atlas, c: nat, p: Text, row: Buffer, up: Buffer)
    requires Mapped(s, a) && Stands(a, c, p) && IsName(row) && IsUp(up) && Follow(s, c, p, row).At?
    ensures var o := Follow(s, c, p, row); Follow(s, o.cluster, o.text, up) == At(c, p)
  {
    EnteredIsChild(s, a, c, row);
    var d := Follow(s, c, p, row).cluster;
    assert HeaderFits(s, a, d);
    OnlyRootIsSlash(a, d);
    UpNamesParent(a, d);
  }

  predicate AllNames(rows: seq<Buffer>) { forall k :: 0 <= k < |rows| ==> IsName(rows[k]) }

  predicate AllUps(rows: seq<Buffer>) { forall k :: 0 <= k < |rows| ==> IsUp(rows[k]) }

  /** The first step down, the last step up, and the way between them. */
  lemma Around(downs: seq<Buffer>, ups: seq<Buffer>)
    requires |downs| == |ups| > 0 && AllNames(downs) && AllUps(ups)
    ensures IsName(downs[0]) && AllNames(downs[1..]) && AllUps(ups[..|ups| - 1]) && IsUp(ups[|ups| - 1])
    ensures downs == [downs[0]] + downs[1..]
    ensures downs + ups == ([downs[0]] + (downs[1..] + ups[..|ups| - 1])) + [ups[|ups| - 1]]
  {
    assert ups == ups[..|ups| - 1] + [ups[|ups| - 1]];
  }

  /** A walk that comes back, with one step down before it and one up behind it. */
  lemma WalkAround(s: Fs, c: nat, p: Text, row: Buffer, way: seq<Buffer>, up: Buffer)
    requires Follow(s, c, p, row).At?
    requires var o := Follow(s, c, p, row); Walk(s, o.cluster, o.text, way) == o && Follow(s, o.cluster, o.text, up) == At(c, p)
    ensures Walk(s, c, p, [row] + way + [up]) == At(c, p)
  {
    var o := Follow(s, c, p, row);
    WalkOne(s, c, p, row);
    WalkAppend(s, c, p, [row], way);
    WalkAppend(s, c, p, [row] + way, [up]);
    WalkOne(s, o.cluster, o.text, up);
  }

  /** Entering any number of directories by name and going up as often leads back to the same
      cluster and the same path. */
  lemma {:induction false} DownAndBack(s: Fs, a: Atlas, c: nat, p: Text, downs: seq<Buffer>, ups: seq<Buffer>)
    requires Mapped(s, a) && Stands(a, c, p) && |downs| == |ups| && AllNames(downs) && AllUps(ups)
    requires Walk(s, c, p, downs).At?
    ensures Walk(s, c, p, downs + ups) == At(c, p)
    decreases |downs|
  {
    if downs == [] {
      assert downs + ups == [];
    } else {
      var row, rest, init, up := downs[0], downs[1..], ups[..|ups| - 1], ups[|ups| - 1];
      var o := Follow(s, c, p, row);
      Around(downs, ups);
      WalkOne(s, c, p, row);
      WalkAppend(s, c, p, [row], rest);
      FollowStands(s, a, c, p, row);
      DownAndBack(s, a, o.cluster, o.text, rest, init);
      UpFromChild(s, a, c, p, row, up);
      WalkAround(s, c, p, row, rest + init, up);
    }
  }

  // ---- The current path, followed from the root ----

  /** The bytes behind a name's end are zero, the name is no dot or two, and a search for it in
      the parent finds this directory first. */
  predicate Findable(s: Fs, a: Atlas, d: nat)
    requires Charted(a) && Known(a, d) && d != ROOT_CLUSTER
  {
    assert Below(a, d);
    var own, t := TableOf(s.disk[d])[0], TableOf(s.disk[a.parent[d]]);
    var i := FindName(t, own.name, 2);
    && |a.title[d]| < LINE && Padded(a.title[d])[..8] == own.name
    && a.title[d] != [DOT] && a.title[d] != [DOT, DOT]
    && i < SLOTS && t[i].Folder() && t[i].cluster == d
  }

  /** So is every directory on the way up. */
  predicate AllFindable(s: Fs, a: Atlas, d: nat)
    requires Charted(a) && Known(a, d)
    decreases a.depth[d]
  {
    d == ROOT_CLUSTER || (Findable(s, a, d) && (assert Below(a, d); AllFindable(s, a, a.parent[d])))
  }

  /** The names on the way down to d. */
  function Labels(a: Atlas, d: nat): (ls: seq<Text>)
    requires Charted(a) && Known(a, d)
    ensures |ls| == a.depth[d]
    decreases a.depth[d]
  {
    if d == ROOT_CLUSTER then []
    else
      assert Below(a, d);
      Labels(a, a.parent[d]) + [a.title[d]]
  }

  /** A path with a name put behind it, without its first slash. */
  lemma AppendedTail(p: Text, w: Text)
    requires p != [] && p[0] == SLASH && Plain(w)
    ensures var q := Appended(p, w);
      Absolute(q) && Core(q) == q[1..] == if |p| == 1 then w else p[1..] + [SLASH] + w
  {
    var q := Appended(p, w);
    assert q[|q| - 1] == w[|w| - 1];
  }

  /** The names on the way down are the components of the path, and there are at most half as many as
      characters. */
  lemma {:induction false} LabelsAreComponents(a: Atlas, d: nat)
    requires Charted(a) && PlainNames(a) && Known(a, d) && d != ROOT_CLUSTER
    ensures var p := RootPath(a, d);
      Absolute(p) && Core(p) == p[1..] && Components(p[1..]) == Labels(a, d) && 2 * |Labels(a, d)| <= |p|
    decreases a.depth[d]
  {
    assert Below(a, d) && Plain(a.title[d]);
    var c, w := a.parent[d], a.title[d];
    var p := RootPath(a, c);
    AppendedTail(p, w);
    OnlyRootIsSlash(a, c);
    if c == ROOT_CLUSTER {
      assert [] + w == w && Labels(a, c) == [];
      ComponentsMore([], w);
    } else {
      LabelsAreComponents(a, c);
      ComponentsNext(p[1..], SLASH, w);
    }
  }

  /** A directory's name leads from its parent to it. */
  lemma FollowLabel(s: Fs, a: Atlas, d: nat, c: nat, row: Buffer)
    requires Mapped(s, a) && Known(a, d) && d != ROOT_CLUSTER && Findable(s, a, d) && Known(a, c) && c == a.parent[d]
    requires |RootPath(a, d)| < LINE && row == Padded(a.title[d])
    ensures Follow(s, c, RootPath(a, c), row) == At(d, RootPath(a, d))
  {
    PaddedHolds(a.title[d]);
    assert HeaderFits(s, a, c);
    assert ReadDirectoryCode(s, Asked(row, c)) == 0;
    EnteredIsChild(s, a, c, row);
  }

  /** Rows that begin with the names on the way down to d. */
  predicate RowsLead(a: Atlas, d: nat, rows: seq<Buffer>)
    requires Charted(a) && Known(a, d)
  {
    a.depth[d] <= |rows|
    && forall k :: 0 <= k < a.depth[d] ==> |Labels(a, d)[k]| < LINE && rows[k] == Padded(Labels(a, d)[k])
  }

  lemma RowsLeadUp(a: Atlas, d: nat, rows: seq<Buffer>)
    requires Charted(a) && Known(a, d) && d != ROOT_CLUSTER && RowsLead(a, d, rows)
    ensures Known(a, a.parent[d]) && RowsLead(a, a.parent[d], rows)
    ensures Below(a, d) && |a.title[d]| < LINE && a.depth[d] == a.depth[a.parent[d]] + 1 && rows[a.depth[a.parent[d]]] == Padded(a.title[d])
  {
    assert Below(a, d);
    var n := a.depth[a.parent[d]];
    assert rows[n] == Padded(Labels(a, d)[n]);
    forall k | 0 <= k < n
      ensures |Labels(a, a.parent[d])[k]| < LINE && rows[k] == Padded(Labels(a, a.parent[d])[k])
    {
      assert Labels(a, d)[k] == Labels(a, a.parent[d])[k];
    }
  }

  /** The step of the induction below, told without the disk. */
  lemma OneLevelUp(s: Fs, a: Atlas, d: nat, c: nat, rows: seq<Buffer>)
    requires Charted(a) && Known(a, d) && d != ROOT_CLUSTER && c == a.parent[d]
    requires AllFindable(s, a, d) && |RootPath(a, d)| < LINE && RowsLead(a, d, rows)
    ensures Known(a, c) && a.depth[d] == a.depth[c] + 1 <= |rows|
    ensures AllFindable(s, a, c) && |RootPath(a, c)| < LINE && RowsLead(a, c, rows)
    ensures Findable(s, a, d) && |a.title[d]| < LINE && rows[a.depth[c]] == Padded(a.title[d])
  {
    RowsLeadUp(a, d, rows);
  }

  lemma WalkOn(s: Fs, rows: seq<Buffer>, n: nat, c: nat, p: Text, o: Outcome)
    requires n < |rows| && Walk(s, ROOT_CLUSTER, [SLASH], rows[..n]) == At(c, p) && Follow(s, c, p, rows[n]) == o
    ensures Walk(s, ROOT_CLUSTER, [SLASH], rows[..n + 1]) == o
  {
    WalkMore(s, ROOT_CLUSTER, [SLASH], rows, n);
  }

  lemma OneLevelDown(s: Fs, a: Atlas, d: nat, c: nat, rows: seq<Buffer>)
    requires Mapped(s, a) && Known(a, d) && d != ROOT_CLUSTER && Known(a, c) && c == a.parent[d]
    requires Findable(s, a, d) && |RootPath(a, d)| < LINE && a.depth[d] == a.depth[c] + 1 <= |rows|
    requires rows[a.depth[c]] == Padded(a.title[d])
    requires Walk(s, ROOT_CLUSTER, [SLASH], rows[..a.depth[c]]) == At(c, RootPath(a, c))
    ensures Walk(s, ROOT_CLUSTER, [SLASH], rows[..a.depth[d]]) == At(d, RootPath(a, d))
  {
    FollowLabel(s, a, d, c, rows[a.depth[c]]);
    WalkOn(s, rows, a.depth[c], c, RootPath(a, c), At(d, RootPath(a, d)));
  }

  /** The rows lead to d. */
  predicate Leads(s: Fs, a: Atlas, d: nat, rows: seq<Buffer>)
    requires Charted(a) && Known(a, d)
  {
    a.depth[d] <= |rows| && Walk(s, ROOT_CLUSTER, [SLASH], rows[..a.depth[d]]) == At(d, RootPath(a, d))
  }

  lemma {:induction false} LabelsLeadDown(s: Fs, a: Atlas, d: nat, rows: seq<Buffer>)
    requires Mapped(s, a) && Known(a, d) && AllFindable(s, a, d) && |RootPath(a, d)| < LINE && RowsLead(a, d, rows)
    ensures Leads(s, a, d, rows)
    decreases a.depth[d]
  {
    if d != ROOT_CLUSTER {
      var c := a.parent[d];
      OneLevelUp(s, a, d, c, rows);
      LabelsLeadDown(s, a, c, rows);
      OneLevelDown(s, a, d, c, rows);
    }
  }

  /** The components of a path that fits are few enough for the eight bits parse_path counts them in. */
  lemma PathIsCounted(a: Atlas, d: nat, rows: seq<Buffer>)
    requires Charted(a) && PlainNames(a) && Known(a, d) && d != ROOT_CLUSTER && |RootPath(a, d)| < LINE
    requires |rows| == LINE && RowsHold(rows, Components(Core(RootPath(a, d))))
    ensures Absolute(RootPath(a, d)) && RowsLead(a, d, rows)
    ensures Reported(RootPath(a, d)) == |Components(Core(RootPath(a, d)))| == a.depth[d]
  {
    LabelsAreComponents(a, d);
    var n := a.depth[d];
    assert n < 256 && n % 256 == n;
  }

  /** A directory that its name led to is findable. */
  lemma FoundByName(s: Fs, a: Atlas, d: nat, c: nat, row: Buffer)
    requires Mapped(s, a) && Known(a, d) && d != ROOT_CLUSTER && Known(a, c) && c == a.parent[d] && IsName(row)
    requires |a.title[d]| < LINE && row == Padded(a.title[d])
    requires ReadDirectoryCode(s, Asked(row, c)) == 0 && Entered(s, Asked(row, c)).cluster == d
    ensures Findable(s, a, d)
  {
    PaddedHolds(a.title[d]);
    EnteredIsChild(s, a, c, row);
    assert HeaderFits(s, a, d);
    assert EntryFits(s, a, c, FindName(TableOf(s.disk[c]), row[..8], 2));
  }

  /** The last step of a walk that reaches d in as many steps as d is deep enters d from its parent. */
  lemma LastStepDown(s: Fs, a: Atlas, d: nat, c: nat, rows: seq<Buffer>)
    requires Mapped(s, a) && Known(a, d) && d != ROOT_CLUSTER && Known(a, c) && c == a.parent[d] && a.depth[d] == a.depth[c] + 1
    requires RowsLead(a, d, rows) && Leads(s, a, d, rows)
    ensures Leads(s, a, c, rows)
    ensures var row := rows[a.depth[c]];
      IsName(row) && ReadDirectoryCode(s, Asked(row, c)) == 0 && Entered(s, Asked(row, c)).cluster == d
  {
    var n := a.depth[c];
    var o := Walk(s, ROOT_CLUSTER, [SLASH], rows[..n]);
    WalkMore(s, ROOT_CLUSTER, [SLASH], rows, n);
    WalkStands(s, a, ROOT_CLUSTER, [SLASH], rows[..n]);
    WalkDepth(s, a, ROOT_CLUSTER, [SLASH], rows[..n]);
    FollowDeepens(s, a, o.cluster, o.text, rows[n]);
  }

  lemma {:induction false} LeadsOnlyIfFindable(s: Fs, a: Atlas, d: nat, rows: seq<Buffer>)
    requires Mapped(s, a) && Known(a, d) && RowsLead(a, d, rows) && Leads(s, a, d, rows)
    ensures AllFindable(s, a, d)
    decreases a.depth[d]
  {
    if d != ROOT_CLUSTER {
      var c := a.parent[d];
      RowsLeadUp(a, d, rows);
      LastStepDown(s, a, d, c, rows);
      FoundByName(s, a, d, c, rows[a.depth[c]]);
      LeadsOnlyIfFindable(s, a, c, rows);
    }
  }

  /** The current path, parsed and followed from the root, leads to the current directory and
      leaves the same path behind, if and only if every directory on the way is what a search for
      its name finds first; parse_path counts all its components. */
  lemma PathLeadsHome(s: Fs, a: Atlas, d: nat, p: Text, rows: seq<Buffer>)
    requires Mapped(s, a) && Stands(a, d, p) && d != ROOT_CLUSTER && |p| < LINE
    requires |rows| == LINE && RowsHold(rows, Components(Core(p)))
    ensures Absolute(p) && Reported(p) == |Components(Core(p))| <= |rows|
    ensures Walk(s, ROOT_CLUSTER, [SLASH], rows[..Reported(p)]) == At(d, p) <==> AllFindable(s, a, d)
  {
    PathIsCounted(a, d, rows);
    if AllFindable(s, a, d) {
      LabelsLeadDown(s, a, d, rows);
    } else if Leads(s, a, d, rows) {
      LeadsOnlyIfFindable(s, a, d, rows);
    }
  }

  // ---- One path, one directory ----

  /** Two directories in the same place under the same name are one. */
  predicate Siblings(a: Atlas, d: nat, e: nat)
    requires Sized(a)
  {
    && Known(a, d) && Known(a, e) && d != ROOT_CLUSTER && e != ROOT_CLUSTER
    && a.parent[d] == a.parent[e] && a.title[d] == a.title[e]
  }

  predicate SiblingsDiffer(a: Atlas)
    requires Sized(a)
  {
    forall d, e :: 0 <= d < MAP_SIZE && 0 <= e < MAP_SIZE && Siblings(a, d, e) ==> d == e
  }

  predicate SamePath(a: Atlas, d: nat, e: nat)
    requires Charted(a)
  {
    Known(a, d) && Known(a, e) && RootPath(a, d) == RootPath(a, e)
  }

  predicate PathsAreUnique(a: Atlas)
    requires Charted(a)
  {
    forall d, e :: 0 <= d < MAP_SIZE && 0 <= e < MAP_SIZE && SamePath(a, d, e) ==> d == e
  }

  lemma SameTail(p: Text, v: Text, w: Text)
    requires Appended(p, v) == Appended(p, w)
    ensures v == w
  {
    var n := |Opened(p)|;
    assert v == Appended(p, v)[n..] && w == Appended(p, w)[n..];
  }

  /** A search finds one directory of a name. */
  lemma FoundOnce(s: Fs, a: Atlas, d: nat, e: nat)
    requires Charted(a) && Siblings(a, d, e) && Findable(s, a, d) && Findable(s, a, e)
    ensures d == e
  {
  }

  /** Two directories that can be found by name do not share a path. */
  lemma {:induction false} PathsDiffer(s: Fs, a: Atlas, d: nat, e: nat)
    requires Charted(a) && PlainNames(a) && SamePath(a, d, e) && AllFindable(s, a, d) && AllFindable(s, a, e)
    ensures d == e
    decreases a.depth[d]
  {
    OnlyRootIsSlash(a, d);
    OnlyRootIsSlash(a, e);
    if d != ROOT_CLUSTER {
      assert Below(a, d) && Below(a, e);
      UpNamesParent(a, d);
      UpNamesParent(a, e);
      PathsDiffer(s, a, a.parent[d], a.parent[e]);
      SameTail(RootPath(a, a.parent[d]), a.title[d], a.title[e]);
      FoundOnce(s, a, d, e);
    }
  }

  lemma {:induction false} SamePathIsSame(a: Atlas, d: nat, e: nat)
    requires Charted(a) && PlainNames(a) && SiblingsDiffer(a) && SamePath(a, d, e)
    ensures d == e
    decreases a.depth[d]
  {
    OnlyRootIsSlash(a, d);
    OnlyRootIsSlash(a, e);
    if d != ROOT_CLUSTER {
      assert Below(a, d) && Below(a, e);
      UpNamesParent(a, d);
      UpNamesParent(a, e);
      SamePathIsSame(a, a.parent[d], a.parent[e]);
      SameTail(RootPath(a, a.parent[d]), a.title[d], a.title[e]);
      assert Siblings(a, d, e);
    }
  }

  lemma SiblingsShareAPath(a: Atlas, d: nat, e: nat)
    requires Charted(a) && Siblings(a, d, e)
    ensures SamePath(a, d, e)
  {
  }

  /** No two directories go by the same path if and only if no two in the same place have the same
      name. */
  lemma PathsDifferExactly(a: Atlas)
    requires Charted(a) && PlainNames(a)
    ensures PathsAreUnique(a) <==> SiblingsDiffer(a)
  {
    if SiblingsDiffer(a) {
      forall d, e | 0 <= d < MAP_SIZE && 0 <= e < MAP_SIZE && SamePath(a, d, e)
        ensures d == e
      {
        SamePathIsSame(a, d, e);
      }
    } else {
      var d, e :| 0 <= d < MAP_SIZE && 0 <= e < MAP_SIZE && Siblings(a, d, e) && d != e;
      SiblingsShareAPath(a, d, e);
    }
  }
}
