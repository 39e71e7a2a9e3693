/** The shell's current directory: its cluster, a copy of its table and its path, changed in place
    by cd and put back by cancel_change_path. */
module Shell {
  import opened Layout
  import opened Disk
  import opened FatState
  import opened FatDriver
  import opened ShellPaths
  import opened ShellWalk

  /** The parents a walk asks about are directories, and lookups stay on the map. */
  lemma AskedIsReady(s: Fs, a: Atlas, c: nat, row: Buffer)
    requires Mapped(s, a) && Known(a, c)
    ensures ReadDirectoryReady(s, Asked(row, c))
  {
    forall i | 2 <= i < SLOTS && TableOf(s.disk[c])[i].Folder()
      ensures TableOf(s.disk[c])[i].cluster < MAP_SIZE
    {
      assert EntryFits(s, a, c, i);
    }
  }

  /** The table read_directory hands back is the one of the cluster its header names. */
  lemma EnteredIsTable(s: Fs, a: Atlas, c: nat, row: Buffer)
    requires Mapped(s, a) && Known(a, c) && ReadDirectoryCode(s, Asked(row, c)) == 0
    ensures Entered(s, Asked(row, c)).cluster < MAP_SIZE
    ensures Pointed(s, Parent(s, Asked(row, c)), FindName(Parent(s, Asked(row, c)), row[..8], 2))
         == s.disk[Entered(s, Asked(row, c)).cluster]
  {
    EnteredIsChild(s, a, c, row);
  }

  /** Where cd begins: at the root for an absolute path. */
  function Start(c: nat, p: Text, t: Text): (nat, Text) { if Absolute(t) then (ROOT_CLUSTER, [SLASH]) else (c, p) }

  /** The components cd follows: as many as parse_path reports. */
  function Followed(t: Text): (rows: seq<Buffer>)
    requires |t| < LINE
  {
    ComponentsAreFew(Core(t));
    var cs := Components(Core(t));
    seq(Reported(t), k requires 0 <= k < Reported(t) => Padded(cs[k]))
  }

  /** Where cd leads. */
  function Target(s: Fs, c: nat, p: Text, t: Text): Outcome
    requires |t| < LINE
  {
    var (d, q) := Start(c, p, t);
    Walk(s, d, q, Followed(t))
  }

  lemma RowsAreComponents(t: Text, rows: seq<Buffer>)
    requires |t| < LINE && |rows| == LINE && RowsHold(rows, Components(Core(t)))
    ensures Reported(t) <= LINE && rows[..Reported(t)] == Followed(t)
  {
    ComponentsAreFew(Core(t));
  }

  class Session {
    const driver: Driver
    const path: array<byte>
    const table: array<byte>
    const temp: array<byte>
    var current: nat

    ghost predicate Valid() {
      && driver.Valid()
      && path.Length == LINE && table.Length == temp.Length == CLUSTER_SIZE
      && path != table && path != temp && table != temp
      && Apart(path) && Apart(table) && Apart(temp)
    }

    /** Memory that is neither the driver's nor the disk's. */
    ghost predicate Apart(memory: array<byte>) {
      memory != driver.device.image && memory as object != driver.words as object
    }

    /** In directory c of disk s, with its table in `table` and p in `path`. */
    ghost predicate In(s: Fs, c: nat, p: Text)
      reads this, path, table, driver.words, driver.device.image
    {
      && Valid() && driver.State() == s
      && current == c < MAP_SIZE && |p| < LINE && table[..] == s.disk[c] && path[..] == Padded(p)
    }

    /** main's first steps: the root, called by a slash. */
    constructor (driver: Driver, ghost s: Fs)
      requires driver.Valid() && driver.State() == s
      ensures In(s, ROOT_CLUSTER, [SLASH]) && this.driver == driver && fresh(path) && fresh(table) && fresh(temp)
    {
      this.driver := driver;
      path := new byte[LINE](i => if i == 0 then SLASH else 0);
      table := new byte[CLUSTER_SIZE](_ => 0);
      temp := new byte[CLUSTER_SIZE](_ => 0);
      current := ROOT_CLUSTER;
      new;
      driver.device.ReadCluster(table, 0, ROOT_CLUSTER);
      assert path[..] == Padded([SLASH]);
    }

    /** update_directory_table. */
    method UpdateDirectoryTable(memory: array<byte>, cluster: nat, ghost s: Fs)
      requires Valid() && driver.State() == s && cluster < DISK_CLUSTERS
      requires memory.Length == CLUSTER_SIZE && Apart(memory)
      modifies memory
      ensures memory[..] == s.disk[cluster] && driver.State() == s
    {
      driver.device.ReadCluster(memory, 0, cluster);
    }

    /** change_directory: enter a directory by the first eight bytes of a component. */
    method ChangeDirectory(row: Buffer, parent: nat, ghost s: Fs, ghost a: Atlas, ghost p: Text) returns (code: int, cluster: nat)
      requires Valid() && driver.State() == s && Mapped(s, a) && Stands(a, parent, p)
      requires |p| < LINE && path[..] == Padded(p) && !Enter(s, parent, p, row).Overflow?
      modifies temp, path
      ensures driver.State() == s
      ensures code != 0 ==> Enter(s, parent, p, row) == Err(code) && temp[..] == old(temp[..]) && path[..] == old(path[..])
      ensures code == 0 ==> var o := Enter(s, parent, p, row);
        o.At? && cluster == o.cluster < MAP_SIZE && |o.text| < LINE && temp[..] == s.disk[cluster] && path[..] == Padded(o.text)
    {
      AskedIsReady(s, a, parent, row);
      code := driver.ReadDirectory(Asked(row, parent), temp);
      cluster := parent;
      if code != 0 {
        return;
      }
      EnteredIsTable(s, a, parent, row);
      assert temp[..] == Pointed(s, Parent(s, Asked(row, parent)), FindName(Parent(s, Asked(row, parent)), row[..8], 2));
      var own := TableOf(temp[..])[0];
      cluster := own.cluster;
      AppendCurrentPath(path, TextOf(own.name), p);
    }

    /** The branch of change_path for "..", below the root. */
    method StepUp(parent: nat, ghost s: Fs, ghost a: Atlas, ghost p: Text) returns (up: nat)
      requires Valid() && driver.State() == s && Mapped(s, a) && Stands(a, parent, p) && |p| < LINE && p != [SLASH]
      requires temp[..] == s.disk[parent] && path[..] == Padded(p)
      modifies temp, path
      ensures driver.State() == s && GoUp(s, parent, p) == At(up, Retracted(p)) && up < MAP_SIZE
      ensures temp[..] == s.disk[up] && path[..] == Padded(Retracted(p))
    {
      OnlyRootIsSlash(a, parent);
      UpStands(s, a, parent, p);
      up := TableOf(temp[..])[1].cluster;
      UpdateDirectoryTable(temp, up, s);
      RetractCurrentPath(path, p);
    }

    /** Outcome o is what `code`, the scratch table and the path show. */
    ghost predicate Arrived(s: Fs, a: Atlas, o: Outcome, code: int, c: nat, p: Text)
      requires Charted(a)
      reads temp, path
    {
      if code != 0 then o == Err(code)
      else o == At(c, p) && Stands(a, c, p) && c < MAP_SIZE && |p| < LINE && temp[..] == s.disk[c] && path[..] == Padded(p)
    }

    /** One round of change_path's loop. */
    method TakeComponent(row: Buffer, parent: nat, ghost s: Fs, ghost a: Atlas, ghost p: Text)
      returns (code: int, next: nat, ghost q: Text)
      requires Valid() && driver.State() == s && Mapped(s, a) && Stands(a, parent, p) && |p| < LINE
      requires temp[..] == s.disk[parent] && path[..] == Padded(p)
      requires !Follow(s, parent, p, row).Stuck? && !Follow(s, parent, p, row).Overflow?
      modifies temp, path
      ensures driver.State() == s && Arrived(s, a, Follow(s, parent, p, row), code, next, q)
    {
      FollowStands(s, a, parent, p, row);
      PaddedHolds(p);
      code, next, q := 0, parent, p;
      if TextOf(row) == [DOT, DOT] {
        if TextOf(path[..]) == [SLASH] {
          assert false; // the C loop repeats this component for ever
        }
        next := StepUp(parent, s, a, p);
        q := Retracted(p);
      } else if TextOf(row) != [DOT] {
        code, next := ChangeDirectory(row, parent, s, a, p);
        if code == 0 {
          q := Enter(s, parent, p, row).text;
        }
      }
    }

    /** The same, on the way from directory c with path p. */
    method FollowNext(row: Buffer, parent: nat, ghost way: seq<Buffer>, ghost idx: nat, ghost s: Fs, ghost a: Atlas,
                      ghost c: nat, ghost p: Text, ghost q: Text) returns (code: int, next: nat, ghost r: Text)
      requires idx < |way| && row == way[idx] && Valid() && driver.State() == s && Mapped(s, a)
      requires Arrived(s, a, Walk(s, c, p, way[..idx]), 0, parent, q) && !Walk(s, c, p, way).Stuck? && !Walk(s, c, p, way).Overflow?
      modifies temp, path
      ensures driver.State() == s && Arrived(s, a, Progress(s, c, p, way, idx + 1, code), code, next, r)
    {
      WalkNext(s, c, p, way, idx);
      code, next, r := TakeComponent(row, parent, s, a, q);
    }

    /** change_path's loop, on the scratch table and the path. */
    method FollowRows(rows: array<Buffer>, n: nat, ghost way: seq<Buffer>, ghost s: Fs, ghost a: Atlas, ghost p: Text)
      returns (code: int, parent: nat, ghost q: Text)
      requires n <= rows.Length && way == rows[..n] && Mapped(s, a) && In(s, current, p) && Stands(a, current, p) && temp[..] == table[..]
      requires var o := Walk(s, current, p, way); !o.Stuck? && !o.Overflow?
      modifies temp, path
      ensures driver.State() == s && Arrived(s, a, Walk(s, current, p, way), code, parent, q)
    {
      var idx: nat := 0;
      code, parent, q := 0, current, p;
      while code == 0 && idx < n
        invariant idx <= n && driver.State() == s && rows[..n] == way
        invariant Arrived(s, a, Progress(s, current, p, way, idx, code), code, parent, q)
        decreases n - idx
      {
        assert rows[idx] == rows[..n][idx];
        code, parent, q := FollowNext(rows[idx], parent, way, idx, s, a, current, p, q);
        idx := idx + 1;
      }
      assert way[..n] == way;
    }

    /** A path saved before, back in its buffer. */
    method PutBack(line: seq<byte>)
      requires path.Length == LINE == |line|
      modifies path
      ensures path[..] == line
    {
      forall k | 0 <= k < LINE {
        path[k] := line[k];
      }
      assert path[..] == line;
    }

    /** change_path: along the first n rows, or nowhere at all. */
    method ChangePath(rows: array<Buffer>, n: nat, ghost s: Fs, ghost a: Atlas, ghost p: Text) returns (code: int)
      requires n <= rows.Length && Mapped(s, a) && In(s, current, p) && Stands(a, current, p)
      requires var o := Walk(s, current, p, rows[..n]); !o.Stuck? && !o.Overflow?
      modifies this`current, table, temp, path
      ensures var o := Walk(s, old(current), p, rows[..n]);
        if o.At? then code == 0 && In(s, o.cluster, o.text) && Stands(a, o.cluster, o.text)
        else code != 0 && o == Err(code) && In(s, old(current), p)
    {
      if n == 0 {
        return 0;
      }
      ghost var way := rows[..n];
      var saved := path[..];
      MemCopy(temp, 0, table, 0, CLUSTER_SIZE);
      assert temp[..] == table[..];
      var parent;
      ghost var q;
      code, parent, q := FollowRows(rows, n, way, s, a, p);
      if code == 0 {
        MemCopy(table, 0, temp, 0, CLUSTER_SIZE);
        assert table[..] == temp[..];
        current := parent;
      } else {
        PutBack(saved);
      }
      assert rows[..n] == way;
    }

    /** cancel_change_path: back to a directory and a path saved before. */
    method CancelChangePath(saved: nat, line: seq<byte>, ghost s: Fs)
      requires Valid() && driver.State() == s && saved < DISK_CLUSTERS && |line| == LINE
      modifies this`current, table, path
      ensures Valid() && driver.State() == s && current == saved && table[..] == s.disk[saved] && path[..] == line
    {
      current := saved;
      UpdateDirectoryTable(table, saved, s);
      PutBack(line);
    }

    /** The branch of parse_path for an absolute path. */
    method GoToRoot(ghost s: Fs)
      requires Valid() && driver.State() == s
      modifies this`current, table, path
      ensures In(s, ROOT_CLUSTER, [SLASH])
    {
      UpdateDirectoryTable(table, ROOT_CLUSTER, s);
      current := ROOT_CLUSTER;
      forall k | 0 <= k < LINE {
        path[k] := 0;
      }
      path[0] := SLASH;
      assert path[..] == Padded([SLASH]);
    }

    /** cd with one argument. An absolute path moves to the root before it is followed, and stays
        there if that fails. */
    method Cd(line: array<byte>, ghost t: Text, ghost s: Fs, ghost a: Atlas, ghost p: Text) returns (code: int)
      requires Mapped(s, a) && In(s, current, p) && Stands(a, current, p)
      requires line.Length == LINE && |t| < LINE && line[..] == Padded(t) && line != path && line != table && line != temp
      requires var o := Target(s, current, p, t); !o.Stuck? && !o.Overflow?
      modifies this`current, table, temp, path
      ensures var o := Target(s, old(current), p, t); var (c, q) := Start(old(current), p, t);
        if o.At? then code == 0 && In(s, o.cluster, o.text) && Stands(a, o.cluster, o.text)
        else code != 0 && o == Err(code) && In(s, c, q) && Stands(a, c, q)
    {
      PaddedHolds(t);
      ghost var q := p;
      if line[0] == SLASH || line[0] == BACKSLASH {
        GoToRoot(s);
        q := [SLASH];
      }
      var rows := new Buffer[LINE](_ => Zeros(LINE));
      var n := ParsePath(line, rows, t);
      RowsAreComponents(t, rows[..]);
      code := ChangePath(rows, n, s, a, q);
    }
  }

  lemma NoBlankNames(s: Fs, a: Atlas, c: nat, row: Buffer)
    requires Mapped(s, a) && Known(a, c) && ReadDirectoryCode(s, Asked(row, c)) == 0
    ensures row[0] != 0
  {
    EnteredIsChild(s, a, c, row);
    var own := Entered(s, Asked(row, c));
    assert Plain(a.title[own.cluster]) && own.name[0] == row[..8][0];
  }

  /** A single slash is refused: its one component is empty, and no directory has an empty name.
      The move to the root has happened by then. */
  lemma CdToRootIsRefused(s: Fs, a: Atlas, c: nat, q: Text)
    requires Mapped(s, a)
    ensures Start(c, q, [SLASH]) == (ROOT_CLUSTER, [SLASH]) && Target(s, c, q, [SLASH]) in {Err(1), Err(2)}
  {
    assert Core([SLASH]) == [] && Components([]) == [[]];
    var row := Zeros(LINE);
    assert Padded([]) == row && Followed([SLASH]) == [row];
    WalkOne(s, ROOT_CLUSTER, [SLASH], row);
    PaddedHolds([]);
    assert HeaderFits(s, a, ROOT_CLUSTER);
    if ReadDirectoryCode(s, Asked(row, ROOT_CLUSTER)) == 0 {
      NoBlankNames(s, a, ROOT_CLUSTER, row);
    }
  }

  /** Given the path of a directory, cd goes to that directory, from wherever it is called, if and
      only if it is not the root and every directory on the way is what a search for its name finds
      first. */
  lemma CdToItsPath(s: Fs, a: Atlas, d: nat, p: Text, c: nat, q: Text)
    requires Mapped(s, a) && Stands(a, d, p) && |p| < LINE
    ensures Target(s, c, q, p) == At(d, p) <==> d != ROOT_CLUSTER && AllFindable(s, a, d)
  {
    OnlyRootIsSlash(a, d);
    if d == ROOT_CLUSTER {
      CdToRootIsRefused(s, a, c, q);
    } else {
      PathLeadsHome(s, a, d, p, RowsOf(p));
      RowsAreComponents(p, RowsOf(p));
    }
  }

  /** cd with a single dot stays where it is. */
  lemma CdToDotStays(s: Fs, c: nat, p: Text)
    requires Place(c, p)
    ensures Target(s, c, p, [DOT]) == At(c, p)
  {
    var row := Padded([DOT]);
    ComponentsMore([], [DOT]);
    assert [] + [DOT] == [DOT] && Core([DOT]) == [DOT] && Components([DOT]) == [[DOT]];
    assert Followed([DOT]) == [row];
    PaddedHolds([DOT]);
    WalkOne(s, c, p, row);
    DotStays(s, c, p, row);
  }

  /** Of two paths the components of the first are followed, and then those of the second. */
  lemma FollowedBoth(t: Text, u: Text)
    requires t != [] && !Separator(t[|t| - 1]) && u != [] && !Separator(u[0])
    requires var v := t + [SLASH] + u; |v| < LINE && |Components(Core(v))| < 256
    ensures Followed(t + [SLASH] + u) == Followed(t) + Followed(u)
  {
    CoreOfBoth(t, u);
    ComponentsOfBoth(Core(t), SLASH, Core(u));
    assert |Components(Core(t))| < 256 && |Components(Core(u))| < 256;
  }

  /** cd along two paths joined by a slash is cd along the first and then along the second. */
  lemma CdInSteps(s: Fs, c: nat, p: Text, t: Text, u: Text)
    requires t != [] && !Separator(t[|t| - 1]) && u != [] && !Separator(u[0])
    requires var v := t + [SLASH] + u; |v| < LINE && |Components(Core(v))| < 256
    ensures var o := Target(s, c, p, t);
      Target(s, c, p, t + [SLASH] + u) == if o.At? then Target(s, o.cluster, o.text, u) else o
  {
    CoreOfBoth(t, u);
    FollowedBoth(t, u);
    var (d, q) := Start(c, p, t);
    WalkAppend(s, d, q, Followed(t), Followed(u));
  }

  /** A path of 256 components leads nowhere, without an error. */
  lemma LongPathStays(s: Fs, c: nat, p: Text)
    ensures var t := Alternating(LINE - 1); |t| < LINE && Target(s, c, p, t) == At(c, p)
  {
    CountWraps();
  }
}
