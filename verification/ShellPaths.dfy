/** The shell's path strings: the current path edited in place, and paths cut into components
    and printed back. Strings are bytes up to a zero. */
module ShellPaths {
  import opened Layout

  const LINE := 512
  const SLASH: mark := 47
  const BACKSLASH: mark := 92
  const DOT: mark := 46

  /** A character of a string: any byte but zero. */
  type mark = x: int | 0 < x < 256 witness 47
  type Text = seq<mark>

  type Buffer = b: seq<byte> | |b| == LINE witness Zeros(LINE)

  /** strlen, stopping at the end of s if there is no zero before it. */
  function Len(s: seq<byte>): (n: nat)
    ensures n <= |s| && (n < |s| ==> s[n] == 0) && forall i :: 0 <= i < n ==> s[i] != 0
  {
    if s == [] || s[0] == 0 then 0 else 1 + Len(s[1..])
  }

  function TextOf(s: seq<byte>): Text { s[..Len(s)] }

  /** A buffer holding t and zeros behind it. */
  function Padded(t: Text): (b: Buffer)
    requires |t| <= LINE
  {
    t + Zeros(LINE - |t|)
  }

  lemma LenIs(s: seq<byte>, n: nat)
    requires n <= |s| && (n < |s| ==> s[n] == 0) && forall i :: 0 <= i < n ==> s[i] != 0
    ensures Len(s) == n
  {
  }

  lemma PaddedHolds(t: Text)
    requires |t| <= LINE
    ensures Len(Padded(t)) == |t| && TextOf(Padded(t)) == t
  {
    LenIs(Padded(t), |t|);
  }

  predicate Separator(c: byte) { c == SLASH || c == BACKSLASH }

  /** No separator in it. */
  predicate Whole(t: Text) { forall i :: 0 <= i < |t| ==> !Separator(t[i]) }

  // ---- The current path, one directory down and one up ----

  /** p with a slash behind it, unless it is one character long. */
  function Opened(p: Text): Text { if |p| != 1 then p + [SLASH] else p }

  function Appended(p: Text, name: Text): Text { Opened(p) + name }

  /** Where the last slash of p is. */
  function LastSlash(p: Text): (j: nat)
    requires p != [] && p[0] == SLASH
    ensures j < |p| && p[j] == SLASH && forall i :: j < i < |p| ==> p[i] != SLASH
  {
    if p[|p| - 1] == SLASH then |p| - 1 else LastSlash(p[..|p| - 1])
  }

  function Retracted(p: Text): Text
    requires p != [] && p[0] == SLASH
  {
    if LastSlash(p) > 0 then p[..LastSlash(p)] else p[..1]
  }

  /** Going up undoes going down, whatever the path, as long as the name has no slash. */
  lemma RetractUndoesAppend(p: Text, name: Text)
    requires p != [] && p[0] == SLASH && Whole(name)
    ensures Appended(p, name)[0] == SLASH && Retracted(Appended(p, name)) == p
  {
    var q, j := Appended(p, name), if |p| != 1 then |p| else 0;
    assert q[j] == SLASH && q[j + 1..] == name;
    assert forall i :: j < i < |q| ==> q[i] == q[j + 1..][i - j - 1];
    assert LastSlash(q) == j;
  }

  /** q followed by the first i characters of name. */
  function Grown(q: Text, name: Text, i: nat): Text
    requires i <= |name|
  {
    q + name[..i]
  }

  lemma PadNext(q: Text, name: Text, i: nat)
    requires i < |name| && |q| + i < LINE
    ensures Padded(Grown(q, name, i))[|q| + i := name[i]] == Padded(Grown(q, name, i + 1))
  {
  }

  lemma PadOpened(p: Text)
    requires |Opened(p)| <= LINE && |p| < LINE
    ensures Padded(Opened(p)) == if |p| != 1 then Padded(p)[|p| := SLASH] else Padded(p)
  {
  }

  lemma PadCut(t: Text)
    requires 0 < |t| <= LINE
    ensures Padded(t)[|t| - 1 := 0] == Padded(t[..|t| - 1])
  {
  }

  /** The copying loop of append_current_path. */
  method AppendText(path: array<byte>, name: Text, ghost q: Text)
    requires path.Length == LINE && |q| + |name| < LINE && path[..] == Padded(q)
    modifies path
    ensures path[..] == Padded(Grown(q, name, |name|))
  {
    PaddedHolds(q);
    var n := Len(path[..]);
    assert q == Grown(q, name, 0);
    var i := 0;
    while i < |name|
      invariant i <= |name| && path[..] == Padded(Grown(q, name, i))
    {
      PadNext(q, name, i);
      path[i + n] := name[i];
      i := i + 1;
    }
  }

  /** append_current_path, on a path that leaves room for the longer one and its end. */
  method AppendCurrentPath(path: array<byte>, name: Text, ghost p: Text)
    requires path.Length == LINE && |Appended(p, name)| < LINE && path[..] == Padded(p)
    modifies path
    ensures path[..] == Padded(Appended(p, name))
  {
    PaddedHolds(p);
    PadOpened(p);
    if Len(path[..]) != 1 {
      path[Len(path[..])] := SLASH;
    }
    AppendText(path, name, Opened(p));
    assert Grown(Opened(p), name, |name|) == Appended(p, name);
  }

  /** retract_current_path. */
  method RetractCurrentPath(path: array<byte>, ghost p: Text)
    requires path.Length == LINE && |p| < LINE && path[..] == Padded(p) && p != [] && p[0] == SLASH
    modifies path
    ensures path[..] == Padded(Retracted(p))
  {
    PaddedHolds(p);
    var i := Len(path[..]) - 1;
    assert p[..i + 1] == p;
    while path[i] != SLASH
      invariant LastSlash(p) <= i < |p| && path[..] == Padded(p[..i + 1])
      decreases i
    {
      assert Padded(p[..i + 1])[i] == p[i];
      PadCut(p[..i + 1]);
      assert p[..i + 1][..i] == p[..i];
      path[i] := 0;
      i := i - 1;
    }
    assert path[..][i] == p[i];
    if i > 0 {
      PadCut(p[..i + 1]);
      assert p[..i + 1][..i] == p[..i];
      path[i] := 0;
    }
  }

  // ---- Components ----

  /** The parts of t between its separators. */
  function Components(t: Text): (cs: seq<Text>)
    ensures cs != [] && forall k :: 0 <= k < |cs| ==> Whole(cs[k])
  {
    if t == [] then [[]]
    else
      var cs, c := Components(t[..|t| - 1]), t[|t| - 1];
      if Separator(c) then cs + [[]] else cs[|cs| - 1 := cs[|cs| - 1] + [c]]
  }

  /** The components with slashes between them. */
  function Join(cs: seq<Text>): Text
    requires cs != []
  {
    if |cs| == 1 then cs[0] else Join(cs[..|cs| - 1]) + [SLASH] + cs[|cs| - 1]
  }

  function Slashed(t: Text): (r: Text)
    ensures |r| == |t| && forall i :: 0 <= i < |t| ==> r[i] == if Separator(t[i]) then SLASH else t[i]
  {
    seq(|t|, i requires 0 <= i < |t| => if Separator(t[i]) then SLASH else t[i])
  }

  lemma JoinMore(cs: seq<Text>, w: Text)
    requires cs != []
    ensures Join(cs + [w]) == Join(cs) + [SLASH] + w
    ensures Join(cs[|cs| - 1 := cs[|cs| - 1] + w]) == Join(cs) + w
  {
    assert (cs + [w])[..|cs|] == cs;
    var ds := cs[|cs| - 1 := cs[|cs| - 1] + w];
    assert ds[..|ds| - 1] == cs[..|cs| - 1];
    if |cs| > 1 {
      assert Join(ds) == Join(cs[..|cs| - 1]) + [SLASH] + (cs[|cs| - 1] + w);
    }
  }

  /** Joining what was cut apart gives the text back, with slashes for backslashes. */
  lemma {:induction false} JoinOfComponents(t: Text)
    ensures Join(Components(t)) == Slashed(t)
  {
    if t != [] {
      var u, c := t[..|t| - 1], t[|t| - 1];
      JoinOfComponents(u);
      JoinMore(Components(u), []);
      JoinMore(Components(u), [c]);
      assert Slashed(t) == Slashed(u) + [if Separator(c) then SLASH else c];
    }
  }

  /** Characters that are no separators go to the end of the last component. */
  lemma {:induction false} ComponentsMore(t: Text, w: Text)
    requires Whole(w)
    ensures var cs := Components(t); Components(t + w) == cs[|cs| - 1 := cs[|cs| - 1] + w]
  {
    var cs := Components(t);
    if w == [] {
      assert t + w == t && cs[|cs| - 1] + w == cs[|cs| - 1];
    } else {
      var v, c := w[..|w| - 1], w[|w| - 1];
      ComponentsMore(t, v);
      assert (t + w)[..|t + w| - 1] == t + v;
      assert cs[|cs| - 1] + v + [c] == cs[|cs| - 1] + w;
    }
  }

  /** A separator starts the next one. */
  lemma ComponentsNext(t: Text, c: mark, w: Text)
    requires Whole(w) && Separator(c)
    ensures Components(t + [c] + w) == Components(t) + [w]
  {
    assert (t + [c])[..|t|] == t;
    ComponentsMore(t + [c], w);
    assert [] + w == w;
  }

  /** Two texts with a separator between them have the components of both. */
  lemma {:induction false} ComponentsOfBoth(t: Text, c: mark, u: Text)
    requires Separator(c)
    ensures Components(t + [c] + u) == Components(t) + Components(u)
    decreases |u|
  {
    var v := t + [c] + u;
    if u == [] {
      assert v[..|v| - 1] == t && Components(u) == [[]];
    } else {
      var init, last := u[..|u| - 1], u[|u| - 1];
      ComponentsOfBoth(t, c, init);
      assert v[..|v| - 1] == t + [c] + init && v[|v| - 1] == last;
    }
  }

  /** Cutting what was joined gives the parts back, if none holds a separator. */
  lemma {:induction false} ComponentsOfJoin(cs: seq<Text>)
    requires cs != [] && forall k :: 0 <= k < |cs| ==> Whole(cs[k])
    ensures Components(Join(cs)) == cs
  {
    var init, w := cs[..|cs| - 1], cs[|cs| - 1];
    if init == [] {
      ComponentsMore([], w);
      assert [] + w == w && cs == [w];
    } else {
      ComponentsOfJoin(init);
      ComponentsNext(Join(init), SLASH, w);
      assert cs == init + [w];
    }
  }

  // ---- parse_path and print_path ----

  predicate Absolute(t: Text) { t != [] && Separator(t[0]) }

  /** A path without one leading and one trailing separator. */
  function Core(t: Text): Text {
    var u := if Absolute(t) then t[1..] else t;
    if u != [] && Separator(u[|u| - 1]) then u[..|u| - 1] else u
  }

  /** The number parse_path reports: it is kept in eight bits. */
  function Reported(t: Text): nat { |Components(Core(t))| % 256 }

  /** The rows hold the components and zeros behind them. */
  predicate RowsHold(rows: seq<Buffer>, cs: seq<Text>) {
    && |cs| <= |rows| && (forall k :: 0 <= k < |cs| ==> |cs[k]| < LINE && rows[k] == Padded(cs[k]))
    && forall k :: |cs| <= k < |rows| ==> rows[k] == Zeros(LINE)
  }

  predicate Starts(t: Text, start: nat) { start == if Absolute(t) then 1 else 0 }

  /** The text looked at so far, from the start on: a separator at the very end does not count. */
  function Seen(t: Text, start: nat, idx: nat): Text
    requires Starts(t, start) && start <= idx <= |t|
  {
    if idx == |t| then Core(t) else t[start..idx]
  }

  lemma SeenNothing(t: Text, start: nat)
    requires Starts(t, start)
    ensures Seen(t, start, start) == []
  {
  }

  lemma SliceGrows(t: Text, start: nat, idx: nat)
    requires start <= idx < |t|
    ensures var more := t[start..idx + 1];
      more[|more| - 1] == t[idx] && more[..|more| - 1] == t[start..idx]
  {
  }

  /** The character at idx makes a component longer, starts the next one, or is the last
      separator and changes nothing. */
  lemma SeenGrows(t: Text, start: nat, idx: nat)
    requires Starts(t, start) && start <= idx < |t|
    ensures var cs, c := Components(Seen(t, start, idx)), t[idx];
      Components(Seen(t, start, idx + 1)) ==
        if !Separator(c) then cs[|cs| - 1 := cs[|cs| - 1] + [c]]
        else if idx + 1 == |t| then cs else cs + [[]]
  {
    SliceGrows(t, start, idx);
    if idx + 1 == |t| {
      assert t[start..] == t[start..idx + 1] && t[0..] == t;
    }
  }

  /** How many components there are so far. */
  function Count(t: Text, start: nat, idx: nat): nat
    requires Starts(t, start) && start <= idx <= |t|
  {
    |Components(Seen(t, start, idx))|
  }

  lemma CountGrows(t: Text, start: nat, idx: nat)
    requires Starts(t, start) && start <= idx < |t|
    ensures Count(t, start, idx + 1) == Count(t, start, idx) + if Separator(t[idx]) && idx + 1 < |t| then 1 else 0
  {
    SeenGrows(t, start, idx);
  }

  lemma OneMore(a: nat)
    ensures (a % 256 + 1) % 256 == (a + 1) % 256
  {
  }

  /** One round of the first loop: the count, kept in eight bits, after the character at idx. */
  lemma CountRound(t: Text, start: nat, idx: nat)
    requires Starts(t, start) && start <= idx < |t|
    ensures Count(t, start, idx + 1) % 256 ==
      if Separator(t[idx]) && idx + 1 < |t| then (Count(t, start, idx) % 256 + 1) % 256 else Count(t, start, idx) % 256
  {
    CountGrows(t, start, idx);
    OneMore(Count(t, start, idx));
  }

  /** The first loop of parse_path. */
  method CountFolders(line: array<byte>, start: nat, ghost t: Text) returns (n: nat)
    requires line.Length == LINE && |t| < LINE && line[..] == Padded(t) && Starts(t, start)
    ensures n == Reported(t)
  {
    PaddedHolds(t);
    SeenNothing(t, start);
    var idx := start;
    n := 1;
    while line[idx] != 0
      invariant start <= idx <= |t| && n == Count(t, start, idx) % 256
      decreases |t| - idx
    {
      CountRound(t, start, idx);
      assert line[idx] == line[..][idx] == t[idx];
      if (line[idx] == SLASH || line[idx] == BACKSLASH)
         && Len(line[..]) > idx + 1 && (line[idx + 1] != 0 || line[idx + 1] != 32)
      {
        n := (n + 1) % 256;
      }
      idx := idx + 1;
    }
  }

  lemma WithoutLast(t: Text, u: Text)
    requires u != []
    ensures var v := t + [SLASH] + u; v[|v| - 1] == u[|u| - 1] && v[..|v| - 1] == t + [SLASH] + u[..|u| - 1]
  {
  }

  /** One path put behind another: its core is that of both with a slash between. */
  lemma CoreOfBoth(t: Text, u: Text)
    requires t != [] && !Separator(t[|t| - 1]) && u != [] && !Separator(u[0])
    ensures Absolute(t + [SLASH] + u) == Absolute(t) && Core(t + [SLASH] + u) == Core(t) + [SLASH] + Core(u)
  {
    var v := t + [SLASH] + u;
    assert v[|v| - 1] == u[|u| - 1] && v[0] == t[0];
    if Absolute(t) {
      assert v[1..] == t[1..] + [SLASH] + u;
      WithoutLast(t[1..], u);
    } else {
      WithoutLast(t, u);
    }
  }

  // ---- The second loop of parse_path ----

  /** What the rows are while the first idx characters are taken in. */
  predicate Filled(rows: seq<Buffer>, t: Text, start: nat, idx: nat)
    requires Starts(t, start) && start <= idx <= |t|
  {
    RowsHold(rows, Components(Seen(t, start, idx)))
  }

  /** There are no more components than characters, and none is longer. */
  lemma {:induction false} ComponentsAreFew(t: Text)
    ensures |Components(t)| <= |t| + 1
    ensures forall k :: 0 <= k < |Components(t)| ==> |Components(t)[k]| <= |t|
  {
    if t != [] {
      ComponentsAreFew(t[..|t| - 1]);
    }
  }

  function RowAt(cs: seq<Text>, k: nat): Buffer {
    if k < |cs| && |cs[k]| <= LINE then Padded(cs[k]) else Zeros(LINE)
  }

  /** The rows parse_path leaves. */
  function RowsOf(t: Text): (rows: seq<Buffer>)
    requires |t| < LINE
    ensures |rows| == LINE && RowsHold(rows, Components(Core(t)))
  {
    ComponentsAreFew(Core(t));
    seq(LINE, k requires 0 <= k < LINE => RowAt(Components(Core(t)), k))
  }

  /** One character into the last row. */
  lemma RowGrows(rows: seq<Buffer>, cs: seq<Text>, c: mark)
    requires RowsHold(rows, cs) && cs != [] && |cs[|cs| - 1]| + 1 < LINE
    ensures var k, n := |cs| - 1, |cs[|cs| - 1]|;
      RowsHold(rows[k := rows[k][n := c]], cs[k := cs[k] + [c]])
  {
    var k, n := |cs| - 1, |cs[|cs| - 1]|;
    assert Padded(cs[k])[n := c] == Padded(cs[k] + [c]);
  }

  lemma RowStarts(rows: seq<Buffer>, cs: seq<Text>)
    requires RowsHold(rows, cs) && |cs| < |rows|
    ensures RowsHold(rows, cs + [[]])
  {
    assert Padded([]) == Zeros(LINE);
  }

  lemma LastRow(t: Text, start: nat, idx: nat)
    requires Starts(t, start) && start <= idx <= |t| < LINE
    ensures var cs := Components(Seen(t, start, idx)); |cs| <= idx + 1 && |cs[|cs| - 1]| <= idx
  {
    ComponentsAreFew(Seen(t, start, idx));
  }

  /** The component being read, and how much of it. */
  function Column(t: Text, start: nat, idx: nat): nat
    requires Starts(t, start) && start <= idx <= |t|
  {
    var cs := Components(Seen(t, start, idx));
    |cs[|cs| - 1]|
  }

  /** Characters before idx are taken in, and the next one goes to column n of row k. */
  predicate Filling(rows: seq<Buffer>, t: Text, start: nat, idx: nat, k: nat, n: nat) {
    && Starts(t, start) && start <= idx <= |t| && |rows| == LINE && Filled(rows, t, start, idx)
    && k + 1 == Count(t, start, idx) && n == Column(t, start, idx)
  }

  lemma FillingStarts(rows: seq<Buffer>, t: Text, start: nat)
    requires Starts(t, start) && |rows| == LINE && forall k :: 0 <= k < LINE ==> rows[k] == Zeros(LINE)
    ensures Filling(rows, t, start, start, 0, 0)
  {
    SeenNothing(t, start);
    RowStarts(rows, []);
  }

  lemma FillingFits(rows: seq<Buffer>, t: Text, start: nat, idx: nat, k: nat, n: nat)
    requires Filling(rows, t, start, idx, k, n) && idx < |t| < LINE
    ensures k < LINE && n + 1 < LINE
  {
    LastRow(t, start, idx);
  }

  lemma FillingCharacter(rows: seq<Buffer>, t: Text, start: nat, idx: nat, k: nat, n: nat)
    requires Filling(rows, t, start, idx, k, n) && idx < |t| && k < LINE && n + 1 < LINE && !Separator(t[idx])
    ensures Filling(rows[k := rows[k][n := t[idx]]], t, start, idx + 1, k, n + 1)
  {
    SeenGrows(t, start, idx);
    RowGrows(rows, Components(Seen(t, start, idx)), t[idx]);
  }

  /** A separator with something behind it starts the next row. */
  lemma FillingSeparator(rows: seq<Buffer>, t: Text, start: nat, idx: nat, k: nat, n: nat)
    requires Filling(rows, t, start, idx, k, n) && idx + 1 < |t| < LINE && Separator(t[idx])
    ensures Filling(rows, t, start, idx + 1, k + 1, 0)
  {
    var cs := Components(Seen(t, start, idx));
    SeenGrows(t, start, idx);
    assert Components(Seen(t, start, idx + 1)) == cs + [[]];
    LastRow(t, start, idx + 1);
    RowStarts(rows, cs);
  }

  /** One at the very end changes nothing. */
  lemma FillingLast(rows: seq<Buffer>, t: Text, start: nat, idx: nat, k: nat, n: nat)
    requires Filling(rows, t, start, idx, k, n) && idx + 1 == |t| && Separator(t[idx])
    ensures Filling(rows, t, start, idx + 1, k, n)
  {
    SeenGrows(t, start, idx);
  }

  method PutCharacter(rows: array<Buffer>, k: nat, n: nat, c: byte)
    requires k < rows.Length && n < LINE
    modifies rows
    ensures rows[..] == old(rows[..])[k := old(rows[k])[n := c]]
  {
    rows[k] := rows[k][n := c];
  }

  /** One round of the second loop of parse_path. */
  method FillNext(line: array<byte>, rows: array<Buffer>, idx: nat, pathCnt: nat, pathIdx: nat, ghost t: Text, ghost start: nat)
    returns (k: nat, n: nat)
    requires line.Length == LINE && idx < |t| < LINE && line[..] == Padded(t)
    requires Filling(rows[..], t, start, idx, pathCnt, pathIdx)
    modifies rows
    ensures Filling(rows[..], t, start, idx + 1, k, n)
  {
    PaddedHolds(t);
    FillingFits(rows[..], t, start, idx, pathCnt, pathIdx);
    k, n := pathCnt, pathIdx;
    assert line[idx] == line[..][idx] == t[idx];
    if line[idx] == SLASH || line[idx] == BACKSLASH {
      if Len(line[..]) > idx + 1 && (line[idx + 1] != 0 || line[idx + 1] != 32) {
        FillingSeparator(rows[..], t, start, idx, pathCnt, pathIdx);
        k, n := pathCnt + 1, 0;
      } else {
        FillingLast(rows[..], t, start, idx, pathCnt, pathIdx);
      }
    } else {
      FillingCharacter(rows[..], t, start, idx, pathCnt, pathIdx);
      PutCharacter(rows, pathCnt, pathIdx, line[idx]);
      n := pathIdx + 1;
    }
  }

  /** The second loop of parse_path, into rows of zeros. */
  method FillRows(line: array<byte>, rows: array<Buffer>, start: nat, ghost t: Text)
    requires line.Length == LINE && |t| < LINE && line[..] == Padded(t) && Starts(t, start)
    requires rows.Length == LINE && forall k :: 0 <= k < LINE ==> rows[k] == Zeros(LINE)
    modifies rows
    ensures RowsHold(rows[..], Components(Core(t)))
  {
    PaddedHolds(t);
    FillingStarts(rows[..], t, start);
    var idx, pathIdx, pathCnt := start, 0, 0;
    while line[idx] != 0
      invariant start <= idx <= |t| && Filling(rows[..], t, start, idx, pathCnt, pathIdx)
      decreases |t| - idx
    {
      pathCnt, pathIdx := FillNext(line, rows, idx, pathCnt, pathIdx, t, start);
      idx := idx + 1;
    }
  }

  /** parse_path, without its effect on the current directory: the number it reports and the
      rows it fills. */
  method ParsePath(line: array<byte>, rows: array<Buffer>, ghost t: Text) returns (n: nat)
    requires line.Length == LINE && |t| < LINE && line[..] == Padded(t)
    requires rows.Length == LINE && forall k :: 0 <= k < LINE ==> rows[k] == Zeros(LINE)
    modifies rows
    ensures n == Reported(t) && RowsHold(rows[..], Components(Core(t)))
  {
    PaddedHolds(t);
    assert line[0] == if t == [] then 0 else t[0];
    var start := if line[0] == SLASH || line[0] == BACKSLASH then 1 else 0;
    n := CountFolders(line, start, t);
    FillRows(line, rows, start, t);
  }

  /** The reported number is that of the components if and only if there are fewer than 256. */
  lemma ReportedIsCount(t: Text)
    ensures Reported(t) == |Components(Core(t))| <==> |Components(Core(t))| < 256
  {
  }

  /** The letter a and slashes in turn. */
  function Alternating(n: nat): (t: Text)
    ensures |t| == n
  {
    seq(n, i => if i % 2 == 0 then 97 else SLASH)
  }

  lemma {:induction false} AlternatingComponents(n: nat)
    ensures |Components(Alternating(n))| == 1 + n / 2
  {
    if n > 0 {
      assert Alternating(n)[..n - 1] == Alternating(n - 1);
      AlternatingComponents(n - 1);
    }
  }

  /** A line that fits its buffer and has 256 components is reported to have none. */
  lemma CountWraps()
    ensures var t := Alternating(LINE - 1);
      |t| < LINE && |Components(Core(t))| == 256 && Reported(t) == 0
  {
    var t := Alternating(LINE - 1);
    assert !Separator(t[0]) && !Separator(t[|t| - 1]) && Core(t) == t;
    AlternatingComponents(LINE - 1);
  }

  /** The texts in the first n rows. */
  function Texts(rows: seq<Buffer>, n: nat): (cs: seq<Text>)
    requires n <= |rows|
    ensures |cs| == n
  {
    seq(n, k requires 0 <= k < n => TextOf(rows[k]))
  }

  lemma JoinTaken(cs: seq<Text>, i: nat)
    requires 1 <= i < |cs|
    ensures Join(cs[..i + 1]) == Join(cs[..i]) + [SLASH] + cs[i]
  {
    assert cs[..i + 1][..i] == cs[..i];
  }

  /** print_path: what it puts on the screen for rows 0 to idx. */
  method PrintPath(rows: array<Buffer>, idx: nat) returns (shown: seq<byte>)
    requires idx < rows.Length
    ensures shown == Join(Texts(rows[..], idx + 1))
  {
    ghost var cs := Texts(rows[..], idx + 1);
    shown := [];
    if rows[0][0] != 0 {
      shown := shown + TextOf(rows[0]);
    }
    var i := 1;
    while i <= idx
      invariant 1 <= i <= idx + 1 && shown == Join(cs[..i])
    {
      JoinTaken(cs, i);
      shown := shown + [SLASH];
      shown := shown + TextOf(rows[i]);
      i := i + 1;
    }
    assert cs[..i] == cs;
  }

  /** Parsing a path and printing all its components shows it without one leading and one
      trailing separator and with slashes for backslashes. */
  lemma PrintOfParse(t: Text, rows: seq<Buffer>)
    requires |rows| == LINE && RowsHold(rows, Components(Core(t)))
    ensures Join(Texts(rows, |Components(Core(t))|)) == Slashed(Core(t))
  {
    var cs := Components(Core(t));
    forall k | 0 <= k < |cs|
      ensures Texts(rows, |cs|)[k] == cs[k]
    {
      PaddedHolds(cs[k]);
    }
    assert Texts(rows, |cs|) == cs;
    JoinOfComponents(Core(t));
  }
}
