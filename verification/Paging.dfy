/** The page-frame allocator and the page directories of user processes. */
module Paging {
  const FRAMES := 32
  const DIRECTORIES := 32
  const ENTRIES := 1024
  const FRAME_SIZE := 0x40_0000
  const KERNEL_ENTRY := 0x300
  const KERNEL_BASE := 0xC000_0000
  const WORD := 0x1_0000_0000

  /** A page-directory entry for a 4 MiB page; `frame` is its ten-bit lower address. */
  datatype Pde = Pde(present: bool, write: bool, user: bool, big: bool, frame: nat)

  function BlankPde(): Pde { Pde(false, false, false, false, 0) }

  function KernelPde(): Pde { Pde(true, true, false, true, 0) }

  function BlankEntries(): (s: seq<Pde>)
    ensures |s| == ENTRIES
  {
    seq(ENTRIES, _ => BlankPde())
  }

  type Directory = s: seq<Pde> | |s| == ENTRIES witness BlankEntries()

  /** The allocator's state: which frames are marked, how many are not, and the directories. */
  datatype Pages = Pages(marks: seq<bool>, free: nat, dirs: seq<Directory>, used: seq<bool>)

  // ---- Addresses ----

  function PageIndex(address: nat): nat { address / FRAME_SIZE % ENTRIES }

  /** paging_use_page_directory: what goes into CR3 for a directory's virtual address. */
  function Use(address: nat): nat { if address > KERNEL_BASE then address - KERNEL_BASE else address }

  /** paging_get_current_page_directory_addr: what CR3 is read back as. */
  function Current(cr3: nat): nat { (cr3 + KERNEL_BASE) % WORD }

  /** A directory's address survives the trip through CR3 if and only if it lies above the
      kernel's base. */
  lemma CurrentOfUse(address: nat)
    requires address < WORD
    ensures Current(Use(address)) == address <==> address > KERNEL_BASE
  {
  }

  lemma UseOfCurrent(cr3: nat)
    requires 0 < cr3 < WORD - KERNEL_BASE
    ensures Use(Current(cr3)) == cr3
  {
  }

  // ---- Operations ----

  function CountUnmarked(marks: seq<bool>): nat {
    if marks == [] then 0 else (if marks[0] then 0 else 1) + CountUnmarked(marks[1..])
  }

  /** First unmarked frame, or the number of frames. */
  function FirstUnmarked(marks: seq<bool>, i: nat): (j: nat)
    requires i <= |marks|
    ensures i <= j <= |marks| && (j < |marks| ==> !marks[j])
    ensures forall k :: i <= k < j ==> marks[k]
    decreases |marks| - i
  {
    if i == |marks| || !marks[i] then i else FirstUnmarked(marks, i + 1)
  }

  predicate AllocateCheck(p: Pages, amount: nat) {
    p.free >= amount / FRAME_SIZE + if amount % FRAME_SIZE > 0 then 1 else 0
  }

  /** The check passes exactly when the free frames hold the amount. */
  lemma CheckIsExact(p: Pages, amount: nat)
    ensures AllocateCheck(p, amount) <==> FRAME_SIZE * p.free >= amount
  {
  }

  function UserPde(frame: nat): Pde { Pde(true, true, true, true, frame) }

  predicate CanAllocate(p: Pages) { AllocateCheck(p, FRAME_SIZE) && FirstUnmarked(p.marks, 0) < |p.marks| }

  /** Map one user frame at an address of directory d, if any frame is free. */
  function Allocate(p: Pages, d: nat, address: nat): Pages
    requires d < |p.dirs|
  {
    if !CanAllocate(p) then p
    else
      var f := FirstUnmarked(p.marks, 0);
      Pages(p.marks[f := true], p.free - 1, p.dirs[d := p.dirs[d][PageIndex(address) := UserPde(f)]], p.used)
  }

  /** Unmap the frame at an address of directory d, if one is mapped. */
  function Free(p: Pages, d: nat, address: nat): Pages
    requires d < |p.dirs|
  {
    var e := p.dirs[d][PageIndex(address)];
    if !e.present || e.frame >= |p.marks| then p
    else Pages(p.marks[e.frame := false], p.free + 1, p.dirs[d := p.dirs[d][PageIndex(address) := BlankPde()]], p.used)
  }

  /** First directory not in use, or the number of directories. */
  function FirstUnused(p: Pages): nat { FirstUnmarked(p.used, 0) }

  function Create(p: Pages): Pages
    requires |p.used| == |p.dirs|
  {
    var d := FirstUnused(p);
    if d == |p.used| then p
    else p.(used := p.used[d := true], dirs := p.dirs[d := p.dirs[d][KERNEL_ENTRY := KernelPde()]])
  }

  function Discard(p: Pages, d: nat): Pages
    requires |p.used| == |p.dirs| && d < |p.dirs|
  {
    p.(used := p.used[d := false], dirs := p.dirs[d := BlankEntries()])
  }

  // ---- Invariant ----

  /** A present user entry. */
  predicate Maps(p: Pages, d: int, j: int) {
    0 <= d < |p.dirs| && 0 <= j < ENTRIES && j != KERNEL_ENTRY && p.dirs[d][j].present
  }

  predicate Sizes(p: Pages) {
    |p.marks| == FRAMES && |p.dirs| == |p.used| == DIRECTORIES
  }

  /** Mapped frames are marked, and none is the kernel's. */
  ghost predicate MappedAreMarked(p: Pages)
    requires Sizes(p)
  {
    forall d, j :: Maps(p, d, j) ==> 1 <= p.dirs[d][j].frame < FRAMES && p.marks[p.dirs[d][j].frame]
  }

  /** No frame is mapped by two present user entries, in any directories. */
  ghost predicate MappedOnce(p: Pages)
    requires Sizes(p)
  {
    forall d, j, e, k :: Maps(p, d, j) && Maps(p, e, k) && (d != e || j != k) ==> p.dirs[d][j].frame != p.dirs[e][k].frame
  }

  /** Directories in use map the kernel, the others nothing. */
  predicate DirectoriesOk(p: Pages)
    requires Sizes(p)
  {
    forall d :: 0 <= d < DIRECTORIES ==>
      if p.used[d] then p.dirs[d][KERNEL_ENTRY] == KernelPde() else p.dirs[d] == BlankEntries()
  }

  ghost predicate Sound(p: Pages) {
    && Sizes(p)
    && p.marks[0] && p.free == CountUnmarked(p.marks)
    && MappedAreMarked(p) && MappedOnce(p) && DirectoriesOk(p)
  }

  function BlankDirectories(): seq<Directory> { seq(DIRECTORIES, _ => BlankEntries()) }

  /** The state the kernel starts from. */
  function Boot(): Pages {
    Pages([true] + seq(FRAMES - 1, _ => false), FRAMES - 1, BlankDirectories(), seq(DIRECTORIES, _ => false))
  }

  lemma {:induction false} AllUnmarked(marks: seq<bool>)
    requires forall i :: 0 <= i < |marks| ==> !marks[i]
    ensures CountUnmarked(marks) == |marks|
  {
    if marks != [] {
      AllUnmarked(marks[1..]);
    }
  }

  lemma BootIsSound()
    ensures Sound(Boot())
  {
    var rest: seq<bool> := seq(FRAMES - 1, _ => false);
    AllUnmarked(rest);
    assert Boot().marks[1..] == rest;
    forall d, j
      ensures !Maps(Boot(), d, j)
    {
      assert 0 <= d < DIRECTORIES ==> Boot().dirs[d] == BlankEntries();
    }
  }

  lemma IsBoot(marks: seq<bool>, dirs: seq<Directory>, used: seq<bool>)
    requires |marks| == FRAMES && |dirs| == |used| == DIRECTORIES
    requires forall i :: 0 <= i < FRAMES ==> (marks[i] <==> i == 0)
    requires forall d :: 0 <= d < DIRECTORIES ==> dirs[d] == BlankEntries() && !used[d]
    ensures Pages(marks, FRAMES - 1, dirs, used) == Boot() && Sound(Boot())
  {
    BootIsSound();
    assert marks == Boot().marks && dirs == Boot().dirs && used == Boot().used;
  }

  lemma {:induction false} CountAfterChange(marks: seq<bool>, f: nat, marked: bool)
    requires f < |marks| && marks[f] != marked
    ensures CountUnmarked(marks[f := marked]) == CountUnmarked(marks) + if marked then -1 else 1
  {
    if f > 0 {
      CountAfterChange(marks[1..], f - 1, marked);
      assert marks[f := marked][1..] == marks[1..][f - 1 := marked];
    } else {
      assert marks[f := marked][1..] == marks[1..];
    }
  }

  /** First fit finds a frame exactly when one is unmarked. */
  lemma {:induction false} FirstFitFinds(marks: seq<bool>, i: nat)
    requires i <= |marks|
    ensures FirstUnmarked(marks, i) < |marks| <==> CountUnmarked(marks[i..]) > 0
    decreases |marks| - i
  {
    if i < |marks| {
      FirstFitFinds(marks, i + 1);
      assert marks[i..][1..] == marks[i + 1..];
    }
  }

  /** When the check passes, first fit has a frame to give, and it is not frame 0. */
  lemma CheckMeansFrame(p: Pages)
    requires Sound(p)
    ensures AllocateCheck(p, FRAME_SIZE) <==> CanAllocate(p)
    ensures CanAllocate(p) ==> FirstUnmarked(p.marks, 0) >= 1
  {
    FirstFitFinds(p.marks, 0);
    assert p.marks[0..] == p.marks;
  }

  /** What a successful allocation maps. */
  lemma AllocateMaps(p: Pages, d: nat, address: nat, e: int, k: int)
    requires Sound(p) && d < DIRECTORIES && PageIndex(address) != KERNEL_ENTRY && CanAllocate(p)
    ensures var q := Allocate(p, d, address);
      && (Maps(q, e, k) <==> Maps(p, e, k) || (e == d && k == PageIndex(address)))
      && (Maps(q, e, k) ==> (
            q.dirs[e][k] == if e == d && k == PageIndex(address) then UserPde(FirstUnmarked(p.marks, 0)) else p.dirs[e][k]))
  {
  }

  lemma AllocateKeepsSound(p: Pages, d: nat, address: nat)
    requires Sound(p) && d < DIRECTORIES && p.used[d] && PageIndex(address) != KERNEL_ENTRY
    ensures Sound(Allocate(p, d, address))
  {
    CheckMeansFrame(p);
    if CanAllocate(p) {
      var q, f := Allocate(p, d, address), FirstUnmarked(p.marks, 0);
      CountAfterChange(p.marks, f, true);
      forall e, k | Maps(q, e, k)
        ensures 1 <= q.dirs[e][k].frame < FRAMES && q.marks[q.dirs[e][k].frame]
      {
        AllocateMaps(p, d, address, e, k);
      }
      forall e, k, g, l | Maps(q, e, k) && Maps(q, g, l) && (e != g || k != l)
        ensures q.dirs[e][k].frame != q.dirs[g][l].frame
      {
        AllocateMaps(p, d, address, e, k);
        AllocateMaps(p, d, address, g, l);
      }
    }
  }

  /** What freeing leaves mapped. */
  lemma FreeMaps(p: Pages, d: nat, address: nat, e: int, k: int)
    requires Sound(p) && d < DIRECTORIES && PageIndex(address) != KERNEL_ENTRY
    ensures var q := Free(p, d, address);
      && (Maps(q, e, k) <==> Maps(p, e, k) && !(e == d && k == PageIndex(address)))
      && (Maps(q, e, k) ==> q.dirs[e][k] == p.dirs[e][k])
  {
    if p.dirs[d][PageIndex(address)].present {
      assert Maps(p, d, PageIndex(address));
    }
  }

  lemma FreeKeepsSound(p: Pages, d: nat, address: nat)
    requires Sound(p) && d < DIRECTORIES && PageIndex(address) != KERNEL_ENTRY
    ensures Sound(Free(p, d, address))
  {
    var j, q := PageIndex(address), Free(p, d, address);
    if p.dirs[d][j].present {
      assert Maps(p, d, j);
      CountAfterChange(p.marks, p.dirs[d][j].frame, false);
      forall e, k | Maps(q, e, k)
        ensures 1 <= q.dirs[e][k].frame < FRAMES && q.marks[q.dirs[e][k].frame]
      {
        FreeMaps(p, d, address, e, k);
      }
      forall e, k, g, l | Maps(q, e, k) && Maps(q, g, l) && (e != g || k != l)
        ensures q.dirs[e][k].frame != q.dirs[g][l].frame
      {
        FreeMaps(p, d, address, e, k);
        FreeMaps(p, d, address, g, l);
      }
      assert p.used[d];
    }
  }

  /** The frame number survives its way through a physical address into ten bits. */
  lemma FrameNumber(i: nat)
    requires i < FRAMES
    ensures i * FRAME_SIZE / FRAME_SIZE % ENTRIES == i
  {
  }

  /** An allocation that finds a frame keeps the allocator sound if and only if it is made in a
      directory in use and not over the kernel's entry. */
  lemma AllocateKeepsExactly(p: Pages, d: nat, address: nat)
    requires Sound(p) && d < DIRECTORIES && CanAllocate(p)
    ensures Sound(Allocate(p, d, address)) <==> p.used[d] && PageIndex(address) != KERNEL_ENTRY
  {
    var q, j := Allocate(p, d, address), PageIndex(address);
    if p.used[d] && j != KERNEL_ENTRY {
      AllocateKeepsSound(p, d, address);
    } else {
      assert q.dirs[d][j].user && !KernelPde().user && !BlankEntries()[j].user;
    }
  }

  lemma PresentFrame(p: Pages, d: nat, j: nat)
    requires Sound(p) && d < DIRECTORIES && j < ENTRIES && p.dirs[d][j].present
    ensures p.dirs[d][j].frame < FRAMES
  {
    if j != KERNEL_ENTRY {
      assert Maps(p, d, j);
    }
  }

  /** Freeing keeps it sound unless it is the kernel's own page, whose frame it gives away. */
  lemma FreeKeepsExactly(p: Pages, d: nat, address: nat)
    requires Sound(p) && d < DIRECTORIES
    ensures Sound(Free(p, d, address)) <==> !(p.used[d] && PageIndex(address) == KERNEL_ENTRY)
  {
    if PageIndex(address) != KERNEL_ENTRY {
      FreeKeepsSound(p, d, address);
    } else {
      assert p.dirs[d][KERNEL_ENTRY] == if p.used[d] then KernelPde() else BlankPde();
    }
  }

  lemma CreateMaps(p: Pages, e: int, k: int)
    requires Sound(p)
    ensures Maps(Create(p), e, k) <==> Maps(p, e, k)
    ensures Maps(p, e, k) ==> Create(p).dirs[e][k] == p.dirs[e][k]
  {
  }

  lemma CreateKeepsSound(p: Pages)
    requires Sound(p)
    ensures Sound(Create(p))
  {
    var q := Create(p);
    forall e, k | Maps(q, e, k)
      ensures 1 <= q.dirs[e][k].frame < FRAMES && q.marks[q.dirs[e][k].frame]
    {
      CreateMaps(p, e, k);
    }
    forall e, k, g, l | Maps(q, e, k) && Maps(q, g, l) && (e != g || k != l)
      ensures q.dirs[e][k].frame != q.dirs[g][l].frame
    {
      CreateMaps(p, e, k);
      CreateMaps(p, g, l);
    }
  }

  /** A new directory was unused and maps the kernel and nothing else. */
  lemma CreatedMapsOnlyKernel(p: Pages)
    requires Sound(p) && FirstUnused(p) < DIRECTORIES
    ensures Create(p).used[FirstUnused(p)] && !p.used[FirstUnused(p)]
    ensures Create(p).dirs[FirstUnused(p)] == BlankEntries()[KERNEL_ENTRY := KernelPde()]
    ensures forall j :: !Maps(Create(p), FirstUnused(p), j)
  {
  }

  lemma DiscardMaps(p: Pages, d: nat, e: int, k: int)
    requires Sound(p) && d < DIRECTORIES
    ensures Maps(Discard(p, d), e, k) <==> Maps(p, e, k) && e != d
    ensures Maps(p, e, k) && e != d ==> Discard(p, d).dirs[e][k] == p.dirs[e][k]
  {
    assert forall j :: 0 <= j < ENTRIES ==> !BlankEntries()[j].present;
  }

  lemma DiscardKeepsSound(p: Pages, d: nat)
    requires Sound(p) && d < DIRECTORIES
    ensures Sound(Discard(p, d))
  {
    var q := Discard(p, d);
    forall e, k | Maps(q, e, k)
      ensures 1 <= q.dirs[e][k].frame < FRAMES && q.marks[q.dirs[e][k].frame]
    {
      DiscardMaps(p, d, e, k);
    }
    forall e, k, g, l | Maps(q, e, k) && Maps(q, g, l) && (e != g || k != l)
      ensures q.dirs[e][k].frame != q.dirs[g][l].frame
    {
      DiscardMaps(p, d, e, k);
      DiscardMaps(p, d, g, l);
    }
  }

  /** Right after boot an allocation in a directory not in use breaks the allocator. */
  lemma UnusedDirectoryFills()
    ensures Sound(Boot()) && CanAllocate(Boot()) && !Sound(Allocate(Boot(), 0, 0))
  {
    BootIsSound();
    CheckMeansFrame(Boot());
    AllocateKeepsExactly(Boot(), 0, 0);
  }

  lemma FirstDirectoryUsed(p: Pages)
    requires Sizes(p) && !p.used[0]
    ensures FirstUnused(p) == 0 && Create(p).used[0] && PageIndex(KERNEL_BASE) == KERNEL_ENTRY
  {
  }

  /** Freeing the kernel's page of the first directory taken breaks it too. */
  lemma KernelPageGoes()
    ensures var p := Create(Boot()); Sound(p) && !Sound(Free(p, 0, KERNEL_BASE))
  {
    BootIsSound();
    CreateKeepsSound(Boot());
    FirstDirectoryUsed(Boot());
    FreeKeepsExactly(Create(Boot()), 0, KERNEL_BASE);
  }

  // ---- What each operation changes ----

  /** A page index picks the 4 MiB page an address lies in. */
  lemma PageHolds(address: nat)
    requires address < WORD
    ensures FRAME_SIZE * PageIndex(address) <= address < FRAME_SIZE * PageIndex(address) + FRAME_SIZE
  {
  }

  /** An allocation takes the lowest free frame and maps it for the user, writable; with none free it
      changes nothing. */
  lemma AllocateChanges(p: Pages, d: nat, address: nat)
    requires Sound(p) && d < DIRECTORIES
    ensures var q, j := Allocate(p, d, address), PageIndex(address);
      if p.free == 0 then q == p
      else
        |q.dirs| == DIRECTORIES && var f := q.dirs[d][j].frame;
        && 1 <= f < FRAMES && !p.marks[f] && (forall g :: 0 <= g < f ==> p.marks[g])
        && q.marks == p.marks[f := true] && q.free == p.free - 1 && q.used == p.used
        && q.dirs == p.dirs[d := p.dirs[d][j := Pde(true, true, true, true, f)]]
  {
    CheckMeansFrame(p);
    CheckIsExact(p, FRAME_SIZE);
  }

  /** Freeing a page gives its frame back and clears its entry; where nothing is mapped it changes nothing. */
  lemma FreeChanges(p: Pages, d: nat, address: nat)
    requires Sound(p) && d < DIRECTORIES
    ensures var q, e := Free(p, d, address), p.dirs[d][PageIndex(address)];
      if !e.present then q == p
      else
        && e.frame < FRAMES && q.marks == p.marks[e.frame := false] && q.free == p.free + 1 && q.used == p.used
        && q.dirs == p.dirs[d := p.dirs[d][PageIndex(address) := Pde(false, false, false, false, 0)]]
  {
    if p.dirs[d][PageIndex(address)].present {
      PresentFrame(p, d, PageIndex(address));
    }
  }

  /** Creation takes the lowest directory not in use, if there is one, and maps the kernel's first frame
      in it for the kernel, writable; no frame is taken. */
  lemma CreateChanges(p: Pages)
    requires Sound(p)
    ensures var q, d := Create(p), FirstUnused(p);
      && (forall e :: 0 <= e < d ==> p.used[e])
      && if d == DIRECTORIES then q == p
         else
           && !p.used[d] && q.marks == p.marks && q.free == p.free && q.used == p.used[d := true]
           && q.dirs == p.dirs[d := p.dirs[d][0x300 := Pde(true, true, false, true, 0)]]
  {
  }

  /** Giving a directory back clears all its entries; no frame is given back. */
  lemma DiscardChanges(p: Pages, d: nat)
    requires Sound(p) && d < DIRECTORIES
    ensures var q := Discard(p, d);
      && q.marks == p.marks && q.free == p.free && q.used == p.used[d := false] && q.dirs == p.dirs[d := q.dirs[d]]
      && forall j :: 0 <= j < ENTRIES ==> q.dirs[d][j] == Pde(false, false, false, false, 0)
  {
  }

  // ---- Leaks ----

  /** Every marked frame but the kernel's is mapped somewhere. */
  ghost predicate Tight(p: Pages)
    requires Sizes(p)
  {
    forall f :: 1 <= f < FRAMES && p.marks[f] ==> exists d, j :: Maps(p, d, j) && p.dirs[d][j].frame == f
  }

  /** An allocation leaks no frame if and only if the entry it fills was not present. */
  lemma AllocateLeaksWhen(p: Pages, d: nat, address: nat)
    requires Sound(p) && Tight(p) && d < DIRECTORIES && p.used[d] && PageIndex(address) != KERNEL_ENTRY && CanAllocate(p)
    ensures Tight(Allocate(p, d, address)) <==> !p.dirs[d][PageIndex(address)].present
  {
    CheckMeansFrame(p);
    var q, j, f0 := Allocate(p, d, address), PageIndex(address), FirstUnmarked(p.marks, 0);
    if p.dirs[d][j].present {
      var lost := p.dirs[d][j].frame;
      assert Maps(p, d, j) && q.marks[lost];
      forall e, k | Maps(q, e, k)
        ensures q.dirs[e][k].frame != lost
      {
        AllocateMaps(p, d, address, e, k);
      }
    } else {
      forall f | 1 <= f < FRAMES && q.marks[f]
        ensures exists e, k :: Maps(q, e, k) && q.dirs[e][k].frame == f
      {
        if f == f0 {
          AllocateMaps(p, d, address, d, j);
        } else {
          var e, k :| Maps(p, e, k) && p.dirs[e][k].frame == f;
          AllocateMaps(p, d, address, e, k);
          assert Maps(q, e, k) && q.dirs[e][k].frame == f;
        }
      }
    }
  }

  /** Freeing a page leaks nothing. */
  lemma FreeLeaksNothing(p: Pages, d: nat, address: nat)
    requires Sound(p) && Tight(p) && d < DIRECTORIES && PageIndex(address) != KERNEL_ENTRY
    ensures Tight(Free(p, d, address))
  {
    var q, j := Free(p, d, address), PageIndex(address);
    if p.dirs[d][j].present {
      assert Maps(p, d, j);
      forall f | 1 <= f < FRAMES && q.marks[f]
        ensures exists e, k :: Maps(q, e, k) && q.dirs[e][k].frame == f
      {
        var e, k :| Maps(p, e, k) && p.dirs[e][k].frame == f;
        FreeMaps(p, d, address, e, k);
        assert Maps(q, e, k) && q.dirs[e][k].frame == f;
      }
    }
  }

  /** Giving back a directory leaks its frames: nothing is lost if and only if it mapped none. */
  lemma DiscardLeaksWhen(p: Pages, d: nat)
    requires Sound(p) && Tight(p) && d < DIRECTORIES
    ensures Tight(Discard(p, d)) <==> forall j :: !Maps(p, d, j)
  {
    var q := Discard(p, d);
    if j :| Maps(p, d, j) {
      var lost := p.dirs[d][j].frame;
      assert q.marks[lost];
      forall e, k | Maps(q, e, k)
        ensures q.dirs[e][k].frame != lost
      {
        DiscardMaps(p, d, e, k);
      }
    } else {
      forall f | 1 <= f < FRAMES && q.marks[f]
        ensures exists e, k :: Maps(q, e, k) && q.dirs[e][k].frame == f
      {
        var e, k :| Maps(p, e, k) && p.dirs[e][k].frame == f;
        DiscardMaps(p, d, e, k);
        assert Maps(q, e, k) && q.dirs[e][k].frame == f;
      }
    }
  }

  // ---- Runs ----

  datatype Request = AllocateAt(d: nat, address: nat) | FreeAt(d: nat, address: nat) | CreateOne | DiscardOne(d: nat)

  predicate Legal(p: Pages, r: Request) {
    match r
    case AllocateAt(d, address) => d < |p.used| && p.used[d] && PageIndex(address) != KERNEL_ENTRY
    case FreeAt(d, address) => d < DIRECTORIES && PageIndex(address) != KERNEL_ENTRY
    case CreateOne => true
    case DiscardOne(d) => d < DIRECTORIES
  }

  function Step(p: Pages, r: Request): Pages
    requires Sizes(p) && Legal(p, r)
  {
    match r
    case AllocateAt(d, address) => Allocate(p, d, address)
    case FreeAt(d, address) => Free(p, d, address)
    case CreateOne => Create(p)
    case DiscardOne(d) => Discard(p, d)
  }

  predicate LegalRun(p: Pages, rs: seq<Request>)
    requires Sizes(p)
    decreases |rs|
  {
    rs == [] || (Legal(p, rs[0]) && LegalRun(Step(p, rs[0]), rs[1..]))
  }

  function Run(p: Pages, rs: seq<Request>): Pages
    requires Sizes(p) && LegalRun(p, rs)
    decreases |rs|
  {
    if rs == [] then p else Run(Step(p, rs[0]), rs[1..])
  }

  /** Every sequence of allocations, frees, creations and discards keeps the allocator sound. */
  lemma {:induction false} RunIsSound(p: Pages, rs: seq<Request>)
    requires Sound(p) && LegalRun(p, rs)
    ensures Sound(Run(p, rs))
    decreases |rs|
  {
    if rs != [] {
      match rs[0] {
        case AllocateAt(d, address) => AllocateKeepsSound(p, d, address);
        case FreeAt(d, address) => FreeKeepsSound(p, d, address);
        case CreateOne => CreateKeepsSound(p);
        case DiscardOne(d) => DiscardKeepsSound(p, d);
      }
      RunIsSound(Step(p, rs[0]), rs[1..]);
    }
  }

  // ---- The allocator in place ----

  const DIRECTORY_SIZE := 0x1000

  /** The address of directory i in the directory list. */
  function DirectoryAddress(base: nat, i: nat): nat { base + DIRECTORY_SIZE * i }

  /** The directories lie one behind the other, four bytes for each entry. */
  lemma DirectoriesApart(base: nat, d: nat)
    ensures DirectoryAddress(base, 0) == base && DirectoryAddress(base, d + 1) == DirectoryAddress(base, d) + 4 * ENTRIES
  {
  }

  class PageManager {
    const base: nat
    const marks: array<bool>
    var free: nat
    const dirs: array<Directory>
    const used: array<bool>

    ghost predicate Valid()
      reads this, marks, dirs, used
    {
      marks.Length == FRAMES && dirs.Length == used.Length == DIRECTORIES && marks != used && Sound(State())
    }

    ghost function State(): Pages
      reads this, marks, dirs, used
    {
      Pages(marks[..], free, dirs[..], used[..])
    }

    constructor (base: nat)
      ensures Valid() && State() == Boot() && this.base == base && fresh(marks) && fresh(dirs) && fresh(used)
    {
      this.base := base;
      marks := new bool[FRAMES](i => i == 0);
      dirs := new Directory[DIRECTORIES](_ => BlankEntries());
      used := new bool[DIRECTORIES](_ => false);
      free := FRAMES - 1;
      new;
      assert forall d :: 0 <= d < DIRECTORIES ==> dirs[..][d] == dirs[d] == BlankEntries();
      IsBoot(marks[..], dirs[..], used[..]);
      assert State() == Boot();
    }

    method Check(amount: nat) returns (ok: bool)
      ensures (ok <==> AllocateCheck(State(), amount)) && (ok <==> FRAME_SIZE * free >= amount)
    {
      CheckIsExact(State(), amount);
      ok := free >= amount / FRAME_SIZE + if amount % FRAME_SIZE > 0 then 1 else 0;
    }

    method FindUnmarked(flags: array<bool>) returns (i: nat)
      ensures i == FirstUnmarked(flags[..], 0) <= flags.Length
    {
      i := 0;
      while i < flags.Length && flags[i]
        invariant i <= flags.Length && FirstUnmarked(flags[..], 0) == FirstUnmarked(flags[..], i)
      {
        i := i + 1;
      }
    }

    /** paging_allocate_user_page_frame. First fit never runs past the frame map. */
    method AllocateUserPageFrame(d: nat, address: nat) returns (ok: bool)
      requires Valid() && d < DIRECTORIES
      modifies this`free, marks, dirs
      ensures ok == CanAllocate(old(State())) && State() == Allocate(old(State()), d, address)
      ensures Valid() <==> (ok ==> used[d] && PageIndex(address) != KERNEL_ENTRY)
    {
      ghost var p := State();
      CheckMeansFrame(p);
      ok := Check(FRAME_SIZE);
      if !ok {
        return;
      }
      AllocateKeepsExactly(p, d, address);
      var i := FindUnmarked(marks);
      assert i == FirstUnmarked(p.marks, 0) < FRAMES;
      FrameNumber(i);
      dirs[d] := dirs[d][PageIndex(address) := UserPde(i * FRAME_SIZE / FRAME_SIZE % ENTRIES)];
      marks[i] := true;
      free := free - 1;
      assert State() == Allocate(p, d, address);
    }

    /** paging_free_user_page_frame. */
    method FreeUserPageFrame(d: nat, address: nat) returns (ok: bool)
      requires Valid() && d < DIRECTORIES
      modifies this`free, marks, dirs
      ensures ok == old(dirs[d][PageIndex(address)].present) && State() == Free(old(State()), d, address)
      ensures Valid() <==> !(used[d] && PageIndex(address) == KERNEL_ENTRY)
    {
      ghost var p := State();
      FreeKeepsExactly(p, d, address);
      var e := dirs[d][PageIndex(address)];
      if !e.present {
        return false;
      }
      PresentFrame(p, d, PageIndex(address));
      marks[e.frame] := false;
      dirs[d] := dirs[d][PageIndex(address) := BlankPde()];
      free := free + 1;
      assert State() == Free(p, d, address);
      return true;
    }

    /** paging_create_new_page_directory; DIRECTORIES stands for NULL. */
    method CreateNewPageDirectory() returns (d: nat)
      requires Valid()
      modifies dirs, used
      ensures Valid() && d == FirstUnused(old(State())) && State() == Create(old(State()))
    {
      CreateKeepsSound(State());
      d := FindUnmarked(used);
      if d < DIRECTORIES {
        used[d] := true;
        dirs[d] := dirs[d][KERNEL_ENTRY := KernelPde()];
      }
    }

    /** paging_free_page_directory: an address outside the list is refused. */
    method FreePageDirectory(address: nat) returns (ok: bool)
      requires Valid()
      modifies dirs, used
      ensures Valid() && (ok <==> exists d :: 0 <= d < DIRECTORIES && DirectoryAddress(base, d) == address)
      ensures !ok ==> State() == old(State())
      ensures forall d :: 0 <= d < DIRECTORIES && DirectoryAddress(base, d) == address ==> State() == Discard(old(State()), d)
    {
      var d := 0;
      while d < DIRECTORIES && DirectoryAddress(base, d) != address
        invariant d <= DIRECTORIES && forall k :: 0 <= k < d ==> DirectoryAddress(base, k) != address
      {
        d := d + 1;
      }
      if d == DIRECTORIES {
        return false;
      }
      DiscardKeepsSound(State(), d);
      used[d] := false;
      dirs[d] := BlankEntries();
      return true;
    }
  }
}
