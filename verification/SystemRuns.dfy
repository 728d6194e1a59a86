/** Whole runs of the file system, from mkfs on. */
module SystemRuns {
  import opened Arithmetic
  import opened Geometry
  import opened Codec
  import opened FreeList
  import opened FreeRuns
  import opened BlockMap
  import opened Ownership
  import opened FileIO
  import opened WriteLaws
  import opened ReadLaws
  import opened Inodes
  import opened InodeCache
  import opened CacheLaws
  import opened DirBlock
  import opened Directory
  import opened DirLaws
  import opened Mkfs
  import opened FileSystem
  import opened SystemInv
  import opened SystemLaws
  import opened AbortLaws

  // ----- the ideal file system -------------------------------------------

  /** The calls a user may make of an ideal file system `view`: new files, writes and
      directory changes of files that exist, with new names for new entries, and releases;
      without room for another inode new files only if `tidy`, that is, if no slot behind
      the last inode is mistaken for a free one. */
  ghost predicate Allowed(view: map<nat, Node>, tidy: bool, op: SysOp) {
    match op
    case DoMakeFile(_) => tidy || |view| < NUM_INODES
    case DoMakeDir(_, _, _) => tidy || |view| < NUM_INODES
    case DoWrite(n, _, _) => n in view && !view[n].DirNode?
    case DoEnter(n, _, name) => n in view && view[n].DirNode? && name !in view[n].entries
    case DoLeave(n, id, name) => n in view && view[n].DirNode? && NamedOnce(view[n].entries, id, name)
    case DoRelease(n) => n in view
    case DoVisit(n) => n in view
  }

  /** No inode maps the block that a write to a file starts in, behind its size taken as an
      int: such a write is refused as too big. */
  predicate TooFar(file: Node, offset: nat) {
    file.FileNode? && offset >= ToInt(|file.bytes|) && BlockOf(offset) >= MAX_INDEX
  }

  /** What an allowed call does to the ideal file system; `ok` tells whether it succeeds.
      A write that fails damages its file, unless it is refused as too big; no other call
      that fails changes anything. */
  ghost function Ideal(view: map<nat, Node>, op: SysOp, ok: bool): map<nat, Node>
    requires Allowed(view, true, op)
  {
    if !ok then (if op.DoWrite? && !TooFar(view[op.n], op.offset) then view[op.n := Damaged] else view)
    else
      match op
      case DoMakeFile(_) => view[FirstFree(view, 1) := FileNode([])]
      case DoMakeDir(parent, _, _) =>
        var n := FirstFree(view, 1);
        view[n := DirNode(map[DOT := n, DOT_DOT := parent])]
      case DoWrite(n, offset, data) =>
        view[n := if view[n].Damaged? then Damaged else FileNode(Overlay(view[n].bytes, offset, data))]
      case DoEnter(n, id, name) => view[n := DirNode(view[n].entries[name := id])]
      case DoLeave(n, _, name) => view[n := DirNode(view[n].entries - {name})]
      case DoRelease(n) => view - {n}
      case DoVisit(_) => view
  }

  // ----- one call --------------------------------------------------------

  /** The kind of a file shows in the view, unless it is damaged. */
  lemma ViewKind(w: World, hurt: set<nat>, n: nat)
    requires AllWell(w, hurt) && n in w.files
    ensures View(w, hurt)[n].Damaged? <==> n in hurt
    ensures View(w, hurt)[n].DirNode? <==> w.files[n].kind == TYPE_DIRECTORY
    ensures View(w, hurt)[n].FileNode? ==> w.files[n].kind == TYPE_ORDINARY
    ensures View(w, hurt)[n].DirNode? ==> View(w, hurt)[n].entries == Dir(w.disk, w.files[n])
    ensures w.files[n].kind == TYPE_DIRECTORY || w.files[n].kind == TYPE_ORDINARY
  {
    assert Kept(w.disk, w.files[n], n in hurt);
  }

  /** How often a call finds the head of the free chain full when it frees a block. */
  function SpillsOf(s: Sys, op: SysOp): nat {
    if op.DoRelease? then ReleaseSpills(s, op.n) else 0
  }

  /** What a call does to the state, whether it succeeds or not. */
  ghost predicate Refines(s: Sys, w: World, hurt: set<nat>, op: SysOp, w': World, hurt': set<nat>)
    requires Allowed(View(w, hurt), true, op)
  {
    var r := Do(s, op);
    && SysInv(r.sys, w', hurt') && View(w', hurt') == Ideal(View(w, hurt), op, r.ok)
    && CountsOn(s.vol, w.free, r.sys.vol, w'.free, SpillsOf(s, op))
    && w.lost <= w'.lost && (r.ok && !op.DoRelease? ==> w'.lost == w.lost)
    && SameBehind(s.vol.disk, r.sys.vol.disk)
  }

  /** The flag `tidy` may be set only if no slot behind the last inode is mistaken for a
      free one. */
  ghost predicate TidyOn(s: Sys, tidy: bool) {
    tidy ==> NoStraySlots(s.vol.disk)
  }

  /** Every call, whether it succeeds or not, does what it would do to the ideal file
      system. */
  lemma StepRefines(s: Sys, w: World, hurt: set<nat>, tidy: bool, op: SysOp) returns (w': World, hurt': set<nat>)
    requires SysInv(s, w, hurt) && TidyOn(s, tidy) && Allowed(View(w, hurt), tidy, op)
    ensures Refines(s, w, hurt, op, w', hurt') && TidyOn(Do(s, op).sys, tidy)
    ensures (op.DoMakeFile? || op.DoMakeDir?) && Do(s, op).ok ==> FirstFree(View(w, hurt), 1) !in View(w, hurt)
  {
    hide SysInv, Ideal, Do, View;
    w', hurt' := StepCases(s, w, hurt, tidy, op);
    BehindKeepsStrays(s.vol.disk, Do(s, op).sys.vol.disk);
  }

  lemma StepCases(s: Sys, w: World, hurt: set<nat>, tidy: bool, op: SysOp) returns (w': World, hurt': set<nat>)
    requires SysInv(s, w, hurt) && TidyOn(s, tidy) && Allowed(View(w, hurt), tidy, op)
    ensures Refines(s, w, hurt, op, w', hurt')
    ensures (op.DoMakeFile? || op.DoMakeDir?) && Do(s, op).ok ==> FirstFree(View(w, hurt), 1) !in View(w, hurt)
  {
    hide Refines, SysInv, Ideal, TidyOn;
    hurt' := hurt;
    match op {
      case DoMakeFile(stale) => w' := MakeFileStep(s, w, hurt, tidy, stale);
      case DoMakeDir(parent, scratch, stale) => w' := MakeDirStep(s, w, hurt, tidy, parent, scratch, stale);
      case DoWrite(n, offset, data) => w', hurt' := WriteStep(s, w, hurt, n, offset, data);
      case DoEnter(n, id, name) => w' := EnterStep(s, w, hurt, n, id, name);
      case DoLeave(n, id, name) => w' := LeaveStep(s, w, hurt, n, id, name);
      case DoRelease(n) => w', hurt' := ReleaseStep(s, w, hurt, n);
      case DoVisit(n) =>
        VisitStep(s, w, hurt, n);
        w' := w;
    }
  }

  lemma MakeFileStep(s: Sys, w: World, hurt: set<nat>, tidy: bool, stale: Inode) returns (w': World)
    requires SysInv(s, w, hurt) && TidyOn(s, tidy) && Allowed(View(w, hurt), tidy, DoMakeFile(stale))
    ensures Refines(s, w, hurt, DoMakeFile(stale), w', hurt)
    ensures Do(s, DoMakeFile(stale)).ok ==> FirstFree(View(w, hurt), 1) !in View(w, hurt)
  {
    hide MakeFile, SysInv, NoStraySlots;
    ViewRoom(s, w, hurt);
    if |View(w, hurt)| < NUM_INODES {
      w' := MakeFileKeeps(s, w, stale, hurt);
    } else {
      w' := MakeFull(s, w, 1, ZERO, stale, hurt);
      w' := w;
      ReachesSelf(s, w, hurt);
    }
  }

  lemma LeaveStep(s: Sys, w: World, hurt: set<nat>, n: nat, id: nat, name: seq<byte>) returns (w': World)
    requires SysInv(s, w, hurt) && Allowed(View(w, hurt), true, DoLeave(n, id, name))
    ensures Refines(s, w, hurt, DoLeave(n, id, name), w', hurt)
  {
    hide Leave, Dir, NamedOnce, Sound, Slots, CacheOk;
    ViewKind(w, hurt, n);
    w' := w;
    if id > 0 {
      w' := LeaveKeeps(s, w, n, id, name, hurt);
    }
  }

  lemma ReleaseStep(s: Sys, w: World, hurt: set<nat>, n: nat) returns (w': World, hurt': set<nat>)
    requires SysInv(s, w, hurt) && Allowed(View(w, hurt), true, DoRelease(n))
    ensures Refines(s, w, hurt, DoRelease(n), w', hurt')
  {
    w' := ReleaseKeeps(s, w, n, hurt);
    hurt' := hurt - {n};
  }

  lemma VisitStep(s: Sys, w: World, hurt: set<nat>, n: nat)
    requires SysInv(s, w, hurt) && Allowed(View(w, hurt), true, DoVisit(n))
    ensures Refines(s, w, hurt, DoVisit(n), w, hurt)
  {
    GetLive(s.cache, s.vol.disk, w.files, n);
  }

  /** The view has as many files as the table, which is at most NUM_INODES. */
  lemma ViewRoom(s: Sys, w: World, hurt: set<nat>)
    requires SysInv(s, w, hurt)
    ensures |View(w, hurt)| == |w.files.Keys| <= NUM_INODES
  {
    assert View(w, hurt).Keys == w.files.Keys;
  }

  lemma MakeDirStep(s: Sys, w: World, hurt: set<nat>, tidy: bool, parent: nat, scratch: Block, stale: Inode)
    returns (w': World)
    requires SysInv(s, w, hurt) && TidyOn(s, tidy)
    requires Allowed(View(w, hurt), tidy, DoMakeDir(parent, scratch, stale))
    ensures Refines(s, w, hurt, DoMakeDir(parent, scratch, stale), w', hurt)
    ensures Do(s, DoMakeDir(parent, scratch, stale)).ok ==> FirstFree(View(w, hurt), 1) !in View(w, hurt)
  {
    hide MakeDir, Slots, CacheOk, Covered, NoStraySlots;
    ViewRoom(s, w, hurt);
    AllocPops(s.vol, w.free);
    w' := w;
    if 0 < parent < 0x8000_0000 {
      if |w.files.Keys| == NUM_INODES {
        w' := MakeFull(s, w, parent, scratch, stale, hurt);
      } else if w.free.Empty? {
        MakeDirStops(s, parent, scratch, stale);
      } else {
        w' := MakeDirKeeps(s, w, parent, scratch, stale, hurt);
      }
    }
  }

  lemma WriteStep(s: Sys, w: World, hurt: set<nat>, n: nat, offset: nat, data: Buffer)
    returns (w': World, hurt': set<nat>)
    requires SysInv(s, w, hurt) && Allowed(View(w, hurt), true, DoWrite(n, offset, data))
    ensures Refines(s, w, hurt, DoWrite(n, offset, data), w', hurt')
  {
    hide SysInv, Refines, TooFar, WriteFile;
    KindOf(s, w, hurt, n);
    if TooFar(View(w, hurt)[n], offset) {
      w', hurt' := w, hurt;
      TooFarStep(s, w, hurt, n, offset, data);
    } else if offset + |data| >= ID_LIMIT - 1 {
      w', hurt' := w, hurt + {n};
      UnmodelledStep(s, w, hurt, n, offset, data);
    } else {
      w', hurt' := WrittenStep(s, w, hurt, n, offset, data);
    }
  }

  lemma KindOf(s: Sys, w: World, hurt: set<nat>, n: nat)
    requires SysInv(s, w, hurt) && n in w.files
    ensures View(w, hurt)[n].DirNode? || w.files[n].kind == TYPE_ORDINARY
  {
    ViewKind(w, hurt, n);
  }

  lemma TooFarStep(s: Sys, w: World, hurt: set<nat>, n: nat, offset: nat, data: Buffer)
    requires SysInv(s, w, hurt) && n in w.files && TooFar(View(w, hurt)[n], offset)
    ensures Refines(s, w, hurt, DoWrite(n, offset, data), w, hurt)
  {
    if offset + |data| < ID_LIMIT - 1 {
      WriteTooBig(s, w, n, offset, data, hurt);
    }
  }

  lemma UnmodelledStep(s: Sys, w: World, hurt: set<nat>, n: nat, offset: nat, data: Buffer)
    requires SysInv(s, w, hurt) && n in w.files && w.files[n].kind == TYPE_ORDINARY
    requires offset + |data| >= ID_LIMIT - 1 && !TooFar(View(w, hurt)[n], offset)
    ensures Refines(s, w, hurt, DoWrite(n, offset, data), w, hurt + {n})
  {
    OneChanged(w, w, n, hurt, hurt + {n});
  }

  lemma WrittenStep(s: Sys, w: World, hurt: set<nat>, n: nat, offset: nat, data: Buffer)
    returns (w': World, hurt': set<nat>)
    requires SysInv(s, w, hurt) && n in w.files && w.files[n].kind == TYPE_ORDINARY
    requires offset + |data| < ID_LIMIT - 1 && !TooFar(View(w, hurt)[n], offset)
    ensures Refines(s, w, hurt, DoWrite(n, offset, data), w', hurt')
  {
    hide WriteFile, TooFar, SysInv, CountsOn, SameBehind, Overlay, Content, Landed, Stopped;
    if n !in hurt && WriteFile(s, n, offset, data).ok {
      hurt' := hurt;
      w' := WriteKeeps(s, w, n, offset, data, hurt);
    } else {
      var done;
      w', done := WriteDamages(s, w, n, offset, data, hurt);
      hurt' := hurt + {n};
    }
  }

  lemma EnterStep(s: Sys, w: World, hurt: set<nat>, n: nat, id: nat, name: seq<byte>) returns (w': World)
    requires SysInv(s, w, hurt) && Allowed(View(w, hurt), true, DoEnter(n, id, name))
    ensures Refines(s, w, hurt, DoEnter(n, id, name), w', hurt)
  {
    ViewKind(w, hurt, n);
    w' := w;
    if InBounds(DoEnter(n, id, name)) {
      if Enter(s, n, id, name).ok {
        w' := EnterKeeps(s, w, n, id, name, hurt);
      } else {
        w' := EnterFails(s, w, n, id, name, hurt);
      }
    }
  }

  /** Enough free blocks for a call, and a last byte or a next entry that an inode can map. */
  ghost predicate Enough(w: World, op: SysOp) {
    match op
    case DoMakeDir(_, _, _) => Ids(w.free) != {}
    case DoWrite(n, offset, data) =>
      BlockOf(offset + if data == [] then 0 else |data| - 1) < MAX_INDEX
      && |Ids(w.free)| >= 4 * Chunks(offset, |data|)
    case DoEnter(n, _, _) => n in w.files && w.files[n].numBlocks < MAX_INDEX && |Ids(w.free)| >= 4
    case _ => true
  }

  /** An allowed call with enough room succeeds; only writes, new entries and new
      directories need free blocks. */
  lemma CallSucceeds(s: Sys, w: World, hurt: set<nat>, op: SysOp)
    requires SysInv(s, w, hurt) && Allowed(View(w, hurt), false, op) && InBounds(op)
    ensures Enough(w, op) ==> Do(s, op).ok
    ensures op.DoMakeDir? && Do(s, op).ok ==> Enough(w, op)
  {
    hide MakeFile, MakeDir, WriteFile, Enter, Leave, Release, SysInv;
    match op {
      case DoMakeFile(stale) =>
        ViewRoom(s, w, hurt);
        var w' := MakeFileKeeps(s, w, stale, hurt);
      case DoMakeDir(parent, scratch, stale) => MakeDirSucceeds(s, w, hurt, parent, scratch, stale);
      case DoWrite(n, offset, data) =>
        if Enough(w, op) {
          WriteSucceeds(s, w, hurt, n, offset, data);
        }
      case DoEnter(n, id, name) =>
        if Enough(w, op) {
          EnterSucceeds(s, w, hurt, n, id, name);
        }
      case DoLeave(n, id, name) => LeaveSucceeds(s, w, hurt, n, id, name);
      case DoRelease(n) =>
        var w' := ReleaseKeeps(s, w, n, hurt);
      case DoVisit(n) => VisitSucceeds(s, w, hurt, n);
    }
  }

  lemma VisitSucceeds(s: Sys, w: World, hurt: set<nat>, n: nat)
    requires SysInv(s, w, hurt) && n in w.files
    ensures Visit(s, n).ok
  {
    GetLive(s.cache, s.vol.disk, w.files, n);
  }

  lemma MakeDirSucceeds(s: Sys, w: World, hurt: set<nat>, parent: nat, scratch: Block, stale: Inode)
    requires SysInv(s, w, hurt) && |View(w, hurt)| < NUM_INODES && 0 < parent < 0x8000_0000
    ensures MakeDir(s, parent, scratch, stale).ok <==> Ids(w.free) != {}
  {
    ViewRoom(s, w, hurt);
    AllocPops(s.vol, w.free);
    if !w.free.Empty? {
      var w' := MakeDirKeeps(s, w, parent, scratch, stale, hurt);
      assert w.free.id in Ids(w.free);
    }
  }

  lemma LeaveSucceeds(s: Sys, w: World, hurt: set<nat>, n: nat, id: nat, name: seq<byte>)
    requires SysInv(s, w, hurt) && Allowed(View(w, hurt), true, DoLeave(n, id, name)) && id > 0
    ensures Leave(s, n, id).ok
  {
    ViewKind(w, hurt, n);
    var w' := LeaveKeeps(s, w, n, id, name, hurt);
  }

  lemma EnterSucceeds(s: Sys, w: World, hurt: set<nat>, n: nat, id: nat, name: seq<byte>)
    requires SysInv(s, w, hurt) && n in w.files && View(w, hurt)[n].DirNode? && id < 0x8000_0000 && IsName(name)
    requires w.files[n].numBlocks < MAX_INDEX && |Ids(w.free)| >= 4
    ensures Enter(s, n, id, name).ok
  {
    ViewKind(w, hurt, n);
    DirIsWell(w, n, hurt);
    GetLive(s.cache, s.vol.disk, w.files, n);
    AddEnds(s.vol, w, n, id, name);
    DirAddKeepsNumber(s.vol, w, n, id, name);
  }

  lemma WriteSucceeds(s: Sys, w: World, hurt: set<nat>, n: nat, offset: nat, data: Buffer)
    requires SysInv(s, w, hurt) && n in w.files && offset + |data| < ID_LIMIT - 1
    requires Enough(w, DoWrite(n, offset, data))
    ensures WriteFile(s, n, offset, data).ok
  {
    hide Pwrite, WriteFile, PutBack;
    GetLive(s.cache, s.vol.disk, w.files, n);
    PwriteSucceeds(s.vol, w, n, offset, data);
    PwriteKeepsNumber(s.vol, w, n, offset, data);
    WriteFileIs(s, n, offset, data, w.files[n]);
    var r := Pwrite(s.vol, w.files[n], offset, data);
    PutBackSucceeds(GetInode(s.cache, s.vol.disk, n).cache, r.vol, r.ino);
  }

  lemma PwriteSucceeds(v: Vol, w: World, f: nat, offset: nat, data: Buffer)
    requires v.disk == w.disk && Sound(w) && f in w.files && offset + |data| < ID_LIMIT - 1
    requires Enough(w, DoWrite(f, offset, data))
    ensures Pwrite(v, w.files[f], offset, data).status == Done
  {
    hide Pwrite, Sound, FreeInv;
    PwriteEnds(v, w, f, offset, data);
    if data != [] {
      ChunksAreBlocks(offset, |data|);
    }
  }

  lemma PwriteKeepsNumber(v: Vol, w: World, f: nat, offset: nat, data: Buffer)
    requires v.disk == w.disk && Sound(w) && f in w.files && offset + |data| < ID_LIMIT - 1
    requires Pwrite(v, w.files[f], offset, data).status == Done
    ensures Pwrite(v, w.files[f], offset, data).ino.id == w.files[f].id
  {
    hide PwriteLoop;
    var w', done := LoopEnds(v, w, f, offset, data, PwriteLoop(v, w.files[f], offset, data));
  }

  // ----- runs ------------------------------------------------------------

  /** The state after a run of calls. */
  function RunCalls(s: Sys, ops: seq<SysOp>): Sys
    decreases |ops|
  {
    if ops == [] then s else RunCalls(Do(s, ops[0]).sys, ops[1..])
  }

  /** Which calls of a run succeed. */
  function Outcomes(s: Sys, ops: seq<SysOp>): (oks: seq<bool>)
    ensures |oks| == |ops|
    decreases |ops|
  {
    if ops == [] then [] else [Do(s, ops[0]).ok] + Outcomes(Do(s, ops[0]).sys, ops[1..])
  }

  /** Every call is allowed when its turn comes. */
  ghost predicate AllowedRun(view: map<nat, Node>, tidy: bool, ops: seq<SysOp>, oks: seq<bool>)
    requires |oks| == |ops|
    decreases |ops|
  {
    ops == [] || (Allowed(view, tidy, ops[0]) && AllowedRun(Ideal(view, ops[0], oks[0]), tidy, ops[1..], oks[1..]))
  }

  /** The ideal file system after a run, given which calls succeed. */
  ghost function IdealRun(view: map<nat, Node>, tidy: bool, ops: seq<SysOp>, oks: seq<bool>): map<nat, Node>
    requires |oks| == |ops| && AllowedRun(view, tidy, ops, oks)
    decreases |ops|
  {
    if ops == [] then view else IdealRun(Ideal(view, ops[0], oks[0]), tidy, ops[1..], oks[1..])
  }

  /** How often the calls of a run find the head of the free chain full when they free a
      block. */
  function RunSpills(s: Sys, ops: seq<SysOp>): nat
    decreases |ops|
  {
    if ops == [] then 0 else SpillsOf(s, ops[0]) + RunSpills(Do(s, ops[0]).sys, ops[1..])
  }

  /** The run releases no file. */
  predicate NoRelease(ops: seq<SysOp>)
    decreases |ops|
  {
    ops == [] || (!ops[0].DoRelease? && NoRelease(ops[1..]))
  }

  lemma {:induction false} NoReleaseNoSpills(s: Sys, ops: seq<SysOp>)
    requires NoRelease(ops)
    ensures RunSpills(s, ops) == 0
    decreases |ops|
  {
    if ops != [] {
      NoReleaseNoSpills(Do(s, ops[0]).sys, ops[1..]);
    }
  }

  /** Over every run of calls, failing ones included, the disk and the cache stand for the
      ideal file system, every data block has exactly one owner, the counters keep their
      meaning, and no slot behind the last inode changes.  No block is lost unless a file
      is released or a call fails. */
  lemma {:induction false} RunRefines(s: Sys, w: World, hurt: set<nat>, tidy: bool, ops: seq<SysOp>)
    returns (w': World, hurt': set<nat>)
    requires SysInv(s, w, hurt) && TidyOn(s, tidy) && AllowedRun(View(w, hurt), tidy, ops, Outcomes(s, ops))
    ensures SysInv(RunCalls(s, ops), w', hurt')
    ensures View(w', hurt') == IdealRun(View(w, hurt), tidy, ops, Outcomes(s, ops))
    ensures SameBehind(s.vol.disk, RunCalls(s, ops).vol.disk)
    ensures CountsOn(s.vol, w.free, RunCalls(s, ops).vol, w'.free, RunSpills(s, ops))
    ensures w.lost <= w'.lost && (NoRelease(ops) && false !in Outcomes(s, ops) ==> w'.lost == w.lost)
    decreases |ops|
  {
    hide Do, Ideal, Allowed, SpillsOf, SysInv, SameBehind, TidyOn;
    if ops == [] {
      w', hurt' := w, hurt;
      InodeBlocksSame(s.vol.disk, s.vol.disk);
    } else {
      var w1, hurt1 := StepRefines(s, w, hurt, tidy, ops[0]);
      var s1 := Do(s, ops[0]).sys;
      assert Outcomes(s, ops)[1..] == Outcomes(s1, ops[1..]);
      w', hurt' := RunRefines(s1, w1, hurt1, tidy, ops[1..]);
      SameBehindTrans(s.vol.disk, s1.vol.disk, RunCalls(s, ops).vol.disk);
      CountsOnTrans(s.vol, w.free, s1.vol, w1.free, RunCalls(s, ops).vol, w'.free,
                    SpillsOf(s, ops[0]), RunSpills(s1, ops[1..]));
    }
  }

  lemma CountsOnTrans(a: Vol, s: Stack, b: Vol, t: Stack, c: Vol, u: Stack, k: nat, l: nat)
    requires CountsOn(a, s, b, t, k) && CountsOn(b, t, c, u, l)
    ensures CountsOn(a, s, c, u, k + l)
  {
    forall n: nat | Counts(a, s, n) ensures Counts(c, u, n + (k + l)) {
      assert Counts(b, t, n + k) && Counts(c, u, (n + k) + l);
    }
  }

  // ----- isolation -------------------------------------------------------

  /** The call is about file n. */
  predicate Concerns(op: SysOp, n: nat) {
    match op
    case DoWrite(m, _, _) => m == n
    case DoEnter(m, _, _) => m == n
    case DoLeave(m, _, _) => m == n
    case DoRelease(m) => m == n
    case _ => false
  }

  /** No call of the run is about file n. */
  predicate Spares(ops: seq<SysOp>, n: nat)
    decreases |ops|
  {
    ops == [] || (!Concerns(ops[0], n) && Spares(ops[1..], n))
  }

  lemma StepIsolates(view: map<nat, Node>, op: SysOp, ok: bool, n: nat)
    requires Allowed(view, true, op) && n in view && !Concerns(op, n)
    requires (op.DoMakeFile? || op.DoMakeDir?) && ok ==> FirstFree(view, 1) !in view
    ensures n in Ideal(view, op, ok) && Ideal(view, op, ok)[n] == view[n]
  {}

  /** No call, failing or not, changes a file it is not about: not its bytes, not its
      entries. */
  lemma {:induction false} RunIsolates(s: Sys, w: World, hurt: set<nat>, tidy: bool, ops: seq<SysOp>, n: nat)
    returns (w': World, hurt': set<nat>)
    requires SysInv(s, w, hurt) && TidyOn(s, tidy) && AllowedRun(View(w, hurt), tidy, ops, Outcomes(s, ops))
    requires n in w.files
    requires Spares(ops, n)
    ensures SysInv(RunCalls(s, ops), w', hurt') && n in w'.files && View(w', hurt')[n] == View(w, hurt)[n]
    decreases |ops|
  {
    if ops == [] {
      w', hurt' := w, hurt;
    } else {
      var w1, hurt1 := StepRefines(s, w, hurt, tidy, ops[0]);
      StepIsolates(View(w, hurt), ops[0], Do(s, ops[0]).ok, n);
      assert n in View(w1, hurt1);
      assert Outcomes(s, ops)[1..] == Outcomes(Do(s, ops[0]).sys, ops[1..]);
      w', hurt' := RunIsolates(Do(s, ops[0]).sys, w1, hurt1, tidy, ops[1..], n);
    }
  }

  /** What get_inode finds of an ordinary file. */
  lemma GotFile(s: Sys, w: World, hurt: set<nat>, n: nat) returns (ino: Inode)
    requires SysInv(s, w, hurt) && n in w.files && View(w, hurt)[n].FileNode?
    ensures GetInode(s.cache, s.vol.disk, n).ok && GetInode(s.cache, s.vol.disk, n).ino == ino
    ensures FileInv(s.vol.disk, ino) && OnDisk(s.vol.disk, ino) && Content(s.vol.disk, ino) == View(w, hurt)[n].bytes
  {
    ino := w.files[n];
    ViewKind(w, hurt, n);
    assert Kept(w.disk, ino, false);
    GetLive(s.cache, s.vol.disk, w.files, n);
    SoundOnDisk(w, n);
  }

  /** A read of an ordinary file returns what the ideal file holds, but nothing behind its
      size taken as an int; a read past the end of a file of whole blocks is filled up with
      zeros. */
  lemma ReadIdeal(s: Sys, w: World, hurt: set<nat>, n: nat, nbyte: ByteCount, offset: nat)
    requires SysInv(s, w, hurt) && n in w.files && View(w, hurt)[n].FileNode?
    ensures var r, c := ReadFile(s, n, nbyte, offset), View(w, hurt)[n].bytes;
      r.Read? && r.bytes == Delivered(c, nbyte, offset)
  {
    var ino := GotFile(s, w, hurt, n);
    ReadFound(s, n, ino, nbyte, offset);
  }

  lemma ReadFound(s: Sys, n: nat, ino: Inode, nbyte: ByteCount, offset: nat)
    requires GetInode(s.cache, s.vol.disk, n).ok && GetInode(s.cache, s.vol.disk, n).ino == ino
    requires FileInv(s.vol.disk, ino) && OnDisk(s.vol.disk, ino)
    ensures var r, c := ReadFile(s, n, nbyte, offset), Content(s.vol.disk, ino);
      r.Read? && r.bytes == Delivered(c, nbyte, offset)
  {
    PreadReturns(s.vol.disk, ino, nbyte, offset);
  }

  /** The scan of namei finds in a directory what the ideal directory holds. */
  lemma LookupIdeal(s: Sys, w: World, hurt: set<nat>, n: nat, name: seq<byte>, b: Block)
    requires SysInv(s, w, hurt) && n in w.files && View(w, hurt)[n].DirNode? && name != []
    ensures var got, entries := GetInode(s.cache, s.vol.disk, n), View(w, hurt)[n].entries;
      && got.ok
      && DirLookup(s.vol.disk, got.ino, 0, name, b) == if name in entries then entries[name] else -1
  {
    ViewKind(w, hurt, n);
    DirIsWell(w, n, hurt);
    GetLive(s.cache, s.vol.disk, w.files, n);
    LookupIsMap(w.disk, w.files[n], name, b);
  }

  /** Every name of up to 59 bytes can be entered, if there is room, and is found then. */
  lemma NameIsFound(s: Sys, w: World, hurt: set<nat>, n: nat, id: nat, name: seq<byte>, b: Block)
    requires SysInv(s, w, hurt) && n in w.files && View(w, hurt)[n].DirNode? && name !in View(w, hurt)[n].entries
    requires 1 <= |name| <= 59 && (forall i :: 0 <= i < |name| ==> name[i] != 0) && 0 < id < 0x8000_0000
    requires w.files[n].numBlocks < MAX_INDEX && |Ids(w.free)| >= 4
    ensures var r := Do(s, DoEnter(n, id, name));
      r.ok && DirLookup(r.sys.vol.disk, GetInode(r.sys.cache, r.sys.vol.disk, n).ino, 0, name, b) == id
  {
    hide Do, DirLookup, SysInv, View, GetInode;
    EntriesFill(name);
    var w' := Entered(s, w, hurt, n, id, name);
    LookupIdeal(Do(s, DoEnter(n, id, name)).sys, w', hurt, n, name, b);
  }

  /** With enough room a new name is entered. */
  lemma Entered(s: Sys, w: World, hurt: set<nat>, n: nat, id: nat, name: seq<byte>) returns (w': World)
    requires SysInv(s, w, hurt) && n in w.files && View(w, hurt)[n].DirNode? && name !in View(w, hurt)[n].entries
    requires 0 < id < 0x8000_0000 && IsName(name) && name != []
    requires w.files[n].numBlocks < MAX_INDEX && |Ids(w.free)| >= 4
    ensures var r := Do(s, DoEnter(n, id, name));
      && r.ok && SysInv(r.sys, w', hurt) && n in w'.files
      && View(w', hurt)[n] == DirNode(View(w, hurt)[n].entries[name := id])
  {
    hide Enter, Dir, SysInv, NodeOf;
    EnterSucceeds(s, w, hurt, n, id, name);
    DirEntries(s, w, hurt, n);
    w' := EnterKeeps(s, w, n, id, name, hurt);
    assert n in View(w', hurt);
  }

  lemma DirEntries(s: Sys, w: World, hurt: set<nat>, n: nat)
    requires SysInv(s, w, hurt) && n in w.files && View(w, hurt)[n].DirNode?
    ensures w.files[n].kind == TYPE_DIRECTORY && View(w, hurt)[n].entries == Dir(w.disk, w.files[n])
  {
    ViewKind(w, hurt, n);
  }

  /** What lstat shows in every reachable state: the number of the file, one link, the size of
      the ideal file and the number of its mapped blocks; for a directory the size of its
      blocks, and no block count. */
  lemma StatShows(s: Sys, w: World, hurt: set<nat>, n: nat)
    requires SysInv(s, w, hurt) && n in w.files && n !in hurt
    ensures var st, node := Lstat(s, n), View(w, hurt)[n];
      && st.number == n && st.links == 1
      && (node.FileNode? ==> st.blocks == |Mapped(w.disk, w.files[n])|
                             && (|node.bytes| < ID_LIMIT ==> st.size == |node.bytes|))
      && (node.DirNode? ==> st.blocks == 0
                            && (|Pages(w.disk, w.files[n])| * BLOCK_SIZE < ID_LIMIT ==>
                                  st.size == |Pages(w.disk, w.files[n])| * BLOCK_SIZE))
  {
    ViewKind(w, hurt, n);
    assert Kept(w.disk, w.files[n], false);
    GetLive(s.cache, s.vol.disk, w.files, n);
    TimesIsMul(w.files[n].numBlocks, BLOCK_SIZE);
  }

  /** Bytes written to a file are read back after any run of calls about other files,
      exactly when they start below the size taken as an int. */
  lemma WriteSurvives(s: Sys, w: World, hurt: set<nat>, tidy: bool, n: nat, offset: nat, data: Buffer,
                      ops: seq<SysOp>)
    requires SysInv(s, w, hurt) && TidyOn(s, tidy) && n in w.files && View(w, hurt)[n].FileNode?
    requires var r := Do(s, DoWrite(n, offset, data));
      r.ok && AllowedRun(Ideal(View(w, hurt), DoWrite(n, offset, data), true), tidy, ops, Outcomes(r.sys, ops))
    requires Spares(ops, n)
    ensures var r := ReadFile(RunCalls(Do(s, DoWrite(n, offset, data)).sys, ops), n, |data|, offset);
      && r.Read?
      && (r.bytes == data
          <==> data == [] || offset < ToInt(Max(|View(w, hurt)[n].bytes|, offset + |data|)))
  {
    var op := DoWrite(n, offset, data);
    var w1, hurt1 := StepRefines(s, w, hurt, tidy, op);
    assert View(w1, hurt1) == Ideal(View(w, hurt), op, true);
    assert n in View(w1, hurt1);
    WrittenSurvives(Do(s, op).sys, w1, hurt1, tidy, n, View(w, hurt)[n].bytes, offset, data, ops);
  }

  lemma WrittenSurvives(s: Sys, w: World, hurt: set<nat>, tidy: bool, n: nat, was: seq<byte>, offset: nat,
                        data: Buffer, ops: seq<SysOp>)
    requires SysInv(s, w, hurt) && TidyOn(s, tidy) && n in w.files
    requires View(w, hurt)[n] == FileNode(Overlay(was, offset, data))
    requires AllowedRun(View(w, hurt), tidy, ops, Outcomes(s, ops)) && Spares(ops, n)
    ensures var r := ReadFile(RunCalls(s, ops), n, |data|, offset);
      r.Read? && (r.bytes == data <==> data == [] || offset < ToInt(Max(|was|, offset + |data|)))
  {
    var w', hurt' := RunIsolates(s, w, hurt, tidy, ops, n);
    ReadWritten(RunCalls(s, ops), w', hurt', n, was, offset, data);
  }

  lemma ReadWritten(s: Sys, w: World, hurt: set<nat>, n: nat, was: seq<byte>, offset: nat, data: Buffer)
    requires SysInv(s, w, hurt) && n in w.files
    requires View(w, hurt)[n] == FileNode(Overlay(was, offset, data))
    ensures var r := ReadFile(s, n, |data|, offset);
      r.Read? && (r.bytes == data <==> data == [] || offset < ToInt(Max(|was|, offset + |data|)))
  {
    var ino := GotFile(s, w, hurt, n);
    ReadBack(s.vol.disk, ino, was, offset, data);
  }

  // ----- from mkfs -------------------------------------------------------

  /** What the buffers of create_fs hold before they are first written. */
  datatype Leftovers = Leftovers(list: Block, page: Block, inode: Inode)

  /** create_fs on a disk with arbitrary contents, with an empty cache. */
  function Boot(d: Disk, left: Leftovers): SysResult {
    MakeDir(Sys(EMPTY_CACHE, Format(d, left.list)), 1, left.page, left.inode)
  }

  /** main, up to the first call: create_fs, then init_superblock. */
  function Start(d: Disk, left: Leftovers): SysResult {
    var r := Boot(d, left);
    if !r.ok then r else SysResult(Sys(r.sys.cache, InitSuperblock(r.sys.vol.disk)), true)
  }

  /** What a user finds after mkfs: the root directory, with "." and "..". */
  const ROOT_ONLY: map<nat, Node> := map[1 := DirNode(map[DOT := 1, DOT_DOT := 1])]

  /** The state before the root directory is made. */
  lemma FormatInv(d: Disk, buffer: Block) returns (w: World)
    ensures SysInv(Sys(EMPTY_CACHE, Format(d, buffer)), w, {}) && w.files == map[] && w.lost == {}
    ensures Counts(Format(d, buffer), w.free, 0) && forall x: word :: x in Ids(w.free) <==> IsData(x)
  {
    var s := FormatFreeList(d, buffer);
    FormatTable(d, buffer);
    w := EmptyInv(Format(d, buffer), s);
    assert Rem(LISTED_BLOCKS, ID_LIMIT) == LISTED_BLOCKS;
  }

  /** A volume without files whose data blocks are all free. */
  lemma EmptyInv(v: Vol, s: Stack) returns (w: World)
    requires FreeInv(v.disk, s) && (forall x: word :: x in Ids(s) <==> IsData(x))
    requires Slots(v.disk, map[]) && v.freeInodes == NUM_INODES && Committed(v)
    ensures SysInv(Sys(EMPTY_CACHE, v), w, {}) && w == World(v.disk, map[], s, {})
  {
    w := World(v.disk, map[], s, {});
    forall c ensures !IsCell(w.files, c) {
      NoCells(w.files, c);
    }
    IdsAreData(s);
  }

  lemma {:induction false} NoCells(files: map<nat, Inode>, c: Cell)
    requires files == map[]
    ensures !IsCell(files, c)
  {
    if c.Slot? {
      NoCells(files, c.list);
    }
  }

  /** mkfs succeeds exactly when there is a data block behind the head, and then makes a
      file system that holds the root directory as inode 1 and nothing else. */
  lemma BootMakesRoot(d: Disk, left: Leftovers) returns (w: World)
    ensures Boot(d, left).ok <==> NUM_BLOCKS > HEAD + 1
    ensures Boot(d, left).ok ==>
      && SysInv(Boot(d, left).sys, w, {}) && w.lost == {}
      && Counts(Boot(d, left).sys.vol, w.free, 0)
      && View(w, {}) == ROOT_ONLY && SameBehind(d, Boot(d, left).sys.vol.disk)
  {
    var s0 := Sys(EMPTY_CACHE, Format(d, left.list));
    w := FormatInv(d, left.list);
    FormatBehind(d, left.list);
    AllocPops(s0.vol, w.free);
    AnyData(w.free);
    if NUM_BLOCKS > HEAD + 1 {
      assert View(w, {}) == map[];
      w := MakeDirKeeps(s0, w, 1, left.page, left.inode, {});
      SameBehindTrans(d, s0.vol.disk, Boot(d, left).sys.vol.disk);
    }
  }

  /** mkfs does not write the slots behind the last inode. */
  lemma FormatBehind(d: Disk, buffer: Block)
    ensures SameBehind(d, Format(d, buffer).disk)
  {
    FormatTable(d, buffer);
  }

  lemma AnyData(s: Stack)
    requires forall x: word :: x in Ids(s) <==> IsData(x)
    ensures s.Empty? <==> NUM_BLOCKS <= HEAD + 1
  {
    if NUM_BLOCKS > HEAD + 1 {
      var x: word := HEAD + 1;
      assert IsData(x);
    }
    if !s.Empty? {
      assert s.id in Ids(s);
    }
  }

  /** main fails when create_fs does, and otherwise starts with what create_fs made. */
  lemma StartIsBoot(d: Disk, left: Leftovers)
    ensures Start(d, left) == Boot(d, left)
  {
    if Boot(d, left).ok {
      var w := BootMakesRoot(d, left);
      InitReadsCommitted(Boot(d, left).sys.vol);
    }
  }

  /** Over every run of calls from mkfs on, failing ones included, the file system refines
      the ideal one and keeps its invariant; num_free_blocks is the number of listed blocks
      plus the frees that found the head full, as long as that fits 64 bits. */
  lemma RunFromBoot(d: Disk, left: Leftovers, tidy: bool, ops: seq<SysOp>) returns (w: World, hurt: set<nat>)
    requires Boot(d, left).ok && (tidy ==> NoStraySlots(d))
    requires AllowedRun(ROOT_ONLY, tidy, ops, Outcomes(Boot(d, left).sys, ops))
    ensures var s0 := Boot(d, left).sys;
      var s := RunCalls(s0, ops);
      && SysInv(s, w, hurt) && View(w, hurt) == IdealRun(ROOT_ONLY, tidy, ops, Outcomes(s0, ops))
      && (RunSpills(s0, ops) + NUM_BLOCKS < ID_LIMIT ==> s.vol.freeBlocks == Listed(w.free) + RunSpills(s0, ops))
      && (NoRelease(ops) ==> s.vol.freeBlocks == Listed(w.free))
      && (NoRelease(ops) && false !in Outcomes(s0, ops) ==> w.lost == {})
  {
    var s0 := Boot(d, left).sys;
    var w0 := BootMakesRoot(d, left);
    BehindKeepsStrays(d, s0.vol.disk);
    w, hurt := RunRefines(s0, w0, {}, tidy, ops);
    assert Counts(RunCalls(s0, ops).vol, w.free, 0 + RunSpills(s0, ops));
    if NoRelease(ops) {
      NoReleaseNoSpills(s0, ops);
    }
    if RunSpills(s0, ops) + NUM_BLOCKS < ID_LIMIT {
      CountsExact(RunCalls(s0, ops).vol, w.free, RunSpills(s0, ops));
    }
  }

  /** A restart at any point of such a run finds the root directory and nothing else,
      because main makes a new file system each time; it keeps the files exactly when
      there were none but an empty root directory. */
  lemma RestartReformats(d: Disk, left: Leftovers, tidy: bool, ops: seq<SysOp>, left': Leftovers)
    returns (w: World, hurt: set<nat>, w': World)
    requires Boot(d, left).ok && (tidy ==> NoStraySlots(d))
    requires AllowedRun(ROOT_ONLY, tidy, ops, Outcomes(Boot(d, left).sys, ops))
    ensures var s0 := Boot(d, left).sys;
      var s := RunCalls(s0, ops);
      var r := Start(s.vol.disk, left');
      && SysInv(s, w, hurt) && View(w, hurt) == IdealRun(ROOT_ONLY, tidy, ops, Outcomes(s0, ops))
      && r.ok && SysInv(r.sys, w', {}) && View(w', {}) == ROOT_ONLY
      && (View(w', {}) == View(w, hurt) <==> IdealRun(ROOT_ONLY, tidy, ops, Outcomes(s0, ops)) == ROOT_ONLY)
  {
    w, hurt := RunFromBoot(d, left, tidy, ops);
    var w0 := BootMakesRoot(d, left);
    var e := RunCalls(Boot(d, left).sys, ops).vol.disk;
    w' := BootMakesRoot(e, left');
    StartIsBoot(e, left');
  }

  /** On a disk of zeros no slot behind the last inode is mistaken for a free one. */
  lemma ZeroedHasNoStrays(d: Disk)
    requires forall x :: 1 <= x < HEAD ==> d[x] == ZERO
    ensures NUM_INODES <= ALL_SLOTS && NoStraySlots(d)
  {
    TableHoldsInodes();
    ZeroSlots(d, NUM_INODES + 1);
    ScanBehind(d, NUM_INODES + 1);
  }

  lemma {:induction false} ZeroSlots(d: Disk, n: nat)
    requires 1 <= n && forall x :: 1 <= x < HEAD ==> d[x] == ZERO
    ensures NextFree(d, n) == -1
    decreases ALL_SLOTS + 1 - n
  {
    if n <= ALL_SLOTS {
      ZeroWords();
      SlotInTable(n);
      SlotIsStored(d, n);
      ZeroSlots(d, n + 1);
    }
  }
}
