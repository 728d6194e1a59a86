/** The inode cache under whole runs of calls: it holds the inodes the calls were last about. */
module CacheRuns {
  import opened Geometry
  import opened BlockMap
  import opened Ownership
  import opened FileIO
  import opened Inodes
  import opened InodeCache
  import opened CacheLaws
  import opened Descriptors
  import opened Directory
  import opened Mkfs
  import opened FreeList
  import opened FileSystem
  import opened SystemInv
  import opened SystemLaws
  import opened AbortLaws
  import opened SystemRuns
  import opened Syscalls
  import opened SyscallLaws
  import opened CallRuns

  // ----- which inode a call is about -------------------------------------

  datatype Subject = Nothing | Number(n: nat)

  /** The inode a call on the file system uses: the one it names, or the one it makes. */
  ghost function SubjectOf(view: map<nat, Node>, op: SysOp, ok: bool): Subject {
    if !InBounds(op) then Nothing
    else
      match op
      case DoMakeFile(_) => if ok then Number(FirstFree(view, 1)) else Nothing
      case DoMakeDir(_, _, _) => if ok then Number(FirstFree(view, 1)) else Nothing
      case DoWrite(n, _, _) => Number(n)
      case DoEnter(n, _, _) => Number(n)
      case DoLeave(n, _, _) => Number(n)
      case DoRelease(n) => Number(n)
      case DoVisit(n) => Number(n)
  }

  /** The inode a call through a descriptor uses. */
  ghost function SubjectOfCall(desk: Desk, q: Request, ok: bool): Subject {
    match q
    case AskOpen(_, _, n) => Number(n)
    case AskClose(_, _) => Nothing
    case AskRead(pid, fd, _, _) =>
      if ForReading(desk.open, pid, fd) && Target(desk.open, pid, fd) >= 0 then Number(Target(desk.open, pid, fd))
      else Nothing
    case AskWrite(pid, fd, offset, data) =>
      if ForWriting(desk.open, pid, fd) && Target(desk.open, pid, fd) >= 0 && offset + |data| < ID_LIMIT - 1
      then Number(Target(desk.open, pid, fd))
      else Nothing
    case AskSystem(op) => SubjectOf(desk.view, op, ok)
  }

  /** The inodes in order of last use, after one more use. */
  function Used(line: Line, x: Subject): Line {
    if x.Number? && x.n < ID_LIMIT then Touch(line, x.n) else line
  }

  /** The cache after a use: the newest MAX_CACHE_SIZE - 1 inodes. */
  ghost predicate UsedIn(c: Cache, c': Cache, x: Subject) {
    c'.order == Newest(Used(c.order, x), MAX_CACHE_SIZE - 1)
  }

  lemma UsedNothing(c: Cache)
    requires Length(c.order) < MAX_CACHE_SIZE
    ensures UsedIn(c, c, Nothing)
  {
    NewestAll(c.order, MAX_CACHE_SIZE - 1);
  }

  /** Using an inode twice is using it once. */
  lemma UsedTwice(a: Cache, b: Cache, c: Cache, n: word)
    requires UsedIn(a, b, Number(n)) && UsedIn(b, c, Number(n))
    ensures UsedIn(a, c, Number(n))
  {
    NewestTouch(Touch(a.order, n), n, MAX_CACHE_SIZE - 1);
  }

  /** get_inode of a live file uses it. */
  lemma GetUses(c: Cache, d: Disk, files: map<nat, Inode>, n: nat)
    requires CacheOk(c, files) && Slots(d, files) && n in files
    ensures n < ID_LIMIT && UsedIn(c, GetInode(c, d, n).cache, Number(n))
    ensures GetInode(c, d, n).ino == files[n] && CacheOk(GetInode(c, d, n).cache, files)
  {
    hide SlotOf, Without;
    GetLive(c, d, files, n);
    NewestAll(c.order, MAX_CACHE_SIZE - 1);
    if n in c.at {
      LruHit(c, c.order, n);
    } else {
      PutCacheLaws(c, files[n]);
    }
  }

  /** put_inode uses the inode. */
  lemma PutUses(c: Cache, v: Vol, ino: Inode)
    requires CacheInv(c) && Length(c.order) < MAX_CACHE_SIZE && IsInode(ino.id)
    ensures UsedIn(c, PutBack(c, v, ino).sys.cache, Number(ino.id))
  {
    hide Iput;
    IputKeepsId(v, ino);
    PutCacheLaws(c, Iput(v, ino).ino);
  }

  /** get_inode and put_inode of one file. */
  lemma GetPutUses(c: Cache, d: Disk, files: map<nat, Inode>, n: nat, v: Vol, ino: Inode)
    requires CacheOk(c, files) && Slots(d, files) && n in files && ino.id == n && IsInode(n)
    ensures UsedIn(c, PutBack(GetInode(c, d, n).cache, v, ino).sys.cache, Number(n))
  {
    hide PutBack, GetInode;
    GetUses(c, d, files, n);
    PutUses(GetInode(c, d, n).cache, v, ino);
    UsedTwice(c, GetInode(c, d, n).cache, PutBack(GetInode(c, d, n).cache, v, ino).sys.cache, n);
  }

  // ----- one call on the file system -------------------------------------

  /** A call uses the inode it is about, and no other. */
  lemma StepUses(s: Sys, w: World, hurt: set<nat>, tidy: bool, op: SysOp)
    requires SysInv(s, w, hurt) && TidyOn(s, tidy) && Allowed(View(w, hurt), tidy, op)
    ensures UsedIn(s.cache, Do(s, op).sys.cache, SubjectOf(View(w, hurt), op, Do(s, op).ok))
  {
    hide UsedIn, SysInv, MakeFile, MakeDir, WriteFile, Enter, Leave, Release, Visit, TidyOn;
    if !InBounds(op) {
      NothingUsed(s, w, hurt);
    } else {
      match op {
        case DoMakeFile(stale) => MakeFileUses(s, w, hurt, tidy, stale);
        case DoMakeDir(parent, scratch, stale) => MakeDirUses(s, w, hurt, tidy, parent, scratch, stale);
        case DoWrite(n, offset, data) => WriteUses(s, w, hurt, n, offset, data);
        case DoEnter(n, id, name) => EnterUses(s, w, hurt, n, id, name);
        case DoLeave(n, id, _) => LeaveUses(s, w, hurt, n, id);
        case DoRelease(n) => ReleaseUses(s, w, hurt, n);
        case DoVisit(n) => VisitUses(s, w, hurt, n);
      }
    }
  }

  lemma NothingUsed(s: Sys, w: World, hurt: set<nat>)
    requires SysInv(s, w, hurt)
    ensures UsedIn(s.cache, s.cache, Nothing)
  {
    UsedNothing(s.cache);
  }

  lemma MakeFileUses(s: Sys, w: World, hurt: set<nat>, tidy: bool, stale: Inode)
    requires SysInv(s, w, hurt) && TidyOn(s, tidy) && Allowed(View(w, hurt), tidy, DoMakeFile(stale))
    ensures UsedIn(s.cache, MakeFile(s, stale).sys.cache,
                   if MakeFile(s, stale).ok then Number(FirstFree(View(w, hurt), 1)) else Nothing)
  {
    hide UsedIn, PutBack, Ialloc;
    ViewRoom(s, w, hurt);
    if |w.files.Keys| < NUM_INODES {
      var n := IallocNew(s.vol, w.files, stale);
      FirstInView(w, n, hurt);
      PutUses(s.cache, Ialloc(s.vol, stale).vol, Ialloc(s.vol, stale).ino.(kind := TYPE_ORDINARY));
    } else {
      IallocFull(s.vol, w.files, stale);
      UsedNothing(s.cache);
    }
  }

  lemma MakeDirUses(s: Sys, w: World, hurt: set<nat>, tidy: bool, parent: nat, scratch: Block, stale: Inode)
    requires SysInv(s, w, hurt) && TidyOn(s, tidy) && 0 < parent < 0x8000_0000
    requires Allowed(View(w, hurt), tidy, DoMakeDir(parent, scratch, stale))
    ensures UsedIn(s.cache, MakeDir(s, parent, scratch, stale).sys.cache,
                   if MakeDir(s, parent, scratch, stale).ok then Number(FirstFree(View(w, hurt), 1)) else Nothing)
  {
    hide UsedIn, PutBack, MakeDir, Alloc, Ialloc;
    ViewRoom(s, w, hurt);
    AllocPops(s.vol, w.free);
    UsedNothing(s.cache);
    if w.free.Empty? {
      MakeDirStops(s, parent, scratch, stale);
    } else if |w.files.Keys| == NUM_INODES {
      var w' := FullLoses(s, w, stale, hurt);
      MakeDirStops(s, parent, scratch, stale);
    } else {
      var r, n, b, v, ino := MakeDirParts(s, w, parent, scratch, stale);
      FirstInView(w, n, hurt);
      PutUses(s.cache, v, ino);
    }
  }

  lemma WriteUses(s: Sys, w: World, hurt: set<nat>, n: nat, offset: nat, data: Buffer)
    requires SysInv(s, w, hurt) && n in w.files && offset + |data| < ID_LIMIT - 1
    ensures UsedIn(s.cache, WriteFile(s, n, offset, data).sys.cache, Number(n))
  {
    hide UsedIn, PutBack, Pwrite, GetInode, WriteFile;
    GetUses(s.cache, s.vol.disk, w.files, n);
    var r := Pwrite(s.vol, w.files[n], offset, data);
    WriteFileIs(s, n, offset, data, w.files[n]);
    if r.status == Done {
      PwriteKeepsNumber(s.vol, w, n, offset, data);
      GetPutUses(s.cache, s.vol.disk, w.files, n, r.vol, r.ino);
    }
  }

  lemma EnterUses(s: Sys, w: World, hurt: set<nat>, n: nat, id: nat, name: seq<byte>)
    requires SysInv(s, w, hurt) && n in w.files && InBounds(DoEnter(n, id, name))
    ensures UsedIn(s.cache, Enter(s, n, id, name).sys.cache, Number(n))
  {
    hide UsedIn, PutBack, DirAdd, GetInode;
    GetUses(s.cache, s.vol.disk, w.files, n);
    var r := DirAdd(s.vol, w.files[n], id, name);
    DirAddKeepsNumber(s.vol, w, n, id, name);
    GetPutUses(s.cache, s.vol.disk, w.files, n, r.vol, r.ino);
  }

  lemma LeaveUses(s: Sys, w: World, hurt: set<nat>, n: nat, id: nat)
    requires SysInv(s, w, hurt) && n in w.files
    ensures UsedIn(s.cache, Leave(s, n, id).sys.cache, Number(n))
  {
    hide UsedIn, PutBack, DirRemove, GetInode;
    GetUses(s.cache, s.vol.disk, w.files, n);
    GetPutUses(s.cache, s.vol.disk, w.files, n, DirRemove(s.vol, w.files[n], 0, id).vol, w.files[n]);
  }

  lemma ReleaseUses(s: Sys, w: World, hurt: set<nat>, n: nat)
    requires SysInv(s, w, hurt) && n in w.files
    ensures UsedIn(s.cache, Release(s, n).sys.cache, Number(n))
  {
    hide UsedIn, PutBack, GetInode;
    GetUses(s.cache, s.vol.disk, w.files, n);
    GetPutUses(s.cache, s.vol.disk, w.files, n, s.vol, w.files[n].(links := 0));
  }

  lemma VisitUses(s: Sys, w: World, hurt: set<nat>, n: nat)
    requires SysInv(s, w, hurt) && n in w.files
    ensures UsedIn(s.cache, Visit(s, n).sys.cache, Number(n))
  {
    GetUses(s.cache, s.vol.disk, w.files, n);
  }

  // ----- one call through a descriptor -----------------------------------

  lemma ServeUses(m: Machine, w: World, hurt: set<nat>, tidy: bool, q: Request)
    requires SysInv(m.sys, w, hurt) && Inv(m.tables)
    requires TidyOn(m.sys, tidy) && Permitted(DeskOf(w, hurt, m.tables), tidy, q)
    ensures UsedIn(m.sys.cache, Next(m, q).sys.cache,
                   SubjectOfCall(DeskOf(w, hurt, m.tables), q, Reply(m, q).result >= 0))
  {
    hide UsedIn, SysInv, Inv, View, Abstract, TidyOn, Do, OpenCall, CloseCall, PreadCall, PwriteCall, WriteFile;
    match q {
      case AskOpen(pid, mode, n) => OpenUses(m, w, hurt, pid, mode, n);
      case AskClose(pid, fd) =>
        NothingUsed(m.sys, w, hurt);
        CloseLeaves(m.sys, m.tables, pid, fd);
      case AskRead(pid, fd, nbyte, offset) => ReadUses(m, w, hurt, pid, fd, nbyte, offset);
      case AskWrite(pid, fd, offset, data) => WriteCallUses(m, w, hurt, pid, fd, offset, data);
      case AskSystem(op) => StepUses(m.sys, w, hurt, tidy, op);
    }
  }

  lemma CloseLeaves(s: Sys, tables: Tables, pid: int, fd: nat)
    ensures CloseCall(s, tables, pid, fd).sys == s
  {}

  /** open fetches the inode and puts it back. */
  lemma OpenUses(m: Machine, w: World, hurt: set<nat>, pid: int, mode: Mode, n: nat)
    requires SysInv(m.sys, w, hurt) && n in View(w, hurt)
    ensures UsedIn(m.sys.cache, OpenCall(m.sys, m.tables, pid, mode, n).sys.cache, Number(n))
  {
    hide UsedIn, PutBack, GetInode, Open;
    GetUses(m.sys.cache, m.sys.vol.disk, w.files, n);
    GetPutUses(m.sys.cache, m.sys.vol.disk, w.files, n, m.sys.vol, w.files[n]);
  }

  lemma ReadUses(m: Machine, w: World, hurt: set<nat>, pid: int, fd: nat, nbyte: ByteCount, offset: nat)
    requires SysInv(m.sys, w, hurt) && Inv(m.tables)
    requires Permitted(DeskOf(w, hurt, m.tables), true, AskRead(pid, fd, nbyte, offset))
    ensures UsedIn(m.sys.cache, PreadCall(m.sys, m.tables, pid, fd, nbyte, offset).sys.cache,
                   SubjectOfCall(DeskOf(w, hurt, m.tables), AskRead(pid, fd, nbyte, offset), true))
  {
    hide UsedIn, PutBack, GetInode, PreadCall, Abstract, Inv;
    var open := Abstract(m.tables);
    if ForReading(open, pid, fd) {
      var n := Target(open, pid, fd);
      var c, put := PreadOutcome(m.sys, w, hurt, m.tables, pid, fd, FilesOf(open, pid)[fd].mode, n, nbyte, offset,
                                 PreadCall(m.sys, m.tables, pid, fd, nbyte, offset));
      GetUses(m.sys.cache, m.sys.vol.disk, w.files, n);
      GetPutUses(m.sys.cache, m.sys.vol.disk, w.files, n, m.sys.vol, w.files[n]);
    } else {
      NotOpen(m.tables, pid, fd);
      WrongDescriptor(m.sys, m.tables, pid, fd, nbyte, offset, []);
      UsedNothing(m.sys.cache);
    }
  }

  lemma WriteCallUses(m: Machine, w: World, hurt: set<nat>, pid: int, fd: nat, offset: nat, data: Buffer)
    requires SysInv(m.sys, w, hurt) && Inv(m.tables)
    requires Permitted(DeskOf(w, hurt, m.tables), true, AskWrite(pid, fd, offset, data))
    ensures UsedIn(m.sys.cache, Next(m, AskWrite(pid, fd, offset, data)).sys.cache,
                   SubjectOfCall(DeskOf(w, hurt, m.tables), AskWrite(pid, fd, offset, data), true))
  {
    hide UsedIn, PwriteCall, Abstract, Inv, WriteFile;
    var open := Abstract(m.tables);
    UsedNothing(m.sys.cache);
    if offset + |data| < ID_LIMIT - 1 {
      if ForWriting(open, pid, fd) {
        var n := Target(open, pid, fd);
        PwriteCallIsWrite(m.sys, m.tables, pid, fd, FilesOf(open, pid)[fd].mode, n, offset, data);
        WriteUses(m.sys, w, hurt, n, offset, data);
      } else {
        NotOpen(m.tables, pid, fd);
        WrongDescriptor(m.sys, m.tables, pid, fd, 0, offset, data);
      }
    }
  }

  // ----- runs ------------------------------------------------------------

  /** The inodes a run of calls was about, in order of last use, the most recent one on top. */
  ghost function UsedBy(desk: Desk, tidy: bool, qs: seq<Request>, oks: seq<bool>, line: Line): Line
    requires |oks| == |qs| && PermittedRun(desk, tidy, qs, oks)
    decreases |qs|
  {
    if qs == [] then line
    else
      UsedBy(IdealServe(desk, qs[0], oks[0]).0, tidy, qs[1..], oks[1..],
             Used(line, SubjectOfCall(desk, qs[0], oks[0])))
  }

  lemma UsedMore(c: Cache, c': Cache, line: Line, x: Subject)
    requires c.order == Newest(line, MAX_CACHE_SIZE - 1) && UsedIn(c, c', x)
    ensures c'.order == Newest(Used(line, x), MAX_CACHE_SIZE - 1)
  {
    if x.Number? && x.n < ID_LIMIT {
      NewestTouch(line, x.n, MAX_CACHE_SIZE - 1);
    } else {
      NewestTwice(line, MAX_CACHE_SIZE - 1);
    }
  }

  /** After any run of permitted calls, failing ones included, the cache holds exactly the
      MAX_CACHE_SIZE - 1 inodes the calls were last about, in order of last use. */
  lemma {:induction false} RunUses(m: Machine, w: World, hurt: set<nat>, tidy: bool, qs: seq<Request>, line: Line)
    requires SysInv(m.sys, w, hurt) && Inv(m.tables) && TidyOn(m.sys, tidy)
    requires PermittedRun(DeskOf(w, hurt, m.tables), tidy, qs, Succeeded(m, qs))
    requires m.sys.cache.order == Newest(line, MAX_CACHE_SIZE - 1)
    ensures RunAll(m, qs).sys.cache.order
         == Newest(UsedBy(DeskOf(w, hurt, m.tables), tidy, qs, Succeeded(m, qs), line), MAX_CACHE_SIZE - 1)
    decreases |qs|
  {
    hide Permitted, IdealServe, Next, Reply, SysInv, Inv, DeskOf, NoStraySlots, SameBehind, SubjectOfCall, Used, UsedIn;
    if qs != [] {
      var m1, x := Next(m, qs[0]), SubjectOfCall(DeskOf(w, hurt, m.tables), qs[0], Reply(m, qs[0]).result >= 0);
      var w1, hurt1 := ServeRefines(m, w, hurt, tidy, qs[0]);
      ServeUses(m, w, hurt, tidy, qs[0]);
      UsedMore(m.sys.cache, m1.sys.cache, line, x);
      BehindKeepsStrays(m.sys.vol.disk, m1.sys.vol.disk);
      assert Succeeded(m, qs)[1..] == Succeeded(m1, qs[1..]);
      RunUses(m1, w1, hurt1, tidy, qs[1..], Used(line, x));
    }
  }

  /** So from mkfs on, which leaves the root directory in the cache. */
  lemma RunUsesFromBoot(d: Disk, left: Leftovers, tidy: bool, qs: seq<Request>)
    requires Boot(d, left).ok && (tidy ==> NoStraySlots(d))
    requires var m := Machine(Boot(d, left).sys, map[]);
      PermittedRun(Desk(ROOT_ONLY, map[]), tidy, qs, Succeeded(m, qs))
    ensures var m := Machine(Boot(d, left).sys, map[]);
      RunAll(m, qs).sys.cache.order
      == Newest(UsedBy(Desk(ROOT_ONLY, map[]), tidy, qs, Succeeded(m, qs), Line(Nobody, 1)), MAX_CACHE_SIZE - 1)
  {
    hide Boot, SysInv, RunAll, UsedBy, NoStraySlots, SameBehind;
    var w0 := BootMakesRoot(d, left);
    BehindKeepsStrays(d, Boot(d, left).sys.vol.disk);
    var none: Tables := map[];
    assert Abstract(none) == map[];
    BootUses(d, left);
    NewestAll(Line(Nobody, 1), MAX_CACHE_SIZE - 1);
    RunUses(Machine(Boot(d, left).sys, none), w0, {}, tidy, qs, Line(Nobody, 1));
  }

  lemma BootUses(d: Disk, left: Leftovers)
    requires Boot(d, left).ok
    ensures Boot(d, left).sys.cache.order == Line(Nobody, 1)
  {
    hide MakeDir, Format;
    var s0, op := Sys(EMPTY_CACHE, Format(d, left.list)), DoMakeDir(1, left.page, left.inode);
    var w := FormatInv(d, left.list);
    assert View(w, {}) == map[];
    StepUses(s0, w, {}, false, op);
    NewestAll(Line(Nobody, 1), MAX_CACHE_SIZE - 1);
  }
}
