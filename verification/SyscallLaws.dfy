/** Reads and writes through file descriptors. */
module SyscallLaws {
  import opened Geometry
  import opened Codec
  import opened BlockMap
  import opened Ownership
  import opened FileIO
  import opened WriteLaws
  import opened ReadLaws
  import opened InodeCache
  import opened Descriptors
  import opened FileSystem
  import opened SystemInv
  import opened SystemLaws
  import opened SystemRuns
  import opened Syscalls

  /** Descriptor fd of the process is open, with the mode, on the inode. */
  ghost predicate IsOpen(tables: Tables, pid: int, fd: nat, mode: Mode, n: int) {
    var files := FilesOf(Abstract(tables), pid);
    fd in files && files[fd].mode == mode && files[fd].inodeNumber == n
  }

  lemma OpenEntry(tables: Tables, pid: int, fd: nat, mode: Mode, n: int)
    requires IsOpen(tables, pid, fd, mode, n)
    ensures GetEntry(tables, pid, fd).Found?
    ensures GetEntry(tables, pid, fd).entry.mode == mode && GetEntry(tables, pid, fd).entry.inodeNumber == n
  {}

  /** Assigning the offset of an open descriptor moves it and changes nothing else. */
  lemma SetOffsetMoves(tables: Tables, pid: int, fd: nat, offset: int)
    requires Inv(tables)
    requires fd in FilesOf(Abstract(tables), pid)
    ensures Inv(SetOffset(tables, pid, fd, offset))
    ensures Abstract(SetOffset(tables, pid, fd, offset)) == Move(Abstract(tables), pid, fd, offset)
  {
    if pid in tables && fd < |tables[pid].entries| {
      var t := tables[pid];
      var t' := Table(t.used, t.entries[fd := t.entries[fd].(byteOffset := offset)]);
      assert UsedFds(t'.entries) == UsedFds(t.entries);
      assert OpenFiles(t') == OpenFiles(t)[fd := OpenFiles(t)[fd].(byteOffset := offset)];
      AbstractUpdate(tables, pid, t');
    }
  }

  /** A call through a descriptor that is not open, or not open for it, fails and changes
      nothing. */
  lemma WrongDescriptor(s: Sys, tables: Tables, pid: int, fd: nat, nbyte: ByteCount, offset: nat, data: Buffer)
    requires Inv(tables) && fd > 2
    ensures offset + |data| < ID_LIMIT - 1
            && (forall n :: !IsOpen(tables, pid, fd, WRITE, n) && !IsOpen(tables, pid, fd, READ_WRITE, n)) ==>
      PwriteCall(s, tables, pid, fd, offset, data) == CallResult(s, tables, -1, [])
    ensures (forall n :: !IsOpen(tables, pid, fd, READ, n) && !IsOpen(tables, pid, fd, READ_WRITE, n)) ==>
      PreadCall(s, tables, pid, fd, nbyte, offset) == CallResult(s, tables, -1, [])
  {
    var e := GetEntry(tables, pid, fd);
    if e.Found? {
      assert fd in UsedFds(tables[pid].entries);
      assert IsOpen(tables, pid, fd, e.entry.mode, e.entry.inodeNumber);
    }
  }

  /** A pwrite through a descriptor open for writing does to the file system what the
      write does; the offset moves behind the last byte written, or not at all. */
  lemma PwriteCallIsWrite(s: Sys, tables: Tables, pid: int, fd: nat, mode: Mode, n: nat, offset: nat, data: Buffer)
    requires IsOpen(tables, pid, fd, mode, n) && mode != READ && offset + |data| < ID_LIMIT - 1
    ensures var r, d := PwriteCall(s, tables, pid, fd, offset, data), WriteFile(s, n, offset, data);
      && r.sys == d.sys && r.bytes == [] && r.result == (if d.ok then |data| else -1)
      && r.tables == if d.ok then SetOffset(tables, pid, fd, ToInt(offset + |data|)) else tables
  {
    hide Pwrite, PutBack;
    OpenEntry(tables, pid, fd, mode, n);
  }

  /** A successful pwrite writes all bytes, and does to the file system what the ideal
      write does; the offset of the descriptor moves behind the last byte written, and no
      other descriptor changes. */
  lemma PwriteCallWrites(s: Sys, w: World, hurt: set<nat>, tables: Tables, pid: int, fd: nat, mode: Mode, n: nat,
                         offset: nat, data: Buffer)
    returns (w': World)
    requires SysInv(s, w, hurt) && Inv(tables) && IsOpen(tables, pid, fd, mode, n) && mode != READ
    requires n in w.files && View(w, hurt)[n].FileNode? && offset + |data| < ID_LIMIT - 1
    requires PwriteCall(s, tables, pid, fd, offset, data).result >= 0
    ensures var r := PwriteCall(s, tables, pid, fd, offset, data);
      && r.result == |data| && SysInv(r.sys, w', hurt)
      && View(w', hurt) == View(w, hurt)[n := FileNode(Overlay(View(w, hurt)[n].bytes, offset, data))]
      && Inv(r.tables) && Abstract(r.tables) == Move(Abstract(tables), pid, fd, ToInt(offset + |data|))
  {
    hide PwriteCall, WriteFile;
    PwriteCallIsWrite(s, tables, pid, fd, mode, n, offset, data);
    SetOffsetMoves(tables, pid, fd, ToInt(offset + |data|));
    ViewKind(w, hurt, n);
    w' := WriteKeeps(s, w, n, offset, data, hurt);
  }

  /** put_inode of an inode that was not changed. */
  lemma PutUnchanged(c: Cache, s: Sys, w: World, hurt: set<nat>, n: nat) returns (w': World)
    requires SysInv(s, w, hurt) && CacheOk(c, w.files) && n in w.files
    ensures PutBack(c, s.vol, w.files[n]).ok
    ensures Reaches(s.vol, w, PutBack(c, s.vol, w.files[n]), w', View(w, hurt), w.lost, 0, hurt)
  {
    assert w.files == w.files[n := w.files[n]];
    w' := Complete(c, s.vol, w, w, n, hurt);
  }

  lemma LoopDelivers(d: Disk, ino: Inode, nbyte: ByteCount, offset: nat) returns (got: ReadResult)
    requires FileInv(d, ino) && OnDisk(d, ino) && offset < GetSizeOfFile(ino)
    ensures Readable(ino, offset) && got == PreadLoop(d, ino, offset, nbyte, true)
    ensures got.Read? && got.bytes == Delivered(Content(d, ino), nbyte, offset)
    ensures got.eof ==> offset + |got.bytes| == FileSize(ino)
  {
    PreadReturns(d, ino, nbyte, offset);
    BelowSize(ino, offset);
    got := PreadLoop(d, ino, offset, nbyte, true);
    LoopReads(d, ino, offset, nbyte, true, got);
  }

  /** What a pread returns, in terms of the inode and of the loop. */
  ghost predicate PreadCases(s: Sys, tables: Tables, pid: int, fd: nat, ino: Inode, nbyte: ByteCount, offset: nat,
                             r: CallResult)
  {
    if offset >= GetSizeOfFile(ino) then r == CallResult(s, tables, 0, [])
    else
      && Readable(ino, offset)
      && r == FinishPread(s, tables, pid, fd, ino, offset, PreadLoop(s.vol.disk, ino, offset, nbyte, true))
  }

  lemma PreadUnfolds(s: Sys, tables: Tables, pid: int, fd: nat, ino: Inode, c: Cache, nbyte: ByteCount, offset: nat)
    requires GetEntry(tables, pid, fd).Found? && GetEntry(tables, pid, fd).entry.mode != WRITE
    requires GetInode(s.cache, s.vol.disk, GetEntry(tables, pid, fd).entry.inodeNumber) == CacheHit(c, true, ino)
    ensures PreadCases(Sys(c, s.vol), tables, pid, fd, ino, nbyte, offset, PreadCall(s, tables, pid, fd, nbyte, offset))
  {
    if offset < GetSizeOfFile(ino) {
      BelowSize(ino, offset);
    }
  }

  /** How a pread ends: with the inode put back or not, and the offset moved or not. */
  lemma PreadParts(s: Sys, tables: Tables, pid: int, fd: nat, ino: Inode, nbyte: ByteCount, offset: nat, r: CallResult)
    returns (put: bool)
    requires PreadCases(s, tables, pid, fd, ino, nbyte, offset, r) && PutBack(s.cache, s.vol, ino).ok
    requires FileInv(s.vol.disk, ino) && OnDisk(s.vol.disk, ino)
    ensures r.result == |r.bytes| && r.bytes == Delivered(Content(s.vol.disk, ino), nbyte, offset)
    ensures r.tables ==
      if offset < GetSizeOfFile(ino) then SetOffset(tables, pid, fd, ToInt(offset + |r.bytes|)) else tables
    ensures r.sys == if put then PutBack(s.cache, s.vol, ino).sys else s
  {
    hide PutBack, SetOffset, FileInv, FinishPread, Readable;
    put := false;
    if offset < GetSizeOfFile(ino) {
      var got := LoopDelivers(s.vol.disk, ino, nbyte, offset);
      put := FinishParts(s, tables, pid, fd, ino, offset, got);
    }
  }

  lemma FinishParts(s: Sys, tables: Tables, pid: int, fd: nat, ino: Inode, offset: nat, got: ReadResult)
    returns (put: bool)
    requires got.Read? && PutBack(s.cache, s.vol, ino).ok && (got.eof ==> offset + |got.bytes| == FileSize(ino))
    ensures var r := FinishPread(s, tables, pid, fd, ino, offset, got);
      && r.result == |r.bytes| && r.bytes == got.bytes
      && r.tables == SetOffset(tables, pid, fd, ToInt(offset + |got.bytes|))
      && r.sys == if put then PutBack(s.cache, s.vol, ino).sys else s
  {
    put := !got.eof;
  }

  /** pread returns the bytes of the ideal file and changes nothing a user can see but the
      offset, which moves behind the last byte read. */
  lemma PreadCallReads(s: Sys, w: World, hurt: set<nat>, tables: Tables, pid: int, fd: nat, mode: Mode, n: nat,
                       nbyte: ByteCount, offset: nat)
    returns (w': World)
    requires SysInv(s, w, hurt) && Inv(tables) && IsOpen(tables, pid, fd, mode, n) && mode != WRITE
    requires n in w.files && View(w, hurt)[n].FileNode?
    ensures var r := PreadCall(s, tables, pid, fd, nbyte, offset);
      && r.bytes == Delivered(View(w, hurt)[n].bytes, nbyte, offset) && r.result == |r.bytes|
      && SysInv(r.sys, w', hurt) && View(w', hurt) == View(w, hurt) && Inv(r.tables)
      && SameBehind(s.vol.disk, r.sys.vol.disk)
      && Abstract(r.tables) == if offset < ToInt(|View(w, hurt)[n].bytes|)
           then Move(Abstract(tables), pid, fd, ToInt(offset + |r.bytes|)) else Abstract(tables)
  {
    hide PreadCall, Delivered, SetOffset, Move, Abstract, Inv, SysInv, NodeOf, SameBehind;
    var r := PreadCall(s, tables, pid, fd, nbyte, offset);
    var c, put := PreadOutcome(s, w, hurt, tables, pid, fd, mode, n, nbyte, offset, r);
    w' := PreadVisible(c, s, w, hurt, n, put, r.sys);
    OffsetMoves(tables, r.tables, pid, fd, mode, n, offset < ToInt(|View(w, hurt)[n].bytes|),
                ToInt(offset + |r.bytes|));
  }

  lemma OffsetMoves(a: Tables, b: Tables, pid: int, fd: nat, mode: Mode, n: int, moves: bool, offset: int)
    requires Inv(a) && IsOpen(a, pid, fd, mode, n) && b == if moves then SetOffset(a, pid, fd, offset) else a
    ensures fd in FilesOf(Abstract(a), pid)
    ensures Inv(b) && Abstract(b) == if moves then Move(Abstract(a), pid, fd, offset) else Abstract(a)
  {
    hide SetOffset;
    SetOffsetMoves(a, pid, fd, offset);
  }

  /** What a pread returns, and the two ways it may leave the file system. */
  lemma PreadOutcome(s: Sys, w: World, hurt: set<nat>, tables: Tables, pid: int, fd: nat, mode: Mode, n: nat,
                     nbyte: ByteCount, offset: nat, r: CallResult)
    returns (c: Cache, put: bool)
    requires SysInv(s, w, hurt) && IsOpen(tables, pid, fd, mode, n) && mode != WRITE
    requires n in w.files && View(w, hurt)[n].FileNode?
    requires r == PreadCall(s, tables, pid, fd, nbyte, offset)
    ensures r.bytes == Delivered(View(w, hurt)[n].bytes, nbyte, offset) && r.result == |r.bytes|
    ensures r.tables ==
      if offset < ToInt(|View(w, hurt)[n].bytes|) then SetOffset(tables, pid, fd, ToInt(offset + |r.bytes|)) else tables
    ensures c == GetInode(s.cache, s.vol.disk, n).cache
    ensures CacheOk(c, w.files) && r.sys == if put then PutBack(c, s.vol, w.files[n]).sys else Sys(c, s.vol)
  {
    OpenEntry(tables, pid, fd, mode, n);
    var ino := GotFile(s, w, hurt, n);
    c := GetInode(s.cache, s.vol.disk, n).cache;
    GetLive(s.cache, s.vol.disk, w.files, n);
    PutBackSucceeds(c, s.vol, w.files[n]);
    PreadReturns(s.vol.disk, ino, nbyte, offset);
    PreadUnfolds(s, tables, pid, fd, ino, c, nbyte, offset);
    put := PreadParts(Sys(c, s.vol), tables, pid, fd, ino, nbyte, offset, r);
  }

  lemma PreadVisible(c: Cache, s: Sys, w: World, hurt: set<nat>, n: nat, put: bool, after: Sys) returns (w': World)
    requires SysInv(s, w, hurt) && CacheOk(c, w.files) && n in w.files
    requires after == if put then PutBack(c, s.vol, w.files[n]).sys else Sys(c, s.vol)
    ensures SysInv(after, w', hurt) && View(w', hurt) == View(w, hurt) && SameBehind(s.vol.disk, after.vol.disk)
  {
    if put {
      w' := PutUnchanged(c, s, w, hurt, n);
    } else {
      w' := w;
    }
  }
}
