/** open, close, pread and pwrite through file descriptors, on values. */
module Syscalls {
  import opened Geometry
  import opened Codec
  import opened BlockMap
  import opened FileIO
  import opened InodeCache
  import opened Descriptors
  import opened FileSystem

  /** The state of the file system and of the descriptors, what a call returns, and the
      bytes it delivers. */
  datatype CallResult = CallResult(sys: Sys, tables: Tables, result: int, bytes: seq<byte>)

  /** Assigns byte_offset of an open descriptor. */
  function SetOffset(tables: Tables, pid: int, fd: nat, offset: int): Tables {
    if pid !in tables || fd >= |tables[pid].entries| then tables
    else
      var t := tables[pid];
      tables[pid := Table(t.used, t.entries[fd := t.entries[fd].(byteOffset := offset)])]
  }

  /** syscalls2__open, from the inode number on: the inode is fetched and put back, and a
      descriptor is allocated. */
  function OpenCall(s: Sys, tables: Tables, pid: int, mode: Mode, n: nat): CallResult {
    var got := GetInode(s.cache, s.vol.disk, n);
    var (after, fd) := Open(tables, pid, mode, n);
    CallResult(PutBack(got.cache, s.vol, got.ino).sys, after, fd, [])
  }

  /** syscalls2__close */
  function CloseCall(s: Sys, tables: Tables, pid: int, fd: nat): CallResult {
    var (after, r) := Close(tables, pid, fd);
    CallResult(s, after, r, [])
  }

  /** syscalls2__pwrite */
  function PwriteCall(s: Sys, tables: Tables, pid: int, fd: nat, offset: nat, data: Buffer): CallResult
    requires offset + |data| < ID_LIMIT - 1
  {
    var e := GetEntry(tables, pid, fd);
    if e.Missing? || e.entry.mode == READ then CallResult(s, tables, -1, [])
    else
      var got := GetInode(s.cache, s.vol.disk, e.entry.inodeNumber);
      var r := Pwrite(s.vol, got.ino, offset, data);
      if r.status != Done then CallResult(Sys(got.cache, r.vol), tables, -1, [])
      else
        var put := PutBack(got.cache, r.vol, r.ino);
        if !put.ok then CallResult(put.sys, tables, -1, [])
        else CallResult(put.sys, SetOffset(tables, pid, fd, ToInt(offset + |data|)), |data|, [])
  }

  /** syscalls2__pread */
  function PreadCall(s: Sys, tables: Tables, pid: int, fd: nat, nbyte: ByteCount, offset: nat): CallResult {
    var e := GetEntry(tables, pid, fd);
    if e.Missing? || e.entry.mode == WRITE then CallResult(s, tables, -1, [])
    else
      var got := GetInode(s.cache, s.vol.disk, e.entry.inodeNumber);
      var after := Sys(got.cache, s.vol);
      if !got.ok then CallResult(after, tables, -1, [])
      else if offset >= GetSizeOfFile(got.ino) then CallResult(after, tables, 0, [])
      else
        BelowSize(got.ino, offset);
        FinishPread(after, tables, pid, fd, got.ino, offset, PreadLoop(s.vol.disk, got.ino, offset, nbyte, true))
  }

  /** The end of syscalls2__pread: at the end of the file it returns at once, otherwise
      the inode is put. */
  function FinishPread(s: Sys, tables: Tables, pid: int, fd: nat, ino: Inode, offset: nat, r: ReadResult): CallResult {
    if r.ReadFailed? then CallResult(s, tables, -1, [])
    else if r.eof then CallResult(s, SetOffset(tables, pid, fd, GetSizeOfFile(ino)), |r.bytes|, r.bytes)
    else
      var moved, put := SetOffset(tables, pid, fd, ToInt(offset + |r.bytes|)), PutBack(s.cache, s.vol, ino);
      CallResult(put.sys, moved, if put.ok then |r.bytes| else -1, if put.ok then r.bytes else [])
  }
}
