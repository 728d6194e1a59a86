/** The file system as one state machine: the inode cache and the volume, and the parts
    of the path-level calls that change them. */
module FileSystem {
  import opened Arithmetic
  import opened Geometry
  import opened FreeList
  import opened BlockMap
  import opened FileIO
  import opened Inodes
  import opened InodeCache
  import opened DirBlock
  import opened Directory

  datatype Sys = Sys(cache: Cache, vol: Vol)

  datatype SysResult = SysResult(sys: Sys, ok: bool)

  /** put_inode at the end of a call; the release of an inode that is none of the table is
      not modelled. */
  function PutBack(c: Cache, v: Vol, ino: Inode): SysResult {
    if ino.links == 0 && !IsInode(ino.id) then SysResult(Sys(c, v), false)
    else
      var r := PutInode(c, v, ino);
      SysResult(Sys(r.cache, r.vol), r.ok)
  }

  /** The inode part of mknod, which does not look at what put_inode returns; `stale` is
      what the inode buffer holds at first. */
  function MakeFile(s: Sys, stale: Inode): SysResult {
    var r := Ialloc(s.vol, stale);
    if !r.ok then SysResult(Sys(s.cache, r.vol), false)
    else SysResult(PutBack(s.cache, r.vol, r.ino.(kind := TYPE_ORDINARY)).sys, true)
  }

  /** The inode part of mkdir, and create_root_dir; `scratch` and `stale` are what the
      block and inode buffers hold at first. */
  function MakeDir(s: Sys, parent: nat, scratch: Block, stale: Inode): SysResult
    requires parent < 0x8000_0000
  {
    var a := Alloc(s.vol);
    if !a.ok then SysResult(Sys(s.cache, a.vol), false)
    else
      var r := Ialloc(a.vol, stale);
      if !r.ok || r.ino.id >= 0x8000_0000 || a.id >= NUM_BLOCKS then SysResult(Sys(s.cache, r.vol), false)
      else
        var written := WriteTo(r.vol, a.id, InitDirBlock(scratch, r.ino.id, parent));
        var m := SetBlockId(written, r.ino.(kind := TYPE_DIRECTORY), 0, a.id);
        if !m.ok then SysResult(Sys(s.cache, m.vol), false)
        else
          SysResult(PutBack(s.cache, m.vol, m.ino.(numBlocks := Increment(m.ino.numBlocks))).sys, true)
  }

  /** pwrite on an open file with inode number n. */
  function WriteFile(s: Sys, n: nat, offset: nat, data: Buffer): SysResult
    requires offset + |data| < ID_LIMIT - 1
  {
    var got := GetInode(s.cache, s.vol.disk, n);
    var r := Pwrite(s.vol, got.ino, offset, data);
    if r.status != Done then SysResult(Sys(got.cache, r.vol), false) else PutBack(got.cache, r.vol, r.ino)
  }

  /** add_entry_to_parent and put_inode of the parent. */
  function Enter(s: Sys, dir: nat, id: nat, name: seq<byte>): SysResult
    requires id < 0x8000_0000 && IsName(name)
  {
    var got := GetInode(s.cache, s.vol.disk, dir);
    var r := DirAdd(s.vol, got.ino, id, name);
    if !r.ok then SysResult(Sys(got.cache, r.vol), false) else PutBack(got.cache, r.vol, r.ino)
  }

  /** remove_entry_from_parent and put_inode of the parent. */
  function Leave(s: Sys, dir: nat, id: nat): SysResult {
    var got := GetInode(s.cache, s.vol.disk, dir);
    var r := DirRemove(s.vol, got.ino, 0, id);
    if !r.ok then SysResult(Sys(got.cache, r.vol), false) else PutBack(got.cache, r.vol, got.ino)
  }

  /** The inode part of unlink and rmdir. */
  function Release(s: Sys, n: nat): SysResult {
    var got := GetInode(s.cache, s.vol.disk, n);
    PutBack(got.cache, s.vol, got.ino.(links := 0))
  }

  /** get_inode, as the calls that only look do it. */
  function Visit(s: Sys, n: nat): SysResult {
    var got := GetInode(s.cache, s.vol.disk, n);
    SysResult(Sys(got.cache, s.vol), got.ok)
  }

  /** pread on an open file with inode number n. */
  function ReadFile(s: Sys, n: nat, nbyte: ByteCount, offset: nat): ReadResult {
    var got := GetInode(s.cache, s.vol.disk, n);
    if !got.ok then ReadFailed else Pread(s.vol.disk, got.ino, nbyte, offset)
  }

  /** What lstat shows of a file: st_ino, st_nlink, st_size and st_blocks. */
  datatype Stat = Stat(number: word, links: word, size: nat, blocks: word)

  /** lstat, from the inode number on. */
  function Lstat(s: Sys, n: nat): Stat {
    var ino := GetInode(s.cache, s.vol.disk, n).ino;
    var size := if ino.kind == TYPE_ORDINARY then FileSize(ino) else Times(ino.numBlocks, BLOCK_SIZE);
    Stat(ino.id, ino.links, Rem(size, ID_LIMIT), ino.numAllocated)
  }

  datatype SysOp =
    | DoMakeFile(stale: Inode)
    | DoMakeDir(parent: nat, scratch: Block, stale: Inode)
    | DoWrite(n: nat, offset: nat, data: Buffer)
    | DoEnter(n: nat, id: nat, name: seq<byte>)
    | DoLeave(n: nat, id: nat, name: seq<byte>)
    | DoRelease(n: nat)
    | DoVisit(n: nat)

  /** Arguments within the bounds of the interface. */
  predicate InBounds(op: SysOp) {
    match op
    case DoMakeDir(parent, _, _) => 0 < parent < 0x8000_0000
    case DoWrite(_, offset, data) => offset + |data| < ID_LIMIT - 1
    case DoEnter(_, id, name) => 0 < id < 0x8000_0000 && IsName(name) && name != []
    case DoLeave(_, id, _) => 0 < id
    case _ => true
  }

  /** A call; arguments out of bounds are not modelled. */
  function Do(s: Sys, op: SysOp): SysResult {
    if !InBounds(op) then SysResult(s, false)
    else
    match op
    case DoMakeFile(stale) => MakeFile(s, stale)
    case DoMakeDir(parent, scratch, stale) => MakeDir(s, parent, scratch, stale)
    case DoWrite(n, offset, data) => WriteFile(s, n, offset, data)
    case DoEnter(n, id, name) => Enter(s, n, id, name)
    case DoLeave(n, id, _) => Leave(s, n, id)
    case DoRelease(n) => Release(s, n)
    case DoVisit(n) => Visit(s, n)
  }
}
