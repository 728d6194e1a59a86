/** The inode cache on values: an insertion-ordered map in front of the inode table. */
module InodeCache {
  import opened Geometry
  import opened FreeList
  import opened BlockMap
  import opened Inodes

  type CacheLimit = n: nat | n >= 2 witness 2

  const MAX_CACHE_SIZE: CacheLimit

  /** Keys in insertion order, the newest on top. */
  datatype Line = Nobody | Line(older: Line, id: word)

  /** The hash table: its keys in insertion order, and the entries. */
  datatype Cache = Cache(order: Line, at: map<word, Inode>)

  const EMPTY_CACHE: Cache := Cache(Nobody, map[])

  datatype CacheHit = CacheHit(cache: Cache, ok: bool, ino: Inode)

  function Length(line: Line): nat {
    if line.Nobody? then 0 else 1 + Length(line.older)
  }

  function Without(line: Line, id: word): Line {
    match line
    case Nobody => Nobody
    case Line(older, last) => if last == id then older else Line(Without(older, id), last)
  }

  /** The key that was inserted first. */
  function Oldest(line: Line): word
    requires line.Line?
  {
    if line.older.Nobody? then line.id else Oldest(line.older)
  }

  /** HASH_DEL */
  function Delete(c: Cache, id: word): Cache {
    Cache(Without(c.order, id), c.at - {id})
  }

  /** HASH_ADD_INT of a key that is not present. */
  function Append(c: Cache, id: word, ino: Inode): Cache {
    Cache(Line(c.order, id), c.at[id := ino])
  }

  /** get_inode_from_cache: a hit moves the entry to the end. */
  function GetFromCache(c: Cache, id: int): CacheHit {
    if 0 <= id < ID_LIMIT && id in c.at then CacheHit(Append(Delete(c, id), id, c.at[id]), true, c.at[id])
    else CacheHit(c, false, FreshInode(0))
  }

  /** put_inode_in_cache: replace the entry, then drop the oldest one if the limit is reached. */
  function PutInCache(c: Cache, ino: Inode): Cache {
    var added := Append(Delete(c, ino.id), ino.id, ino);
    if Length(added.order) >= MAX_CACHE_SIZE then Delete(added, Oldest(added.order)) else added
  }

  /** get_inode */
  function GetInode(c: Cache, d: Disk, id: int): CacheHit {
    var hit := GetFromCache(c, id);
    if hit.ok then hit
    else
      var got := Iget(d, id);
      if got.ok then CacheHit(PutInCache(c, got.ino), true, got.ino) else CacheHit(c, false, FreshInode(0))
  }

  datatype PutResult = PutResult(cache: Cache, vol: Vol, ok: bool)

  /** put_inode */
  function PutInode(c: Cache, v: Vol, ino: Inode): PutResult
    requires ino.links == 0 ==> IsInode(ino.id)
  {
    var r := Iput(v, ino);
    if r.ok then PutResult(PutInCache(c, r.ino), r.vol, true) else PutResult(c, r.vol, false)
  }
}
