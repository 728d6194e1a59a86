/** The file descriptor tables, changed in place. */
module FdCalls {
  import opened Descriptors

  /** The scan of find_available_fd. */
  method ScanForUnused(entries: seq<FdEntry>) returns (fd: int)
    ensures fd == FindFrom(entries, 3)
  {
    var i: nat := 3;
    while i < |entries|
      invariant i >= 3 && FindFrom(entries, 3) == FindFrom(entries, i)
    {
      if entries[i].fd == FD_NOT_USED {
        return i;
      }
      i := i + 1;
    }
    return -1;
  }

  /** The resizing loop of allocate_file_descriptor_entry. */
  method Double(entries: seq<FdEntry>) returns (r: seq<FdEntry>)
    ensures r == Doubled(entries)
  {
    r := entries;
    var i: nat := |entries|;
    while i < 2 * |entries|
      invariant |entries| <= i <= 2 * |entries| && |r| == i && r[..|entries|] == entries
      invariant forall k :: |entries| <= k < i ==> r[k] == Blank(FD_NOT_USED)
    {
      r := r + [Blank(FD_NOT_USED)];
      i := i + 1;
    }
    assert r == Doubled(entries);
  }

  class FdTables {
    var tables: Tables

    constructor ()
      ensures tables == map[]
    {
      tables := map[];
    }

    /** find_available_fd */
    method FindAvailableFd(pid: int) returns (fd: int)
      ensures fd == if pid in tables then FindAvailable(tables[pid]) else -1
    {
      if pid !in tables || |tables[pid].entries| == tables[pid].used {
        return -1;
      }
      fd := ScanForUnused(tables[pid].entries);
    }

    /** allocate_file_descriptor_entry, and the assignments of open to the new entry */
    method OpenFd(pid: int, mode: Mode, inodeNumber: int) returns (fd: int)
      requires Inv(tables)
      modifies this
      ensures (tables, fd) == Open(old(tables), pid, mode, inodeNumber)
      ensures Inv(tables)
      ensures (Abstract(tables), fd) == SpecOpen(old(Abstract(tables)), pid, OpenFile(mode, inodeNumber, 0))
    {
      OpenRefines(tables, pid, mode, inodeNumber);
      TableForLaws(tables, pid);
      PickLaws(TableFor(tables, pid));
      if pid !in tables {
        tables := tables[pid := NEW_TABLE];
      }
      fd := FindAvailableFd(pid);
      var t := tables[pid];
      var entries := t.entries;
      if fd == -1 {
        fd := |entries|;
        entries := Double(entries);
      }
      var t' := Table(t.used + 1, entries[fd := FdEntry(fd, mode, inodeNumber, 0)]);
      tables := tables[pid := t'];
      assert tables == old(tables)[pid := t'];
    }

    /** delete_file_descriptor_entry */
    method DeleteFd(pid: int, fd: nat)
      modifies this
      ensures tables == DeleteEntry(old(tables), pid, fd)
    {
      if pid in tables && 2 < fd < |tables[pid].entries| {
        var t := tables[pid];
        tables := tables[pid := Table(t.used - 1, t.entries[fd := t.entries[fd].(fd := FD_NOT_USED)])];
      }
    }

    /** close */
    method CloseFd(pid: int, fd: nat) returns (r: int)
      requires Inv(tables)
      modifies this
      ensures (tables, r) == Close(old(tables), pid, fd)
      ensures Inv(tables) && (Abstract(tables), r) == SpecClose(old(Abstract(tables)), pid, fd)
    {
      CloseRefines(tables, pid, fd);
      if GetEntry(tables, pid, fd).Missing? {
        return -1;
      }
      DeleteFd(pid, fd);
      if tables[pid].used == 3 {
        tables := tables - {pid};
      }
      return 0;
    }
  }
}
