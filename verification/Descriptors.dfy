/** File descriptor tables: one growable table for each process that has an open file. */
module Descriptors {

  const FD_NOT_USED: int := -1

  datatype Mode = READ | WRITE | READ_WRITE

  /** `struct file_descriptor_entry` */
  datatype FdEntry = FdEntry(fd: int, mode: Mode, inodeNumber: int, byteOffset: int)

  /** `struct file_descriptor_table`; the length of `entries` is total_descriptors. */
  datatype Table = Table(used: int, entries: seq<FdEntry>)

  type Tables = map<int, Table>

  /** An entry whose other fields have never been set. */
  function Blank(fd: int): FdEntry {
    FdEntry(fd, READ, 0, 0)
  }

  /** The table allocate_file_descriptor_table makes. */
  const NEW_TABLE: Table :=
    Table(3, [Blank(0), Blank(1), Blank(2), Blank(FD_NOT_USED), Blank(FD_NOT_USED), Blank(FD_NOT_USED),
              Blank(FD_NOT_USED), Blank(FD_NOT_USED)])

  /** First unused entry at or after i, or -1. */
  function FindFrom(entries: seq<FdEntry>, i: nat): (fd: int)
    ensures fd == -1 ==> forall k :: i <= k < |entries| ==> entries[k].fd != FD_NOT_USED
    ensures fd != -1 ==> i <= fd < |entries| && entries[fd].fd == FD_NOT_USED
    ensures fd != -1 ==> forall k :: i <= k < fd ==> entries[k].fd != FD_NOT_USED
    decreases |entries| - i
  {
    if i >= |entries| then -1
    else if entries[i].fd == FD_NOT_USED then i
    else FindFrom(entries, i + 1)
  }

  /** find_available_fd */
  function FindAvailable(t: Table): int {
    if |t.entries| == t.used then -1 else FindFrom(t.entries, 3)
  }

  /** realloc to twice the size, the new half unused. */
  function Doubled(entries: seq<FdEntry>): seq<FdEntry> {
    entries + seq(|entries|, _ => Blank(FD_NOT_USED))
  }

  /** The fd that allocate_file_descriptor_entry picks, and the entries to pick it from. */
  function PickFd(t: Table): int {
    if FindAvailable(t) == -1 then |t.entries| else FindAvailable(t)
  }

  function RoomFor(t: Table): seq<FdEntry> {
    if FindAvailable(t) == -1 then Doubled(t.entries) else t.entries
  }

  function TableFor(tables: Tables, pid: int): Table {
    if pid in tables then tables[pid] else NEW_TABLE
  }

  /** The descriptor part of open: an entry is allocated and filled in. */
  function Open(tables: Tables, pid: int, mode: Mode, inodeNumber: int): (Tables, int) {
    var t := TableFor(tables, pid);
    var fd, room := PickFd(t), RoomFor(t);
    if 0 <= fd < |room| then
      (tables[pid := Table(t.used + 1, room[fd := FdEntry(fd, mode, inodeNumber, 0)])], fd)
    else (tables, fd)
  }

  datatype Lookup = Missing | Found(entry: FdEntry)

  /** get_file_descriptor_entry */
  function GetEntry(tables: Tables, pid: int, fd: nat): Lookup {
    if pid !in tables || fd >= |tables[pid].entries| || tables[pid].entries[fd].fd == FD_NOT_USED then Missing
    else Found(tables[pid].entries[fd])
  }

  /** delete_file_descriptor_entry */
  function DeleteEntry(tables: Tables, pid: int, fd: nat): Tables {
    if pid !in tables || fd >= |tables[pid].entries| || fd <= 2 then tables
    else
      var t := tables[pid];
      tables[pid := Table(t.used - 1, t.entries[fd := t.entries[fd].(fd := FD_NOT_USED)])]
  }

  /** close */
  function Close(tables: Tables, pid: int, fd: nat): (Tables, int) {
    if GetEntry(tables, pid, fd).Missing? then (tables, -1)
    else
      var after := DeleteEntry(tables, pid, fd);
      (if pid in after && after[pid].used == 3 then after - {pid} else after, 0)
  }

  // ----- the simple map the tables stand for -----------------------------

  datatype OpenFile = OpenFile(mode: Mode, inodeNumber: int, byteOffset: int)

  type Files = map<nat, OpenFile>

  /** Descriptors in use, the three standard ones not counted. */
  function UsedFds(entries: seq<FdEntry>): set<nat> {
    set fd: nat | 3 <= fd < |entries| && entries[fd].fd != FD_NOT_USED
  }

  function OpenFiles(t: Table): Files {
    map fd: nat | fd in UsedFds(t.entries) ::
      OpenFile(t.entries[fd].mode, t.entries[fd].inodeNumber, t.entries[fd].byteOffset)
  }

  /** What each process has open. */
  function Abstract(tables: Tables): map<int, Files> {
    map pid | pid in tables :: OpenFiles(tables[pid])
  }

  /** Entry i holds i or -1, the standard descriptors are in use, and used_descriptors
      counts the entries in use. */
  ghost predicate TableInv(t: Table) {
    && |t.entries| >= 8
    && (forall i :: 0 <= i < |t.entries| ==> t.entries[i].fd == i || t.entries[i].fd == FD_NOT_USED)
    && (forall i :: 0 <= i < 3 ==> t.entries[i].fd == i)
    && t.used == 3 + |UsedFds(t.entries)|
  }

  ghost predicate Live(t: Table) {
    TableInv(t) && UsedFds(t.entries) != {}
  }

  /** Every table is well formed and has an open file. */
  ghost predicate Inv(tables: Tables) {
    forall pid :: pid in tables ==> Live(tables[pid])
  }

  /** The lowest descriptor from `fd` on that is not in use. */
  function LowestFrom(files: Files, fd: nat): (r: nat)
    ensures r >= fd && r !in files && forall k :: fd <= k < r ==> k in files
    decreases |Above(files.Keys, fd)|
  {
    if fd !in files then fd
    else
      AboveShrinks(files.Keys, fd);
      LowestFrom(files, fd + 1)
  }

  function Above(fds: set<nat>, fd: nat): set<nat> {
    set k | k in fds && k >= fd
  }

  lemma AboveShrinks(fds: set<nat>, fd: nat)
    requires fd in fds
    ensures |Above(fds, fd + 1)| < |Above(fds, fd)|
  {
    assert Above(fds, fd) == Above(fds, fd + 1) + {fd};
  }

  function Between(a: nat, b: nat): (s: set<nat>)
    ensures forall k: nat :: k in s <==> a <= k < b
  {
    if b <= a then {} else Between(a, b - 1) + {b - 1}
  }

  function FilesOf(state: map<int, Files>, pid: int): Files {
    if pid in state then state[pid] else map[]
  }

  /** open gives a process the lowest descriptor from 3 on that it does not use. */
  function SpecOpen(state: map<int, Files>, pid: int, file: OpenFile): (map<int, Files>, int) {
    var files := FilesOf(state, pid);
    var fd := LowestFrom(files, 3);
    (state[pid := files[fd := file]], fd)
  }

  /** close forgets an open file, and a process without open files; it fails on anything
      else but the standard descriptors of a process that has open files. */
  function SpecClose(state: map<int, Files>, pid: int, fd: nat): (map<int, Files>, int) {
    var files := FilesOf(state, pid);
    var rest := files - {fd};
    if fd !in files then (state, if pid in state && fd <= 2 then 0 else -1)
    else (if rest == map[] then state - {pid} else state[pid := rest], 0)
  }

  /** The offset of an open file moves. */
  function Move(state: map<int, Files>, pid: int, fd: nat, offset: int): map<int, Files>
    requires fd in FilesOf(state, pid)
  {
    var files := FilesOf(state, pid);
    state[pid := files[fd := files[fd].(byteOffset := offset)]]
  }

  // ----- proofs ----------------------------------------------------------

  lemma {:induction false} BetweenCard(a: nat, b: nat)
    requires a <= b
    ensures |Between(a, b)| == b - a
    decreases b
  {
    if a < b {
      BetweenCard(a, b - 1);
    }
  }

  lemma {:induction false} FullSubset(s: set<nat>, t: set<nat>)
    requires s <= t && |s| == |t|
    ensures s == t
  {
    assert t == s + (t - s);
  }

  /** The table is full exactly when the counters say so. */
  lemma FullTable(t: Table)
    requires TableInv(t)
    ensures |t.entries| == t.used <==> forall k :: 3 <= k < |t.entries| ==> t.entries[k].fd != FD_NOT_USED
  {
    var n := |t.entries|;
    var used, all := UsedFds(t.entries), Between(3, n);
    BetweenCard(3, n);
    assert (forall k :: 3 <= k < n ==> t.entries[k].fd != FD_NOT_USED) ==> used == all;
    if n == t.used {
      FullSubset(used, all);
      forall k | 3 <= k < n ensures t.entries[k].fd != FD_NOT_USED {
        var i: nat := k;
        assert i in all;
      }
    }
  }

  /** The entries of a table, perhaps followed by unused ones. */
  ghost predicate Roomy(t: Table, room: seq<FdEntry>) {
    && |room| >= |t.entries| && room[..|t.entries|] == t.entries
    && forall i :: |t.entries| <= i < |room| ==> room[i].fd == FD_NOT_USED
  }

  /** Allocation picks the lowest unused descriptor and keeps the existing entries, also
      when the table doubles. */
  lemma PickLaws(t: Table)
    requires TableInv(t)
    ensures 3 <= PickFd(t) < |RoomFor(t)| && PickFd(t) == LowestFrom(OpenFiles(t), 3)
    ensures RoomFor(t)[PickFd(t)].fd == FD_NOT_USED
    ensures Roomy(t, RoomFor(t))
  {
    FullTable(t);
    var fd := PickFd(t);
    forall k | 3 <= k < fd ensures k in OpenFiles(t) {
      var i: nat := k;
      assert i in UsedFds(t.entries);
    }
    LowestUnique(OpenFiles(t), fd);
  }

  lemma LowestUnique(files: Files, fd: nat)
    requires fd >= 3 && fd !in files && forall k :: 3 <= k < fd ==> k in files
    ensures LowestFrom(files, 3) == fd
  {
    var r := LowestFrom(files, 3);
    assert fd < r ==> fd in files;
  }

  lemma RoomySame(t: Table, room: seq<FdEntry>, i: nat)
    requires Roomy(t, room) && i < |t.entries|
    ensures room[i] == t.entries[i]
  {
    assert room[i] == room[..|t.entries|][i];
  }

  lemma FillUsed(t: Table, fd: nat, room: seq<FdEntry>, e: FdEntry)
    requires 3 <= fd < |room| && Roomy(t, room) && room[fd].fd == FD_NOT_USED && e.fd == fd
    ensures UsedFds(room[fd := e]) == UsedFds(t.entries) + {fd} && fd !in UsedFds(t.entries)
  {
    forall i: nat ensures i in UsedFds(room[fd := e]) <==> i in UsedFds(t.entries) || i == fd {
      if i < |t.entries| {
        RoomySame(t, room, i);
      }
    }
    if fd < |t.entries| {
      RoomySame(t, room, fd);
    }
  }

  /** Filling an unused entry. */
  lemma FillLaws(t: Table, fd: nat, room: seq<FdEntry>, e: FdEntry)
    requires TableInv(t) && 3 <= fd < |room| && Roomy(t, room) && room[fd].fd == FD_NOT_USED && e.fd == fd
    ensures var t' := Table(t.used + 1, room[fd := e]);
      && TableInv(t') && UsedFds(t'.entries) == UsedFds(t.entries) + {fd}
      && OpenFiles(t') == OpenFiles(t)[fd := OpenFile(e.mode, e.inodeNumber, e.byteOffset)]
  {
    FillUsed(t, fd, room, e);
    forall i: nat | i < |t.entries| ensures room[i] == t.entries[i] {
      RoomySame(t, room, i);
    }
  }

  lemma NewTableInv()
    ensures TableInv(NEW_TABLE) && UsedFds(NEW_TABLE.entries) == {} && OpenFiles(NEW_TABLE) == map[]
  {
    assert UsedFds(NEW_TABLE.entries) == {};
  }

  /** One table after an open. */
  lemma OpenTable(t: Table, mode: Mode, inodeNumber: int) returns (t': Table)
    requires TableInv(t)
    ensures 3 <= PickFd(t) < |RoomFor(t)| && PickFd(t) == LowestFrom(OpenFiles(t), 3)
    ensures t' == Table(t.used + 1, RoomFor(t)[PickFd(t) := FdEntry(PickFd(t), mode, inodeNumber, 0)])
    ensures Live(t') && OpenFiles(t') == OpenFiles(t)[PickFd(t) := OpenFile(mode, inodeNumber, 0)]
  {
    PickLaws(t);
    FillLaws(t, PickFd(t), RoomFor(t), FdEntry(PickFd(t), mode, inodeNumber, 0));
    t' := Table(t.used + 1, RoomFor(t)[PickFd(t) := FdEntry(PickFd(t), mode, inodeNumber, 0)]);
  }

  lemma TableForLaws(tables: Tables, pid: int)
    requires Inv(tables)
    ensures TableInv(TableFor(tables, pid)) && OpenFiles(TableFor(tables, pid)) == FilesOf(Abstract(tables), pid)
  {
    NewTableInv();
  }

  /** open behaves as on the simple map. */
  lemma OpenRefines(tables: Tables, pid: int, mode: Mode, inodeNumber: int)
    requires Inv(tables)
    ensures var (tables', fd) := Open(tables, pid, mode, inodeNumber);
      Inv(tables') && (Abstract(tables'), fd) == SpecOpen(Abstract(tables), pid, OpenFile(mode, inodeNumber, 0))
  {
    TableForLaws(tables, pid);
    var t' := OpenTable(TableFor(tables, pid), mode, inodeNumber);
    AbstractUpdate(tables, pid, t');
  }

  /** Clearing a used entry. */
  lemma ClearLaws(t: Table, fd: nat)
    requires TableInv(t) && fd in UsedFds(t.entries)
    ensures var t' := Table(t.used - 1, t.entries[fd := t.entries[fd].(fd := FD_NOT_USED)]);
      TableInv(t') && UsedFds(t'.entries) == UsedFds(t.entries) - {fd} && OpenFiles(t') == OpenFiles(t) - {fd}
  {
    var es := t.entries[fd := t.entries[fd].(fd := FD_NOT_USED)];
    assert UsedFds(es) == UsedFds(t.entries) - {fd};
  }

  /** close behaves as on the simple map. */
  lemma CloseRefines(tables: Tables, pid: int, fd: nat)
    requires Inv(tables)
    ensures var (tables', r) := Close(tables, pid, fd);
      Inv(tables') && (Abstract(tables'), r) == SpecClose(Abstract(tables), pid, fd)
  {
    if pid in tables && fd in UsedFds(tables[pid].entries) {
      CloseUsed(tables, pid, fd);
    }
  }

  lemma CloseUsed(tables: Tables, pid: int, fd: nat)
    requires Inv(tables) && pid in tables && fd in UsedFds(tables[pid].entries)
    ensures var (tables', r) := Close(tables, pid, fd);
      Inv(tables') && (Abstract(tables'), r) == SpecClose(Abstract(tables), pid, fd)
  {
    var t' := CloseTable(tables[pid], fd);
    AbstractUpdate(tables, pid, t');
  }

  /** One table after a close. */
  lemma CloseTable(t: Table, fd: nat) returns (t': Table)
    requires TableInv(t) && fd in UsedFds(t.entries)
    ensures t' == Table(t.used - 1, t.entries[fd := t.entries[fd].(fd := FD_NOT_USED)])
    ensures TableInv(t') && OpenFiles(t') == OpenFiles(t) - {fd}
    ensures t'.used == 3 <==> OpenFiles(t') == map[]
    ensures t'.used != 3 ==> Live(t')
  {
    ClearLaws(t, fd);
    t' := Table(t.used - 1, t.entries[fd := t.entries[fd].(fd := FD_NOT_USED)]);
    assert OpenFiles(t').Keys == UsedFds(t'.entries);
  }

  /** Replacing or dropping one table. */
  lemma AbstractUpdate(tables: Tables, pid: int, t: Table)
    ensures Abstract(tables[pid := t]) == Abstract(tables)[pid := OpenFiles(t)]
    ensures Abstract(tables[pid := t] - {pid}) == Abstract(tables) - {pid}
  {}

  // ----- runs ------------------------------------------------------------

  datatype Call = FdOpen(pid: int, mode: Mode, inodeNumber: int) | FdClose(pid: int, fd: nat)

  function Apply(tables: Tables, call: Call): (Tables, int) {
    match call
    case FdOpen(pid, mode, inodeNumber) => Open(tables, pid, mode, inodeNumber)
    case FdClose(pid, fd) => Close(tables, pid, fd)
  }

  function SpecApply(state: map<int, Files>, call: Call): (map<int, Files>, int) {
    match call
    case FdOpen(pid, mode, inodeNumber) => SpecOpen(state, pid, OpenFile(mode, inodeNumber, 0))
    case FdClose(pid, fd) => SpecClose(state, pid, fd)
  }

  /** The tables after a run, and what the calls returned. */
  function Run(tables: Tables, calls: seq<Call>): (Tables, seq<int>)
    decreases |calls|
  {
    if calls == [] then (tables, [])
    else
      var (tables', r) := Apply(tables, calls[0]);
      var (last, rest) := Run(tables', calls[1..]);
      (last, [r] + rest)
  }

  function SpecRun(state: map<int, Files>, calls: seq<Call>): (map<int, Files>, seq<int>)
    decreases |calls|
  {
    if calls == [] then (state, [])
    else
      var (state', r) := SpecApply(state, calls[0]);
      var (last, rest) := SpecRun(state', calls[1..]);
      (last, [r] + rest)
  }

  lemma StepRefines(tables: Tables, call: Call)
    requires Inv(tables)
    ensures var (tables', r) := Apply(tables, call);
      Inv(tables') && (Abstract(tables'), r) == SpecApply(Abstract(tables), call)
  {
    match call {
      case FdOpen(pid, mode, inodeNumber) => OpenRefines(tables, pid, mode, inodeNumber);
      case FdClose(pid, fd) => CloseRefines(tables, pid, fd);
    }
  }

  /** Over every run of opens and closes the tables stay well formed, and behave and return
      what the simple map does. */
  lemma {:induction false} RunRefines(tables: Tables, calls: seq<Call>)
    requires Inv(tables)
    ensures var (tables', results) := Run(tables, calls);
      Inv(tables') && (Abstract(tables'), results) == SpecRun(Abstract(tables), calls)
    decreases |calls|
  {
    if calls != [] {
      StepRefines(tables, calls[0]);
      RunRefines(Apply(tables, calls[0]).0, calls[1..]);
    }
  }

  /** From no tables at all, a process has a table exactly when it has an open file. */
  lemma TableIffOpen(calls: seq<Call>, pid: int)
    ensures pid in Run(map[], calls).0 <==> FilesOf(SpecRun(map[], calls).0, pid) != map[]
  {
    var none: Tables := map[];
    assert Abstract(none) == map[];
    RunRefines(none, calls);
    var tables := Run(none, calls).0;
    if pid in tables {
      assert OpenFiles(tables[pid]).Keys == UsedFds(tables[pid].entries);
    }
  }
}
