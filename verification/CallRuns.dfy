/** Whole runs of open, close, pread and pwrite, mixed with the calls on the file system:
    file system and descriptor tables together behave as an ideal machine. */
module CallRuns {
  import opened Geometry
  import opened Codec
  import opened Ownership
  import opened FileIO
  import opened ReadLaws
  import opened InodeCache
  import opened CacheLaws
  import opened Descriptors
  import opened FileSystem
  import opened SystemInv
  import opened SystemRuns
  import opened Syscalls
  import opened SyscallLaws

  // ----- the machine -----------------------------------------------------

  datatype Machine = Machine(sys: Sys, tables: Tables)

  datatype Request =
    | AskOpen(pid: int, mode: Mode, n: nat)
    | AskClose(pid: int, fd: nat)
    | AskRead(pid: int, fd: nat, nbyte: ByteCount, offset: nat)
    | AskWrite(pid: int, fd: nat, offset: nat, data: Buffer)
    | AskSystem(op: SysOp)

  /** What a process gets back. */
  datatype Answer = Answer(result: int, bytes: seq<byte>)

  /** A call; a position that a 64-bit offset cannot hold is not modelled. */
  function Serve(m: Machine, q: Request): CallResult {
    match q
    case AskOpen(pid, mode, n) => OpenCall(m.sys, m.tables, pid, mode, n)
    case AskClose(pid, fd) => CloseCall(m.sys, m.tables, pid, fd)
    case AskRead(pid, fd, nbyte, offset) => PreadCall(m.sys, m.tables, pid, fd, nbyte, offset)
    case AskWrite(pid, fd, offset, data) =>
      if offset + |data| >= ID_LIMIT - 1 then CallResult(m.sys, m.tables, -1, [])
      else PwriteCall(m.sys, m.tables, pid, fd, offset, data)
    case AskSystem(op) =>
      var r := Do(m.sys, op);
      CallResult(r.sys, m.tables, if r.ok then 0 else -1, [])
  }

  function Next(m: Machine, q: Request): Machine {
    Machine(Serve(m, q).sys, Serve(m, q).tables)
  }

  function Reply(m: Machine, q: Request): Answer {
    Answer(Serve(m, q).result, Serve(m, q).bytes)
  }

  // ----- the ideal machine -----------------------------------------------

  /** Files as users see them, and the open files of each process. */
  datatype Desk = Desk(view: map<nat, Node>, open: map<int, Files>)

  /** The descriptor is open for reading, or for writing. */
  predicate ForReading(open: map<int, Files>, pid: int, fd: nat) {
    fd in FilesOf(open, pid) && FilesOf(open, pid)[fd].mode != WRITE
  }

  predicate ForWriting(open: map<int, Files>, pid: int, fd: nat) {
    fd in FilesOf(open, pid) && FilesOf(open, pid)[fd].mode != READ
  }

  /** The inode an open descriptor is on. */
  function Target(open: map<int, Files>, pid: int, fd: nat): int
    requires fd in FilesOf(open, pid)
  {
    FilesOf(open, pid)[fd].inodeNumber
  }

  /** The calls that are covered: files are opened while they exist; reads and writes go
      through other descriptors than the standard ones, and when the descriptor is open
      for them, to ordinary files that exist; reads to undamaged ones. */
  ghost predicate Permitted(desk: Desk, tidy: bool, q: Request) {
    match q
    case AskOpen(_, _, n) => n in desk.view
    case AskClose(_, _) => true
    case AskRead(pid, fd, _, _) =>
      fd > 2 && (ForReading(desk.open, pid, fd) ==>
        var n := Target(desk.open, pid, fd);
        n in desk.view && desk.view[n].FileNode?)
    case AskWrite(pid, fd, _, _) =>
      fd > 2 && (ForWriting(desk.open, pid, fd) ==>
        var n := Target(desk.open, pid, fd);
        n in desk.view && !desk.view[n].DirNode?)
    case AskSystem(op) => Allowed(desk.view, tidy, op)
  }

  /** The descriptor tables after a read or write that moves an offset. */
  function MoveIf(moves: bool, open: map<int, Files>, pid: int, fd: nat, offset: int): map<int, Files>
    requires fd in FilesOf(open, pid)
  {
    if moves then Move(open, pid, fd, offset) else open
  }

  /** What a permitted call does to the ideal machine, and what it answers; `ok` tells
      whether a write or a call on the file system succeeds. */
  ghost function IdealServe(desk: Desk, q: Request, ok: bool): (Desk, Answer)
    requires Permitted(desk, true, q)
  {
    match q
    case AskOpen(pid, mode, n) =>
      var (open', fd) := SpecOpen(desk.open, pid, OpenFile(mode, n, 0));
      (Desk(desk.view, open'), Answer(fd, []))
    case AskClose(pid, fd) =>
      var (open', r) := SpecClose(desk.open, pid, fd);
      (Desk(desk.view, open'), Answer(r, []))
    case AskRead(pid, fd, nbyte, offset) =>
      if !ForReading(desk.open, pid, fd) then (desk, Answer(-1, []))
      else
        var c := desk.view[Target(desk.open, pid, fd)].bytes;
        var got := Delivered(c, nbyte, offset);
        (Desk(desk.view, MoveIf(offset < ToInt(|c|), desk.open, pid, fd, ToInt(offset + |got|))), Answer(|got|, got))
    case AskWrite(pid, fd, offset, data) =>
      if !ForWriting(desk.open, pid, fd) then (desk, Answer(-1, []))
      else
        var op := DoWrite(Target(desk.open, pid, fd), offset, data);
        (Desk(Ideal(desk.view, op, ok), MoveIf(ok, desk.open, pid, fd, ToInt(offset + |data|))),
         Answer(if ok then |data| else -1, []))
    case AskSystem(op) => (Desk(Ideal(desk.view, op, ok), desk.open), Answer(if ok then 0 else -1, []))
  }

  // ----- one call --------------------------------------------------------

  ghost function DeskOf(w: World, hurt: set<nat>, tables: Tables): Desk {
    Desk(View(w, hurt), Abstract(tables))
  }

  /** The call does, and answers, what the ideal machine does. */
  ghost predicate Served(m: Machine, w: World, hurt: set<nat>, q: Request, w': World, hurt': set<nat>)
    requires Permitted(DeskOf(w, hurt, m.tables), true, q)
  {
    && SysInv(Next(m, q).sys, w', hurt') && Inv(Next(m, q).tables)
    && SameBehind(m.sys.vol.disk, Next(m, q).sys.vol.disk)
    && (DeskOf(w', hurt', Next(m, q).tables), Reply(m, q))
       == IdealServe(DeskOf(w, hurt, m.tables), q, Reply(m, q).result >= 0)
  }

  lemma ServeRefines(m: Machine, w: World, hurt: set<nat>, tidy: bool, q: Request)
    returns (w': World, hurt': set<nat>)
    requires SysInv(m.sys, w, hurt) && Inv(m.tables)
    requires TidyOn(m.sys, tidy) && Permitted(DeskOf(w, hurt, m.tables), tidy, q)
    ensures Served(m, w, hurt, q, w', hurt')
  {
    hide Served, SysInv, Inv, View, Abstract, TidyOn;
    w', hurt' := w, hurt;
    match q {
      case AskOpen(pid, mode, n) => w' := OpenStep(m, w, hurt, pid, mode, n);
      case AskClose(pid, fd) => CloseStep(m, w, hurt, pid, fd);
      case AskRead(pid, fd, nbyte, offset) => w' := ReadStep(m, w, hurt, pid, fd, nbyte, offset);
      case AskWrite(pid, fd, offset, data) => w', hurt' := WriteStep(m, w, hurt, pid, fd, offset, data);
      case AskSystem(op) => w', hurt' := SystemStep(m, w, hurt, tidy, op);
    }
  }

  lemma OpenStep(m: Machine, w: World, hurt: set<nat>, pid: int, mode: Mode, n: nat) returns (w': World)
    requires SysInv(m.sys, w, hurt) && Inv(m.tables)
    requires Permitted(DeskOf(w, hurt, m.tables), true, AskOpen(pid, mode, n))
    ensures Served(m, w, hurt, AskOpen(pid, mode, n), w', hurt)
  {
    hide PutBack, Open, SpecOpen, Abstract, Inv;
    GetLive(m.sys.cache, m.sys.vol.disk, w.files, n);
    w' := PutUnchanged(GetInode(m.sys.cache, m.sys.vol.disk, n).cache, m.sys, w, hurt, n);
    OpenRefines(m.tables, pid, mode, n);
    OpenAnswers(Abstract(m.tables), pid, OpenFile(mode, n, 0));
  }

  lemma OpenAnswers(open: map<int, Files>, pid: int, file: OpenFile)
    ensures SpecOpen(open, pid, file).1 >= 3
  {}

  lemma CloseStep(m: Machine, w: World, hurt: set<nat>, pid: int, fd: nat)
    requires SysInv(m.sys, w, hurt) && Inv(m.tables)
    ensures Served(m, w, hurt, AskClose(pid, fd), w, hurt)
  {
    hide Close, SpecClose, Abstract, Inv, View, SysInv;
    CloseRefines(m.tables, pid, fd);
  }

  lemma ReadStep(m: Machine, w: World, hurt: set<nat>, pid: int, fd: nat, nbyte: ByteCount, offset: nat)
    returns (w': World)
    requires SysInv(m.sys, w, hurt) && Inv(m.tables)
    requires Permitted(DeskOf(w, hurt, m.tables), true, AskRead(pid, fd, nbyte, offset))
    ensures Served(m, w, hurt, AskRead(pid, fd, nbyte, offset), w', hurt)
  {
    hide PreadCall, Delivered, Move, Abstract, Inv, SysInv;
    var open := Abstract(m.tables);
    if ForReading(open, pid, fd) {
      var n := Target(open, pid, fd);
      w' := PreadCallReads(m.sys, w, hurt, m.tables, pid, fd, FilesOf(open, pid)[fd].mode, n, nbyte, offset);
    } else {
      NotOpen(m.tables, pid, fd);
      WrongDescriptor(m.sys, m.tables, pid, fd, nbyte, offset, []);
      w' := w;
    }
  }

  /** What a descriptor that is not open for a call looks like in the tables. */
  lemma NotOpen(tables: Tables, pid: int, fd: nat)
    ensures !ForReading(Abstract(tables), pid, fd) ==>
      forall n :: !IsOpen(tables, pid, fd, READ, n) && !IsOpen(tables, pid, fd, READ_WRITE, n)
    ensures !ForWriting(Abstract(tables), pid, fd) ==>
      forall n :: !IsOpen(tables, pid, fd, WRITE, n) && !IsOpen(tables, pid, fd, READ_WRITE, n)
  {}

  lemma WriteStep(m: Machine, w: World, hurt: set<nat>, pid: int, fd: nat, offset: nat, data: Buffer)
    returns (w': World, hurt': set<nat>)
    requires SysInv(m.sys, w, hurt) && Inv(m.tables)
    requires Permitted(DeskOf(w, hurt, m.tables), true, AskWrite(pid, fd, offset, data))
    ensures Served(m, w, hurt, AskWrite(pid, fd, offset, data), w', hurt')
  {
    hide PwriteCall, Move, Abstract, Inv, SysInv, Do, Ideal, WriteFile;
    var open := Abstract(m.tables);
    if !ForWriting(open, pid, fd) {
      w', hurt' := w, hurt;
      if offset + |data| < ID_LIMIT - 1 {
        NotOpen(m.tables, pid, fd);
        WrongDescriptor(m.sys, m.tables, pid, fd, 0, offset, data);
      }
    } else {
      var n := Target(open, pid, fd);
      w', hurt' := SystemRuns.StepRefines(m.sys, w, hurt, false, DoWrite(n, offset, data));
      WriteServed(m, w, hurt, pid, fd, n, offset, data);
    }
  }

  /** A write through a descriptor and the write on the file, compared. */
  lemma WriteServed(m: Machine, w: World, hurt: set<nat>, pid: int, fd: nat, n: nat, offset: nat, data: Buffer)
    requires Inv(m.tables) && ForWriting(Abstract(m.tables), pid, fd) && n == Target(Abstract(m.tables), pid, fd)
    ensures var r, d := Serve(m, AskWrite(pid, fd, offset, data)), Do(m.sys, DoWrite(n, offset, data));
      && r.sys == d.sys && r.result == (if d.ok then |data| else -1) && r.bytes == []
      && Inv(r.tables) && Abstract(r.tables)
         == MoveIf(d.ok, Abstract(m.tables), pid, fd, ToInt(offset + |data|))
  {
    hide PwriteCall, Move, Abstract, Inv, SetOffset, WriteFile;
    if offset + |data| < ID_LIMIT - 1 {
      var mode := FilesOf(Abstract(m.tables), pid)[fd].mode;
      PwriteCallIsWrite(m.sys, m.tables, pid, fd, mode, n, offset, data);
      SetOffsetMoves(m.tables, pid, fd, ToInt(offset + |data|));
    }
  }

  lemma SystemStep(m: Machine, w: World, hurt: set<nat>, tidy: bool, op: SysOp)
    returns (w': World, hurt': set<nat>)
    requires SysInv(m.sys, w, hurt) && Inv(m.tables)
    requires TidyOn(m.sys, tidy) && Permitted(DeskOf(w, hurt, m.tables), tidy, AskSystem(op))
    ensures Served(m, w, hurt, AskSystem(op), w', hurt')
  {
    hide Do, Ideal, SysInv, Inv, Abstract, View;
    w', hurt' := SystemRuns.StepRefines(m.sys, w, hurt, tidy, op);
  }

  // ----- runs ------------------------------------------------------------

  function RunAll(m: Machine, qs: seq<Request>): Machine
    decreases |qs|
  {
    if qs == [] then m else RunAll(Next(m, qs[0]), qs[1..])
  }

  /** What the calls of a run answer. */
  function Replies(m: Machine, qs: seq<Request>): (rs: seq<Answer>)
    ensures |rs| == |qs|
    decreases |qs|
  {
    if qs == [] then [] else [Reply(m, qs[0])] + Replies(Next(m, qs[0]), qs[1..])
  }

  /** Which calls of a run do not fail. */
  function Succeeded(m: Machine, qs: seq<Request>): (oks: seq<bool>)
    ensures |oks| == |qs|
    decreases |qs|
  {
    if qs == [] then [] else [Reply(m, qs[0]).result >= 0] + Succeeded(Next(m, qs[0]), qs[1..])
  }

  /** Every call is permitted when its turn comes. */
  ghost predicate PermittedRun(desk: Desk, tidy: bool, qs: seq<Request>, oks: seq<bool>)
    requires |oks| == |qs|
    decreases |qs|
  {
    qs == []
    || (Permitted(desk, tidy, qs[0]) && PermittedRun(IdealServe(desk, qs[0], oks[0]).0, tidy, qs[1..], oks[1..]))
  }

  /** The ideal machine after a run, and its answers. */
  ghost function IdealAll(desk: Desk, tidy: bool, qs: seq<Request>, oks: seq<bool>): (Desk, seq<Answer>)
    requires |oks| == |qs| && PermittedRun(desk, tidy, qs, oks)
    decreases |qs|
  {
    if qs == [] then (desk, [])
    else
      var (next, answer) := IdealServe(desk, qs[0], oks[0]);
      var (last, answers) := IdealAll(next, tidy, qs[1..], oks[1..]);
      (last, [answer] + answers)
  }

  /** Over every run of permitted calls, failing ones included, the machine goes through
      the states of the ideal one and gives its answers. */
  lemma {:induction false} AllRefines(m: Machine, w: World, hurt: set<nat>, tidy: bool, qs: seq<Request>)
    returns (w': World, hurt': set<nat>)
    requires SysInv(m.sys, w, hurt) && Inv(m.tables) && TidyOn(m.sys, tidy)
    requires PermittedRun(DeskOf(w, hurt, m.tables), tidy, qs, Succeeded(m, qs))
    ensures SysInv(RunAll(m, qs).sys, w', hurt') && Inv(RunAll(m, qs).tables)
    ensures (DeskOf(w', hurt', RunAll(m, qs).tables), Replies(m, qs))
         == IdealAll(DeskOf(w, hurt, m.tables), tidy, qs, Succeeded(m, qs))
    decreases |qs|
  {
    hide Permitted, IdealServe, Next, Reply, SysInv, Inv, DeskOf, NoStraySlots, SameBehind;
    if qs == [] {
      w', hurt' := w, hurt;
    } else {
      var w1, hurt1 := ServeRefines(m, w, hurt, tidy, qs[0]);
      BehindKeepsStrays(m.sys.vol.disk, Next(m, qs[0]).sys.vol.disk);
      assert Succeeded(m, qs)[1..] == Succeeded(Next(m, qs[0]), qs[1..]);
      w', hurt' := AllRefines(Next(m, qs[0]), w1, hurt1, tidy, qs[1..]);
    }
  }

  /** So from mkfs on, with no file open. */
  lemma AllFromBoot(d: Disk, left: Leftovers, tidy: bool, qs: seq<Request>) returns (w: World, hurt: set<nat>)
    requires Boot(d, left).ok && (tidy ==> NoStraySlots(d))
    requires var m := Machine(Boot(d, left).sys, map[]);
      PermittedRun(Desk(ROOT_ONLY, map[]), tidy, qs, Succeeded(m, qs))
    ensures var m := Machine(Boot(d, left).sys, map[]);
      && SysInv(RunAll(m, qs).sys, w, hurt) && Inv(RunAll(m, qs).tables)
      && (DeskOf(w, hurt, RunAll(m, qs).tables), Replies(m, qs))
         == IdealAll(Desk(ROOT_ONLY, map[]), tidy, qs, Succeeded(m, qs))
  {
    hide Boot, SysInv, RunAll, IdealAll, NoStraySlots, SameBehind;
    var w0 := BootMakesRoot(d, left);
    BehindKeepsStrays(d, Boot(d, left).sys.vol.disk);
    var none: Tables := map[];
    assert Abstract(none) == map[];
    w, hurt := AllRefines(Machine(Boot(d, left).sys, none), w0, {}, tidy, qs);
  }
}
