/**
 The client threads of the file server as a state machine (file_server/fserv.cc over file_server/descriptor.cc).
 FOPEN is split at trylock, check, create, open of the table, append and unlock. FCLOSE, which takes no lock, is
 split at the open of the table, the open of the cache file, the copy of each row, the end of the file, remove,
 rename and close.
 */
module Protocol {
  import opened Options
  import opened Records

  type Thread = nat

  /** Where a client thread is. */
  datatype Stage =
    | Idle
    | Locked(name: string)                          // trylock succeeded
    | Absent(name: string)                          // check_descriptor found no row
    | Created(name: string, fd: int)                // create_file returned fd, -1 on failure
    | Appending(name: string, fd: int, inode: nat)  // write_descriptor has the table open
    | Unlocking                                     // the reply is out
    | Deleting(fd: int, source: nat)                // delete_descriptor has the table open
    | Copying(copy: Copy)                           // delete_descriptor has the cache file open, too
    | Unlinked(copy: Copy, removed: bool)           // delete_descriptor has called remove
    | Closing(fd: int)                              // delete_descriptor returned 0

  /** The copy loop of delete_descriptor: the two open files, and how far it has read the one and written the other. */
  datatype Copy = Copy(fd: int, source: nat, dest: nat, pos: nat, written: nat, found: bool, eof: bool)

  datatype Event =
    | Issued(fd: int)                // open returned fd
    | OpenOk(name: string, fd: int)  // FOPEN replies OK
    | Deleted(fd: int)               // FCLOSE has removed the table with the row
    | Closed(fd: int)                // FCLOSE calls close

  /**
   disk: the rows of every file of rows there ever was, by inode; a file that has lost its name is still there for
   the threads that have it open. table, cache: the files that the names file_table and file_table_cache lead to.
   files: the descriptors that create_file opened and FCLOSE has not closed. others: all other open descriptors.
   log only records what happened.
   */
  datatype State = State(pid: int, stages: seq<Stage>, holder: Option<Thread>, disk: seq<seq<Record>>,
                         table: Option<nat>, cache: Option<nat>,
                         files: set<int>, others: set<int>, log: seq<Event>)

  datatype Action =
    | Connect
    | TryLock(t: Thread, name: string)
    | Check(t: Thread)
    | Create(t: Thread, fd: int)
    | OpenTable(t: Thread, ok: bool)
    | Append(t: Thread)
    | Unlock(t: Thread)
    | StartDelete(t: Thread, fd: int)
    | OpenCache(t: Thread)
    | CopyRow(t: Thread)
    | SeeEnd(t: Thread)
    | Unlink(t: Thread)
    | Rename(t: Thread)
    | CloseFile(t: Thread)
    | OtherOpen(fd: int)
    | OtherClose(fd: int)

  predicate Critical(stage: Stage) {
    stage.Locked? || stage.Absent? || stage.Created? || stage.Appending? || stage.Unlocking?
  }

  // ---------- files of rows ----------

  function FileRows(disk: seq<seq<Record>>, inode: nat): seq<Record> {
    if inode < |disk| then disk[inode] else []
  }

  /** The table, or the file that is to be renamed to it when file_table has been removed. */
  function Current(s: State): Option<nat> {
    if s.table.Some? then s.table else s.cache
  }

  function Rows(s: State): seq<Record> {
    if Current(s).Some? then FileRows(s.disk, Current(s).value) else []
  }

  /** A row is appended to a file. */
  function AppendRow(disk: seq<seq<Record>>, inode: nat, r: Record): seq<seq<Record>> {
    if inode < |disk| then disk[inode := disk[inode] + [r]] else disk
  }

  /** A row is written at row k of a file, over what is there. */
  function WriteRow(disk: seq<seq<Record>>, inode: nat, k: nat, r: Record): seq<seq<Record>> {
    if inode < |disk| && k < |disk[inode]| then disk[inode := disk[inode][k := r]] else AppendRow(disk, inode, r)
  }

  // ---------- steps ----------

  predicate At(s: State, t: Thread) {
    t < |s.stages|
  }

  /** The operating system never returns an open descriptor, and never 0. */
  predicate Issuable(s: State, fd: int) {
    fd > 0 && fd !in s.files && fd !in s.others
  }

  predicate InCopyLoop(s: State, t: Thread) {
    At(s, t) && s.stages[t].Copying? && !s.stages[t].copy.eof
  }

  /**
   When a step can happen. It is assumed that open returns no descriptor that is in use, and never 0. Any number of
   threads can be deleting at the same time. Read loops do not end while file_table is not there, and are left out.
   */
  predicate Enabled(s: State, a: Action) {
    match a
    case Connect => true
    case TryLock(t, name) => At(s, t) && s.stages[t] == Idle
    case Check(t) => At(s, t) && s.stages[t].Locked? && s.table.Some?
    case Create(t, fd) => At(s, t) && s.stages[t].Absent? && (fd == -1 || Issuable(s, fd))
    case OpenTable(t, ok) => At(s, t) && s.stages[t].Created? && (ok ==> s.table.Some?)
    case Append(t) => At(s, t) && s.stages[t].Appending?
    case Unlock(t) => At(s, t) && s.stages[t] == Unlocking
    case StartDelete(t, fd) => At(s, t) && s.stages[t] == Idle && s.table.Some?
    case OpenCache(t) => At(s, t) && s.stages[t].Deleting?
    case CopyRow(t) => InCopyLoop(s, t) && s.stages[t].copy.pos < |FileRows(s.disk, s.stages[t].copy.source)|
    case SeeEnd(t) => InCopyLoop(s, t) && |FileRows(s.disk, s.stages[t].copy.source)| <= s.stages[t].copy.pos
    case Unlink(t) => At(s, t) && s.stages[t].Copying? && s.stages[t].copy.eof
    case Rename(t) => At(s, t) && s.stages[t].Unlinked?
    case CloseFile(t) => At(s, t) && s.stages[t].Closing?
    case OtherOpen(fd) => Issuable(s, fd)
    case OtherClose(fd) => fd in s.others
  }

  function Move(s: State, t: Thread, stage: Stage): State
    requires At(s, t)
  {
    s.(stages := s.stages[t := stage])
  }

  /** The loop reads the next row, and writes it to the cache file unless it is to be deleted. */
  function Copied(s: State, t: Thread): State
    requires Enabled(s, CopyRow(t))
  {
    var c := s.stages[t].copy;
    var r := FileRows(s.disk, c.source)[c.pos];
    if r.fd == c.fd then Move(s, t, Copying(c.(pos := c.pos + 1, found := true)))
    else Move(s, t, Copying(c.(pos := c.pos + 1, written := c.written + 1)))
           .(disk := WriteRow(s.disk, c.dest, c.written, r))
  }

  /** Whatever file_table is now is removed; remove fails if there is none. */
  function Removed(s: State, t: Thread): State
    requires Enabled(s, Unlink(t))
  {
    var c, removed := s.stages[t].copy, s.table.Some?;
    Move(s, t, Unlinked(c, removed)).(table := None, log := if c.found && removed then s.log + [Deleted(c.fd)] else s.log)
  }

  /** Whatever file_table_cache is now takes the name file_table; rename fails if there is none. */
  function Renamed(s: State, t: Thread): State
    requires Enabled(s, Rename(t))
  {
    var Unlinked(c, removed) := s.stages[t];
    if s.cache.Some? then
      Move(s, t, if c.found && removed then Closing(c.fd) else Idle).(table := s.cache, cache := None)
    else Move(s, t, Idle)
  }

  function Next(s: State, a: Action): State
    requires Enabled(s, a)
  {
    match a
    case Connect => s.(stages := s.stages + [Idle])
    case TryLock(t, name) =>
      if s.holder == None then Move(s, t, Locked(name)).(holder := Some(t)) else s
    case Check(t) =>
      var name := s.stages[t].name;
      if Lookup(Rows(s), name) == 0 then Move(s, t, Absent(name)) else Move(s, t, Unlocking)
    case Create(t, fd) =>
      var s' := Move(s, t, Created(s.stages[t].name, fd));
      if fd == -1 then s' else s'.(files := s.files + {fd}, log := s.log + [Issued(fd)])
    case OpenTable(t, ok) =>
      var Created(name, fd) := s.stages[t];
      Move(s, t, if ok then Appending(name, fd, s.table.value) else Unlocking)
    case Append(t) =>
      var Appending(name, fd, inode) := s.stages[t];
      Move(s, t, Unlocking).(disk := AppendRow(s.disk, inode, Record(s.pid, name, fd)),
                             log := if fd == -1 then s.log else s.log + [OpenOk(name, fd)])
    case Unlock(t) => Move(s, t, Idle).(holder := None)
    case StartDelete(t, fd) => Move(s, t, Deleting(fd, s.table.value))
    case OpenCache(t) =>
      var Deleting(fd, source) := s.stages[t];
      if s.cache.Some? then Move(s, t, Copying(Copy(fd, source, s.cache.value, 0, 0, false, false)))
      else Move(s, t, Copying(Copy(fd, source, |s.disk|, 0, 0, false, false)))
             .(disk := s.disk + [[]], cache := Some(|s.disk|))
    case CopyRow(t) => Copied(s, t)
    case SeeEnd(t) => Move(s, t, Copying(s.stages[t].copy.(eof := true)))
    case Unlink(t) => Removed(s, t)
    case Rename(t) => Renamed(s, t)
    case CloseFile(t) =>
      var fd := s.stages[t].fd;
      Move(s, t, Idle).(files := s.files - {fd}, others := s.others - {fd}, log := s.log + [Closed(fd)])
    case OtherOpen(fd) => s.(others := s.others + {fd})
    case OtherClose(fd) => s.(others := s.others - {fd})
  }

  /** The table has been created empty, and no earlier run has left a cache file behind. */
  predicate Init(s: State) {
    && s.stages == [] && s.holder == None && s.disk == [[]] && s.table == Some(0) && s.cache == None
    && s.files == {} && s.log == []
    && forall fd :: fd in s.others ==> fd > 0
  }

  /** A finite run of any number of threads. */
  ghost predicate Run(states: seq<State>, acts: seq<Action>) {
    && |states| == |acts| + 1
    && Init(states[0])
    && forall i :: 0 <= i < |acts| ==> Enabled(states[i], acts[i]) && states[i + 1] == Next(states[i], acts[i])
  }

  // ---------- what holds in every run ----------

  ghost predicate LockInv(s: State) {
    && (forall t :: 0 <= t < |s.stages| ==> (Critical(s.stages[t]) <==> s.holder == Some(t)))
    && (s.holder.Some? ==> s.holder.value < |s.stages|)
  }

  predicate HasCopy(stage: Stage) {
    stage.Copying? || stage.Unlinked?
  }

  /** A thread has only existing files open, its source is never the cache file, and files do not shrink. */
  predicate StagePlaced(stage: Stage, disk: seq<seq<Record>>, cache: Option<nat>) {
    && (stage.Appending? ==> stage.inode < |disk| && cache != Some(stage.inode))
    && (stage.Deleting? ==> stage.source < |disk| && cache != Some(stage.source))
    && (HasCopy(stage) ==>
          var c := stage.copy;
          && c.source < |disk| && cache != Some(c.source) && c.pos <= |disk[c.source]|
          && c.dest < |disk| && c.written <= |disk[c.dest]|)
  }

  ghost predicate Placed(s: State) {
    && (s.table.Some? ==> s.table.value < |s.disk|)
    && (s.cache.Some? ==> s.cache.value < |s.disk| && s.cache != s.table)
    && forall t :: 0 <= t < |s.stages| ==> StagePlaced(s.stages[t], s.disk, s.cache)
  }

  ghost predicate Separate(s: State) {
    s.files !! s.others && forall fd :: fd in s.files || fd in s.others ==> fd > 0
  }

  predicate NonZero(rows: seq<Record>) {
    forall r :: r in rows ==> r.fd != 0
  }

  /** No row has fd 0, which check_descriptor takes for an absent row. */
  ghost predicate NoZeros(s: State) {
    && (forall i :: 0 <= i < |s.disk| ==> NonZero(s.disk[i]))
    && (forall t :: 0 <= t < |s.stages| && (s.stages[t].Created? || s.stages[t].Appending?) ==> s.stages[t].fd != 0)
  }

  ghost predicate BasicInv(s: State) {
    LockInv(s) && Placed(s) && Separate(s) && NoZeros(s)
  }

  // ---------- every step keeps the basic invariant ----------

  lemma LockMove(s: State, s': State, t: Thread)
    requires LockInv(s) && At(s, t) && At(s', t) && s'.stages == s.stages[t := s'.stages[t]] && s'.holder == s.holder
    requires Critical(s'.stages[t]) <==> Critical(s.stages[t])
    ensures LockInv(s')
  {
  }

  lemma LockTaken(s: State, a: Action)
    requires LockInv(s) && Enabled(s, a) && (a.TryLock? || a.Unlock?)
    ensures LockInv(Next(s, a))
  {
  }

  predicate OfDeletion(a: Action) {
    a.StartDelete? || a.OpenCache? || a.CopyRow? || a.SeeEnd? || a.Unlink? || a.Rename? || a.CloseFile?
  }

  lemma LockInOpening(s: State, a: Action)
    requires LockInv(s) && Enabled(s, a) && (a.Check? || a.Create? || a.OpenTable? || a.Append?)
    ensures LockInv(Next(s, a))
  {
    LockMove(s, Next(s, a), a.t);
  }

  lemma LockInCopying(s: State, a: Action)
    requires LockInv(s) && Enabled(s, a) && (a.CopyRow? || a.Unlink? || a.Rename?)
    ensures LockInv(Next(s, a))
  {
    LockMove(s, Next(s, a), a.t);
  }

  lemma LockInDeletion(s: State, a: Action)
    requires LockInv(s) && Enabled(s, a) && (a.StartDelete? || a.OpenCache? || a.SeeEnd? || a.CloseFile?)
    ensures LockInv(Next(s, a))
  {
    LockMove(s, Next(s, a), a.t);
  }

  lemma LockStep(s: State, a: Action)
    requires LockInv(s) && Enabled(s, a)
    ensures LockInv(Next(s, a))
  {
    if a.TryLock? || a.Unlock? {
      LockTaken(s, a);
    } else if a.CopyRow? || a.Unlink? || a.Rename? {
      LockInCopying(s, a);
    } else if OfDeletion(a) {
      LockInDeletion(s, a);
    } else if a.Check? || a.Create? || a.OpenTable? || a.Append? {
      LockInOpening(s, a);
    }
  }

  /** No file is removed from the disk, and none gets shorter. */
  predicate Grown(disk: seq<seq<Record>>, disk': seq<seq<Record>>) {
    |disk| <= |disk'| && forall i :: 0 <= i < |disk| ==> |disk[i]| <= |disk'[i]|
  }

  lemma PlacedMove(s: State, s': State, t: Thread, stage: Stage)
    requires Placed(s) && At(s, t) && s'.stages == s.stages[t := stage]
    requires Grown(s.disk, s'.disk) && s'.table == s.table && s'.cache == s.cache && StagePlaced(stage, s'.disk, s'.cache)
    ensures Placed(s')
  {
  }

  lemma PlacedOpenCache(s: State, t: Thread)
    requires Placed(s) && Enabled(s, OpenCache(t))
    ensures Placed(Next(s, OpenCache(t)))
  {
  }

  lemma PlacedCopyRow(s: State, t: Thread)
    requires Placed(s) && Enabled(s, CopyRow(t))
    ensures Placed(Next(s, CopyRow(t)))
  {
    var s' := Next(s, CopyRow(t));
    PlacedMove(s, s', t, s'.stages[t]);
  }

  lemma PlacedUnlink(s: State, t: Thread)
    requires Placed(s) && Enabled(s, Unlink(t))
    ensures Placed(Next(s, Unlink(t)))
  {
  }

  lemma PlacedRename(s: State, t: Thread)
    requires Placed(s) && Enabled(s, Rename(t))
    ensures Placed(Next(s, Rename(t)))
  {
  }

  lemma PlacedOpening(s: State, a: Action)
    requires Placed(s) && Enabled(s, a)
    requires a.TryLock? || a.Check? || a.Create? || a.OpenTable? || a.Append? || a.Unlock?
    ensures Placed(Next(s, a))
  {
    PlacedMove(s, Next(s, a), a.t, Next(s, a).stages[a.t]);
  }

  lemma PlacedDeletion(s: State, a: Action)
    requires Placed(s) && Enabled(s, a) && (a.StartDelete? || a.SeeEnd? || a.CloseFile?)
    ensures Placed(Next(s, a))
  {
    PlacedMove(s, Next(s, a), a.t, Next(s, a).stages[a.t]);
  }

  lemma PlacedStep(s: State, a: Action)
    requires Placed(s) && Enabled(s, a)
    ensures Placed(Next(s, a))
  {
    match a {
      case Connect =>
      case OtherOpen(_) =>
      case OtherClose(_) =>
      case OpenCache(t) => PlacedOpenCache(s, t);
      case CopyRow(t) => PlacedCopyRow(s, t);
      case Unlink(t) => PlacedUnlink(s, t);
      case Rename(t) => PlacedRename(s, t);
      case StartDelete(_, _) => PlacedDeletion(s, a);
      case SeeEnd(_) => PlacedDeletion(s, a);
      case CloseFile(_) => PlacedDeletion(s, a);
      case _ => PlacedOpening(s, a);
    }
  }

  lemma SeparateStep(s: State, a: Action)
    requires Separate(s) && Enabled(s, a)
    ensures Separate(Next(s, a))
  {
  }

  lemma NoZerosCopyRow(s: State, t: Thread)
    requires NoZeros(s) && Enabled(s, CopyRow(t))
    ensures NoZeros(Next(s, CopyRow(t)))
  {
    var c := s.stages[t].copy;
    assert FileRows(s.disk, c.source)[c.pos] in s.disk[c.source];
  }

  lemma NoZerosAppend(s: State, t: Thread)
    requires NoZeros(s) && Enabled(s, Append(t))
    ensures NoZeros(Next(s, Append(t)))
  {
  }

  lemma NoZerosStep(s: State, a: Action)
    requires NoZeros(s) && Enabled(s, a)
    ensures NoZeros(Next(s, a))
  {
    match a {
      case CopyRow(t) => NoZerosCopyRow(s, t);
      case Append(t) => NoZerosAppend(s, t);
      case _ =>
    }
  }

  lemma BasicStep(s: State, a: Action)
    requires BasicInv(s) && Enabled(s, a)
    ensures BasicInv(Next(s, a))
  {
    LockStep(s, a);
    PlacedStep(s, a);
    SeparateStep(s, a);
    NoZerosStep(s, a);
  }

  /** In every run one thread at most is in the critical section, and the threads' files are where they think. */
  lemma {:induction false} RunKeepsBasic(states: seq<State>, acts: seq<Action>)
    requires Run(states, acts)
    ensures forall i :: 0 <= i < |states| ==> BasicInv(states[i])
  {
    for i := 0 to |acts|
      invariant forall j :: 0 <= j <= i ==> BasicInv(states[j])
    {
      BasicStep(states[i], acts[i]);
    }
  }

  // ---------- deletions that have a cache file each ----------

  /** The copy holds the survivors of a prefix of its source, which meanwhile only grows. */
  predicate CopyOfPrefix(source: seq<Record>, dest: seq<Record>, c: Copy) {
    && c.pos <= |source|
    && dest == Remove(source[..c.pos], c.fd) && c.written == |dest|
    && (c.found <==> HasFd(source[..c.pos], c.fd))
  }

  /** A thread in its copy loop finds the table in place; one that has removed it finds it gone. */
  predicate CopyingInv(stage: Stage, disk: seq<seq<Record>>, table: Option<nat>, cache: Option<nat>) {
    && (stage.Copying? ==> table.Some?)
    && (stage.Unlinked? ==> table == None && stage.removed)
    && (HasCopy(stage) ==>
          && cache == Some(stage.copy.dest)
          && CopyOfPrefix(FileRows(disk, stage.copy.source), FileRows(disk, stage.copy.dest), stage.copy))
  }

  /** The cache file is the copy of one thread, and is there when the table is not. */
  ghost predicate CopyInv(s: State) {
    && (s.table == None ==> s.cache.Some?)
    && (forall t :: 0 <= t < |s.stages| ==> CopyingInv(s.stages[t], s.disk, s.table, s.cache))
    && (forall t, u :: 0 <= t < u < |s.stages| ==> !(HasCopy(s.stages[t]) && HasCopy(s.stages[u])))
  }

  /** A deletion opens a cache file that another one has made. */
  predicate SharesCache(s: State, a: Action)
    requires Enabled(s, a)
  {
    a.OpenCache? && s.cache.Some?
  }

  lemma PrefixOfGrown(source: seq<Record>, r: Record, dest: seq<Record>, c: Copy)
    requires CopyOfPrefix(source, dest, c)
    ensures CopyOfPrefix(source + [r], dest, c)
  {
    assert (source + [r])[..c.pos] == source[..c.pos];
  }

  lemma CopyAppend(s: State, t: Thread)
    requires Placed(s) && CopyInv(s) && Enabled(s, Append(t))
    ensures CopyInv(Next(s, Append(t)))
  {
    var s' := Next(s, Append(t));
    var Appending(name, fd, inode) := s.stages[t];
    forall u | 0 <= u < |s'.stages| && HasCopy(s'.stages[u])
      ensures CopyingInv(s'.stages[u], s'.disk, s'.table, s'.cache)
    {
      var c := s.stages[u].copy;
      assert CopyingInv(s.stages[u], s.disk, s.table, s.cache) && StagePlaced(s.stages[u], s.disk, s.cache);
      PrefixOfGrown(s.disk[c.source], Record(s.pid, name, fd), s.disk[c.dest], c);
    }
  }

  lemma ExtendCopy(source: seq<Record>, dest: seq<Record>, c: Copy)
    requires CopyOfPrefix(source, dest, c) && c.pos < |source|
    ensures var r := source[c.pos];
            if r.fd == c.fd then CopyOfPrefix(source, dest, c.(pos := c.pos + 1, found := true))
            else CopyOfPrefix(source, dest + [r], c.(pos := c.pos + 1, written := c.written + 1))
  {
    NextRow(source, c.pos, c.fd);
  }

  /** In the copy of one thread the next row is written at the end. */
  lemma CopyRowGrowsCopy(s: State, t: Thread)
    requires Placed(s) && CopyInv(s) && Enabled(s, CopyRow(t))
    ensures var c, s' := s.stages[t].copy, Next(s, CopyRow(t));
            && c.source < |s.disk| && c.dest < |s.disk| && s.table.Some? && s.table != Some(c.dest) && c.source != c.dest
            && s'.disk == if s.disk[c.source][c.pos].fd == c.fd then s.disk
                          else s.disk[c.dest := s.disk[c.dest] + [s.disk[c.source][c.pos]]]
  {
    assert CopyingInv(s.stages[t], s.disk, s.table, s.cache) && StagePlaced(s.stages[t], s.disk, s.cache);
  }

  lemma OnlyCopier(s: State, s': State, t: Thread)
    requires CopyInv(s) && At(s, t) && HasCopy(s.stages[t]) && At(s', t) && s'.stages == s.stages[t := s'.stages[t]]
    requires s'.table == None ==> s'.cache.Some?
    requires CopyingInv(s'.stages[t], s'.disk, s'.table, s'.cache)
    ensures CopyInv(s')
  {
    assert forall u :: 0 <= u < |s.stages| && u != t ==> !HasCopy(s.stages[u]);
  }

  lemma ExtendInPlace(disk: seq<seq<Record>>, c: Copy)
    requires c.source < |disk| && c.dest < |disk| && c.source != c.dest && c.pos < |disk[c.source]|
    requires CopyOfPrefix(disk[c.source], disk[c.dest], c)
    ensures var r := disk[c.source][c.pos];
            if r.fd == c.fd then CopyOfPrefix(disk[c.source], disk[c.dest], c.(pos := c.pos + 1, found := true))
            else var disk' := disk[c.dest := disk[c.dest] + [r]];
                 CopyOfPrefix(disk'[c.source], disk'[c.dest], c.(pos := c.pos + 1, written := c.written + 1))
  {
    ExtendCopy(disk[c.source], disk[c.dest], c);
  }

  lemma CopyRowExtends(s: State, t: Thread)
    requires Placed(s) && CopyInv(s) && Enabled(s, CopyRow(t))
    ensures var s' := Next(s, CopyRow(t)); CopyingInv(s'.stages[t], s'.disk, s'.table, s'.cache)
  {
    assert CopyingInv(s.stages[t], s.disk, s.table, s.cache) && StagePlaced(s.stages[t], s.disk, s.cache);
    CopyRowGrowsCopy(s, t);
    var c, s' := s.stages[t].copy, Next(s, CopyRow(t));
    ExtendInPlace(s.disk, c);
    assert s'.stages[t].copy.source == c.source && s'.stages[t].copy.dest == c.dest && s'.cache == Some(c.dest);
    assert CopyOfPrefix(s'.disk[c.source], s'.disk[c.dest], s'.stages[t].copy);
  }

  lemma CopyCopyRow(s: State, t: Thread)
    requires Placed(s) && CopyInv(s) && Enabled(s, CopyRow(t))
    ensures CopyInv(Next(s, CopyRow(t))) && Rows(Next(s, CopyRow(t))) == Rows(s)
  {
    CopyRowGrowsCopy(s, t);
    CopyRowExtends(s, t);
    OnlyCopier(s, Next(s, CopyRow(t)), t);
  }

  lemma CopyOpenCache(s: State, t: Thread)
    requires Placed(s) && CopyInv(s) && Enabled(s, OpenCache(t)) && !SharesCache(s, OpenCache(t))
    ensures CopyInv(Next(s, OpenCache(t)))
  {
    var c := Next(s, OpenCache(t)).stages[t].copy;
    assert forall u :: 0 <= u < |s.stages| ==> CopyingInv(s.stages[u], s.disk, s.table, s.cache);
    assert forall u :: 0 <= u < |s.stages| ==> !HasCopy(s.stages[u]);
    assert StagePlaced(s.stages[t], s.disk, s.cache);
    assert CopyOfPrefix(s.disk[c.source], [], c) by {
      assert s.disk[c.source][..0] == [];
    }
  }

  lemma CopyUnlink(s: State, t: Thread)
    requires Placed(s) && CopyInv(s) && Enabled(s, Unlink(t))
    ensures CopyInv(Next(s, Unlink(t)))
  {
    assert CopyingInv(s.stages[t], s.disk, s.table, s.cache);
    OnlyCopier(s, Next(s, Unlink(t)), t);
  }

  lemma CopyRename(s: State, t: Thread)
    requires Placed(s) && CopyInv(s) && Enabled(s, Rename(t))
    ensures CopyInv(Next(s, Rename(t))) && Rows(Next(s, Rename(t))) == Rows(s)
  {
    assert CopyingInv(s.stages[t], s.disk, s.table, s.cache);
    OnlyCopier(s, Next(s, Rename(t)), t);
  }

  /** Whatever other deletions do: the thread goes on to close exactly if it found a row, and both calls succeed. */
  lemma WhoCloses(s: State, t: Thread)
    requires Enabled(s, Unlink(t)) && s.stages[t].copy.eof
    ensures var s1 := Next(s, Unlink(t));
            && Enabled(s1, Rename(t)) && s1.table == None
            && (s1.stages[t].removed <==> s.table.Some?)
            && var s2 := Next(s1, Rename(t));
               && (s2.stages[t].Closing? <==> s.stages[t].copy.found && s.table.Some? && s.cache.Some?)
               && (s2.stages[t].Closing? ==> s2.stages[t].fd == s.stages[t].copy.fd)
               && (!s2.stages[t].Closing? ==> s2.stages[t] == Idle)
               && s2.table == s.cache && s2.cache == None
  {
  }

  lemma CopyMove(s: State, s': State, t: Thread)
    requires CopyInv(s) && At(s, t) && At(s', t) && s'.stages == s.stages[t := s'.stages[t]]
    requires s'.disk == s.disk && s'.table == s.table && s'.cache == s.cache
    requires CopyingInv(s'.stages[t], s.disk, s.table, s.cache)
    requires HasCopy(s'.stages[t]) ==> HasCopy(s.stages[t])
    ensures CopyInv(s')
  {
  }

  lemma CopyStep(s: State, a: Action)
    requires Placed(s) && CopyInv(s) && Enabled(s, a) && !SharesCache(s, a)
    ensures CopyInv(Next(s, a))
  {
    match a {
      case Connect =>
      case OtherOpen(_) =>
      case OtherClose(_) =>
      case Append(t) => CopyAppend(s, t);
      case OpenCache(t) => CopyOpenCache(s, t);
      case CopyRow(t) => CopyCopyRow(s, t);
      case Unlink(t) => CopyUnlink(s, t);
      case Rename(t) => CopyRename(s, t);
      case _ => CopyMove(s, Next(s, a), a.t);
    }
  }

  /** Every deletion has a cache file of its own. */
  ghost predicate Private(states: seq<State>, acts: seq<Action>)
    requires Run(states, acts)
  {
    forall i :: 0 <= i < |acts| ==> !SharesCache(states[i], acts[i])
  }

  /** In such a run the copy is always the survivors of a prefix of its source. */
  lemma {:induction false} RunKeepsCopies(states: seq<State>, acts: seq<Action>)
    requires Run(states, acts) && Private(states, acts)
    ensures forall i :: 0 <= i < |states| ==> BasicInv(states[i]) && CopyInv(states[i])
  {
    RunKeepsBasic(states, acts);
    for i := 0 to |acts|
      invariant forall j :: 0 <= j <= i ==> CopyInv(states[j])
    {
      CopyStep(states[i], acts[i]);
    }
  }

  // ---------- how the rows change ----------

  /** The rows that a deletion has read of the table it opened. */
  function Read(s: State, t: Thread): (read: seq<Record>)
    requires At(s, t) && HasCopy(s.stages[t])
  {
    var c := s.stages[t].copy;
    var source := FileRows(s.disk, c.source);
    if c.pos <= |source| then source[..c.pos] else source
  }

  /** What takes the place of the rows when a deletion removes the table: the survivors of what it has read. */
  lemma UnlinkedRows(s: State, t: Thread)
    requires Placed(s) && CopyInv(s) && Enabled(s, Unlink(t))
    ensures var c, s' := s.stages[t].copy, Next(s, Unlink(t));
            && Rows(s') == Remove(Read(s, t), c.fd)
            && (c.found <==> HasFd(Read(s, t), c.fd))
            && s'.stages == s.stages[t := Unlinked(c, true)]
            && s'.log == if c.found then s.log + [Deleted(c.fd)] else s.log
  {
    assert CopyingInv(s.stages[t], s.disk, s.table, s.cache);
  }

  lemma AppendedRows(s: State, t: Thread)
    requires Placed(s) && Enabled(s, Append(t))
    ensures var r := Record(s.pid, s.stages[t].name, s.stages[t].fd);
            Rows(Next(s, Append(t))) == if s.table == Some(s.stages[t].inode) then Rows(s) + [r] else Rows(s)
  {
    assert StagePlaced(s.stages[t], s.disk, s.cache);
  }

  lemma OpenCacheRows(s: State, t: Thread)
    requires Placed(s) && Enabled(s, OpenCache(t))
    ensures Rows(Next(s, OpenCache(t))) == Rows(s)
  {
  }

  /** No other step changes the rows. */
  lemma RowsKept(s: State, a: Action)
    requires Placed(s) && CopyInv(s) && Enabled(s, a) && !a.Append? && !a.Unlink?
    ensures Rows(Next(s, a)) == Rows(s)
  {
    match a {
      case OpenCache(t) => OpenCacheRows(s, t);
      case CopyRow(t) => CopyCopyRow(s, t);
      case Rename(t) => CopyRename(s, t);
      case _ =>
    }
  }

  /** A deletion opens a cache file that another one has made, or removes a table that it did not copy. */
  predicate Collides(s: State, a: Action)
    requires Enabled(s, a)
  {
    SharesCache(s, a) || (a.Unlink? && s.table != Some(s.stages[a.t].copy.source))
  }

  /** No two deletions collide. */
  ghost predicate Orderly(states: seq<State>, acts: seq<Action>)
    requires Run(states, acts)
  {
    forall i :: 0 <= i < |acts| ==> !Collides(states[i], acts[i])
  }

  lemma OrderlyIsPrivate(states: seq<State>, acts: seq<Action>)
    requires Run(states, acts) && Orderly(states, acts)
    ensures Private(states, acts)
  {
    forall i | 0 <= i < |acts| ensures !SharesCache(states[i], acts[i]) {
      assert !Collides(states[i], acts[i]);
    }
  }

  /** Without a collision what a deletion has read is a prefix of the present rows. */
  lemma OrderlyRead(s: State, t: Thread)
    requires Placed(s) && CopyInv(s) && Enabled(s, Unlink(t)) && !Collides(s, Unlink(t))
    ensures s.stages[t].copy.pos <= |Rows(s)| && Read(s, t) == Rows(s)[..s.stages[t].copy.pos]
  {
    assert CopyingInv(s.stages[t], s.disk, s.table, s.cache);
  }
}
