/**
 What FOPEN and FCLOSE of one thread come to when no other thread's step is in between: every step can happen, and
 the rows change as the server changes them that serves one client at a time.
 */
module Requests {
  import opened CStrings
  import opened Options
  import opened Records
  import opened Protocol
  import opened Schedules
  import FileServer

  /** The state after a sequence of actions, if each of them is enabled in its turn. */
  function Execute(s: State, acts: seq<Action>): Option<State> {
    if acts == [] then Some(s)
    else
      match Execute(s, Before(acts))
      case None => None
      case Some(p) => if Enabled(p, Last(acts)) then Some(Next(p, Last(acts))) else None
  }

  lemma Then(start: State, acts: seq<Action>, s: State, a: Action) returns (acts': seq<Action>, s': State)
    requires Execute(start, acts) == Some(s) && Enabled(s, a)
    ensures acts' == acts + [a] && s' == Next(s, a) && Execute(start, acts') == Some(s')
  {
    acts', s' := acts + [a], Next(s, a);
    Unfold(acts, a);
  }

  /** The thread is between requests, the mutex is free, and the table is there. */
  ghost predicate CanStart(s: State, t: Thread) {
    BasicInv(s) && At(s, t) && s.stages[t] == Idle && s.holder == None && s.table.Some?
  }

  // ---------- FOPEN ----------

  /** The steps of FOPEN for a name that has a row, and for one that has none, given what the two opens return. */
  function OpenSteps(t: Thread, name: string, present: bool, fd: int, ok: bool): seq<Action> {
    if present then [TryLock(t, name), Check(t), Unlock(t)]
    else if ok then [TryLock(t, name), Check(t), Create(t, fd), OpenTable(t, true), Append(t), Unlock(t)]
    else [TryLock(t, name), Check(t), Create(t, fd), OpenTable(t, false), Unlock(t)]
  }

  lemma CheckIsAbsence(s: State, name: string)
    requires NoZeros(s)
    ensures Lookup(Rows(s), name) == 0 <==> !HasName(Rows(s), name)
  {
    if HasName(Rows(s), name) {
      LookupFinds(Rows(s), name);
      var r :| r in Rows(s) && r.name == name && r.fd == Lookup(Rows(s), name);
      assert NonZero(s.disk[Current(s).value]);
    } else {
      LookupAbsent(Rows(s), name);
    }
  }

  lemma LockAndCheck(s: State, t: Thread, name: string) returns (acts: seq<Action>, s': State)
    requires CanStart(s, t)
    ensures acts == [TryLock(t, name), Check(t)] && Execute(s, acts) == Some(s')
    ensures s' == s.(holder := Some(t),
                     stages := s.stages[t := if HasName(Rows(s), name) then Unlocking else Absent(name)])
  {
    CheckIsAbsence(s, name);
    acts, s' := Then(s, [], s, TryLock(t, name));
    acts, s' := Then(s, acts, s', Check(t));
  }

  /** FOPEN of a name that has a row leaves everything as it was. */
  lemma OpenOfPresent(s: State, t: Thread, name: string, fd: int, ok: bool)
    requires CanStart(s, t) && HasName(Rows(s), name)
    ensures Execute(s, OpenSteps(t, name, true, fd, ok)) == Some(s)
  {
    var acts, s' := LockAndCheck(s, t, name);
    acts, s' := Then(s, acts, s', Unlock(t));
    assert acts == OpenSteps(t, name, true, fd, ok);
    assert s'.stages == s.stages;
  }

  lemma CreateIt(s: State, t: Thread, name: string, fd: int) returns (acts: seq<Action>, s': State)
    requires CanStart(s, t) && !HasName(Rows(s), name) && (fd == -1 || Issuable(s, fd))
    ensures acts == [TryLock(t, name), Check(t), Create(t, fd)] && Execute(s, acts) == Some(s')
    ensures s' == s.(holder := Some(t), stages := s.stages[t := Created(name, fd)],
                     files := if fd == -1 then s.files else s.files + {fd},
                     log := if fd == -1 then s.log else s.log + [Issued(fd)])
  {
    acts, s' := LockAndCheck(s, t, name);
    acts, s' := Then(s, acts, s', Create(t, fd));
    assert s'.stages == s.stages[t := Created(name, fd)];
  }

  lemma TwoEvents(log: seq<Event>, x: Event, y: Event)
    ensures log + [x] + [y] == log + [x, y]
  {
  }

  lemma IdleAgain(stages: seq<Stage>, t: Thread, stage: Stage)
    requires t < |stages| && stages[t] == Idle
    ensures stages[t := stage][t := Idle] == stages
  {
  }

  /** What FOPEN of an absent name does when the table can be opened: one more row, also if the file was not created. */
  function AfterOpen(s: State, name: string, fd: int): State
    requires s.table.Some? && s.table.value < |s.disk|
  {
    s.(disk := s.disk[s.table.value := s.disk[s.table.value] + [Record(s.pid, name, fd)]],
       files := if fd == -1 then s.files else s.files + {fd},
       log := if fd == -1 then s.log else s.log + [Issued(fd), OpenOk(name, fd)])
  }

  lemma RecordIt(s: State, s0: State, t: Thread, name: string, fd: int, before: seq<Action>)
    returns (acts: seq<Action>, s': State)
    requires Execute(s, before) == Some(s0) && At(s0, t) && s0.stages[t] == Created(name, fd)
    requires s0.table.Some? && s0.table.value < |s0.disk|
    ensures acts == before + [OpenTable(t, true), Append(t), Unlock(t)] && Execute(s, acts) == Some(s')
    ensures s' == s0.(stages := s0.stages[t := Idle], holder := None,
                      disk := s0.disk[s0.table.value := s0.disk[s0.table.value] + [Record(s0.pid, name, fd)]],
                      log := if fd == -1 then s0.log else s0.log + [OpenOk(name, fd)])
  {
    acts, s' := Then(s, before, s0, OpenTable(t, true));
    acts, s' := Then(s, acts, s', Append(t));
    acts, s' := Then(s, acts, s', Unlock(t));
    assert s'.stages == s0.stages[t := Idle];
  }

  lemma OpenOfAbsent(s: State, t: Thread, name: string, fd: int)
    requires CanStart(s, t) && !HasName(Rows(s), name) && (fd == -1 || Issuable(s, fd))
    ensures Execute(s, OpenSteps(t, name, false, fd, true)) == Some(AfterOpen(s, name, fd))
  {
    var before, s0 := CreateIt(s, t, name, fd);
    var acts, s' := RecordIt(s, s0, t, name, fd, before);
    assert acts == OpenSteps(t, name, false, fd, true);
    TwoEvents(s.log, Issued(fd), OpenOk(name, fd));
    IdleAgain(s.stages, t, Created(name, fd));
  }

  /** And when it cannot: no row, although the file is open. */
  lemma OpenWithoutTable(s: State, t: Thread, name: string, fd: int)
    requires CanStart(s, t) && !HasName(Rows(s), name) && (fd == -1 || Issuable(s, fd))
    ensures Execute(s, OpenSteps(t, name, false, fd, false))
         == Some(s.(files := if fd == -1 then s.files else s.files + {fd},
                    log := if fd == -1 then s.log else s.log + [Issued(fd)]))
  {
    var acts, s' := CreateIt(s, t, name, fd);
    acts, s' := Then(s, acts, s', OpenTable(t, false));
    acts, s' := Then(s, acts, s', Unlock(t));
    assert acts == OpenSteps(t, name, false, fd, false);
    assert s'.stages == s.stages;
  }

  /**
   An FOPEN that is not disturbed can go through all its steps, and ends with the rows of the server that serves one
   client at a time. It logs OK exactly if that server replies OK.
   */
  lemma OpenIsSerial(s: State, t: Thread, name: string, fd: int, ok: bool)
    requires CanStart(s, t) && (fd == -1 || Issuable(s, fd))
    ensures var present := HasName(Rows(s), name);
            var end := Execute(s, OpenSteps(t, name, present, fd, ok));
            var (rows, reply) := FileServer.RespondRows(Rows(s), ["FOPEN", name], s.pid, FileServer.Creation(fd, ok));
            && end.Some? && Rows(end.value) == rows
            && rows == (if present || !ok then Rows(s) else Rows(s) + [Record(s.pid, name, fd)])
            && end.value.stages == s.stages && end.value.holder == None
            && end.value.log == s.log + (if present || fd == -1 then [] else [Issued(fd)])
                                      + (if reply.Ok? then [OpenOk(name, fd)] else [])
            && (reply.Ok? <==> !present && ok && fd != -1)
  {
    CheckIsAbsence(s, name);
    if HasName(Rows(s), name) {
      OpenOfPresent(s, t, name, fd, ok);
    } else if ok {
      OpenOfAbsent(s, t, name, fd);
    } else {
      OpenWithoutTable(s, t, name, fd);
    }
  }

  /** While another thread has the mutex, FOPEN fails at once. */
  lemma OpenWhileLocked(s: State, t: Thread, name: string)
    requires At(s, t) && s.stages[t] == Idle && s.holder.Some?
    ensures Execute(s, [TryLock(t, name)]) == Some(s)
  {
    var acts, s' := Then(s, [], s, TryLock(t, name));
  }

  // ---------- FCLOSE ----------

  function CloseSteps(t: Thread, fd: int, n: nat, found: bool): seq<Action> {
    [StartDelete(t, fd), OpenCache(t)] + seq(n, _ => CopyRow(t)) + [SeeEnd(t), Unlink(t), Rename(t)]
    + if found then [CloseFile(t)] else []
  }

  predicate HasTable(s: State) {
    s.table.Some? && s.table.value < |s.disk|
  }

  /** The thread is alone with its copy: it has read k rows of the table. */
  ghost predicate Copied(s: State, s': State, t: Thread, fd: int, k: nat)
    requires At(s, t) && HasTable(s) && k <= |Rows(s)|
  {
    var kept := Remove(Rows(s)[..k], fd);
    var c := Copy(fd, s.table.value, |s.disk|, k, |kept|, HasFd(Rows(s)[..k], fd), false);
    s' == s.(stages := s.stages[t := Copying(c)], disk := s.disk + [kept], cache := Some(|s.disk|))
  }

  lemma StartCopy(s: State, t: Thread, fd: int) returns (acts: seq<Action>, s': State)
    requires CanStart(s, t) && s.cache == None
    ensures acts == [StartDelete(t, fd), OpenCache(t)] && Execute(s, acts) == Some(s') && Copied(s, s', t, fd, 0)
  {
    acts, s' := Then(s, [], s, StartDelete(t, fd));
    acts, s' := Then(s, acts, s', OpenCache(t));
    assert Rows(s)[..0] == [];
    assert s'.stages == s.stages[t := s'.stages[t]];
  }

  lemma WriteLast(disk: seq<seq<Record>>, kept: seq<Record>, r: Record)
    ensures WriteRow(disk + [kept], |disk|, |kept|, r) == disk + [kept + [r]]
  {
  }

  lemma CopyStepIs(s: State, t: Thread, c: Copy, disk: seq<seq<Record>>, kept: seq<Record>)
    requires At(s, t) && s.stages[t] == Copying(c) && !c.eof && c.pos < |FileRows(s.disk, c.source)|
    requires s.disk == disk + [kept] && c.dest == |disk| && c.written == |kept|
    ensures Enabled(s, CopyRow(t))
    ensures var r := FileRows(s.disk, c.source)[c.pos];
            Next(s, CopyRow(t)) ==
              if r.fd == c.fd then s.(stages := s.stages[t := Copying(c.(pos := c.pos + 1, found := true))])
              else s.(stages := s.stages[t := Copying(c.(pos := c.pos + 1, written := c.written + 1))],
                      disk := disk + [kept + [r]])
  {
    WriteLast(disk, kept, FileRows(s.disk, c.source)[c.pos]);
  }

  lemma CopyOne(s: State, s1: State, t: Thread, fd: int, k: nat)
    requires At(s, t) && HasTable(s) && k < |Rows(s)| && Copied(s, s1, t, fd, k)
    ensures Enabled(s1, CopyRow(t)) && Copied(s, Next(s1, CopyRow(t)), t, fd, k + 1)
  {
    NextRow(Rows(s), k, fd);
    assert FileRows(s1.disk, s.table.value) == Rows(s);
    CopyStepIs(s1, t, s1.stages[t].copy, s.disk, Remove(Rows(s)[..k], fd));
    MoveOn(s.stages, t, s1.stages[t], Next(s1, CopyRow(t)).stages[t]);
  }

  lemma MoveOn(stages: seq<Stage>, t: Thread, first: Stage, second: Stage)
    requires t < |stages|
    ensures stages[t := first][t := second] == stages[t := second]
  {
  }

  lemma CopyAll(s: State, t: Thread, fd: int) returns (acts: seq<Action>, s': State)
    requires CanStart(s, t) && s.cache == None
    ensures acts == [StartDelete(t, fd), OpenCache(t)] + seq(|Rows(s)|, _ => CopyRow(t))
    ensures Execute(s, acts) == Some(s') && Copied(s, s', t, fd, |Rows(s)|)
  {
    acts, s' := StartCopy(s, t, fd);
    for k := 0 to |Rows(s)|
      invariant acts == [StartDelete(t, fd), OpenCache(t)] + seq(k, _ => CopyRow(t))
      invariant Execute(s, acts) == Some(s') && Copied(s, s', t, fd, k)
    {
      CopyOne(s, s', t, fd, k);
      acts, s' := Then(s, acts, s', CopyRow(t));
      OneMore([StartDelete(t, fd), OpenCache(t)], t, k);
    }
  }

  lemma OneMore(before: seq<Action>, t: Thread, k: nat)
    ensures before + seq(k, _ => CopyRow(t)) + [CopyRow(t)] == before + seq(k + 1, _ => CopyRow(t))
  {
  }

  /** What FCLOSE does: the table is a new file of the survivors, and a descriptor that was found is closed. */
  function AfterClose(s: State, fd: int): State {
    var found := HasFd(Rows(s), fd);
    s.(disk := s.disk + [Remove(Rows(s), fd)], table := Some(|s.disk|),
       files := if found then s.files - {fd} else s.files, others := if found then s.others - {fd} else s.others,
       log := if found then s.log + [Deleted(fd), Closed(fd)] else s.log)
  }

  lemma FinishCopy(s: State, s0: State, t: Thread, fd: int, before: seq<Action>) returns (acts: seq<Action>, s': State)
    requires At(s, t) && HasTable(s) && s.cache == None
    requires Copied(s, s0, t, fd, |Rows(s)|) && Execute(s, before) == Some(s0)
    ensures acts == before + [SeeEnd(t), Unlink(t), Rename(t)] && Execute(s, acts) == Some(s')
    ensures var found := HasFd(Rows(s), fd);
            s' == s.(stages := s.stages[t := if found then Closing(fd) else Idle],
                     disk := s.disk + [Remove(Rows(s), fd)], table := Some(|s.disk|),
                     log := if found then s.log + [Deleted(fd)] else s.log)
  {
    assert Rows(s)[..|Rows(s)|] == Rows(s);
    assert FileRows(s0.disk, s.table.value) == Rows(s);
    acts, s' := Then(s, before, s0, SeeEnd(t));
    acts, s' := Then(s, acts, s', Unlink(t));
    acts, s' := Then(s, acts, s', Rename(t));
    assert s'.stages == s.stages[t := s'.stages[t]];
  }

  /** An FCLOSE that is not disturbed can go through all its steps. */
  lemma CloseGoesThrough(s: State, t: Thread, fd: int)
    requires CanStart(s, t) && s.cache == None
    ensures Execute(s, CloseSteps(t, fd, |Rows(s)|, HasFd(Rows(s), fd))) == Some(AfterClose(s, fd))
  {
    var before, s0 := CopyAll(s, t, fd);
    var acts, s' := FinishCopy(s, s0, t, fd, before);
    if HasFd(Rows(s), fd) {
      CloseIt(s, s', t, fd, acts);
    } else {
      assert acts + [] == acts;
      assert s'.stages == s.stages;
    }
  }

  lemma CloseIt(s: State, s0: State, t: Thread, fd: int, before: seq<Action>)
    requires CanStart(s, t) && Execute(s, before) == Some(s0)
    requires s0 == s.(stages := s.stages[t := Closing(fd)], disk := s.disk + [Remove(Rows(s), fd)],
                      table := Some(|s.disk|), log := s.log + [Deleted(fd)])
    ensures Execute(s, before + [CloseFile(t)])
         == Some(s.(disk := s.disk + [Remove(Rows(s), fd)], table := Some(|s.disk|),
                    files := s.files - {fd}, others := s.others - {fd}, log := s.log + [Deleted(fd), Closed(fd)]))
  {
    TwoEvents(s.log, Deleted(fd), Closed(fd));
    IdleAgain(s.stages, t, Closing(fd));
    var acts, s' := Then(s, before, s0, CloseFile(t));
  }

  /**
   It ends with the rows of the server that serves one client at a time, and closes the descriptor exactly if that
   server replies OK.
   */
  lemma CloseIsSerial(s: State, t: Thread, d: string, x: string, file: FileServer.Creation)
    requires CanStart(s, t) && s.cache == None
    ensures var fd := Atoi(d);
            var end := Execute(s, CloseSteps(t, fd, |Rows(s)|, HasFd(Rows(s), fd)));
            var (rows, reply) := FileServer.RespondRows(Rows(s), ["FCLOSE", d, x], s.pid, file);
            && end.Some? && Rows(end.value) == rows == Remove(Rows(s), fd)
            && end.value.stages == s.stages && end.value.holder == None && end.value.cache == None
            && end.value.log == s.log + (if reply.Ok? then [Deleted(fd), Closed(fd)] else [])
            && (fd in end.value.files <==> fd in s.files && !reply.Ok?)
            && (reply.Ok? <==> HasFd(Rows(s), fd))
  {
    CloseGoesThrough(s, t, Atoi(d));
    if !HasFd(Rows(s), Atoi(d)) {
      RemoveMiss(Rows(s), Atoi(d));
    }
    assert ["FCLOSE", d, x][1] == d;
  }
}
