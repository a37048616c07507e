/**
 Concrete runs of two client threads in which the file server breaks its promises.
 */
module Interleavings {
  import opened Options
  import opened Records
  import opened Protocol
  import opened Descriptors
  import opened Naming
  import opened Histories
  import opened Schedules
  import opened Requests

  // ---------- runs step by step ----------

  /** No step of it shares a cache file, or loses a row. */
  predicate Careful(s: State, acts: seq<Action>)
    requires Execute(s, acts).Some?
  {
    acts == [] ||
    (var p := Execute(s, Before(acts)).value;
     Careful(s, Before(acts)) && !SharesCache(p, Last(acts)) && !Loses(p, Last(acts)))
  }

  const EMPTY_SERVER := State(1, [], None, [[]], Some(0), None, {}, {}, [])

  /** The actions lead from an empty server to the state; and carefully, if that is asked for. */
  predicate Leads(acts: seq<Action>, s: State, careful: bool) {
    Execute(EMPTY_SERVER, acts) == Some(s) && (careful ==> Careful(EMPTY_SERVER, acts))
  }

  lemma Do(acts: seq<Action>, s: State, careful: bool, a: Action) returns (acts': seq<Action>, s': State)
    requires Leads(acts, s, careful) && Enabled(s, a) && (careful ==> !SharesCache(s, a) && !Loses(s, a))
    ensures Leads(acts', s', careful) && s' == Next(s, a) && acts' == acts + [a]
    ensures Serial(acts) && (a.StartDelete? ==> !DeletionOpen(acts)) ==> Serial(acts')
  {
    acts', s' := acts + [a], Next(s, a);
    Unfold(acts, a);
    forall i | 0 <= i < |acts| ensures acts'[..i] == acts[..i] {
    }
    assert acts'[..|acts|] == acts;
  }

  lemma RunSnoc(states: seq<State>, acts: seq<Action>, s: State, a: Action)
    requires Run(states, acts) && Enabled(states[|acts|], a) && s == Next(states[|acts|], a)
    ensures Run(states + [s], acts + [a])
  {
    var states', acts' := states + [s], acts + [a];
    forall i | 0 <= i < |acts'| ensures Enabled(states'[i], acts'[i]) && states'[i + 1] == Next(states'[i], acts'[i]) {
      if i < |acts| {
        assert states'[i] == states[i] && acts'[i] == acts[i];
      }
    }
  }

  lemma CarefulSnoc(states: seq<State>, acts: seq<Action>, s: State, a: Action)
    requires Run(states, acts) && Run(states + [s], acts + [a]) && Private(states, acts) && Lossless(states, acts)
    requires Enabled(states[|acts|], a) && !SharesCache(states[|acts|], a) && !Loses(states[|acts|], a)
    ensures Private(states + [s], acts + [a]) && Lossless(states + [s], acts + [a])
  {
    var states', acts' := states + [s], acts + [a];
    forall i | 0 <= i < |acts'| ensures !SharesCache(states'[i], acts'[i]) && !Loses(states'[i], acts'[i]) {
      if i < |acts| {
        assert states'[i] == states[i] && acts'[i] == acts[i];
      }
    }
  }

  lemma {:induction false} ExecutionIsRun(acts: seq<Action>, s: State, careful: bool) returns (states: seq<State>)
    requires Leads(acts, s, careful)
    ensures Run(states, acts) && states[|acts|] == s
    ensures careful ==> Private(states, acts) && Lossless(states, acts)
    ensures acts != [] ==> Leads(Before(acts), states[|acts| - 1], careful)
  {
    if acts == [] {
      states := [EMPTY_SERVER];
    } else {
      var p := Execute(EMPTY_SERVER, Before(acts)).value;
      var before := ExecutionIsRun(Before(acts), p, careful);
      states := before + [s];
      assert acts == Before(acts) + [Last(acts)];
      RunSnoc(before, Before(acts), s, Last(acts));
      if careful {
        CarefulSnoc(before, Before(acts), s, Last(acts));
      }
    }
  }

  lemma TwoClients(careful: bool) returns (acts: seq<Action>, s: State)
    ensures Leads(acts, s, careful) && s == EMPTY_SERVER.(stages := [Idle, Idle])
    ensures Serial(acts) && !DeletionOpen(acts)
  {
    acts, s := Do([], EMPTY_SERVER, careful, Connect);
    acts, s := Do(acts, s, careful, Connect);
    assert s.stages == [Idle, Idle];
    assert Before(acts) == [Connect] && Before([Connect]) == [];
  }

  /** The first half of an FOPEN by client 0. */
  lemma CreateFile(acts: seq<Action>, s: State, careful: bool, name: string, fd: int)
    returns (acts': seq<Action>, s': State)
    requires Leads(acts, s, careful)
    requires |s.stages| == 2 && s.stages[0] == Idle && s.holder == None && Issuable(s, fd)
    requires s.table.Some? && Lookup(Rows(s), name) == 0
    ensures Leads(acts', s', careful) && (Serial(acts) ==> Serial(acts'))
    ensures s' == s.(stages := [Created(name, fd), s.stages[1]], holder := Some(0), files := s.files + {fd},
                     log := s.log + [Issued(fd)])
  {
    acts', s' := Do(acts, s, careful, TryLock(0, name));
    acts', s' := Do(acts', s', careful, Check(0));
    acts', s' := Do(acts', s', careful, Create(0, fd));
    assert s'.stages == [Created(name, fd), s.stages[1]];
  }

  /** The second half. */
  lemma RecordFile(acts: seq<Action>, s: State, careful: bool) returns (acts': seq<Action>, s': State)
    requires Leads(acts, s, careful)
    requires |s.stages| == 2 && s.stages[0].Created? && s.stages[0].fd != -1
    requires s.table.Some? && s.table.value < |s.disk|
    ensures Leads(acts', s', careful) && (Serial(acts) ==> Serial(acts'))
    ensures var Created(name, fd) := s.stages[0];
            s' == s.(stages := [Idle, s.stages[1]], holder := None, log := s.log + [OpenOk(name, fd)],
                     disk := s.disk[s.table.value := s.disk[s.table.value] + [Record(s.pid, name, fd)]])
  {
    acts', s' := Do(acts, s, careful, OpenTable(0, true));
    acts', s' := Do(acts', s', careful, Append(0));
    acts', s' := Do(acts', s', careful, Unlock(0));
    assert s'.stages == [Idle, s.stages[1]];
  }

  lemma OpenFile(acts: seq<Action>, s: State, careful: bool, name: string, fd: int)
    returns (acts': seq<Action>, s': State)
    requires Leads(acts, s, careful)
    requires |s.stages| == 2 && s.stages[0] == Idle && s.holder == None && Issuable(s, fd)
    requires s.table.Some? && s.table.value < |s.disk| && Lookup(Rows(s), name) == 0
    ensures Leads(acts', s', careful) && (Serial(acts) ==> Serial(acts'))
    ensures s' == s.(disk := s.disk[s.table.value := s.disk[s.table.value] + [Record(s.pid, name, fd)]],
                     files := s.files + {fd}, log := s.log + [Issued(fd), OpenOk(name, fd)])
    ensures s.disk[s.table.value] == [] ==> s'.disk == s.disk[s.table.value := [Record(s.pid, name, fd)]]
  {
    acts', s' := CreateFile(acts, s, careful, name, fd);
    acts', s' := RecordFile(acts', s', careful);
    assert s'.stages == s.stages;
    assert [] + [Record(s.pid, name, fd)] == [Record(s.pid, name, fd)];
  }

  /** A deletion that has the table open makes a cache file. */
  lemma MakeCache(acts: seq<Action>, s: State, careful: bool, t: Thread) returns (acts': seq<Action>, s': State)
    requires Leads(acts, s, careful) && At(s, t) && s.stages[t].Deleting? && s.cache == None
    ensures Leads(acts', s', careful) && (Serial(acts) ==> Serial(acts'))
    ensures var Deleting(fd, source) := s.stages[t];
            s' == s.(stages := s.stages[t := Copying(Copy(fd, source, |s.disk|, 0, 0, false, false))],
                     disk := s.disk + [[]], cache := Some(|s.disk|))
  {
    acts', s' := Do(acts, s, careful, OpenCache(t));
  }

  /** The deletion is at the end of its source: the copy takes the place of the table. */
  lemma FinishCopy(acts: seq<Action>, s: State, careful: bool, t: Thread) returns (acts': seq<Action>, s': State)
    requires Leads(acts, s, careful) && InCopyLoop(s, t) && s.table.Some? && s.cache.Some?
    requires var c := s.stages[t].copy; |FileRows(s.disk, c.source)| <= c.pos && (careful ==> |Rows(s)| <= c.pos)
    ensures Leads(acts', s', careful) && (Serial(acts) ==> Serial(acts'))
    ensures var c := s.stages[t].copy;
            s' == s.(stages := s.stages[t := if c.found then Closing(c.fd) else Idle], table := s.cache, cache := None,
                     log := if c.found then s.log + [Deleted(c.fd)] else s.log)
  {
    acts', s' := Do(acts, s, careful, SeeEnd(t));
    acts', s' := Do(acts', s', careful, Unlink(t));
    acts', s' := Do(acts', s', careful, Rename(t));
    assert s'.stages == s.stages[t := s'.stages[t]];
  }

  // ---------- a single deletion ----------

  lemma NotSeparated(log: seq<Event>, i: nat, j: nat)
    requires i < j < |log| && log[i].OpenOk? && log[j].OpenOk? && log[i].name == log[j].name
    requires forall k :: i < k < j ==> log[k] != Deleted(log[i].fd)
    ensures !Separated(log)
  {
  }

  /** Client 1 deletes a descriptor that has no row, and its copy loop meets the end of the empty table. */
  lemma CopyNothing() returns (acts: seq<Action>, s: State)
    ensures Leads(acts, s, false) && Serial(acts)
    ensures s == EMPTY_SERVER.(stages := [Idle, Copying(Copy(9, 0, 1, 0, 0, false, true))], disk := [[], []],
                               cache := Some(1))
  {
    acts, s := TwoClients(false);
    acts, s := Do(acts, s, false, StartDelete(1, 9));
    acts, s := MakeCache(acts, s, false, 1);
    acts, s := Do(acts, s, false, SeeEnd(1));
    assert s.stages == [Idle, Copying(Copy(9, 0, 1, 0, 0, false, true))] && s.disk == [[], []];
  }

  /** The copy is installed over a row that was added meanwhile. */
  lemma LoseRow() returns (acts: seq<Action>, s: State)
    ensures Leads(acts, s, false) && Serial(acts)
    ensures s == EMPTY_SERVER.(stages := [Idle, Idle], disk := [[Record(1, "a", 5)], []], table := Some(1), files := {5},
                               log := [Issued(5), OpenOk("a", 5)])
  {
    acts, s := CopyNothing();
    acts, s := OpenFile(acts, s, false, "a", 5);
    acts, s := Do(acts, s, false, Unlink(1));
    acts, s := Do(acts, s, false, Rename(1));
    assert s.stages == [Idle, Idle] && s.disk == [[Record(1, "a", 5)], []];
  }

  /**
   One deletion, of a descriptor that has no row, and two opens: the row of the first is lost, and the same name is
   opened and answered OK again although nothing was closed.
   */
  lemma LosingRun() returns (states: seq<State>, acts: seq<Action>)
    ensures Run(states, acts) && Serial(acts) && !Lossless(states, acts)
    ensures states[|acts|].log == [Issued(5), OpenOk("a", 5), Issued(6), OpenOk("a", 6)]
    ensures !Separated(states[|acts|].log)
  {
    var s;
    acts, s := LoseRow();
    acts, s := OpenFile(acts, s, false, "a", 6);
    NotSeparated(s.log, 1, 3);
    states := ExecutionIsRun(acts, s, false);
    SerialIsOrderly(states, acts);
    if Lossless(states, acts) {
      LosslessIsSeparated(states, acts);
    }
  }

  // ---------- two deletions at the same time ----------

  /** Client 0 opens a file and client 1 starts a deletion. */
  lemma StartSecond(fd: int) returns (acts: seq<Action>, s: State)
    ensures Leads(acts, s, true)
    ensures s == EMPTY_SERVER.(stages := [Idle, Deleting(fd, 0)], disk := [[Record(1, "a", 5)]], files := {5},
                               log := [Issued(5), OpenOk("a", 5)])
  {
    acts, s := TwoClients(true);
    acts, s := OpenFile(acts, s, true, "a", 5);
    acts, s := Do(acts, s, true, StartDelete(1, fd));
    assert s.stages == [Idle, Deleting(fd, 0)];
  }

  /** Meanwhile client 0 starts to delete its file. */
  lemma StartBoth(fd: int) returns (acts: seq<Action>, s: State)
    ensures Leads(acts, s, true)
    ensures s == EMPTY_SERVER.(stages := [Copying(Copy(5, 0, 1, 0, 0, false, false)), Deleting(fd, 0)],
                               disk := [[Record(1, "a", 5)], []], cache := Some(1), files := {5},
                               log := [Issued(5), OpenOk("a", 5)])
  {
    acts, s := StartSecond(fd);
    acts, s := Do(acts, s, true, StartDelete(0, 5));
    acts, s := MakeCache(acts, s, true, 0);
    assert s.stages == [Copying(Copy(5, 0, 1, 0, 0, false, false)), Deleting(fd, 0)];
    assert s.disk == [[Record(1, "a", 5)], []];
  }

  /** Client 0 is done first; the other client still has the old table open. */
  lemma Overtake(fd: int) returns (acts: seq<Action>, s: State)
    ensures Leads(acts, s, true)
    ensures s == EMPTY_SERVER.(stages := [Idle, Deleting(fd, 0)], disk := [[Record(1, "a", 5)], []], table := Some(1),
                               log := [Issued(5), OpenOk("a", 5), Deleted(5), Closed(5)])
  {
    acts, s := StartBoth(fd);
    acts, s := Do(acts, s, true, CopyRow(0));
    acts, s := FinishCopy(acts, s, true, 0);
    acts, s := Do(acts, s, true, CloseFile(0));
    assert s.stages == [Idle, Deleting(fd, 0)];
  }

  /** The other client finds the row again in the old table. */
  lemma DeleteAgain() returns (acts: seq<Action>, s: State)
    ensures Leads(acts, s, true)
    ensures |s.stages| == 2 && s.stages[1] == Closing(5) && s.files == {} && s.others == {5}
    ensures s.log == [Issued(5), OpenOk("a", 5), Deleted(5), Closed(5), Deleted(5)]
  {
    acts, s := Overtake(5);
    acts, s := Do(acts, s, true, OtherOpen(5));
    acts, s := MakeCache(acts, s, true, 1);
    acts, s := Do(acts, s, true, CopyRow(1));
    acts, s := FinishCopy(acts, s, true, 1);
  }

  /**
   Two clients close the same descriptor, and it is closed twice although it was issued only once. What the second
   close closes is a descriptor of the server that the operating system gave the same number.
   */
  lemma ClosedTwice() returns (states: seq<State>, acts: seq<Action>)
    ensures Run(states, acts) && Private(states, acts) && Lossless(states, acts)
    ensures states[|acts|].log == [Issued(5), OpenOk("a", 5), Deleted(5), Closed(5), Deleted(5), Closed(5)]
    ensures acts != [] && acts[|acts| - 1] == CloseFile(1)
    ensures states[|acts| - 1].others == {5} && states[|acts|].others == {}
    ensures !ClosesMatched(states[|acts|].log)
  {
    var before, s := DeleteAgain();
    var s';
    acts, s' := Do(before, s, true, CloseFile(1));
    states := ExecutionIsRun(acts, s', true);
    Unfold(before, CloseFile(1));
    TwiceIsUnmatched(s'.log);
  }

  lemma TwiceIsUnmatched(log: seq<Event>)
    requires log == [Issued(5), OpenOk("a", 5), Deleted(5), Closed(5), Deleted(5), Closed(5)]
    ensures !ClosesMatched(log)
  {
    assert log[3] == Closed(5) && log[4] == Deleted(5) && log[5] == Closed(5);
    if ClosesMatched(log) {
      ClosedOnce(log, 3, 5, 5);
    }
  }

  /** Client 1 copies the row of the closed descriptor out of the old table. */
  lemma CopyOldTable(acts: seq<Action>, s: State) returns (acts': seq<Action>, s': State)
    requires Leads(acts, s, true) && |s.stages| == 2 && s.stages[1] == Deleting(9, 0) && s.cache == None
    requires |s.disk| == 2 && s.disk[0] == [Record(1, "a", 5)] && s.table == Some(1) && |s.disk[1]| <= 1
    ensures Leads(acts', s', true)
    ensures s' == s.(stages := [s.stages[0], Idle], table := Some(2), disk := [s.disk[0], s.disk[1], [Record(1, "a", 5)]])
  {
    acts', s' := MakeCache(acts, s, true, 1);
    WriteToEmpty(s.disk[0], s.disk[1], Record(1, "a", 5));
    assert s'.disk == [s.disk[0], s.disk[1], []];
    acts', s' := Do(acts', s', true, CopyRow(1));
    acts', s' := FinishCopy(acts', s', true, 1);
    assert s'.stages == [s.stages[0], Idle];
  }

  lemma WriteToEmpty(a: seq<Record>, b: seq<Record>, r: Record)
    ensures WriteRow([a, b, []], 2, 0, r) == [a, b, [r]]
  {
    assert [] + [r] == [r];
  }

  /** A deletion of a descriptor that has no row is overtaken by another deletion and an open. */
  lemma BringBack() returns (acts: seq<Action>, s: State)
    ensures Leads(acts, s, true)
    ensures s == EMPTY_SERVER.(stages := [Idle, Idle], table := Some(2), files := {6},
                               disk := [[Record(1, "a", 5)], [Record(1, "a", 6)], [Record(1, "a", 5)]],
                               log := [Issued(5), OpenOk("a", 5), Deleted(5), Closed(5), Issued(6), OpenOk("a", 6)])
  {
    acts, s := Overtake(9);
    acts, s := OpenFile(acts, s, true, "a", 6);
    assert s.disk == [[Record(1, "a", 5)], [Record(1, "a", 6)]];
    acts, s := CopyOldTable(acts, s);
    assert s.stages == [Idle, Idle];
  }

  lemma ReturnedIsUnsafe(s: State)
    requires Rows(s) == [Record(1, "a", 5)] && s.pid == 1 && s.files == {6}
    requires s.log == [Issued(5), OpenOk("a", 5), Deleted(5), Closed(5), Issued(6), OpenOk("a", 6)]
    ensures !SafeDescriptors(s) && !Durable(s)
  {
    assert Rows(s)[0] in Rows(s);
    assert s.log[5] == OpenOk("a", 6) && !Between(s.log, 5, 6, Deleted(6));
  }

  /** The deletion brings back the row of the closed descriptor, and the row of the open one is lost. */
  lemma ClosedRowReturns() returns (states: seq<State>, acts: seq<Action>)
    ensures Run(states, acts) && Private(states, acts) && Lossless(states, acts)
    ensures var s := states[|acts|];
            && Rows(s) == [Record(1, "a", 5)] && s.files == {6}
            && s.log == [Issued(5), OpenOk("a", 5), Deleted(5), Closed(5), Issued(6), OpenOk("a", 6)]
            && !SafeDescriptors(s) && !Durable(s)
  {
    var s;
    acts, s := BringBack();
    ReturnedIsUnsafe(s);
    states := ExecutionIsRun(acts, s, true);
  }

  /** Then the row of the closed descriptor is deleted once more. */
  lemma StartReturned() returns (acts: seq<Action>, s: State)
    ensures Leads(acts, s, true)
    ensures s.stages == [Copying(Copy(5, 2, 3, 0, 0, false, false)), Idle] && s.holder == None
    ensures s.table == Some(2) && s.cache == Some(3)
    ensures |s.disk| == 4 && s.disk[2] == [Record(1, "a", 5)] && s.disk[3] == []
    ensures s.files == {6} && s.others == {}
    ensures s.log == [Issued(5), OpenOk("a", 5), Deleted(5), Closed(5), Issued(6), OpenOk("a", 6)]
  {
    acts, s := BringBack();
    acts, s := Do(acts, s, true, StartDelete(0, 5));
    acts, s := MakeCache(acts, s, true, 0);
    assert s.stages == [Copying(Copy(5, 2, 3, 0, 0, false, false)), Idle];
  }

  lemma DeleteReturned() returns (acts: seq<Action>, s: State)
    ensures Leads(acts, s, true)
    ensures |s.stages| == 2 && s.stages[0] == Idle && s.holder == None && s.table == Some(3) && |s.disk| == 4
    ensures s.disk[3] == [] && s.files == {6} && s.others == {}
    ensures s.log == [Issued(5), OpenOk("a", 5), Deleted(5), Closed(5), Issued(6), OpenOk("a", 6), Deleted(5), Closed(5)]
  {
    acts, s := StartReturned();
    acts, s := Do(acts, s, true, CopyRow(0));
    acts, s := FinishCopy(acts, s, true, 0);
    acts, s := Do(acts, s, true, CloseFile(0));
  }

  /**
   And the name is opened and answered OK again, although the descriptor of the last OK was not deleted, and no row was
   appended too late or to a replaced table.
   */
  lemma OpenedTwice() returns (states: seq<State>, acts: seq<Action>)
    ensures Run(states, acts) && Private(states, acts) && Lossless(states, acts)
    ensures states[|acts|].log == [Issued(5), OpenOk("a", 5), Deleted(5), Closed(5), Issued(6), OpenOk("a", 6),
                                   Deleted(5), Closed(5), Issued(7), OpenOk("a", 7)]
    ensures !Separated(states[|acts|].log)
  {
    var s;
    acts, s := DeleteReturned();
    acts, s := OpenFile(acts, s, true, "a", 7);
    NotSeparated(s.log, 5, 9);
    states := ExecutionIsRun(acts, s, true);
  }

  /** A deletion brings a name back between its check and its append. */
  lemma AppendReturned() returns (acts: seq<Action>, s: State)
    ensures Leads(acts, s, true)
    ensures Rows(s) == [Record(1, "a", 5), Record(1, "a", 6)]
  {
    acts, s := Overtake(9);
    acts, s := CreateFile(acts, s, true, "a", 6);
    acts, s := CopyOldTable(acts, s);
    acts, s := RecordFile(acts, s, true);
    assert Rows(s) == [Record(1, "a", 5)] + [Record(1, "a", 6)];
  }

  /** So the table has two rows for one name. */
  lemma TwoRowsOneName() returns (states: seq<State>, acts: seq<Action>)
    ensures Run(states, acts) && Private(states, acts) && Lossless(states, acts)
    ensures Rows(states[|acts|]) == [Record(1, "a", 5), Record(1, "a", 6)] && !UniqueNames(Rows(states[|acts|]))
  {
    var s;
    acts, s := AppendReturned();
    states := ExecutionIsRun(acts, s, true);
    assert Rows(s)[0].name == Rows(s)[1].name;
  }

  // ---------- two deletions with one cache file ----------

  lemma TwoFiles() returns (acts: seq<Action>, s: State)
    ensures Leads(acts, s, false)
    ensures s == EMPTY_SERVER.(stages := [Idle, Idle], disk := [[Record(1, "a", 5), Record(1, "b", 6)]], files := {5, 6},
                               log := [Issued(5), OpenOk("a", 5), Issued(6), OpenOk("b", 6)])
  {
    acts, s := TwoClients(false);
    acts, s := OpenFile(acts, s, false, "a", 5);
    assert s.disk == [[Record(1, "a", 5)]];
    acts, s := OpenFile(acts, s, false, "b", 6);
    assert [Record(1, "a", 5)] + [Record(1, "b", 6)] == [Record(1, "a", 5), Record(1, "b", 6)];
    assert s.disk == [[Record(1, "a", 5), Record(1, "b", 6)]];
  }

  /** Both clients open the table of two rows, and the same cache file. */
  lemma ShareCache() returns (acts: seq<Action>, s: State)
    ensures Leads(acts, s, false)
    ensures s == EMPTY_SERVER.(stages := [Copying(Copy(5, 0, 1, 0, 0, false, false)),
                                          Copying(Copy(9, 0, 1, 0, 0, false, false))],
                               disk := [[Record(1, "a", 5), Record(1, "b", 6)], []], cache := Some(1), files := {5, 6},
                               log := [Issued(5), OpenOk("a", 5), Issued(6), OpenOk("b", 6)])
  {
    acts, s := TwoFiles();
    acts, s := Do(acts, s, false, StartDelete(1, 9));
    acts, s := MakeCache(acts, s, false, 1);
    acts, s := Do(acts, s, false, StartDelete(0, 5));
    acts, s := Do(acts, s, false, OpenCache(0));
    assert s.disk == [[Record(1, "a", 5), Record(1, "b", 6)], []];
    assert s.stages == [Copying(Copy(5, 0, 1, 0, 0, false, false)), Copying(Copy(9, 0, 1, 0, 0, false, false))];
  }

  lemma WriteSecond(a: seq<Record>, q: Record, r: Record)
    ensures WriteRow([a, [q]], 1, 1, r) == [a, [q, r]]
    ensures WriteRow([a, [q, r]], 1, 0, r) == [a, [r, r]]
    ensures WriteRow([a, []], 1, 0, q) == [a, [q]]
  {
    assert [q] + [r] == [q, r] && [q, r][0 := r] == [r, r] && [] + [q] == [q];
  }

  /** Client 1 copies both rows. */
  lemma CopyBoth() returns (acts: seq<Action>, s: State)
    ensures Leads(acts, s, false)
    ensures s.stages == [Copying(Copy(5, 0, 1, 0, 0, false, false)), Copying(Copy(9, 0, 1, 2, 2, false, false))]
    ensures s.disk == [[Record(1, "a", 5), Record(1, "b", 6)], [Record(1, "a", 5), Record(1, "b", 6)]]
    ensures s.table == Some(0) && s.cache == Some(1) && s.files == {5, 6}
  {
    acts, s := ShareCache();
    WriteSecond(s.disk[0], Record(1, "a", 5), Record(1, "b", 6));
    acts, s := Do(acts, s, false, CopyRow(1));
    assert s.disk == [[Record(1, "a", 5), Record(1, "b", 6)], [Record(1, "a", 5)]];
    acts, s := Do(acts, s, false, CopyRow(1));
    assert s.stages == [Copying(Copy(5, 0, 1, 0, 0, false, false)), Copying(Copy(9, 0, 1, 2, 2, false, false))];
  }

  /** Client 0 skips its own row, and writes the other one over the first. */
  lemma Overwrite() returns (acts: seq<Action>, s: State)
    ensures Leads(acts, s, false)
    ensures s.stages == [Copying(Copy(5, 0, 1, 2, 1, true, false)), Copying(Copy(9, 0, 1, 2, 2, false, false))]
    ensures s.disk == [[Record(1, "a", 5), Record(1, "b", 6)], [Record(1, "b", 6), Record(1, "b", 6)]]
    ensures s.table == Some(0) && s.cache == Some(1) && s.files == {5, 6}
  {
    acts, s := CopyBoth();
    WriteSecond(s.disk[0], Record(1, "a", 5), Record(1, "b", 6));
    acts, s := Do(acts, s, false, CopyRow(0));
    acts, s := Do(acts, s, false, CopyRow(0));
    assert s.stages == [Copying(Copy(5, 0, 1, 2, 1, true, false)), Copying(Copy(9, 0, 1, 2, 2, false, false))];
  }

  /**
   Two deletions that both copy the present table, but into one file, leave a row twice; so it matters that each has a
   cache file of its own.
   */
  lemma SharedCacheDuplicates() returns (states: seq<State>, acts: seq<Action>)
    ensures Run(states, acts) && !Private(states, acts)
    ensures Rows(states[|acts|]) == [Record(1, "b", 6), Record(1, "b", 6)]
    ensures !UniqueNames(Rows(states[|acts|])) && !SafeDescriptors(states[|acts|])
  {
    var s;
    acts, s := Overwrite();
    acts, s := FinishCopy(acts, s, false, 0);
    states := ExecutionIsRun(acts, s, false);
    assert Rows(s)[0].name == Rows(s)[1].name && Rows(s)[0].fd == Rows(s)[1].fd;
    assert !CopyingInv(s.stages[1], s.disk, s.table, s.cache);
    if Private(states, acts) {
      RunKeepsCopies(states, acts);
    }
  }
}
