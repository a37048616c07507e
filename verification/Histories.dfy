/**
 What the clients of the file server can rely on over whole runs of the threads.
 */
module Histories {
  import opened Options
  import opened Records
  import opened Protocol
  import opened Descriptors
  import opened Naming

  /** The event e happened strictly between the positions i and j. */
  predicate Between(log: seq<Event>, i: nat, j: nat, e: Event)
    requires j <= |log|
  {
    exists k :: i < k < j && log[k] == e
  }

  lemma BetweenSnoc(log: seq<Event>, x: Event, i: nat, e: Event)
    requires i < |log|
    ensures Between(log + [x], i, |log| + 1, e) <==> Between(log, i, |log|, e) || x == e
    ensures forall j :: 0 <= j <= |log| ==> (Between(log + [x], i, j, e) <==> Between(log, i, j, e))
  {
    assert (log + [x])[|log|] == x;
    if Between(log, i, |log|, e) {
      var k :| i < k < |log| && log[k] == e;
      assert (log + [x])[k] == e;
    }
    forall j | 0 <= j <= |log| && Between(log, i, j, e) ensures Between(log + [x], i, j, e) {
      var k :| i < k < j && log[k] == e;
      assert (log + [x])[k] == e;
    }
  }

  // ---------- closing ----------

  /** Position i is where fd was last issued before j, and it was not closed since. */
  predicate IssuedAt(log: seq<Event>, fd: int, i: nat, j: nat)
    requires j <= |log|
  {
    i < j && log[i] == Issued(fd) && !Between(log, i, j, Closed(fd))
  }

  predicate HasIssue(log: seq<Event>, fd: int, j: nat)
    requires j <= |log|
  {
    exists i :: 0 <= i < j && IssuedAt(log, fd, i, j)
  }

  /** The files of clients that are open are those that were issued and not closed since. */
  ghost predicate LiveIssued(log: seq<Event>, files: set<int>) {
    forall fd :: fd in files <==> HasIssue(log, fd, |log|)
  }

  /** Each close of a descriptor belongs to one issue of it. */
  ghost predicate ClosesMatched(log: seq<Event>) {
    forall j :: 0 <= j < |log| && log[j].Closed? && log[j].fd != -1 ==> HasIssue(log, log[j].fd, j)
  }

  /** The thread closes a descriptor that is not open any more, or is not one of a client's files. */
  predicate ClosesOther(s: State, a: Action)
    requires Enabled(s, a)
  {
    a.CloseFile? && s.stages[a.t].fd != -1 && s.stages[a.t].fd !in s.files
  }

  lemma IssuedAtSnoc(log: seq<Event>, x: Event, fd: int, i: nat)
    requires IssuedAt(log, fd, i, |log|) && x != Closed(fd)
    ensures IssuedAt(log + [x], fd, i, |log| + 1)
  {
    BetweenSnoc(log, x, i, Closed(fd));
  }

  lemma IssueSnoc(log: seq<Event>, x: Event, fd: int)
    ensures HasIssue(log + [x], fd, |log| + 1) <==> x == Issued(fd) || (HasIssue(log, fd, |log|) && x != Closed(fd))
  {
    if x == Issued(fd) {
      assert IssuedAt(log + [x], fd, |log|, |log| + 1);
    } else if HasIssue(log, fd, |log|) && x != Closed(fd) {
      var i: nat :| i < |log| && IssuedAt(log, fd, i, |log|);
      IssuedAtSnoc(log, x, fd, i);
    }
    if HasIssue(log + [x], fd, |log| + 1) && x != Issued(fd) {
      var i: nat :| i < |log| + 1 && IssuedAt(log + [x], fd, i, |log| + 1);
      BetweenSnoc(log, x, i, Closed(fd));
      assert IssuedAt(log, fd, i, |log|);
    }
  }

  lemma IssueBefore(log: seq<Event>, x: Event, fd: int, j: nat)
    requires j <= |log|
    ensures HasIssue(log + [x], fd, j) <==> HasIssue(log, fd, j)
  {
    forall i: nat | i < j ensures IssuedAt(log + [x], fd, i, j) <==> IssuedAt(log, fd, i, j) {
      BetweenSnoc(log, x, i, Closed(fd));
    }
  }

  lemma MatchedSnoc(log: seq<Event>, x: Event)
    ensures ClosesMatched(log + [x]) <==>
              ClosesMatched(log) && (x.Closed? && x.fd != -1 ==> HasIssue(log, x.fd, |log|))
  {
    var log' := log + [x];
    forall j: nat | j < |log'| && log'[j].Closed?
      ensures HasIssue(log', log'[j].fd, j) <==> HasIssue(log, log'[j].fd, j)
    {
      IssueBefore(log, x, log'[j].fd, j);
    }
    assert log'[|log|] == x;
    assert forall j :: 0 <= j < |log| ==> log'[j] == log[j];
  }

  lemma LiveSnoc(log: seq<Event>, x: Event, before: set<int>, after: set<int>)
    requires LiveIssued(log, before)
    requires forall fd :: fd in after <==> x == Issued(fd) || (fd in before && x != Closed(fd))
    ensures LiveIssued(log + [x], after)
  {
    forall fd ensures fd in after <==> HasIssue(log + [x], fd, |log| + 1) {
      IssueSnoc(log, x, fd);
    }
  }

  /** What one more event does to the log. */
  lemma ClosingSnoc(log: seq<Event>, x: Event, before: set<int>, after: set<int>)
    requires LiveIssued(log, before)
    requires forall fd :: fd in after <==> x == Issued(fd) || (fd in before && x != Closed(fd))
    ensures LiveIssued(log + [x], after)
    ensures ClosesMatched(log + [x]) <==> ClosesMatched(log) && !(x.Closed? && x.fd != -1 && x.fd !in before)
  {
    LiveSnoc(log, x, before, after);
    MatchedSnoc(log, x);
  }

  ghost predicate ClosingGoes(s: State, s': State, bad: bool) {
    && LiveIssued(s'.log, s'.files)
    && (ClosesMatched(s'.log) <==> ClosesMatched(s.log) && !bad)
  }

  lemma ClosingClose(s: State, t: Thread)
    requires Enabled(s, CloseFile(t)) && LiveIssued(s.log, s.files)
    ensures ClosingGoes(s, Next(s, CloseFile(t)), ClosesOther(s, CloseFile(t)))
  {
    ClosingSnoc(s.log, Closed(s.stages[t].fd), s.files, s.files - {s.stages[t].fd});
  }

  lemma ClosingCreate(s: State, t: Thread, fd: int)
    requires Enabled(s, Create(t, fd)) && LiveIssued(s.log, s.files)
    ensures ClosingGoes(s, Next(s, Create(t, fd)), false)
  {
    if fd != -1 {
      ClosingSnoc(s.log, Issued(fd), s.files, s.files + {fd});
    }
  }

  lemma ClosingAppend(s: State, t: Thread)
    requires Enabled(s, Append(t)) && LiveIssued(s.log, s.files)
    ensures ClosingGoes(s, Next(s, Append(t)), false)
  {
    var Appending(name, fd, inode) := s.stages[t];
    if fd != -1 {
      ClosingSnoc(s.log, OpenOk(name, fd), s.files, s.files);
    }
  }

  lemma ClosingUnlink(s: State, t: Thread)
    requires Enabled(s, Unlink(t)) && LiveIssued(s.log, s.files)
    ensures ClosingGoes(s, Next(s, Unlink(t)), false)
  {
    var s' := Next(s, Unlink(t));
    if s'.log != s.log {
      ClosingSnoc(s.log, Deleted(s.stages[t].copy.fd), s.files, s.files);
    }
  }

  lemma ClosingStep(s: State, a: Action)
    requires Enabled(s, a) && LiveIssued(s.log, s.files)
    ensures ClosingGoes(s, Next(s, a), ClosesOther(s, a))
  {
    match a {
      case Create(t, fd) => ClosingCreate(s, t, fd);
      case Append(t) => ClosingAppend(s, t);
      case Unlink(t) => ClosingUnlink(s, t);
      case CloseFile(t) => ClosingClose(s, t);
      case _ =>
    }
  }

  ghost predicate ClosesOwn(states: seq<State>, acts: seq<Action>)
    requires Run(states, acts)
  {
    forall i :: 0 <= i < |acts| ==> !ClosesOther(states[i], acts[i])
  }

  ghost predicate ClosesOwnTo(states: seq<State>, acts: seq<Action>, n: nat)
    requires Run(states, acts) && n <= |acts|
  {
    forall i :: 0 <= i < n ==> !ClosesOther(states[i], acts[i])
  }

  /**
   In any run at all, each close belongs to one issue of its descriptor if and only if no thread closes a descriptor
   that is not open.
   */
  lemma {:induction false} MatchedIffOwn(states: seq<State>, acts: seq<Action>)
    requires Run(states, acts)
    ensures ClosesMatched(states[|acts|].log) <==> ClosesOwn(states, acts)
  {
    for n := 0 to |acts|
      invariant LiveIssued(states[n].log, states[n].files)
      invariant ClosesMatched(states[n].log) <==> ClosesOwnTo(states, acts, n)
    {
      ClosingStep(states[n], acts[n]);
    }
  }

  /** Then two closes of one descriptor, by whatever threads, have an issue of it by the operating system between them. */
  lemma ClosedOnce(log: seq<Event>, i: nat, j: nat, fd: int)
    requires ClosesMatched(log) && fd != -1 && i < j < |log| && log[i] == Closed(fd) && log[j] == Closed(fd)
    ensures Between(log, i, j, Issued(fd))
  {
    var k: nat :| k < j && IssuedAt(log, fd, k, j);
  }

  lemma SoundClosesOwn(s: State, a: Action)
    requires SafeDescriptors(s) && Enabled(s, a)
    ensures !ClosesOther(s, a)
  {
    if a.CloseFile? && s.stages[a.t].fd != -1 {
      assert s.stages[a.t].fd in HeldBy(s.stages[a.t]);
    }
  }

  /** So it is as long as descriptors are safe. */
  lemma SoundIsMatched(states: seq<State>, acts: seq<Action>)
    requires Run(states, acts) && Private(states, acts) && Sound(states, acts)
    ensures ClosesMatched(states[|acts|].log)
  {
    SafeIffSound(states, acts);
    forall i | 0 <= i < |acts| ensures !ClosesOther(states[i], acts[i]) {
      SoundClosesOwn(states[i], acts[i]);
    }
    MatchedIffOwn(states, acts);
  }

  // ---------- what an OK to FOPEN is worth ----------

  function RowOf(pid: int, e: Event): Record
    requires e.OpenOk?
  {
    Record(pid, e.name, e.fd)
  }

  /** Every FOPEN that was answered OK still has its row, unless its descriptor was deleted since. */
  ghost predicate DurableIn(log: seq<Event>, rows: seq<Record>, pid: int) {
    forall i :: 0 <= i < |log| && log[i].OpenOk? ==>
      RowOf(pid, log[i]) in rows || Between(log, i, |log|, Deleted(log[i].fd))
  }

  ghost predicate Durable(s: State) {
    DurableIn(s.log, Rows(s), s.pid)
  }

  /** There is an OK reply that is still good, but the row is not among these, and is not deleted now. */
  ghost predicate Forgets(log: seq<Event>, rows: seq<Record>, pid: int, deleted: Option<int>) {
    exists i :: 0 <= i < |log| && log[i].OpenOk? && RowOf(pid, log[i]) !in rows
                && !Between(log, i, |log|, Deleted(log[i].fd)) && deleted != Some(log[i].fd)
  }

  /**
   The step drops a row that was answered OK: it appends the row to a file that is not the table, or it removes the
   table and the copy does not have the row.
   */
  ghost predicate Drops(s: State, a: Action)
    requires Enabled(s, a)
  {
    match a
    case Append(t) =>
      var Appending(name, fd, inode) := s.stages[t];
      fd != -1 && s.table != Some(inode) && Record(s.pid, name, fd) !in Rows(s)
    case Unlink(t) =>
      var c := s.stages[t].copy;
      Forgets(s.log, Remove(Read(s, t), c.fd), s.pid, if c.found then Some(c.fd) else None)
    case _ => false
  }

  lemma DurableSnoc(log: seq<Event>, x: Event, rows: seq<Record>, pid: int)
    requires !x.OpenOk? && !x.Deleted?
    ensures DurableIn(log + [x], rows, pid) <==> DurableIn(log, rows, pid)
  {
    var log' := log + [x];
    forall i: nat | i < |log| && log[i].OpenOk?
      ensures Between(log', i, |log'|, Deleted(log[i].fd)) <==> Between(log, i, |log|, Deleted(log[i].fd))
    {
      BetweenSnoc(log, x, i, Deleted(log[i].fd));
    }
    assert forall i :: 0 <= i < |log| ==> log'[i] == log[i];
  }

  lemma DurableOk(log: seq<Event>, x: Event, rows: seq<Record>, rows': seq<Record>, pid: int)
    requires x.OpenOk? && DurableIn(log, rows, pid) && forall r :: r in rows ==> r in rows'
    ensures DurableIn(log + [x], rows', pid) <==> RowOf(pid, x) in rows'
  {
    var log' := log + [x];
    forall i: nat | i < |log| && log[i].OpenOk?
      ensures RowOf(pid, log'[i]) in rows' || Between(log', i, |log'|, Deleted(log'[i].fd))
    {
      BetweenSnoc(log, x, i, Deleted(log[i].fd));
    }
    assert log'[|log|] == x && !Between(log', |log|, |log'|, Deleted(x.fd));
  }

  lemma DurableKept(log: seq<Event>, rows: seq<Record>, pid: int)
    ensures DurableIn(log, rows, pid) <==> !Forgets(log, rows, pid, None)
  {
  }

  lemma DurableDeleted(log: seq<Event>, fd: int, rows: seq<Record>, pid: int)
    ensures DurableIn(log + [Deleted(fd)], rows, pid) <==> !Forgets(log, rows, pid, Some(fd))
  {
    var log' := log + [Deleted(fd)];
    forall i: nat | i < |log| && log[i].OpenOk?
      ensures Between(log', i, |log'|, Deleted(log[i].fd))
              <==> Between(log, i, |log|, Deleted(log[i].fd)) || fd == log[i].fd
    {
      BetweenSnoc(log, Deleted(fd), i, Deleted(log[i].fd));
    }
    assert forall i :: 0 <= i < |log| ==> log'[i] == log[i];
  }

  lemma DurableAppend(s: State, t: Thread)
    requires Placed(s) && Enabled(s, Append(t)) && Durable(s)
    ensures Durable(Next(s, Append(t))) <==> !Drops(s, Append(t))
  {
    AppendedRows(s, t);
    var Appending(name, fd, inode) := s.stages[t];
    var s' := Next(s, Append(t));
    if fd != -1 {
      DurableOk(s.log, OpenOk(name, fd), Rows(s), Rows(s'), s.pid);
    }
  }

  lemma DurableUnlink(s: State, t: Thread)
    requires Placed(s) && CopyInv(s) && Enabled(s, Unlink(t))
    ensures Durable(Next(s, Unlink(t))) <==> !Drops(s, Unlink(t))
  {
    UnlinkedRows(s, t);
    var c := s.stages[t].copy;
    var kept := Remove(Read(s, t), c.fd);
    assert Next(s, Unlink(t)).pid == s.pid;
    if c.found {
      DurableDeleted(s.log, c.fd, kept, s.pid);
    } else {
      DurableKept(s.log, kept, s.pid);
    }
  }

  /** The other steps add neither an OK nor a deletion to the log. */
  lemma OtherEvents(s: State, a: Action)
    requires Enabled(s, a) && !a.Append? && !a.Unlink?
    ensures var s' := Next(s, a);
            s'.pid == s.pid && (s'.log == s.log || exists x: Event :: !x.OpenOk? && !x.Deleted? && s'.log == s.log + [x])
  {
    match a {
      case Create(t, fd) => assert fd != -1 ==> Next(s, a).log == s.log + [Issued(fd)];
      case CloseFile(t) => assert Next(s, a).log == s.log + [Closed(s.stages[t].fd)];
      case _ =>
    }
  }

  lemma DurableStep(s: State, a: Action)
    requires Placed(s) && CopyInv(s) && Enabled(s, a) && Durable(s)
    ensures Durable(Next(s, a)) <==> !Drops(s, a)
  {
    if a.Append? {
      DurableAppend(s, a.t);
    } else if a.Unlink? {
      DurableUnlink(s, a.t);
    } else {
      var s' := Next(s, a);
      RowsKept(s, a);
      OtherEvents(s, a);
      if s'.log != s.log {
        var x: Event :| !x.OpenOk? && !x.Deleted? && s'.log == s.log + [x];
        DurableSnoc(s.log, x, Rows(s), s.pid);
      }
    }
  }

  ghost predicate AlwaysDurable(states: seq<State>) {
    forall i :: 0 <= i < |states| ==> Durable(states[i])
  }

  ghost predicate Dropless(states: seq<State>, acts: seq<Action>)
    requires Run(states, acts)
  {
    forall i :: 0 <= i < |acts| ==> !Drops(states[i], acts[i])
  }

  lemma {:induction false} DroplessIsDurable(states: seq<State>, acts: seq<Action>)
    requires Run(states, acts) && Private(states, acts) && Dropless(states, acts)
    ensures AlwaysDurable(states)
  {
    RunKeepsCopies(states, acts);
    for n := 0 to |acts|
      invariant forall i :: 0 <= i <= n ==> Durable(states[i])
    {
      DurableStep(states[n], acts[n]);
    }
  }

  lemma DroppedOnce(states: seq<State>, acts: seq<Action>, i: nat)
    requires Run(states, acts) && Private(states, acts) && i < |acts| && Drops(states[i], acts[i])
    ensures !AlwaysDurable(states)
  {
    RunKeepsCopies(states, acts);
    if Durable(states[i]) {
      DurableStep(states[i], acts[i]);
      assert !Durable(states[i + 1]);
    }
  }

  /**
   In every run in which each deletion has a cache file of its own, the OK replies are durable throughout if and only
   if no step drops the row of one.
   */
  lemma DurableIffDropless(states: seq<State>, acts: seq<Action>)
    requires Run(states, acts) && Private(states, acts)
    ensures AlwaysDurable(states) <==> Dropless(states, acts)
  {
    if Dropless(states, acts) {
      DroplessIsDurable(states, acts);
    } else {
      var i: nat :| i < |acts| && Drops(states[i], acts[i]);
      DroppedOnce(states, acts, i);
    }
  }

  /** Two OK replies for one name have a deletion of the first descriptor between them. */
  ghost predicate Separated(log: seq<Event>) {
    forall i, j :: 0 <= i < j < |log| && log[i].OpenOk? && log[j].OpenOk? && log[i].name == log[j].name ==>
      Between(log, i, j, Deleted(log[i].fd))
  }

  /** An OK reply for the name is still good: its descriptor was not deleted since. */
  ghost predicate GoodOk(log: seq<Event>, name: string) {
    exists i :: 0 <= i < |log| && log[i].OpenOk? && log[i].name == name && !Between(log, i, |log|, Deleted(log[i].fd))
  }

  /** FOPEN answers OK for a name that it has answered OK before, and that reply is still good. */
  ghost predicate Reopens(s: State, a: Action)
    requires Enabled(s, a)
  {
    a.Append? && s.stages[a.t].fd != -1 && GoodOk(s.log, s.stages[a.t].name)
  }

  lemma BetweenBefore(log: seq<Event>, x: Event)
    ensures forall i: nat, j: nat, e ::
              i < j <= |log| ==> (Between(log + [x], i, j, e) <==> Between(log, i, j, e))
  {
    forall i: nat, j: nat, e | i < j <= |log| ensures Between(log + [x], i, j, e) <==> Between(log, i, j, e) {
      BetweenSnoc(log, x, i, e);
    }
  }

  lemma SeparatedSnoc(log: seq<Event>, x: Event)
    ensures Separated(log + [x]) <==> Separated(log) && !(x.OpenOk? && GoodOk(log, x.name))
  {
    var log' := log + [x];
    BetweenBefore(log, x);
    assert log'[|log|] == x && forall i :: 0 <= i < |log| ==> log'[i] == log[i];
    if Separated(log') {
      forall i, j | 0 <= i < j < |log| && log[i].OpenOk? && log[j].OpenOk? && log[i].name == log[j].name
        ensures Between(log, i, j, Deleted(log[i].fd))
      {
        assert log'[i] == log[i] && log'[j] == log[j];
      }
    }
  }

  lemma SeparatedAppend(s: State, t: Thread)
    requires Enabled(s, Append(t))
    ensures Separated(Next(s, Append(t)).log) <==> Separated(s.log) && !Reopens(s, Append(t))
  {
    if s.stages[t].fd != -1 {
      SeparatedSnoc(s.log, OpenOk(s.stages[t].name, s.stages[t].fd));
    }
  }

  lemma SeparatedStep(s: State, a: Action)
    requires Enabled(s, a)
    ensures Separated(Next(s, a).log) <==> Separated(s.log) && !Reopens(s, a)
  {
    var s' := Next(s, a);
    if a.Append? {
      SeparatedAppend(s, a.t);
    } else if a.Unlink? {
      if s'.log != s.log {
        SeparatedSnoc(s.log, Deleted(s.stages[a.t].copy.fd));
      }
    } else {
      OtherEvents(s, a);
      if s'.log != s.log {
        var x: Event :| !x.OpenOk? && !x.Deleted? && s'.log == s.log + [x];
        SeparatedSnoc(s.log, x);
      }
    }
  }

  ghost predicate NeverReopensTo(states: seq<State>, acts: seq<Action>, n: nat)
    requires Run(states, acts) && n <= |acts|
  {
    forall i :: 0 <= i < n ==> !Reopens(states[i], acts[i])
  }

  /**
   In any run at all, two OK replies for one name have a deletion of the first descriptor between them if and only if
   no row is appended for a name whose last OK is still good.
   */
  lemma {:induction false} SeparatedIffNeverReopens(states: seq<State>, acts: seq<Action>)
    requires Run(states, acts)
    ensures Separated(states[|acts|].log) <==> NeverReopensTo(states, acts, |acts|)
  {
    for n := 0 to |acts|
      invariant Separated(states[n].log) <==> NeverReopensTo(states, acts, n)
    {
      SeparatedStep(states[n], acts[n]);
    }
  }

  /** As long as a good OK has its row, FOPEN finds it. */
  lemma NameIsTaken(s: State, t: Thread)
    requires Placed(s) && NameInv(s) && SafeDescriptors(s) && Durable(s) && Enabled(s, Append(t)) && !Drops(s, Append(t))
    ensures !Reopens(s, Append(t))
  {
    var Appending(name, fd, inode) := s.stages[t];
    if fd != -1 {
      assert fd in HeldBy(s.stages[t]);
      assert s.table == Some(inode);
      assert NameAbsent(s.stages[t], Rows(s), s.disk);
      forall i | 0 <= i < |s.log| && s.log[i].OpenOk? && s.log[i].name == name
        ensures Between(s.log, i, |s.log|, Deleted(s.log[i].fd))
      {
        assert RowOf(s.pid, s.log[i]) !in Rows(s);
      }
    }
  }

  /** So it is in a run that keeps descriptors, names and OK replies. */
  lemma OpensAreSeparated(states: seq<State>, acts: seq<Action>)
    requires Run(states, acts) && Private(states, acts)
    requires Sound(states, acts) && NeverReinstates(states, acts) && Dropless(states, acts)
    ensures Separated(states[|acts|].log)
  {
    RunKeepsBasic(states, acts);
    SafeIffSound(states, acts);
    NamesStay(states, acts);
    DroplessIsDurable(states, acts);
    forall i | 0 <= i < |acts| ensures !Reopens(states[i], acts[i]) {
      if acts[i].Append? {
        NameIsTaken(states[i], acts[i].t);
      }
    }
    SeparatedIffNeverReopens(states, acts);
  }

  // ---------- deletions that do not collide ----------

  ghost predicate Safe(s: State) {
    UniqueNames(Rows(s)) && SafeDescriptors(s)
  }

  ghost predicate Inv(s: State) {
    BasicInv(s) && CopyInv(s) && NameInv(s) && Exclusive(s)
  }

  lemma OrderlyKeepsInv(states: seq<State>, acts: seq<Action>)
    requires Run(states, acts) && Orderly(states, acts)
    ensures forall i :: 0 <= i < |states| ==> Inv(states[i])
  {
    OrderlyIsExclusive(states, acts);
    OrderlyIsNamed(states, acts);
  }

  lemma InvIsSafe(s: State)
    requires Inv(s)
    ensures Safe(s)
  {
    ExclusiveMeans(s);
    assert UniqueNames(Rows(s));
  }

  /** As long as deletions do not collide, every reachable state is safe. */
  lemma RunIsSafe(states: seq<State>, acts: seq<Action>)
    requires Run(states, acts) && Orderly(states, acts)
    ensures forall i :: 0 <= i < |states| ==> Safe(states[i])
  {
    OrderlyKeepsInv(states, acts);
    forall i | 0 <= i < |states| ensures Safe(states[i]) {
      InvIsSafe(states[i]);
    }
  }

  /**
   Replacing the table by a copy amounts to deleting the descriptor from the table as it is now, as delete_descriptor
   does when nothing comes between, exactly if all that was appended behind the copy loop is of that descriptor.
   */
  lemma UnlinkIsDeletion(s: State, t: Thread)
    requires Placed(s) && CopyInv(s) && Enabled(s, Unlink(t)) && !Collides(s, Unlink(t))
    ensures var c := s.stages[t].copy;
            && c.pos <= |Rows(s)|
            && (Rows(Next(s, Unlink(t))) == Remove(Rows(s), c.fd) <==> forall r :: r in Rows(s)[c.pos..] ==> r.fd == c.fd)
            && (c.pos == |Rows(s)| ==> (c.found <==> HasFd(Rows(s), c.fd)))
  {
    UnlinkedRows(s, t);
    OrderlyRead(s, t);
    SplitDeletion(Rows(s), s.stages[t].copy.pos, s.stages[t].copy.fd);
  }

  lemma SplitDeletion(rows: seq<Record>, pos: nat, fd: int)
    requires pos <= |rows|
    ensures Remove(rows[..pos], fd) == Remove(rows, fd) <==> forall r :: r in rows[pos..] ==> r.fd == fd
    ensures pos == |rows| ==> rows[..pos] == rows
  {
    var prefix, tail := rows[..pos], rows[pos..];
    assert rows == prefix + tail;
    RemoveConcat(prefix, tail, fd);
    var kept := Remove(tail, fd);
    assert kept == [] <==> Remove(prefix, fd) + kept == Remove(prefix, fd) by {
      assert |Remove(prefix, fd) + kept| == |Remove(prefix, fd)| + |kept|;
    }
    assert kept != [] ==> kept[0] in kept;
  }

  /** Position i is where the row was answered OK before j, and its descriptor was not deleted since. */
  predicate OpenedAt(log: seq<Event>, r: Record, i: nat, j: nat)
    requires j <= |log|
  {
    i < j && log[i] == OpenOk(r.name, r.fd) && !Between(log, i, j, Deleted(r.fd))
  }

  predicate HasOpening(log: seq<Event>, r: Record) {
    exists i :: 0 <= i < |log| && OpenedAt(log, r, i, |log|)
  }

  /** Every row with a descriptor goes back to an OK reply. */
  ghost predicate Backed(s: State) {
    && (forall r :: r in Rows(s) && r.fd != -1 ==> HasOpening(s.log, r))
    && (forall r :: r in Rows(s) ==> r.pid == s.pid)
    && (forall i :: 0 <= i < |s.log| && s.log[i].OpenOk? ==> s.log[i].fd != -1)
  }

  lemma OpeningSnoc(log: seq<Event>, x: Event, r: Record)
    requires (HasOpening(log, r) && x != Deleted(r.fd)) || x == OpenOk(r.name, r.fd)
    ensures HasOpening(log + [x], r)
  {
    var log' := log + [x];
    if x == OpenOk(r.name, r.fd) {
      assert OpenedAt(log', r, |log|, |log'|);
    } else {
      var i: nat :| i < |log| && OpenedAt(log, r, i, |log|);
      BetweenSnoc(log, x, i, Deleted(r.fd));
      assert OpenedAt(log', r, i, |log'|);
    }
  }

  lemma BackedAppend(s: State, t: Thread)
    requires Placed(s) && Enabled(s, Append(t)) && Backed(s)
    ensures Backed(Next(s, Append(t)))
  {
    AppendedRows(s, t);
    var Appending(name, fd, inode) := s.stages[t];
    var s' := Next(s, Append(t));
    forall r | r in Rows(s') && r.fd != -1 ensures HasOpening(s'.log, r) {
      if fd != -1 {
        OpeningSnoc(s.log, OpenOk(name, fd), r);
      }
    }
  }

  lemma BackedUnlink(s: State, t: Thread)
    requires Placed(s) && CopyInv(s) && Enabled(s, Unlink(t)) && !Collides(s, Unlink(t)) && Backed(s)
    ensures Backed(Next(s, Unlink(t)))
  {
    UnlinkedRows(s, t);
    OrderlyRead(s, t);
    var c, s' := s.stages[t].copy, Next(s, Unlink(t));
    assert s'.pid == s.pid;
    forall r | r in Rows(s') && r.fd != -1 ensures r in Rows(s) && HasOpening(s'.log, r) {
      assert r in Rows(s) && r.fd != c.fd;
      if c.found {
        OpeningSnoc(s.log, Deleted(c.fd), r);
      }
    }
  }

  lemma BackedOther(s: State, a: Action)
    requires Placed(s) && CopyInv(s) && Enabled(s, a) && !a.Append? && !a.Unlink? && Backed(s)
    ensures Backed(Next(s, a))
  {
    var s' := Next(s, a);
    RowsKept(s, a);
    OtherEvents(s, a);
    if s'.log != s.log {
      var x: Event :| !x.OpenOk? && !x.Deleted? && s'.log == s.log + [x];
      forall r | r in Rows(s) && r.fd != -1 ensures HasOpening(s'.log, r) {
        OpeningSnoc(s.log, x, r);
      }
    }
  }

  lemma BackedStep(s: State, a: Action)
    requires Placed(s) && CopyInv(s) && Enabled(s, a) && !Collides(s, a) && Backed(s)
    ensures Backed(Next(s, a))
  {
    if a.Append? {
      BackedAppend(s, a.t);
    } else if a.Unlink? {
      BackedUnlink(s, a.t);
    } else {
      BackedOther(s, a);
    }
  }

  lemma {:induction false} RunIsBacked(states: seq<State>, acts: seq<Action>)
    requires Run(states, acts) && Orderly(states, acts)
    ensures forall i :: 0 <= i < |states| ==> Inv(states[i]) && Backed(states[i])
  {
    OrderlyKeepsInv(states, acts);
    for n := 0 to |acts|
      invariant forall i :: 0 <= i <= n ==> Backed(states[i])
    {
      BackedStep(states[n], acts[n]);
    }
  }

  /**
   The step loses a row: an append to a table file that a deletion has meanwhile replaced, or the removal of the table
   although rows were appended after the copy loop had met the end of the file.
   */
  predicate Loses(s: State, a: Action)
    requires Enabled(s, a)
  {
    (a.Append? || a.Unlink?) && LostBy(s, a) != multiset{}
  }

  lemma HeldIsInNoRow(s: State, t: Thread, r: Record)
    requires Exclusive(s) && At(s, t) && s.stages[t].Appending? && s.stages[t].fd == r.fd != -1
    ensures r !in Rows(s)
  {
    ExclusiveMeans(s);
    NotInRows(s.stages, Rows(s), s.files, t, r);
  }

  lemma NotInRows(stages: seq<Stage>, rows: seq<Record>, files: set<int>, t: Thread, r: Record)
    requires HeldOpen(stages, rows, files) && t < |stages| && r.fd in HeldBy(stages[t])
    ensures r !in rows
  {
    assert r in rows ==> HasFd(rows, r.fd);
  }

  lemma AppendDropsIffLoses(s: State, t: Thread)
    requires Exclusive(s) && Enabled(s, Append(t))
    ensures Drops(s, Append(t)) <==> Loses(s, Append(t))
  {
    var Appending(name, fd, inode) := s.stages[t];
    if fd != -1 {
      HeldIsInNoRow(s, t, Record(s.pid, name, fd));
    }
  }

  lemma {:induction false} LostRow(rows: seq<Record>) returns (r: Record)
    requires Fds(rows) != multiset{}
    ensures r in rows && r.fd != -1
  {
    if rows[0].fd != -1 {
      r := rows[0];
    } else {
      r := LostRow(rows[1..]);
    }
  }

  /** A row behind the part that was read is in no other place. */
  lemma OnlyBehind(rows: seq<Record>, pos: nat, r: Record, fd: int)
    requires UniqueNames(rows) && pos <= |rows| && r in rows[pos..]
    ensures r in rows && r !in Remove(rows[..pos], fd)
  {
    var k :| pos <= k < |rows| && rows[k] == r;
    forall j | 0 <= j < pos ensures rows[j] != r {
      assert rows[j].name != rows[k].name;
    }
  }

  lemma LosesIsDrop(s: State, t: Thread)
    requires Inv(s) && Backed(s) && Enabled(s, Unlink(t)) && !Collides(s, Unlink(t)) && Loses(s, Unlink(t))
    ensures Drops(s, Unlink(t))
  {
    OrderlyRead(s, t);
    UnlinkedRows(s, t);
    ExclusiveMeans(s);
    var c := s.stages[t].copy;
    var r := LostRow(Rows(s)[c.pos..]);
    OnlyBehind(Rows(s), c.pos, r, c.fd);
    if c.found {
      FoundIsBefore(Rows(s), c.pos, c.fd, r);
    }
    Forgotten(s.log, Remove(Read(s, t), c.fd), s.pid, if c.found then Some(c.fd) else None, r);
  }

  lemma Forgotten(log: seq<Event>, rows: seq<Record>, pid: int, deleted: Option<int>, r: Record)
    requires HasOpening(log, r) && r.pid == pid && r !in rows && deleted != Some(r.fd)
    ensures Forgets(log, rows, pid, deleted)
  {
    var i: nat :| i < |log| && OpenedAt(log, r, i, |log|);
    assert RowOf(pid, log[i]) == r;
  }

  /** The descriptor that was found in the part that was read is not in a row behind it. */
  lemma FoundIsBefore(rows: seq<Record>, pos: nat, fd: int, r: Record)
    requires RowsApart(rows) && pos <= |rows| && HasFd(rows[..pos], fd) && r in rows[pos..] && r.fd != -1
    ensures r.fd != fd
  {
    var q :| q in rows[..pos] && q.fd == fd;
    var i :| 0 <= i < pos && rows[i] == q;
    var j :| pos <= j < |rows| && rows[j] == r;
  }

  lemma DropIsLoss(s: State, t: Thread)
    requires Inv(s) && Backed(s) && Durable(s) && Enabled(s, Unlink(t)) && !Collides(s, Unlink(t)) && Drops(s, Unlink(t))
    ensures Loses(s, Unlink(t))
  {
    OrderlyRead(s, t);
    UnlinkedRows(s, t);
    var c := s.stages[t].copy;
    var kept := Remove(Read(s, t), c.fd);
    var i :| 0 <= i < |s.log| && s.log[i].OpenOk? && RowOf(s.pid, s.log[i]) !in kept
             && !Between(s.log, i, |s.log|, Deleted(s.log[i].fd))
             && (if c.found then Some(c.fd) else None) != Some(s.log[i].fd);
    var r := RowOf(s.pid, s.log[i]);
    assert r in Rows(s);
    NotCopied(Rows(s), c.pos, c.fd, r);
  }

  lemma NotCopied(rows: seq<Record>, pos: nat, fd: int, r: Record)
    requires pos <= |rows| && r in rows && r.fd != -1 && r !in Remove(rows[..pos], fd)
    requires HasFd(rows[..pos], fd) ==> r.fd != fd
    ensures Fds(rows[pos..]) != multiset{}
  {
    assert rows == rows[..pos] + rows[pos..];
    assert r !in rows[..pos];
    FdsHas(rows[pos..], r.fd);
  }

  lemma DropsIffLoses(s: State, a: Action)
    requires Inv(s) && Backed(s) && Durable(s) && Enabled(s, a) && !Collides(s, a)
    ensures Drops(s, a) <==> Loses(s, a)
  {
    if a.Append? {
      AppendDropsIffLoses(s, a.t);
    } else if a.Unlink? {
      if Drops(s, a) {
        DropIsLoss(s, a.t);
      }
      if Loses(s, a) {
        LosesIsDrop(s, a.t);
      }
    }
  }

  ghost predicate Lossless(states: seq<State>, acts: seq<Action>)
    requires Run(states, acts)
  {
    forall i :: 0 <= i < |acts| ==> !Loses(states[i], acts[i])
  }

  lemma {:induction false} LosslessIsDurable(states: seq<State>, acts: seq<Action>)
    requires Run(states, acts) && Orderly(states, acts) && Lossless(states, acts)
    ensures AlwaysDurable(states)
  {
    RunIsBacked(states, acts);
    for n := 0 to |acts|
      invariant forall i :: 0 <= i <= n ==> Durable(states[i])
    {
      DropsIffLoses(states[n], acts[n]);
      DurableStep(states[n], acts[n]);
    }
  }

  lemma LostOnce(states: seq<State>, acts: seq<Action>, i: nat)
    requires Run(states, acts) && Orderly(states, acts) && i < |acts| && Loses(states[i], acts[i])
    ensures !AlwaysDurable(states)
  {
    RunIsBacked(states, acts);
    if Durable(states[i]) {
      DropsIffLoses(states[i], acts[i]);
      DurableStep(states[i], acts[i]);
      assert !Durable(states[i + 1]);
    }
  }

  /**
   The OK replies of a run without collisions are durable in each of its states if and only if no step of it loses
   a row.
   */
  lemma DurableIffLossless(states: seq<State>, acts: seq<Action>)
    requires Run(states, acts) && Orderly(states, acts)
    ensures AlwaysDurable(states) <==> Lossless(states, acts)
  {
    if Lossless(states, acts) {
      LosslessIsDurable(states, acts);
    } else {
      var i: nat :| i < |acts| && Loses(states[i], acts[i]);
      LostOnce(states, acts, i);
    }
  }

  lemma OrderlyNeverReinstates(states: seq<State>, acts: seq<Action>)
    requires Run(states, acts) && Orderly(states, acts)
    ensures Private(states, acts) && Sound(states, acts) && NeverReinstates(states, acts)
  {
    OrderlyIsPrivate(states, acts);
    OrderlyIsSound(states, acts);
    OrderlyIsNamed(states, acts);
    NamedIffNotReinstated(states, acts);
  }

  /** In a run without collisions that loses no row, OK replies for one name are separated. */
  lemma LosslessIsSeparated(states: seq<State>, acts: seq<Action>)
    requires Run(states, acts) && Orderly(states, acts) && Lossless(states, acts)
    ensures Separated(states[|acts|].log)
  {
    OrderlyNeverReinstates(states, acts);
    LosslessIsDurable(states, acts);
    DurableIffDropless(states, acts);
    OpensAreSeparated(states, acts);
  }
}
