/**
 Which schedules of the file server's threads are good ones. The conditions here are on the order of the steps
 alone; the states that the steps go through do not occur in them.
 */
module Schedules {
  import opened Options
  import opened Records
  import opened Protocol
  import opened Descriptors
  import opened Naming
  import opened Histories

  // ---------- conditions on the order of steps ----------

  function Last(past: seq<Action>): Action
    requires past != []
  {
    past[|past| - 1]
  }

  function Before(past: seq<Action>): seq<Action>
    requires past != []
  {
    past[..|past| - 1]
  }

  predicate OpensTable(a: Action, t: Thread) {
    (a.StartDelete? || (a.OpenTable? && a.ok)) && a.t == t
  }

  /** A cache file was opened, and none renamed since. */
  predicate CacheBusy(past: seq<Action>) {
    past != [] && !Last(past).Rename? && (Last(past).OpenCache? || CacheBusy(Before(past)))
  }

  /** The table was removed or replaced since the thread last opened it. */
  predicate Superseded(past: seq<Action>, t: Thread) {
    && past != [] && !OpensTable(Last(past), t)
    && (Last(past).Unlink? || (Last(past).Rename? && CacheBusy(Before(past))) || Superseded(Before(past), t))
  }

  /** What create_file last returned to the thread. */
  function Obtained(past: seq<Action>, t: Thread): int {
    if past == [] then -1
    else if Last(past).Create? && Last(past).t == t then Last(past).fd
    else Obtained(Before(past), t)
  }

  /** A row with a descriptor was appended since the copy loop of the thread met the end of the file. */
  predicate Late(past: seq<Action>, t: Thread) {
    && past != [] && Last(past) != SeeEnd(t)
    && ((Last(past).Append? && Obtained(Before(past), Last(past).t) != -1) || Late(Before(past), t))
  }

  /** The step does not run into another deletion. */
  predicate Disjoint(past: seq<Action>, a: Action) {
    match a
    case OpenCache(t) => !CacheBusy(past)
    case Unlink(t) => !Superseded(past, t)
    case _ => true
  }

  /**
   No removal of the table comes between its open and the append of a row with a descriptor, and no such append
   between the end of the copy loop and the removal of the table.
   */
  predicate Timely(past: seq<Action>, a: Action) {
    match a
    case Append(t) => Obtained(past, t) == -1 || !Superseded(past, t)
    case Unlink(t) => !Late(past, t)
    case _ => true
  }

  predicate AllDisjoint(acts: seq<Action>) {
    forall i :: 0 <= i < |acts| ==> Disjoint(acts[..i], acts[i])
  }

  predicate AllTimely(acts: seq<Action>) {
    forall i :: 0 <= i < |acts| ==> Timely(acts[..i], acts[i])
  }

  // ---------- the steps so far determine what matters of the state ----------

  /** The file a thread found under the name file_table. */
  function Source(stage: Stage): Option<nat> {
    match stage
    case Appending(_, _, inode) => Some(inode)
    case Deleting(_, source) => Some(source)
    case Copying(c) => Some(c.source)
    case _ => None
  }

  predicate StageLinked(stage: Stage, t: Thread, table: Option<nat>, past: seq<Action>) {
    && (Source(stage).Some? ==> (Source(stage) != table <==> Superseded(past, t)))
    && (stage.Created? || stage.Appending? ==> stage.fd == Obtained(past, t))
  }

  ghost predicate Linked(s: State, past: seq<Action>) {
    && (s.cache.Some? <==> CacheBusy(past))
    && forall t :: 0 <= t < |s.stages| ==> StageLinked(s.stages[t], t, s.table, past)
  }

  lemma Unfold(past: seq<Action>, a: Action)
    ensures Last(past + [a]) == a && Before(past + [a]) == past
  {
  }

  /** A thread that does not move, while the table is not replaced. */
  lemma LinkedStays(stage: Stage, t: Thread, table: Option<nat>, past: seq<Action>, a: Action)
    requires StageLinked(stage, t, table, past)
    requires !a.Unlink? && !a.Rename? && !OpensTable(a, t) && !(a.Create? && a.t == t)
    ensures StageLinked(stage, t, table, past + [a])
  {
    Unfold(past, a);
  }

  /** When it is removed, whatever file a thread has open is no longer the table. */
  lemma LinkedUnlink(s: State, past: seq<Action>, t: Thread)
    requires Linked(s, past) && Enabled(s, Unlink(t))
    ensures Linked(Next(s, Unlink(t)), past + [Unlink(t)])
  {
    Unfold(past, Unlink(t));
    var s' := Next(s, Unlink(t));
    forall u | 0 <= u < |s'.stages| ensures StageLinked(s'.stages[u], u, s'.table, past + [Unlink(t)]) {
      assert StageLinked(s.stages[u], u, s.table, past);
    }
  }

  lemma LinkedRename(s: State, past: seq<Action>, t: Thread)
    requires Placed(s) && Linked(s, past) && Enabled(s, Rename(t))
    ensures Linked(Next(s, Rename(t)), past + [Rename(t)])
  {
    Unfold(past, Rename(t));
    var s' := Next(s, Rename(t));
    forall u | 0 <= u < |s'.stages| ensures StageLinked(s'.stages[u], u, s'.table, past + [Rename(t)]) {
      assert StagePlaced(s.stages[u], s.disk, s.cache) && StageLinked(s.stages[u], u, s.table, past);
    }
  }

  lemma LinkedMove(s: State, s': State, t: Thread, past: seq<Action>, a: Action)
    requires Linked(s, past) && At(s, t) && At(s', t) && s'.stages == s.stages[t := s'.stages[t]] && s'.table == s.table
    requires !a.Unlink? && !a.Rename? && !a.Connect? && !a.OtherOpen? && !a.OtherClose? && a.t == t
    requires s'.cache.Some? <==> (s.cache.Some? || a.OpenCache?)
    requires StageLinked(s'.stages[t], t, s'.table, past + [a])
    ensures Linked(s', past + [a])
  {
    Unfold(past, a);
    forall u | 0 <= u < |s'.stages| ensures StageLinked(s'.stages[u], u, s'.table, past + [a]) {
      if u != t {
        assert StageLinked(s.stages[u], u, s.table, past);
        LinkedStays(s.stages[u], u, s.table, past, a);
      }
    }
  }

  lemma LinkedOpening(s: State, past: seq<Action>, a: Action)
    requires Linked(s, past) && Enabled(s, a)
    requires a.TryLock? || a.Check? || a.Create? || a.OpenTable? || a.Append? || a.Unlock?
    ensures Linked(Next(s, a), past + [a])
  {
    Unfold(past, a);
    assert StageLinked(s.stages[a.t], a.t, s.table, past);
    LinkedMove(s, Next(s, a), a.t, past, a);
  }

  lemma LinkedDeletion(s: State, past: seq<Action>, a: Action)
    requires Linked(s, past) && Enabled(s, a) && (a.StartDelete? || a.OpenCache? || a.SeeEnd? || a.CloseFile?)
    ensures Linked(Next(s, a), past + [a])
  {
    Unfold(past, a);
    assert StageLinked(s.stages[a.t], a.t, s.table, past);
    LinkedMove(s, Next(s, a), a.t, past, a);
  }

  lemma LinkedCopyRow(s: State, past: seq<Action>, t: Thread)
    requires Linked(s, past) && Enabled(s, CopyRow(t))
    ensures Linked(Next(s, CopyRow(t)), past + [CopyRow(t)])
  {
    Unfold(past, CopyRow(t));
    assert StageLinked(s.stages[t], t, s.table, past);
    LinkedMove(s, Next(s, CopyRow(t)), t, past, CopyRow(t));
  }

  lemma LinkedElsewhere(s: State, past: seq<Action>, a: Action)
    requires Linked(s, past) && Enabled(s, a) && (a.Connect? || a.OtherOpen? || a.OtherClose?)
    ensures Linked(Next(s, a), past + [a])
  {
    Unfold(past, a);
    var s' := Next(s, a);
    forall u | 0 <= u < |s'.stages| ensures StageLinked(s'.stages[u], u, s'.table, past + [a]) {
      if u < |s.stages| {
        LinkedStays(s.stages[u], u, s.table, past, a);
      }
    }
  }

  lemma LinkedStep(s: State, past: seq<Action>, a: Action)
    requires Placed(s) && Linked(s, past) && Enabled(s, a)
    ensures Linked(Next(s, a), past + [a])
  {
    if a.Connect? || a.OtherOpen? || a.OtherClose? {
      LinkedElsewhere(s, past, a);
    } else if a.CopyRow? {
      LinkedCopyRow(s, past, a.t);
    } else if a.Unlink? {
      LinkedUnlink(s, past, a.t);
    } else if a.Rename? {
      LinkedRename(s, past, a.t);
    } else if a.StartDelete? || a.OpenCache? || a.SeeEnd? || a.CloseFile? {
      LinkedDeletion(s, past, a);
    } else {
      LinkedOpening(s, past, a);
    }
  }

  lemma {:induction false} RunIsLinked(states: seq<State>, acts: seq<Action>)
    requires Run(states, acts)
    ensures forall i :: 0 <= i < |states| ==> Linked(states[i], acts[..i])
  {
    RunKeepsBasic(states, acts);
    for n := 0 to |acts|
      invariant forall i :: 0 <= i <= n ==> Linked(states[i], acts[..i])
    {
      assert acts[..n + 1] == acts[..n] + [acts[n]];
      LinkedStep(states[n], acts[..n], acts[n]);
    }
  }

  lemma DisjointStep(s: State, past: seq<Action>, a: Action)
    requires Linked(s, past) && Enabled(s, a)
    ensures Collides(s, a) <==> !Disjoint(past, a)
  {
    if a.Unlink? {
      assert StageLinked(s.stages[a.t], a.t, s.table, past);
    }
  }

  /** Whether deletions collide depends on the order of the steps alone. */
  lemma OrderlyIffDisjoint(states: seq<State>, acts: seq<Action>)
    requires Run(states, acts)
    ensures Orderly(states, acts) <==> AllDisjoint(acts)
  {
    RunIsLinked(states, acts);
    forall i | 0 <= i < |acts| ensures Collides(states[i], acts[i]) <==> !Disjoint(acts[..i], acts[i]) {
      DisjointStep(states[i], acts[..i], acts[i]);
    }
  }

  /** So does whether each deletion has a cache file of its own. */
  lemma PrivateIffNotBusy(states: seq<State>, acts: seq<Action>)
    requires Run(states, acts)
    ensures Private(states, acts) <==> forall i :: 0 <= i < |acts| && acts[i].OpenCache? ==> !CacheBusy(acts[..i])
  {
    RunIsLinked(states, acts);
    forall i | 0 <= i < |acts| && acts[i].OpenCache? ensures SharesCache(states[i], acts[i]) <==> CacheBusy(acts[..i]) {
      assert Linked(states[i], acts[..i]);
    }
  }

  // ---------- lost rows ----------

  predicate CopierLinked(stage: Stage, t: Thread, table: Option<nat>, rows: seq<Record>, past: seq<Action>) {
    stage.Copying? && stage.copy.eof && table == Some(stage.copy.source) ==>
      (Fds(Behind(rows, stage.copy.pos)) != multiset{} <==> Late(past, t))
  }

  /** The table is open for the append, or the copy loop is at its end. */
  predicate AtPassage(stage: Stage) {
    stage.Appending? || (stage.Copying? && stage.copy.eof)
  }

  /** Only the two steps bring a thread to one of the two points. */
  predicate ArrivesBy(before: seq<Stage>, after: seq<Stage>, a: Action, u: Thread)
    requires u < |after| && AtPassage(after[u])
  {
    || a == (if after[u].Appending? then OpenTable(u, true) else SeeEnd(u))
    || (u < |before| && before[u] == after[u] && a != Append(u) && a != Unlink(u))
  }

  lemma ArrivesOpening(s: State, a: Action, u: Thread)
    requires Enabled(s, a) && u < |Next(s, a).stages| && AtPassage(Next(s, a).stages[u])
    requires a.TryLock? || a.Check? || a.Create? || a.OpenTable? || a.Append? || a.Unlock?
    ensures ArrivesBy(s.stages, Next(s, a).stages, a, u)
  {
  }

  lemma ArrivesCopying(s: State, a: Action, u: Thread)
    requires Enabled(s, a) && u < |Next(s, a).stages| && AtPassage(Next(s, a).stages[u])
    requires a.CopyRow? || a.Unlink? || a.Rename?
    ensures ArrivesBy(s.stages, Next(s, a).stages, a, u)
  {
  }

  lemma ArrivesOther(s: State, a: Action, u: Thread)
    requires Enabled(s, a) && u < |Next(s, a).stages| && AtPassage(Next(s, a).stages[u])
    requires a.StartDelete? || a.OpenCache? || a.SeeEnd? || a.CloseFile? || a.Connect? || a.OtherOpen? || a.OtherClose?
    ensures ArrivesBy(s.stages, Next(s, a).stages, a, u)
  {
  }

  lemma Arrives(s: State, a: Action, u: Thread)
    requires Enabled(s, a) && u < |Next(s, a).stages| && AtPassage(Next(s, a).stages[u])
    ensures ArrivesBy(s.stages, Next(s, a).stages, a, u)
  {
    if a.CopyRow? || a.Unlink? || a.Rename? {
      ArrivesCopying(s, a, u);
    } else if a.TryLock? || a.Check? || a.Create? || a.OpenTable? || a.Append? || a.Unlock? {
      ArrivesOpening(s, a, u);
    } else {
      ArrivesOther(s, a, u);
    }
  }

  /** As long as no row is lost, the rows behind a copy loop that is at its end are those that came too late. */
  ghost predicate LateLinked(s: State, past: seq<Action>) {
    forall t :: 0 <= t < |s.stages| ==> CopierLinked(s.stages[t], t, s.table, Rows(s), past)
  }

  lemma BehindSnoc(rows: seq<Record>, pos: nat, r: Record)
    requires pos <= |rows|
    ensures Fds(Behind(rows + [r], pos)) == Fds(Behind(rows, pos)) + Single(r.fd)
  {
    assert (rows + [r])[pos..] == rows[pos..] + [r];
    FdsSnoc(rows[pos..], r);
  }

  lemma LateStays(stage: Stage, t: Thread, table: Option<nat>, rows: seq<Record>, past: seq<Action>, a: Action)
    requires CopierLinked(stage, t, table, rows, past) && !a.Append? && a != SeeEnd(t)
    ensures CopierLinked(stage, t, table, rows, past + [a])
  {
    Unfold(past, a);
  }

  /** A row behind a copy loop that is at its end. */
  lemma LateArrival(stage: Stage, u: Thread, table: Option<nat>, rows: seq<Record>, past: seq<Action>, a: Action,
                    r: Record)
    requires CopierLinked(stage, u, table, rows, past) && stage.Copying? && stage.copy.pos <= |rows|
    requires a.Append? && Obtained(past, a.t) == r.fd
    ensures CopierLinked(stage, u, table, rows + [r], past + [a])
  {
    Unfold(past, a);
    BehindSnoc(rows, stage.copy.pos, r);
  }

  /** An append of no descriptor, which is not in the table. */
  lemma LateFailure(stage: Stage, u: Thread, table: Option<nat>, rows: seq<Record>, past: seq<Action>, a: Action)
    requires CopierLinked(stage, u, table, rows, past) && a.Append? && Obtained(past, a.t) == -1
    ensures CopierLinked(stage, u, table, rows, past + [a])
  {
    Unfold(past, a);
  }

  lemma LateAppend(s: State, past: seq<Action>, t: Thread)
    requires Inv(s) && Linked(s, past) && LateLinked(s, past) && Enabled(s, Append(t)) && !Loses(s, Append(t))
    ensures LateLinked(Next(s, Append(t)), past + [Append(t)])
  {
    AppendedRows(s, t);
    assert StageLinked(s.stages[t], t, s.table, past);
    var s', r := Next(s, Append(t)), Record(s.pid, s.stages[t].name, s.stages[t].fd);
    forall u | 0 <= u < |s'.stages| && s'.stages[u].Copying? && s.table == Some(s.stages[u].copy.source)
      ensures CopierLinked(s'.stages[u], u, s'.table, Rows(s'), past + [Append(t)])
    {
      assert StagePlaced(s.stages[u], s.disk, s.cache);
      if s.table == Some(s.stages[t].inode) {
        LateArrival(s.stages[u], u, s.table, Rows(s), past, Append(t), r);
      } else {
        LateFailure(s.stages[u], u, s.table, Rows(s), past, Append(t));
      }
    }
  }

  lemma LateSeeEnd(s: State, past: seq<Action>, t: Thread)
    requires Inv(s) && LateLinked(s, past) && Enabled(s, SeeEnd(t))
    ensures LateLinked(Next(s, SeeEnd(t)), past + [SeeEnd(t)])
  {
    Unfold(past, SeeEnd(t));
    var s' := Next(s, SeeEnd(t));
    forall u | 0 <= u < |s'.stages| ensures CopierLinked(s'.stages[u], u, s'.table, Rows(s'), past + [SeeEnd(t)]) {
      if u != t {
        assert CopierLinked(s.stages[u], u, s.table, Rows(s), past);
      }
    }
  }

  lemma LateKept(s: State, s': State, past: seq<Action>, a: Action)
    requires LateLinked(s, past) && Rows(s') == Rows(s) && s'.table == s.table && !a.Append? && !a.SeeEnd?
    requires forall u :: 0 <= u < |s'.stages| && s'.stages[u].Copying? && s'.stages[u].copy.eof ==>
               u < |s.stages| && s.stages[u] == s'.stages[u]
    ensures LateLinked(s', past + [a])
  {
    forall u | 0 <= u < |s'.stages| && s'.stages[u].Copying? && s'.stages[u].copy.eof
      ensures CopierLinked(s'.stages[u], u, s'.table, Rows(s'), past + [a])
    {
      LateStays(s.stages[u], u, s.table, Rows(s), past, a);
    }
  }

  lemma LateOther(s: State, past: seq<Action>, a: Action)
    requires Inv(s) && LateLinked(s, past) && Enabled(s, a) && !a.Append? && !a.SeeEnd? && !a.Unlink? && !a.Rename?
    ensures LateLinked(Next(s, a), past + [a])
  {
    var s' := Next(s, a);
    RowsKept(s, a);
    forall u | 0 <= u < |s'.stages| && s'.stages[u].Copying? && s'.stages[u].copy.eof
      ensures u < |s.stages| && s.stages[u] == s'.stages[u]
    {
      Arrives(s, a, u);
    }
    LateKept(s, s', past, a);
  }

  lemma NoCopierLeft(s: State, a: Action)
    requires CopyInv(s) && Enabled(s, a) && (a.Unlink? || a.Rename?)
    ensures forall u :: 0 <= u < |Next(s, a).stages| ==> !Next(s, a).stages[u].Copying?
  {
    assert HasCopy(s.stages[a.t]);
    assert forall u :: 0 <= u < |s.stages| && u != a.t ==> !HasCopy(s.stages[u]);
  }

  lemma LateStep(s: State, past: seq<Action>, a: Action)
    requires Inv(s) && Linked(s, past) && LateLinked(s, past) && Enabled(s, a) && !Collides(s, a) && !Loses(s, a)
    ensures LateLinked(Next(s, a), past + [a])
  {
    if a.Append? {
      LateAppend(s, past, a.t);
    } else if a.SeeEnd? {
      LateSeeEnd(s, past, a.t);
    } else if a.Unlink? || a.Rename? {
      NoCopierLeft(s, a);
    } else {
      LateOther(s, past, a);
    }
  }

  lemma TimelyStep(s: State, past: seq<Action>, a: Action)
    requires Linked(s, past) && LateLinked(s, past) && Enabled(s, a) && !Collides(s, a)
    ensures Loses(s, a) <==> !Timely(past, a)
  {
    if a.Append? {
      assert StageLinked(s.stages[a.t], a.t, s.table, past);
    } else if a.Unlink? {
      assert CopierLinked(s.stages[a.t], a.t, s.table, Rows(s), past);
    }
  }

  ghost predicate LosslessTo(states: seq<State>, acts: seq<Action>, n: nat)
    requires Run(states, acts) && n <= |acts|
  {
    forall i :: 0 <= i < n ==> !Loses(states[i], acts[i])
  }

  predicate TimelyTo(acts: seq<Action>, n: nat)
    requires n <= |acts|
  {
    forall i :: 0 <= i < n ==> Timely(acts[..i], acts[i])
  }

  lemma LosslessStep(states: seq<State>, acts: seq<Action>, n: nat)
    requires Run(states, acts) && Orderly(states, acts) && n < |acts|
    requires Inv(states[n]) && Linked(states[n], acts[..n]) && LateLinked(states[n], acts[..n])
    ensures Loses(states[n], acts[n]) <==> !Timely(acts[..n], acts[n])
    ensures !Loses(states[n], acts[n]) ==> LateLinked(states[n + 1], acts[..n + 1])
  {
    TimelyStep(states[n], acts[..n], acts[n]);
    if !Loses(states[n], acts[n]) {
      assert acts[..n + 1] == acts[..n] + [acts[n]];
      LateStep(states[n], acts[..n], acts[n]);
    }
  }

  /** If deletions do not collide, whether a row is lost depends on the order of the steps alone. */
  lemma {:induction false} LosslessIffTimely(states: seq<State>, acts: seq<Action>)
    requires Run(states, acts) && AllDisjoint(acts)
    ensures Lossless(states, acts) <==> AllTimely(acts)
  {
    OrderlyIffDisjoint(states, acts);
    OrderlyKeepsInv(states, acts);
    RunIsLinked(states, acts);
    for n := 0 to |acts|
      invariant LosslessTo(states, acts, n) <==> TimelyTo(acts, n)
      invariant LosslessTo(states, acts, n) ==> LateLinked(states[n], acts[..n])
    {
      if LosslessTo(states, acts, n) {
        LosslessStep(states, acts, n);
      }
    }
  }

  /**
   The order of the steps decides what an OK is worth: if deletions do not run into each other, the OK replies to
   FOPEN are durable throughout if and only if no step comes too late, and then two of them for one name have a
   deletion in between.
   */
  lemma ScheduleDecides(states: seq<State>, acts: seq<Action>)
    requires Run(states, acts) && AllDisjoint(acts)
    ensures AlwaysDurable(states) <==> AllTimely(acts)
    ensures AllTimely(acts) ==> Separated(states[|acts|].log)
  {
    OrderlyIffDisjoint(states, acts);
    LosslessIffTimely(states, acts);
    DurableIffLossless(states, acts);
    if AllTimely(acts) {
      LosslessIsSeparated(states, acts);
    }
  }

  // ---------- atomic deletions and appends ----------

  /** A deletion was started, and none has ended since. */
  predicate DeletionOpen(past: seq<Action>) {
    past != [] && !Last(past).Rename? && (Last(past).StartDelete? || DeletionOpen(Before(past)))
  }

  /** Deletions come one after another. */
  predicate Serial(acts: seq<Action>) {
    forall i :: 0 <= i < |acts| && acts[i].StartDelete? ==> !DeletionOpen(acts[..i])
  }

  /** The end of a copy loop is followed at once by the removal of the table, and the open of the table by the append. */
  predicate Prompt(acts: seq<Action>) {
    forall i :: 0 < i < |acts| ==>
      && (acts[i - 1].SeeEnd? ==> acts[i] == Unlink(acts[i - 1].t))
      && (acts[i - 1].OpenTable? && acts[i - 1].ok ==> acts[i] == Append(acts[i - 1].t))
  }

  predicate InDeletion(stage: Stage) {
    stage.Deleting? || HasCopy(stage)
  }

  /** The one deletion in progress has the table open, and has the cache file to itself. */
  ghost predicate OneDeletion(s: State, past: seq<Action>) {
    && (s.cache.Some? ==> DeletionOpen(past))
    && (forall t :: 0 <= t < |s.stages| && InDeletion(s.stages[t]) ==>
          && DeletionOpen(past)
          && (!s.stages[t].Unlinked? ==> Source(s.stages[t]) == s.table)
          && (s.stages[t].Deleting? ==> s.cache == None))
    && (forall t, u :: 0 <= t < u < |s.stages| ==> !(InDeletion(s.stages[t]) && InDeletion(s.stages[u])))
  }

  /** A step that neither starts nor ends a deletion. */
  lemma OneDeletionMove(s: State, s': State, t: Thread, past: seq<Action>, a: Action)
    requires OneDeletion(s, past) && At(s, t) && At(s', t) && s'.stages == s.stages[t := s'.stages[t]]
    requires s'.table == s.table && s'.cache == s.cache && !a.StartDelete? && !a.Rename?
    requires InDeletion(s'.stages[t]) ==> s.stages[t].Copying? && s'.stages[t].Copying?
    requires InDeletion(s'.stages[t]) ==> Source(s'.stages[t]) == Source(s.stages[t])
    ensures OneDeletion(s', past + [a])
  {
    Unfold(past, a);
  }

  lemma OneDeletionStart(s: State, past: seq<Action>, t: Thread, fd: int)
    requires OneDeletion(s, past) && Enabled(s, StartDelete(t, fd)) && !DeletionOpen(past)
    ensures OneDeletion(Next(s, StartDelete(t, fd)), past + [StartDelete(t, fd)])
  {
    Unfold(past, StartDelete(t, fd));
  }

  lemma OneDeletionOpenCache(s: State, past: seq<Action>, t: Thread)
    requires OneDeletion(s, past) && Enabled(s, OpenCache(t))
    ensures !Collides(s, OpenCache(t)) && OneDeletion(Next(s, OpenCache(t)), past + [OpenCache(t)])
  {
    Unfold(past, OpenCache(t));
    assert forall u :: 0 <= u < |s.stages| && u != t ==> !InDeletion(s.stages[u]);
  }

  lemma OneDeletionUnlink(s: State, past: seq<Action>, t: Thread)
    requires OneDeletion(s, past) && Enabled(s, Unlink(t))
    ensures !Collides(s, Unlink(t)) && OneDeletion(Next(s, Unlink(t)), past + [Unlink(t)])
  {
    Unfold(past, Unlink(t));
    assert InDeletion(s.stages[t]);
    assert forall u :: 0 <= u < |s.stages| && u != t ==> !InDeletion(s.stages[u]);
  }

  lemma OneDeletionRename(s: State, past: seq<Action>, t: Thread)
    requires OneDeletion(s, past) && Enabled(s, Rename(t))
    ensures OneDeletion(Next(s, Rename(t)), past + [Rename(t)])
  {
    assert InDeletion(s.stages[t]);
    assert forall u :: 0 <= u < |s.stages| && u != t ==> !InDeletion(s.stages[u]);
  }

  lemma OneDeletionElsewhere(s: State, past: seq<Action>, a: Action)
    requires OneDeletion(s, past) && Enabled(s, a) && (a.Connect? || a.OtherOpen? || a.OtherClose?)
    ensures OneDeletion(Next(s, a), past + [a])
  {
    Unfold(past, a);
  }

  lemma OneDeletionRest(s: State, past: seq<Action>, a: Action)
    requires OneDeletion(s, past) && Enabled(s, a) && (a.SeeEnd? || a.CloseFile?)
    ensures OneDeletion(Next(s, a), past + [a])
  {
    OneDeletionMove(s, Next(s, a), a.t, past, a);
  }

  lemma OneDeletionCopyRow(s: State, past: seq<Action>, t: Thread)
    requires OneDeletion(s, past) && Enabled(s, CopyRow(t))
    ensures OneDeletion(Next(s, CopyRow(t)), past + [CopyRow(t)])
  {
    OneDeletionMove(s, Next(s, CopyRow(t)), t, past, CopyRow(t));
  }

  lemma OneDeletionOpening(s: State, past: seq<Action>, a: Action)
    requires OneDeletion(s, past) && Enabled(s, a)
    requires a.TryLock? || a.Check? || a.Create? || a.OpenTable? || a.Append? || a.Unlock?
    ensures OneDeletion(Next(s, a), past + [a])
  {
    OneDeletionMove(s, Next(s, a), a.t, past, a);
  }

  lemma OneDeletionStep(s: State, past: seq<Action>, a: Action)
    requires OneDeletion(s, past) && Enabled(s, a) && (a.StartDelete? ==> !DeletionOpen(past))
    ensures !Collides(s, a) && OneDeletion(Next(s, a), past + [a])
  {
    match a {
      case Connect => OneDeletionElsewhere(s, past, a);
      case OtherOpen(_) => OneDeletionElsewhere(s, past, a);
      case OtherClose(_) => OneDeletionElsewhere(s, past, a);
      case StartDelete(t, fd) => OneDeletionStart(s, past, t, fd);
      case OpenCache(t) => OneDeletionOpenCache(s, past, t);
      case CopyRow(t) => OneDeletionCopyRow(s, past, t);
      case Unlink(t) => OneDeletionUnlink(s, past, t);
      case Rename(t) => OneDeletionRename(s, past, t);
      case SeeEnd(_) => OneDeletionRest(s, past, a);
      case CloseFile(_) => OneDeletionRest(s, past, a);
      case _ => OneDeletionOpening(s, past, a);
    }
  }

  lemma SerialStep(states: seq<State>, acts: seq<Action>, n: nat)
    requires Run(states, acts) && Serial(acts) && n < |acts| && OneDeletion(states[n], acts[..n])
    ensures !Collides(states[n], acts[n]) && OneDeletion(states[n + 1], acts[..n + 1])
  {
    assert acts[..n + 1] == acts[..n] + [acts[n]];
    OneDeletionStep(states[n], acts[..n], acts[n]);
  }

  lemma {:induction false} SerialIsOrderly(states: seq<State>, acts: seq<Action>)
    requires Run(states, acts) && Serial(acts)
    ensures Orderly(states, acts)
  {
    for n := 0 to |acts|
      invariant OneDeletion(states[n], acts[..n])
      invariant forall i :: 0 <= i < n ==> !Collides(states[i], acts[i])
    {
      SerialStep(states, acts, n);
    }
  }

  /** In a prompt schedule the threads are at these two points only between two consecutive steps. */
  ghost predicate Passing(s: State, past: seq<Action>) {
    forall t :: 0 <= t < |s.stages| ==>
      && (s.stages[t].Appending? ==> past != [] && Last(past) == OpenTable(t, true))
      && (s.stages[t].Copying? && s.stages[t].copy.eof ==> past != [] && Last(past) == SeeEnd(t))
  }

  /** Whichever of the two the last step was, this one follows it up. */
  predicate Follows(past: seq<Action>, a: Action) {
    past != [] ==>
      && (Last(past).SeeEnd? ==> a == Unlink(Last(past).t))
      && (Last(past).OpenTable? && Last(past).ok ==> a == Append(Last(past).t))
  }

  lemma PassingIsTimely(s: State, past: seq<Action>, a: Action)
    requires Passing(s, past) && Enabled(s, a)
    ensures Timely(past, a)
  {
  }

  lemma PassingStep(s: State, past: seq<Action>, a: Action)
    requires Passing(s, past) && Enabled(s, a) && Follows(past, a)
    ensures Passing(Next(s, a), past + [a])
  {
    Unfold(past, a);
    forall u | 0 <= u < |Next(s, a).stages| && AtPassage(Next(s, a).stages[u])
      ensures a == if Next(s, a).stages[u].Appending? then OpenTable(u, true) else SeeEnd(u)
    {
      Arrives(s, a, u);
    }
  }

  lemma {:induction false} PromptIsTimely(states: seq<State>, acts: seq<Action>)
    requires Run(states, acts) && Prompt(acts)
    ensures AllTimely(acts)
  {
    for n := 0 to |acts|
      invariant Passing(states[n], acts[..n])
      invariant forall i :: 0 <= i < n ==> Timely(acts[..i], acts[i])
    {
      assert acts[..n + 1] == acts[..n] + [acts[n]];
      PassingIsTimely(states[n], acts[..n], acts[n]);
      PassingStep(states[n], acts[..n], acts[n]);
    }
  }

  /**
   What the server would guarantee if it made deletions and appends atomic: in every interleaving of all the other
   steps every state is safe, every OK is durable, OK replies for one name are separated by a deletion, and each close
   belongs to one issue of its descriptor.
   */
  lemma AtomicIsEnough(states: seq<State>, acts: seq<Action>)
    requires Run(states, acts) && Serial(acts) && Prompt(acts)
    ensures forall i :: 0 <= i < |states| ==> Safe(states[i]) && Durable(states[i])
    ensures Separated(states[|acts|].log) && ClosesMatched(states[|acts|].log)
  {
    SerialIsOrderly(states, acts);
    OrderlyIffDisjoint(states, acts);
    PromptIsTimely(states, acts);
    ScheduleDecides(states, acts);
    RunIsSafe(states, acts);
    OrderlyNeverReinstates(states, acts);
    SoundIsMatched(states, acts);
  }
}
