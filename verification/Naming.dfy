/**
 The names in the descriptor table, while threads add and delete rows.
 */
module Naming {
  import opened Options
  import opened Records
  import opened Protocol

  // ---------- when names are unique ----------

  /** No file of rows has a name twice: neither the table nor one that a deletion may still be copying. */
  ghost predicate FilesUnique(s: State) {
    forall i :: 0 <= i < |s.disk| ==> UniqueNames(s.disk[i])
  }

  /** The row is appended to a file that has its name already. */
  predicate Repeats(s: State, a: Action)
    requires Enabled(s, a)
  {
    a.Append? && HasName(FileRows(s.disk, s.stages[a.t].inode), s.stages[a.t].name)
  }

  lemma UniqueSnoc(rs: seq<Record>, r: Record)
    requires UniqueNames(rs)
    ensures UniqueNames(rs + [r]) <==> !HasName(rs, r.name)
  {
    if q :| q in rs && q.name == r.name {
      var k :| 0 <= k < |rs| && rs[k] == q;
      assert (rs + [r])[k].name == (rs + [r])[|rs|].name;
    } else {
      forall k | 0 <= k < |rs| ensures rs[k].name != r.name {
        assert rs[k] in rs;
      }
    }
  }

  lemma UniqueAppend(s: State, t: Thread)
    requires Placed(s) && FilesUnique(s) && Enabled(s, Append(t))
    ensures FilesUnique(Next(s, Append(t))) <==> !Repeats(s, Append(t))
  {
    var Appending(name, fd, inode) := s.stages[t];
    var r, s' := Record(s.pid, name, fd), Next(s, Append(t));
    assert StagePlaced(s.stages[t], s.disk, s.cache);
    UniqueSnoc(s.disk[inode], r);
    assert s'.disk[inode] == s.disk[inode] + [r];
  }

  lemma UniquePrefix(rs: seq<Record>, k: nat, fd: int)
    requires UniqueNames(rs) && k < |rs|
    ensures rs[k].fd != fd ==> UniqueNames(Remove(rs[..k], fd) + [rs[k]])
  {
    NextRow(rs, k, fd);
    RemoveUnique(rs[..k + 1], fd);
  }

  lemma UniqueCopyRow(s: State, t: Thread)
    requires Placed(s) && CopyInv(s) && FilesUnique(s) && Enabled(s, CopyRow(t))
    ensures FilesUnique(Next(s, CopyRow(t)))
  {
    var c := s.stages[t].copy;
    CopyRowGrowsCopy(s, t);
    assert CopyingInv(s.stages[t], s.disk, s.table, s.cache);
    UniquePrefix(s.disk[c.source], c.pos, c.fd);
  }

  lemma DiskKept(s: State, a: Action)
    requires Enabled(s, a) && !a.Append? && !a.CopyRow? && !a.OpenCache?
    ensures Next(s, a).disk == s.disk
  {
  }

  lemma UniqueStep(s: State, a: Action)
    requires Placed(s) && CopyInv(s) && FilesUnique(s) && Enabled(s, a)
    ensures FilesUnique(Next(s, a)) <==> !Repeats(s, a)
  {
    match a {
      case Append(t) => UniqueAppend(s, t);
      case CopyRow(t) => UniqueCopyRow(s, t);
      case OpenCache(t) =>
      case _ => DiskKept(s, a);
    }
  }

  ghost predicate AlwaysUnique(states: seq<State>) {
    forall i :: 0 <= i < |states| ==> FilesUnique(states[i])
  }

  ghost predicate NeverRepeats(states: seq<State>, acts: seq<Action>)
    requires Run(states, acts)
  {
    forall i :: 0 <= i < |acts| ==> !Repeats(states[i], acts[i])
  }

  lemma {:induction false} FreshIsUnique(states: seq<State>, acts: seq<Action>)
    requires Run(states, acts) && Private(states, acts) && NeverRepeats(states, acts)
    ensures AlwaysUnique(states)
  {
    RunKeepsCopies(states, acts);
    for n := 0 to |acts|
      invariant forall i :: 0 <= i <= n ==> FilesUnique(states[i])
    {
      UniqueStep(states[n], acts[n]);
    }
  }

  lemma RepeatedOnce(states: seq<State>, acts: seq<Action>, i: nat)
    requires Run(states, acts) && Private(states, acts) && i < |acts| && Repeats(states[i], acts[i])
    ensures !AlwaysUnique(states)
  {
    RunKeepsCopies(states, acts);
    if FilesUnique(states[i]) {
      UniqueStep(states[i], acts[i]);
      assert !FilesUnique(states[i + 1]);
    }
  }

  /**
   In every run in which each deletion has a cache file of its own, names are unique throughout if and only if no row
   is appended to a file that has its name already.
   */
  lemma UniqueIffFresh(states: seq<State>, acts: seq<Action>)
    requires Run(states, acts) && Private(states, acts)
    ensures AlwaysUnique(states) <==> NeverRepeats(states, acts)
  {
    if NeverRepeats(states, acts) {
      FreshIsUnique(states, acts);
    } else {
      var i: nat :| i < |acts| && Repeats(states[i], acts[i]);
      RepeatedOnce(states, acts, i);
    }
  }

  // ---------- what check_descriptor is worth ----------

  /** From check to open a name is absent from the table, and then from the file that was opened as the table. */
  predicate NameAbsent(stage: Stage, rows: seq<Record>, disk: seq<seq<Record>>) {
    && (stage.Absent? || stage.Created? ==> !HasName(rows, stage.name))
    && (stage.Appending? ==> !HasName(FileRows(disk, stage.inode), stage.name))
  }

  ghost predicate NameInv(s: State) {
    FilesUnique(s) && forall t :: 0 <= t < |s.stages| ==> NameAbsent(s.stages[t], Rows(s), s.disk)
  }

  /** The deletion brings a name back into the table that some thread has found absent. */
  ghost predicate Reinstates(s: State, t: Thread)
    requires At(s, t) && HasCopy(s.stages[t])
  {
    exists u :: 0 <= u < |s.stages| && (s.stages[u].Absent? || s.stages[u].Created?)
                && HasName(Remove(Read(s, t), s.stages[t].copy.fd), s.stages[u].name)
  }

  /** The lookup of check_descriptor misses only names that are absent, because no row has fd 0. */
  lemma CheckFindsAbsence(s: State, name: string)
    requires NoZeros(s)
    ensures Lookup(Rows(s), name) == 0 ==> !HasName(Rows(s), name)
  {
    if HasName(Rows(s), name) {
      LookupFinds(Rows(s), name);
      var r :| r in Rows(s) && r.name == name && r.fd == Lookup(Rows(s), name);
      assert NonZero(s.disk[Current(s).value]);
    }
  }

  /** A step that keeps the rows, and lets no thread newly rely on the absence of a name. */
  lemma NamesUntouched(s: State, s': State, t: Thread)
    requires NameInv(s) && At(s, t) && At(s', t) && s'.stages == s.stages[t := s'.stages[t]]
    requires Rows(s') == Rows(s) && s'.disk == s.disk && NameAbsent(s'.stages[t], Rows(s), s.disk)
    ensures NameInv(s')
  {
  }

  lemma NameCheck(s: State, t: Thread)
    requires NoZeros(s) && NameInv(s) && Enabled(s, Check(t))
    ensures NameInv(Next(s, Check(t)))
  {
    CheckFindsAbsence(s, s.stages[t].name);
    NamesUntouched(s, Next(s, Check(t)), t);
  }

  lemma NameAppend(s: State, t: Thread)
    requires LockInv(s) && Placed(s) && NameInv(s) && Enabled(s, Append(t))
    ensures NameInv(Next(s, Append(t))) && !Repeats(s, Append(t))
  {
    assert NameAbsent(s.stages[t], Rows(s), s.disk);
    UniqueAppend(s, t);
    assert forall u :: 0 <= u < |s.stages| && Critical(s.stages[u]) ==> u == t;
  }

  /** The copy is not a file that a thread is about to append to. */
  lemma AbsentStays(stage: Stage, rows: seq<Record>, disk: seq<seq<Record>>, disk': seq<seq<Record>>, dest: nat)
    requires NameAbsent(stage, rows, disk) && StagePlaced(stage, disk, Some(dest))
    requires |disk'| == |disk| && forall i :: 0 <= i < |disk| && i != dest ==> disk'[i] == disk[i]
    ensures NameAbsent(stage, rows, disk')
  {
  }

  lemma NameCopyRow(s: State, t: Thread)
    requires Placed(s) && CopyInv(s) && NameInv(s) && Enabled(s, CopyRow(t))
    ensures NameInv(Next(s, CopyRow(t)))
  {
    UniqueCopyRow(s, t);
    CopyCopyRow(s, t);
    CopyRowGrowsCopy(s, t);
    var c, s' := s.stages[t].copy, Next(s, CopyRow(t));
    assert CopyingInv(s.stages[t], s.disk, s.table, s.cache);
    forall u | 0 <= u < |s'.stages| && u != t ensures NameAbsent(s'.stages[u], Rows(s'), s'.disk) {
      AbsentStays(s.stages[u], Rows(s), s.disk, s'.disk, c.dest);
    }
  }

  lemma NameOpenCache(s: State, t: Thread)
    requires Placed(s) && NameInv(s) && Enabled(s, OpenCache(t))
    ensures NameInv(Next(s, OpenCache(t)))
  {
    OpenCacheRows(s, t);
    var s' := Next(s, OpenCache(t));
    forall u | 0 <= u < |s'.stages| && u != t ensures NameAbsent(s'.stages[u], Rows(s'), s'.disk) {
      assert NameAbsent(s.stages[u], Rows(s), s.disk) && StagePlaced(s.stages[u], s.disk, s.cache);
    }
  }

  lemma NameRename(s: State, t: Thread)
    requires Placed(s) && CopyInv(s) && NameInv(s) && Enabled(s, Rename(t))
    ensures NameInv(Next(s, Rename(t)))
  {
    CopyRename(s, t);
    NamesUntouched(s, Next(s, Rename(t)), t);
  }

  /** Removing the table breaks the promise of check_descriptor if and only if it brings back such a name. */
  lemma NameUnlink(s: State, t: Thread)
    requires Placed(s) && CopyInv(s) && NameInv(s) && Enabled(s, Unlink(t))
    ensures NameInv(Next(s, Unlink(t))) <==> !Reinstates(s, t)
  {
    UnlinkedRows(s, t);
    var s', kept := Next(s, Unlink(t)), Remove(Read(s, t), s.stages[t].copy.fd);
    assert s'.disk == s.disk;
    if Reinstates(s, t) {
      var u :| 0 <= u < |s.stages| && (s.stages[u].Absent? || s.stages[u].Created?) && HasName(kept, s.stages[u].name);
      assert !NameAbsent(s'.stages[u], Rows(s'), s'.disk);
    } else {
      forall u | 0 <= u < |s'.stages| && u != t ensures NameAbsent(s'.stages[u], Rows(s'), s'.disk) {
        assert NameAbsent(s.stages[u], Rows(s), s.disk);
      }
    }
  }

  lemma NameOpening(s: State, a: Action)
    requires BasicInv(s) && NameInv(s) && Enabled(s, a)
    requires a.TryLock? || a.Check? || a.Create? || a.OpenTable? || a.Append? || a.Unlock?
    ensures NameInv(Next(s, a)) && !Repeats(s, a)
  {
    if a.Check? {
      NameCheck(s, a.t);
    } else if a.Append? {
      NameAppend(s, a.t);
    } else {
      assert NameAbsent(s.stages[a.t], Rows(s), s.disk);
      NamesUntouched(s, Next(s, a), a.t);
    }
  }

  lemma NameRest(s: State, a: Action)
    requires NameInv(s) && Enabled(s, a) && (a.StartDelete? || a.SeeEnd? || a.CloseFile?)
    ensures NameInv(Next(s, a))
  {
    NamesUntouched(s, Next(s, a), a.t);
  }

  lemma NameElsewhere(s: State, a: Action)
    requires NameInv(s) && Enabled(s, a) && (a.Connect? || a.OtherOpen? || a.OtherClose?)
    ensures NameInv(Next(s, a))
  {
  }

  lemma NameStep(s: State, a: Action)
    requires BasicInv(s) && CopyInv(s) && NameInv(s) && Enabled(s, a)
    ensures NameInv(Next(s, a)) <==> (a.Unlink? ==> !Reinstates(s, a.t))
    ensures !Repeats(s, a)
  {
    match a {
      case Connect => NameElsewhere(s, a);
      case OtherOpen(_) => NameElsewhere(s, a);
      case OtherClose(_) => NameElsewhere(s, a);
      case StartDelete(_, _) => NameRest(s, a);
      case SeeEnd(_) => NameRest(s, a);
      case CloseFile(_) => NameRest(s, a);
      case OpenCache(t) => NameOpenCache(s, t);
      case CopyRow(t) => NameCopyRow(s, t);
      case Unlink(t) => NameUnlink(s, t);
      case Rename(t) => NameRename(s, t);
      case _ => NameOpening(s, a);
    }
  }

  ghost predicate AlwaysNamed(states: seq<State>) {
    forall i :: 0 <= i < |states| ==> NameInv(states[i])
  }

  ghost predicate NeverReinstates(states: seq<State>, acts: seq<Action>)
    requires Run(states, acts)
  {
    forall i :: 0 <= i < |acts| && acts[i].Unlink? ==> !Reinstates(states[i], acts[i].t)
  }

  lemma {:induction false} NamesStay(states: seq<State>, acts: seq<Action>)
    requires Run(states, acts) && Private(states, acts) && NeverReinstates(states, acts)
    ensures AlwaysNamed(states)
  {
    RunKeepsCopies(states, acts);
    for n := 0 to |acts|
      invariant forall i :: 0 <= i <= n ==> NameInv(states[i])
    {
      NameStep(states[n], acts[n]);
    }
  }

  lemma ReinstatedOnce(states: seq<State>, acts: seq<Action>, i: nat)
    requires Run(states, acts) && Private(states, acts)
    requires i < |acts| && acts[i].Unlink? && Reinstates(states[i], acts[i].t)
    ensures !AlwaysNamed(states)
  {
    RunKeepsCopies(states, acts);
    if NameInv(states[i]) {
      NameStep(states[i], acts[i]);
      assert !NameInv(states[i + 1]);
    }
  }

  /**
   In every run in which each deletion has a cache file of its own, check_descriptor's answer is good until the name
   is recorded, and names are unique, if and only if no deletion brings back a name that a thread has found absent.
   */
  lemma NamedIffNotReinstated(states: seq<State>, acts: seq<Action>)
    requires Run(states, acts) && Private(states, acts)
    ensures AlwaysNamed(states) <==> NeverReinstates(states, acts)
  {
    if NeverReinstates(states, acts) {
      NamesStay(states, acts);
    } else {
      var i: nat :| i < |acts| && acts[i].Unlink? && Reinstates(states[i], acts[i].t);
      ReinstatedOnce(states, acts, i);
    }
  }

  lemma OrderlyUnlinkKeepsNames(s: State, t: Thread)
    requires Placed(s) && CopyInv(s) && NameInv(s) && Enabled(s, Unlink(t)) && !Collides(s, Unlink(t))
    ensures !Reinstates(s, t)
  {
    OrderlyRead(s, t);
    forall u | 0 <= u < |s.stages| && (s.stages[u].Absent? || s.stages[u].Created?)
      ensures !HasName(Remove(Read(s, t), s.stages[t].copy.fd), s.stages[u].name)
    {
      assert NameAbsent(s.stages[u], Rows(s), s.disk);
      assert forall r :: r in Read(s, t) ==> r in Rows(s);
    }
  }

  /** So it is if deletions do not collide. */
  lemma {:induction false} OrderlyIsNamed(states: seq<State>, acts: seq<Action>)
    requires Run(states, acts) && Orderly(states, acts)
    ensures AlwaysNamed(states)
  {
    OrderlyIsPrivate(states, acts);
    RunKeepsCopies(states, acts);
    for n := 0 to |acts|
      invariant forall i :: 0 <= i <= n ==> NameInv(states[i])
    {
      if acts[n].Unlink? {
        OrderlyUnlinkKeepsNames(states[n], acts[n].t);
      }
      NameStep(states[n], acts[n]);
    }
  }
}
