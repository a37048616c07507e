/**
 The descriptors of the files that clients have open: in which rows they are recorded, and which threads hold them.
 */
module Descriptors {
  import opened Options
  import opened Records
  import opened Protocol

  /** The descriptors recorded in rows, without the -1 of failed opens. */
  function Fds(rs: seq<Record>): multiset<int> {
    if rs == [] then multiset{}
    else (if rs[0].fd == -1 then multiset{} else multiset{rs[0].fd}) + Fds(rs[1..])
  }

  function Single(fd: int): multiset<int> {
    if fd == -1 then multiset{} else multiset{fd}
  }

  /**
   The descriptor a thread is responsible for, if any: created and not yet recorded, or its row removed and not yet
   closed.
   */
  function HeldBy(stage: Stage): multiset<int> {
    match stage
    case Created(_, fd) => Single(fd)
    case Appending(_, fd, _) => Single(fd)
    case Unlinked(c, removed) => if c.found && removed then Single(c.fd) else multiset{}
    case Closing(fd) => Single(fd)
    case _ => multiset{}
  }

  function Held(stages: seq<Stage>): multiset<int> {
    if stages == [] then multiset{} else HeldBy(stages[0]) + Held(stages[1..])
  }

  ghost predicate Balanced(rows: multiset<int>, held: multiset<int>, leaked: multiset<int>, files: set<int>) {
    rows + held + leaked == multiset(files)
  }

  /** Every descriptor in a row or with a thread is open, and is in one row or with one thread only. */
  ghost predicate Exclusive(s: State) {
    Fds(Rows(s)) + Held(s.stages) <= multiset(s.files)
  }

  /** The open descriptors that no row records and no thread holds. */
  function Leaked(s: State): multiset<int> {
    multiset(s.files) - (Fds(Rows(s)) + Held(s.stages))
  }

  /** Conservation: every open descriptor is in exactly one row, or with exactly one thread, or among these. */
  ghost predicate Accounts(s: State, leaked: multiset<int>) {
    Balanced(Fds(Rows(s)), Held(s.stages), leaked, s.files)
  }

  // ---------- small facts ----------

  lemma {:induction false} FdsConcat(a: seq<Record>, b: seq<Record>)
    ensures Fds(a + b) == Fds(a) + Fds(b)
  {
    if a == [] {
      assert a + b == b;
    } else {
      assert (a + b)[1..] == a[1..] + b;
      FdsConcat(a[1..], b);
    }
  }

  lemma FdsSnoc(a: seq<Record>, r: Record)
    ensures Fds(a + [r]) == Fds(a) + Single(r.fd)
  {
    FdsConcat(a, [r]);
    assert [r][1..] == [];
  }

  lemma {:induction false} FdsHas(rs: seq<Record>, fd: int)
    requires fd != -1
    ensures HasFd(rs, fd) <==> fd in Fds(rs)
  {
    if rs != [] {
      FdsHas(rs[1..], fd);
      assert rs[0] in rs;
      assert forall r :: r in rs <==> r == rs[0] || r in rs[1..];
    }
  }

  lemma FdsCons(r: Record, rs: seq<Record>)
    ensures Fds([r] + rs) == Single(r.fd) + Fds(rs)
  {
    assert ([r] + rs)[1..] == rs;
  }

  lemma DropOne(fd: int, x: int, m: multiset<int>)
    ensures (Single(x) + m)[fd := 0] == if x == fd then m[fd := 0] else Single(x) + m[fd := 0]
  {
  }

  lemma {:induction false} FdsRemove(rs: seq<Record>, fd: int)
    ensures fd == -1 ==> Fds(Remove(rs, fd)) == Fds(rs)
    ensures fd != -1 ==> Fds(Remove(rs, fd)) == Fds(rs)[fd := 0]
  {
    if rs != [] {
      var r, rest := rs[0], rs[1..];
      FdsRemove(rest, fd);
      FdsCons(r, Remove(rest, fd));
      assert Fds(rs) == Single(r.fd) + Fds(rest);
      DropOne(fd, r.fd, Fds(rest));
    }
  }

  lemma {:induction false} HeldConcat(a: seq<Stage>, b: seq<Stage>)
    ensures Held(a + b) == Held(a) + Held(b)
  {
    if a == [] {
      assert a + b == b;
    } else {
      assert (a + b)[1..] == a[1..] + b;
      HeldConcat(a[1..], b);
    }
  }

  /** What the other threads hold. */
  function HeldOthers(stages: seq<Stage>, t: Thread): multiset<int>
    requires t < |stages|
  {
    Held(stages[..t]) + Held(stages[t + 1..])
  }

  lemma HeldSplit(stages: seq<Stage>, t: Thread)
    requires t < |stages|
    ensures Held(stages) == HeldBy(stages[t]) + HeldOthers(stages, t)
  {
    HeldConcat(stages[..t], stages[t..]);
    assert stages == stages[..t] + stages[t..];
    assert stages[t..][1..] == stages[t + 1..];
  }

  lemma HeldMove(stages: seq<Stage>, t: Thread, stage: Stage)
    requires t < |stages|
    ensures Held(stages) == HeldBy(stages[t]) + HeldOthers(stages, t)
    ensures Held(stages[t := stage]) == HeldBy(stage) + HeldOthers(stages, t)
  {
    HeldSplit(stages, t);
    HeldSplit(stages[t := stage], t);
    assert stages[t := stage][..t] == stages[..t] && stages[t := stage][t + 1..] == stages[t + 1..];
  }

  lemma HeldSnocIdle(stages: seq<Stage>)
    ensures Held(stages + [Idle]) == Held(stages)
  {
    HeldConcat(stages, [Idle]);
    assert [Idle][1..] == [];
  }

  lemma Complement(part: multiset<int>, leaked: multiset<int>, whole: multiset<int>)
    ensures part <= whole ==> part + (whole - part) == whole
    ensures part + leaked == whole ==> part <= whole && leaked == whole - part
  {
  }

  lemma ExclusiveAccounts(s: State)
    requires Exclusive(s)
    ensures Accounts(s, Leaked(s))
  {
    Complement(Fds(Rows(s)) + Held(s.stages), multiset{}, multiset(s.files));
  }

  lemma AccountsExclusive(s: State, leaked: multiset<int>)
    requires Accounts(s, leaked)
    ensures Exclusive(s) && leaked == Leaked(s)
  {
    Complement(Fds(Rows(s)) + Held(s.stages), leaked, multiset(s.files));
  }

  lemma SetHasNoDuplicates(part: multiset<int>, rest: multiset<int>, files: set<int>, fd: int)
    requires part + rest == multiset(files)
    ensures part == part[fd := 0] + if fd in part then multiset{fd} else multiset{}
  {
    assert multiset(files)[fd] <= 1;
    assert (part + rest)[fd] == part[fd] + rest[fd];
  }

  lemma CloseBalance(rows: multiset<int>, others: multiset<int>, leaked: multiset<int>, files: set<int>, fd: int)
    requires Balanced(rows, multiset{fd} + others, leaked, files)
    ensures fd in files && fd !in rows
    ensures Balanced(rows, others, leaked, files - {fd})
  {
    var rest := rows + others + leaked;
    assert rest + multiset{fd} == multiset(files);
    assert fd in multiset(files) && multiset(files)[fd] == 1;
    assert multiset(files - {fd}) == multiset(files) - multiset{fd};
  }

  lemma CreateBalance(rows: multiset<int>, stages: seq<Stage>, leaked: multiset<int>, files: set<int>, t: Thread,
                      stage: Stage, fd: int)
    requires t < |stages| && Balanced(rows, Held(stages), leaked, files)
    requires HeldBy(stages[t]) == multiset{} && HeldBy(stage) == multiset{fd} && fd !in files
    ensures Balanced(rows, Held(stages[t := stage]), leaked, files + {fd})
  {
    HeldMove(stages, t, stage);
    HoldOneMore(rows, HeldOthers(stages, t), leaked, files, fd);
  }

  lemma HoldOneMore(rows: multiset<int>, others: multiset<int>, leaked: multiset<int>, files: set<int>, fd: int)
    requires Balanced(rows, multiset{} + others, leaked, files) && fd !in files
    ensures Balanced(rows, multiset{fd} + others, leaked, files + {fd})
  {
    assert multiset(files + {fd}) == multiset(files) + multiset{fd};
    assert rows + (multiset{fd} + others) + leaked == (rows + others + leaked) + multiset{fd};
  }

  lemma HeldSame(stages: seq<Stage>, t: Thread, stage: Stage)
    requires t < |stages| && HeldBy(stages[t]) == HeldBy(stage)
    ensures Held(stages[t := stage]) == Held(stages)
  {
    HeldMove(stages, t, stage);
  }

  lemma ClosedIsBalanced(rows: multiset<int>, stages: seq<Stage>, leaked: multiset<int>, files: set<int>, t: Thread,
                         fd: int)
    requires t < |stages| && stages[t] == Closing(fd) && Balanced(rows, Held(stages), leaked, files)
    requires forall f :: f in files ==> f > 0
    ensures Balanced(rows, Held(stages[t := Idle]), leaked, files - {fd})
  {
    HeldMove(stages, t, Idle);
    assert Held(stages[t := Idle]) == HeldOthers(stages, t);
    if fd == -1 {
      assert Held(stages) == HeldOthers(stages, t);
      assert files - {fd} == files;
    } else {
      CloseBalance(rows, HeldOthers(stages, t), leaked, files, fd);
    }
  }

  lemma HeldToLeak(rows: multiset<int>, held: multiset<int>, others: multiset<int>, leaked: multiset<int>, files: set<int>)
    requires Balanced(rows, held + others, leaked, files)
    ensures Balanced(rows, others, leaked + held, files)
  {
    assert rows + (held + others) + leaked == rows + others + (leaked + held);
  }

  lemma HeldToRow(rows: multiset<int>, held: multiset<int>, others: multiset<int>, leaked: multiset<int>, files: set<int>)
    requires Balanced(rows, held + others, leaked, files)
    ensures Balanced(rows + held, others, leaked, files)
  {
    assert rows + (held + others) + leaked == rows + held + others + leaked;
  }

  /** What a thread held goes into a new row, or is leaked. */
  lemma ReleaseBalance(table: seq<Record>, r: Record, stages: seq<Stage>, leaked: multiset<int>, files: set<int>,
                       t: Thread)
    requires t < |stages| && Balanced(Fds(table), Held(stages), leaked, files)
    requires HeldBy(stages[t]) == Single(r.fd)
    ensures Balanced(Fds(table + [r]), Held(stages[t := Unlocking]), leaked, files)
    ensures Balanced(Fds(table), Held(stages[t := Unlocking]), leaked + Single(r.fd), files)
  {
    FdsSnoc(table, r);
    HeldMove(stages, t, Unlocking);
    assert Held(stages[t := Unlocking]) == HeldOthers(stages, t);
    HeldToRow(Fds(table), Single(r.fd), HeldOthers(stages, t), leaked, files);
    HeldToLeak(Fds(table), Single(r.fd), HeldOthers(stages, t), leaked, files);
  }

  // ---------- what it means that descriptors are exclusive ----------

  ghost predicate AtMostOnce(m: multiset<int>) {
    forall x :: m[x] <= 1
  }

  ghost predicate Apart(a: multiset<int>, b: multiset<int>) {
    forall x :: x in a ==> x !in b
  }

  ghost predicate Within(m: multiset<int>, files: set<int>) {
    forall x :: x in m ==> x in files
  }

  ghost predicate RowsApart(rows: seq<Record>) {
    forall i, j :: 0 <= i < j < |rows| && rows[i].fd == rows[j].fd ==> rows[i].fd == -1
  }

  predicate RowsOpen(rows: seq<Record>, files: set<int>) {
    forall r :: r in rows && r.fd != -1 ==> r.fd in files
  }

  ghost predicate HeldApart(stages: seq<Stage>) {
    forall t, u :: 0 <= t < u < |stages| ==> Apart(HeldBy(stages[t]), HeldBy(stages[u]))
  }

  ghost predicate HeldOpen(stages: seq<Stage>, rows: seq<Record>, files: set<int>) {
    forall t, fd :: 0 <= t < |stages| && fd in HeldBy(stages[t]) ==> fd in files && !HasFd(rows, fd)
  }

  /**
   The descriptors in rows (other than the -1 of a failed open) are distinct and open, and a descriptor that a thread
   holds is open, in no row, and with no other thread.
   */
  ghost predicate SafeDescriptors(s: State) {
    && RowsApart(Rows(s)) && RowsOpen(Rows(s), s.files)
    && HeldApart(s.stages) && HeldOpen(s.stages, Rows(s), s.files)
  }

  lemma OnceInSum(a: multiset<int>, b: multiset<int>)
    ensures AtMostOnce(a + b) <==> AtMostOnce(a) && AtMostOnce(b) && Apart(a, b)
  {
    if AtMostOnce(a + b) {
      forall x ensures a[x] + b[x] <= 1 {
        assert (a + b)[x] <= 1;
      }
    }
    if AtMostOnce(a) && AtMostOnce(b) && Apart(a, b) {
      forall x ensures (a + b)[x] <= 1 {
        assert a[x] <= 1 && b[x] <= 1 && (x in a ==> x !in b);
      }
    }
  }

  lemma {:induction false} DistinctFds(rs: seq<Record>)
    ensures RowsApart(rs) <==> AtMostOnce(Fds(rs))
  {
    if rs != [] {
      var r, rest := rs[0], rs[1..];
      DistinctFds(rest);
      assert rs == [r] + rest && Fds(rs) == Single(r.fd) + Fds(rest);
      OnceInSum(Single(r.fd), Fds(rest));
      RowsApartCons(r, rest);
    }
  }

  lemma RowsApartCons(r: Record, rest: seq<Record>)
    ensures RowsApart([r] + rest) <==> RowsApart(rest) && Apart(Single(r.fd), Fds(rest))
  {
    var rs := [r] + rest;
    if r.fd != -1 {
      FdsHas(rest, r.fd);
      if HasFd(rest, r.fd) {
        var q :| q in rest && q.fd == r.fd;
        var k :| 0 <= k < |rest| && rest[k] == q;
        assert rs[0].fd == rs[k + 1].fd;
      }
    }
    if RowsApart(rs) {
      forall i, j | 0 <= i < j < |rest| && rest[i].fd == rest[j].fd ensures rest[i].fd == -1 {
        assert rs[i + 1] == rest[i] && rs[j + 1] == rest[j];
      }
    }
  }

  lemma HeldHas(stages: seq<Stage>, t: Thread, x: int)
    requires t < |stages| && x in HeldBy(stages[t])
    ensures x in Held(stages)
  {
    HeldSplit(stages, t);
  }

  lemma {:induction false} Holder(stages: seq<Stage>, x: int) returns (t: Thread)
    requires x in Held(stages)
    ensures t < |stages| && x in HeldBy(stages[t])
  {
    if x in HeldBy(stages[0]) {
      t := 0;
    } else {
      t := Holder(stages[1..], x);
      t := t + 1;
    }
  }

  lemma HoldsOne(stage: Stage)
    ensures AtMostOnce(HeldBy(stage)) && -1 !in HeldBy(stage)
  {
  }

  lemma HeldApartCons(stages: seq<Stage>)
    requires stages != []
    ensures HeldApart(stages) <==> HeldApart(stages[1..]) && Apart(HeldBy(stages[0]), Held(stages[1..]))
  {
    var rest := stages[1..];
    if HeldApart(stages) {
      forall x | x in Held(rest) ensures x !in HeldBy(stages[0]) {
        var t := Holder(rest, x);
        assert Apart(HeldBy(stages[0]), HeldBy(stages[t + 1]));
      }
      forall t, u | 0 <= t < u < |rest| ensures Apart(HeldBy(rest[t]), HeldBy(rest[u])) {
        assert rest[t] == stages[t + 1] && rest[u] == stages[u + 1];
      }
    }
    if HeldApart(rest) && Apart(HeldBy(stages[0]), Held(rest)) {
      forall u | 1 <= u < |stages| ensures Apart(HeldBy(stages[0]), HeldBy(stages[u])) {
        forall x | x in HeldBy(stages[u]) ensures x in Held(rest) {
          HeldHas(rest, u - 1, x);
        }
      }
    }
  }

  lemma {:induction false} DistinctHeld(stages: seq<Stage>)
    ensures HeldApart(stages) <==> AtMostOnce(Held(stages))
  {
    if stages != [] {
      DistinctHeld(stages[1..]);
      HeldApartCons(stages);
      OnceInSum(HeldBy(stages[0]), Held(stages[1..]));
      HoldsOne(stages[0]);
    }
  }

  lemma BelowSet(m: multiset<int>, files: set<int>)
    ensures m <= multiset(files) <==> AtMostOnce(m) && Within(m, files)
  {
    if m <= multiset(files) {
      forall x ensures m[x] <= 1 && (x in m ==> x in files) {
        assert m[x] <= multiset(files)[x] <= 1;
      }
    }
    if AtMostOnce(m) && Within(m, files) {
      forall x ensures m[x] <= multiset(files)[x] {
        assert m[x] <= 1 && (x in m ==> x in files);
      }
    }
  }

  lemma RowsOpenIs(rows: seq<Record>, files: set<int>)
    ensures RowsOpen(rows, files) <==> Within(Fds(rows), files)
  {
    if RowsOpen(rows, files) {
      forall x | x in Fds(rows) ensures x in files {
        NoFdIsFailed(rows);
        FdsHas(rows, x);
      }
    }
    if Within(Fds(rows), files) {
      forall r | r in rows && r.fd != -1 ensures r.fd in files {
        FdsHas(rows, r.fd);
      }
    }
  }

  lemma {:induction false} NoFdIsFailed(rs: seq<Record>)
    ensures -1 !in Fds(rs)
  {
    if rs != [] {
      NoFdIsFailed(rs[1..]);
    }
  }

  lemma OpenIsWithin(stages: seq<Stage>, rows: seq<Record>, files: set<int>)
    requires HeldOpen(stages, rows, files)
    ensures Within(Held(stages), files) && Apart(Held(stages), Fds(rows))
  {
    forall x | x in Held(stages) ensures x in files && x !in Fds(rows) {
      var t := Holder(stages, x);
      HoldsOne(stages[t]);
      FdsHas(rows, x);
    }
  }

  lemma WithinIsOpen(stages: seq<Stage>, rows: seq<Record>, files: set<int>)
    requires Within(Held(stages), files) && Apart(Held(stages), Fds(rows))
    ensures HeldOpen(stages, rows, files)
  {
    forall t, x | 0 <= t < |stages| && x in HeldBy(stages[t]) ensures x in files && !HasFd(rows, x) {
      HeldHas(stages, t, x);
      HoldsOne(stages[t]);
      FdsHas(rows, x);
    }
  }

  lemma Summed(rows: multiset<int>, held: multiset<int>, files: set<int>)
    ensures AtMostOnce(held + rows) && Within(rows + held, files) <==>
              AtMostOnce(rows) && AtMostOnce(held) && Apart(held, rows) && Within(rows, files) && Within(held, files)
  {
    OnceInSum(held, rows);
    assert Within(rows + held, files) <==> Within(rows, files) && Within(held, files);
  }

  lemma SafeIs(s: State)
    ensures SafeDescriptors(s) <==>
              && AtMostOnce(Fds(Rows(s))) && AtMostOnce(Held(s.stages)) && Apart(Held(s.stages), Fds(Rows(s)))
              && Within(Fds(Rows(s)), s.files) && Within(Held(s.stages), s.files)
  {
    DistinctFds(Rows(s));
    DistinctHeld(s.stages);
    RowsOpenIs(Rows(s), s.files);
    if HeldOpen(s.stages, Rows(s), s.files) {
      OpenIsWithin(s.stages, Rows(s), s.files);
    } else if Within(Held(s.stages), s.files) && Apart(Held(s.stages), Fds(Rows(s))) {
      WithinIsOpen(s.stages, Rows(s), s.files);
    }
  }

  /** Exclusive means just that. */
  lemma ExclusiveMeans(s: State)
    ensures Exclusive(s) <==> SafeDescriptors(s)
  {
    var rows, held := Fds(Rows(s)), Held(s.stages);
    BelowSet(rows + held, s.files);
    assert rows + held == held + rows;
    Summed(rows, held, s.files);
    SafeIs(s);
  }

  // ---------- steps ----------

  /** The rows from position pos on. */
  function Behind(rows: seq<Record>, pos: nat): seq<Record> {
    if pos <= |rows| then rows[pos..] else []
  }

  /** The descriptors that a step leaves open without a row: write_descriptor fails, or its row is lost. */
  function LostBy(s: State, a: Action): multiset<int>
    requires Enabled(s, a)
  {
    match a
    case OpenTable(t, ok) => if ok then multiset{} else Single(s.stages[t].fd)
    case Append(t) => if s.table == Some(s.stages[t].inode) then multiset{} else Single(s.stages[t].fd)
    case Unlink(t) => Fds(Behind(Rows(s), s.stages[t].copy.pos))
    case _ => multiset{}
  }

  lemma CreateAccounts(s: State, t: Thread, fd: int, leaked: multiset<int>)
    requires Accounts(s, leaked) && Enabled(s, Create(t, fd))
    ensures Accounts(Next(s, Create(t, fd)), leaked)
  {
    var stage := Created(s.stages[t].name, fd);
    if fd == -1 {
      HeldSame(s.stages, t, stage);
    } else {
      CreateBalance(Fds(Rows(s)), s.stages, leaked, s.files, t, stage, fd);
    }
  }

  lemma CloseAccounts(s: State, t: Thread, leaked: multiset<int>)
    requires Accounts(s, leaked) && Separate(s) && Enabled(s, CloseFile(t))
    ensures Accounts(Next(s, CloseFile(t)), leaked)
  {
    ClosedIsBalanced(Fds(Rows(s)), s.stages, leaked, s.files, t, s.stages[t].fd);
  }

  lemma AppendAccounts(s: State, t: Thread, leaked: multiset<int>)
    requires Placed(s) && Accounts(s, leaked) && Enabled(s, Append(t))
    ensures Accounts(Next(s, Append(t)), leaked + LostBy(s, Append(t)))
  {
    AppendedRows(s, t);
    ReleaseBalance(Rows(s), Record(s.pid, s.stages[t].name, s.stages[t].fd), s.stages, leaked, s.files, t);
  }

  lemma OpenTableAccounts(s: State, t: Thread, leaked: multiset<int>)
    requires Accounts(s, leaked) && Enabled(s, OpenTable(t, true))
    ensures Accounts(Next(s, OpenTable(t, true)), leaked)
  {
    var Created(name, fd) := s.stages[t];
    HeldSame(s.stages, t, Appending(name, fd, s.table.value));
  }

  lemma NoTableAccounts(s: State, t: Thread, leaked: multiset<int>)
    requires Accounts(s, leaked) && Enabled(s, OpenTable(t, false))
    ensures Accounts(Next(s, OpenTable(t, false)), leaked + LostBy(s, OpenTable(t, false)))
  {
    ReleaseBalance(Rows(s), Record(s.pid, s.stages[t].name, s.stages[t].fd), s.stages, leaked, s.files, t);
  }

  /** A step after which the thread holds the same, and the rows are the same. */
  lemma QuietAccounts(s: State, s': State, t: Thread, leaked: multiset<int>)
    requires Accounts(s, leaked) && At(s, t) && At(s', t) && s'.stages == s.stages[t := s'.stages[t]]
    requires HeldBy(s.stages[t]) == HeldBy(s'.stages[t])
    requires Rows(s') == Rows(s) && s'.files == s.files
    ensures Accounts(s', leaked)
  {
    HeldSame(s.stages, t, s'.stages[t]);
  }

  lemma LockAccounts(s: State, a: Action, leaked: multiset<int>)
    requires Accounts(s, leaked) && Enabled(s, a) && (a.TryLock? || a.Check? || a.Unlock?)
    ensures Accounts(Next(s, a), leaked)
  {
    QuietAccounts(s, Next(s, a), a.t, leaked);
  }

  lemma ScanAccounts(s: State, a: Action, leaked: multiset<int>)
    requires Accounts(s, leaked) && Enabled(s, a) && (a.StartDelete? || a.SeeEnd?)
    ensures Accounts(Next(s, a), leaked)
  {
    QuietAccounts(s, Next(s, a), a.t, leaked);
  }

  lemma CopyAccounts(s: State, a: Action, leaked: multiset<int>)
    requires Placed(s) && CopyInv(s) && Accounts(s, leaked) && Enabled(s, a) && (a.OpenCache? || a.CopyRow?)
    ensures Accounts(Next(s, a), leaked)
  {
    RowsKept(s, a);
    QuietAccounts(s, Next(s, a), a.t, leaked);
  }

  lemma RenameHolds(s: State, t: Thread)
    requires CopyInv(s) && Enabled(s, Rename(t))
    ensures HeldBy(Next(s, Rename(t)).stages[t]) == HeldBy(s.stages[t])
  {
    assert CopyingInv(s.stages[t], s.disk, s.table, s.cache);
  }

  lemma RenameAccounts(s: State, t: Thread, leaked: multiset<int>)
    requires Placed(s) && CopyInv(s) && Accounts(s, leaked) && Enabled(s, Rename(t))
    ensures Accounts(Next(s, Rename(t)), leaked)
  {
    var s' := Next(s, Rename(t));
    CopyRename(s, t);
    RenameHolds(s, t);
    assert s'.files == s.files && s'.stages == s.stages[t := s'.stages[t]];
    QuietAccounts(s, s', t, leaked);
  }

  lemma OpeningAccounts(s: State, a: Action, leaked: multiset<int>)
    requires Placed(s) && Accounts(s, leaked) && Enabled(s, a)
    requires a.TryLock? || a.Check? || a.Create? || a.OpenTable? || a.Append? || a.Unlock?
    ensures Accounts(Next(s, a), leaked + LostBy(s, a))
  {
    match a {
      case Create(t, fd) => CreateAccounts(s, t, fd, leaked);
      case OpenTable(t, true) => OpenTableAccounts(s, t, leaked);
      case OpenTable(t, false) => NoTableAccounts(s, t, leaked);
      case Append(t) => AppendAccounts(s, t, leaked);
      case _ => LockAccounts(s, a, leaked);
    }
  }

  lemma OtherAccounts(s: State, a: Action, leaked: multiset<int>)
    requires Placed(s) && CopyInv(s) && Separate(s) && Accounts(s, leaked) && Enabled(s, a) && !a.Unlink?
    ensures Accounts(Next(s, a), leaked + LostBy(s, a))
  {
    match a {
      case Connect => HeldSnocIdle(s.stages);
      case OtherOpen(_) =>
      case OtherClose(_) =>
      case StartDelete(_, _) => ScanAccounts(s, a, leaked);
      case SeeEnd(_) => ScanAccounts(s, a, leaked);
      case OpenCache(_) => CopyAccounts(s, a, leaked);
      case CopyRow(_) => CopyAccounts(s, a, leaked);
      case Rename(t) => RenameAccounts(s, t, leaked);
      case CloseFile(t) => CloseAccounts(s, t, leaked);
      case _ => OpeningAccounts(s, a, leaked);
    }
  }

  // ---------- deletions ----------

  /** The descriptors that a deletion has read: those of the survivors, and the one it is to close, if it was found. */
  function Drawn(s: State, t: Thread): multiset<int>
    requires At(s, t) && HasCopy(s.stages[t])
  {
    Fds(Remove(Read(s, t), s.stages[t].copy.fd)) + Found(Read(s, t), s.stages[t].copy.fd)
  }

  /** What the deletion has read is still open, and with no thread. */
  ghost predicate ReadIsOpen(s: State, t: Thread)
    requires At(s, t) && HasCopy(s.stages[t])
  {
    Drawn(s, t) + Held(s.stages) <= multiset(s.files)
  }

  lemma ReadRows(prefix: seq<Record>, tail: seq<Record>, fd: int, rest: multiset<int>, files: set<int>)
    requires Fds(prefix + tail) + rest == multiset(files)
    ensures Fds(prefix) == Fds(Remove(prefix, fd)) + Found(prefix, fd)
    ensures Fds(prefix + tail) == Fds(prefix) + Fds(tail)
  {
    FdsConcat(prefix, tail);
    FdsRemove(prefix, fd);
    if fd != -1 {
      FdsHas(prefix, fd);
      assert Fds(prefix) + (Fds(tail) + rest) == multiset(files);
      SetHasNoDuplicates(Fds(prefix), Fds(tail) + rest, files, fd);
    }
  }

  /** The descriptor that deleting from the part of the table that was read hands to the thread. */
  function Found(rows: seq<Record>, fd: int): multiset<int> {
    if HasFd(rows, fd) then Single(fd) else multiset{}
  }

  lemma ReadSplit(rows: seq<Record>, pos: nat, fd: int, held: multiset<int>, leaked: multiset<int>, files: set<int>)
    requires pos <= |rows| && Balanced(Fds(rows), held, leaked, files)
    ensures Fds(Remove(rows[..pos], fd)) + Found(rows[..pos], fd) + Fds(rows[pos..]) == Fds(rows)
  {
    assert rows == rows[..pos] + rows[pos..];
    FilesAreRowsAndRest(Fds(rows), held, leaked, files);
    ReadRows(rows[..pos], rows[pos..], fd, held + leaked, files);
  }

  lemma FilesAreRowsAndRest(rows: multiset<int>, held: multiset<int>, leaked: multiset<int>, files: set<int>)
    requires Balanced(rows, held, leaked, files)
    ensures rows + (held + leaked) == multiset(files)
  {
  }

  lemma Regroup(rows: multiset<int>, found: multiset<int>, others: multiset<int>)
    ensures rows + (found + others) == rows + found + (multiset{} + others)
  {
  }

  lemma HoldFound(stages: seq<Stage>, t: Thread, c: Copy, found: multiset<int>, kept: multiset<int>)
    requires t < |stages| && HeldBy(stages[t]) == multiset{} && HeldBy(Unlinked(c, true)) == found
    ensures kept + Held(stages[t := Unlinked(c, true)]) == kept + found + Held(stages)
  {
    HeldMove(stages, t, Unlinked(c, true));
    Regroup(kept, found, HeldOthers(stages, t));
  }

  lemma UnlinkHolds(s: State, t: Thread)
    requires Placed(s) && CopyInv(s) && Enabled(s, Unlink(t))
    ensures Fds(Rows(Next(s, Unlink(t)))) + Held(Next(s, Unlink(t)).stages) == Drawn(s, t) + Held(s.stages)
  {
    UnlinkedRows(s, t);
    var c := s.stages[t].copy;
    HoldFound(s.stages, t, c, Found(Read(s, t), c.fd), Fds(Remove(Read(s, t), c.fd)));
  }

  /** A deletion leaves every descriptor in its place if and only if what it has read is still open, and with no thread. */
  lemma UnlinkExclusive(s: State, t: Thread)
    requires Placed(s) && CopyInv(s) && Enabled(s, Unlink(t))
    ensures Exclusive(Next(s, Unlink(t))) <==> ReadIsOpen(s, t)
  {
    UnlinkHolds(s, t);
  }

  lemma ExclusiveStep(s: State, a: Action)
    requires BasicInv(s) && CopyInv(s) && Exclusive(s) && Enabled(s, a)
    ensures Exclusive(Next(s, a)) <==> (a.Unlink? ==> ReadIsOpen(s, a.t))
  {
    if a.Unlink? {
      UnlinkExclusive(s, a.t);
    } else {
      ExclusiveAccounts(s);
      OtherAccounts(s, a, Leaked(s));
      AccountsExclusive(Next(s, a), Leaked(s) + LostBy(s, a));
    }
  }

  ghost predicate AlwaysSafe(states: seq<State>) {
    forall i :: 0 <= i < |states| ==> SafeDescriptors(states[i])
  }

  /** No deletion brings back a descriptor that has been closed or is with a thread. */
  ghost predicate Sound(states: seq<State>, acts: seq<Action>)
    requires Run(states, acts)
  {
    forall i :: 0 <= i < |acts| && acts[i].Unlink? ==> ReadIsOpen(states[i], acts[i].t)
  }

  lemma InitExclusive(s: State)
    requires Init(s)
    ensures Exclusive(s)
  {
  }

  lemma {:induction false} SoundIsExclusive(states: seq<State>, acts: seq<Action>)
    requires Run(states, acts) && Private(states, acts) && Sound(states, acts)
    ensures forall i :: 0 <= i < |states| ==> Exclusive(states[i])
  {
    RunKeepsCopies(states, acts);
    InitExclusive(states[0]);
    for n := 0 to |acts|
      invariant forall i :: 0 <= i <= n ==> Exclusive(states[i])
    {
      ExclusiveStep(states[n], acts[n]);
    }
  }

  lemma UnsoundOnce(states: seq<State>, acts: seq<Action>, i: nat)
    requires Run(states, acts) && Private(states, acts)
    requires i < |acts| && acts[i].Unlink? && !ReadIsOpen(states[i], acts[i].t)
    ensures !SafeDescriptors(states[i + 1])
  {
    RunKeepsCopies(states, acts);
    UnlinkExclusive(states[i], acts[i].t);
    ExclusiveMeans(states[i + 1]);
  }

  /**
   In every run in which each deletion has a cache file of its own, descriptors are safe throughout if and only if,
   whenever a deletion removes the table, every descriptor that it has read is still open, and with no thread.
   */
  lemma SafeIffSound(states: seq<State>, acts: seq<Action>)
    requires Run(states, acts) && Private(states, acts)
    ensures AlwaysSafe(states) <==> Sound(states, acts)
  {
    if Sound(states, acts) {
      SoundIsExclusive(states, acts);
      forall i | 0 <= i < |states| ensures SafeDescriptors(states[i]) {
        ExclusiveMeans(states[i]);
      }
    } else {
      var i: nat :| i < |acts| && acts[i].Unlink? && !ReadIsOpen(states[i], acts[i].t);
      UnsoundOnce(states, acts, i);
    }
  }

  // ---------- deletions that do not collide ----------

  lemma UnlinkSplit(s: State, t: Thread, leaked: multiset<int>)
    requires Placed(s) && CopyInv(s) && Accounts(s, leaked) && Enabled(s, Unlink(t)) && !Collides(s, Unlink(t))
    ensures Drawn(s, t) + LostBy(s, Unlink(t)) == Fds(Rows(s))
  {
    OrderlyRead(s, t);
    ReadSplit(Rows(s), s.stages[t].copy.pos, s.stages[t].copy.fd, Held(s.stages), leaked, s.files);
  }

  lemma MoveLost(drawn: multiset<int>, lost: multiset<int>, held: multiset<int>, leaked: multiset<int>)
    ensures drawn + held + (leaked + lost) == drawn + lost + held + leaked
  {
  }

  /** A deletion that does not collide loses the rows that were appended behind its copy loop, and nothing else. */
  lemma UnlinkAccounts(s: State, t: Thread, leaked: multiset<int>)
    requires Placed(s) && CopyInv(s) && Accounts(s, leaked) && Enabled(s, Unlink(t)) && !Collides(s, Unlink(t))
    ensures Accounts(Next(s, Unlink(t)), leaked + LostBy(s, Unlink(t)))
  {
    UnlinkHolds(s, t);
    UnlinkSplit(s, t, leaked);
    MoveLost(Drawn(s, t), LostBy(s, Unlink(t)), Held(s.stages), leaked);
    assert Next(s, Unlink(t)).files == s.files;
  }

  /** Every step that does not collide accounts for every descriptor. */
  lemma AccountsStep(s: State, a: Action)
    requires BasicInv(s) && CopyInv(s) && Exclusive(s) && Enabled(s, a) && !Collides(s, a)
    ensures Exclusive(Next(s, a)) && Leaked(Next(s, a)) == Leaked(s) + LostBy(s, a)
  {
    ExclusiveAccounts(s);
    if a.Unlink? {
      UnlinkAccounts(s, a.t, Leaked(s));
    } else {
      OtherAccounts(s, a, Leaked(s));
    }
    AccountsExclusive(Next(s, a), Leaked(s) + LostBy(s, a));
  }

  lemma {:induction false} OrderlyIsExclusive(states: seq<State>, acts: seq<Action>)
    requires Run(states, acts) && Orderly(states, acts)
    ensures forall i :: 0 <= i < |states| ==> BasicInv(states[i]) && CopyInv(states[i]) && Exclusive(states[i])
  {
    OrderlyIsPrivate(states, acts);
    RunKeepsCopies(states, acts);
    InitExclusive(states[0]);
    for n := 0 to |acts|
      invariant forall i :: 0 <= i <= n ==> Exclusive(states[i])
    {
      AccountsStep(states[n], acts[n]);
    }
  }

  lemma OrderlyReadIsOpen(s: State, t: Thread)
    requires BasicInv(s) && CopyInv(s) && Exclusive(s) && Enabled(s, Unlink(t)) && !Collides(s, Unlink(t))
    ensures ReadIsOpen(s, t)
  {
    AccountsStep(s, Unlink(t));
    UnlinkExclusive(s, t);
  }

  lemma OrderlyIsSound(states: seq<State>, acts: seq<Action>)
    requires Run(states, acts) && Orderly(states, acts)
    ensures Sound(states, acts)
  {
    OrderlyIsExclusive(states, acts);
    forall i | 0 <= i < |acts| && acts[i].Unlink? ensures ReadIsOpen(states[i], acts[i].t) {
      assert Enabled(states[i], acts[i]) && !Collides(states[i], acts[i]);
      OrderlyReadIsOpen(states[i], acts[i].t);
    }
  }

  // ---------- leaks ----------

  lemma AddsNothing(a: multiset<int>, b: multiset<int>)
    ensures a + b == a <==> b == multiset{}
  {
    assert |a + b| == |a| + |b|;
    assert |b| == 0 <==> b == multiset{};
  }

  /** No step before step n lost a descriptor. */
  ghost predicate NothingLostTo(states: seq<State>, acts: seq<Action>, n: nat)
    requires Run(states, acts) && n <= |acts|
  {
    forall i :: 0 <= i < n ==> LostBy(states[i], acts[i]) == multiset{}
  }

  /**
   If deletions do not collide, then once no thread holds a descriptor the open ones are exactly those in the table,
   if and only if no step lost one.
   */
  lemma {:induction false} NothingLeaks(states: seq<State>, acts: seq<Action>)
    requires Run(states, acts) && Orderly(states, acts)
    requires Held(states[|acts|].stages) == multiset{}
    ensures multiset(states[|acts|].files) == Fds(Rows(states[|acts|])) <==> NothingLostTo(states, acts, |acts|)
  {
    OrderlyIsExclusive(states, acts);
    for n := 0 to |acts|
      invariant Leaked(states[n]) == multiset{} <==> NothingLostTo(states, acts, n)
    {
      LeakStep(states, acts, n);
    }
    LeakedIsRest(states[|acts|]);
  }

  lemma LeakStep(states: seq<State>, acts: seq<Action>, n: nat)
    requires Run(states, acts) && Orderly(states, acts) && n < |acts|
    requires BasicInv(states[n]) && CopyInv(states[n]) && Exclusive(states[n])
    ensures Leaked(states[n + 1]) == multiset{}
            <==> Leaked(states[n]) == multiset{} && LostBy(states[n], acts[n]) == multiset{}
  {
    AccountsStep(states[n], acts[n]);
    EmptySum(Leaked(states[n]), LostBy(states[n], acts[n]));
  }

  lemma EmptySum(a: multiset<int>, b: multiset<int>)
    ensures a + b == multiset{} <==> a == multiset{} && b == multiset{}
  {
    assert |a + b| == |a| + |b|;
  }

  lemma LeakedIsRest(s: State)
    requires Exclusive(s) && Held(s.stages) == multiset{}
    ensures multiset(s.files) == Fds(Rows(s)) <==> Leaked(s) == multiset{}
  {
    ExclusiveAccounts(s);
    AddsNothing(Fds(Rows(s)), Leaked(s));
  }
}
