/**
 The file server, one request after another (file_server/fserv.cc), and the server it refines:
 a map from file names to descriptors.
 */
module FileServer {
  import opened CStrings
  import opened Tokenizer
  import opened LineReader
  import opened Records
  import DescriptorTable

  const REQUEST_MAX: nat := 255

  /** What open returns to create_file, and whether write_descriptor can then open the table. */
  datatype Creation = Creation(fd: int, recorded: bool)

  /** Passed: FSEEK, FREAD and FWRITE, which are answered by the operating system. */
  datatype Reply = Ok(value: int) | Err(value: int) | Fail | Ack(echo: string) | Passed

  // ---------- the abstract server ----------

  type Names = map<string, int>

  predicate IsOpen(ts: seq<string>) {
    ts != [] && ts[0] == "FOPEN" && |ts| == 2
  }

  predicate IsClose(ts: seq<string>) {
    ts != [] && ts[0] == "FCLOSE" && |ts| == 3
  }

  /** The names that are not bound to this descriptor. */
  function Unbind(m: Names, fd: int): Names {
    map name | name in m && m[name] != fd :: m[name]
  }

  /** One request, given what creating a file would come to. */
  function Respond(m: Names, ts: seq<string>, file: Creation): (Names, Reply)
    requires ts != []
  {
    if ts[0] == "FOPEN" then
      if |ts| != 2 then (m, Fail)
      else if ts[1] in m then (m, Err(m[ts[1]]))
      else (if file.recorded then m[ts[1] := file.fd] else m,
            if file.fd == -1 || !file.recorded then Fail else Ok(file.fd))
    else if ts[0] == "FCLOSE" then
      if |ts| != 3 then (m, Fail)
      else if Atoi(ts[1]) in m.Values then (Unbind(m, Atoi(ts[1])), Ok(0))
      else (m, Err(-1))
    else if ts[0] == "FSEEK" || ts[0] == "FREAD" || ts[0] == "FWRITE" then
      (m, if |ts| != 3 then Fail else Passed)
    else (m, Ack(ts[0]))
  }

  /** A whole conversation, up to "quit" or the end of the lines; opens(i) is what creating a file comes to for line i. */
  function Converse(m: Names, lines: seq<string>, opens: nat -> Creation, i: nat): (Names, seq<Reply>)
    requires i <= |lines|
    decreases |lines| - i
  {
    if i == |lines| || LineTokens(lines[i])[0] == "quit" then (m, [])
    else
      var (m', reply) := Respond(m, LineTokens(lines[i]), opens(i));
      var (m'', replies) := Converse(m', lines, opens, i + 1);
      (m'', [reply] + replies)
  }

  /** The replies so far and the conversation still to come make up the outcome. */
  ghost predicate Continues(outcome: (Names, seq<Reply>), replies: seq<Reply>,
                            m: Names, lines: seq<string>, opens: nat -> Creation, i: nat)
    requires i <= |lines|
  {
    var (m', more) := Converse(m, lines, opens, i);
    outcome.0 == m' && outcome.1 == replies + more
  }

  lemma ContinuesStep(outcome: (Names, seq<Reply>), replies: seq<Reply>,
                      m: Names, lines: seq<string>, opens: nat -> Creation, i: nat)
    requires i < |lines| && Continues(outcome, replies, m, lines, opens, i)
    ensures var (m', reply) := Respond(m, LineTokens(lines[i]), opens(i));
            if LineTokens(lines[i])[0] == "quit" then outcome == (m, replies)
            else Continues(outcome, replies + [reply], m', lines, opens, i + 1)
  {
    if LineTokens(lines[i])[0] != "quit" {
      var (m', reply) := Respond(m, LineTokens(lines[i]), opens(i));
      var more := Converse(m', lines, opens, i + 1).1;
      assert replies + ([reply] + more) == replies + [reply] + more;
    } else {
      assert replies + [] == replies;
    }
  }

  /** What an FOPEN that adds a row needs: the row fits in its 99 bytes, and open does not return 0. */
  predicate Storable(m: Names, ts: seq<string>, pid: int, file: Creation) {
    IsOpen(ts) && ts[1] !in m && file.recorded ==> file.fd != 0 && Fits(Record(pid, ts[1], file.fd))
  }

  predicate AllStorable(m: Names, lines: seq<string>, opens: nat -> Creation, i: nat, pid: int)
    requires i <= |lines|
    decreases |lines| - i
  {
    i == |lines| || LineTokens(lines[i])[0] == "quit" ||
    (var ts := LineTokens(lines[i]);
     Storable(m, ts, pid, opens(i)) && AllStorable(Respond(m, ts, opens(i)).0, lines, opens, i + 1, pid))
  }

  // ---------- rows and names ----------

  /** The map a table of rows stands for; the first row of a name counts. */
  function Abstract(rs: seq<Record>): Names {
    if rs == [] then map[] else Abstract(rs[1..])[rs[0].name := rs[0].fd]
  }

  /** No name has two rows, and no row has fd 0, which check_descriptor takes for an absent row. */
  ghost predicate Consistent(rs: seq<Record>) {
    UniqueNames(rs) && forall r :: r in rs ==> r.fd != 0
  }

  lemma {:induction false} AbstractHas(rs: seq<Record>, name: string)
    ensures name in Abstract(rs) <==> HasName(rs, name)
    ensures name in Abstract(rs) ==> Abstract(rs)[name] == Lookup(rs, name)
  {
    if rs != [] {
      AbstractHas(rs[1..], name);
      assert rs[0] in rs;
      assert forall r :: r in rs <==> r == rs[0] || r in rs[1..];
    }
  }

  lemma LookupIsMembership(rs: seq<Record>, name: string)
    requires Consistent(rs)
    ensures Lookup(rs, name) == 0 <==> name !in Abstract(rs)
  {
    AbstractHas(rs, name);
    if HasName(rs, name) {
      LookupFinds(rs, name);
    } else {
      LookupAbsent(rs, name);
    }
  }

  /** Appending a row for a new name binds the name. */
  lemma {:induction false} AbstractAppend(rs: seq<Record>, r: Record)
    requires Consistent(rs) && r.name !in Abstract(rs) && r.fd != 0
    ensures Abstract(rs + [r]) == Abstract(rs)[r.name := r.fd]
    ensures Consistent(rs + [r])
  {
    AbstractHas(rs, r.name);
    forall i | 0 <= i < |rs| ensures rs[i].name != r.name {
      assert rs[i] in rs;
    }
    AbstractSnoc(rs, r);
  }

  lemma {:induction false} AbstractSnoc(rs: seq<Record>, r: Record)
    requires r.name !in Abstract(rs)
    ensures Abstract(rs + [r]) == Abstract(rs)[r.name := r.fd]
  {
    if rs != [] {
      assert (rs + [r])[1..] == rs[1..] + [r];
      AbstractSnoc(rs[1..], r);
    }
  }

  lemma UnbindUpdate(m: Names, name: string, x: int, fd: int)
    requires name !in m
    ensures Unbind(m[name := x], fd) == if x == fd then Unbind(m, fd) else Unbind(m, fd)[name := x]
  {
  }

  /** Removing the rows of a descriptor unbinds its names. */
  lemma {:induction false} AbstractRemove(rs: seq<Record>, fd: int)
    requires UniqueNames(rs)
    ensures Abstract(Remove(rs, fd)) == Unbind(Abstract(rs), fd)
  {
    if rs != [] {
      AbstractRemove(rs[1..], fd);
      AbstractHas(rs[1..], rs[0].name);
      UnbindUpdate(Abstract(rs[1..]), rs[0].name, rs[0].fd, fd);
      var kept := Remove(rs[1..], fd);
      if rs[0].fd != fd {
        assert ([rs[0]] + kept)[1..] == kept;
      }
    }
  }

  lemma HasFdIsValue(rs: seq<Record>, fd: int)
    requires UniqueNames(rs)
    ensures HasFd(rs, fd) <==> fd in Abstract(rs).Values
  {
    var m := Abstract(rs);
    if HasFd(rs, fd) {
      var r :| r in rs && r.fd == fd;
      AbstractHas(rs, r.name);
      LookupPresent(rs, r);
      assert m[r.name] == fd;
    }
    if fd in m.Values {
      var name :| name in m && m[name] == fd;
      AbstractHas(rs, name);
      LookupFinds(rs, name);
    }
  }

  /** The name of an FOPEN request can always be stored: it is not empty and has no blank and no NUL. */
  lemma OpenNamesAreNames(line: string)
    requires IsOpen(LineTokens(line))
    ensures IsName(LineTokens(line)[1])
  {
    var s := CStringAt(line, 0);
    var name := Tokens(s)[1];
    WordBytes(s);
    assert name in Words(s);
  }

  // ---------- one request on rows refines one request on names ----------

  /** The same request on the rows of the table. */
  function RespondRows(rs: seq<Record>, ts: seq<string>, pid: int, file: Creation): (seq<Record>, Reply)
    requires ts != []
  {
    if ts[0] == "FOPEN" then
      if |ts| != 2 then (rs, Fail)
      else if Lookup(rs, ts[1]) != 0 then (rs, Err(Lookup(rs, ts[1])))
      else (if file.recorded then rs + [Record(pid, ts[1], file.fd)] else rs,
            if file.fd == -1 || !file.recorded then Fail else Ok(file.fd))
    else if ts[0] == "FCLOSE" then
      if |ts| != 3 then (rs, Fail)
      else if HasFd(rs, Atoi(ts[1])) then (Remove(rs, Atoi(ts[1])), Ok(0))
      else (rs, Err(-1))
    else if ts[0] == "FSEEK" || ts[0] == "FREAD" || ts[0] == "FWRITE" then
      (rs, if |ts| != 3 then Fail else Passed)
    else (rs, Ack(ts[0]))
  }

  lemma RowsRefineNames(rs: seq<Record>, ts: seq<string>, pid: int, file: Creation)
    requires ts != [] && Consistent(rs)
    requires IsOpen(ts) && ts[1] !in Abstract(rs) && file.recorded ==> file.fd != 0
    ensures var (rs', reply) := RespondRows(rs, ts, pid, file);
            Consistent(rs') && (Abstract(rs'), reply) == Respond(Abstract(rs), ts, file)
  {
    if IsOpen(ts) {
      LookupIsMembership(rs, ts[1]);
      AbstractHas(rs, ts[1]);
      if ts[1] !in Abstract(rs) && file.recorded {
        AbstractAppend(rs, Record(pid, ts[1], file.fd));
      }
    } else if IsClose(ts) {
      var fd := Atoi(ts[1]);
      HasFdIsValue(rs, fd);
      AbstractRemove(rs, fd);
      RemoveUnique(rs, fd);
    }
  }

  /**
   Where the refinement depends on open never returning 0: an FOPEN keeps the names of the table unique
   exactly when no row already records its name with fd 0, or it cannot add a row.
   */
  lemma {:induction false} OpenKeepsUnique(rs: seq<Record>, name: string, pid: int, file: Creation)
    requires UniqueNames(rs)
    ensures UniqueNames(RespondRows(rs, ["FOPEN", name], pid, file).0)
            <==> !file.recorded || !exists r :: r in rs && r.name == name && r.fd == 0
  {
    var after := RespondRows(rs, ["FOPEN", name], pid, file).0;
    if r :| r in rs && r.name == name {
      LookupPresent(rs, r);
      if r.fd == 0 && file.recorded {
        var i :| 0 <= i < |rs| && rs[i] == r;
        assert after[i].name == after[|rs|].name;
      }
      forall q | q in rs && q.name == name ensures q == r {
        var i :| 0 <= i < |rs| && rs[i] == r;
        var j :| 0 <= j < |rs| && rs[j] == q;
      }
    } else {
      assert !HasName(rs, name);
      LookupAbsent(rs, name);
      forall i | 0 <= i < |rs| ensures rs[i].name != name {
        assert rs[i] in rs;
      }
    }
  }

  /** If open returned 0, a second FOPEN of the same name would add a second row for it. */
  lemma ZeroDescriptorDuplicates(pid: int)
    ensures var rs1 := RespondRows([], ["FOPEN", "a"], pid, Creation(0, true)).0;
            var rs2 := RespondRows(rs1, ["FOPEN", "a"], pid, Creation(5, true)).0;
            rs2 == [Record(pid, "a", 0), Record(pid, "a", 5)] && !UniqueNames(rs2)
  {
    var rs2 := [Record(pid, "a", 0), Record(pid, "a", 5)];
    assert rs2[0].name == rs2[1].name;
  }

  /** Once an FOPEN bound a name, it stays bound to the same fd until an FCLOSE of that fd, whatever else happens. */
  lemma {:induction false} BoundUntilClosed(m: Names, name: string, lines: seq<string>, opens: nat -> Creation, i: nat)
    requires i <= |lines| && name in m
    requires forall k :: i <= k < |lines| ==>
               !(IsClose(LineTokens(lines[k])) && Atoi(LineTokens(lines[k])[1]) == m[name])
    ensures var m' := Converse(m, lines, opens, i).0; name in m' && m'[name] == m[name]
    decreases |lines| - i
  {
    if i < |lines| && LineTokens(lines[i])[0] != "quit" {
      var m' := Respond(m, LineTokens(lines[i]), opens(i)).0;
      assert name in m' && m'[name] == m[name];
      BoundUntilClosed(m', name, lines, opens, i + 1);
    }
  }

  /** So check_descriptor finds the same fd for the name at the end of the conversation as at its start. */
  lemma FoundUntilClosed(rs: seq<Record>, rs': seq<Record>, name: string, lines: seq<string>, opens: nat -> Creation)
    requires HasName(rs, name) && Abstract(rs') == Converse(Abstract(rs), lines, opens, 0).0
    requires forall k :: 0 <= k < |lines| ==>
               !(IsClose(LineTokens(lines[k])) && Atoi(LineTokens(lines[k])[1]) == Lookup(rs, name))
    ensures HasName(rs', name) && Lookup(rs', name) == Lookup(rs, name)
  {
    AbstractHas(rs, name);
    BoundUntilClosed(Abstract(rs), name, lines, opens, 0);
    AbstractHas(rs', name);
  }

  // ---------- the server ----------

  /** The state shared by the client threads: the mutex and the table. */
  class Server {
    const pid: int
    const db: DescriptorTable.DescriptorFile
    var locked: bool

    /** main: the table of an earlier run is removed and an empty one created. */
    constructor (pid: int)
      ensures this.pid == pid && !locked && fresh(db)
      ensures Ready() && db.records == []
    {
      var file := new DescriptorTable.DescriptorFile();
      var cleared := file.ClearDescriptor();
      var initiated := file.InitiateDescriptor(true);
      this.pid, db, locked := pid, file, false;
    }

    ghost predicate Ready()
      reads this, db
    {
      db.Valid() && db.leftover == []
    }

    /**
     FOPEN, given what creating the file comes to: the trylock, the check, and the row that is written even when
     creating the file failed.
     */
    method Open(name: string, file: Creation) returns (reply: Reply)
      requires Ready()
      requires Lookup(db.records, name) == 0 && file.recorded ==> Fits(Record(pid, name, file.fd))
      modifies this`locked, db
      ensures Ready() && locked == old(locked)
      ensures if old(locked) then reply == Fail && db.records == old(db.records)
              else (db.records, reply) == RespondRows(old(db.records), ["FOPEN", name], pid, file)
    {
      if !locked {
        locked := true;
        var chkfd := db.CheckDescriptor(name);
        if chkfd == 0 {
          var wd := db.WriteDescriptor(pid, name, file.fd, file.recorded);
          reply := if file.fd != -1 && wd != -1 then Ok(file.fd) else Fail;
        } else {
          reply := Err(chkfd);
        }
        locked := false;
      } else {
        reply := Fail;
      }
    }

    /** FCLOSE: takes no lock. */
    method Close(fd: int) returns (reply: Reply)
      requires Ready()
      modifies db
      ensures Ready() && db.records == Remove(old(db.records), fd)
      ensures reply == if HasFd(old(db.records), fd) then Ok(0) else Err(-1)
    {
      var ddrt := db.DeleteDescriptor(fd, true, true, true);
      reply := if ddrt == 0 then Ok(ddrt) else Err(ddrt);
    }

    /** One turn of the loop of do_client, on a request that readline has put into req. */
    method Request(req: array<char>, comTok: array<nat>, file: Creation) returns (quit: bool, reply: Reply)
      requires Ready() && !locked && comTok.Length == 129
      requires |CStringAt(req[..], 0)| <= REQUEST_MAX
      requires var ts := Tokens(CStringAt(req[..], 0));
               IsOpen(ts) && Lookup(db.records, ts[1]) == 0 && file.recorded ==> Fits(Record(pid, ts[1], file.fd))
      modifies this`locked, db, req, comTok
      ensures Ready() && !locked
      ensures var ts := Tokens(old(CStringAt(req[..], 0)));
              quit == (ts[0] == "quit") &&
              if quit then db.records == old(db.records)
              else (db.records, reply) == RespondRows(old(db.records), ts, pid, file)
    {
      ghost var s := CStringAt(req[..], 0);
      ghost var ts := Tokens(s);
      var numTok := Tokenize(req, comTok);
      var first := CStringAt(req[..], comTok[0]);
      quit, reply := false, Ack(first);
      if first == "quit" {
        quit := true;
      } else if first == "FOPEN" {
        if numTok != 2 {
          reply := Fail;
        } else {
          reply := Open(CStringAt(req[..], comTok[1]), file);
          assert ts == ["FOPEN", ts[1]];
        }
      } else if first == "FSEEK" || first == "FREAD" || first == "FWRITE" {
        reply := if numTok != 3 then Fail else Passed;
      } else if first == "FCLOSE" {
        if numTok != 3 {
          reply := Fail;
        } else {
          RemoveMissing(db.records, Atoi(ts[1]));
          reply := Close(Atoi(CStringAt(req[..], comTok[1])));
        }
      }
    }

    /** do_client: serves the requests of one client until it sends "quit" or closes the connection. */
    method DoClient(sd: ByteStream, opens: nat -> Creation) returns (replies: seq<Reply>)
      requires !sd.broken && Ready() && !locked && Consistent(db.records)
      requires AllStorable(Abstract(db.records), ReadAll(sd.pending, REQUEST_MAX), opens, 0, pid)
      modifies this`locked, db, sd
      ensures Ready() && !locked && Consistent(db.records)
      ensures DecodeTable(db.table.value) == db.records
      ensures (Abstract(db.records), replies)
           == Converse(Abstract(old(db.records)), ReadAll(old(sd.pending), 255), opens, 0)
    {
      var req := new char[256];
      var comTok := new nat[129];
      ghost var lines := ReadAll(sd.pending, REQUEST_MAX);
      ghost var outcome := Converse(Abstract(db.records), lines, opens, 0);
      var i := 0;
      replies := [];
      assert replies + outcome.1 == outcome.1;
      var n := NextRequest(sd, req, lines, i);
      while n != RECV_NODATA
        invariant i <= |lines| && (n == RECV_NODATA <==> i == |lines|)
        invariant i < |lines| ==> ReadAll(sd.pending, REQUEST_MAX) == lines[i + 1..]
        invariant i < |lines| ==> CStringAt(req[..], 0) == CStringAt(lines[i], 0)
        invariant |CStringAt(req[..], 0)| <= REQUEST_MAX || i == |lines|
        invariant Ready() && !locked && Consistent(db.records)
        invariant AllStorable(Abstract(db.records), lines, opens, i, pid)
        invariant Continues(outcome, replies, Abstract(db.records), lines, opens, i)
        decreases |lines| - i
      {
        ghost var ts := LineTokens(lines[i]);
        StorableFits(db.records, ts, pid, opens(i));
        RowsRefineNames(db.records, ts, pid, opens(i));
        ContinuesStep(outcome, replies, Abstract(db.records), lines, opens, i);
        var quit, reply := Request(req, comTok, opens(i));
        if quit {
          TableRoundTrip(db.records);
          return;
        }
        replies := replies + [reply];
        i := i + 1;
        n := NextRequest(sd, req, lines, i);
      }
      assert replies + [] == replies;
      TableRoundTrip(db.records);
    }
  }

  /** Tokenizes the C string in req; the array of 129 pointers is always large enough. */
  method Tokenize(req: array<char>, comTok: array<nat>) returns (numTok: nat)
    requires comTok.Length == 129 && |CStringAt(req[..], 0)| <= REQUEST_MAX
    modifies req, comTok
    ensures numTok == |Tokens(old(CStringAt(req[..], 0)))|
    ensures numTok <= 128
    ensures forall j :: 0 <= j < numTok ==> comTok[j] <= req.Length
    ensures forall j :: 0 <= j < numTok ==> CStringAt(req[..], comTok[j]) == Tokens(old(CStringAt(req[..], 0)))[j]
  {
    TokenBound(CStringAt(req[..], 0));
    numTok := TokenizeInBlock(req, comTok);
  }

  lemma StorableFits(rs: seq<Record>, ts: seq<string>, pid: int, file: Creation)
    requires Consistent(rs) && Storable(Abstract(rs), ts, pid, file)
    ensures IsOpen(ts) && Lookup(rs, ts[1]) == 0 && file.recorded ==> Fits(Record(pid, ts[1], file.fd))
    ensures IsOpen(ts) && ts[1] !in Abstract(rs) && file.recorded ==> file.fd != 0
  {
    if IsOpen(ts) {
      LookupIsMembership(rs, ts[1]);
    }
  }

  lemma RemoveMissing(rs: seq<Record>, fd: int)
    ensures !HasFd(rs, fd) ==> Remove(rs, fd) == rs
  {
    if !HasFd(rs, fd) {
      RemoveMiss(rs, fd);
    }
  }

  /** Reads the next request into the buffer. */
  method NextRequest(sd: ByteStream, req: array<char>, ghost lines: seq<string>, ghost i: nat) returns (n: int)
    requires req.Length == 256 && !sd.broken && i <= |lines| && ReadAll(sd.pending, REQUEST_MAX) == lines[i..]
    modifies sd, req
    ensures n == RECV_NODATA <==> i == |lines|
    ensures i < |lines| ==> ReadAll(sd.pending, REQUEST_MAX) == lines[i + 1..]
    ensures i < |lines| ==> CStringAt(req[..], 0) == CStringAt(lines[i], 0) && |CStringAt(req[..], 0)| <= REQUEST_MAX
  {
    n := Readline(sd, req, REQUEST_MAX);
    if n != RECV_NODATA {
      assert lines[i..][0] == lines[i] && lines[i..][1..] == lines[i + 1..];
      assert req[..][..n] == lines[i];
      CutAtNul(req[..], n, 0);
    }
  }
}
