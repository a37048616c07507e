/**
 The descriptor table as a file of bytes (file_server/descriptor.cc).
 */
module DescriptorTable {
  import opened CStrings
  import opened Tokenizer
  import opened Records
  import opened Options

  function Min(a: int, b: int): int {
    if a < b then a else b
  }

  /** add_trailing_spaces: pads the string in dest, but never past size - 1 characters. */
  method AddTrailingSpaces(dest: array<char>, size: int, numOfSpaces: int)
    requires size <= dest.Length && numOfSpaces >= 0
    requires |CStringAt(dest[..], 0)| < size
    modifies dest
    ensures var s := old(CStringAt(dest[..], 0));
            CStringAt(dest[..], 0) == s + Blanks(Min(numOfSpaces, size - |s| - 1))
    ensures dest[size..] == old(dest[size..])
  {
    ghost var s := CStringAt(dest[..], 0);
    var len := |CStringAt(dest[..], 0)|;
    var num := numOfSpaces;
    if len + num >= size {
      num := size - len - 1;
    }
    forall i | len <= i < len + num {
      dest[i] := ' ';
    }
    dest[len + num] := NUL;
    PaddedString(dest[..], s, num);
  }

  lemma PaddedString(mem: string, s: string, num: nat)
    requires NUL !in s && |s| + num < |mem| && mem[..|s|] == s && mem[|s| + num] == NUL
    requires forall i :: |s| <= i < |s| + num ==> mem[i] == ' '
    ensures CStringAt(mem, 0) == s + Blanks(num)
  {
    assert mem[0..|s| + num] == mem[..|s|] + Blanks(num);
    CStringIs(mem, 0, s + Blanks(num));
  }

  /** The part of sprintf that stores the formatted string. */
  method StoreString(dest: array<char>, s: string)
    requires |s| < dest.Length && NUL !in s
    modifies dest
    ensures CStringAt(dest[..], 0) == s
  {
    forall i | 0 <= i < |s| {
      dest[i] := s[i];
    }
    dest[|s|] := NUL;
    assert dest[..][0..|s|] == s;
    CStringIs(dest[..], 0, s);
  }

  lemma FormatHasNoNul(r: Record)
    requires Fits(r)
    ensures NUL !in Format(r)
  {
    DecimalIsWord(r.pid);
    DecimalIsWord(r.fd);
  }

  /** The bytes that write_descriptor writes: always exactly one row. */
  method FormatRow(pid: int, name: string, fd: int) returns (row: string)
    requires Fits(Record(pid, name, fd))
    ensures row == Encode(Record(pid, name, fd)) && |row| == WIDTH
  {
    FormatHasNoNul(Record(pid, name, fd));
    var cfp := new char[100];
    StoreString(cfp, Decimal(pid) + " " + name + " " + Decimal(fd) + " ");
    AddTrailingSpaces(cfp, 100, 100 - |CStringAt(cfp[..], 0)|);
    row := CStringAt(cfp[..], 0);
  }

  /** Fills the buffer from offset off of a file, as far as the file goes. */
  method ReadBlock(file: string, off: nat, buff: array<char>) returns (n: nat)
    requires off <= |file|
    modifies buff
    ensures n == Min(buff.Length, |file| - off)
    ensures buff[..n] == file[off..off + n] && buff[n..] == old(buff[n..])
  {
    n := Min(buff.Length, |file| - off);
    forall i | 0 <= i < n {
      buff[i] := file[off + i];
    }
  }

  /** Tokenizes a row in place and reads the three strings the pointers lead to. */
  method RowFields(buff: array<char>, comTok: array<nat>, ghost r: Record)
    returns (pid: string, name: string, fd: string)
    requires comTok.Length == 129 && Fits(r) && buff[..] == Encode(r)
    modifies buff, comTok
    ensures pid == Decimal(r.pid) && name == r.name && fd == Decimal(r.fd)
  {
    RowTokens(r);
    CStringIs(buff[..], 0, buff[..]);
    TokenBound(buff[..]);
    var numTok := TokenizeInBlock(buff, comTok);
    pid := CStringAt(buff[..], comTok[0]);
    name := CStringAt(buff[..], comTok[1]);
    fd := CStringAt(buff[..], comTok[2]);
  }

  /** What a file holds after bytes were written at offset off of it; it is not truncated. */
  function WriteAt(file: string, off: nat, bytes: string): string
    requires off <= |file|
  {
    file[..off] + bytes + if off + |bytes| < |file| then file[off + |bytes|..] else ""
  }

  /** Rows written over the start of a file of rows: the old rows behind them stay. */
  function Overlay<T>(rows: seq<T>, before: seq<T>): seq<T> {
    if |rows| < |before| then rows + before[|rows|..] else rows
  }

  lemma EncodeSnoc(rs: seq<Record>, r: Record)
    ensures EncodeTable(rs + [r]) == EncodeTable(rs) + Encode(r)
  {
    EncodeTableConcat(rs, [r]);
    assert [r][1..] == [];
    assert EncodeTable([r]) == Encode(r);
  }

  lemma WriteAtEnd(a: string, bytes: string)
    ensures WriteAt(a, |a|, bytes) == a + bytes
  {
  }

  lemma WriteOver(a: string, b: string, c: string, bytes: string)
    requires |bytes| == |b|
    ensures WriteAt(a + (b + c), |a|, bytes) == (a + bytes) + c
  {
    var file := a + (b + c);
    assert file[..|a|] == a && file[|a| + |b|..] == c;
  }

  lemma OverlayStepInside(kept: seq<Record>, next: Record, tail: seq<Record>, r: Record)
    ensures WriteAt(EncodeTable(kept + ([next] + tail)), WIDTH * |kept|, Encode(r)) == EncodeTable(kept + [r] + tail)
  {
    assert ([next] + tail)[1..] == tail;
    EncodeTableConcat(kept, [next] + tail);
    WriteOver(EncodeTable(kept), Encode(next), EncodeTable(tail), Encode(r));
    EncodeSnoc(kept, r);
    EncodeTableConcat(kept + [r], tail);
  }

  lemma OverlaySnoc<T>(kept: seq<T>, before: seq<T>, r: T)
    requires |kept| < |before|
    ensures Overlay(kept, before) == kept + ([before[|kept|]] + before[|kept| + 1..])
    ensures Overlay(kept + [r], before) == kept + [r] + before[|kept| + 1..]
  {
  }

  /** Writing one more row over an overlaid file. */
  lemma OverlayStep(kept: seq<Record>, before: seq<Record>, r: Record)
    ensures WriteAt(EncodeTable(Overlay(kept, before)), WIDTH * |kept|, Encode(r))
         == EncodeTable(Overlay(kept + [r], before))
  {
    if |kept| < |before| {
      OverlaySnoc(kept, before, r);
      OverlayStepInside(kept, before[|kept|], before[|kept| + 1..], r);
    } else {
      EncodeSnoc(kept, r);
      WriteAtEnd(EncodeTable(kept), Encode(r));
    }
  }

  /** Reads, tokenizes and decodes the next row of a file of rows; n is 0 at the end of the file. */
  method ReadRecord(file: string, ghost rs: seq<Record>, off: nat, ghost k: nat, buff: array<char>, comTok: array<nat>)
    returns (n: nat, r: Record)
    requires AllFit(rs) && file == EncodeTable(rs) && k <= |rs| && off == WIDTH * k
    requires buff.Length == WIDTH && comTok.Length == 129
    modifies buff, comTok
    ensures n == if k < |rs| then WIDTH else 0
    ensures k < |rs| ==> r == rs[k]
  {
    n := ReadBlock(file, off, buff);
    if n == 0 {
      return 0, Record(0, "", 0);
    }
    RowAt(file, rs, k, off);
    assert buff[..buff.Length] == buff[..];
    var pid, name, fd := RowFields(buff, comTok, rs[k]);
    AtoiOfDecimal(rs[k].pid);
    AtoiOfDecimal(rs[k].fd);
    r := Record(Atoi(pid), name, Atoi(fd));
  }

  lemma LookupNext(rs: seq<Record>, k: nat, name: string)
    requires k < |rs|
    ensures Lookup(rs[k..], name) == if rs[k].name == name then rs[k].fd else Lookup(rs[k + 1..], name)
  {
    assert rs[k..][1..] == rs[k + 1..];
  }

  /** The read loop of check_descriptor. */
  method FindName(source: string, ghost rs: seq<Record>, name: string) returns (fd: int)
    requires AllFit(rs) && source == EncodeTable(rs)
    ensures fd == Lookup(rs, name)
  {
    var buff := new char[99];
    var comTok := new nat[129];
    var off := 0;
    ghost var k := 0;
    assert rs[0..] == rs;
    var n, r := ReadRecord(source, rs, off, k, buff, comTok);
    while n != 0
      invariant 0 <= k <= |rs| && off == WIDTH * k
      invariant n == if k < |rs| then WIDTH else 0
      invariant k < |rs| ==> r == rs[k]
      invariant Lookup(rs, name) == Lookup(rs[k..], name)
      decreases |rs| - k
    {
      LookupNext(rs, k, name);
      if r.name == name {
        return r.fd;
      }
      k := k + 1;
      off := off + n;
      n, r := ReadRecord(source, rs, off, k, buff, comTok);
    }
    return 0;
  }

  /** What the cache file holds when these rows have been written over it, if it is open. */
  function CacheAfter(kept: seq<Record>, leftover: seq<Record>, cacheOk: bool): string {
    EncodeTable(if cacheOk then Overlay(kept, leftover) else leftover)
  }

  /** write_descriptor on file_table_cache, which is open at offset written: it writes nothing if that is not open. */
  method WriteSurvivor(destination: string, written: nat, ghost kept: seq<Record>, ghost leftover: seq<Record>, r: Record,
                       cacheOk: bool)
    returns (destination': string)
    requires Fits(r) && written == WIDTH * |kept| && destination == CacheAfter(kept, leftover, cacheOk)
    ensures destination' == CacheAfter(kept + [r], leftover, cacheOk)
  {
    destination' := destination;
    if cacheOk {
      OverlayStep(kept, leftover, r);
      var row := FormatRow(r.pid, r.name, r.fd);
      destination' := WriteAt(destination, written, row);
    }
  }

  /** Where the copy loop is when it has read k rows. */
  ghost predicate CopiedTo(rs: seq<Record>, k: nat, fd: int, leftover: seq<Record>, cacheOk: bool,
                           destination: string, written: nat, recFound: bool)
    requires k <= |rs|
  {
    var kept := Remove(rs[..k], fd);
    && written == WIDTH * |kept| && destination == CacheAfter(kept, leftover, cacheOk)
    && (recFound <==> HasFd(rs[..k], fd))
  }

  lemma CopiedNext(rs: seq<Record>, k: nat, fd: int, leftover: seq<Record>, cacheOk: bool,
                   destination: string, destination': string, written: nat, recFound: bool)
    requires k < |rs| && CopiedTo(rs, k, fd, leftover, cacheOk, destination, written, recFound)
    requires rs[k].fd == fd ==> destination' == destination
    requires rs[k].fd != fd ==> destination' == CacheAfter(Remove(rs[..k], fd) + [rs[k]], leftover, cacheOk)
    ensures CopiedTo(rs, k + 1, fd, leftover, cacheOk, destination',
                     if rs[k].fd == fd then written else written + WIDTH, recFound || rs[k].fd == fd)
  {
    NextRow(rs, k, fd);
  }

  /** The body of the copy loop, on the row that was read. */
  method CopyRecord(ghost rs: seq<Record>, ghost k: nat, r: Record, fd: int, ghost leftover: seq<Record>, cacheOk: bool,
                    destination: string, written: nat, recFound: bool)
    returns (destination': string, written': nat, recFound': bool)
    requires AllFit(rs) && k < |rs| && r == rs[k]
    requires CopiedTo(rs, k, fd, leftover, cacheOk, destination, written, recFound)
    ensures CopiedTo(rs, k + 1, fd, leftover, cacheOk, destination', written', recFound')
  {
    destination', written', recFound' := destination, written, recFound;
    assert r in rs;
    if r.fd == fd {
      recFound' := true;
    } else {
      destination' := WriteSurvivor(destination, written, Remove(rs[..k], fd), leftover, r, cacheOk);
      written' := written + WIDTH;
    }
    CopiedNext(rs, k, fd, leftover, cacheOk, destination, destination', written, recFound);
  }

  /**
   The copy loop of delete_descriptor: each row is decoded, and the rows with another fd are encoded again and
   written, from offset 0 on, to a file that still holds its old rows. Nothing is written if that file is not open.
   */
  method CopySurvivors(source: string, ghost rs: seq<Record>, before: string, ghost leftover: seq<Record>, fd: int,
                       cacheOk: bool)
    returns (destination: string, recFound: bool)
    requires AllFit(rs) && source == EncodeTable(rs)
    requires before == EncodeTable(leftover)
    ensures destination == CacheAfter(Remove(rs, fd), leftover, cacheOk)
    ensures recFound <==> HasFd(rs, fd)
  {
    var buff := new char[99];
    var comTok := new nat[129];
    var off: nat, written: nat := 0, 0;
    ghost var k := 0;
    destination, recFound := before, false;
    assert Remove(rs[..0], fd) == [] && Overlay([], leftover) == leftover;
    var n, r := ReadRecord(source, rs, off, k, buff, comTok);
    while n != 0
      invariant 0 <= k <= |rs| && off == WIDTH * k
      invariant n == if k < |rs| then WIDTH else 0
      invariant k < |rs| ==> r == rs[k]
      invariant CopiedTo(rs, k, fd, leftover, cacheOk, destination, written, recFound)
      decreases |rs| - k
    {
      destination, written, recFound := CopyRecord(rs, k, r, fd, leftover, cacheOk, destination, written, recFound);
      k := k + 1;
      off := off + n;
      n, r := ReadRecord(source, rs, off, k, buff, comTok);
    }
    assert rs[..k] == rs;
  }

  /** file_table and the file_table_cache that delete_descriptor copies it into. */
  class DescriptorFile {
    var table: Option<string>
    var cache: Option<string>
    ghost var records: seq<Record>   // the rows of file_table
    ghost var leftover: seq<Record>  // the rows of a file_table_cache that an earlier deletion left behind

    ghost predicate CacheValid()
      reads this
    {
      && AllFit(leftover)
      && if cache == None then leftover == [] else cache == Some(EncodeTable(leftover))
    }

    ghost predicate Valid()
      reads this
    {
      && CacheValid()
      && AllFit(records) && table == Some(EncodeTable(records))
    }

    constructor ()
      ensures table == None && cache == None && CacheValid()
    {
      table, cache, records, leftover := None, None, [], [];
    }

    /** clear_descriptor: removes the table, if there is one. */
    method ClearDescriptor() returns (result: int)
      requires CacheValid()
      modifies this`table
      ensures CacheValid() && table == None
      ensures result == if old(table) == None then -1 else 0
    {
      result := if table == None then -1 else 0;
      table := None;
    }

    /** initiate_descriptor, given whether open succeeds: creates an empty table, but keeps the rows of an existing one. */
    method InitiateDescriptor(openOk: bool) returns (result: int)
      requires CacheValid() && (table == None || Valid())
      modifies this`table, this`records
      ensures result == if openOk then 0 else -1
      ensures if openOk then Valid() && records == if old(table) == None then [] else old(records)
              else table == old(table) && records == old(records)
    {
      if openOk && table == None {
        table := Some("");
        records := [];
      }
      result := if openOk then 0 else -1;
    }

    /** write_descriptor on file_table itself, given whether open succeeds: appends exactly one row. */
    method WriteDescriptor(pid: int, name: string, fd: int, openOk: bool) returns (result: int)
      requires Valid() && (openOk ==> Fits(Record(pid, name, fd)))
      modifies this`table, this`records
      ensures Valid() && result == if openOk then 0 else -1
      ensures records == if openOk then old(records) + [Record(pid, name, fd)] else old(records)
      ensures table.value == old(table).value + if openOk then Encode(Record(pid, name, fd)) else ""
    {
      if !openOk {
        return -1;
      }
      var row := FormatRow(pid, name, fd);
      table := Some(table.value + row);
      EncodeSnoc(records, Record(pid, name, fd));
      records := records + [Record(pid, name, fd)];
      result := 0;
    }

    /** check_descriptor: the fd recorded for the name, 0 when it finds no row. */
    method CheckDescriptor(name: string) returns (fd: int)
      requires Valid()
      ensures fd == Lookup(records, name)
    {
      fd := FindName(table.value, records, name);
    }

    /**
     delete_descriptor, given whether file_table_cache can be opened, and whether remove and rename succeed. The
     rows with another fd are decoded, encoded again and written over whatever file_table_cache held before, which
     is then renamed. If it cannot be opened, what an earlier deletion left there takes the place of the table.
     */
    method DeleteDescriptor(fd: int, cacheOk: bool, removeOk: bool, renameOk: bool) returns (result: int)
      requires Valid()
      modifies this
      ensures var renamed := renameOk && (cacheOk || old(cache) != None);
              var copied := if cacheOk then Overlay(Remove(old(records), fd), old(leftover)) else old(leftover);
              && result == (if HasFd(old(records), fd) && removeOk && renamed then 0 else -1)
              && (if renamed then Valid() && records == copied && cache == None
                  else CacheValid() && leftover == copied && (cache == None <==> !cacheOk && old(cache) == None))
              && (!renamed ==> if removeOk then table == None else Valid() && records == old(records))
    {
      var destination, recFound :=
        CopySurvivors(table.value, records, if cache == None then "" else cache.value, leftover, fd, cacheOk);
      if cacheOk {
        cache := Some(destination);
        leftover := Overlay(Remove(records, fd), leftover);
      }
      if removeOk {
        table := None;
      }
      var renamed := renameOk && cache != None;
      if renamed {
        table, cache := cache, None;
        records, leftover := leftover, [];
      }
      result := if recFound && removeOk && renamed then 0 else -1;
    }
  }

  /** The 99-byte rows of a file whose decoded fd differs, as they are. */
  function KeepRows(bytes: string, fd: int): string {
    if |bytes| < WIDTH then ""
    else (if Decode(bytes[..WIDTH]).fd == fd then "" else bytes[..WIDTH]) + KeepRows(bytes[WIDTH..], fd)
  }

  /** Although every survivor is decoded and encoded again, its bytes do not change. */
  lemma {:induction false} DeletionKeepsBytes(rs: seq<Record>, fd: int)
    requires AllFit(rs)
    ensures EncodeTable(Remove(rs, fd)) == KeepRows(EncodeTable(rs), fd)
  {
    if rs != [] {
      var bytes := EncodeTable(rs);
      assert bytes[..WIDTH] == Encode(rs[0]) && bytes[WIDTH..] == EncodeTable(rs[1..]);
      RowRoundTrip(rs[0]);
      DeletionKeepsBytes(rs[1..], fd);
      if rs[0].fd != fd {
        assert Remove(rs, fd)[1..] == Remove(rs[1..], fd);
      }
    }
  }

  // ---------- a cache file that was left behind ----------

  function Count(rs: seq<Record>, fd: int): nat {
    if rs == [] then 0 else (if rs[0].fd == fd then 1 else 0) + Count(rs[1..], fd)
  }

  lemma {:induction false} RemoveLength(rs: seq<Record>, fd: int)
    ensures |Remove(rs, fd)| + Count(rs, fd) == |rs|
  {
    if rs != [] {
      RemoveLength(rs[1..], fd);
    }
  }

  /** Deletion leaves exactly the survivors if and only if the cache file had no more rows than there are survivors. */
  lemma DeletionIsExact(rs: seq<Record>, leftover: seq<Record>, fd: int)
    ensures Overlay(Remove(rs, fd), leftover) == Remove(rs, fd) <==> |leftover| + Count(rs, fd) <= |rs|
  {
    RemoveLength(rs, fd);
  }

  /**
   After a deletion that could neither remove nor rename, the next one leaves exactly the survivors if and only if
   it deletes no more rows than the failed one was to delete.
   */
  method DeleteAgain(db: DescriptorFile, failed: int, fd: int) returns (result: int)
    requires db.Valid() && db.leftover == []
    modifies db
    ensures db.Valid() && db.cache == None
    ensures result == if HasFd(old(db.records), fd) then 0 else -1
    ensures db.records == Overlay(Remove(old(db.records), fd), Remove(old(db.records), failed))
    ensures db.records == Remove(old(db.records), fd) <==> Count(old(db.records), fd) <= Count(old(db.records), failed)
  {
    ghost var rs := db.records;
    var first := db.DeleteDescriptor(failed, true, false, false);
    result := db.DeleteDescriptor(fd, true, true, true);
    DeletionIsExact(rs, Remove(rs, failed), fd);
    RemoveLength(rs, failed);
  }

  lemma ShortRow(name: string, fd: int)
    requires |name| == 1 && IsName(name) && 0 <= fd <= INT_MAX
    ensures Fits(Record(1, name, fd))
  {
    AlwaysFits(Record(1, name, fd));
  }

  lemma StaleRows(a: Record, b: Record, fd: int)
    requires a.fd != b.fd && a.fd != fd && b.fd != fd
    ensures Overlay(Remove([a, b], a.fd), Remove([a, b], fd)) == [b, b]
  {
    assert [a, b][1..] == [b] && [b][1..] == [];
    assert Remove([b], a.fd) == [b] && Remove([b], fd) == [b];
  }

  /** So a successful deletion can leave two rows for one name. */
  method StaleCacheDuplicates() returns (db: DescriptorFile, result: int)
    ensures db.Valid() && result == 0
    ensures db.records == [Record(1, "b", 6), Record(1, "b", 6)] && !UniqueNames(db.records)
  {
    var a, b := Record(1, "a", 5), Record(1, "b", 6);
    ShortRow("a", 5);
    ShortRow("b", 6);
    db := new DescriptorFile();
    result := db.InitiateDescriptor(true);
    result := db.WriteDescriptor(1, "a", 5, true);
    result := db.WriteDescriptor(1, "b", 6, true);
    assert db.records == [a, b];
    StaleRows(a, b, 9);
    assert db.records[0].fd == 5;
    result := DeleteAgain(db, 9, 5);
    assert db.records[0].name == db.records[1].name;
  }
}
