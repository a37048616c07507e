/**
 The rows of the descriptor table (file_server/descriptor.cc) and the operations on a table of them.
 A row is "<pid> <name> <fd> ", padded with blanks to 99 bytes.
 */
module Records {
  import opened CStrings
  import opened Tokenizer

  const WIDTH: nat := 99

  datatype Record = Record(pid: int, name: string, fd: int)

  predicate IsName(name: string) {
    name != "" && BlankFree(name) && NUL !in name
  }

  /** The formatted text of a row: the three fields, each followed by a blank. */
  function Format(r: Record): string {
    Decimal(r.pid) + " " + r.name + " " + Decimal(r.fd) + " "
  }

  /** The row can be stored: cfp has room for 99 characters and a NUL. */
  predicate Fits(r: Record) {
    IsInt(r.pid) && IsInt(r.fd) && IsName(r.name) && |Format(r)| <= WIDTH
  }

  /** A string padded to the width of a row; one that is too long is not a row, and is cut here. */
  function Pad(s: string): (row: string)
    ensures |row| == WIDTH
  {
    if |s| > WIDTH then s[..WIDTH] else s + Blanks(WIDTH - |s|)
  }

  function Encode(r: Record): (row: string)
    ensures |row| == WIDTH
  {
    Pad(Format(r))
  }

  /** What the read loops take a row to be. */
  function Decode(row: string): Record {
    var ts := Tokens(CStringAt(row, 0));
    if |ts| < 3 then Record(0, "", 0) else Record(Atoi(ts[0]), ts[1], Atoi(ts[2]))
  }

  // ---------- round trip of one row ----------

  lemma DecimalIsWord(n: int)
    ensures BlankFree(Decimal(n)) && NUL !in Decimal(n) && Decimal(n)[0] != ' '
  {
    var s := Decimal(n);
    assert s[0] in s;
    assert ' ' !in s;
  }

  lemma WordThenBlank(w: string, rest: string)
    requires w != "" && BlankFree(w)
    ensures Words(w + (" " + rest)) == [w] + Words(rest)
  {
    WordsCons(w, " " + rest);
    assert (" " + rest)[1..] == rest;
  }

  lemma FormatWords(p: string, name: string, f: string, pad: string)
    requires p != "" && name != "" && f != "" && BlankFree(p) && BlankFree(name) && BlankFree(f) && Words(pad) == []
    ensures Words(p + (" " + (name + (" " + (f + (" " + pad)))))) == [p, name, f]
  {
    WordThenBlank(f, pad);
    WordThenBlank(name, f + (" " + pad));
    WordThenBlank(p, name + (" " + (f + (" " + pad))));
  }

  lemma FormatPadded(p: string, name: string, f: string, pad: string)
    ensures p + " " + name + " " + f + " " + pad == p + (" " + (name + (" " + (f + (" " + pad)))))
  {
  }

  lemma RowHasNoNul(r: Record)
    requires Fits(r)
    ensures NUL !in Encode(r) && Encode(r)[0] != ' '
  {
    DecimalIsWord(r.pid);
    DecimalIsWord(r.fd);
  }

  /** A stored row has exactly three tokens, also when the final blank of the format is its 99th byte. */
  lemma RowTokens(r: Record)
    requires Fits(r)
    ensures NUL !in Encode(r)
    ensures Tokens(Encode(r)) == [Decimal(r.pid), r.name, Decimal(r.fd)]
  {
    RowHasNoNul(r);
    DecimalIsWord(r.pid);
    DecimalIsWord(r.fd);
    var pad := Blanks(WIDTH - |Format(r)|);
    WordsOfBlanks(|pad|);
    assert pad == Blanks(|pad|);
    FormatPadded(Decimal(r.pid), r.name, Decimal(r.fd), pad);
    FormatWords(Decimal(r.pid), r.name, Decimal(r.fd), pad);
  }

  /** Codec round trip: every triple that fits is read back from its row. */
  lemma RowRoundTrip(r: Record)
    requires Fits(r)
    ensures Decode(Encode(r)) == r
  {
    RowTokens(r);
    CStringIs(Encode(r), 0, Encode(r));
    AtoiOfDecimal(r.pid);
    AtoiOfDecimal(r.fd);
  }

  /** A pid below 10^7, a name of at most 79 bytes and any non-negative int always fit. */
  lemma AlwaysFits(r: Record)
    requires 0 <= r.pid < 10_000_000 && IsName(r.name) && |r.name| <= 79 && 0 <= r.fd <= INT_MAX
    ensures Fits(r)
  {
    DigitsLength(r.pid, 7, 10_000_000);
    DigitsLength(r.fd, 10, 10_000_000_000);
  }

  /** The bound is reached: this row is all format and no padding. */
  lemma FullWidthRow(name: string)
    requires IsName(name) && |name| == 79
    ensures Fits(Record(9_999_999, name, INT_MAX))
    ensures Encode(Record(9_999_999, name, INT_MAX)) == Format(Record(9_999_999, name, INT_MAX))
  {
  }

  // ---------- the whole file ----------

  predicate AllFit(rs: seq<Record>) {
    forall r :: r in rs ==> Fits(r)
  }

  function EncodeTable(rs: seq<Record>): (bytes: string)
    ensures |bytes| == WIDTH * |rs|
  {
    if rs == [] then "" else Encode(rs[0]) + EncodeTable(rs[1..])
  }

  function DecodeTable(bytes: string): seq<Record> {
    if |bytes| < WIDTH then [] else [Decode(bytes[..WIDTH])] + DecodeTable(bytes[WIDTH..])
  }

  /** The bytes of the file determine the records: the file always decodes to them. */
  lemma {:induction false} TableRoundTrip(rs: seq<Record>)
    requires AllFit(rs)
    ensures DecodeTable(EncodeTable(rs)) == rs
  {
    if rs != [] {
      RowRoundTrip(rs[0]);
      TableRoundTrip(rs[1..]);
      var bytes := EncodeTable(rs);
      assert bytes[..WIDTH] == Encode(rs[0]) && bytes[WIDTH..] == EncodeTable(rs[1..]);
    }
  }

  lemma {:induction false} EncodeTableConcat(a: seq<Record>, b: seq<Record>)
    ensures EncodeTable(a + b) == EncodeTable(a) + EncodeTable(b)
  {
    if a == [] {
      assert a + b == b;
    } else {
      assert (a + b)[1..] == a[1..] + b;
      EncodeTableConcat(a[1..], b);
    }
  }

  lemma MiddleSlice(a: string, b: string, c: string)
    ensures (a + (b + c))[|a|..|a| + |b|] == b
  {
  }

  lemma TableSplit(rs: seq<Record>, k: nat)
    requires k < |rs|
    ensures EncodeTable(rs) == EncodeTable(rs[..k]) + (Encode(rs[k]) + EncodeTable(rs[k + 1..]))
  {
    var rest := rs[k..];
    assert rs == rs[..k] + rest;
    EncodeTableConcat(rs[..k], rest);
    assert rest[0] == rs[k] && rest[1..] == rs[k + 1..];
  }

  /** Row k of the file is the encoding of record k. */
  lemma RowAt(file: string, rs: seq<Record>, k: nat, off: nat)
    requires file == EncodeTable(rs) && k < |rs| && off == WIDTH * k
    ensures off + WIDTH <= |file| && file[off..off + WIDTH] == Encode(rs[k])
  {
    TableSplit(rs, k);
    var a := EncodeTable(rs[..k]);
    assert |a| == off;
    MiddleSlice(a, Encode(rs[k]), EncodeTable(rs[k + 1..]));
  }

  // ---------- looking up and removing ----------

  /** check_descriptor: the fd in the first row with this name, 0 when there is none. */
  function Lookup(rs: seq<Record>, name: string): int {
    if rs == [] then 0 else if rs[0].name == name then rs[0].fd else Lookup(rs[1..], name)
  }

  /** delete_descriptor: the rows with another fd, in order. */
  function Remove(rs: seq<Record>, fd: int): (kept: seq<Record>)
    ensures |kept| <= |rs|
    ensures forall r :: r in kept <==> r in rs && r.fd != fd
  {
    if rs == [] then []
    else if rs[0].fd == fd then Remove(rs[1..], fd)
    else [rs[0]] + Remove(rs[1..], fd)
  }

  predicate HasFd(rs: seq<Record>, fd: int) {
    exists r :: r in rs && r.fd == fd
  }

  predicate HasName(rs: seq<Record>, name: string) {
    exists r :: r in rs && r.name == name
  }

  ghost predicate UniqueNames(rs: seq<Record>) {
    forall i, j :: 0 <= i < j < |rs| ==> rs[i].name != rs[j].name
  }

  lemma {:induction false} RemoveMiss(rs: seq<Record>, fd: int)
    requires !HasFd(rs, fd)
    ensures Remove(rs, fd) == rs
  {
    if rs != [] {
      assert rs[0] in rs;
      RemoveMiss(rs[1..], fd);
    }
  }

  lemma {:induction false} RemoveConcat(a: seq<Record>, b: seq<Record>, fd: int)
    ensures Remove(a + b, fd) == Remove(a, fd) + Remove(b, fd)
  {
    if a == [] {
      assert a + b == b;
    } else {
      assert (a + b)[1..] == a[1..] + b;
      RemoveConcat(a[1..], b, fd);
    }
  }

  lemma NextRow(rs: seq<Record>, k: nat, fd: int)
    requires k < |rs|
    ensures rs[..k + 1] == rs[..k] + [rs[k]]
    ensures Remove(rs[..k + 1], fd) == if rs[k].fd == fd then Remove(rs[..k], fd) else Remove(rs[..k], fd) + [rs[k]]
    ensures HasFd(rs[..k + 1], fd) <==> HasFd(rs[..k], fd) || rs[k].fd == fd
  {
    assert rs[..k + 1] == rs[..k] + [rs[k]];
    RemoveConcat(rs[..k], [rs[k]], fd);
    assert rs[k] in rs[..k + 1];
    assert forall r :: r in rs[..k] ==> r in rs[..k + 1];
  }

  lemma {:induction false} RemoveUnique(rs: seq<Record>, fd: int)
    requires UniqueNames(rs)
    ensures UniqueNames(Remove(rs, fd))
  {
    if rs != [] {
      RemoveUnique(rs[1..], fd);
      var kept := Remove(rs[1..], fd);
      forall k | 0 <= k < |kept| ensures kept[k].name != rs[0].name {
        assert kept[k] in kept;
      }
    }
  }

  lemma {:induction false} LookupAbsent(rs: seq<Record>, name: string)
    requires !HasName(rs, name)
    ensures Lookup(rs, name) == 0
  {
    if rs != [] {
      assert rs[0] in rs;
      LookupAbsent(rs[1..], name);
    }
  }

  lemma {:induction false} LookupPresent(rs: seq<Record>, r: Record)
    requires UniqueNames(rs) && r in rs
    ensures Lookup(rs, r.name) == r.fd
  {
    if rs[0] != r {
      assert r in rs[1..];
      LookupPresent(rs[1..], r);
    }
  }

  /** Of several rows with the name, the first one counts. */
  lemma {:induction false} LookupIsFirst(rs: seq<Record>, i: nat)
    requires i < |rs| && forall j :: 0 <= j < i ==> rs[j].name != rs[i].name
    ensures Lookup(rs, rs[i].name) == rs[i].fd
  {
    if i > 0 {
      LookupIsFirst(rs[1..], i - 1);
    }
  }

  /** The value a lookup finds is the fd of some row with that name. */
  lemma {:induction false} LookupFinds(rs: seq<Record>, name: string)
    requires HasName(rs, name)
    ensures exists r :: r in rs && r.name == name && r.fd == Lookup(rs, name)
  {
    if rs[0].name == name {
      assert rs[0] in rs;
    } else {
      LookupFinds(rs[1..], name);
    }
  }
}
