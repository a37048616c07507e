/**
 readline (file_server/tcp-utils.cc): a bounded, byte-at-a-time line reader.
 */
module LineReader {
  import opened CStrings

  const RECV_NODATA: int := -2

  /** A descriptor to read from: the bytes still to come, and whether reading fails once they are gone. */
  class ByteStream {
    var pending: string
    const broken: bool

    constructor (data: string, broken: bool)
      ensures pending == data && this.broken == broken
    {
      pending, this.broken := data, broken;
    }

    /** Reads one byte, if there is one. */
    method Read() returns (what: int, tmp: char)
      modifies this
      ensures old(pending) != "" ==> what == 1 && old(pending) == [tmp] + pending
      ensures old(pending) == "" ==> pending == "" && what == if broken then -1 else 0
    {
      if pending == "" {
        what, tmp := if broken then -1 else 0, NUL;
      } else {
        what, tmp := 1, pending[0];
        pending := pending[1..];
      }
    }
  }

  // ---------- what one call returns ----------

  /** The number of bytes in front of the first newline. */
  function LineLength(data: string): (k: nat)
    ensures k <= |data|
    ensures k < |data| ==> data[k] == '\n'
  {
    if data == "" || data[0] == '\n' then 0 else 1 + LineLength(data[1..])
  }

  lemma {:induction false} LineHasNoNewline(data: string)
    ensures '\n' !in data[..LineLength(data)]
  {
    if LineLength(data) > 0 {
      LineHasNoNewline(data[1..]);
      assert data[..LineLength(data)] == [data[0]] + data[1..][..LineLength(data[1..])];
    }
  }

  datatype Line = NoData | Failed | Text(text: string)

  function NextLine(data: string, broken: bool, max: nat): Line {
    var k := LineLength(data);
    if max == 0 then Text("")
    else if data == "" then if broken then Failed else NoData
    else if k >= max then Text(data[..max])
    else if k == |data| && broken then Failed
    else Text(data[..k])
  }

  /** What is left to read after the call. */
  function Rest(data: string, max: nat): (r: string)
    ensures data != "" && max > 0 ==> |r| < |data|
  {
    var k := LineLength(data);
    if k >= max then data[max..] else if k == |data| then "" else data[k + 1..]
  }

  lemma {:induction false} LineLengthIs(data: string, k: nat)
    requires k <= |data| && '\n' !in data[..k]
    requires k < |data| ==> data[k] == '\n'
    ensures LineLength(data) == k
  {
    if k > 0 {
      assert data[0] == data[..k][0];
      assert data[1..][..k - 1] == data[..k][1..];
      LineLengthIs(data[1..], k - 1);
    }
  }

  lemma {:induction false} LongLine(data: string, m: nat)
    requires m <= |data| && '\n' !in data[..m]
    ensures LineLength(data) >= m
  {
    if m > 0 {
      assert data[0] == data[..m][0];
      assert data[1..][..m - 1] == data[..m][1..];
      LongLine(data[1..], m - 1);
    }
  }

  /** The buffer when the first i bytes of the data have been stored in it. */
  function Stored(before: string, data: string, i: nat): string
    requires i <= |data| && i <= |before|
  {
    data[..i] + before[i..]
  }

  lemma StoreNext(before: string, data: string, i: nat)
    requires i < |data| && i < |before|
    ensures Stored(before, data, i)[i := data[i]] == Stored(before, data, i + 1)
    ensures data[..i + 1] == data[..i] + [data[i]] && data[i..][0] == data[i] && data[i..][1..] == data[i + 1..]
  {
  }

  lemma StoreEnd(before: string, data: string, i: nat)
    requires i <= |data| && i < |before|
    ensures var mem := Stored(before, data, i)[i := NUL];
            mem[..i] == data[..i] && mem[i] == NUL && mem[i + 1..] == before[i + 1..]
  {
  }

  /** After a read error what was read is in the buffer, without a terminator. */
  method Readline(fd: ByteStream, buf: array<char>, max: nat) returns (n: int)
    requires max < buf.Length
    modifies fd, buf
    ensures fd.pending == Rest(old(fd.pending), max)
    ensures match NextLine(old(fd.pending), fd.broken, max)
            case NoData => n == RECV_NODATA && buf[..] == old(buf[..])
            case Failed =>
              var k := |old(fd.pending)|;
              n == -1 && k < buf.Length && buf[..] == Stored(old(buf[..]), old(fd.pending), k)
            case Text(t) =>
              n == |t| && n < buf.Length && buf[..n] == t && buf[n] == NUL && buf[n + 1..] == old(buf[..])[n + 1..]
  {
    ghost var data, before := fd.pending, buf[..];
    var i := 0;
    var begin := true;
    while i < max
      invariant i <= max && i <= |data|
      invariant begin <==> i == 0
      invariant fd.pending == data[i..] && '\n' !in data[..i]
      invariant buf[..] == Stored(before, data, i)
    {
      var what, tmp := fd.Read();
      if what == -1 {
        LineLengthIs(data, i);
        return -1;
      }
      if begin {
        if what == 0 {
          return RECV_NODATA;
        }
        begin := false;
      }
      if what == 0 || tmp == '\n' {
        LineLengthIs(data, i);
        StoreEnd(before, data, i);
        buf[i] := NUL;
        assert buf[..] == Stored(before, data, i)[i := NUL];
        return i;
      }
      StoreNext(before, data, i);
      buf[i] := tmp;
      assert buf[..] == Stored(before, data, i)[i := tmp];
      i := i + 1;
    }
    LongLine(data, max);
    StoreEnd(before, data, i);
    buf[i] := NUL;
    assert buf[..] == Stored(before, data, i)[i := NUL];
    n := i;
  }

  /**
   What a call returns, without reference to how it finds out: the longest part of the data, up to max bytes, that is
   followed by a newline, or by the end of the data, or by nothing that fits; the newline is consumed.
   */
  lemma TextIsLine(data: string, broken: bool, max: nat, t: string)
    requires NextLine(data, broken, max) == Text(t)
    ensures |t| <= max && |t| <= |data| && t == data[..|t|] && '\n' !in t
    ensures |t| < max ==> if |t| < |data| then data[|t|] == '\n' else !broken && data != ""
    ensures Rest(data, max) == data[if |t| < max && |t| < |data| then |t| + 1 else |t|..]
  {
    var k := LineLength(data);
    LineHasNoNewline(data);
    assert t == data[..k][..|t|];
  }

  /** A call fails exactly if reading fails before it meets a newline or has max bytes; the rest of the data is gone. */
  lemma FailureIsEarly(data: string, broken: bool, max: nat)
    ensures NextLine(data, broken, max) == Failed <==> broken && |data| < max && '\n' !in data
    ensures NextLine(data, broken, max) == NoData <==> !broken && data == "" && max > 0
    ensures NextLine(data, broken, max).Failed? ==> Rest(data, max) == ""
  {
    var k := LineLength(data);
    LineHasNoNewline(data);
    assert data[..|data|] == data;
  }

  // ---------- reading everything ----------

  /** What repeated calls return until there is no data. */
  function ReadAll(data: string, max: nat): (chunks: seq<string>)
    requires max >= 1
    decreases |data|
  {
    if data == "" then [] else [NextLine(data, false, max).text] + ReadAll(Rest(data, max), max)
  }

  function Concat(chunks: seq<string>): string {
    if chunks == [] then "" else chunks[0] + Concat(chunks[1..])
  }

  function WithoutNewlines(data: string): string {
    if data == "" then ""
    else if data[0] == '\n' then WithoutNewlines(data[1..])
    else [data[0]] + WithoutNewlines(data[1..])
  }

  lemma {:induction false} WithoutNewlinesPrefix(data: string, k: nat)
    requires k <= |data| && '\n' !in data[..k]
    ensures WithoutNewlines(data) == data[..k] + WithoutNewlines(data[k..])
  {
    if k > 0 {
      assert data[0] == data[..k][0];
      assert data[1..][..k - 1] == data[..k][1..] && data[1..][k - 1..] == data[k..];
      WithoutNewlinesPrefix(data[1..], k - 1);
    }
  }

  /**
   Conservation: the calls return every byte of the stream once and in order, except that they consume
   every newline; and no call returns more than max bytes.
   */
  lemma {:induction false} ReadlineConserves(data: string, max: nat)
    requires max >= 1
    ensures Concat(ReadAll(data, max)) == WithoutNewlines(data)
    ensures forall c :: c in ReadAll(data, max) ==> |c| <= max && '\n' !in c
    decreases |data|
  {
    if data != "" {
      var k := LineLength(data);
      var m := if k >= max then max else k;
      LineHasNoNewline(data);
      assert data[..m] == data[..k][..m];
      WithoutNewlinesPrefix(data, m);
      assert m < |data| && m == k ==> data[m..][1..] == data[m + 1..];
      ReadlineConserves(Rest(data, max), max);
      var first := NextLine(data, false, max).text;
      assert ReadAll(data, max)[1..] == ReadAll(Rest(data, max), max);
      assert first == data[..m];
    }
  }

  // ---------- arithmetic ----------

  lemma MulAtLeast(d: nat, m: nat)
    requires d >= 1
    ensures d * m >= m
  {
  }

  lemma Distribute(x: nat, y: nat, m: nat)
    ensures (x + y) * m == x * m + y * m
  {
  }

  lemma DivMod(a: nat, m: nat)
    requires m >= 1
    ensures a == (a / m) * m + a % m && a % m < m
  {
  }

  lemma QuotientIs(a: nat, m: nat, q: nat, r: nat)
    requires m >= 1 && a == q * m + r && r < m
    ensures a / m == q && a % m == r
  {
    DivMod(a, m);
    QuotientUnique(m, q, r, a / m, a % m);
  }

  lemma QuotientUnique(m: nat, q: nat, r: nat, q': nat, r': nat)
    requires r < m && r' < m && q * m + r == q' * m + r'
    ensures q == q' && r == r'
  {
    if q' < q {
      Distribute(q', q - q', m);
      MulAtLeast(q - q', m);
    } else if q < q' {
      Distribute(q, q' - q, m);
      MulAtLeast(q' - q, m);
    }
  }

  lemma DivStep(a: nat, max: nat)
    requires max >= 1
    ensures (a + max) / max == a / max + 1
    ensures (a + max) % max == a % max
  {
    DivMod(a, max);
    Distribute(a / max, 1, max);
    QuotientIs(a + max, max, a / max + 1, a % max);
  }

  lemma DivSmall(a: nat, max: nat)
    requires a < max
    ensures a / max == 0 && a % max == a
  {
    QuotientIs(a, max, 0, a);
  }

  // ---------- how many calls ----------

  /** The calls one line of length k takes: one per full chunk, and one that meets the newline. */
  function LineCalls(k: nat, max: nat, terminated: bool): nat
    requires max >= 1
  {
    if k < max then (if k == 0 && !terminated then 0 else 1) else 1 + LineCalls(k - max, max, terminated)
  }

  lemma {:induction false} LineCallsClosedForm(k: nat, max: nat)
    requires max >= 1
    ensures LineCalls(k, max, true) == k / max + 1
    ensures LineCalls(k, max, false) == (k + max - 1) / max
  {
    if k < max {
      DivSmall(k, max);
      if k == 0 {
        DivSmall(max - 1, max);
      } else {
        DivStep(k - 1, max);
        DivSmall(k - 1, max);
      }
    } else {
      LineCallsClosedForm(k - max, max);
      DivStep(k - max, max);
      DivStep(k - 1, max);
    }
  }

  lemma FirstChunk(data: string, max: nat)
    requires max >= 1 && LineLength(data) >= max
    ensures ReadAll(data, max) == [data[..max]] + ReadAll(data[max..], max)
  {
  }

  lemma FirstLine(line: string, rest: string, max: nat)
    requires '\n' !in line
    ensures LineLength(line + "\n" + rest) == |line|
    ensures |line| < max ==> ReadAll(line + "\n" + rest, max) == [line] + ReadAll(rest, max)
  {
    var data := line + "\n" + rest;
    assert data[..|line|] == line && data[|line| + 1..] == rest;
    LineLengthIs(data, |line|);
  }

  lemma FirstChunkOfLine(line: string, rest: string, max: nat)
    requires max >= 1 && '\n' !in line && |line| >= max
    ensures ReadAll(line + "\n" + rest, max) == [line[..max]] + ReadAll(line[max..] + "\n" + rest, max)
  {
    var data := line + "\n" + rest;
    FirstLine(line, rest, max);
    assert data[..max] == line[..max] && data[max..] == line[max..] + "\n" + rest;
    FirstChunk(data, max);
  }

  lemma {:induction false} TerminatedLine(line: string, rest: string, max: nat)
    requires max >= 1 && '\n' !in line
    ensures |ReadAll(line + "\n" + rest, max)| == LineCalls(|line|, max, true) + |ReadAll(rest, max)|
    decreases |line|, 1
  {
    if |line| >= max {
      DropChunk(line, max);
      TerminatedLineStep(line, line[max..], rest, max);
    } else {
      ShortLine(line, rest, max);
    }
  }

  lemma {:induction false} TerminatedLineStep(line: string, shorter: string, rest: string, max: nat)
    requires max >= 1 && '\n' !in line && |line| >= max && shorter == line[max..]
    requires '\n' !in shorter && |shorter| == |line| - max
    ensures |ReadAll(line + "\n" + rest, max)| == LineCalls(|line|, max, true) + |ReadAll(rest, max)|
    decreases |line|, 0
  {
    TerminatedLine(shorter, rest, max);
    OneChunkMore(line, rest, max);
    OneCallMore(|line|, max);
  }

  lemma DropChunk(line: string, max: nat)
    requires '\n' !in line && |line| >= max
    ensures '\n' !in line[max..] && |line[max..]| == |line| - max
  {
  }

  lemma OneCallMore(k: nat, max: nat)
    requires max >= 1 && k >= max
    ensures LineCalls(k, max, true) == 1 + LineCalls(k - max, max, true)
  {
  }

  lemma ShortLine(line: string, rest: string, max: nat)
    requires '\n' !in line && |line| < max
    ensures |ReadAll(line + "\n" + rest, max)| == 1 + |ReadAll(rest, max)|
  {
    FirstLine(line, rest, max);
  }

  lemma OneChunkMore(line: string, rest: string, max: nat)
    requires max >= 1 && '\n' !in line && |line| >= max
    ensures |ReadAll(line + "\n" + rest, max)| == 1 + |ReadAll(line[max..] + "\n" + rest, max)|
  {
    FirstChunkOfLine(line, rest, max);
  }

  /** A terminated line of length L takes floor(L / max) + 1 calls, whatever follows it. */
  lemma TerminatedLineCalls(line: string, rest: string, max: nat)
    requires max >= 1 && '\n' !in line
    ensures |ReadAll(line + "\n" + rest, max)| == |line| / max + 1 + |ReadAll(rest, max)|
  {
    TerminatedLine(line, rest, max);
    LineCallsClosedForm(|line|, max);
  }

  lemma {:induction false} OpenLine(line: string, max: nat)
    requires max >= 1 && '\n' !in line
    ensures |ReadAll(line, max)| == LineCalls(|line|, max, false)
    decreases |line|
  {
    assert line[..|line|] == line;
    LineLengthIs(line, |line|);
    if |line| >= max {
      OpenLine(line[max..], max);
    }
  }

  /** An unterminated last line of length L takes ceil(L / max) calls. */
  lemma OpenLineCalls(line: string, max: nat)
    requires max >= 1 && '\n' !in line
    ensures |ReadAll(line, max)| == (|line| + max - 1) / max
  {
    OpenLine(line, max);
    LineCallsClosedForm(|line|, max);
  }

  // ---------- lines put together ----------

  /** The number of bytes after the last newline. */
  function TailLength(data: string): nat {
    if '\n' !in data then |data| else TailLength(data[1..])
  }

  /** Reading the text leaves no partial chunk at its end. */
  predicate Aligned(data: string, max: nat)
    requires max >= 1
    decreases |data|
  {
    data == "" ||
    (var k := LineLength(data);
     if k >= max then Aligned(data[max..], max) else k < |data| && Aligned(data[k + 1..], max))
  }

  lemma {:induction false} TailDrop(data: string, m: nat)
    requires m <= |data| && '\n' in data[m..]
    ensures TailLength(data) == TailLength(data[m..])
  {
    if m > 0 {
      assert data[1..][m - 1..] == data[m..];
      assert '\n' in data;
      TailDrop(data[1..], m - 1);
    }
  }

  lemma TailOfRest(data: string, m: nat)
    requires m <= LineLength(data)
    ensures LineLength(data) < |data| ==> TailLength(data[m..]) == TailLength(data)
    ensures LineLength(data) == |data| ==> TailLength(data[m..]) == |data| - m && TailLength(data) == |data|
  {
    var k := LineLength(data);
    if k < |data| {
      assert data[m..][k - m] == '\n';
      TailDrop(data, m);
    } else {
      LineHasNoNewline(data);
      assert data[..k] == data;
    }
  }

  lemma {:induction false} TailAfterNewline(data: string, k: nat)
    requires k < |data| && data[k] == '\n'
    ensures TailLength(data[k + 1..]) == TailLength(data)
  {
    assert '\n' in data;
    if k > 0 {
      TailAfterNewline(data[1..], k - 1);
      assert data[1..][k..] == data[k + 1..];
    }
  }

  /** Text is aligned if and only if its open last line is a multiple of max long, in particular if it is empty. */
  lemma {:induction false} AlignedIsMultiple(data: string, max: nat)
    requires max >= 1
    ensures Aligned(data, max) <==> TailLength(data) % max == 0
    decreases |data|
  {
    var k := LineLength(data);
    if data == "" {
      DivSmall(0, max);
    } else if k >= max {
      AlignedIsMultiple(data[max..], max);
      TailOfRest(data, max);
      if k == |data| {
        DivStep(k - max, max);
      }
    } else if k < |data| {
      AlignedIsMultiple(data[k + 1..], max);
      TailAfterNewline(data, k);
    } else {
      TailOfRest(data, 0);
      DivSmall(k, max);
    }
  }

  lemma LineLengthOfConcat(a: string, b: string)
    ensures LineLength(a) < |a| ==> LineLength(a + b) == LineLength(a)
    ensures LineLength(a) == |a| ==> LineLength(a + b) == |a| + LineLength(b)
  {
    var k := LineLength(a);
    LineHasNoNewline(a);
    if k < |a| {
      assert (a + b)[..k] == a[..k];
      LineLengthIs(a + b, k);
    } else {
      var j := LineLength(b);
      LineHasNoNewline(b);
      assert (a + b)[..k + j] == a[..k] + b[..j];
      LineLengthIs(a + b, k + j);
    }
  }

  /** Text that is not aligned ends in a partial chunk, behind an aligned part. */
  lemma {:induction false} SplitPartialChunk(text: string, max: nat) returns (head: string, tail: string)
    requires max >= 1 && !Aligned(text, max)
    ensures text == head + tail && Aligned(head, max)
    ensures '\n' !in tail && 0 < |tail| < max
    decreases |text|
  {
    var k := LineLength(text);
    LineHasNoNewline(text);
    if k < max && k == |text| {
      head, tail := "", text;
      assert text[..k] == text;
    } else {
      var m := if k >= max then max else k + 1;
      var h;
      h, tail := SplitPartialChunk(text[m..], max);
      head := text[..m] + h;
      AlignedBehind(text, m, h, max);
      Regroup(text, m, h, tail);
    }
  }

  lemma Regroup(text: string, m: nat, b: string, c: string)
    requires m <= |text| && text[m..] == b + c
    ensures text == text[..m] + b + c
  {
    assert text == text[..m] + text[m..];
  }

  lemma AlignedBehind(text: string, m: nat, h: string, max: nat)
    requires max >= 1 && Aligned(h, max)
    requires var k := LineLength(text); if k >= max then m == max else k < |text| && m == k + 1
    ensures Aligned(text[..m] + h, max)
  {
    var k := LineLength(text);
    var data := text[..m] + h;
    LineHasNoNewline(text);
    assert data[m..] == h;
    if k >= max {
      assert data[..m] == text[..k][..m];
      LongLine(data, m);
    } else {
      assert data[..k] == text[..k];
      LineLengthIs(data, k);
    }
  }

  lemma LineAlone(a: string, max: nat, k: nat, rest: string)
    requires k == LineLength(a) && k < max && k < |a| && rest == a[k + 1..]
    ensures ReadAll(a, max) == [a[..k]] + ReadAll(rest, max)
  {
    LineRead(a, max, k);
  }

  lemma LineRead(a: string, max: nat, k: nat)
    requires k == LineLength(a) && k < max && k < |a|
    ensures NextLine(a, false, max) == Text(a[..k]) && Rest(a, max) == a[k + 1..]
  {
  }

  lemma ChunkStep(a: string, b: string, max: nat)
    requires max >= 1 && LineLength(a) >= max
    ensures ReadAll(a + b, max) == [a[..max]] + ReadAll(a[max..] + b, max)
  {
    LineLengthOfConcat(a, b);
    assert (a + b)[..max] == a[..max] && (a + b)[max..] == a[max..] + b;
    FirstChunk(a + b, max);
  }

  lemma LineStep(a: string, b: string, max: nat, k: nat, rest: string)
    requires k == LineLength(a) && k < max && k < |a| && rest == a[k + 1..]
    ensures ReadAll(a + b, max) == [a[..k]] + ReadAll(rest + b, max)
  {
    var line := a[..k];
    LineHasNoNewline(a);
    assert a == line + "\n" + rest;
    assert a + b == line + "\n" + (rest + b);
    FirstLine(line, rest + b, max);
  }

  /**
   Text written after aligned text is read as if it stood alone.
   */
  lemma {:induction false} ReadAllConcat(a: string, b: string, max: nat)
    requires max >= 1 && Aligned(a, max)
    ensures ReadAll(a + b, max) == ReadAll(a, max) + ReadAll(b, max)
    decreases |a|, 2
  {
    if a == "" {
      assert a + b == b;
    } else if LineLength(a) >= max {
      ConcatAfterChunk(a, b, max);
    } else {
      ConcatAfterLine(a, b, max);
    }
  }

  lemma Splice<T>(x: T, ys: seq<T>, zs: seq<T>, whole: seq<T>, first: seq<T>, rest: seq<T>)
    requires whole == [x] + rest && first == [x] + ys && rest == ys + zs
    ensures whole == first + zs
  {
  }

  lemma {:induction false} ConcatAfterChunk(a: string, b: string, max: nat)
    requires max >= 1 && Aligned(a, max) && LineLength(a) >= max
    ensures ReadAll(a + b, max) == ReadAll(a, max) + ReadAll(b, max)
    decreases |a|, 0
  {
    var rest := a[max..];
    ReadAllConcat(rest, b, max);
    ChunkStep(a, b, max);
    FirstChunk(a, max);
    Splice(a[..max], ReadAll(rest, max), ReadAll(b, max), ReadAll(a + b, max), ReadAll(a, max), ReadAll(rest + b, max));
  }

  lemma {:induction false} ConcatAfterLine(a: string, b: string, max: nat)
    requires max >= 1 && Aligned(a, max) && LineLength(a) < max && a != ""
    ensures ReadAll(a + b, max) == ReadAll(a, max) + ReadAll(b, max)
    decreases |a|, 1
  {
    AlignedRest(a, max);
    ConcatAfterLineStep(a, b, max, LineLength(a), a[LineLength(a) + 1..]);
  }

  lemma {:induction false} ConcatAfterLineStep(a: string, b: string, max: nat, k: nat, rest: string)
    requires max >= 1 && k == LineLength(a) && k < max && k < |a| && rest == a[k + 1..] && Aligned(rest, max)
    ensures ReadAll(a + b, max) == ReadAll(a, max) + ReadAll(b, max)
    decreases |a|, 0
  {
    ReadAllConcat(rest, b, max);
    JoinAfterLine(a, b, max, k, rest, ReadAll(rest, max), ReadAll(b, max));
  }

  lemma AlignedRest(a: string, max: nat)
    requires max >= 1 && Aligned(a, max) && LineLength(a) < max && a != ""
    ensures LineLength(a) < |a| && Aligned(a[LineLength(a) + 1..], max)
  {
  }

  lemma JoinAfterLine(a: string, b: string, max: nat, k: nat, rest: string, ys: seq<string>, zs: seq<string>)
    requires k == LineLength(a) && k < max && k < |a| && rest == a[k + 1..]
    requires ReadAll(rest + b, max) == ys + zs && ReadAll(rest, max) == ys
    ensures ReadAll(a + b, max) == ReadAll(a, max) + zs
  {
    LineStep(a, b, max, k, rest);
    LineAlone(a, max, k, rest);
    Splice(a[..k], ys, zs, ReadAll(a + b, max), ReadAll(a, max), ys + zs);
  }

  // ---------- framing ----------

  /** What the commands look like on the wire: each is followed by a newline. */
  function Frames(cmds: seq<string>): string {
    if cmds == [] then "" else cmds[0] + "\n" + Frames(cmds[1..])
  }

  lemma {:induction false} FramesConcat(a: seq<string>, b: seq<string>)
    ensures Frames(a + b) == Frames(a) + Frames(b)
  {
    if a == [] {
      assert a + b == b;
    } else {
      assert (a + b)[1..] == a[1..] + b;
      FramesConcat(a[1..], b);
      assert a[0] + "\n" + (Frames(a[1..]) + Frames(b)) == a[0] + "\n" + Frames(a[1..]) + Frames(b);
    }
  }

  /** Framed commands that are shorter than max come back as they were, in order, empty ones included. */
  lemma {:induction false} FramesComeBack(cmds: seq<string>, max: nat)
    requires max >= 1 && forall c :: c in cmds ==> '\n' !in c && |c| < max
    ensures ReadAll(Frames(cmds), max) == cmds
  {
    if cmds != [] {
      FramesComeBack(cmds[1..], max);
      FirstLine(cmds[0], Frames(cmds[1..]), max);
    }
  }

  lemma LongFrame(cmd: string, rest: string, max: nat)
    requires max >= 1 && '\n' !in cmd && |cmd| >= max
    ensures |ReadAll(cmd + "\n" + rest, max)| > 1 + |ReadAll(rest, max)|
  {
    TerminatedLine(cmd, rest, max);
    assert LineCalls(|cmd| - max, max, true) >= 1;
  }

  lemma {:induction false} LongFrameSplits(cmds: seq<string>, max: nat)
    requires max >= 1 && forall c :: c in cmds ==> '\n' !in c
    ensures |ReadAll(Frames(cmds), max)| >= |cmds|
    ensures (exists c :: c in cmds && |c| >= max) ==> |ReadAll(Frames(cmds), max)| > |cmds|
  {
    if cmds != [] {
      var c, rest := cmds[0], Frames(cmds[1..]);
      LongFrameSplits(cmds[1..], max);
      if |c| < max {
        FirstLine(c, rest, max);
        assert forall d :: d in cmds && |d| >= max ==> d in cmds[1..];
      } else {
        LongFrame(c, rest, max);
      }
    }
  }

  /** Framing is lossless exactly when every command is shorter than the reader's bound. */
  lemma FramingRoundTrip(cmds: seq<string>, max: nat)
    requires max >= 1 && forall c :: c in cmds ==> '\n' !in c
    ensures ReadAll(Frames(cmds), max) == cmds <==> forall c :: c in cmds ==> |c| < max
  {
    if forall c :: c in cmds ==> |c| < max {
      FramesComeBack(cmds, max);
    } else {
      LongFrameSplits(cmds, max);
    }
  }
}
