/**
 The pager of the shell (rsshell.cc): a file is shown vsize lines at a time, cut to hsize columns, with a
 prompt after each page.
 */
module Pager {
  import opened CStrings
  import opened Tokenizer
  import opened LineReader

  datatype Output = Shown(text: string) | Prompt

  function Cut(s: string, hsize: nat): string {
    if |s| > hsize then s[..hsize] else s
  }

  /** What is printed of a chunk: up to its first NUL, and at most hsize characters. */
  function Trim(chunk: string, hsize: nat): string {
    Cut(CStringAt(chunk, 0), hsize)
  }

  predicate IsYes(s: string) {
    s != "" && s[0] == ' '
  }

  /**
   Whether the user goes on at prompt p. The answer is read into the line buffer; when the input has ended the
   buffer still holds the line printed last.
   */
  predicate GoesOn(answers: seq<string>, p: nat, last: string) {
    if p < |answers| then IsYes(answers[p]) else IsYes(last)
  }

  function Show(chunks: seq<string>, hsize: nat): (out: seq<Output>)
    ensures |out| == |chunks|
  {
    if chunks == [] then [] else [Shown(Trim(chunks[0], hsize))] + Show(chunks[1..], hsize)
  }

  /** The session from page p on: full pages are followed by a prompt, a last short page is not. */
  function View(chunks: seq<string>, hsize: nat, vsize: nat, answers: seq<string>, p: nat): seq<Output>
    requires vsize >= 1
  {
    if |chunks| < vsize then Show(chunks, hsize)
    else
      Show(chunks[..vsize], hsize) + [Prompt] +
      if GoesOn(answers, p, Trim(chunks[vsize - 1], hsize)) then View(chunks[vsize..], hsize, vsize, answers, p + 1) else []
  }

  // ---------- the loop ----------

  lemma {:induction false} ShowSnoc(chunks: seq<string>, i: nat, hsize: nat)
    requires i < |chunks|
    ensures Show(chunks[..i + 1], hsize) == Show(chunks[..i], hsize) + [Shown(Trim(chunks[i], hsize))]
  {
    if i == 0 {
      assert chunks[..1][1..] == [];
    } else {
      ShowSnoc(chunks[1..], i - 1, hsize);
      assert chunks[..i + 1][1..] == chunks[1..][..i] && chunks[..i][1..] == chunks[1..][..i - 1];
    }
  }

  /** Ends the line at the width of the screen, if it is longer. */
  method CutLine(line: array<char>, hsize: nat)
    requires hsize < line.Length
    modifies line
    ensures CStringAt(line[..], 0) == Cut(old(CStringAt(line[..], 0)), hsize)
  {
    ghost var s := CStringAt(line[..], 0);
    ghost var before := line[..];
    line[hsize] := NUL;
    ghost var t := Cut(s, hsize);
    assert before[0..|t|] == t;
    assert line[..][0..|t|] == t;
    CStringIs(line[..], 0, t);
  }

  /** Reads the next chunk; the line that is printed is what the buffer holds after it was cut. */
  method NextShown(fd: ByteStream, line: array<char>, hsize: nat, ghost rest: seq<string>) returns (n: int)
    requires line.Length == hsize + 257 && !fd.broken
    requires ReadAll(fd.pending, hsize + 256) == rest
    modifies fd, line
    ensures n < 0 <==> rest == []
    ensures rest != [] ==> ReadAll(fd.pending, hsize + 256) == rest[1..] && CStringAt(line[..], 0) == Trim(rest[0], hsize)
  {
    n := Readline(fd, line, hsize + 256);
    if n >= 0 {
      assert line[..][..n] == rest[0];
      CutAtNul(line[..], n, 0);
      CutLine(line, hsize);
    }
  }

  /** One page: vsize lines, unless the file ends before; at the end the buffer holds the line printed last. */
  method ShowPage(fd: ByteStream, line: array<char>, hsize: nat, vsize: nat, ghost rest: seq<string>)
    returns (out: seq<Output>, ended: bool)
    requires line.Length == hsize + 257 && !fd.broken && vsize >= 1
    requires ReadAll(fd.pending, hsize + 256) == rest
    modifies fd, line
    ensures ended <==> |rest| < vsize
    ensures ended ==> out == Show(rest, hsize)
    ensures !ended ==> out == Show(rest[..vsize], hsize) && ReadAll(fd.pending, hsize + 256) == rest[vsize..]
                       && CStringAt(line[..], 0) == Trim(rest[vsize - 1], hsize)
  {
    out := [];
    var i := 0;
    while i < vsize
      invariant i <= vsize && i <= |rest|
      invariant ReadAll(fd.pending, hsize + 256) == rest[i..]
      invariant out == Show(rest[..i], hsize)
      invariant i > 0 ==> CStringAt(line[..], 0) == Trim(rest[i - 1], hsize)
    {
      var n := NextShown(fd, line, hsize, rest[i..]);
      if n < 0 {
        assert rest[..i] == rest;
        return out, true;
      }
      ShowSnoc(rest, i, hsize);
      assert rest[i..][1..] == rest[i + 1..];
      out := out + [Shown(CStringAt(line[..], 0))];
      i := i + 1;
    }
    ended := false;
  }

  /** Reads an answer into the line buffer, which stays as it is at the end of the input, and tests its first byte. */
  method ReadAnswer(line: array<char>, answers: seq<string>, p: nat) returns (goOn: bool)
    requires line.Length > 0 && forall a :: a in answers ==> a != ""
    modifies line
    ensures goOn == GoesOn(answers, p, old(CStringAt(line[..], 0)))
  {
    if p < |answers| {
      assert answers[p] in answers;
      line[0] := answers[p][0];
    }
    goOn := !(line[0] != ' ');
  }

  lemma ViewStep(out: seq<Output>, page: seq<Output>, more: seq<Output>, whole: seq<Output>)
    requires whole == out + (page + [Prompt] + more)
    ensures whole == out + page + [Prompt] + more
  {
  }

  /** do_more, on a file that opened; answers are what fgets reads from the user. */
  method DoMore(fd: ByteStream, hsize: nat, vsize: nat, answers: seq<string>) returns (out: seq<Output>)
    requires !fd.broken && vsize >= 1
    requires forall a :: a in answers ==> a != ""
    modifies fd
    ensures out == View(ReadAll(old(fd.pending), hsize + 256), hsize, vsize, answers, 0)
  {
    ghost var rest := ReadAll(fd.pending, hsize + 256);
    ghost var whole := View(rest, hsize, vsize, answers, 0);
    var line := new char[hsize + 257];
    var p := 0;
    out := [];
    while true
      invariant ReadAll(fd.pending, hsize + 256) == rest
      invariant whole == out + View(rest, hsize, vsize, answers, p)
      decreases |rest|
    {
      var page, ended := ShowPage(fd, line, hsize, vsize, rest);
      if ended {
        out := out + page;
        return;
      }
      ghost var last := CStringAt(line[..], 0);
      ghost var more := if GoesOn(answers, p, last) then View(rest[vsize..], hsize, vsize, answers, p + 1) else [];
      ViewStep(out, page, more, whole);
      out := out + page + [Prompt];
      var goOn := ReadAnswer(line, answers, p);
      if !goOn {
        assert out + [] == out;
        return;
      }
      p := p + 1;
      rest := rest[vsize..];
    }
  }

  // ---------- what a session amounts to ----------

  function ShownLines(out: seq<Output>): seq<string> {
    if out == [] then []
    else (if out[0].Shown? then [out[0].text] else []) + ShownLines(out[1..])
  }

  function Prompts(out: seq<Output>): nat {
    if out == [] then 0 else (if out[0].Prompt? then 1 else 0) + Prompts(out[1..])
  }

  function TrimAll(chunks: seq<string>, hsize: nat): (lines: seq<string>)
    ensures |lines| == |chunks| && forall i :: 0 <= i < |chunks| ==> lines[i] == Trim(chunks[i], hsize)
  {
    if chunks == [] then [] else [Trim(chunks[0], hsize)] + TrimAll(chunks[1..], hsize)
  }

  lemma {:induction false} ShownConcat(a: seq<Output>, b: seq<Output>)
    ensures ShownLines(a + b) == ShownLines(a) + ShownLines(b)
  {
    if a == [] {
      assert a + b == b;
    } else {
      assert (a + b)[1..] == a[1..] + b;
      ShownConcat(a[1..], b);
    }
  }

  lemma {:induction false} PromptsConcat(a: seq<Output>, b: seq<Output>)
    ensures Prompts(a + b) == Prompts(a) + Prompts(b)
  {
    if a == [] {
      assert a + b == b;
    } else {
      assert (a + b)[1..] == a[1..] + b;
      PromptsConcat(a[1..], b);
    }
  }

  lemma OutConcat(a: seq<Output>, b: seq<Output>)
    ensures ShownLines(a + b) == ShownLines(a) + ShownLines(b)
    ensures Prompts(a + b) == Prompts(a) + Prompts(b)
  {
    ShownConcat(a, b);
    PromptsConcat(a, b);
  }

  lemma {:induction false} ShowOut(chunks: seq<string>, hsize: nat)
    ensures ShownLines(Show(chunks, hsize)) == TrimAll(chunks, hsize) && Prompts(Show(chunks, hsize)) == 0
  {
    if chunks != [] {
      ShowOut(chunks[1..], hsize);
      var first, rest := [Shown(Trim(chunks[0], hsize))], Show(chunks[1..], hsize);
      assert (first + rest)[1..] == rest;
    }
  }

  lemma PageOut(chunks: seq<string>, hsize: nat, more: seq<Output>)
    ensures ShownLines(Show(chunks, hsize) + [Prompt] + more) == TrimAll(chunks, hsize) + ShownLines(more)
    ensures Prompts(Show(chunks, hsize) + [Prompt] + more) == 1 + Prompts(more)
  {
    ShowOut(chunks, hsize);
    OutConcat(Show(chunks, hsize), [Prompt]);
    OutConcat(Show(chunks, hsize) + [Prompt], more);
    assert [Prompt][1..] == [];
  }

  lemma TrimSplit(chunks: seq<string>, n: nat, m: nat, hsize: nat)
    requires n <= |chunks| && m <= |chunks[n..]|
    ensures TrimAll(chunks[..n], hsize) + TrimAll(chunks[n..][..m], hsize) == TrimAll(chunks[..n + m], hsize)
  {
  }

  /** Each line is as much of the C string in its chunk as fits into hsize columns. */
  ghost predicate AreColumns(lines: seq<string>, chunks: seq<string>, hsize: nat) {
    |lines| == |chunks| &&
    forall i :: 0 <= i < |chunks| ==>
      var c := CStringAt(chunks[i], 0);
      lines[i] <= c && |lines[i]| == if |c| < hsize then |c| else hsize
  }

  lemma TrimmedAreColumns(chunks: seq<string>, hsize: nat)
    ensures AreColumns(TrimAll(chunks, hsize), chunks, hsize)
  {
  }

  lemma {:induction false} PatientUser(chunks: seq<string>, hsize: nat, vsize: nat, answers: seq<string>, p: nat)
    requires vsize >= 1 && p + |chunks| / vsize <= |answers| && forall a :: a in answers ==> IsYes(a)
    ensures ShownLines(View(chunks, hsize, vsize, answers, p)) == TrimAll(chunks, hsize)
    ensures Prompts(View(chunks, hsize, vsize, answers, p)) == |chunks| / vsize
    decreases |chunks|
  {
    if |chunks| < vsize {
      DivSmall(|chunks|, vsize);
      ShowOut(chunks, hsize);
    } else {
      var rest := chunks[vsize..];
      DivStep(|rest|, vsize);
      PatientUser(rest, hsize, vsize, answers, p + 1);
      assert answers[p] in answers;
      PageOut(chunks[..vsize], hsize, View(rest, hsize, vsize, answers, p + 1));
      TrimSplit(chunks, vsize, |rest|, hsize);
      assert rest[..|rest|] == rest && chunks[..vsize + |rest|] == chunks;
    }
  }

  /**
   A user who answers every prompt with a blank sees every chunk once and in order, as much of it as fits, with
   exactly floor(N / vsize) prompts for N chunks.
   */
  lemma PatientUserSeesAll(chunks: seq<string>, hsize: nat, vsize: nat, answers: seq<string>)
    requires vsize >= 1 && |chunks| / vsize <= |answers| && forall a :: a in answers ==> a != "" && a[0] == ' '
    ensures AreColumns(ShownLines(View(chunks, hsize, vsize, answers, 0)), chunks, hsize)
    ensures Prompts(View(chunks, hsize, vsize, answers, 0)) == |chunks| / vsize
  {
    PatientUser(chunks, hsize, vsize, answers, 0);
    TrimmedAreColumns(chunks, hsize);
  }

  /** The number of lines on n + 1 pages. */
  function PageLines(n: nat, vsize: nat): nat {
    if n == 0 then vsize else vsize + PageLines(n - 1, vsize)
  }

  lemma {:induction false} PageLinesIsProduct(n: nat, vsize: nat)
    ensures PageLines(n, vsize) == (n + 1) * vsize
  {
    if n > 0 {
      PageLinesIsProduct(n - 1, vsize);
      Distribute(n, 1, vsize);
    }
  }

  lemma {:induction false} StopAfterPages(chunks: seq<string>, hsize: nat, vsize: nat, answers: seq<string>,
                                          p: nat, n: nat)
    requires vsize >= 1 && PageLines(n, vsize) <= |chunks| && p + n < |answers|
    requires (forall q :: p <= q < p + n ==> IsYes(answers[q])) && !IsYes(answers[p + n])
    ensures Prompts(View(chunks, hsize, vsize, answers, p)) == n + 1
    ensures ShownLines(View(chunks, hsize, vsize, answers, p)) == TrimAll(chunks[..PageLines(n, vsize)], hsize)
    decreases n
  {
    if n == 0 {
      PageOut(chunks[..vsize], hsize, []);
    } else {
      var rest, more := chunks[vsize..], PageLines(n - 1, vsize);
      StopAfterPages(rest, hsize, vsize, answers, p + 1, n - 1);
      PageOut(chunks[..vsize], hsize, View(rest, hsize, vsize, answers, p + 1));
      TrimSplit(chunks, vsize, more, hsize);
      assert PageLines(n, vsize) == vsize + more;
    }
  }

  /** A user who goes on n times and then does not answer with a blank sees exactly n + 1 pages and n + 1 prompts. */
  lemma StoppingShowsWholePages(chunks: seq<string>, hsize: nat, vsize: nat, answers: seq<string>, n: nat)
    requires vsize >= 1 && (n + 1) * vsize <= |chunks| && n < |answers|
    requires (forall q :: 0 <= q < n ==> answers[q] != "" && answers[q][0] == ' ')
    requires answers[n] == "" || answers[n][0] != ' '
    ensures Prompts(View(chunks, hsize, vsize, answers, 0)) == n + 1
    ensures AreColumns(ShownLines(View(chunks, hsize, vsize, answers, 0)), chunks[..(n + 1) * vsize], hsize)
  {
    PageLinesIsProduct(n, vsize);
    StopAfterPages(chunks, hsize, vsize, answers, 0, n);
    TrimmedAreColumns(chunks[..PageLines(n, vsize)], hsize);
  }

  /**
   When the input of the user has ended, the line printed last is taken for the answer: the session goes on to the
   next page exactly if that line starts with a blank and there is a column to show it in.
   */
  lemma EndedInputGoesOn(chunks: seq<string>, hsize: nat, vsize: nat, answers: seq<string>, p: nat)
    requires 1 <= vsize <= |chunks| && |answers| <= p
    ensures var c, out := CStringAt(chunks[vsize - 1], 0), View(chunks, hsize, vsize, answers, p);
            var next := View(chunks[vsize..], hsize, vsize, answers, p + 1);
            exists page: seq<string> :: AreColumns(page, chunks[..vsize], hsize) &&
              if c != "" && c[0] == ' ' && hsize >= 1
              then ShownLines(out) == page + ShownLines(next) && Prompts(out) == 1 + Prompts(next)
              else ShownLines(out) == page && Prompts(out) == 1
  {
    var next := View(chunks[vsize..], hsize, vsize, answers, p + 1);
    var more := if GoesOn(answers, p, Trim(chunks[vsize - 1], hsize)) then next else [];
    PageOut(chunks[..vsize], hsize, more);
    TrimmedAreColumns(chunks[..vsize], hsize);
    var page := TrimAll(chunks[..vsize], hsize);
    assert page + [] == page;
  }

  lemma {:induction false} ShowHasNoPrompt(chunks: seq<string>, hsize: nat)
    ensures forall i :: 0 <= i < |chunks| ==> Show(chunks, hsize)[i].Shown?
  {
    if chunks != [] {
      ShowHasNoPrompt(chunks[1..], hsize);
    }
  }

  /** Whatever the answers are, the prompts are behind each vsize lines, and nowhere else. */
  lemma {:induction false} PromptsEndPages(chunks: seq<string>, hsize: nat, vsize: nat, answers: seq<string>, p: nat,
                                           i: nat)
    requires vsize >= 1 && i < |View(chunks, hsize, vsize, answers, p)|
    ensures View(chunks, hsize, vsize, answers, p)[i].Prompt? <==> i % (vsize + 1) == vsize
    decreases i
  {
    if |chunks| < vsize {
      ShowHasNoPrompt(chunks, hsize);
      DivSmall(i, vsize + 1);
    } else if i <= vsize {
      ShowHasNoPrompt(chunks[..vsize], hsize);
      DivSmall(i, vsize + 1);
    } else {
      var j := i - (vsize + 1);
      PromptsEndPages(chunks[vsize..], hsize, vsize, answers, p + 1, j);
      DivStep(j, vsize + 1);
    }
  }
}
