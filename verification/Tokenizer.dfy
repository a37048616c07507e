/**
 The in-place tokenizer (file_server/tokenize.cc). It overwrites blanks with NULs and stores pointers
 into the string; pointers are offsets here.
 */
module Tokenizer {
  import opened CStrings

  predicate BlankFree(s: string) {
    ' ' !in s
  }

  // ---------- what the tokens of a string are, independently of the loop ----------

  /** The length of the longest blank-free prefix. */
  function WordLength(s: string): (k: nat)
    ensures k <= |s| && BlankFree(s[..k])
    ensures k < |s| ==> s[k] == ' '
  {
    if s == "" || s[0] == ' ' then 0 else 1 + WordLength(s[1..])
  }

  /** The maximal blank-free words of s, in order. */
  function Words(s: string): (ws: seq<string>)
    ensures forall w :: w in ws ==> w != "" && BlankFree(w)
    decreases |s|
  {
    if s == "" then []
    else if s[0] == ' ' then Words(s[1..])
    else
      var k := WordLength(s);
      [s[..k]] + Words(s[k..])
  }

  /** The tokens: the words, after one empty token when s is empty or starts with a blank. */
  function Tokens(s: string): (ts: seq<string>)
    ensures ts != []
    ensures forall k :: 1 <= k < |ts| ==> ts[k] != "" && BlankFree(ts[k])
  {
    var ws := Words(s);
    assert forall k :: 0 <= k < |ws| ==> ws[k] in ws;
    if s == "" || s[0] == ' ' then [""] + ws else ws
  }

  /** The tokens of a line in a buffer: what comes after its first NUL does not count. */
  function LineTokens(line: string): (ts: seq<string>)
    ensures ts != []
  {
    Tokens(CStringAt(line, 0))
  }

  // ---------- what the tokenizer leaves in memory ----------

  /** The offset k holds the first blank of a run of blanks. */
  predicate FirstBlank(s: string, k: nat)
    requires k < |s|
  {
    s[k] == ' ' && (k == 0 || s[k - 1] != ' ')
  }

  /** The offset k starts a word that comes after a blank. */
  predicate WordStart(s: string, k: nat)
    requires k < |s|
  {
    k > 0 && s[k] != ' ' && s[k - 1] == ' '
  }

  function MarkedByte(s: string, k: nat): char
    requires k < |s|
  {
    if FirstBlank(s, k) then NUL else s[k]
  }

  /** s with the first blank of each run, and nothing else, overwritten by NUL. */
  function Marked(s: string): (m: string)
    ensures |m| == |s|
  {
    seq(|s|, k requires 0 <= k < |s| => MarkedByte(s, k))
  }

  /** The offsets at or after `from` that start a word, in increasing order. */
  function StartsFrom(s: string, from: nat): (ps: seq<nat>)
    ensures forall j :: 0 <= j < |ps| ==> ps[j] <= |s|
    decreases |s| - from
  {
    if from >= |s| then []
    else if WordStart(s, from) then [from] + StartsFrom(s, from + 1)
    else StartsFrom(s, from + 1)
  }

  /** The pointers the tokenizer stores. */
  function Pointers(s: string): (ps: seq<nat>)
    ensures ps != [] && forall j :: 0 <= j < |ps| ==> ps[j] <= |s|
  {
    [0] + StartsFrom(s, 1)
  }

  /** Besides the pointer to the start, exactly the word starts are stored, in strictly increasing order. */
  lemma {:induction false} StartsAreIncreasing(s: string, from: nat)
    ensures forall k :: k in StartsFrom(s, from) <==> from <= k < |s| && WordStart(s, k)
    ensures forall i, j :: 0 <= i < j < |StartsFrom(s, from)| ==> StartsFrom(s, from)[i] < StartsFrom(s, from)[j]
    decreases |s| - from
  {
    if from < |s| {
      var rest := StartsFrom(s, from + 1);
      StartsAreIncreasing(s, from + 1);
      assert forall j :: 0 <= j < |rest| ==> rest[j] in rest;
    }
  }

  /** The C strings that a block of memory holds at the given pointers. */
  function StringsAt(mem: string, ps: seq<nat>): (ts: seq<string>)
    requires forall j :: 0 <= j < |ps| ==> ps[j] <= |mem|
    ensures |ts| == |ps|
  {
    if ps == [] then [] else [CStringAt(mem, ps[0])] + StringsAt(mem, ps[1..])
  }

  lemma {:induction false} StringAtIndex(mem: string, ps: seq<nat>, j: nat)
    requires j < |ps| && forall i :: 0 <= i < |ps| ==> ps[i] <= |mem|
    ensures StringsAt(mem, ps)[j] == CStringAt(mem, ps[j])
  {
    if j > 0 {
      StringAtIndex(mem, ps[1..], j - 1);
    }
  }

  lemma OneMoreStart(done: seq<nat>, i: nat, rest: seq<nat>)
    ensures done + ([i] + rest) == (done + [i]) + rest
  {
  }

  /** The loops of str_tokenize; the contract says byte for byte, and pointer for pointer, what they leave. */
  method Scan(str: array<char>, tokens: array<nat>, n: nat, ghost s: string) returns (tokSize: nat)
    requires n <= str.Length && |s| == n && forall k :: 0 <= k < n ==> str[k] == s[k]
    requires |Pointers(s)| <= tokens.Length
    modifies str, tokens
    ensures forall k :: 0 <= k < n ==> str[k] == MarkedByte(s, k)
    ensures forall k :: n <= k < str.Length ==> str[k] == old(str[k])
    ensures tokSize == |Pointers(s)| && forall k :: 0 <= k < tokSize ==> tokens[k] == Pointers(s)[k]
    ensures forall k :: tokSize <= k < tokens.Length ==> tokens[k] == old(tokens[k])
  {
    ghost var ps, done := Pointers(s), [0];
    tokSize := 1;
    tokens[0] := 0;
    var i := 0;
    while i < n
      invariant i <= n
      invariant tokSize == |done| <= |ps|
      invariant forall k :: 0 <= k < tokSize ==> tokens[k] == done[k]
      invariant done + StartsFrom(s, i + 1) == ps
      invariant forall k :: 0 <= k < i ==> str[k] == MarkedByte(s, k)
      invariant forall k :: i <= k < str.Length ==> str[k] == old(str[k])
      invariant forall k :: tokSize <= k < tokens.Length ==> tokens[k] == old(tokens[k])
      invariant i < n && s[i] == ' ' ==> FirstBlank(s, i)
    {
      if str[i] == ' ' {
        str[i] := NUL;
        i := i + 1;
        while i < n && str[i] == ' '
          invariant 1 <= i <= n && s[i - 1] == ' '
          invariant done + StartsFrom(s, i) == ps
          invariant forall k :: 0 <= k < i ==> str[k] == MarkedByte(s, k)
          invariant forall k :: i <= k < str.Length ==> str[k] == old(str[k])
        {
          i := i + 1;
        }
        if i < n {
          OneMoreStart(done, i, StartsFrom(s, i + 1));
          tokens[tokSize] := i;
          tokSize := tokSize + 1;
          done := done + [i];
        }
      } else {
        i := i + 1;
      }
    }
  }

  /** str_tokenize: the caller owes a tokens array with room for every token, and nothing else. */
  method StrTokenize(str: array<char>, tokens: array<nat>, n: nat) returns (tokSize: nat)
    requires n <= str.Length
    requires |Pointers(str[..n])| <= tokens.Length
    modifies str, tokens
    ensures str[..n] == Marked(old(str[..n]))
    ensures str[n..] == old(str[n..])
    ensures tokSize == |Pointers(old(str[..n]))|
    ensures tokens[..tokSize] == Pointers(old(str[..n]))
    ensures tokens[tokSize..] == old(tokens[tokSize..])
  {
    tokSize := Scan(str, tokens, n, str[..n]);
  }

  /** A word is left as it is, and of the run of blanks behind it the first is replaced and the others are left. */
  lemma MarkedRun(w: string, n: nat, rest: string)
    requires w != "" && BlankFree(w) && n >= 1 && (rest == "" || rest[0] != ' ')
    ensures Marked(w) == w
    ensures Marked(w + (Blanks(n) + rest)) == w + ([NUL] + Blanks(n - 1) + Marked(rest))
  {
    var s := w + (Blanks(n) + rest);
    forall k | 0 <= k < |rest| ensures Marked(s)[|w| + n + k] == Marked(rest)[k] {
      assert s[|w| + n + k] == rest[k];
      assert k > 0 ==> s[|w| + n + k - 1] == rest[k - 1];
    }
    forall k | |w| <= k < |w| + n ensures Marked(s)[k] == if k == |w| then NUL else ' ' {
      assert s[k] == ' ' && (k > |w| ==> s[k - 1] == ' ');
      assert s[|w| - 1] == w[|w| - 1] && w[|w| - 1] in w;
    }
    forall k | 0 <= k < |w| ensures Marked(s)[k] == w[k] && Marked(w)[k] == w[k] {
      assert s[k] == w[k] && w[k] in w;
    }
  }

  /** So it is with a run at the start of the string. */
  lemma MarkedStart(n: nat, rest: string)
    requires n >= 1 && (rest == "" || rest[0] != ' ')
    ensures Marked(Blanks(n) + rest) == [NUL] + Blanks(n - 1) + Marked(rest)
  {
    var s := Blanks(n) + rest;
    forall k | 0 <= k < |rest| ensures Marked(s)[n + k] == Marked(rest)[k] {
      assert s[n + k] == rest[k];
      assert k > 0 ==> s[n + k - 1] == rest[k - 1];
    }
    forall k | 0 <= k < n ensures Marked(s)[k] == if k == 0 then NUL else ' ' {
      assert s[k] == ' ' && (k > 0 ==> s[k - 1] == ' ');
    }
  }

  // ---------- the two descriptions agree ----------

  /** In the marked string, the C string at the start of a word is that word. */
  lemma MarkedWord(s: string, p: nat)
    requires NUL !in s && p < |s| && s[p] != ' '
    requires p == 0 || s[p - 1] == ' '
    ensures CStringAt(Marked(s), p) == s[p..p + WordLength(s[p..])]
  {
    var k := WordLength(s[p..]);
    assert k > 0;
    forall j | p <= j < p + k ensures s[j] != ' ' && Marked(s)[j] == s[j] {
      assert s[p..][..k][j - p] == s[j];
    }
    assert p + k < |s| ==> s[p..][k] == ' ' && s[p + k - 1] != ' ';
    CStringIs(Marked(s), p, s[p..p + k]);
  }

  /** The first word of what is left at offset i. */
  lemma WordsStep(s: string, i: nat)
    requires i < |s| && s[i] != ' '
    ensures WordLength(s[i..]) == 1 + WordLength(s[i + 1..])
    ensures Words(s[i..]) == [s[i..i + WordLength(s[i..])]] + Words(s[i + WordLength(s[i..])..])
  {
    var k := WordLength(s[i..]);
    assert s[i..][1..] == s[i + 1..];
    assert s[i..][..k] == s[i..i + k] && s[i..][k..] == s[i + k..];
  }

  /** What is left at offset i, without the rest of a word that started before i and the blank behind it. */
  function AfterWord(s: string, i: nat): string
    requires 1 <= i <= |s|
    decreases |s| - i
  {
    if i == |s| || s[i - 1] == ' ' then s[i..] else AfterWord(s, i + 1)
  }

  lemma BlankAtStart(s: string)
    requires s != "" && s[0] == ' '
    ensures WordLength(s) == 0 && Words(s) == Words(s[1..])
  {
  }

  lemma {:induction false} AfterWordSkips(s: string, i: nat)
    requires 1 <= i <= |s| && s[i - 1] != ' '
    ensures Words(AfterWord(s, i)) == Words(s[i + WordLength(s[i..])..])
    decreases |s| - i
  {
    if i < |s| {
      assert s[i..][1..] == s[i + 1..];
      if s[i] == ' ' {
        BlankAtStart(s[i..]);
      } else {
        AfterWordSkips(s, i + 1);
      }
    }
  }

  lemma StringsCons(mem: string, p: nat, ps: seq<nat>)
    requires p <= |mem| && forall j :: 0 <= j < |ps| ==> ps[j] <= |mem|
    ensures forall j :: 0 <= j <= |ps| ==> ([p] + ps)[j] <= |mem|
    ensures StringsAt(mem, [p] + ps) == [CStringAt(mem, p)] + StringsAt(mem, ps)
  {
    assert ([p] + ps)[1..] == ps;
  }

  lemma RestAfterWord(s: string, i: nat)
    requires i < |s| && s[i] != ' '
    ensures Words(AfterWord(s, i + 1)) == Words(s[i + WordLength(s[i..])..])
  {
    assert s[i..][1..] == s[i + 1..];
    AfterWordSkips(s, i + 1);
  }

  lemma WordAtStart(s: string, i: nat)
    requires NUL !in s && i < |s| && s[i] != ' ' && (i == 0 || s[i - 1] == ' ')
    ensures Words(s[i..]) == [CStringAt(Marked(s), i)] + Words(AfterWord(s, i + 1))
  {
    WordsStep(s, i);
    RestAfterWord(s, i);
    MarkedWord(s, i);
  }

  lemma NoWordAtBlank(s: string, i: nat)
    requires i < |s| && s[i] == ' '
    ensures Words(s[i..]) == Words(s[i + 1..])
  {
    assert s[i..][1..] == s[i + 1..];
  }

  /** Reading the marked string at the word starts from offset i on gives the words from there on. */
  lemma {:induction false} WordsAtStarts(s: string, i: nat)
    requires NUL !in s && 1 <= i <= |s|
    ensures StringsAt(Marked(s), StartsFrom(s, i)) == Words(AfterWord(s, i))
    decreases |s| - i
  {
    if i < |s| {
      WordsAtStarts(s, i + 1);
      if s[i - 1] == ' ' {
        if s[i] == ' ' {
          NoWordAtBlank(s, i);
        } else {
          WordAtStart(s, i);
          StringsCons(Marked(s), i, StartsFrom(s, i + 1));
        }
      }
    }
  }

  /**
   Functional correctness of the tokenizer: the C strings found at the stored pointers, in the string
   as the tokenizer left it, are the tokens of the original string.
   */
  lemma TokenizerIsCorrect(s: string)
    requires NUL !in s
    ensures StringsAt(Marked(s), Pointers(s)) == Tokens(s)
  {
    if s != "" {
      WordsAtStarts(s, 1);
      StringsCons(Marked(s), 0, StartsFrom(s, 1));
      assert s[0..] == s;
      if s[0] == ' ' {
        NoWordAtBlank(s, 0);
      } else {
        WordAtStart(s, 0);
      }
    }
  }

  /** A block cut off at a NUL holds the same C strings as the block. */
  lemma {:induction false} CutAtNul(mem: string, n: nat, p: nat)
    requires p <= n <= |mem| && (n < |mem| ==> mem[n] == NUL)
    ensures CStringAt(mem, p) == CStringAt(mem[..n], p)
    decreases n - p
  {
    if p < n {
      CutAtNul(mem, n, p + 1);
    }
  }

  lemma {:induction false} StringsCutAtNul(mem: string, n: nat, ps: seq<nat>)
    requires n <= |mem| && (n < |mem| ==> mem[n] == NUL)
    requires forall j :: 0 <= j < |ps| ==> ps[j] <= n
    ensures StringsAt(mem, ps) == StringsAt(mem[..n], ps)
  {
    if ps != [] {
      CutAtNul(mem, n, ps[0]);
      StringsCutAtNul(mem, n, ps[1..]);
    }
  }

  /** The same, for a string that sits in a longer block and is followed there by a NUL or by nothing. */
  lemma TokensInBlock(s: string, mem: string)
    requires NUL !in s && |s| <= |mem| && mem[..|s|] == Marked(s)
    requires |s| < |mem| ==> mem[|s|] == NUL
    ensures StringsAt(mem, Pointers(s)) == Tokens(s)
  {
    TokenizerIsCorrect(s);
    StringsCutAtNul(mem, |s|, Pointers(s));
  }

  // ---------- how many tokens there can be ----------

  lemma {:induction false} StartsBound(s: string, i: nat)
    requires 1 <= i <= |s|
    ensures 2 * |StartsFrom(s, i)| <= |s| - i + (if s[i - 1] == ' ' then 1 else 0)
    decreases |s| - i
  {
    if i < |s| {
      StartsBound(s, i + 1);
    }
  }

  /** A string of length n has at most n / 2 + 1 tokens. */
  lemma TokenBound(s: string)
    ensures |Pointers(s)| <= |s| / 2 + 1
  {
    if s != "" {
      StartsBound(s, 1);
    }
  }

  /** "x x x ...": n bytes, a blank in every other place, ending in a word. */
  function Alternating(n: nat): (s: string)
    ensures |s| == n && NUL !in s
  {
    seq(n, i => if (n - i) % 2 == 1 then 'x' else ' ')
  }

  lemma {:induction false} AlternatingStarts(n: nat, i: nat)
    requires 1 <= i <= n && (n - i) % 2 == 1
    ensures |StartsFrom(Alternating(n), i)| == (n - i) / 2 + 1
    decreases n - i
  {
    var s := Alternating(n);
    assert WordStart(s, i);
    if i + 1 < n {
      assert !WordStart(s, i + 1);
      AlternatingStarts(n, i + 2);
    }
  }

  /** The bound is attained for every length. */
  lemma TokenBoundIsTight(n: nat)
    ensures |Pointers(Alternating(n))| == n / 2 + 1
  {
    var s := Alternating(n);
    if n >= 2 {
      if n % 2 == 0 {
        AlternatingStarts(n, 1);
      } else {
        assert !WordStart(s, 1);
        AlternatingStarts(n, 2);
      }
    }
  }

  // ---------- words of concatenations ----------

  lemma {:induction false} WordLengthOf(w: string, rest: string)
    requires BlankFree(w) && (rest == "" || rest[0] == ' ')
    ensures WordLength(w + rest) == |w|
  {
    if w != "" {
      assert (w + rest)[1..] == w[1..] + rest;
      WordLengthOf(w[1..], rest);
    } else {
      assert w + rest == rest;
    }
  }

  /** A word in front of a string that is empty or starts with a blank is its first word. */
  lemma WordsCons(w: string, rest: string)
    requires w != "" && BlankFree(w) && (rest == "" || rest[0] == ' ')
    ensures Words(w + rest) == [w] + Words(rest)
  {
    WordLengthOf(w, rest);
    assert (w + rest)[..|w|] == w && (w + rest)[|w|..] == rest;
  }

  lemma {:induction false} WordsOfBlanks(n: nat)
    ensures Words(Blanks(n)) == []
  {
    if n > 0 {
      assert Blanks(n)[1..] == Blanks(n - 1);
      WordsOfBlanks(n - 1);
    }
  }

  /** The start of the string is a token, too: an empty one if there is no word at it. */
  lemma FirstToken(w: string, n: nat, rest: string)
    requires BlankFree(w) && (rest == "" || rest[0] != ' ') && (n == 0 ==> rest == "")
    ensures Tokens(w + (Blanks(n) + rest)) == [w] + Words(rest)
  {
    BlanksAreSkipped(n, rest);
    if w != "" {
      WordsCons(w, Blanks(n) + rest);
      assert (w + (Blanks(n) + rest))[0] in w;
    } else {
      assert w + (Blanks(n) + rest) == Blanks(n) + rest;
    }
  }

  lemma {:induction false} BlanksAreSkipped(n: nat, rest: string)
    ensures Words(Blanks(n) + rest) == Words(rest)
  {
    if n == 0 {
      assert Blanks(0) + rest == rest;
    } else {
      assert (Blanks(n) + rest)[1..] == Blanks(n - 1) + rest;
      BlanksAreSkipped(n - 1, rest);
    }
  }

  /** Every byte of a word is a byte of the string. */
  lemma {:induction false} WordBytes(s: string)
    ensures forall w, c :: w in Words(s) && c in w ==> c in s
    decreases |s|
  {
    if s != "" {
      if s[0] == ' ' {
        WordBytes(s[1..]);
      } else {
        WordBytes(s[WordLength(s)..]);
      }
    }
  }

  /** A non-empty blank-free string is its own single token. */
  lemma SingleToken(w: string)
    requires w != "" && BlankFree(w)
    ensures Tokens(w) == [w]
  {
    WordsCons(w, "");
    assert w + "" == w;
  }

  lemma {:induction false} WordEndsByBlank(s: string, i: nat)
    requires i < |s| && s[i] == ' '
    ensures WordLength(s) <= i
  {
    if i > 0 {
      WordEndsByBlank(s[1..], i - 1);
    }
  }

  /** Writing p, which starts with a non-blank, behind s: a word that reaches the end of s grows. */
  lemma {:induction false} WordLengthGrows(s: string, p: string)
    ensures WordLength(s) < |s| ==> WordLength(s + p) == WordLength(s)
    ensures WordLength(s) == |s| ==> WordLength(s + p) == |s| + WordLength(p)
  {
    if s == "" {
      assert s + p == p;
    } else {
      assert (s + p)[1..] == s[1..] + p;
      WordLengthGrows(s[1..], p);
    }
  }

  /** The first word is kept, or grows by the first word of p. */
  lemma {:induction false} FirstWordGrows(s: string, p: string)
    requires Words(s) != [] && p != "" && p[0] != ' '
    ensures Words(s + p) != []
    ensures Words(s + p)[0] == Words(s)[0] || Words(s + p)[0] == Words(s)[0] + p[..WordLength(p)]
    decreases |s|
  {
    if s[0] == ' ' {
      assert (s + p)[1..] == s[1..] + p;
      FirstWordGrows(s[1..], p);
    } else {
      var k := WordLength(s);
      WordLengthGrows(s, p);
      assert k < |s| ==> (s + p)[..k] == s[..k];
      assert k == |s| ==> (s + p)[..k + WordLength(p)] == s + p[..WordLength(p)];
    }
  }

  /** The first two tokens of a string with p written behind it. */
  lemma TokensGrow(s: string, p: string)
    requires s != "" && p != "" && p[0] != ' '
    ensures WordLength(s) == |s| ==> Tokens(s + p)[0] == s + p[..WordLength(p)]
    ensures WordLength(s) < |s| ==> Tokens(s + p)[0] == Tokens(s)[0]
    ensures WordLength(s) < |s| && |Tokens(s)| >= 2 ==>
              |Tokens(s + p)| >= 2 &&
              (Tokens(s + p)[1] == Tokens(s)[1] || Tokens(s + p)[1] == Tokens(s)[1] + p[..WordLength(p)])
  {
    var k := WordLength(s);
    WordLengthGrows(s, p);
    if k == |s| {
      assert (s + p)[..k + WordLength(p)] == s + p[..WordLength(p)];
    } else if s[0] == ' ' {
      if Words(s) != [] {
        FirstWordGrows(s, p);
      }
    } else {
      assert (s + p)[..k] == s[..k] && (s + p)[k..] == s[k..] + p;
      if Words(s[k..]) != [] {
        FirstWordGrows(s[k..], p);
      }
    }
  }

  /** The tokenizer as its callers use it: on the C string at the start of a block, for the strings at the pointers. */
  method TokenizeInBlock(block: array<char>, tokens: array<nat>) returns (numTok: nat)
    requires |Pointers(CStringAt(block[..], 0))| <= tokens.Length
    modifies block, tokens
    ensures numTok == |Tokens(old(CStringAt(block[..], 0)))| == |Pointers(old(CStringAt(block[..], 0)))|
    ensures forall j :: 0 <= j < numTok ==> tokens[j] <= block.Length
    ensures forall j :: 0 <= j < numTok ==> CStringAt(block[..], tokens[j]) == Tokens(old(CStringAt(block[..], 0)))[j]
  {
    ghost var mem := block[..];
    ghost var s := CStringAt(mem, 0);
    assert block[..|s|] == s;
    numTok := StrTokenize(block, tokens, |CStringAt(block[..], 0)|);
    assert block[..][..|s|] == block[..|s|];
    assert |s| < |mem| ==> block[..][|s|] == block[|s|..][0] == mem[|s|..][0];
    TokensInBlock(s, block[..]);
    forall j | 0 <= j < numTok
      ensures tokens[j] <= block.Length && CStringAt(block[..], tokens[j]) == Tokens(s)[j]
    {
      assert tokens[j] == tokens[..numTok][j];
      StringAtIndex(block[..], Pointers(s), j);
    }
  }
}
