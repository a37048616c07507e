/**
 Loading the configuration a second time, after the defaults were written back (rsshell.cc).
 */
module ConfigReload {
  import opened CStrings
  import opened Tokenizer
  import opened LineReader
  import opened ShellConfig

  // ---------- the written defaults ----------

  predicate IsSizeKey(key: string) {
    key == "HSIZE" || key == "VSIZE"
  }

  function DefaultLine(key: string): (line: string)
    requires IsSizeKey(key)
    ensures |line| == 8 && '\n' !in line && line[5] == ' '
  {
    if key == "HSIZE" then "HSIZE 75" else "VSIZE 40"
  }

  lemma SizeKeyChars(key: string)
    requires IsSizeKey(key)
    ensures |key| == 5 && BlankFree(key) && NUL !in key && DefaultLine(key)[..5] == key
  {
  }

  lemma TwoTokens(key: string, number: string)
    requires key != "" && BlankFree(key) && number != "" && BlankFree(number)
    ensures Tokens(key + (" " + number)) == [key, number]
  {
    WordsCons(key, " " + number);
    assert (" " + number)[1..] == number;
    SingleToken(number);
  }

  lemma DefaultTokens(key: string)
    requires IsSizeKey(key)
    ensures LineTokens(DefaultLine(key)) == [key, if key == "HSIZE" then "75" else "40"]
  {
    var line := DefaultLine(key);
    var number := if key == "HSIZE" then "75" else "40";
    assert line == key + (" " + number);
    CStringIs(line, 0, line);
    TwoTokens(key, number);
  }

  lemma TwoDigits(a: char, b: char)
    requires IsDigit(a) && IsDigit(b)
    ensures Atol([a, b]) == 10 * (a - '0') as nat + (b - '0') as nat
  {
    assert [a, b][1..] == [b] && [b][1..] == "";
    assert DigitsValue([a, b], 0) == DigitsValue([b], (a - '0') as nat);
    assert DigitsValue([b], (a - '0') as nat) == DigitsValue("", (a - '0') as nat * 10 + (b - '0') as nat);
  }

  function DefaultSize(key: string): nat {
    if key == "HSIZE" then 75 else 40
  }

  /** A default line sets its own key, and no other, and has a value. */
  lemma DefaultValue(key: string, other: string)
    requires IsSizeKey(key) && IsSizeKey(other)
    ensures ValueOf(DefaultLine(key), other) == if key != other then 0 else DefaultSize(key)
    ensures HasValue(DefaultLine(key))
  {
    DefaultTokens(key);
    TwoDigits('7', '5');
    TwoDigits('4', '0');
  }

  /** The keys without a valid setting, and the lines that are appended for them. */
  function Missing(text: string): (keys: seq<string>)
    ensures forall k :: k in keys ==> IsSizeKey(k)
  {
    (if Setting(Lines(text), "HSIZE") == 0 then ["HSIZE"] else []) +
    (if Setting(Lines(text), "VSIZE") == 0 then ["VSIZE"] else [])
  }

  function DefaultLines(keys: seq<string>): (lines: seq<string>)
    requires forall k :: k in keys ==> IsSizeKey(k)
    ensures |lines| == |keys| && forall i :: 0 <= i < |keys| ==> lines[i] == DefaultLine(keys[i])
  {
    if keys == [] then [] else [DefaultLine(keys[0])] + DefaultLines(keys[1..])
  }

  lemma FrameOfDefault(key: string)
    requires IsSizeKey(key)
    ensures Frames(DefaultLines([key])) == if key == "HSIZE" then HSIZE_LINE else VSIZE_LINE
  {
    assert [key][1..] == [] && [DefaultLine(key)][1..] == [];
    assert DefaultLine(key) + "\n" + "" == if key == "HSIZE" then HSIZE_LINE else VSIZE_LINE;
  }

  lemma {:induction false} DefaultLinesConcat(a: seq<string>, b: seq<string>)
    requires forall k :: k in a + b ==> IsSizeKey(k)
    requires forall k :: k in a ==> IsSizeKey(k)
    requires forall k :: k in b ==> IsSizeKey(k)
    ensures DefaultLines(a + b) == DefaultLines(a) + DefaultLines(b)
  {
  }

  lemma AddedIsFramed(text: string)
    ensures Added(text) == Frames(DefaultLines(Missing(text)))
  {
    var h := if Setting(Lines(text), "HSIZE") == 0 then ["HSIZE"] else [];
    var v := if Setting(Lines(text), "VSIZE") == 0 then ["VSIZE"] else [];
    FrameOfDefault("HSIZE");
    FrameOfDefault("VSIZE");
    DefaultLinesConcat(h, v);
    FramesConcat(DefaultLines(h), DefaultLines(v));
  }

  // ---------- settings of concatenated files ----------

  lemma {:induction false} SettingConcat(a: seq<string>, b: seq<string>, key: string)
    ensures Setting(a + b, key) == if Setting(b, key) > 0 then Setting(b, key) else Setting(a, key)
    decreases |b|
  {
    if b == [] {
      assert a + b == a;
    } else {
      var n := |b| - 1;
      assert (a + b)[..|a + b| - 1] == a + b[..n];
      SettingConcat(a, b[..n], key);
    }
  }

  lemma SettingOfOne(line: string, key: string)
    ensures Setting([line], key) == ValueOf(line, key)
  {
  }

  lemma {:induction false} SettingOfDefaults(keys: seq<string>, key: string)
    requires (forall k :: k in keys ==> IsSizeKey(k)) && IsSizeKey(key)
    ensures Setting(DefaultLines(keys), key) == if key in keys then DefaultSize(key) else 0
  {
    if keys != [] {
      var first, rest := DefaultLine(keys[0]), DefaultLines(keys[1..]);
      SettingOfDefaults(keys[1..], key);
      SettingConcat([first], rest, key);
      SettingOfOne(first, key);
      DefaultValue(keys[0], key);
      assert key in keys <==> key == keys[0] || key in keys[1..];
    }
  }

  lemma DefaultsAreKeyed(keys: seq<string>)
    requires forall k :: k in keys ==> IsSizeKey(k)
    ensures Keyed(DefaultLines(keys))
  {
    var lines := DefaultLines(keys);
    forall l | l in lines ensures HasValue(l) {
      var i :| 0 <= i < |lines| && lines[i] == l;
      assert keys[i] in keys;
      DefaultValue(keys[i], keys[i]);
    }
  }

  lemma AddedIsRead(text: string)
    requires Aligned(text, LINE_MAX)
    ensures Lines(text + Added(text)) == Lines(text) + DefaultLines(Missing(text))
  {
    AddedIsFramed(text);
    ReadAllConcat(text, Added(text), LINE_MAX);
    FramesComeBack(DefaultLines(Missing(text)), LINE_MAX);
  }

  lemma MissingIsSet(text: string, key: string)
    requires Aligned(text, LINE_MAX) && IsSizeKey(key)
    ensures Setting(Lines(text + Added(text)), key)
         == if Setting(Lines(text), key) == 0 then DefaultSize(key) else Setting(Lines(text), key)
  {
    AddedIsRead(text);
    SettingConcat(Lines(text), DefaultLines(Missing(text)), key);
    SettingOfDefaults(Missing(text), key);
  }

  /** Appended to whole lines, the defaults are found, and nothing else changes. */
  lemma ReloadAfterWholeLines(text: string)
    requires Keyed(Lines(text)) && Aligned(text, LINE_MAX)
    ensures var after := text + Added(text);
            Keyed(Lines(after)) && Added(after) == "" && Hsize(after) == Hsize(text) && Vsize(after) == Vsize(text)
  {
    AddedIsRead(text);
    DefaultsAreKeyed(Missing(text));
    MissingIsSet(text, "HSIZE");
    MissingIsSet(text, "VSIZE");
  }

  // ---------- defaults written behind a partial line ----------

  /** All that matters here about a default line. */
  ghost predicate IsDefault(line: string, key: string) {
    && |line| == 8 && NUL !in line && '\n' !in line
    && |key| == 5 && BlankFree(key) && (key[0] == 'H' || key[0] == 'V')
    && line[..5] == key && line[5] == ' '
  }

  lemma DefaultIsDefault(key: string)
    requires IsSizeKey(key)
    ensures IsDefault(DefaultLine(key), key)
  {
    SizeKeyChars(key);
  }

  lemma ShortIsNoKey(w: string)
    requires |w| != 5
    ensures !IsKey(w)
  {
  }

  /** What is left of a default line when its start went into another chunk has no key. */
  lemma SuffixHasNoKey(line: string, key: string, j: nat)
    requires IsDefault(line, key) && 1 <= j <= 8
    ensures !IsKey(LineTokens(line[j..])[0])
  {
    var s := line[j..];
    CStringIs(s, 0, s);
    if j <= 5 {
      assert s[5 - j] == ' ';
      WordEndsByBlank(s, 5 - j);
    }
    ShortIsNoKey(Tokens(s)[0]);
  }

  /** The first word of the start of a default line. */
  lemma PrefixWord(line: string, key: string, n: nat)
    requires IsDefault(line, key) && 1 <= n <= 8
    ensures WordLength(line[..n]) == if n < 5 then n else 5
  {
    var p := line[..n];
    if n <= 5 {
      assert p == key[..n];
      WordLengthOf(p, "");
      assert p + "" == p;
    } else {
      assert p == key + p[5..];
      WordLengthOf(key, p[5..]);
    }
  }

  /** A partial line that does not set the key does not set it either with the start of a default line behind it. */
  lemma GluedLine(tail: string, line: string, key: string, n: nat)
    requires IsSizeKey(key) && IsDefault(line, key) && tail != "" && 1 <= n <= 8 && (n >= 5 || |tail| >= 5)
    requires HasValue(tail) && ValueOf(tail, key) == 0
    ensures HasValue(tail + line[..n]) && ValueOf(tail + line[..n], key) == 0
  {
    var p := line[..n];
    var s := CStringAt(tail, 0);
    if |s| < |tail| {
      assert (tail + p)[..|tail|] == tail;
      assert (tail + p)[0..|s|] == s;
      CStringIs(tail + p, 0, s);
    } else {
      assert tail[0..|tail|] == tail == s;
      CStringIs(tail + p, 0, tail + p);
      GluedTokens(tail, line, key, n);
    }
  }

  lemma GluedTokens(s: string, line: string, key: string, n: nat)
    requires IsDefault(line, key) && s != "" && 1 <= n <= 8 && (n >= 5 || |s| >= 5)
    ensures var ts, ts' := Tokens(s), Tokens(s + line[..n]);
            || !IsKey(ts'[0])
            || (ts'[0] == ts[0] && (|ts| >= 2 ==> |ts'| >= 2 && Atol(ts'[1]) == Atol(ts[1])))
  {
    var p := line[..n];
    var w := p[..WordLength(p)];
    PrefixWord(line, key, n);
    TokensGrow(s, p);
    if WordLength(s) == |s| {
      ShortIsNoKey(s + w);
    } else if |Tokens(s)| >= 2 {
      NumberStops(Tokens(s)[1], w);
    }
  }

  lemma NumberStops(s: string, w: string)
    requires w != "" && (w[0] == 'H' || w[0] == 'V')
    ensures Atol(s + w) == Atol(s)
  {
    LeadingNumberStops(s, w);
  }

  lemma NoKeyNoValue(line: string, key: string)
    requires IsSizeKey(key) && !IsKey(LineTokens(line)[0])
    ensures HasValue(line) && ValueOf(line, key) == 0
  {
  }

  lemma SettingOfPair(x: string, y: string, key: string)
    requires ValueOf(x, key) == 0 && ValueOf(y, key) == 0
    ensures Setting([x, y], key) == 0
  {
    SettingConcat([x], [y], key);
    SettingOfOne(x, key);
    SettingOfOne(y, key);
    assert [x] + [y] == [x, y];
  }

  /** The lines that a partial line and a default line behind it make together. */
  lemma GluedLines(tail: string, line: string, key: string, rest: string) returns (glued: seq<string>)
    requires IsSizeKey(key) && IsDefault(line, key) && '\n' !in tail && 0 < |tail| < LINE_MAX
    requires HasValue(tail) && ValueOf(tail, key) == 0
    ensures ReadAll(tail + (line + "\n" + rest), LINE_MAX) == glued + ReadAll(rest, LINE_MAX)
    ensures Setting(glued, key) == 0 && Keyed(glued)
  {
    assert tail + (line + "\n" + rest) == tail + line + "\n" + rest;
    if |tail| + 8 < LINE_MAX {
      assert line[..8] == line;
      GluedLine(tail, line, key, 8);
      FirstLine(tail + line, rest, LINE_MAX);
      glued := [tail + line];
      SettingOfOne(tail + line, key);
    } else {
      var j := LINE_MAX - |tail|;
      GluedLine(tail, line, key, j);
      SuffixHasNoKey(line, key, j);
      NoKeyNoValue(line[j..], key);
      CutLine(tail, line, rest, j);
      glued := [tail + line[..j], line[j..]];
      SettingOfPair(tail + line[..j], line[j..], key);
    }
  }

  /** A line that is cut at the bound of the reader. */
  lemma CutLine(tail: string, line: string, rest: string, j: nat)
    requires '\n' !in tail && '\n' !in line && j <= |line| < LINE_MAX && |tail| + j == LINE_MAX
    ensures ReadAll(tail + line + "\n" + rest, LINE_MAX) == [tail + line[..j], line[j..]] + ReadAll(rest, LINE_MAX)
  {
    CutAt(tail, line, j);
    CutWhole(tail + line, rest, tail + line[..j], line[j..]);
  }

  lemma CutAt(a: string, b: string, j: nat)
    requires j <= |b|
    ensures (a + b)[..|a| + j] == a + b[..j] && (a + b)[|a| + j..] == b[j..]
  {
  }

  lemma CutWhole(whole: string, rest: string, first: string, second: string)
    requires '\n' !in whole && |whole| >= LINE_MAX && whole[..LINE_MAX] == first && whole[LINE_MAX..] == second
    requires |second| < LINE_MAX
    ensures ReadAll(whole + "\n" + rest, LINE_MAX) == [first, second] + ReadAll(rest, LINE_MAX)
  {
    FirstChunkOfLine(whole, rest, LINE_MAX);
    FirstLine(second, rest, LINE_MAX);
    TwoChunks(first, second, ReadAll(rest, LINE_MAX));
  }

  lemma TwoChunks(first: string, second: string, more: seq<string>)
    ensures [first] + ([second] + more) == [first, second] + more
  {
  }

  lemma PartialLine(head: string, tail: string)
    requires Aligned(head, LINE_MAX) && '\n' !in tail && 0 < |tail| < LINE_MAX
    ensures Lines(head + tail) == Lines(head) + [tail]
  {
    ReadAllConcat(head, tail, LINE_MAX);
    assert tail[..|tail|] == tail;
    LineLengthIs(tail, |tail|);
  }

  /** The lines of a file with a default and further lines behind its partial last line. */
  lemma LinesBehindPartial(head: string, tail: string, line: string, key: string, more: seq<string>)
    requires Aligned(head, LINE_MAX) && '\n' !in tail && 0 < |tail| < LINE_MAX
    requires IsSizeKey(key) && IsDefault(line, key)
    requires Keyed(Lines(head)) && Setting(Lines(head), key) == 0 && HasValue(tail) && ValueOf(tail, key) == 0
    requires (forall l :: l in more ==> '\n' !in l && |l| < LINE_MAX) && Keyed(more) && Setting(more, key) == 0
    ensures var lines := Lines(head + (tail + (line + "\n" + Frames(more)))); Keyed(lines) && Setting(lines, key) == 0
  {
    var glued := GluedLines(tail, line, key, Frames(more));
    ReadAllConcat(head, tail + (line + "\n" + Frames(more)), LINE_MAX);
    FramesComeBack(more, LINE_MAX);
    SettingConcat(glued, more, key);
    SettingConcat(Lines(head), glued + more, key);
  }

  lemma KeyedParts(a: seq<string>, l: string)
    requires Keyed(a + [l])
    ensures Keyed(a) && HasValue(l)
  {
    assert l == (a + [l])[|a|];
    assert forall x :: x in a ==> x in a + [l];
  }

  lemma PartialLineUnset(head: string, tail: string, key: string)
    requires Aligned(head, LINE_MAX) && '\n' !in tail && 0 < |tail| < LINE_MAX
    requires Keyed(Lines(head + tail)) && Setting(Lines(head + tail), key) == 0
    ensures Keyed(Lines(head)) && Setting(Lines(head), key) == 0 && HasValue(tail) && ValueOf(tail, key) == 0
  {
    PartialLine(head, tail);
    SettingConcat(Lines(head), [tail], key);
    SettingOfOne(tail, key);
    KeyedParts(Lines(head), tail);
  }

  lemma DefaultsUnset(keys: seq<string>, key: string)
    requires (forall k :: k in keys ==> IsSizeKey(k)) && IsSizeKey(key) && key !in keys
    ensures var lines := DefaultLines(keys);
            (forall l :: l in lines ==> '\n' !in l && |l| < LINE_MAX) && Keyed(lines) && Setting(lines, key) == 0
  {
    SettingOfDefaults(keys, key);
    DefaultsAreKeyed(keys);
  }

  /** Behind a partial line the first of the default lines is not found. */
  lemma UnsetBehindPartial(text: string, key: string, others: seq<string>)
    requires Keyed(Lines(text)) && !Aligned(text, LINE_MAX)
    requires IsSizeKey(key) && (forall k :: k in others ==> IsSizeKey(k)) && key !in others
    requires Setting(Lines(text), key) == 0
    ensures var lines := Lines(text + (DefaultLine(key) + "\n" + Frames(DefaultLines(others))));
            Keyed(lines) && Setting(lines, key) == 0
  {
    var head, tail := SplitPartialChunk(text, LINE_MAX);
    PartialLineUnset(head, tail, key);
    DefaultIsDefault(key);
    DefaultsUnset(others, key);
    LinesBehindPartial(head, tail, DefaultLine(key), key, DefaultLines(others));
    Associative(head, tail, DefaultLine(key) + "\n" + Frames(DefaultLines(others)));
  }

  lemma Associative(a: string, b: string, c: string)
    ensures a + b + c == a + (b + c)
  {
  }

  lemma ReloadAfterPartialLine(text: string)
    requires Keyed(Lines(text)) && !Aligned(text, LINE_MAX) && Missing(text) != []
    ensures Keyed(Lines(text + Added(text))) && Setting(Lines(text + Added(text)), Missing(text)[0]) == 0
  {
    var key, others := Missing(text)[0], Missing(text)[1..];
    AddedIsFramed(text);
    assert DefaultLines(Missing(text))[1..] == DefaultLines(others);
    UnsetBehindPartial(text, key, others);
  }

  /**
   Loading is idempotent, that is, a second load finds the same sizes and appends nothing, if and only if the
   first appended nothing or the file ended in a newline (or in a multiple of 128 bytes without one).
   */
  lemma ReloadIsIdempotent(text: string)
    requires Keyed(Lines(text))
    ensures var after := text + Added(text);
            && Keyed(Lines(after))
            && (Added(after) == "" && Hsize(after) == Hsize(text) && Vsize(after) == Vsize(text)
                <==> Added(text) == "" || TailLength(text) % 128 == 0)
  {
    AlignedIsMultiple(text, LINE_MAX);
    if Missing(text) == [] {
      assert text + Added(text) == text;
    } else if Aligned(text, LINE_MAX) {
      ReloadAfterWholeLines(text);
    } else {
      ReloadAfterPartialLine(text);
      assert Added(text) != "";
    }
  }

  lemma LinesOfX()
    ensures Lines("x") == ["x"] && LineTokens("x") == ["x"] && TailLength("x") == 1
  {
    assert "x"[1..] == "";
    LineLengthIs("x", 1);
    CStringIs("x", 0, "x");
    SingleToken("x");
  }

  /**
   The condition can fail: for a file that is the one byte "x", the line appended for the first size is glued to it
   and is not found again, so that the second load appends it once more.
   */
  lemma ReloadOfOpenLine()
    ensures var after := "x" + Added("x");
            && Keyed(Lines("x")) && Added("x") == HSIZE_LINE + VSIZE_LINE
            && Keyed(Lines(after)) && Setting(Lines(after), "HSIZE") == 0 && Added(after) != ""
  {
    LinesOfX();
    SettingOfOne("x", "HSIZE");
    SettingOfOne("x", "VSIZE");
    AlignedIsMultiple("x", LINE_MAX);
    ReloadAfterPartialLine("x");
  }
}
