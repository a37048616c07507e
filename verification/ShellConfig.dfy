/**
 The configuration file of the shell (rsshell.cc): "HSIZE n" and "VSIZE n" lines, with the defaults written
 back for the sizes it does not set.
 */
module ShellConfig {
  import opened CStrings
  import opened Tokenizer
  import opened LineReader

  const LINE_MAX: nat := 128
  const HSIZE_LINE: string := "HSIZE 75\n"
  const VSIZE_LINE: string := "VSIZE 40\n"

  class ConfigFile {
    var text: string

    constructor (text: string)
      ensures this.text == text
    {
      this.text := text;
    }
  }

  // ---------- what a file says ----------

  predicate IsKey(w: string) {
    w == "VSIZE" || w == "HSIZE" || w == "RHOST" || w == "RPORT"
  }

  /** A line that starts with a key has a value after it; the loop reads that value without a check. */
  predicate HasValue(line: string) {
    IsKey(LineTokens(line)[0]) ==> |LineTokens(line)| >= 2
  }

  predicate Keyed(lines: seq<string>) {
    forall l :: l in lines ==> HasValue(l)
  }

  /** The size a line sets for the key, 0 if it sets none. */
  function ValueOf(line: string, key: string): (v: nat) {
    var ts := LineTokens(line);
    if ts[0] == key && |ts| >= 2 && Atol(ts[1]) > 0 then Atol(ts[1]) else 0
  }

  /** The last valid setting wins. */
  function Setting(lines: seq<string>, key: string): (v: nat) {
    if lines == [] then 0
    else
      var last := ValueOf(lines[|lines| - 1], key);
      if last > 0 then last else Setting(lines[..|lines| - 1], key)
  }

  function Lines(text: string): seq<string> {
    ReadAll(text, LINE_MAX)
  }

  function Hsize(text: string): nat {
    var v := Setting(Lines(text), "HSIZE");
    if v == 0 then 75 else v
  }

  function Vsize(text: string): nat {
    var v := Setting(Lines(text), "VSIZE");
    if v == 0 then 40 else v
  }

  /** What is appended when the file sets these sizes, where 0 stands for none. */
  function DefaultsFor(hsize: nat, vsize: nat): string {
    (if hsize == 0 then HSIZE_LINE else "") + (if vsize == 0 then VSIZE_LINE else "")
  }

  /** What loading appends to the file. */
  function Added(text: string): string {
    DefaultsFor(Setting(Lines(text), "HSIZE"), Setting(Lines(text), "VSIZE"))
  }

  // ---------- the loop ----------

  /** Tokenizes a configuration line in place; second is its second token, when there is one. */
  method SplitLine(command: array<char>, comTok: array<nat>, ghost line: string) returns (first: string, second: string)
    requires comTok.Length == 129 && |line| <= LINE_MAX < command.Length && HasValue(line)
    requires command[..|line|] == line && command[|line|] == NUL
    modifies command, comTok
    ensures first == LineTokens(line)[0]
    ensures IsKey(first) ==> second == LineTokens(line)[1]
  {
    assert command[..][..|line|] == line;
    CutAtNul(command[..], |line|, 0);
    TokenBound(CStringAt(command[..], 0));
    var numTok := TokenizeInBlock(command, comTok);
    first := CStringAt(command[..], comTok[0]);
    second := if numTok >= 2 then CStringAt(command[..], comTok[1]) else "";
  }

  lemma SettingSnoc(lines: seq<string>, k: nat, key: string)
    requires k < |lines|
    ensures Setting(lines[..k + 1], key)
         == if ValueOf(lines[k], key) > 0 then ValueOf(lines[k], key) else Setting(lines[..k], key)
  {
    assert lines[..k + 1][..k] == lines[..k];
  }

  /** Reads the file to its end: rhost is never set, so the loop does not stop earlier. */
  method ReadSettings(confd: ByteStream) returns (hsize: int, vsize: int)
    requires !confd.broken && Keyed(Lines(confd.pending))
    modifies confd
    ensures hsize == Setting(Lines(old(confd.pending)), "HSIZE")
    ensures vsize == Setting(Lines(old(confd.pending)), "VSIZE")
  {
    ghost var lines := Lines(confd.pending);
    ghost var k := 0;
    var rhost, rport := 0, 0;
    hsize, vsize := 0, 0;
    var command := new char[129];
    var comTok := new nat[129];
    while hsize == 0 || vsize == 0 || rhost == 0 || rport == 0
      invariant k <= |lines| && Lines(confd.pending) == lines[k..] && rhost == 0
      invariant hsize == Setting(lines[..k], "HSIZE") && vsize == Setting(lines[..k], "VSIZE")
      decreases |lines| - k
    {
      ghost var pending := confd.pending;
      var n := Readline(confd, command, LINE_MAX);
      if n == RECV_NODATA {
        assert lines[..k] == lines;
        break;
      }
      if n < 0 {
        break;
      }
      assert lines[k] == lines[k..][0] == NextLine(pending, false, LINE_MAX).text;
      assert lines[k] in lines;
      SettingSnoc(lines, k, "HSIZE");
      SettingSnoc(lines, k, "VSIZE");
      var first, second := SplitLine(command, comTok, lines[k]);
      if first == "VSIZE" && Atol(second) > 0 {
        vsize := Atol(second);
      } else if first == "HSIZE" && Atol(second) > 0 {
        hsize := Atol(second);
      } else if first == "RHOST" && |second| > 0 {
      } else if first == "RPORT" && Atol(second) > 0 {
        rport := Atol(second);
      }
      k := k + 1;
      assert lines[k - 1..][1..] == lines[k..];
    }
  }

  /** The configuration part of main: reads the sizes and appends the defaults that are missing. */
  method LoadConfig(file: ConfigFile) returns (hsize: int, vsize: int)
    requires Keyed(Lines(file.text))
    modifies file
    ensures hsize == Hsize(old(file.text)) && vsize == Vsize(old(file.text))
    ensures file.text == old(file.text) + Added(old(file.text))
  {
    var confd := new ByteStream(file.text, false);
    hsize, vsize := ReadSettings(confd);
    hsize, vsize := WriteDefaults(file, hsize, vsize);
  }

  /** The two appends: each opens the file again and writes at its end. */
  method WriteDefaults(file: ConfigFile, h: nat, v: nat) returns (hsize: int, vsize: int)
    modifies file
    ensures hsize == (if h == 0 then 75 else h) && vsize == if v == 0 then 40 else v
    ensures file.text == old(file.text) + DefaultsFor(h, v)
  {
    hsize, vsize := h, v;
    if hsize <= 0 {
      hsize := 75;
      file.text := file.text + HSIZE_LINE;
    }
    if vsize <= 0 {
      vsize := 40;
      file.text := file.text + VSIZE_LINE;
    }
  }
}
