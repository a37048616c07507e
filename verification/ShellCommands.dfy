/**
 The way of a typed command to the server (rsshell.cc): the newline and a leading "& " are taken off, and the
 rest is sent as one line, which the server reads back with readline.
 */
module ShellCommands {
  import opened CStrings
  import opened LineReader

  /** The bytes sent on a connection, which are the frames of the commands sent. */
  class Connection {
    var sent: string
    ghost var commands: seq<string>

    ghost predicate Valid()
      reads this
    {
      sent == Frames(commands)
    }

    constructor ()
      ensures Valid() && commands == []
    {
      sent, commands := "", [];
    }
  }

  function WithoutNewline(s: string): string {
    if s != "" && s[|s| - 1] == '\n' then s[..|s| - 1] else s
  }

  /** The command that a typed line stands for. */
  function Command(typed: string): string {
    var s := WithoutNewline(typed);
    if |s| >= 2 && s[0] == '&' && s[1] == ' ' then s[2..] else s
  }

  /** Takes the newline off command and copies it, without a leading "& ", to initCommand; false for an empty line. */
  method PrepareCommand(command: array<char>, initCommand: array<char>) returns (given: bool)
    requires command.Length == initCommand.Length == 129 && command != initCommand
    requires |CStringAt(command[..], 0)| <= 127
    modifies command, initCommand
    ensures var typed := old(CStringAt(command[..], 0));
            && (given <==> !(typed != "" && typed[0] == '\n'))
            && (given ==> CStringAt(initCommand[..], 0) == Command(typed)
                          && CStringAt(command[..], 0) == WithoutNewline(typed))
  {
    ghost var typed := CStringAt(command[..], 0);
    if command[0] == '\n' {
      return false;
    }
    given := true;
    DropNewline(command);
    ghost var s := CStringAt(command[..], 0);
    var stringLength := |CStringAt(command[..], 0)|;
    var from := if command[0] == '&' && command[1] == ' ' then 2 else 0;
    assert |s| >= 1 ==> s[0] == command[0];
    assert |s| >= 2 ==> s[1] == command[1];
    CopyTail(command, initCommand, from, stringLength);
    CStringIs(initCommand[..], 0, s[from..]);
  }

  method DropNewline(command: array<char>)
    requires |CStringAt(command[..], 0)| < command.Length
    modifies command
    ensures CStringAt(command[..], 0) == WithoutNewline(old(CStringAt(command[..], 0)))
    ensures |CStringAt(command[..], 0)| < command.Length
  {
    ghost var typed := CStringAt(command[..], 0);
    ghost var before := command[..];
    var n := |CStringAt(command[..], 0)|;
    if n > 0 && command[n - 1] == '\n' {
      command[n - 1] := NUL;
      ghost var s := typed[..n - 1];
      assert before[0..n - 1] == s;
      assert command[..][0..n - 1] == s;
      CStringIs(command[..], 0, s);
    }
  }

  /** The copy loops: from position `from` up to and including the NUL. */
  method CopyTail(command: array<char>, initCommand: array<char>, from: nat, stringLength: nat)
    requires from <= stringLength < command.Length <= initCommand.Length && command != initCommand
    modifies initCommand
    ensures initCommand[..stringLength - from] == command[from..stringLength]
    ensures initCommand[stringLength - from] == command[stringLength]
  {
    var j := 0;
    var i := from;
    while i <= stringLength
      invariant from <= i <= stringLength + 1 && j == i - from
      invariant forall k :: 0 <= k < j ==> initCommand[k] == command[from + k]
    {
      initCommand[j] := command[i];
      j := j + 1;
      i := i + 1;
    }
  }

  /** sendData: one more frame, with the C string in command as its content. */
  method SendData(sd: Connection, command: array<char>)
    requires sd.Valid()
    modifies sd
    ensures sd.Valid() && sd.commands == old(sd.commands) + [CStringAt(command[..], 0)]
    ensures old(sd.sent) <= sd.sent
  {
    ghost var c := CStringAt(command[..], 0);
    FramesConcat(sd.commands, [c]);
    assert [c][1..] == [] && Frames([c]) == c + "\n" + "";
    sd.sent := sd.sent + CStringAt(command[..], 0);
    sd.sent := sd.sent + "\n";
    sd.commands := sd.commands + [c];
  }

  /** The command is what was typed, without the newline at its end, and without "& " at its start. */
  lemma CommandIs(c: string)
    requires '\n' !in c
    ensures Command("& " + c + "\n") == Command("& " + c) == c
    ensures !("& " <= c) ==> Command(c + "\n") == Command(c) == c
  {
    assert WithoutNewline("& " + c + "\n") == "& " + c == WithoutNewline("& " + c);
    assert ("& " + c)[2..] == c;
    assert WithoutNewline(c + "\n") == c == WithoutNewline(c);
    if |c| >= 2 && c[0] == '&' && c[1] == ' ' {
      assert c[..2] == "& ";
    }
  }

  /** What fgets can put into command: up to 127 characters, with a newline at most at the end. */
  predicate IsTyped(s: string) {
    |s| <= 127 && NUL !in s && '\n' !in WithoutNewline(s)
  }

  function Commands(typed: seq<string>): (cmds: seq<string>)
    ensures |cmds| == |typed| && forall i :: 0 <= i < |typed| ==> cmds[i] == Command(typed[i])
  {
    if typed == [] then [] else [Command(typed[0])] + Commands(typed[1..])
  }

  lemma CommandIsSendable(s: string)
    requires IsTyped(s)
    ensures '\n' !in Command(s) && |Command(s)| < 128 && NUL !in Command(s)
    ensures CStringAt(Command(s), 0) == Command(s)
  {
    CStringIs(Command(s), 0, Command(s));
  }

  /** Whatever is typed, the server's readline returns the commands one by one, in order, empty ones included. */
  lemma CommandsArrive(typed: seq<string>, max: nat)
    requires (forall s :: s in typed ==> IsTyped(s)) && max >= 128
    ensures ReadAll(Frames(Commands(typed)), max) == Commands(typed)
    ensures forall c :: c in Commands(typed) ==> CStringAt(c, 0) == c
  {
    var cmds := Commands(typed);
    forall c | c in cmds ensures '\n' !in c && |c| < max && CStringAt(c, 0) == c {
      var i :| 0 <= i < |cmds| && cmds[i] == c;
      assert typed[i] in typed;
      CommandIsSendable(typed[i]);
    }
    FramesComeBack(cmds, max);
  }
}
