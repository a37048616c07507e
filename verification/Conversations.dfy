/**
 What each request to the file server is answered, and what that amounts to over a whole conversation.
 */
module Conversations {
  import opened CStrings
  import opened Tokenizer
  import opened LineReader
  import opened Records
  import opened FileServer

  // ---------- one request ----------

  /**
   FOPEN of a bound name is answered with its descriptor as an error, and changes nothing. Otherwise the name is bound
   exactly if the row could be recorded, even if the file could not be created, and the reply is OK exactly if both
   succeeded.
   */
  lemma OpenIsAnswered(m: Names, name: string, file: Creation)
    ensures var (m', reply) := Respond(m, ["FOPEN", name], file);
            if name in m then m' == m && reply == Err(m[name])
            else
              && (forall x :: x in m' <==> x in m || (x == name && file.recorded))
              && (forall x :: x in m' ==> m'[x] == if x == name then file.fd else m[x])
              && reply == if file.recorded && file.fd != -1 then Ok(file.fd) else Fail
  {
  }

  /** FCLOSE unbinds the names of the descriptor, and no others, and is answered OK exactly if there was one. */
  lemma CloseIsAnswered(m: Names, d: string, x: string, file: Creation)
    ensures var (m', reply) := Respond(m, ["FCLOSE", d, x], file);
            && (forall name :: name in m' <==> name in m && m[name] != Atoi(d))
            && (forall name :: name in m' ==> m'[name] == m[name])
            && reply == if exists name :: name in m && m[name] == Atoi(d) then Ok(0) else Err(-1)
  {
    assert ["FCLOSE", d, x][1] == d;
    if name :| name in m && m[name] == Atoi(d) {
      assert Atoi(d) in m.Values;
    }
  }

  /** Nothing else changes what is bound; requests with a wrong number of arguments fail. */
  lemma OthersAreAnswered(m: Names, ts: seq<string>, file: Creation)
    requires ts != [] && !(ts[0] == "FOPEN" && |ts| == 2) && !(ts[0] == "FCLOSE" && |ts| == 3)
    ensures var (m', reply) := Respond(m, ts, file);
            && m' == m
            && (ts[0] in {"FOPEN", "FCLOSE"} ==> reply == Fail)
            && (ts[0] in {"FSEEK", "FREAD", "FWRITE"} ==> reply == if |ts| == 3 then Passed else Fail)
            && (ts[0] !in {"FOPEN", "FCLOSE", "FSEEK", "FREAD", "FWRITE"} ==> reply == Ack(ts[0]))
  {
  }

  // ---------- a conversation, request by request ----------

  /** What is bound before request i. */
  function Bound(m: Names, lines: seq<string>, opens: nat -> Creation, i: nat): Names
    requires i <= |lines|
  {
    if i == 0 then m else Respond(Bound(m, lines, opens, i - 1), LineTokens(lines[i - 1]), opens(i - 1)).0
  }

  /** The request is not "quit", and this is the reply to it on what is bound by then. */
  predicate IsAnswer(m: Names, lines: seq<string>, opens: nat -> Creation, k: nat, reply: Reply) {
    && k < |lines| && LineTokens(lines[k])[0] != "quit"
    && reply == Respond(Bound(m, lines, opens, k), LineTokens(lines[k]), opens(k)).1
  }

  /** There are no further replies, because there is no further request, or the next one is "quit". */
  predicate EndsAt(m: Names, lines: seq<string>, opens: nat -> Creation, n: nat, last: Names) {
    && n <= |lines| && last == Bound(m, lines, opens, n)
    && (n < |lines| ==> LineTokens(lines[n])[0] == "quit")
  }

  /** Each of the replies is good for its number, counted from i. */
  predicate Numbered(good: (nat, Reply) -> bool, i: nat, replies: seq<Reply>)
    decreases |replies|
  {
    replies == [] || (good(i, replies[0]) && Numbered(good, i + 1, replies[1..]))
  }

  lemma {:induction false} NumberedAt(good: (nat, Reply) -> bool, i: nat, replies: seq<Reply>, k: nat)
    requires Numbered(good, i, replies) && k < |replies|
    ensures good(i + k, replies[k])
    decreases k
  {
    if k > 0 {
      NumberedAt(good, i + 1, replies[1..], k - 1);
    }
  }

  lemma AllNumbered(good: (nat, Reply) -> bool, replies: seq<Reply>)
    requires Numbered(good, 0, replies)
    ensures forall k :: 0 <= k < |replies| ==> good(k, replies[k])
  {
    forall k | 0 <= k < |replies| ensures good(k, replies[k]) {
      NumberedAt(good, 0, replies, k);
    }
  }

  lemma NumberedCons(good: (nat, Reply) -> bool, i: nat, reply: Reply, more: seq<Reply>)
    requires good(i, reply) && Numbered(good, i + 1, more)
    ensures Numbered(good, i, [reply] + more)
  {
    assert ([reply] + more)[1..] == more;
  }

  lemma ConverseStep(m: Names, lines: seq<string>, opens: nat -> Creation, i: nat, last: Names, replies: seq<Reply>)
    returns (reply: Reply)
    requires i < |lines| && LineTokens(lines[i])[0] != "quit"
    requires Converse(Bound(m, lines, opens, i + 1), lines, opens, i + 1) == (last, replies)
    ensures IsAnswer(m, lines, opens, i, reply)
    ensures Converse(Bound(m, lines, opens, i), lines, opens, i) == (last, [reply] + replies)
  {
    reply := Respond(Bound(m, lines, opens, i), LineTokens(lines[i]), opens(i)).1;
  }

  lemma NoMore(m: Names, lines: seq<string>, opens: nat -> Creation, i: nat)
    requires i <= |lines| && (i < |lines| ==> LineTokens(lines[i])[0] == "quit")
    ensures Converse(Bound(m, lines, opens, i), lines, opens, i) == (Bound(m, lines, opens, i), [])
    ensures EndsAt(m, lines, opens, i, Bound(m, lines, opens, i))
  {
  }

  lemma {:induction false} ConverseFrom(m: Names, lines: seq<string>, opens: nat -> Creation, i: nat,
                                        good: (nat, Reply) -> bool)
    returns (last: Names, replies: seq<Reply>, n: nat)
    requires i <= |lines| && forall k, r :: IsAnswer(m, lines, opens, k, r) ==> good(k, r)
    ensures Converse(Bound(m, lines, opens, i), lines, opens, i) == (last, replies)
    ensures n == i + |replies| && EndsAt(m, lines, opens, n, last)
    ensures Numbered(good, i, replies)
    decreases |lines| - i
  {
    if i == |lines| || LineTokens(lines[i])[0] == "quit" {
      last, replies, n := Bound(m, lines, opens, i), [], i;
      NoMore(m, lines, opens, i);
    } else {
      var more;
      last, more, n := ConverseFrom(m, lines, opens, i + 1, good);
      var reply := ConverseStep(m, lines, opens, i, last, more);
      NumberedCons(good, i, reply, more);
      replies := [reply] + more;
    }
  }

  /** A whole conversation has these replies. */
  predicate Conversation(m: Names, lines: seq<string>, opens: nat -> Creation, replies: seq<Reply>) {
    replies == Converse(m, lines, opens, 0).1
  }

  /**
   There is one reply to each request up to the first "quit", or to all if there is none, and each is the reply to its
   request on what is bound by then.
   */
  lemma EachIsAnswered(m: Names, lines: seq<string>, opens: nat -> Creation, replies: seq<Reply>)
    requires Conversation(m, lines, opens, replies)
    ensures EndsAt(m, lines, opens, |replies|, Converse(m, lines, opens, 0).0)
    ensures forall k :: 0 <= k < |replies| ==> IsAnswer(m, lines, opens, k, replies[k])
  {
    var good := (k: nat, r: Reply) => IsAnswer(m, lines, opens, k, r);
    var last, all, n := ConverseFrom(m, lines, opens, 0, good);
    AllNumbered(good, all);
  }

  lemma AnswerAt(m: Names, lines: seq<string>, opens: nat -> Creation, replies: seq<Reply>, k: nat)
    requires Conversation(m, lines, opens, replies) && k < |replies|
    ensures IsAnswer(m, lines, opens, k, replies[k])
  {
    EachIsAnswered(m, lines, opens, replies);
  }

  predicate Opens(line: string, name: string) {
    LineTokens(line) == ["FOPEN", name]
  }

  predicate Closes(line: string, fd: int) {
    var ts := LineTokens(line);
    |ts| == 3 && ts[0] == "FCLOSE" && Atoi(ts[1]) == fd
  }

  lemma BoundStays(m: Names, ts: seq<string>, file: Creation, name: string)
    requires ts != [] && name in m && !(|ts| == 3 && ts[0] == "FCLOSE" && Atoi(ts[1]) == m[name])
    ensures var m' := Respond(m, ts, file).0; name in m' && m'[name] == m[name]
  {
  }

  lemma UnboundStays(m: Names, ts: seq<string>, file: Creation, name: string)
    requires ts != [] && name !in m && ts != ["FOPEN", name]
    ensures name !in Respond(m, ts, file).0
  {
    if IsOpen(ts) {
      assert ts == ["FOPEN", ts[1]];
    }
  }

  lemma {:induction false} BoundBetween(m: Names, lines: seq<string>, opens: nat -> Creation, name: string, fd: int,
                                        i: nat, j: nat)
    requires i <= j <= |lines| && name in Bound(m, lines, opens, i) && Bound(m, lines, opens, i)[name] == fd
    requires forall n :: i <= n < j ==> !Closes(lines[n], fd)
    ensures name in Bound(m, lines, opens, j) && Bound(m, lines, opens, j)[name] == fd
    decreases j
  {
    if i < j {
      BoundBetween(m, lines, opens, name, fd, i, j - 1);
      BoundStays(Bound(m, lines, opens, j - 1), LineTokens(lines[j - 1]), opens(j - 1), name);
    }
  }

  lemma {:induction false} UnboundBetween(m: Names, lines: seq<string>, opens: nat -> Creation, name: string,
                                          i: nat, j: nat)
    requires i <= j <= |lines| && name !in Bound(m, lines, opens, i)
    requires forall n :: i <= n < j ==> !Opens(lines[n], name)
    ensures name !in Bound(m, lines, opens, j)
    decreases j
  {
    if i < j {
      UnboundBetween(m, lines, opens, name, i, j - 1);
      UnboundStays(Bound(m, lines, opens, j - 1), LineTokens(lines[j - 1]), opens(j - 1), name);
    }
  }

  /** After an OK to FOPEN the name is bound to the descriptor that the reply names. */
  lemma OkBinds(m: Names, lines: seq<string>, opens: nat -> Creation, name: string, fd: int, i: nat)
    requires IsAnswer(m, lines, opens, i, Ok(fd)) && Opens(lines[i], name)
    ensures name in Bound(m, lines, opens, i + 1) && Bound(m, lines, opens, i + 1)[name] == fd
  {
    OpenIsAnswered(Bound(m, lines, opens, i), name, opens(i));
  }

  lemma BoundAnswers(m: Names, lines: seq<string>, opens: nat -> Creation, reply: Reply, name: string, fd: int, j: nat)
    requires IsAnswer(m, lines, opens, j, reply)
    requires name in Bound(m, lines, opens, j) && Bound(m, lines, opens, j)[name] == fd
    ensures Opens(lines[j], name) ==> reply == Err(fd)
    ensures Closes(lines[j], fd) ==> reply == Ok(0) && name !in Bound(m, lines, opens, j + 1)
  {
    if Opens(lines[j], name) {
      OpenIsAnswered(Bound(m, lines, opens, j), name, opens(j));
    }
    if Closes(lines[j], fd) {
      CloseOfBound(Bound(m, lines, opens, j), LineTokens(lines[j]), opens(j), name);
    }
  }

  lemma UnboundAnswers(m: Names, lines: seq<string>, opens: nat -> Creation, reply: Reply, name: string, k: nat)
    requires IsAnswer(m, lines, opens, k, reply) && name !in Bound(m, lines, opens, k) && Opens(lines[k], name)
    ensures reply == if opens(k).recorded && opens(k).fd != -1 then Ok(opens(k).fd) else Fail
  {
    OpenIsAnswered(Bound(m, lines, opens, k), name, opens(k));
  }

  lemma AnswerWhileOpen(m: Names, lines: seq<string>, opens: nat -> Creation, reply: Reply, name: string, fd: int,
                        i: nat, j: nat)
    requires i < j && IsAnswer(m, lines, opens, i, Ok(fd)) && IsAnswer(m, lines, opens, j, reply)
    requires Opens(lines[i], name) && forall n :: i < n < j ==> !Closes(lines[n], fd)
    ensures Opens(lines[j], name) ==> reply == Err(fd)
    ensures Closes(lines[j], fd) ==> reply == Ok(0) && name !in Bound(m, lines, opens, j + 1)
  {
    OkBinds(m, lines, opens, name, fd, i);
    BoundBetween(m, lines, opens, name, fd, i + 1, j);
    BoundAnswers(m, lines, opens, reply, name, fd, j);
  }

  /**
   The law of a conversation, whatever else is requested in it: once FOPEN of a name is answered OK with a descriptor,
   every FOPEN of the name is refused with that descriptor until the first FCLOSE of the descriptor, which is answered
   OK.
   */
  lemma OpenUntilClosed(m: Names, lines: seq<string>, opens: nat -> Creation, replies: seq<Reply>,
                        name: string, fd: int, i: nat, j: nat)
    requires Conversation(m, lines, opens, replies) && i < j < |replies| && j < |lines|
    requires Opens(lines[i], name) && replies[i] == Ok(fd)
    requires forall n :: i < n < j ==> !Closes(lines[n], fd)
    ensures Opens(lines[j], name) ==> replies[j] == Err(fd)
    ensures Closes(lines[j], fd) ==> replies[j] == Ok(0)
  {
    AnswerAt(m, lines, opens, replies, i);
    AnswerAt(m, lines, opens, replies, j);
    AnswerWhileOpen(m, lines, opens, replies[j], name, fd, i, j);
  }

  lemma CloseOfBound(m: Names, ts: seq<string>, file: Creation, name: string)
    requires |ts| == 3 && ts[0] == "FCLOSE" && name in m && m[name] == Atoi(ts[1])
    ensures var (m', reply) := Respond(m, ts, file); reply == Ok(0) && name !in m'
  {
    assert ts == ["FCLOSE", ts[1], ts[2]];
    CloseIsAnswered(m, ts[1], ts[2], file);
  }

  lemma BoundByOk(m: Names, lines: seq<string>, opens: nat -> Creation, replies: seq<Reply>, name: string, fd: int,
                  i: nat)
    requires Conversation(m, lines, opens, replies) && i < |replies| && i < |lines|
    requires Opens(lines[i], name) && replies[i] == Ok(fd)
    ensures name in Bound(m, lines, opens, i + 1) && Bound(m, lines, opens, i + 1)[name] == fd
  {
    AnswerAt(m, lines, opens, replies, i);
    OkBinds(m, lines, opens, name, fd, i);
  }

  lemma AnswerOfUnbound(m: Names, lines: seq<string>, opens: nat -> Creation, replies: seq<Reply>, name: string, k: nat)
    requires Conversation(m, lines, opens, replies) && k < |replies| && k < |lines|
    requires Opens(lines[k], name) && name !in Bound(m, lines, opens, k)
    ensures replies[k] == if opens(k).recorded && opens(k).fd != -1 then Ok(opens(k).fd) else Fail
  {
    AnswerAt(m, lines, opens, replies, k);
    UnboundAnswers(m, lines, opens, replies[k], name, k);
  }

  lemma CloseUnbinds(m: Names, lines: seq<string>, opens: nat -> Creation, name: string, fd: int, j: nat)
    requires j < |lines| && Closes(lines[j], fd)
    requires name in Bound(m, lines, opens, j) && Bound(m, lines, opens, j)[name] == fd
    ensures name !in Bound(m, lines, opens, j + 1)
  {
    CloseOfBound(Bound(m, lines, opens, j), LineTokens(lines[j]), opens(j), name);
  }

  lemma UnboundByClose(m: Names, lines: seq<string>, opens: nat -> Creation, name: string, fd: int, i: nat, j: nat)
    requires i <= j < |lines| && name in Bound(m, lines, opens, i) && Bound(m, lines, opens, i)[name] == fd
    requires Closes(lines[j], fd) && forall n :: i <= n < j ==> !Closes(lines[n], fd)
    ensures name !in Bound(m, lines, opens, j + 1)
  {
    BoundBetween(m, lines, opens, name, fd, i, j);
    CloseUnbinds(m, lines, opens, name, fd, j);
  }

  lemma UnboundUntil(m: Names, lines: seq<string>, opens: nat -> Creation, name: string, fd: int, i: nat, j: nat, k: nat)
    requires i <= j < k <= |lines| && name in Bound(m, lines, opens, i) && Bound(m, lines, opens, i)[name] == fd
    requires Closes(lines[j], fd) && forall n :: i <= n < j ==> !Closes(lines[n], fd)
    requires forall n :: j < n < k ==> !Opens(lines[n], name)
    ensures name !in Bound(m, lines, opens, k)
  {
    UnboundByClose(m, lines, opens, name, fd, i, j);
    UnboundBetween(m, lines, opens, name, j + 1, k);
  }

  /** And the first FOPEN of the name after that creates the file again. */
  lemma OpensAgain(m: Names, lines: seq<string>, opens: nat -> Creation, replies: seq<Reply>,
                   name: string, fd: int, i: nat, j: nat, k: nat)
    requires Conversation(m, lines, opens, replies) && i < j < k < |replies| && k < |lines|
    requires Opens(lines[i], name) && replies[i] == Ok(fd)
    requires Closes(lines[j], fd) && forall n :: i < n < j ==> !Closes(lines[n], fd)
    requires Opens(lines[k], name) && forall n :: j < n < k ==> !Opens(lines[n], name)
    ensures replies[k] == if opens(k).recorded && opens(k).fd != -1 then Ok(opens(k).fd) else Fail
  {
    BoundByOk(m, lines, opens, replies, name, fd, i);
    UnboundUntil(m, lines, opens, name, fd, i + 1, j, k);
    AnswerOfUnbound(m, lines, opens, replies, name, k);
  }

  // ---------- the bytes of a conversation ----------

  lemma OpenLine(name: string)
    requires IsName(name)
    ensures LineTokens("FOPEN " + name) == ["FOPEN", name]
  {
    var line := "FOPEN " + name;
    CStringIs(line, 0, line);
    TwoWords("FOPEN", name, "");
    assert "FOPEN" + (" " + (name + "")) == line;
  }

  lemma TwoWords(v: string, w: string, rest: string)
    requires v != "" && BlankFree(v) && w != "" && BlankFree(w) && (rest == "" || rest[0] == ' ')
    ensures Tokens(v + (" " + (w + rest))) == [v, w] + Words(rest)
  {
    SecondWord(w, rest);
    FirstWord(v, " " + (w + rest));
    OneByOne(v, w, Words(rest));
  }

  lemma SecondWord(w: string, rest: string)
    requires w != "" && BlankFree(w) && (rest == "" || rest[0] == ' ')
    ensures Words(" " + (w + rest)) == [w] + Words(rest)
  {
    BehindBlank(w + rest);
    WordsCons(w, rest);
  }

  lemma OneByOne(v: string, w: string, rest: seq<string>)
    ensures [v] + ([w] + rest) == [v, w] + rest
  {
  }

  lemma FirstWord(v: string, more: string)
    requires v != "" && BlankFree(v) && (more == "" || more[0] == ' ')
    ensures Tokens(v + more) == [v] + Words(more)
  {
    WordsCons(v, more);
    assert (v + more)[0] == v[0] && v[0] in v;
  }

  lemma BehindBlank(s: string)
    ensures Words(" " + s) == Words(s)
  {
    assert (" " + s)[1..] == s;
  }

  lemma CloseTokens(d: string)
    requires d != "" && BlankFree(d)
    ensures Tokens("FCLOSE" + (" " + (d + " x"))) == ["FCLOSE", d, "x"]
  {
    TwoWords("FCLOSE", d, " x");
    BehindBlank("x");
    assert " " + "x" == " x";
    SingleToken("x");
  }

  lemma CloseLine(fd: int)
    ensures LineTokens("FCLOSE " + Decimal(fd) + " x") == ["FCLOSE", Decimal(fd), "x"]
  {
    DecimalIsWord(fd);
    var line := "FCLOSE " + Decimal(fd) + " x";
    CStringIs(line, 0, line);
    CloseTokens(Decimal(fd));
    assert "FCLOSE" + (" " + (Decimal(fd) + " x")) == line;
  }

  /**
   From bytes to replies: whoever sends an FOPEN of a new name, an FCLOSE of the descriptor of the reply, and the FOPEN
   again, gets the first descriptor, OK, and the second one, and the name is bound to that in the end.
   */
  lemma OpenCloseOpen(name: string, f: int, g: int, opens: nat -> Creation)
    requires IsName(name) && '\n' !in name && |name| <= 200 && IsInt(f) && |Decimal(f)| <= 200 && f != -1 && g != -1
    requires opens(0) == Creation(f, true) && opens(2) == Creation(g, true)
    ensures var sent := Frames(["FOPEN " + name, "FCLOSE " + Decimal(f) + " x", "FOPEN " + name]);
            Converse(map[], ReadAll(sent, 255), opens, 0) == (map[name := g], [Ok(f), Ok(0), Ok(g)])
  {
    var lines := ["FOPEN " + name, "FCLOSE " + Decimal(f) + " x", "FOPEN " + name];
    DecimalIsWord(f);
    FramesComeBack(lines, 255);
    OpenLine(name);
    CloseLine(f);
    ThreeReplies(name, f, g, lines, opens);
  }

  predicate Goes(lines: seq<string>, opens: nat -> Creation, i: nat, m: Names, m': Names, reply: Reply) {
    && i < |lines| && LineTokens(lines[i])[0] != "quit"
    && Respond(m, LineTokens(lines[i]), opens(i)) == (m', reply)
  }

  lemma ThreeReplies(name: string, f: int, g: int, lines: seq<string>, opens: nat -> Creation)
    requires IsInt(f) && f != -1 && g != -1 && opens(0) == Creation(f, true) && opens(2) == Creation(g, true)
    requires |lines| == 3 && Opens(lines[0], name) && Opens(lines[2], name)
    requires LineTokens(lines[1]) == ["FCLOSE", Decimal(f), "x"]
    ensures Converse(map[], lines, opens, 0) == (map[name := g], [Ok(f), Ok(0), Ok(g)])
  {
    OpenGoes(lines, opens, 0, name, f);
    CloseGoes(lines, opens, 1, name, f);
    OpenGoes(lines, opens, 2, name, g);
    ThreeLines(lines, opens, 0, map[], map[name := f], map[], map[name := g], Ok(f), Ok(0), Ok(g));
  }

  lemma OpenGoes(lines: seq<string>, opens: nat -> Creation, i: nat, name: string, f: int)
    requires i < |lines| && Opens(lines[i], name) && opens(i) == Creation(f, true) && f != -1
    ensures Goes(lines, opens, i, map[], map[name := f], Ok(f))
  {
    OpenFresh(map[], name, f);
  }

  lemma CloseGoes(lines: seq<string>, opens: nat -> Creation, i: nat, name: string, f: int)
    requires i < |lines| && LineTokens(lines[i]) == ["FCLOSE", Decimal(f), "x"] && IsInt(f)
    ensures Goes(lines, opens, i, map[name := f], map[], Ok(0))
  {
    CloseOnly(name, f, opens(i));
  }

  lemma ThreeLines(lines: seq<string>, opens: nat -> Creation, i: nat, m0: Names, m1: Names, m2: Names, m3: Names,
                   r0: Reply, r1: Reply, r2: Reply)
    requires i + 3 == |lines|
    requires Goes(lines, opens, i, m0, m1, r0) && Goes(lines, opens, i + 1, m1, m2, r1)
    requires Goes(lines, opens, i + 2, m2, m3, r2)
    ensures Converse(m0, lines, opens, i) == (m3, [r0, r1, r2])
  {
    TwoLines(lines, opens, i + 1, m1, m2, m3, r1, r2);
    FirstReply(m0, lines, opens, i, m1, r0, m3, [r1, r2], [r0, r1, r2]);
  }

  lemma TwoLines(lines: seq<string>, opens: nat -> Creation, i: nat, m1: Names, m2: Names, m3: Names,
                 r1: Reply, r2: Reply)
    requires i + 2 == |lines| && Goes(lines, opens, i, m1, m2, r1) && Goes(lines, opens, i + 1, m2, m3, r2)
    ensures Converse(m1, lines, opens, i) == (m3, [r1, r2])
  {
    LastReply(m3, lines, opens);
    FirstReply(m2, lines, opens, i + 1, m3, r2, m3, [], [r2]);
    FirstReply(m1, lines, opens, i, m2, r1, m3, [r2], [r1, r2]);
  }

  lemma LastReply(m: Names, lines: seq<string>, opens: nat -> Creation)
    ensures Converse(m, lines, opens, |lines|) == (m, [])
  {
  }

  lemma OpenFresh(m: Names, name: string, f: int)
    requires name !in m && f != -1
    ensures Respond(m, ["FOPEN", name], Creation(f, true)) == (m[name := f], Ok(f))
  {
    assert ["FOPEN", name][1] == name;
  }

  lemma CloseOnly(name: string, f: int, file: Creation)
    requires IsInt(f)
    ensures Respond(map[name := f], ["FCLOSE", Decimal(f), "x"], file) == (map[], Ok(0))
  {
    AtoiOfDecimal(f);
    CloseIsAnswered(map[name := f], Decimal(f), "x", file);
    CloseOfBound(map[name := f], ["FCLOSE", Decimal(f), "x"], file, name);
  }

  lemma FirstReply(m: Names, lines: seq<string>, opens: nat -> Creation, i: nat, m': Names, reply: Reply,
                   last: Names, more: seq<Reply>, all: seq<Reply>)
    requires Goes(lines, opens, i, m, m', reply) && Converse(m', lines, opens, i + 1) == (last, more)
    requires all == [reply] + more
    ensures Converse(m, lines, opens, i) == (last, all)
  {
  }
}
