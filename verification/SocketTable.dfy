/**
 The table of client sockets of the command server (ciserv.cc): parallel arrays that are shifted on delete,
 extended on accept, and scanned for the first socket with something to read.
 */
module SocketTable {
  import opened CStrings
  import opened Tokenizer
  import opened LineReader
  import opened Options

  const MAX_CLIENTS: nat := 100
  const POLLIN: int := 1

  type Block = nat

  datatype PollFd = PollFd(fd: int, events: int, revents: int)

  /** A connected client; arrival numbers the successful accepts. */
  datatype Client = Client(arrival: nat, fd: int, addr: Block, len: Block)

  /** heap: the allocated blocks. leaked: those that no live slot owns any more. */
  datatype Table = Table(clients: seq<Client>, arrivals: nat, heap: set<Block>, leaked: multiset<Block>)

  /** What poll, accept and new return in one turn of the main loop, and what the client that is served has sent. */
  datatype Turn = Turn(revents: nat -> int, input: string, accepted: int, addr: Block, len: Block)

  const REQUEST_MAX: nat := 255

  /** The request ends the connection: end of file, or "quit". */
  predicate Leaves(input: string) {
    match NextLine(input, false, REQUEST_MAX)
    case NoData => true
    case Failed => false
    case Text(t) => CStringAt(t, 0) == "quit"
  }

  /** The bytes start with the word "quit", and it ends there. */
  predicate IsQuit(input: string) {
    |input| >= 4 && input[..4] == "quit" && (|input| == 4 || input[4] == '\n' || input[4] == NUL)
  }

  /**
   Which bytes end the connection: none at all, or "quit" followed by nothing, a newline or a NUL. So an empty request
   does not, although the comment on do_client says so.
   */
  lemma WhatLeaves(input: string)
    ensures Leaves(input) <==> input == "" || IsQuit(input)
  {
    if input != "" && Leaves(input) {
      var t := NextLine(input, false, REQUEST_MAX).text;
      assert t[0..4] == "quit";
      assert t[..4] == input[..4];
    }
    if IsQuit(input) {
      QuitLeaves(input);
    }
  }

  lemma QuitLeaves(input: string)
    requires IsQuit(input)
    ensures Leaves(input)
  {
    if |input| == 4 || input[4] == '\n' {
      LineLengthIs(input, 4);
    } else {
      assert input[..5] == input[..4] + [NUL];
      LongLine(input, 5);
    }
    var t := NextLine(input, false, REQUEST_MAX).text;
    assert t[0..4] == input[..4];
    CStringIs(t, 0, "quit");
  }

  // ---------- the table as a sequence of clients ----------

  /** The blocks the clients own, each as often as it is owned. */
  function Blocks(cs: seq<Client>): multiset<Block> {
    if cs == [] then multiset{} else multiset{cs[0].addr, cs[0].len} + Blocks(cs[1..])
  }

  /** Every allocated block is owned by exactly one slot, once, or is leaked. */
  ghost predicate Owned(tab: Table) {
    Blocks(tab.clients) + tab.leaked == multiset(tab.heap)
  }

  /** Clients are in strictly increasing order of arrival. */
  ghost predicate Ordered(tab: Table) {
    && (forall i, j :: 0 <= i < j < |tab.clients| ==> tab.clients[i].arrival < tab.clients[j].arrival)
    && (forall i :: 0 <= i < |tab.clients| ==> tab.clients[i].arrival < tab.arrivals)
  }

  /** No two clients have the same descriptor. */
  ghost predicate Distinct(tab: Table) {
    forall i, j :: 0 <= i < j < |tab.clients| ==> tab.clients[i].fd != tab.clients[j].fd
  }

  ghost predicate Good(tab: Table) {
    Owned(tab) && Ordered(tab) && Distinct(tab) && |tab.clients| < 100
  }

  /** Client i leaves, and its blocks are freed. */
  function Without(tab: Table, i: nat): Table
    requires i < |tab.clients|
  {
    tab.(clients := tab.clients[..i] + tab.clients[i + 1..],
         heap := tab.heap - {tab.clients[i].addr, tab.clients[i].len})
  }

  /** An accept with the given result: refused without room, and without effect on the clients if it fails. */
  function WithAccept(tab: Table, accepted: int, addr: Block, len: Block): Table {
    if |tab.clients| + 1 >= MAX_CLIENTS then tab
    else if accepted < 0 then
      tab.(heap := tab.heap + {addr, len}, leaked := tab.leaked + multiset{addr, len})
    else
      tab.(clients := tab.clients + [Client(tab.arrivals, accepted, addr, len)], arrivals := tab.arrivals + 1,
           heap := tab.heap + {addr, len})
  }

  /** Client i, in slot i + 1, has something to read. */
  predicate Ready(revents: nat -> int, i: nat) {
    revents(i + 1) == POLLIN
  }

  /** The first client, from client i on, that is ready. */
  function FirstReady(n: nat, revents: nat -> int, i: nat): Option<nat>
    requires i <= n
    decreases n - i
  {
    if i == n then None else if Ready(revents, i) then Some(i) else FirstReady(n, revents, i + 1)
  }

  /** One turn of the main loop. */
  function AfterTurn(tab: Table, turn: Turn): Table {
    match FirstReady(|tab.clients|, turn.revents, 0)
    case Some(i) => if Leaves(turn.input) && i < |tab.clients| then Without(tab, i) else tab
    case None =>
      if turn.revents(0) == POLLIN then WithAccept(tab, turn.accepted, turn.addr, turn.len) else tab
  }

  /** What do_client sends back in the end, and to which descriptor. */
  datatype Reply = Reply(fd: int, text: string)

  /** The request comes back up to its first blank, where the tokenizer has cut it. */
  function Acknowledge(t: string): string {
    "ACK: " + Tokens(CStringAt(t, 0))[0] + "\n"
  }

  /**
   Who gets a reply that is sent to slot i + 1 when the request has been dealt with: the client in it, which is the
   next one if the sender has left. Without a next one the slot still has the descriptor that was closed, and nobody does.
   */
  function Addressee(tab: Table, i: nat, left: bool): Option<int>
    requires i < |tab.clients|
  {
    if !left then Some(tab.clients[i].fd)
    else if i + 1 < |tab.clients| && tab.clients[i + 1].fd != tab.clients[i].fd then Some(tab.clients[i + 1].fd)
    else None
  }

  /** A send to a closed descriptor fails. */
  function ReplyTo(fd: Option<int>, t: string): Option<Reply> {
    if fd.Some? then Some(Reply(fd.value, Acknowledge(t))) else None
  }

  /** The reply to client i, unless the input is at its end. */
  function Answer(tab: Table, i: nat, input: string): Option<Reply>
    requires i < |tab.clients|
  {
    match NextLine(input, false, REQUEST_MAX)
    case Text(t) => ReplyTo(Addressee(tab, i, Leaves(input)), t)
    case _ => None
  }

  /** The reply of one turn of the main loop. */
  function TurnAnswer(tab: Table, turn: Turn): Option<Reply> {
    match FirstReady(|tab.clients|, turn.revents, 0)
    case Some(i) => if i < |tab.clients| then Answer(tab, i, turn.input) else None
    case None => None
  }

  /**
   new returns distinct blocks that are not allocated, and accept a descriptor that no client has; they may have been
   freed or closed before.
   */
  predicate Allocates(tab: Table, turn: Turn) {
    && turn.addr !in tab.heap && turn.len !in tab.heap && turn.addr != turn.len
    && forall c :: c in tab.clients ==> c.fd != turn.accepted
  }

  lemma {:induction false} BlocksConcat(a: seq<Client>, b: seq<Client>)
    ensures Blocks(a + b) == Blocks(a) + Blocks(b)
  {
    if a == [] {
      assert a + b == b;
    } else {
      assert (a + b)[1..] == a[1..] + b;
      BlocksConcat(a[1..], b);
    }
  }

  lemma BlocksSplit(cs: seq<Client>, i: nat)
    requires i < |cs|
    ensures Blocks(cs) == multiset{cs[i].addr, cs[i].len} + Blocks(cs[..i] + cs[i + 1..])
  {
    var a, b := cs[..i], cs[i..];
    assert cs == a + b;
    BlocksConcat(a, b);
    assert b[0] == cs[i] && b[1..] == cs[i + 1..];
    BlocksConcat(a, b[1..]);
  }

  lemma FreeTwo(x: Block, y: Block, rest: multiset<Block>, heap: set<Block>)
    requires multiset{x, y} + rest == multiset(heap)
    ensures x != y && x in heap && y in heap && x !in rest && y !in rest
    ensures rest == multiset(heap - {x, y})
  {
    assert multiset(heap)[x] <= 1 && multiset(heap)[y] <= 1;
    assert x in multiset(heap) && y in multiset(heap);
    assert multiset(heap - {x, y}) == multiset(heap) - multiset{x, y};
  }

  /** The blocks of a live slot are allocated, are two blocks, and belong to no other slot. */
  lemma SlotOwnsItsBlocks(tab: Table, i: nat)
    requires Owned(tab) && i < |tab.clients|
    ensures var c := tab.clients[i];
            && c.addr != c.len && c.addr in tab.heap && c.len in tab.heap
            && c.addr !in Blocks(tab.clients[..i] + tab.clients[i + 1..])
            && c.len !in Blocks(tab.clients[..i] + tab.clients[i + 1..])
    ensures Owned(Without(tab, i))
  {
    var c, others := tab.clients[i], Blocks(tab.clients[..i] + tab.clients[i + 1..]);
    BlocksSplit(tab.clients, i);
    assert multiset{c.addr, c.len} + (others + tab.leaked) == multiset(tab.heap);
    FreeTwo(c.addr, c.len, others + tab.leaked, tab.heap);
  }

  lemma AllocateTwo(owned: multiset<Block>, leaked: multiset<Block>, heap: set<Block>, x: Block, y: Block)
    requires owned + leaked == multiset(heap) && x !in heap && y !in heap && x != y
    ensures (owned + multiset{x, y}) + leaked == multiset(heap + {x, y})
    ensures owned + (leaked + multiset{x, y}) == multiset(heap + {x, y})
  {
    assert multiset(heap + {x, y}) == multiset(heap) + multiset{x, y};
  }

  lemma BlocksSnoc(cs: seq<Client>, c: Client)
    ensures Blocks(cs + [c]) == Blocks(cs) + multiset{c.addr, c.len}
  {
    BlocksConcat(cs, [c]);
    assert [c][1..] == [];
  }

  lemma AcceptOwns(tab: Table, accepted: int, addr: Block, len: Block)
    requires Owned(tab) && addr !in tab.heap && len !in tab.heap && addr != len
    ensures Owned(WithAccept(tab, accepted, addr, len))
  {
    AllocateTwo(Blocks(tab.clients), tab.leaked, tab.heap, addr, len);
    BlocksSnoc(tab.clients, Client(tab.arrivals, accepted, addr, len));
  }

  lemma AcceptedClients(tab: Table, accepted: int, addr: Block, len: Block)
    requires |tab.clients| + 1 < MAX_CLIENTS
    ensures var after := WithAccept(tab, accepted, addr, len);
            && after.heap == tab.heap + {addr, len}
            && (accepted < 0 ==> after.clients == tab.clients)
            && (accepted >= 0 ==>
                  && |after.clients| == |tab.clients| + 1
                  && (forall i :: 0 <= i < |tab.clients| ==> after.clients[i] == tab.clients[i])
                  && after.clients[|tab.clients|] == Client(tab.arrivals, accepted, addr, len))
  {
  }

  lemma AcceptOrdered(tab: Table, accepted: int, addr: Block, len: Block)
    requires Ordered(tab)
    ensures Ordered(WithAccept(tab, accepted, addr, len))
  {
  }

  lemma WithoutAt(tab: Table, i: nat)
    requires i < |tab.clients|
    ensures |Without(tab, i).clients| == |tab.clients| - 1
    ensures forall j :: 0 <= j < |tab.clients| - 1 ==> Without(tab, i).clients[j] == tab.clients[if j < i then j else j + 1]
  {
  }

  lemma WithoutOrdered(tab: Table, i: nat)
    requires Ordered(tab) && i < |tab.clients|
    ensures Ordered(Without(tab, i))
  {
  }

  lemma WithoutDistinct(tab: Table, i: nat)
    requires Distinct(tab) && i < |tab.clients|
    ensures Distinct(Without(tab, i))
  {
  }

  lemma AcceptDistinct(tab: Table, accepted: int, addr: Block, len: Block)
    requires Distinct(tab) && forall c :: c in tab.clients ==> c.fd != accepted
    ensures Distinct(WithAccept(tab, accepted, addr, len))
  {
  }

  lemma {:induction false} FirstReadyIs(n: nat, revents: nat -> int, i: nat)
    requires i <= n
    ensures match FirstReady(n, revents, i)
            case Some(k) => i <= k < n && Ready(revents, k) && forall j :: i <= j < k ==> !Ready(revents, j)
            case None => forall j :: i <= j < n ==> !Ready(revents, j)
    decreases n - i
  {
    if i < n {
      FirstReadyIs(n, revents, i + 1);
    }
  }

  /** Every turn keeps the table good. */
  lemma TurnKeepsGood(tab: Table, turn: Turn)
    requires Good(tab) && Allocates(tab, turn)
    ensures Good(AfterTurn(tab, turn))
  {
    match FirstReady(|tab.clients|, turn.revents, 0)
    case Some(i) =>
      if Leaves(turn.input) && i < |tab.clients| {
        SlotOwnsItsBlocks(tab, i);
        WithoutOrdered(tab, i);
        WithoutDistinct(tab, i);
      }
    case None =>
      AcceptOwns(tab, turn.accepted, turn.addr, turn.len);
      AcceptOrdered(tab, turn.accepted, turn.addr, turn.len);
      AcceptDistinct(tab, turn.accepted, turn.addr, turn.len);
  }

  /** Any number of turns from an empty table. */
  ghost predicate Reaches(tabs: seq<Table>, turns: seq<Turn>) {
    && |tabs| == |turns| + 1
    && tabs[0] == Table([], 0, {}, multiset{})
    && forall i :: 0 <= i < |turns| ==> Allocates(tabs[i], turns[i]) && tabs[i + 1] == AfterTurn(tabs[i], turns[i])
  }

  /** In every reachable table the clients are in arrival order, own their blocks, and leave room as promised. */
  lemma {:induction false} RunsKeepGood(tabs: seq<Table>, turns: seq<Turn>)
    requires Reaches(tabs, turns)
    ensures forall i :: 0 <= i < |tabs| ==> Good(tabs[i])
  {
    for n := 0 to |turns|
      invariant forall i :: 0 <= i <= n ==> Good(tabs[i])
    {
      TurnKeepsGood(tabs[n], turns[n]);
    }
  }

  lemma {:induction false} BlockCount(cs: seq<Client>)
    ensures |Blocks(cs)| == 2 * |cs|
  {
    if cs != [] {
      BlockCount(cs[1..]);
    }
  }

  /** In this turn accept_new has room but accept fails. */
  predicate FailsToAccept(tab: Table, turn: Turn) {
    FirstReady(|tab.clients|, turn.revents, 0) == None && turn.revents(0) == POLLIN
      && |tab.clients| + 1 < MAX_CLIENTS && turn.accepted < 0
  }

  function Failures(tabs: seq<Table>, turns: seq<Turn>): nat
    requires |tabs| == |turns| + 1
  {
    if turns == [] then 0
    else
      var n := |turns| - 1;
      Failures(tabs[..n + 1], turns[..n]) + if FailsToAccept(tabs[n], turns[n]) then 1 else 0
  }

  lemma {:induction false} LeakedOverRun(tabs: seq<Table>, turns: seq<Turn>)
    requires Reaches(tabs, turns)
    ensures |tabs[|turns|].leaked| == 2 * Failures(tabs, turns)
  {
    if turns != [] {
      var n := |turns| - 1;
      LeakedOverRun(tabs[..n + 1], turns[..n]);
      LeakedByTurn(tabs[n], turns[n]);
    }
  }

  lemma LeakedByTurn(tab: Table, turn: Turn)
    ensures |AfterTurn(tab, turn).leaked| == |tab.leaked| + if FailsToAccept(tab, turn) then 2 else 0
  {
  }

  /**
   Accounting for memory: over any run, the allocated blocks are two for each live client and two for each
   failed accept, because the delete_socket call after a failed accept is guarded off.
   */
  lemma {:induction false} HeapOverRun(tabs: seq<Table>, turns: seq<Turn>)
    requires Reaches(tabs, turns)
    ensures |tabs[|turns|].heap| == 2 * |tabs[|turns|].clients| + 2 * Failures(tabs, turns)
  {
    RunsKeepGood(tabs, turns);
    LeakedOverRun(tabs, turns);
    var last := tabs[|turns|];
    BlockCount(last.clients);
    assert |multiset(last.heap)| == |last.heap|;
    assert |Blocks(last.clients) + last.leaked| == |Blocks(last.clients)| + |last.leaked|;
  }

  /**
   The reply reaches the client that sent the request if and only if the request was not "quit". After "quit" it goes
   to the next client, which moves into its slot, and to nobody if there is none.
   */
  lemma QuitIsAnsweredToTheNext(tab: Table, turn: Turn, i: nat)
    requires Good(tab) && turn.input != ""
    requires i < |tab.clients| && Ready(turn.revents, i) && forall j :: 0 <= j < i ==> !Ready(turn.revents, j)
    ensures var reply, after := TurnAnswer(tab, turn), AfterTurn(tab, turn);
            && (reply.Some? && reply.value.fd == tab.clients[i].fd <==> !IsQuit(turn.input))
            && (!IsQuit(turn.input) ==> after.clients == tab.clients)
            && (IsQuit(turn.input) && i + 1 < |tab.clients| ==>
                  && reply.Some? && i < |after.clients| && reply.value.fd == after.clients[i].fd
                  && after.clients[i] == tab.clients[i + 1])
            && (IsQuit(turn.input) && i + 1 == |tab.clients| ==> reply == None && |after.clients| == i)
  {
    FirstReadyIs(|tab.clients|, turn.revents, 0);
    WhatLeaves(turn.input);
    if IsQuit(turn.input) && i + 1 < |tab.clients| {
      assert Without(tab, i).clients[i] == tab.clients[i + 1];
    }
  }

  /** One failed accept: no client, and two blocks that nobody owns. */
  lemma FailedAcceptLeaks() returns (tabs: seq<Table>, turns: seq<Turn>)
    ensures Reaches(tabs, turns) && |turns| == 1 && FailsToAccept(tabs[0], turns[0])
    ensures tabs[1] == Table([], 0, {1, 2}, multiset{1, 2})
  {
    turns := [Turn(i => if i == 0 then POLLIN else 0, "", -1, 1, 2)];
    var empty := Table([], 0, {}, multiset{});
    tabs := [empty, WithAccept(empty, -1, 1, 2)];
  }

  /** The client that is served has waited longest of all that are ready; a connection is accepted only if none is. */
  lemma ServesLongestConnected(tab: Table, turn: Turn)
    requires Ordered(tab)
    ensures match FirstReady(|tab.clients|, turn.revents, 0)
            case Some(k) =>
              && k < |tab.clients| && Ready(turn.revents, k)
              && (forall j :: 0 <= j < |tab.clients| && Ready(turn.revents, j) ==>
                    tab.clients[k].arrival <= tab.clients[j].arrival)
              && AfterTurn(tab, turn).arrivals == tab.arrivals
            case None => forall j :: 0 <= j < |tab.clients| ==> !Ready(turn.revents, j)
  {
    FirstReadyIs(|tab.clients|, turn.revents, 0);
  }

  /** A turn in which no client is ready, and somebody wants to connect. */
  ghost predicate Knocks(tab: Table, turn: Turn) {
    turn.revents(0) == POLLIN && forall j :: 0 <= j < |tab.clients| ==> !Ready(turn.revents, j)
  }

  /** It takes a new client in, behind all others, unless 99 are connected or accept fails. */
  lemma TurnAccepts(tab: Table, turn: Turn)
    requires Knocks(tab, turn)
    ensures var after := AfterTurn(tab, turn);
            && (|tab.clients| >= 99 ==> after == tab)
            && (|tab.clients| < 99 ==> after.heap == tab.heap + {turn.addr, turn.len})
            && (|tab.clients| < 99 && turn.accepted >= 0 ==>
                  && after.clients == tab.clients + [Client(tab.arrivals, turn.accepted, turn.addr, turn.len)]
                  && after.arrivals == tab.arrivals + 1 && after.leaked == tab.leaked)
            && (|tab.clients| < 99 && turn.accepted < 0 ==>
                  && after.clients == tab.clients && after.arrivals == tab.arrivals
                  && after.leaked == tab.leaked + multiset{turn.addr, turn.len})
  {
    FirstReadyIs(|tab.clients|, turn.revents, 0);
  }

  /** If nobody wants to connect either, nothing happens. */
  lemma QuietTurn(tab: Table, turn: Turn)
    requires turn.revents(0) != POLLIN && forall j :: 0 <= j < |tab.clients| ==> !Ready(turn.revents, j)
    ensures AfterTurn(tab, turn) == tab
  {
    FirstReadyIs(|tab.clients|, turn.revents, 0);
  }

  /** If a client is ready, the first one is served: it leaves exactly at its end of file or "quit", with its blocks. */
  lemma TurnServes(tab: Table, turn: Turn, i: nat)
    requires i < |tab.clients| && Ready(turn.revents, i) && forall j :: 0 <= j < i ==> !Ready(turn.revents, j)
    ensures var after := AfterTurn(tab, turn);
            if turn.input == "" || IsQuit(turn.input) then
              && |after.clients| == |tab.clients| - 1 && after.arrivals == tab.arrivals && after.leaked == tab.leaked
              && after.heap == tab.heap - {tab.clients[i].addr, tab.clients[i].len}
              && (forall j :: 0 <= j < i ==> after.clients[j] == tab.clients[j])
              && (forall j :: i <= j < |after.clients| ==> after.clients[j] == tab.clients[j + 1])
            else after == tab
  {
    FirstReadyIs(|tab.clients|, turn.revents, 0);
    WhatLeaves(turn.input);
  }

  /** Any number of connections in a row: the first 99 become clients, in their order. */
  lemma {:induction false} FirstNinetyNineGetIn(tabs: seq<Table>, turns: seq<Turn>)
    requires Reaches(tabs, turns)
    requires forall n :: 0 <= n < |turns| ==> Knocks(tabs[n], turns[n]) && turns[n].accepted >= 0
    ensures var clients := tabs[|turns|].clients;
            && |clients| == (if |turns| < 99 then |turns| else 99)
            && forall i :: 0 <= i < |clients| ==> clients[i] == Client(i, turns[i].accepted, turns[i].addr, turns[i].len)
  {
    for n := 0 to |turns|
      invariant |tabs[n].clients| == (if n < 99 then n else 99) == tabs[n].arrivals
      invariant forall i :: 0 <= i < |tabs[n].clients| ==>
                  tabs[n].clients[i] == Client(i, turns[i].accepted, turns[i].addr, turns[i].len)
    {
      TurnAccepts(tabs[n], turns[n]);
    }
  }

  lemma StringPastWord(t: string, w: string)
    requires NUL !in w && |w| < |t| && t[..|w|] == w && t[|w|] != NUL
    ensures var s := CStringAt(t, 0); |s| > |w| && s[..|w|] == w && s[|w|] == t[|w|]
  {
    var s := CStringAt(t, 0);
    assert forall k :: 0 <= k < |w| ==> t[k] == w[k];
    assert s == t[0..|s|];
  }

  lemma WordIsToken(t: string, w: string)
    requires w != "" && BlankFree(w) && NUL !in w && |w| <= |t| && t[..|w|] == w
    requires |t| == |w| || t[|w|] == ' ' || t[|w|] == NUL
    ensures Tokens(CStringAt(t, 0))[0] == w
  {
    if |t| == |w| || t[|w|] == NUL {
      assert t[0..|w|] == w;
      CStringIs(t, 0, w);
      SingleToken(w);
    } else {
      StringPastWord(t, w);
      FirstWordOf(CStringAt(t, 0), w);
    }
  }

  lemma FirstWordOf(s: string, w: string)
    requires w != "" && BlankFree(w) && |w| < |s| && s[..|w|] == w && s[|w|] == ' '
    ensures Tokens(s)[0] == w
  {
    assert s == w + s[|w|..];
    assert s[0] == w[0] && w[0] in w;
    WordsCons(w, s[|w|..]);
  }

  /** What one call of the reader makes of a request that starts with the word. */
  lemma ReadWord(w: string, rest: string)
    requires w != "" && BlankFree(w) && NUL !in w && '\n' !in w
    requires rest == "" || rest[0] == ' ' || rest[0] == '\n' || rest[0] == NUL
    ensures var line, n := NextLine(w + rest, false, REQUEST_MAX), if |w| < 255 then |w| else 255;
            && line.Text? && n <= |line.text| && line.text[..n] == w[..n]
            && (|line.text| == n || line.text[n] == ' ' || line.text[n] == NUL)
  {
    var data, n := w + rest, if |w| < 255 then |w| else 255;
    assert data[..n] == w[..n];
    LongLine(data, n);
    var k := LineLength(data);
    var t := NextLine(data, false, REQUEST_MAX).text;
    assert t[..n] == data[..n];
    if |t| > n {
      LineHasNoNewline(data);
      assert t[n] == data[..k][n] && data[n] == rest[0];
    }
  }

  /** The reply to a request whose first word is w: that word, or as much of it as is read at a time, 255 bytes. */
  lemma FirstWordComesBack(tab: Table, i: nat, w: string, rest: string)
    requires i < |tab.clients| && w != "" && BlankFree(w) && NUL !in w && '\n' !in w
    requires rest == "" || rest[0] == ' ' || rest[0] == '\n' || rest[0] == NUL
    requires !IsQuit(w + rest)
    ensures Answer(tab, i, w + rest)
         == Some(Reply(tab.clients[i].fd, "ACK: " + w[..if |w| < 255 then |w| else 255] + "\n"))
  {
    var n := if |w| < 255 then |w| else 255;
    ReadWord(w, rest);
    WhatLeaves(w + rest);
    WordIsToken(NextLine(w + rest, false, REQUEST_MAX).text, w[..n]);
  }

  // ---------- the arrays ----------

  class Sockets {
    const socks: array<PollFd>
    const clientAddr: array<Block>
    const clientAddrLen: array<Block>
    var openSocks: nat
    var heap: set<Block>
    ghost var table: Table

    ghost predicate Shape()
      reads this
    {
      && socks.Length == clientAddr.Length == clientAddrLen.Length == MAX_CLIENTS + 1
      && clientAddr != clientAddrLen
      && 1 <= openSocks <= MAX_CLIENTS
    }

    /** The live slots hold the clients of the table; slots past the end may hold anything. */
    ghost predicate Valid()
      reads this, socks, clientAddr, clientAddrLen
    {
      && Shape()
      && heap == table.heap && Owned(table) && |table.clients| == openSocks - 1
      && forall i :: 1 <= i < openSocks ==>
           && socks[i].fd == table.clients[i - 1].fd
           && clientAddr[i] == table.clients[i - 1].addr
           && clientAddrLen[i] == table.clients[i - 1].len
    }

    constructor (listening: int)
      ensures Valid() && table == Table([], 0, {}, multiset{})
      ensures fresh(socks) && fresh(clientAddr) && fresh(clientAddrLen)
      ensures socks[0].fd == listening
    {
      socks := new PollFd[MAX_CLIENTS + 1](_ => PollFd(0, 0, 0));
      clientAddr := new Block[MAX_CLIENTS + 1](_ => 0);
      clientAddrLen := new Block[MAX_CLIENTS + 1](_ => 0);
      openSocks, heap, table := 1, {}, Table([], 0, {}, multiset{});
      new;
      socks[0] := PollFd(listening, POLLIN, 0);
    }

    /** delete: the block must be allocated. */
    method Free(b: Block)
      requires b in heap
      modifies this`heap
      ensures heap == old(heap) - {b}
    {
      heap := heap - {b};
    }

    /** The shift of delete_socket. */
    method Shift(which: nat)
      requires Shape() && 1 <= which < openSocks
      modifies socks, clientAddr, clientAddrLen
      ensures forall j :: 0 <= j <= MAX_CLIENTS ==>
                socks[j] == old(if which <= j < openSocks - 1 then socks[j + 1] else socks[j])
      ensures forall j :: 0 <= j <= MAX_CLIENTS ==>
                clientAddr[j] == old(if which <= j < openSocks - 1 then clientAddr[j + 1] else clientAddr[j])
      ensures forall j :: 0 <= j <= MAX_CLIENTS ==>
                clientAddrLen[j] == old(if which <= j < openSocks - 1 then clientAddrLen[j + 1] else clientAddrLen[j])
    {
      var i := which + 1;
      while i < openSocks
        invariant which + 1 <= i <= openSocks
        invariant forall j :: 0 <= j <= MAX_CLIENTS ==>
                    socks[j] == old(if which <= j < i - 1 then socks[j + 1] else socks[j])
        invariant forall j :: 0 <= j <= MAX_CLIENTS ==>
                    clientAddr[j] == old(if which <= j < i - 1 then clientAddr[j + 1] else clientAddr[j])
        invariant forall j :: 0 <= j <= MAX_CLIENTS ==>
                    clientAddrLen[j] == old(if which <= j < i - 1 then clientAddrLen[j + 1] else clientAddrLen[j])
      {
        socks[i - 1] := socks[i];
        clientAddr[i - 1] := clientAddr[i];
        clientAddrLen[i - 1] := clientAddrLen[i];
        i := i + 1;
      }
    }

    /** delete_socket: closes and removes a live client; for a slot past the end it does nothing. */
    method DeleteSocket(which: nat) returns (closed: Option<int>)
      requires Valid() && 1 <= which
      modifies this, socks, clientAddr, clientAddrLen
      ensures which < old(openSocks) ==>
                socks[which].fd == old(table).clients[if which < |old(table).clients| then which else which - 1].fd
      ensures Valid() && socks[0] == old(socks[0])
      ensures if which < old(openSocks)
              then closed == Some(old(table).clients[which - 1].fd) && table == Without(old(table), which - 1)
              else closed == None && table == old(table)
    {
      closed := None;
      if which < openSocks {
        SlotOwnsItsBlocks(table, which - 1);
        closed := Some(socks[which].fd);
        Free(clientAddr[which]);
        Free(clientAddrLen[which]);
        Shift(which);
        openSocks := openSocks - 1;
        WithoutAt(table, which - 1);
        table := Without(table, which - 1);
      }
    }

    /** accept_new, given what accept and the two calls of new return. */
    method AcceptNew(accepted: int, addr: Block, len: Block)
      requires Valid() && addr !in heap && len !in heap && addr != len
      modifies this, socks, clientAddr, clientAddrLen
      ensures Valid() && table == WithAccept(old(table), accepted, addr, len)
      ensures socks[0] == old(socks[0])
    {
      if openSocks < MAX_CLIENTS {
        AcceptOwns(table, accepted, addr, len);
        clientAddr[openSocks] := addr;
        clientAddrLen[openSocks] := len;
        heap := heap + {addr, len};
        socks[openSocks] := PollFd(accepted, POLLIN, socks[openSocks].revents);
        AcceptedClients(table, accepted, addr, len);
        table := WithAccept(table, accepted, addr, len);
        if socks[openSocks].fd < 0 {
          var closed := DeleteSocket(openSocks);
        } else {
          openSocks := openSocks + 1;
        }
      }
    }

    /** What do_client does with a request; the command itself is left out. */
    method Serve(which: nat, req: array<char>, ghost t: string) returns (reply: Option<Reply>)
      requires Valid() && 1 <= which < openSocks
      requires |t| <= REQUEST_MAX && CStringAt(req[..], 0) == CStringAt(t, 0)
      modifies this, socks, clientAddr, clientAddrLen, req
      ensures var quit := CStringAt(t, 0) == "quit";
              && Valid() && table == (if quit then Without(old(table), which - 1) else old(table))
              && reply == ReplyTo(Addressee(old(table), which - 1, quit), t)
    {
      var closed: Option<int> := None;
      if CStringAt(req[..], 0) == "quit" {
        closed := DeleteSocket(which);
      }
      var text := Acknowledgement(req, t);
      reply := None;
      if closed != Some(socks[which].fd) {
        reply := Some(Reply(socks[which].fd, text));
      }
    }

    /** do_client: one request is read, and may end the connection. */
    method DoClient(which: nat, input: string) returns (reply: Option<Reply>)
      requires Valid() && 1 <= which < openSocks
      modifies this, socks, clientAddr, clientAddrLen
      ensures Valid() && table == if Leaves(input) then Without(old(table), which - 1) else old(table)
      ensures reply == Answer(old(table), which - 1, input)
    {
      var req := new char[256];
      var n := Receive(input, req);
      if n != RECV_NODATA {
        reply := Serve(which, req, NextLine(input, false, REQUEST_MAX).text);
      } else {
        var closed := DeleteSocket(which);
        reply := None;
      }
    }

    /** poll: fills in revents for the sockets in use. */
    method Poll(revents: nat -> int)
      requires Valid()
      modifies socks
      ensures Valid()
      ensures forall i :: 0 <= i < openSocks ==> socks[i] == old(socks[i]).(revents := revents(i))
    {
      forall i | 0 <= i < openSocks {
        socks[i] := socks[i].(revents := revents(i));
      }
    }

    /** One turn of the main loop: serve the first ready client, or else accept if the master socket is ready. */
    method MainTurn(turn: Turn) returns (reply: Option<Reply>)
      requires Valid() && Allocates(table, turn)
      modifies this, socks, clientAddr, clientAddrLen
      ensures Valid() && table == AfterTurn(old(table), turn) && reply == TurnAnswer(old(table), turn)
    {
      reply := None;
      Poll(turn.revents);
      var i := 1;
      while i < openSocks && socks[i].revents != POLLIN
        invariant 1 <= i <= openSocks
        invariant FirstReady(openSocks - 1, turn.revents, 0) == FirstReady(openSocks - 1, turn.revents, i - 1)
      {
        i := i + 1;
      }
      if i < openSocks {
        reply := DoClient(i, turn.input);
      } else if !(socks[0].revents != POLLIN) {
        AcceptNew(turn.accepted, turn.addr, turn.len);
      }
    }
  }

  /** Reads one request into the buffer. */
  method Receive(input: string, req: array<char>) returns (n: int)
    requires req.Length == 256
    modifies req
    ensures match NextLine(input, false, REQUEST_MAX)
            case Text(t) => n != RECV_NODATA && |t| <= REQUEST_MAX && CStringAt(req[..], 0) == CStringAt(t, 0)
            case _ => n == RECV_NODATA
  {
    var fd := new ByteStream(input, false);
    n := Readline(fd, req, REQUEST_MAX);
    if n != RECV_NODATA {
      assert req[..][..n] == req[..n];
      CutAtNul(req[..], n, 0);
    }
  }

  /** Tokenizes the request in place, and puts the text of the reply together. */
  method Acknowledgement(req: array<char>, ghost t: string) returns (text: string)
    requires |t| <= REQUEST_MAX && CStringAt(req[..], 0) == CStringAt(t, 0)
    modifies req
    ensures text == Acknowledge(t)
  {
    var comTok := new nat[129];
    TokenBound(CStringAt(req[..], 0));
    var numTok := TokenizeInBlock(req, comTok);
    text := "ACK: " + CStringAt(req[..], comTok[0]) + "\n";
  }
}
