/**
 What the clients send, over every run: each request was typed by its user and is sent
 once, the server takes the requests in the order in which they were sent, and every
 answer that it sends is received once.
 */
module CalculatorClients {
  import opened Decimal
  import opened Calculator
  import opened CalculatorRouting

  /** The user of client i types a request, and the client accepts it. */
  predicate Accepts(s: State, e: Event, i: nat)
    requires i < |s.clients|
  {
    e.ClientMoves? && e.c == i && s.clients[i].pc.Typing? && Typable(s.clients[i].pid, e.typed)
  }

  lemma {:induction false} PidsStay(pids: seq<int>, events: seq<Event>, i: nat)
    requires i < |pids|
    ensures Run(pids, events).clients[i].pid == pids[i]
  {
    if events == [] {
    } else {
      PidsStay(pids, events[..|events| - 1], i);
    }
  }

  /** One event and client i: it accepts a request, goes on with the latest one, or comes back to its prompt. */
  lemma ClientGoesOn(s: State, e: Event, i: nat)
    requires i < |s.clients| && !Step(s, e).clients[i].pc.Typing?
    ensures if s.clients[i].pc.Typing? then Accepts(s, e, i) && Step(s, e).clients[i].latest == e.typed
            else Step(s, e).clients[i].latest == s.clients[i].latest
  {
  }

  /** The run after the first m events. */
  function At(pids: seq<int>, events: seq<Event>, m: nat): (s: State)
    requires m <= |events|
    ensures |s.clients| == |pids|
  {
    Run(pids, events[..m])
  }

  lemma {:induction false} NextAt(pids: seq<int>, events: seq<Event>, m: nat)
    requires m < |events|
    ensures At(pids, events, m + 1) == Step(At(pids, events, m), events[m])
  {
    assert events[..m + 1][..m] == events[..m];
  }

  /** Event k is the acceptance of a request by client i. */
  ghost predicate AcceptsAt(pids: seq<int>, events: seq<Event>, i: nat, k: nat) {
    k < |events| && i < |pids| && Accepts(At(pids, events, k), events[k], i)
  }

  ghost predicate AtPrompt(pids: seq<int>, events: seq<Event>, i: nat, m: nat) {
    m <= |events| && i < |pids| && At(pids, events, m).clients[i].pc.Typing?
  }

  ghost function LatestAt(pids: seq<int>, events: seq<Event>, i: nat, m: nat): Request
    requires m <= |events| && i < |pids|
  {
    At(pids, events, m).clients[i].latest
  }

  lemma {:induction false} LatestStep(pids: seq<int>, events: seq<Event>, i: nat, m: nat)
    requires i < |pids| && m < |events| && !AtPrompt(pids, events, i, m + 1)
    ensures if AtPrompt(pids, events, i, m) then
              AcceptsAt(pids, events, i, m) && LatestAt(pids, events, i, m + 1) == events[m].typed
            else LatestAt(pids, events, i, m + 1) == LatestAt(pids, events, i, m)
  {
    NextAt(pids, events, m);
    ClientGoesOn(At(pids, events, m), events[m], i);
  }

  lemma {:induction false} StartsAtPrompt(pids: seq<int>, events: seq<Event>, i: nat)
    requires i < |pids|
    ensures AtPrompt(pids, events, i, 0)
  {
  }

  /** The last time before m at which something holds that holds at the start and not at m. */
  lemma {:induction false} LastTime(holds: nat -> bool, m: nat) returns (k: nat)
    requires holds(0) && !holds(m)
    ensures k < m && holds(k) && forall l: nat | k < l <= m :: !holds(l)
  {
    k := m - 1;
    if !holds(k) {
      k := LastTime(holds, k);
    }
  }

  /** Away from its prompt, a client keeps its request. */
  lemma {:induction false} LatestStays(pids: seq<int>, events: seq<Event>, i: nat, k: nat, m: nat)
    requires i < |pids| && k < m <= |events|
    requires forall l: nat | k < l <= m :: !AtPrompt(pids, events, i, l)
    ensures LatestAt(pids, events, i, m) == LatestAt(pids, events, i, k + 1)
  {
    if m == k + 1 {
    } else {
      LatestStep(pids, events, i, m - 1);
      LatestStays(pids, events, i, k, m - 1);
    }
  }

  /**
   The request of a client that is not at its prompt is what its user has typed at an
   earlier event k, and the client has not been at its prompt since.
   */
  lemma {:induction false} LatestWasTyped(pids: seq<int>, events: seq<Event>, i: nat, m: nat) returns (k: nat)
    requires i < |pids| && m <= |events| && !AtPrompt(pids, events, i, m)
    ensures k < m && AcceptsAt(pids, events, i, k) && events[k].typed == LatestAt(pids, events, i, m)
    ensures forall l: nat | k < l <= m :: !AtPrompt(pids, events, i, l)
  {
    var holds := (l: nat) => AtPrompt(pids, events, i, l);
    StartsAtPrompt(pids, events, i);
    k := LastTime(holds, m);
    forall l: nat | k < l <= m ensures !AtPrompt(pids, events, i, l) {
      assert !holds(l);
    }
    LatestStep(pids, events, i, k);
    LatestStays(pids, events, i, k, m);
  }

  /** The message carries the request of pid: as text, and as the server reads it. */
  predicate IsRequestOf(message: string, pid: int, r: Request) {
    CText(message) == RequestText(pid, r) && ParseRequest(message) == Complete(pid, r)
  }

  /** What one send adds to the server's queue. */
  lemma SendAddsLatest(s: State, e: Event, i: nat)
    requires |Step(s, e).inbox| > |s.inbox| && i < |s.clients| && e.ClientMoves? && e.c == i
    requires Typable(s.clients[i].pid, s.clients[i].latest)
    ensures var inbox, me := Step(s, e).inbox, s.clients[i];
            inbox[..|inbox| - 1] == s.inbox && IsRequestOf(inbox[|inbox| - 1], me.pid, me.latest)
  {
    var me := s.clients[i];
    RequestRoundTrip(me.pid, me.latest, e.stale);
    RequestHasNoNul(me.pid, me.latest);
    CTextOfMessage(RequestText(me.pid, me.latest), e.stale);
  }

  lemma RequestHasNoNul(pid: int, r: Request)
    requires r.op != NUL
    ensures NoNul(RequestText(pid, r))
  {
  }

  /**
   A message that event m adds to the server's queue carries the pid of its sender and the
   request that was typed there last.
   */
  lemma {:induction false} SendsWhatWasTyped(pids: seq<int>, events: seq<Event>, m: nat) returns (k: nat)
    requires m < |events| && |At(pids, events, m + 1).inbox| > |At(pids, events, m).inbox|
    ensures k < m && events[m].ClientMoves? && AcceptsAt(pids, events, events[m].c, k)
    ensures forall l: nat | k < l <= m :: !AtPrompt(pids, events, events[m].c, l)
    ensures var inbox := At(pids, events, m + 1).inbox;
            && inbox[..|inbox| - 1] == At(pids, events, m).inbox
            && IsRequestOf(inbox[|inbox| - 1], pids[events[m].c], events[k].typed)
  {
    NextAt(pids, events, m);
    var i := events[m].c;
    PidsStay(pids, events[..m], i);
    k := LatestWasTyped(pids, events, i, m);
    PidsStay(pids, events[..k], i);
    SendAddsLatest(At(pids, events, m), events[m], i);
  }

  // ---- Counting ----

  /** What client i has done: accepted requests, messages sent, answers received, and the answers sent to it. */
  datatype Counts = Counts(accepted: nat, sent: nat, answered: nat, received: nat)

  function Count(pids: seq<int>, events: seq<Event>, i: nat): Counts
    requires i < |pids|
  {
    if events == [] then Counts(0, 0, 0, 0)
    else
      var last := |events| - 1;
      var e, n, s := events[last], Count(pids, events[..last], i), Run(pids, events[..last]);
      var r := Step(s, e);
      var mine := e.ClientMoves? && e.c == i;
      Counts(n.accepted + (if Accepts(s, e, i) then 1 else 0),
             n.sent + (if mine && |r.inbox| > |s.inbox| then 1 else 0),
             n.answered + (if e.ServerMoves? && r.clients[i].queue != s.clients[i].queue then 1 else 0),
             n.received + (if mine && r.clients[i].pc.Closing? && !s.clients[i].pc.Closing? then 1 else 0))
  }

  /**
   Client i sends each accepted request once, waits for the answer to each request that
   it has sent, and each answer sent to it waits in its queue or has been received.
   */
  predicate CountsFit(n: Counts, me: Client) {
    && n.accepted == n.sent + (if me.pc.Sending? then 1 else 0)
    && n.sent == n.received + (if me.pc.Waiting() then 1 else 0)
    && n.answered == n.received + |me.queue|
  }

  lemma {:induction false} OneAnswerEach(pids: seq<int>, events: seq<Event>, i: nat)
    requires DistinctPids(pids) && i < |pids|
    ensures CountsFit(Count(pids, events, i), Run(pids, events).clients[i])
  {
    if events == [] {
    } else {
      var last := |events| - 1;
      OneAnswerEach(pids, events[..last], i);
      InvRun(pids, events[..last]);
      CountsStep(Trace(pids, events[..last]), events[last], i);
    }
  }

  /** What an event may change of client i, and what shows that it has. */
  predicate GoesOn(s: State, e: Event, i: nat)
    requires i < |s.clients|
  {
    var me, after, grows := s.clients[i], Step(s, e).clients[i], |Step(s, e).inbox| > |s.inbox|;
    var mine := e.ClientMoves? && e.c == i;
    && (mine && grows <==> me.pc.Sending? && after.pc.Creating?)
    && (Accepts(s, e, i) <==> me.pc.Typing? && after.pc.Sending?)
    && (|| after.pc == me.pc
        || (mine && (|| (me.pc.Typing? && after.pc.Sending?) || (me.pc.Sending? && after.pc.Creating?)
                     || (me.pc.Creating? && after.pc.Receiving?) || (me.pc.Receiving? && after.pc.Closing?)
                     || (me.pc.Closing? && after.pc.Typing?))))
    && |after.queue| == |me.queue| + (if e.ServerMoves? && after.queue != me.queue then 1 else 0)
                                   - (if me.pc.Receiving? && after.pc.Closing? then 1 else 0)
  }

  lemma ClientCounts(s: State, e: Event, i: nat)
    requires i < |s.clients| && e.ClientMoves?
    requires s.clients[i].queue != [] ==> s.clients[i].pc.Receiving?
    ensures GoesOn(s, e, i)
  {
  }

  lemma ServerCounts(s: State, e: Event, i: nat)
    requires i < |s.clients| && e.ServerMoves?
    ensures GoesOn(s, e, i)
  {
  }

  lemma CountsStep(c: Config, e: Event, i: nat)
    requires Inv(c) && i < |c.s.clients|
    ensures GoesOn(c.s, e, i)
  {
    assert ClientOK(c, i);
    if e.ClientMoves? {
      ClientCounts(c.s, e, i);
    } else {
      ServerCounts(c.s, e, i);
    }
  }

  // ---- Order ----

  /** The message that entered the server's queue between two states. */
  function Entered(s: State, r: State): seq<string> {
    if |r.inbox| > |s.inbox| then [r.inbox[|r.inbox| - 1]] else []
  }

  /** The message that the server started to work on between two states. */
  function Left(s: State, r: State): seq<string> {
    if !s.server.Computing? && r.server.Computing? then [r.server.request] else []
  }

  /** The messages that have entered the server's queue in the first m events, in order. */
  function Sent(pids: seq<int>, events: seq<Event>, m: nat): seq<string>
    requires m <= |events|
  {
    if m == 0 then []
    else Sent(pids, events, m - 1) + Entered(At(pids, events, m - 1), At(pids, events, m))
  }

  /** The messages that the server has started to work on in the first m events, in order. */
  function Taken(pids: seq<int>, events: seq<Event>, m: nat): seq<string>
    requires m <= |events|
  {
    if m == 0 then []
    else Taken(pids, events, m - 1) + Left(At(pids, events, m - 1), At(pids, events, m))
  }

  /**
   First come, first served: the server has taken the messages in the order of the sends,
   up to those in its queue.
   */
  lemma {:induction false} TakenInOrder(pids: seq<int>, events: seq<Event>, m: nat)
    requires m <= |events|
    ensures Taken(pids, events, m) + At(pids, events, m).inbox == Sent(pids, events, m)
  {
    if m == 0 {
    } else {
      TakenInOrder(pids, events, m - 1);
      NextAt(pids, events, m - 1);
      QueueStep(At(pids, events, m - 1), events[m - 1], Taken(pids, events, m - 1));
    }
  }

  lemma QueueStep(s: State, e: Event, taken: seq<string>)
    ensures var r := Step(s, e); taken + Left(s, r) + r.inbox == taken + s.inbox + Entered(s, r)
  {
  }

  // ---- Sizes ----

  /** The server's queue never has more than ten requests, and a send waits exactly while it has ten. */
  lemma {:induction false} TenRequests(pids: seq<int>, events: seq<Event>, i: nat, typed: Request, stale: string)
    requires i < |pids| && Run(pids, events).clients[i].pc.Sending?
    ensures var s, e := Run(pids, events), ClientMoves(i, typed, stale);
            |s.inbox| <= 10 && (Step(s, e).clients[i].pc.Creating? <==> |s.inbox| < 10)
  {
    InboxBound(pids, events);
  }

  lemma {:induction false} InboxBound(pids: seq<int>, events: seq<Event>)
    ensures |Run(pids, events).inbox| <= 10
  {
    if events == [] {
    } else {
      InboxBound(pids, events[..|events| - 1]);
    }
  }

  /** Texts of at most 19 and 29 characters fit, and two numbers of eight digits with signs always do. */
  lemma TypableInNumbers(pid: int, r: Request)
    ensures Typable(pid, r) ==> |OperationText(r)| <= 19 && |RequestText(pid, r)| <= 29
    ensures 0 <= pid < 1_000_000_000 && -100_000_000 < r.a < 100_000_000 && -100_000_000 < r.b < 100_000_000
            && !IsDigit(r.op) && !IsSpace(r.op) && r.op != NUL
            ==> Typable(pid, r)
  {
    if 0 <= pid < 1_000_000_000 && -100_000_000 < r.a < 100_000_000 && -100_000_000 < r.b < 100_000_000 {
      assert Pow10(8) == 100_000_000 && Pow10(9) == 1_000_000_000;
      DigitsLength(Abs(r.a), 8);
      DigitsLength(Abs(r.b), 8);
      DigitsLength(pid, 9);
    }
  }

  /** The request is the pid, one space, and the operation as its user writes it, each number in decimal notation. */
  lemma RequestTextForm(pid: int, r: Request, p: string, a: string, b: string)
    requires IsDecimal(p, pid) && IsDecimal(a, r.a) && IsDecimal(b, r.b)
    ensures RequestText(pid, r) == p + " " + a + [r.op] + b
  {
    PrintIsDecimal(p, pid);
    PrintIsDecimal(a, r.a);
    PrintIsDecimal(b, r.b);
  }
}
