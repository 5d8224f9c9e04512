/**
 Routing in the calculator service: whatever the interleaving, an answer that a client
 receives is the answer to its own latest request, and no request is lost while the
 server runs. The server stops when it is faster than the client's mq_open.

 The history names, for every message in the server's queue, the client that sent it,
 and the client whose request the server works on.
 */
module CalculatorRouting {
  import opened Decimal
  import opened Calculator

  datatype Config = Config(s: State, from: seq<nat>, serving: nat)

  predicate Busy(server: ServerPC) {
    server.Computing? || server.Opening? || server.Answering?
  }

  ghost function Next(c: Config, e: Event): Config
    requires |c.from| == |c.s.inbox|
  {
    var r := Step(c.s, e);
    if |r.inbox| > |c.s.inbox| then Config(r, c.from + [e.c], c.serving)
    else if |r.inbox| < |c.s.inbox| then Config(r, c.from[1..], c.from[0])
    else Config(r, c.from, c.serving)
  }

  /** The message is the latest request of me. */
  predicate Carries(message: string, me: Client) {
    ParseRequest(message) == Complete(me.pid, me.latest)
  }

  /** The buffer holds the answer to r. */
  predicate IsAnswer(buffer: string, r: Request) {
    !NoValue(r) && IsResult(CText(buffer), r)
  }

  predicate Serves(c: Config, i: nat) {
    Busy(c.s.server) && c.serving == i
  }

  /** The server's queue: one latest request each of different waiting clients. */
  ghost predicate InboxOK(s: State, from: seq<nat>) {
    && |from| == |s.inbox|
    && (forall k: nat | k < |from| ::
          from[k] < |s.clients| && s.clients[from[k]].pc.Waiting() && Carries(s.inbox[k], s.clients[from[k]]))
    && (forall j: nat, k: nat | j < k < |from| :: from[j] != from[k])
  }

  /** The server works on the latest request of one waiting client, which is not in its queue. */
  ghost predicate ServerOK(c: Config) {
    Busy(c.s.server) ==>
      && c.serving < |c.s.clients| && c.serving !in c.from
      && var me := c.s.clients[c.serving];
         && me.pc.Waiting()
         && match c.s.server
            case Computing(request) => Carries(request, me)
            case Opening(pid, text) => pid == me.pid && Evaluate(me.latest) == Answer(text)
            case Answering(pid, text) => pid == me.pid && Evaluate(me.latest) == Answer(text) && me.hasQueue
            case _ => true
  }

  /** What holds of the i-th client. */
  ghost predicate ClientOK(c: Config, i: nat)
    requires i < |c.s.clients|
  {
    var me := c.s.clients[i];
    && (me.hasQueue <==> me.pc.Receiving? || me.pc.Closing?)
    && (me.pc.Sending? ==> !IsDigit(me.latest.op))
    && (me.queue != [] ==>
          |me.queue| == 1 && me.pc.Receiving? && IsAnswer(me.queue[0], me.latest) && i !in c.from && !Serves(c, i))
    && (me.pc.Closing? ==> IsAnswer(me.answer, me.latest))
    && (me.pc.Waiting() && c.s.server != Stopped ==> i in c.from || Serves(c, i) || me.queue != [])
  }

  ghost predicate Distinct(clients: seq<Client>) {
    forall i: nat, j: nat | i < j < |clients| :: clients[i].pid != clients[j].pid
  }

  ghost predicate Inv(c: Config) {
    && Distinct(c.s.clients) && InboxOK(c.s, c.from) && ServerOK(c)
    && forall i: nat | i < |c.s.clients| :: ClientOK(c, i)
  }

  ghost function Trace(pids: seq<int>, events: seq<Event>): (c: Config)
    ensures c.s == Run(pids, events) && |c.from| == |c.s.inbox|
  {
    if events == [] then Config(Initial(pids), [], 0)
    else
      var c := Trace(pids, events[..|events| - 1]);
      StepInbox(c.s, events[|events| - 1]);
      Next(c, events[|events| - 1])
  }

  lemma StepInbox(s: State, e: Event)
    ensures var r := Step(s, e);
            || |r.inbox| == |s.inbox| + 1
            || (|s.inbox| > 0 && |r.inbox| == |s.inbox| - 1)
            || |r.inbox| == |s.inbox|
    ensures |Step(s, e).inbox| > |s.inbox| ==> e.ClientMoves?
  {
  }

  /** A pid names one queue: that of its client, if it exists. */
  lemma FindsOwner(clients: seq<Client>, i: nat)
    requires Distinct(clients) && i < |clients|
    ensures FindQueue(clients, clients[i].pid) == if clients[i].hasQueue then i else |clients|
  {
    var c := FindQueue(clients, clients[i].pid);
    if c < |clients| {
      QueueNamesDiffer(clients[c].pid, clients[i].pid);
    }
  }

  lemma ClientTypes(c: Config, e: Event)
    requires Inv(c) && e.ClientMoves? && e.c < |c.s.clients| && !c.s.clients[e.c].pc.Sending?
    ensures Inv(Next(c, e))
  {
    var d := Next(c, e);
    assert ClientOK(c, e.c);
    assert d.s.clients[e.c].pc.Waiting() <==> c.s.clients[e.c].pc.Creating? || d.s.clients[e.c].pc.Receiving?;
    forall i: nat | i < |d.s.clients| ensures ClientOK(d, i) {
      assert ClientOK(c, i);
    }
  }

  lemma ClientSends(c: Config, e: Event)
    requires Inv(c) && e.ClientMoves? && e.c < |c.s.clients| && c.s.clients[e.c].pc.Sending?
    ensures Inv(Next(c, e))
  {
    if |c.s.inbox| < MAX_MSG {
      var d := Next(c, e);
      SentRequest(c, e);
      forall i: nat | i < |d.s.clients| ensures ClientOK(d, i) {
        SendKeepsClient(c, e, i);
      }
    }
  }

  lemma SentRequest(c: Config, e: Event)
    requires Inv(c) && e.ClientMoves? && e.c < |c.s.clients| && c.s.clients[e.c].pc.Sending? && |c.s.inbox| < MAX_MSG
    ensures InboxOK(Next(c, e).s, Next(c, e).from) && ServerOK(Next(c, e)) && Distinct(Next(c, e).s.clients)
  {
    var d := Next(c, e);
    var me := c.s.clients[e.c];
    assert ClientOK(c, e.c);
    var message := Message(RequestText(me.pid, me.latest), e.stale);
    assert Carries(message, me.(pc := Creating)) by { RequestRoundTrip(me.pid, me.latest, e.stale); }
    InboxGrows(c.s, c.from, e.c, message);
    assert d.s == State(c.s.clients[e.c := me.(pc := Creating)], c.s.inbox + [message], c.s.server);
    assert d.from == c.from + [e.c] && e.c !in c.from;
  }

  lemma InboxGrows(s: State, from: seq<nat>, i: nat, message: string)
    requires InboxOK(s, from) && i < |s.clients| && s.clients[i].pc.Sending?
    requires Carries(message, s.clients[i].(pc := Creating))
    ensures var clients := s.clients[i := s.clients[i].(pc := Creating)];
            InboxOK(State(clients, s.inbox + [message], s.server), from + [i])
  {
  }

  lemma SendKeepsClient(c: Config, e: Event, i: nat)
    requires Inv(c) && e.ClientMoves? && e.c < |c.s.clients| && c.s.clients[e.c].pc.Sending? && |c.s.inbox| < MAX_MSG
    requires i < |c.s.clients|
    ensures ClientOK(Next(c, e), i)
  {
    var d := Next(c, e);
    assert ClientOK(c, i);
    assert d.from == c.from + [e.c];
    assert i in d.from <==> i in c.from || i == e.c;
  }

  lemma ServerReceives(c: Config, e: Event)
    requires Inv(c) && e.ServerMoves? && c.s.server.Idle?
    ensures Inv(Next(c, e))
  {
    var d := Next(c, e);
    forall i: nat | i < |d.s.clients| ensures ClientOK(d, i) {
      assert ClientOK(c, i);
    }
  }

  lemma ServerWorks(c: Config, e: Event)
    requires Inv(c) && e.ServerMoves? && (c.s.server.Computing? || c.s.server.Opening? || c.s.server.Stopped?)
    ensures Inv(Next(c, e))
  {
    var d := Next(c, e);
    if c.s.server.Opening? {
      FindsOwner(c.s.clients, c.serving);
    }
    forall i: nat | i < |d.s.clients| ensures ClientOK(d, i) {
      assert ClientOK(c, i);
    }
  }

  lemma ServerAnswers(c: Config, e: Event)
    requires Inv(c) && e.ServerMoves? && c.s.server.Answering?
    ensures Inv(Next(c, e))
  {
    var d := Next(c, e);
    var me := c.s.clients[c.serving];
    FindsOwner(c.s.clients, c.serving);
    assert ClientOK(c, c.serving);
    AnswersHaveNoNul(me.latest);
    Answered(me.latest);
    CTextOfMessage(c.s.server.text, e.stale);
    forall i: nat | i < |d.s.clients| ensures ClientOK(d, i) {
      assert ClientOK(c, i);
    }
  }

  lemma InvStep(c: Config, e: Event)
    requires Inv(c)
    ensures Inv(Next(c, e))
  {
    match e
    case ClientMoves(i, _, _) =>
      if i < |c.s.clients| {
        if c.s.clients[i].pc.Sending? { ClientSends(c, e); } else { ClientTypes(c, e); }
      }
    case ServerMoves(_) =>
      match c.s.server
      case Idle => ServerReceives(c, e);
      case Answering(_, _) => ServerAnswers(c, e);
      case _ => ServerWorks(c, e);
  }

  lemma {:induction false} InvRun(pids: seq<int>, events: seq<Event>)
    requires DistinctPids(pids)
    ensures Inv(Trace(pids, events))
  {
    if events == [] {
    } else {
      InvRun(pids, events[..|events| - 1]);
      InvStep(Trace(pids, events[..|events| - 1]), events[|events| - 1]);
    }
  }

  /** Every answer that a client has received is the answer to its own latest request. */
  lemma {:induction false} AnswerIsForLatest(pids: seq<int>, events: seq<Event>, i: nat)
    requires DistinctPids(pids) && i < |pids|
    requires Run(pids, events).clients[i].pc.Closing?
    ensures IsAnswer(Run(pids, events).clients[i].answer, Run(pids, events).clients[i].latest)
  {
    InvRun(pids, events);
    assert ClientOK(Trace(pids, events), i);
  }

  /** Read as a number, the answer is the value of the operation. */
  lemma AnswerValue(buffer: string, r: Request)
    requires IsAnswer(buffer, r)
    ensures r.op == '+' ==> IsDecimal(CText(buffer), r.a + r.b) && Atoi(CText(buffer)) == r.a + r.b
    ensures r.op == '-' ==> IsDecimal(CText(buffer), r.a - r.b) && Atoi(CText(buffer)) == r.a - r.b
    ensures r.op == '*' ==> IsDecimal(CText(buffer), r.a * r.b) && Atoi(CText(buffer)) == r.a * r.b
    ensures r.op == '/' ==> r.b != 0 && IsDecimal(CText(buffer), CDiv(r.a, r.b))
    ensures r.op == '/' ==> r.b != 0 && Atoi(CText(buffer)) == CDiv(r.a, r.b)
    ensures r.op !in "+-*/" ==> CText(buffer) == "Incorrect operator."
  {
    match r.op
    case '+' => AtoiDecimal(CText(buffer), r.a + r.b);
    case '-' => AtoiDecimal(CText(buffer), r.a - r.b);
    case '*' => AtoiDecimal(CText(buffer), r.a * r.b);
    case '/' => AtoiDecimal(CText(buffer), CDiv(r.a, r.b));
    case _ =>
  }

  /** The server still has the latest request of me, in its queue or in work. */
  ghost predicate AtServer(s: State, me: Client) {
    || (exists k: nat :: k < |s.inbox| && Carries(s.inbox[k], me))
    || match s.server
       case Computing(request) => Carries(request, me)
       case Opening(pid, text) => pid == me.pid && IsResult(text, me.latest)
       case Answering(pid, text) => pid == me.pid && IsResult(text, me.latest)
       case _ => false
  }

  /** While the server runs, a waiting client's request is at the server or its answer is in the client's queue. */
  lemma {:induction false} NoRequestLost(pids: seq<int>, events: seq<Event>, i: nat)
    requires DistinctPids(pids) && i < |pids|
    requires Run(pids, events).server != Stopped && Run(pids, events).clients[i].pc.Waiting()
    ensures var s, me := Run(pids, events), Run(pids, events).clients[i];
            AtServer(s, me) || (|me.queue| == 1 && IsAnswer(me.queue[0], me.latest))
  {
    InvRun(pids, events);
    var c := Trace(pids, events);
    assert ClientOK(c, i);
    Answered(c.s.clients[i].latest);
    if i in c.from {
      var k: nat :| k < |c.from| && c.from[k] == i;
      assert Carries(c.s.inbox[k], c.s.clients[i]);
    }
  }

  /** While the server runs, a waiting client is never stuck: the server or the client itself can move. */
  lemma {:induction false} ServiceNotStuck(pids: seq<int>, events: seq<Event>, i: nat, stale: string)
    requires DistinctPids(pids) && i < |pids|
    requires Run(pids, events).server != Stopped && Run(pids, events).clients[i].pc.Waiting()
    ensures var s := Run(pids, events);
            Step(s, ServerMoves(stale)) != s || Step(s, ClientMoves(i, s.clients[i].latest, stale)) != s
  {
    InvRun(pids, events);
    var c := Trace(pids, events);
    assert ClientOK(c, i);
    if c.s.server.Answering? {
      FindsOwner(c.s.clients, c.serving);
      assert ClientOK(c, c.serving);
    } else if c.s.server.Idle? && c.s.inbox == [] {
      assert c.s.clients[i].queue != [];
      assert Step(c.s, ClientMoves(i, c.s.clients[i].latest, stale)).clients[i] != c.s.clients[i];
    } else {
      assert Step(c.s, ServerMoves(stale)).server != c.s.server;
    }
  }

  /**
   The server that is about to open the queue of pid serves a waiting client with this
   pid, and it stops if and only if that client has not created its queue yet.
   */
  lemma {:induction false} ServerStopsIffTooEarly(pids: seq<int>, events: seq<Event>, stale: string) returns (i: nat)
    requires DistinctPids(pids) && Run(pids, events).server.Opening?
    ensures i < |pids| && Run(pids, events).clients[i].pid == Run(pids, events).server.pid
    ensures Step(Run(pids, events), ServerMoves(stale)).server == Stopped <==> Run(pids, events).clients[i].pc.Creating?
  {
    InvRun(pids, events);
    var c := Trace(pids, events);
    i := c.serving;
    assert ClientOK(c, i);
    FindsOwner(c.s.clients, i);
  }

  /**
   The server computes on the latest request of a waiting client. It stops if that request
   has no value, and otherwise goes on to this client with the result.
   */
  lemma {:induction false} ComputesResult(pids: seq<int>, events: seq<Event>, stale: string) returns (i: nat)
    requires DistinctPids(pids) && Run(pids, events).server.Computing?
    ensures i < |pids| && Run(pids, events).clients[i].pc.Waiting()
    ensures var me, next := Run(pids, events).clients[i], Step(Run(pids, events), ServerMoves(stale)).server;
            if NoValue(me.latest) then next == Stopped
            else next.Opening? && next.pid == me.pid && IsResult(next.text, me.latest)
  {
    InvRun(pids, events);
    i := Trace(pids, events).serving;
    Answered(Run(pids, events).clients[i].latest);
  }

  /**
   The next move of the server ends it over client i: it opens the queue of i before i has
   created it, or it works on the latest request of the waiting client i, which divides by
   zero or has a value that is no int.
   */
  predicate BreaksOver(s: State, i: nat)
    requires i < |s.clients|
  {
    var me := s.clients[i];
    || (s.server.Opening? && s.server.pid == me.pid && me.pc.Creating?)
    || (s.server.Computing? && Carries(s.server.request, me) && me.pc.Waiting() && NoValue(me.latest))
  }

  /** Event k of the run is a move of the server that ends it over some client. */
  ghost predicate BreaksServer(pids: seq<int>, events: seq<Event>, k: nat) {
    && k < |events| && events[k].ServerMoves?
    && exists i: nat :: i < |pids| && BreaksOver(Run(pids, events[..k]), i)
  }

  lemma StepStopsIff(c: Config, e: Event)
    requires Inv(c) && c.s.server != Stopped
    ensures Step(c.s, e).server == Stopped <==>
            e.ServerMoves? && exists i: nat :: i < |c.s.clients| && BreaksOver(c.s, i)
  {
    if e.ServerMoves? && (c.s.server.Computing? || c.s.server.Opening?) {
      assert ClientOK(c, c.serving);
      FindsOwner(c.s.clients, c.serving);
      Answered(c.s.clients[c.serving].latest);
      if Step(c.s, e).server == Stopped {
        assert BreaksOver(c.s, c.serving);
      }
    }
  }

  /** One event more: a stopped server stays stopped, a running one stops if this event ends it. */
  lemma {:induction false} StopsAtEvent(pids: seq<int>, events: seq<Event>, k: nat)
    requires DistinctPids(pids) && k < |events|
    ensures Run(pids, events[..k + 1]).server == Stopped <==>
            Run(pids, events[..k]).server == Stopped || BreaksServer(pids, events, k)
  {
    assert events[..k + 1][..k] == events[..k];
    InvRun(pids, events[..k]);
    var c := Trace(pids, events[..k]);
    if c.s.server == Stopped {
    } else {
      StepStopsIff(c, events[k]);
    }
  }

  /** Event k makes it true if it is a cause, and changes nothing otherwise. */
  ghost predicate CausedBy(holds: nat -> bool, cause: nat -> bool, k: nat) {
    holds(k + 1) <==> holds(k) || cause(k)
  }

  /** What starts false, and becomes and stays true with a cause, is true after m events iff one was a cause. */
  lemma {:induction false} HasCause(holds: nat -> bool, cause: nat -> bool, m: nat)
    requires !holds(0)
    requires forall k: nat | k < m :: CausedBy(holds, cause, k)
    ensures holds(m) <==> exists k: nat :: k < m && cause(k)
  {
    if m == 0 {
    } else {
      assert CausedBy(holds, cause, m - 1);
      HasCause(holds, cause, m - 1);
    }
  }

  /**
   The server of a run has stopped if and only if one of its moves opened a queue that
   its client had not created yet, or met an operation without a defined result.
   */
  lemma {:induction false} ServerStopsIff(pids: seq<int>, events: seq<Event>)
    requires DistinctPids(pids)
    ensures Run(pids, events).server == Stopped <==> exists k: nat :: BreaksServer(pids, events, k)
  {
    var stopped := (m: nat) => m <= |events| && Run(pids, events[..m]).server == Stopped;
    var breaks := (k: nat) => BreaksServer(pids, events, k);
    forall k: nat | k < |events| ensures CausedBy(stopped, breaks, k) {
      StopsAtEvent(pids, events, k);
    }
    HasCause(stopped, breaks, |events|);
    assert events[..|events|] == events;
    assert forall k: nat :: breaks(k) <==> BreaksServer(pids, events, k);
  }

  lemma {:induction false} OneEventMore(pids: seq<int>, events: seq<Event>, e: Event)
    ensures Run(pids, events + [e]) == Step(Run(pids, events), e)
  {
    assert (events + [e])[..|events|] == events;
  }

  /** The first two moves of a lonely client: it types, and sends into the empty queue. */
  lemma LonelyClient(me: Client, r: Request, stale: string)
    requires me.pc.Typing? && Typable(me.pid, r)
    ensures var typing, typed := ClientMoves(0, r, stale), me.(latest := r, pc := Sending);
            && Step(State([me], [], Idle), typing) == State([typed], [], Idle)
            && Step(State([typed], [], Idle), typing)
               == State([typed.(pc := Creating)], [Message(RequestText(me.pid, r), stale)], Idle)
  {
  }

  /** The three moves of the server that follow: without the client's queue, the last one stops it. */
  lemma EarlyServer(me: Client, stale: string)
    requires !me.hasQueue && !IsDigit(me.latest.op) && Evaluate(me.latest).Answer?
    ensures var serving, message := ServerMoves(stale), Message(RequestText(me.pid, me.latest), stale);
            var opening := Opening(me.pid, Evaluate(me.latest).text);
            && Step(State([me], [message], Idle), serving) == State([me], [], Computing(message))
            && Step(State([me], [], Computing(message)), serving) == State([me], [], opening)
            && Step(State([me], [], opening), serving) == State([me], [], Stopped)
  {
    RequestRoundTrip(me.pid, me.latest, stale);
  }

  /**
   For every request with an answer there is a run in which the server stops, because it
   opens the client's queue before the client has created it.
   */
  lemma {:induction false} ServerCanStop(pid: int, r: Request, stale: string) returns (events: seq<Event>)
    requires Typable(pid, r) && !NoValue(r)
    ensures Run([pid], events).server == Stopped && Run([pid], events).clients[0].pc.Creating?
  {
    var typing, serving := ClientMoves(0, r, stale), ServerMoves(stale);
    var me := Client(pid, Typing, Request(0, '+', 0), false, [], []);
    assert Initial([pid]).clients == [me];
    LonelyClient(me, r, stale);
    Answered(r);
    EarlyServer(me.(latest := r, pc := Creating), stale);
    OneEventMore([pid], [], typing);
    events := [] + [typing];
    OneEventMore([pid], events, typing);
    events := events + [typing];
    OneEventMore([pid], events, serving);
    events := events + [serving];
    OneEventMore([pid], events, serving);
    events := events + [serving];
    OneEventMore([pid], events, serving);
    events := events + [serving];
  }

  /**
   The moves after the send when the operation is undefined: the client creates its queue,
   and the server ends all the same.
   */
  lemma UndefinedServer(me: Client, stale: string)
    requires me.pc.Creating? && !IsDigit(me.latest.op) && Evaluate(me.latest).Undefined?
    ensures var moving, serving := ClientMoves(0, me.latest, stale), ServerMoves(stale);
            var message := Message(RequestText(me.pid, me.latest), stale);
            var ready := me.(hasQueue := true, queue := [], pc := Receiving);
            && Step(State([me], [message], Idle), moving) == State([ready], [message], Idle)
            && Step(State([ready], [message], Idle), serving) == State([ready], [], Computing(message))
            && Step(State([ready], [], Computing(message)), serving) == State([ready], [], Stopped)
  {
    RequestRoundTrip(me.pid, me.latest, stale);
  }

  /**
   For every request without a defined result there is a run in which the server stops
   although the client has created its queue in time.
   */
  lemma {:induction false} UndefinedCanStop(pid: int, r: Request, stale: string) returns (events: seq<Event>)
    requires Typable(pid, r) && NoValue(r)
    ensures Run([pid], events).server == Stopped && Run([pid], events).clients[0].pc.Receiving?
  {
    var moving, serving := ClientMoves(0, r, stale), ServerMoves(stale);
    var me := Client(pid, Typing, Request(0, '+', 0), false, [], []);
    assert Initial([pid]).clients == [me];
    LonelyClient(me, r, stale);
    Answered(r);
    UndefinedServer(me.(latest := r, pc := Creating), stale);
    OneEventMore([pid], [], moving);
    events := [] + [moving];
    OneEventMore([pid], events, moving);
    events := events + [moving];
    OneEventMore([pid], events, moving);
    events := events + [moving];
    OneEventMore([pid], events, serving);
    events := events + [serving];
    OneEventMore([pid], events, serving);
    events := events + [serving];
  }
}
