/**
 The calculator service of cw8: its texts, and the server and its clients as a state
 machine over message queues.

 A message is the text, its NUL, and whatever bytes follow in the sender's buffer. All
 requests have one priority, so the server's queue is first in, first out. Queues are
 their POSIX abstraction; opening a queue that does not exist stops the server.
 */
module Calculator {
  import opened Decimal

  const MAX_MSG: nat := 10      // cw8/queue.h:8
  const MSG_SIZE: nat := 30     // cw8/queue.h:9
  const NUL: char := 0 as char

  // ---- Texts ----

  /** An operation as the user types it: two numbers around one character. */
  datatype Request = Request(a: int, op: char, b: int)

  function OperationText(r: Request): string {
    Print(r.a) + [r.op] + Print(r.b)
  }

  /** cw8/client.c:65 */
  function RequestText(pid: int, r: Request): string {
    Print(pid) + " " + OperationText(r)
  }

  /** The operation fits message and the request fits request, with their NULs (cw8/client.c:57-65). */
  predicate Typable(pid: int, r: Request) {
    && IsInt(r.a) && IsInt(r.b) && !IsDigit(r.op) && r.op != NUL && !IsSpace(r.op)
    && |OperationText(r)| < MSG_SIZE - 10 && |RequestText(pid, r)| < MSG_SIZE
  }

  datatype Parsed = Incomplete | Complete(pid: int, r: Request)

  /** cw8/server.c:55: sscanf with %d%d%c%d; Incomplete leaves variables unset. */
  function ParseRequest(text: string): Parsed {
    match ScanInt(text)
    case NoNumber => Incomplete
    case Number(pid, rest1) =>
      match ScanInt(rest1)
      case NoNumber => Incomplete
      case Number(a, rest2) =>
        if rest2 == [] then Incomplete else
        match ScanInt(rest2[1..])
        case NoNumber => Incomplete
        case Number(b, _) => Complete(pid, Request(a, rest2[0], b))
  }

  function Abs(x: int): nat { if x < 0 then -x else x }

  /** C division truncates toward zero. */
  function CDiv(a: int, b: int): int
    requires b != 0
  {
    var q := Abs(a) / Abs(b);
    if (a < 0) == (b < 0) then q else -q
  }

  /**
   The quotient leaves a remainder smaller than the divisor and with the sign of the
   dividend (section 6.5.5 of ISO C99).
   */
  lemma CDivTruncates(a: int, b: int)
    requires b != 0
    ensures Abs(a - CDiv(a, b) * b) < Abs(b)
    ensures (a - CDiv(a, b) * b) * a >= 0
  {
  }

  /** Undefined: the program divides by zero or the result does not fit an int. */
  datatype Outcome = Undefined | Answer(text: string)

  function Result(v: int): Outcome {
    if IsInt(v) then Answer(Print(v)) else Undefined
  }

  /** cw8/server.c:61-77 */
  function Evaluate(r: Request): Outcome {
    match r.op
    case '+' => Result(r.a + r.b)
    case '-' => Result(r.a - r.b)
    case '*' => Result(r.a * r.b)
    case '/' => if r.b == 0 then Undefined else Result(CDiv(r.a, r.b))
    case _ => Answer("Incorrect operator.")
  }

  /** The operation has no defined result: division by zero, or a value that is no int. */
  predicate NoValue(r: Request) {
    match r.op
    case '+' => !IsInt(r.a + r.b)
    case '-' => !IsInt(r.a - r.b)
    case '*' => !IsInt(r.a * r.b)
    case '/' => r.b == 0 || !IsInt(CDiv(r.a, r.b))
    case _ => false
  }

  /** The text tells the value of the operation in decimal notation, or that there is no such operation. */
  predicate IsResult(text: string, r: Request) {
    match r.op
    case '+' => IsDecimal(text, r.a + r.b)
    case '-' => IsDecimal(text, r.a - r.b)
    case '*' => IsDecimal(text, r.a * r.b)
    case '/' => r.b != 0 && IsDecimal(text, CDiv(r.a, r.b))
    case _ => text == "Incorrect operator."
  }

  /** The server has an answer exactly to the operations with a value, and it is their result. */
  lemma Answered(r: Request)
    ensures Evaluate(r).Undefined? <==> NoValue(r)
    ensures forall text :: Evaluate(r) == Answer(text) <==> !NoValue(r) && IsResult(text, r)
  {
    forall text ensures Evaluate(r) == Answer(text) <==> !NoValue(r) && IsResult(text, r) {
      match r.op
      case '+' => PrintIsDecimal(text, r.a + r.b);
      case '-' => PrintIsDecimal(text, r.a - r.b);
      case '*' => PrintIsDecimal(text, r.a * r.b);
      case '/' =>
        if r.b != 0 {
          PrintIsDecimal(text, CDiv(r.a, r.b));
        }
      case _ =>
    }
  }

  /** The bounds of int in numbers; a quotient of two ints is out of bounds in one case only. */
  lemma NoValueInNumbers(r: Request)
    requires -0x8000_0000 <= r.a < 0x8000_0000 && -0x8000_0000 <= r.b < 0x8000_0000
    ensures r.op == '+' ==> (NoValue(r) <==> !(-0x8000_0000 <= r.a + r.b < 0x8000_0000))
    ensures r.op == '-' ==> (NoValue(r) <==> !(-0x8000_0000 <= r.a - r.b < 0x8000_0000))
    ensures r.op == '*' ==> (NoValue(r) <==> !(-0x8000_0000 <= r.a * r.b < 0x8000_0000))
    ensures r.op == '/' ==> (NoValue(r) <==> r.b == 0 || (r.a == -0x8000_0000 && r.b == -1))
    ensures r.op !in "+-*/" ==> !NoValue(r)
  {
    if r.op == '/' && r.b != 0 {
      QuotientBound(Abs(r.a), Abs(r.b));
    }
  }

  lemma QuotientBound(n: nat, d: nat)
    requires d > 0
    ensures n / d <= n && (d > 1 ==> 2 * (n / d) <= n)
  {
    var q := n / d;
    assert q * d <= n;
    if d > 1 {
      assert q * d >= q * 2 by { MultiplyMore(q, 2, d); }
    } else {
      assert d == 1;
    }
  }

  lemma MultiplyMore(q: nat, a: nat, b: nat)
    requires a <= b
    ensures q * a <= q * b
  {
  }

  /** A message buffer: the text, its NUL, and stale bytes. */
  function Message(text: string, stale: string): string {
    text + [NUL] + stale
  }

  /** The C string in a buffer. */
  function CText(buffer: string): string {
    if buffer == [] || buffer[0] == NUL then [] else [buffer[0]] + CText(buffer[1..])
  }

  /** The name of a client's queue (cw8/client.c:49, cw8/server.c:80). */
  function QueueName(pid: int): string {
    "/" + Print(pid)
  }

  /** Round trip: the server reads the pid, the numbers and the operator that the client printed. */
  lemma RequestRoundTrip(pid: int, r: Request, stale: string)
    requires !IsDigit(r.op)
    ensures ParseRequest(Message(RequestText(pid, r), stale)) == Complete(pid, r)
  {
    var tail := [NUL] + stale;
    var afterA := [r.op] + (Print(r.b) + tail);
    var afterPid := " " + (Print(r.a) + afterA);
    MessageParts(Print(pid), Print(r.a), r.op, Print(r.b), stale);
    assert Message(RequestText(pid, r), stale) == Print(pid) + afterPid;
    ScanPrinted(pid, afterPid);
    ScanAfterSpace(Print(r.a) + afterA);
    ScanPrinted(r.a, afterA);
    assert afterA[1..] == Print(r.b) + tail;
    ScanPrinted(r.b, tail);
  }

  lemma MessageParts(pid: string, a: string, op: char, b: string, stale: string)
    ensures Message(pid + " " + (a + [op] + b), stale) == pid + (" " + (a + ([op] + (b + ([NUL] + stale)))))
  {
  }

  /** Different pids have different queue names. */
  lemma QueueNamesDiffer(p: int, q: int)
    requires QueueName(p) == QueueName(q)
    ensures p == q
  {
    assert Print(p) == QueueName(p)[1..] == Print(q);
    AtoiPrinted(p, []);
    AtoiPrinted(q, []);
  }

  predicate NoNul(text: string) {
    forall i | 0 <= i < |text| :: text[i] != NUL
  }

  lemma {:induction false} CTextOfMessage(text: string, stale: string)
    requires NoNul(text)
    ensures CText(Message(text, stale)) == text
  {
    if text == [] {
    } else {
      assert Message(text, stale)[1..] == Message(text[1..], stale);
      CTextOfMessage(text[1..], stale);
    }
  }

  lemma AnswersHaveNoNul(r: Request)
    requires Evaluate(r).Answer?
    ensures NoNul(Evaluate(r).text)
  {
  }

  // ---- The processes ----

  datatype ClientPC =
    | Typing     // cw8/client.c:58-65
    | Sending    // 68
    | Creating   // 72
    | Receiving  // 75
    | Closing    // 76-83
  {
    /** The request is sent and no answer is received yet. */
    predicate Waiting() { Creating? || Receiving? }
  }

  datatype Client = Client(pid: int, pc: ClientPC, latest: Request, hasQueue: bool, queue: seq<string>, answer: string)

  datatype ServerPC =
    | Idle                          // cw8/server.c:50
    | Computing(request: string)    // 55-77
    | Opening(pid: int, text: string)  // 80-81
    | Answering(pid: int, text: string) // 86-87
    | Stopped

  datatype State = State(clients: seq<Client>, inbox: seq<string>, server: ServerPC)

  /** Who moves, what a typing user types, and the stale bytes behind a sent text. */
  datatype Event = ClientMoves(c: nat, typed: Request, stale: string) | ServerMoves(stale: string)

  predicate DistinctPids(pids: seq<int>) {
    forall c, d | 0 <= c < d < |pids| :: pids[c] != pids[d]
  }

  function Initial(pids: seq<int>): State {
    var clients := seq(|pids|, c requires 0 <= c < |pids| =>
                              Client(pids[c], Typing, Request(0, '+', 0), false, [], []));
    State(clients, [], Idle)
  }

  /** The next step of one client; only a send reaches beyond its own state. */
  function ClientStep(me: Client, typed: Request): Client {
    match me.pc
    case Typing => if Typable(me.pid, typed) then me.(latest := typed, pc := Sending) else me
    case Sending => me.(pc := Creating)
    case Creating => me.(hasQueue := true, queue := [], pc := Receiving)
    case Receiving => if me.queue == [] then me else me.(answer := me.queue[0], queue := me.queue[1..], pc := Closing)
    case Closing => me.(hasQueue := false, queue := [], pc := Typing)
  }

  predicate OwnsQueue(me: Client, pid: int) {
    me.hasQueue && QueueName(me.pid) == QueueName(pid)
  }

  function FindQueueFrom(clients: seq<Client>, pid: int, i: nat): (c: nat)
    requires i <= |clients|
    ensures i <= c <= |clients| && (c < |clients| ==> OwnsQueue(clients[c], pid))
    ensures forall d | i <= d < c :: !OwnsQueue(clients[d], pid)
    decreases |clients| - i
  {
    if i < |clients| && !OwnsQueue(clients[i], pid) then FindQueueFrom(clients, pid, i + 1) else i
  }

  /** The client whose existing queue bears the name for pid, or the number of clients. */
  function FindQueue(clients: seq<Client>, pid: int): (c: nat)
    ensures c <= |clients| && (c < |clients| ==> OwnsQueue(clients[c], pid))
    ensures forall d | 0 <= d < c :: !OwnsQueue(clients[d], pid)
  {
    FindQueueFrom(clients, pid, 0)
  }

  function ServerStep(s: State, stale: string): (r: State)
    ensures |r.clients| == |s.clients|
  {
    match s.server
    case Idle => if s.inbox == [] then s else s.(server := Computing(s.inbox[0]), inbox := s.inbox[1..])
    case Computing(request) =>
      (match ParseRequest(request)
       case Incomplete => s.(server := Stopped)
       case Complete(pid, r) =>
         match Evaluate(r)
         case Undefined => s.(server := Stopped)
         case Answer(text) => s.(server := Opening(pid, text)))
    case Opening(pid, text) =>
      s.(server := if FindQueue(s.clients, pid) < |s.clients| then Answering(pid, text) else Stopped)
    case Answering(pid, text) =>
      var c := FindQueue(s.clients, pid);
      if c < |s.clients| && |s.clients[c].queue| < MAX_MSG then
        var me := s.clients[c].(queue := s.clients[c].queue + [Message(text, stale)]);
        s.(clients := s.clients[c := me], server := Idle)
      else s
    case Stopped => s
  }

  /** A full server queue makes the sender wait. */
  function Step(s: State, e: Event): (r: State)
    ensures |r.clients| == |s.clients|
  {
    match e
    case ServerMoves(stale) => ServerStep(s, stale)
    case ClientMoves(c, typed, stale) =>
      if c >= |s.clients| || (s.clients[c].pc.Sending? && |s.inbox| >= MAX_MSG) then s
      else
        var me := s.clients[c];
        var inbox := if me.pc.Sending? then s.inbox + [Message(RequestText(me.pid, me.latest), stale)] else s.inbox;
        s.(clients := s.clients[c := ClientStep(me, typed)], inbox := inbox)
  }

  function Run(pids: seq<int>, events: seq<Event>): (s: State)
    ensures |s.clients| == |pids|
  {
    if events == [] then Initial(pids) else Step(Run(pids, events[..|events| - 1]), events[|events| - 1])
  }
}
