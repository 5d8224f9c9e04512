/**
 Progress of the calculator service: under every fair sequence of events a client that
 has sent its request receives its answer, unless the server stops before.
 */
module CalculatorProgress {
  import opened Calculator
  import opened CalculatorRouting
  import opened Fairness

  /** Who moves: 0 is the server, i + 1 is client i. */
  function Mover(e: Event): nat {
    match e
    case ServerMoves(_) => 0
    case ClientMoves(c, _, _) => c + 1
  }

  /** The number of messages before that of client i. */
  function Place(from: seq<nat>, i: nat): nat {
    if from == [] || from[0] == i then 0 else 1 + Place(from[1..], i)
  }

  /** A message behind it does not change a place. */
  lemma {:induction false} PlaceKept(from: seq<nat>, i: nat, last: nat)
    requires i in from
    ensures Place(from + [last], i) == Place(from, i)
  {
    assert (from + [last])[0] == from[0];
    if from[0] == i {
    } else {
      assert (from + [last])[1..] == from[1..] + [last];
      PlaceKept(from[1..], i, last);
    }
  }

  /** Moves of the server until it is idle. */
  function Phase(server: ServerPC): nat {
    match server
    case Computing(_) => 3
    case Opening(_, _) => 2
    case Answering(_, _) => 1
    case _ => 0
  }

  /** Moves of the server until the answer is in the queue of client i; every request takes four. */
  ghost function WorkLeft(c: Config, i: nat): nat {
    if i in c.from then 4 * (Place(c.from, i) + 1) + Phase(c.s.server)
    else if Serves(c, i) then Phase(c.s.server)
    else 0
  }

  /** The moves that still have to be made before client i has its answer. */
  ghost function MovesLeft(c: Config, i: nat): nat
    requires i < |c.s.clients|
  {
    WorkLeft(c, i) + if c.s.clients[i].pc.Creating? then 2 else 1
  }

  /** Whose move brings client i closer to its answer. */
  ghost function Helper(c: Config, i: nat): nat {
    if WorkLeft(c, i) > 0 then 0 else i + 1
  }

  ghost predicate WaitsAtRunningServer(c: Config, i: nat) {
    i < |c.s.clients| && c.s.clients[i].pc.Waiting() && c.s.server != Stopped
  }

  /**
   From c to d, client i waits on for the answer to the same request, and the move has
   helped it if it was the helper's.
   */
  ghost predicate ComesCloser(c: Config, d: Config, mover: nat, i: nat)
    requires WaitsAtRunningServer(c, i)
  {
    && WaitsAtRunningServer(d, i) && d.s.clients[i].latest == c.s.clients[i].latest
    && (|| MovesLeft(d, i) < MovesLeft(c, i)
        || (MovesLeft(d, i) == MovesLeft(c, i) && Helper(d, i) == Helper(c, i) != mover))
  }

  ghost predicate HasAnswer(c: Config, i: nat, latest: Request) {
    && i < |c.s.clients| && c.s.clients[i].pc.Closing?
    && c.s.clients[i].latest == latest && IsAnswer(c.s.clients[i].answer, latest)
  }

  /** The idle server takes the oldest request. */
  lemma ReceiveHelps(c: Config, e: Event, i: nat)
    requires Inv(c) && WaitsAtRunningServer(c, i) && e.ServerMoves? && c.s.server.Idle?
    ensures ComesCloser(c, Next(c, e), Mover(e), i)
  {
    assert ClientOK(c, i);
    if c.from != [] {
      assert Next(c, e).from == c.from[1..];
      assert i in c.from <==> i == c.from[0] || i in c.from[1..];
    }
  }

  /** The server sends the answer to the client that it serves. */
  lemma AnswerHelps(c: Config, e: Event, i: nat)
    requires Inv(c) && WaitsAtRunningServer(c, i) && e.ServerMoves? && c.s.server.Answering?
    ensures ComesCloser(c, Next(c, e), Mover(e), i)
  {
    FindsOwner(c.s.clients, c.serving);
    assert ClientOK(c, c.serving);
    assert Next(c, e).from == c.from && Next(c, e).s.server == Idle;
  }

  lemma WorkHelps(c: Config, e: Event, i: nat)
    requires Inv(c) && WaitsAtRunningServer(c, i) && e.ServerMoves?
    requires c.s.server.Computing? || c.s.server.Opening?
    ensures Next(c, e).s.server == Stopped || ComesCloser(c, Next(c, e), Mover(e), i)
  {
    var d := Next(c, e);
    if d.s.server == Stopped {
    } else {
      NextPhase(c, d, i);
    }
  }

  lemma NextPhase(c: Config, d: Config, i: nat)
    requires WaitsAtRunningServer(c, i)
    requires d.from == c.from && d.serving == c.serving && d.s.clients == c.s.clients
    requires Busy(c.s.server) && Busy(d.s.server) && Phase(d.s.server) == Phase(c.s.server) - 1
    ensures ComesCloser(c, d, 0, i)
  {
  }

  lemma ClientHelps(c: Config, e: Event, i: nat)
    requires Inv(c) && WaitsAtRunningServer(c, i) && e.ClientMoves? && e.c == i
    ensures HasAnswer(Next(c, e), i, c.s.clients[i].latest) || ComesCloser(c, Next(c, e), Mover(e), i)
  {
    assert ClientOK(c, i);
    InvStep(c, e);
    assert ClientOK(Next(c, e), i);
  }

  lemma OthersKeepWork(c: Config, e: Event, i: nat)
    requires Inv(c) && e.ClientMoves? && e.c != i
    ensures WorkLeft(Next(c, e), i) == WorkLeft(c, i)
  {
    if i in c.from {
      PlaceKept(c.from, i, e.c);
    }
  }

  lemma OthersKeep(c: Config, e: Event, i: nat)
    requires Inv(c) && WaitsAtRunningServer(c, i) && e.ClientMoves? && e.c != i
    ensures ComesCloser(c, Next(c, e), Mover(e), i)
  {
    var d := Next(c, e);
    assert d.s.server == c.s.server && d.serving == c.serving && d.s.clients[i] == c.s.clients[i];
    assert d.from == c.from || d.from == c.from + [e.c];
    OthersKeepWork(c, e, i);
  }

  /** One event: the server stops, client i receives its answer, or it comes closer to it. */
  lemma EventHelps(c: Config, e: Event, i: nat)
    requires Inv(c) && WaitsAtRunningServer(c, i)
    ensures || Next(c, e).s.server == Stopped
            || HasAnswer(Next(c, e), i, c.s.clients[i].latest)
            || ComesCloser(c, Next(c, e), Mover(e), i)
  {
    if e.ServerMoves? {
      match c.s.server
      case Idle => ReceiveHelps(c, e, i);
      case Answering(_, _) => AnswerHelps(c, e, i);
      case _ => WorkHelps(c, e, i);
    } else if e.c == i {
      ClientHelps(c, e, i);
    } else {
      OthersKeep(c, e, i);
    }
  }

  // ---- Along a sequence of events ----

  ghost function At(pids: seq<int>, evs: nat -> Event, j: nat): (c: Config)
    ensures c.s == Run(pids, Prefix(evs, j)) && |c.from| == |c.s.inbox|
  {
    Trace(pids, Prefix(evs, j))
  }

  lemma {:induction false} NextAt(pids: seq<int>, evs: nat -> Event, j: nat)
    ensures At(pids, evs, j + 1) == Next(At(pids, evs, j), evs(j))
  {
    assert Prefix(evs, j + 1)[..j] == Prefix(evs, j);
  }

  /** Before event j, client i waits at a running server for the answer to the request that it sent. */
  ghost predicate WaitsFor(pids: seq<int>, evs: nat -> Event, i: nat, sent: Request, j: nat) {
    WaitsAtRunningServer(At(pids, evs, j), i) && At(pids, evs, j).s.clients[i].latest == sent
  }

  ghost function Movers(evs: nat -> Event): Schedule {
    (j: nat) => Mover(evs(j))
  }

  lemma {:induction false} EventHelpsAt(pids: seq<int>, evs: nat -> Event, i: nat, sent: Request, j: nat)
    requires DistinctPids(pids) && WaitsFor(pids, evs, i, sent, j)
    ensures || At(pids, evs, j + 1).s.server == Stopped
            || HasAnswer(At(pids, evs, j + 1), i, sent)
            || (&& WaitsFor(pids, evs, i, sent, j + 1)
                && ComesCloser(At(pids, evs, j), At(pids, evs, j + 1), Movers(evs)(j), i))
  {
    NextAt(pids, evs, j);
    InvRun(pids, Prefix(evs, j));
    EventHelps(At(pids, evs, j), evs(j), i);
  }

  ghost function Observe(pids: seq<int>, evs: nat -> Event, i: nat, sent: Request): Wait
    requires i < |pids|
  {
    Wait(
      (j: nat) => WaitsFor(pids, evs, i, sent, j),
      (j: nat) => MovesLeft(At(pids, evs, j), i),
      (j: nat) => Helper(At(pids, evs, j), i))
  }

  lemma {:induction false} EventApproaches(pids: seq<int>, evs: nat -> Event, i: nat, sent: Request, j: nat)
    requires DistinctPids(pids) && i < |pids|
    ensures Approaches(Observe(pids, evs, i, sent), Movers(evs), |pids| + 1, j)
  {
    if WaitsFor(pids, evs, i, sent, j) {
      EventHelpsAt(pids, evs, i, sent, j);
    }
  }

  lemma {:induction false} WaitEnds(pids: seq<int>, evs: nat -> Event, i: nat, sent: Request, a: nat) returns (b: nat)
    requires DistinctPids(pids) && i < |pids| && Fair(Movers(evs), |pids| + 1)
    requires WaitsFor(pids, evs, i, sent, a)
    ensures a < b && (At(pids, evs, b).s.server == Stopped || HasAnswer(At(pids, evs, b), i, sent))
  {
    var w, movers, n := Observe(pids, evs, i, sent), Movers(evs), |pids| + 1;
    forall j: nat ensures Approaches(w, movers, n, j) {
      EventApproaches(pids, evs, i, sent, j);
    }
    b := FairWaitEnds(w, movers, n, a);
    EventHelpsAt(pids, evs, i, sent, b);
    b := b + 1;
  }

  /**
   Along every fair sequence of events, a client that waits at time a has at some later
   time received the answer to this request, unless a move of the server has ended it:
   one that opens a queue too early or meets an operation without a value.
   */
  lemma {:induction false} WaitingClientIsAnswered(pids: seq<int>, evs: nat -> Event, i: nat, a: nat) returns (b: nat)
    requires DistinctPids(pids) && i < |pids| && Fair(Movers(evs), |pids| + 1)
    requires Run(pids, Prefix(evs, a)).clients[i].pc.Waiting()
    ensures a <= b
    ensures var before, after := Run(pids, Prefix(evs, a)).clients[i], Run(pids, Prefix(evs, b)).clients[i];
            || (exists k: nat :: BreaksServer(pids, Prefix(evs, b), k))
            || (after.pc.Closing? && after.latest == before.latest && IsAnswer(after.answer, before.latest))
  {
    var sent := At(pids, evs, a).s.clients[i].latest;
    if WaitsFor(pids, evs, i, sent, a) {
      b := WaitEnds(pids, evs, i, sent, a);
    } else {
      b := a;
    }
    ServerStopsIff(pids, Prefix(evs, b));
  }
}
