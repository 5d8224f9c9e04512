/** The server and the clients of cw8 on their queues: one method for every step, and a driver. */
module CalculatorProcesses {
  import opened Calculator
  import opened CalculatorRouting

  class CalculatorService {
    const clients: array<Client>  // each with its own locals and queue
    var inbox: seq<string>        // the server's queue
    var server: ServerPC

    ghost function View(): State
      reads this, clients
    {
      State(clients[..], inbox, server)
    }

    constructor (pids: seq<int>)
      ensures View() == Initial(pids) && fresh(clients)
    {
      this.inbox, this.server := [], Idle;
      this.clients := new Client[|pids|](c requires 0 <= c < |pids| =>
        Client(pids[c], Typing, Request(0, '+', 0), false, [], []));
      new;
      assert clients[..] == Initial(pids).clients;
    }

    /** cw8/client.c:58-65: an operation that fits is read; other input is outside the model. */
    method TypeOperation(c: nat, typed: Request, stale: string)
      requires c < clients.Length && clients[c].pc.Typing?
      modifies clients
      ensures View() == Step(old(View()), ClientMoves(c, typed, stale))
    {
      var me := clients[c];
      if Typable(me.pid, typed) {
        clients[c] := me.(latest := typed, pc := Sending);
      } else {
        clients[c] := me;
      }
    }

    /** cw8/client.c:68: waits while the server's queue is full. */
    method SendRequest(c: nat, typed: Request, stale: string)
      requires c < clients.Length && clients[c].pc.Sending?
      modifies this`inbox, clients
      ensures View() == Step(old(View()), ClientMoves(c, typed, stale))
    {
      var me := clients[c];
      if |inbox| < MAX_MSG {
        inbox := inbox + [Message(RequestText(me.pid, me.latest), stale)];
        clients[c] := me.(pc := Creating);
      }
    }

    /** cw8/client.c:72 */
    method CreateQueue(c: nat, typed: Request, stale: string)
      requires c < clients.Length && clients[c].pc.Creating?
      modifies clients
      ensures View() == Step(old(View()), ClientMoves(c, typed, stale))
    {
      clients[c] := clients[c].(hasQueue := true, queue := [], pc := Receiving);
    }

    /** cw8/client.c:75: waits while its queue is empty. */
    method ReceiveAnswer(c: nat, typed: Request, stale: string)
      requires c < clients.Length && clients[c].pc.Receiving?
      modifies clients
      ensures View() == Step(old(View()), ClientMoves(c, typed, stale))
    {
      var me := clients[c];
      if me.queue != [] {
        clients[c] := me.(answer := me.queue[0], queue := me.queue[1..], pc := Closing);
      } else {
        clients[c] := me;
      }
    }

    /** cw8/client.c:80-83 */
    method CloseQueue(c: nat, typed: Request, stale: string)
      requires c < clients.Length && clients[c].pc.Closing?
      modifies clients
      ensures View() == Step(old(View()), ClientMoves(c, typed, stale))
    {
      clients[c] := clients[c].(hasQueue := false, queue := [], pc := Typing);
    }

    /** cw8/server.c:50: waits while its queue is empty. */
    method ReceiveRequest(stale: string)
      requires server.Idle?
      modifies this`inbox, this`server
      ensures View() == Step(old(View()), ServerMoves(stale))
    {
      if inbox != [] {
        server, inbox := Computing(inbox[0]), inbox[1..];
      }
    }

    /** cw8/server.c:55-77 */
    method ComputeAnswer(stale: string)
      requires server.Computing?
      modifies this`server
      ensures View() == Step(old(View()), ServerMoves(stale))
    {
      match ParseRequest(server.request)
      case Incomplete => server := Stopped;
      case Complete(pid, r) =>
        match Evaluate(r)
        case Undefined => server := Stopped;
        case Answer(text) => server := Opening(pid, text);
    }

    /** cw8/server.c:80-81 */
    method OpenQueue(stale: string)
      requires server.Opening?
      modifies this`server
      ensures View() == Step(old(View()), ServerMoves(stale))
    {
      if FindQueue(clients[..], server.pid) < clients.Length {
        server := Answering(server.pid, server.text);
      } else {
        server := Stopped;
      }
    }

    /** cw8/server.c:86: waits while the client's queue is full. */
    method SendAnswer(stale: string)
      requires server.Answering?
      modifies this`server, clients
      ensures View() == Step(old(View()), ServerMoves(stale))
    {
      var c := FindQueue(clients[..], server.pid);
      if c < clients.Length && |clients[c].queue| < MAX_MSG {
        clients[c] := clients[c].(queue := clients[c].queue + [Message(server.text, stale)]);
        server := Idle;
      }
    }

    method Happen(e: Event)
      modifies this`inbox, this`server, clients
      ensures View() == Step(old(View()), e)
    {
      match e
      case ServerMoves(stale) =>
        match server {
          case Idle => ReceiveRequest(stale);
          case Computing(_) => ComputeAnswer(stale);
          case Opening(_, _) => OpenQueue(stale);
          case Answering(_, _) => SendAnswer(stale);
          case Stopped =>
        }
      case ClientMoves(c, typed, stale) =>
        if c < clients.Length {
          match clients[c].pc
          case Typing => TypeOperation(c, typed, stale);
          case Sending => SendRequest(c, typed, stale);
          case Creating => CreateQueue(c, typed, stale);
          case Receiving => ReceiveAnswer(c, typed, stale);
          case Closing => CloseQueue(c, typed, stale);
        }
    }
  }

  /** The service under any sequence of events; every received answer is for the latest request of its client. */
  method RunService(pids: seq<int>, events: seq<Event>) returns (service: CalculatorService)
    requires DistinctPids(pids)
    ensures service.View() == Run(pids, events)
    ensures forall i: nat | i < service.clients.Length && service.clients[i].pc.Closing? ::
              IsAnswer(service.clients[i].answer, service.clients[i].latest)
  {
    service := new CalculatorService(pids);
    for j := 0 to |events|
      invariant fresh(service) && fresh(service.clients)
      invariant service.View() == Run(pids, events[..j])
    {
      service.Happen(events[j]);
      assert events[..j + 1][..j] == events[..j];
    }
    assert events[..|events|] == events;
    forall i: nat | i < service.clients.Length && service.clients[i].pc.Closing?
      ensures IsAnswer(service.clients[i].answer, service.clients[i].latest)
    {
      assert service.clients[i] == service.View().clients[i];
      AnswerIsForLatest(pids, events, i);
    }
  }
}
