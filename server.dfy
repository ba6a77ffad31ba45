/** The WebSocket side of the game server: the client registry (the array
    `client_wsi_list`, its live count `connected_clients` and its capacity
    `max_clients`), `add_client_wsi`, `remove_client_wsi`, `broadcast_message`, and
    the three cases of `callback_game` that use them.

    A handle H is the server's `struct lws*`: an opaque value compared by identity.
    Every `lws_write` is recorded as a (handle, text) pair appended to `outbox`. */
module GameServer {
  import opened CText
  import opened Round
  import opened ClientList

  /** The capacity `main` allocates before any client connects. */
  const InitialMaxClients: nat := 10

  /** The callback reasons `callback_game` distinguishes; RECEIVE carries the payload. */
  datatype Reason = Established | Receive(payload: string) | Closed | Other

  class Server<H(0,==)> {
    var clientList: array<H>
    var connectedClients: nat
    var maxClients: nat
    var outbox: seq<(H, string)>

    /** The capacity is the array's size, it is never zero, and the live entries fit. */
    ghost predicate Valid()
      reads this
    {
      clientList.Length == maxClients && 0 < maxClients && connectedClients <= maxClients
    }

    /** The registered handles, in slot order. */
    ghost function Clients(): seq<H>
      reads this, clientList
      requires Valid()
    {
      clientList[..connectedClients]
    }

    /** The state `main` sets up: an empty registry of capacity 10 and nothing sent. */
    constructor ()
      ensures Valid() && fresh(clientList)
      ensures maxClients == InitialMaxClients && Clients() == [] && outbox == []
    {
      clientList := new H[InitialMaxClients];
      connectedClients := 0;
      maxClients := InitialMaxClients;
      outbox := [];
    }

    /** `add_client_wsi`: doubles the capacity when the array is full, then puts wsi
        in slot `connectedClients` and counts it. */
    method AddClient(wsi: H)
      requires Valid()
      modifies this, clientList
      ensures Valid()
      ensures connectedClients == old(connectedClients) + 1
      ensures clientList[old(connectedClients)] == wsi
      ensures Clients() == old(Clients()) + [wsi]
      ensures maxClients == if old(connectedClients) >= old(maxClients) then 2 * old(maxClients) else old(maxClients)
      ensures old(connectedClients) < old(maxClients) ==> clientList == old(clientList)
      ensures old(connectedClients) >= old(maxClients) ==> fresh(clientList)
      ensures outbox == old(outbox)
    {
      if connectedClients >= maxClients {
        // realloc to twice the size: a fresh array holding the old entries
        var oldList := clientList;
        maxClients := maxClients * 2;
        var grown := new H[maxClients];
        var i := 0;
        while i < oldList.Length
          invariant 0 <= i <= oldList.Length
          invariant grown[..i] == oldList[..i]
          modifies grown
        {
          grown[i] := oldList[i];
          i := i + 1;
        }
        assert grown[..connectedClients] == oldList[..connectedClients];
        clientList := grown;
      }
      clientList[connectedClients] := wsi;
      connectedClients := connectedClients + 1;
    }

    /** `remove_client_wsi`: finds the first slot holding wsi, overwrites it with the
        last entry and shrinks the count; does nothing when wsi is not registered. */
    method RemoveClient(wsi: H)
      requires Valid()
      modifies this`connectedClients, clientList
      ensures Valid()
      ensures Clients() == RemoveFirst(old(Clients()), wsi)
      ensures wsi in old(Clients()) ==> connectedClients == old(connectedClients) - 1
      ensures wsi !in old(Clients()) ==>
                connectedClients == old(connectedClients) && clientList[..] == old(clientList[..])
    {
      var i := 0;
      while i < connectedClients
        invariant 0 <= i <= connectedClients
        invariant connectedClients == old(connectedClients) && clientList[..] == old(clientList[..])
        invariant forall j :: 0 <= j < i ==> clientList[j] != wsi
      {
        if clientList[i] == wsi {
          assert i == FirstIndex(old(Clients()), wsi);
          clientList[i] := clientList[connectedClients - 1];
          connectedClients := connectedClients - 1;
          break;
        }
        i := i + 1;
      }
    }

    /** `broadcast_message`: one send of message to each registered handle, in slot
        order; the registry is not touched. The message must fit the send buffer. */
    method Broadcast(message: string)
      requires Valid() && |message| < BufferSize
      modifies this`outbox
      ensures outbox == old(outbox) + Deliveries(Clients(), message)
    {
      var i := 0;
      while i < connectedClients
        invariant 0 <= i <= connectedClients
        invariant outbox == old(outbox) + Deliveries(clientList[..i], message)
      {
        assert clientList[..i + 1] == clientList[..i] + [clientList[i]];
        outbox := outbox + [(clientList[i], message)];
        i := i + 1;
      }
      assert clientList[..connectedClients] == Clients();
    }

    /** ESTABLISHED: register wsi, then tell every registered handle, wsi included,
        the new count. */
    method OnEstablished(wsi: H)
      requires Valid()
      modifies this, clientList
      ensures Valid()
      ensures Clients() == old(Clients()) + [wsi]
      ensures maxClients == if old(connectedClients) >= old(maxClients) then 2 * old(maxClients) else old(maxClients)
      ensures old(connectedClients) < old(maxClients) ==> clientList == old(clientList)
      ensures old(connectedClients) >= old(maxClients) ==> fresh(clientList)
      ensures outbox == old(outbox) + Deliveries(Clients(), CountMessage(|Clients()|))
    {
      AddClient(wsi);
      var message := CountMessage(connectedClients);
      Broadcast(message);
    }

    /** RECEIVE: read the client's choice from the payload, play it against the
        server's draw, and reply to wsi alone. */
    method OnReceive(wsi: H, payload: string, serverChoice: int)
      requires Valid() && IsChoice(serverChoice)
      modifies this`outbox
      ensures outbox == old(outbox) + [(wsi, ResultMessage(Atoi(payload), serverChoice))]
    {
      var clientChoice := Atoi(payload);
      var message := ResultMessage(clientChoice, serverChoice);
      outbox := outbox + [(wsi, message)];
    }

    /** CLOSED: deregister wsi if it is registered, then tell the remaining handles
        the new count. */
    method OnClosed(wsi: H)
      requires Valid()
      modifies this`connectedClients, this`outbox, clientList
      ensures Valid()
      ensures Clients() == RemoveFirst(old(Clients()), wsi)
      ensures outbox == old(outbox) + Deliveries(Clients(), CountMessage(|Clients()|))
    {
      RemoveClient(wsi);
      var message := CountMessage(connectedClients);
      Broadcast(message);
    }

    /** `callback_game`: dispatch on the reason; every other reason is ignored; the
        result is always 0. The server's draw is used by RECEIVE only. */
    method Callback(wsi: H, reason: Reason, serverChoice: int) returns (status: int)
      requires Valid() && (reason.Receive? ==> IsChoice(serverChoice))
      modifies this, clientList
      ensures Valid() && status == 0
      ensures clientList == old(clientList) || fresh(clientList)
      ensures reason.Established? ==> Clients() == old(Clients()) + [wsi]
      ensures reason.Established? ==>
                maxClients == if old(connectedClients) >= old(maxClients) then 2 * old(maxClients) else old(maxClients)
      ensures !reason.Established? ==> maxClients == old(maxClients) && clientList == old(clientList)
      ensures reason.Other? ==> unchanged(this) && unchanged(clientList)
      ensures reason.Closed? ==> Clients() == RemoveFirst(old(Clients()), wsi)
      ensures reason.Receive? || reason.Other? ==> Clients() == old(Clients())
      ensures outbox == old(outbox) + match reason
        case Established => Deliveries(Clients(), CountMessage(|Clients()|))
        case Closed => Deliveries(Clients(), CountMessage(|Clients()|))
        case Receive(payload) => [(wsi, ResultMessage(Atoi(payload), serverChoice))]
        case Other => []
    {
      status := 0;
      match reason
      case Established => OnEstablished(wsi);
      case Receive(payload) => OnReceive(wsi, payload, serverChoice);
      case Closed => OnClosed(wsi);
      case Other =>
    }
  }

  /** A fresh server, then a connects and b connects: a is told the count 1, then
      a and b are told the count 2. */
  method ConnectTwo<H(0,==)>(a: H, b: H) returns (s: Server<H>)
    ensures fresh(s) && fresh(s.clientList)
    ensures s.Valid() && s.Clients() == [a, b]
    ensures s.outbox == [(a, CountMessage(1)), (a, CountMessage(2)), (b, CountMessage(2))]
  {
    s := new Server<H>();
    s.OnEstablished(a);
    assert s.Clients() == [a];
    assert s.outbox == [(a, CountMessage(1))];
    s.OnEstablished(b);
    assert s.Clients() == [a, b];
  }

  /** With a and b registered, a plays rock against the server's scissors and b
      leaves: a gets the result, then a alone is told the count 1. */
  method PlayAndLeave<H(0,==)>(s: Server<H>, a: H, b: H)
    requires a != b && s.Valid() && s.Clients() == [a, b]
    modifies s, s.clientList
    ensures s.Valid() && s.Clients() == [a]
    ensures s.outbox == old(s.outbox) + [(a, ResultMessage(0, 2)), (a, CountMessage(1))]
  {
    RockPayload();
    s.OnReceive(a, "0", 2);
    ghost var o3 := s.outbox;
    assert RemoveFirst([a, b], b) == [a];
    s.OnClosed(b);
    assert s.outbox == o3 + [(a, CountMessage(1))];
  }

  /** Two clients on a fresh server: a connects, b connects, a plays rock against the
      server's scissors (the reply `Round.RockAgainstScissorsReply` spells out), b
      leaves. The five sends, in order: the count 1 to a, the count 2 to a and to b,
      the result to a, the count 1 to a. */
  method TwoPlayerSession<H(0,==)>(a: H, b: H) returns (s: Server<H>)
    requires a != b
    ensures s.Valid() && s.Clients() == [a]
    ensures s.outbox == [(a, CountMessage(1)), (a, CountMessage(2)), (b, CountMessage(2)),
                         (a, ResultMessage(0, 2)), (a, CountMessage(1))]
  {
    s := ConnectTwo(a, b);
    PlayAndLeave(s, a, b);
  }
}
