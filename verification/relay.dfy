/** The socket.io relay: the set of live connections, the `users` registry and
    the four handlers. Each handler returns its outbox: one delivery per
    recipient, in the order the fan-out chose. */
module Relay {
  import opened Protocol
  import opened Registry

  /** Messages the relay sends to clients. */
  datatype Outgoing =
    | OnlineUsersEvent(names: seq<string>)
    | DrawLineEvent(data: Segment)
    | ClearCanvasEvent

  datatype Delivery = Delivery(to: Id, msg: Outgoing)

  function Recipients(out: seq<Delivery>): (ids: set<Id>) {
    set d | d in out :: d.to
  }

  lemma RecipientsSnoc(out: seq<Delivery>, d: Delivery)
    ensures Recipients(out + [d]) == Recipients(out) + {d.to}
  {
    assert forall e :: e in out + [d] <==> e in out || e == d;
  }

  /** `out` delivers `m` to every id in `targets`, exactly once each, and to no one else. */
  ghost predicate Broadcast(out: seq<Delivery>, targets: set<Id>, m: Outgoing) {
    && Recipients(out) == targets
    && (forall i, j :: 0 <= i < j < |out| ==> out[i].to != out[j].to)
    && (forall d :: d in out ==> d.msg == m)
  }

  /** One send per target connection (`io.emit` / `socket.broadcast.emit`). */
  method Fanout(targets: set<Id>, m: Outgoing) returns (out: seq<Delivery>)
    ensures Broadcast(out, targets, m)
  {
    out := [];
    var rest := targets;
    while rest != {}
      invariant rest <= targets
      invariant Recipients(out) == targets - rest
      invariant forall i, j :: 0 <= i < j < |out| ==> out[i].to != out[j].to
      invariant forall d :: d in out ==> d.msg == m
      decreases |rest|
    {
      var c :| c in rest;
      assert forall i :: 0 <= i < |out| ==> out[i] in out;
      RecipientsSnoc(out, Delivery(c, m));
      out := out + [Delivery(c, m)];
      rest := rest - {c};
    }
  }

  class Relay {
    /** Sockets currently connected (a socket leaves it when its `disconnect` runs). */
    var conns: set<Id>
    /** The `users` object. */
    var users: Users

    ghost predicate Valid()
      reads this
    {
      users.Valid() && users.names.Keys <= conns
    }

    /** The roster as sent in `online-users`: `Object.values(users)`. */
    function Roster(): (r: seq<string>)
      reads this
      requires Valid()
    {
      Values(users)
    }

    /** Server start: no connections, `users = {}`. */
    constructor ()
      ensures Valid() && conns == {} && users == Empty
    {
      conns := {};
      users := Empty;
    }

    /** A new socket connects with a fresh id; nothing is sent. */
    method Connect(id: Id)
      requires Valid() && id !in conns
      modifies this
      ensures Valid()
      ensures conns == old(conns) + {id} && users == old(users)
    {
      conns := conns + {id};
    }

    /** `join`: record the name under the sender's id, whatever the name is,
        then send the whole roster to every connected socket, sender included. */
    method Join(id: Id, name: string) returns (out: seq<Delivery>)
      requires Valid() && id in conns
      modifies this
      ensures Valid()
      ensures conns == old(conns)
      ensures users == Assign(old(users), id, name)
      ensures users.names[id] == name
      ensures Broadcast(out, conns, OnlineUsersEvent(Roster()))
    {
      users := Assign(users, id, name);
      out := Fanout(conns, OnlineUsersEvent(Values(users)));
    }

    /** `disconnect`: drop the socket and its entry (if any), then send the
        roster to every socket still connected. */
    method Disconnect(id: Id) returns (out: seq<Delivery>)
      requires Valid()
      modifies this
      ensures Valid()
      ensures conns == old(conns) - {id}
      ensures users == Delete(old(users), id)
      ensures id !in users.names
      ensures Broadcast(out, conns, OnlineUsersEvent(Roster()))
    {
      conns := conns - {id};
      users := Delete(users, id);
      out := Fanout(conns, OnlineUsersEvent(Values(users)));
    }

    /** `draw-line`: the payload, unchanged, to every other connected socket.
        The registry is not consulted: unjoined senders are relayed too. */
    method DrawLine(id: Id, data: Segment) returns (out: seq<Delivery>)
      requires Valid() && id in conns
      ensures id !in Recipients(out)
      ensures Broadcast(out, conns - {id}, DrawLineEvent(data))
    {
      out := Fanout(conns - {id}, DrawLineEvent(data));
    }

    /** `clear-canvas`: a payload-less signal to every other connected socket. */
    method ClearCanvas(id: Id) returns (out: seq<Delivery>)
      requires Valid() && id in conns
      ensures id !in Recipients(out)
      ensures Broadcast(out, conns - {id}, ClearCanvasEvent)
    {
      out := Fanout(conns - {id}, ClearCanvasEvent);
    }
  }
}
