/**
 * The fan-out rule of the relay (server.js, broadcastExcept).
 *
 * Given the sending connection and a payload, the relay walks the server's client
 * set in iteration order and sends one frame to every client that is not the
 * sender and whose readyState is OPEN, counting the sends as it goes. The frame
 * shape is decided by the SENDER's negotiated protocol: a "json" sender has its
 * payload wrapped in an envelope carrying a timestamp and the sender's nick, any
 * other sender has it forwarded verbatim. The recipient's protocol plays no part.
 *
 * Object identity of sockets (`client !== ws`) is modelled by the `id` field.
 * The clock reading and the JSON serialisation are replaced by an opaque
 * timestamp and the `Envelope` constructor.
 */
module Broadcast {
  import Negotiation
  import Sequences

  /** The textual value of `Date()`, taken as an opaque input. */
  type Timestamp = string

  /** The websocket readyState values; the relay only distinguishes Open. */
  datatype ReadyState = Connecting | Open | Closing | Closed

  /** A connected socket as the relay sees it. */
  datatype Client = Client(id: nat, state: ReadyState, protocol: string, nick: string)

  /** What goes on the wire: the payload itself, or the JSON envelope around it. */
  datatype Frame = Raw(payload: string) | Envelope(timestamp: Timestamp, nick: string, data: string)

  /** One `client.send(...)` call. */
  datatype Send = Send(recipient: nat, frame: Frame)

  /** The sends of one broadcastExcept call, in order, and its `clients` counter. */
  datatype Fanout = Fanout(sends: seq<Send>, count: nat)

  /** The guard of the send: not the sender, and OPEN. */
  predicate IsRecipient(sender: Client, c: Client) {
    c.id != sender.id && c.state == Open
  }

  /** The chat payload a frame carries to its reader. */
  function Payload(f: Frame): string {
    match f
    case Raw(p) => p
    case Envelope(_, _, d) => d
  }

  /**
   * The frame every recipient gets: chosen by the sender's protocol only, and
   * always carrying the payload unchanged.
   */
  function FrameFor(sender: Client, ts: Timestamp, data: string): (f: Frame)
    ensures Payload(f) == data
    ensures f.Envelope? <==> sender.protocol == Negotiation.JsonProtocol
    ensures f.Envelope? ==> f.nick == sender.nick && f.timestamp == ts
  {
    if sender.protocol == Negotiation.JsonProtocol then Envelope(ts, sender.nick, data)
    else Raw(data)
  }

  /**
   * Reference definition of who is sent to: the clients passing the guard, in
   * client-set order, each as often as it occurs in the set.
   */
  function Recipients(clients: seq<Client>, sender: Client): (rs: seq<Client>)
    ensures forall c :: c in rs <==> c in clients && IsRecipient(sender, c)
  {
    if |clients| == 0 then []
    else if IsRecipient(sender, clients[0]) then [clients[0]] + Recipients(clients[1..], sender)
    else Recipients(clients[1..], sender)
  }

  /**
   * Each client passing the guard is a recipient as often as it occurs in the
   * client set; no other client is one.
   */
  lemma {:induction false} RecipientsMultiplicity(clients: seq<Client>, sender: Client)
    ensures forall c :: multiset(Recipients(clients, sender))[c]
                        == if IsRecipient(sender, c) then multiset(clients)[c] else 0
  {
    if |clients| > 0 {
      RecipientsMultiplicity(clients[1..], sender);
      assert clients == [clients[0]] + clients[1..];
    }
  }

  /** The recipients keep the client set's iteration order. */
  lemma {:induction false} RecipientsInSetOrder(clients: seq<Client>, sender: Client)
    ensures Sequences.IsSubsequence(Recipients(clients, sender), clients)
  {
    if |clients| > 0 {
      var rest := Recipients(clients[1..], sender);
      RecipientsInSetOrder(clients[1..], sender);
      if IsRecipient(sender, clients[0]) {
        assert ([clients[0]] + rest)[1..] == rest;
      } else if |rest| > 0 {
        assert rest[0] in rest;
        assert rest[0] != clients[0];
      }
    }
  }

  /** The ids of some clients, in order. */
  function Ids(clients: seq<Client>): (ids: seq<nat>)
    ensures |ids| == |clients|
  {
    if |clients| == 0 then [] else [clients[0].id] + Ids(clients[1..])
  }

  /** The recipient of every send, in order. */
  function Targets(sends: seq<Send>): (ids: seq<nat>)
    ensures |ids| == |sends|
  {
    if |sends| == 0 then [] else [sends[0].recipient] + Targets(sends[1..])
  }

  /**
   * broadcastExcept: one pass over the client set, sending to each client that
   * passes the guard and incrementing the counter once per send.
   */
  function BroadcastExcept(clients: seq<Client>, sender: Client, ts: Timestamp, data: string): (out: Fanout)
    ensures out.count == |out.sends|
    ensures forall k :: 0 <= k < |out.sends| ==> out.sends[k].frame == FrameFor(sender, ts, data)
    ensures forall k :: 0 <= k < |out.sends| ==> out.sends[k].recipient != sender.id
  {
    if |clients| == 0 then Fanout([], 0)
    else
      var rest := BroadcastExcept(clients[1..], sender, ts, data);
      if IsRecipient(sender, clients[0]) then
        Fanout([Send(clients[0].id, FrameFor(sender, ts, data))] + rest.sends, rest.count + 1)
      else
        rest
  }

  /** How one step of the walk over the client set extends the sends. */
  lemma SendsStep(clients: seq<Client>, sender: Client, ts: Timestamp, data: string)
    requires |clients| > 0
    ensures var out := BroadcastExcept(clients, sender, ts, data);
            var rest := BroadcastExcept(clients[1..], sender, ts, data);
            if IsRecipient(sender, clients[0]) then
              && out.sends == [Send(clients[0].id, FrameFor(sender, ts, data))] + rest.sends
              && Targets(out.sends) == [clients[0].id] + Targets(rest.sends)
            else out == rest
  {
  }

  /**
   * The sends go, one each and in client-set order, to exactly the clients of
   * the reference definition.
   */
  lemma {:induction false} SendsFollowRecipients(clients: seq<Client>, sender: Client, ts: Timestamp, data: string)
    ensures Targets(BroadcastExcept(clients, sender, ts, data).sends) == Ids(Recipients(clients, sender))
  {
    if |clients| > 0 {
      SendsFollowRecipients(clients[1..], sender, ts, data);
      SendsStep(clients, sender, ts, data);
      if IsRecipient(sender, clients[0]) {
        var rs := Recipients(clients, sender);
        assert rs == [clients[0]] + Recipients(clients[1..], sender);
        assert rs[1..] == Recipients(clients[1..], sender);
      }
    }
  }

  /** No two entries of the client set are the same socket. */
  predicate UniqueIds(clients: seq<Client>) {
    forall i, j :: 0 <= i < j < |clients| ==> clients[i].id != clients[j].id
  }

  /** Number of sends addressed to `id`. */
  function SendsTo(out: Fanout, id: nat): nat {
    multiset(Targets(out.sends))[id]
  }

  /** An id is listed exactly when some client carries it. */
  lemma {:induction false} IdsMembership(clients: seq<Client>)
    ensures forall id :: id in Ids(clients) <==> exists c :: c in clients && c.id == id
  {
    if |clients| > 0 {
      IdsMembership(clients[1..]);
      assert forall c :: c in clients <==> c == clients[0] || c in clients[1..];
    }
  }

  /** Distinct sockets stay distinct in the tail, and the head is not among them. */
  lemma UniqueIdsTail(clients: seq<Client>)
    requires |clients| > 0 && UniqueIds(clients)
    ensures UniqueIds(clients[1..])
    ensures clients[0].id !in Ids(clients[1..])
  {
    IdsMembership(clients[1..]);
  }

  /**
   * Exactly-once delivery: over a client set of distinct sockets, each client
   * that is not the sender and is OPEN gets one send, every other client of the
   * set gets none, and nobody outside the set is sent anything.
   */
  lemma {:induction false} EachRecipientSentOnce(clients: seq<Client>, sender: Client, ts: Timestamp, data: string)
    requires UniqueIds(clients)
    ensures forall c :: c in clients ==>
              SendsTo(BroadcastExcept(clients, sender, ts, data), c.id) == if IsRecipient(sender, c) then 1 else 0
    ensures forall id :: id !in Ids(clients) ==> SendsTo(BroadcastExcept(clients, sender, ts, data), id) == 0
  {
    if |clients| > 0 {
      var head, tail := clients[0], clients[1..];
      var out := BroadcastExcept(clients, sender, ts, data);
      var rest := BroadcastExcept(tail, sender, ts, data);
      UniqueIdsTail(clients);
      EachRecipientSentOnce(tail, sender, ts, data);
      SendsStep(clients, sender, ts, data);
      IdsMembership(tail);
      assert Ids(clients) == [head.id] + Ids(tail);
      forall c | c in clients
        ensures SendsTo(out, c.id) == if IsRecipient(sender, c) then 1 else 0
      {
        if c == head {
          assert SendsTo(rest, c.id) == 0;
        } else {
          assert c in tail;
        }
      }
    } else {
      assert Targets(BroadcastExcept(clients, sender, ts, data).sends) == [];
    }
  }

  /** Nothing is sent to a socket outside the client set, distinct or not. */
  lemma RecipientTargetsAreClientIds(clients: seq<Client>, sender: Client, ts: Timestamp, data: string)
    ensures forall id :: id in Targets(BroadcastExcept(clients, sender, ts, data).sends) ==> id in Ids(clients)
  {
    SendsFollowRecipients(clients, sender, ts, data);
    IdsMembership(clients);
    IdsMembership(Recipients(clients, sender));
  }

  /** Distinct clients give distinct recipients. */
  lemma {:induction false} RecipientsDistinct(clients: seq<Client>, sender: Client)
    requires Sequences.Distinct(clients)
    ensures Sequences.Distinct(Recipients(clients, sender))
  {
    if |clients| > 0 {
      var tail := clients[1..];
      assert Sequences.Distinct(tail) by {
        assert forall i, j :: 0 <= i < j < |tail| ==> tail[i] == clients[i + 1] && tail[j] == clients[j + 1];
      }
      RecipientsDistinct(tail, sender);
      assert clients[0] !in tail by {
        assert forall k :: 0 <= k < |tail| ==> tail[k] == clients[k + 1];
      }
      var rest := Recipients(tail, sender);
      if IsRecipient(sender, clients[0]) {
        var rs := [clients[0]] + rest;
        assert Recipients(clients, sender) == rs;
        forall i, j | 0 <= i < j < |rs|
          ensures rs[i] != rs[j]
        {
          if i == 0 {
            assert rs[j] in rest;
          } else {
            assert rs[i] == rest[i - 1] && rs[j] == rest[j - 1];
          }
        }
      }
    }
  }

  /**
   * The counter reports the number of distinct OPEN sockets other than the
   * sender (for a client set of distinct sockets).
   */
  lemma CountIsEligibleClients(clients: seq<Client>, sender: Client, ts: Timestamp, data: string)
    requires UniqueIds(clients)
    ensures BroadcastExcept(clients, sender, ts, data).count
            == |set c | c in clients && IsRecipient(sender, c)|
  {
    var rs := Recipients(clients, sender);
    SendsFollowRecipients(clients, sender, ts, data);
    assert Sequences.Distinct(clients);
    RecipientsDistinct(clients, sender);
    DistinctCardinality(rs);
    assert (set c | c in rs) == (set c | c in clients && IsRecipient(sender, c));
  }

  /** A sequence without repetitions has as many distinct elements as positions. */
  lemma {:induction false} DistinctCardinality<T>(xs: seq<T>)
    requires Sequences.Distinct(xs)
    ensures |set x | x in xs| == |xs|
  {
    if |xs| > 0 {
      var tail := xs[1..];
      assert Sequences.Distinct(tail) by {
        assert forall i, j :: 0 <= i < j < |tail| ==> tail[i] == xs[i + 1] && tail[j] == xs[j + 1];
      }
      DistinctCardinality(tail);
      assert (set x | x in xs) == {xs[0]} + (set x | x in tail);
      assert xs[0] !in tail by {
        assert forall k :: 0 <= k < |tail| ==> tail[k] == xs[k + 1];
      }
    }
  }

  /**
   * The framing rule as the code has it: a "json" sender's payload goes out as
   * an envelope with the sender's nick and the payload as data; anything else
   * goes out verbatim. Every recipient sees the same frame.
   */
  lemma FramingFollowsSender(clients: seq<Client>, sender: Client, ts: Timestamp, data: string)
    ensures sender.protocol == Negotiation.JsonProtocol ==>
              forall s :: s in BroadcastExcept(clients, sender, ts, data).sends ==> s.frame == Envelope(ts, sender.nick, data)
    ensures sender.protocol != Negotiation.JsonProtocol ==>
              forall s :: s in BroadcastExcept(clients, sender, ts, data).sends ==> s.frame == Raw(data)
  {
  }

  /** Two client sets that agree on each client's socket and readyState. */
  predicate SameTargets(a: seq<Client>, b: seq<Client>) {
    |a| == |b| && forall k :: 0 <= k < |a| ==> a[k].id == b[k].id && a[k].state == b[k].state
  }

  /**
   * Recipients' own protocols and nicks never influence what is sent: only the
   * sockets, their readyStates and the sender matter.
   */
  lemma {:induction false} RecipientProtocolIrrelevant(a: seq<Client>, b: seq<Client>, sender: Client, ts: Timestamp, data: string)
    requires SameTargets(a, b)
    ensures BroadcastExcept(a, sender, ts, data) == BroadcastExcept(b, sender, ts, data)
  {
    if |a| > 0 {
      RecipientProtocolIrrelevant(a[1..], b[1..], sender, ts, data);
    }
  }
}
