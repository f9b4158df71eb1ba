/**
 * The connection handlers of the relay (server.js, the "connection" listener).
 *
 * On a new connection the socket's nick is taken from the request path without
 * its first character and "Joined chat." is broadcast. Each inbound message is
 * broadcast as it is and then handed to the message log as one record carrying
 * a timestamp, the sender's nick and the message. On close the relay broadcasts
 * "Client disconnected (N)." where N is the size of the server's client set at
 * that moment, taken here as an input because the socket library decides it.
 *
 * The client set seen by each event and the clock reading are inputs: the
 * socket library owns the set, and the clock is not deterministic.
 */
module Relay {
  import opened Broadcast
  import Decimal
  import Negotiation

  datatype Option<T> = None | Some(value: T)

  /** `req.url.substring(1)`: the request path without its leading character. */
  function NickFromUrl(url: string): (nick: string)
    ensures |url| <= 1 ==> nick == ""
    ensures |url| >= 1 ==> [url[0]] + nick == url
  {
    if |url| == 0 then "" else url[1..]
  }

  const JoinedMessage: string := "Joined chat."

  const DisconnectPrefix: string := "Client disconnected ("
  const DisconnectSuffix: string := ")."

  /**
   * The departure announcement for a server holding `remaining` clients: the
   * fixed text around the count, whose digits have no leading zero and read
   * back as the count.
   */
  function DisconnectedMessage(remaining: nat): (m: string)
    ensures |m| > |DisconnectPrefix| + |DisconnectSuffix|
    ensures m[..|DisconnectPrefix|] == DisconnectPrefix
    ensures m[|m| - |DisconnectSuffix|..] == DisconnectSuffix
    ensures Decimal.AllDigits(m[|DisconnectPrefix|..|m| - |DisconnectSuffix|])
    ensures var mid := m[|DisconnectPrefix|..|m| - |DisconnectSuffix|]; |mid| > 1 ==> mid[0] != '0'
    ensures Decimal.Value(m[|DisconnectPrefix|..|m| - |DisconnectSuffix|]) == remaining
  {
    var digits := Decimal.FromNat(remaining);
    var m := DisconnectPrefix + digits + DisconnectSuffix;
    assert m[|DisconnectPrefix|..|m| - |DisconnectSuffix|] == digits;
    Decimal.ValueOfFromNat(remaining);
    m
  }

  /** One record handed to the message log. */
  datatype LogRecord = LogRecord(timestamp: Timestamp, nickname: string, message: string)

  /** What the socket library reports to the relay. */
  datatype Event =
    | Connection(socket: Client, url: string)
    | Message(socket: Client, message: string)
    | Close(socket: Client, remaining: nat)

  /** The sends of one event and the log record it produces, if any. */
  datatype Reaction = Reaction(fanout: Fanout, record: Option<LogRecord>)

  /** The socket an event is broadcast from; a new socket gets its nick first. */
  function Speaker(ev: Event): (ws: Client)
    ensures ws.id == ev.socket.id && ws.protocol == ev.socket.protocol
    ensures ev.Connection? ==> ws == ev.socket.(nick := NickFromUrl(ev.url))
    ensures !ev.Connection? ==> ws == ev.socket
  {
    match ev
    case Connection(socket, url) => socket.(nick := NickFromUrl(url))
    case Message(socket, _) => socket
    case Close(socket, _) => socket
  }

  /**
   * The payload each event hands to broadcastExcept: a chat message unchanged,
   * the fixed join text, or a departure text whose count reads back.
   */
  function Announcement(ev: Event): (a: string)
    ensures ev.Message? ==> a == ev.message
    ensures ev.Connection? ==> a == JoinedMessage
    ensures ev.Close? ==>
              && |a| > |DisconnectPrefix| + |DisconnectSuffix|
              && a[..|DisconnectPrefix|] == DisconnectPrefix
              && a[|a| - |DisconnectSuffix|..] == DisconnectSuffix
              && Decimal.AllDigits(a[|DisconnectPrefix|..|a| - |DisconnectSuffix|])
              && (var mid := a[|DisconnectPrefix|..|a| - |DisconnectSuffix|]; |mid| > 1 ==> mid[0] != '0')
              && Decimal.Value(a[|DisconnectPrefix|..|a| - |DisconnectSuffix|]) == ev.remaining
  {
    match ev
    case Connection(_, _) => JoinedMessage
    case Message(_, message) => message
    case Close(_, remaining) => DisconnectedMessage(remaining)
  }

  /**
   * The record the "message" listener hands to the log: the clock reading, the
   * sender's nick and the message itself. Joins and departures are not logged.
   */
  function Record(ev: Event, ts: Timestamp): (r: Option<LogRecord>)
    ensures r.Some? <==> ev.Message?
    ensures ev.Message? ==> r.value.nickname == ev.socket.nick && r.value.message == ev.message
  {
    match ev
    case Message(socket, message) => Some(LogRecord(ts, socket.nick, message))
    case _ => None
  }

  /**
   * The handler for one event over the client set `clients`, with `ts` standing
   * for the clock. Every event is broadcast from its own socket, carrying the
   * event's announcement, and the broadcast never reaches that socket.
   */
  function Handle(clients: seq<Client>, ev: Event, ts: Timestamp): (r: Reaction)
    ensures forall s :: s in r.fanout.sends ==> s.recipient != ev.socket.id
    ensures forall s :: s in r.fanout.sends ==> Payload(s.frame) == Announcement(ev)
    ensures r.fanout.count == |r.fanout.sends|
    ensures r.record.Some? <==> ev.Message?
  {
    Reaction(BroadcastExcept(clients, Speaker(ev), ts, Announcement(ev)), Record(ev, ts))
  }

  /**
   * A "json" socket that joins is announced under the nick taken from its
   * request path; any other socket's join goes out as the bare text.
   */
  lemma JoinCarriesNickFromPath(clients: seq<Client>, socket: Client, url: string, ts: Timestamp)
    ensures var sends := Handle(clients, Connection(socket, url), ts).fanout.sends;
            forall s :: s in sends ==>
              s.frame == if socket.protocol == Negotiation.JsonProtocol then Envelope(ts, NickFromUrl(url), JoinedMessage)
                         else Raw(JoinedMessage)
  {
  }

  /** An event together with the client set and clock reading it meets. */
  datatype Arrival = Arrival(clients: seq<Client>, event: Event, at: Timestamp)

  /** Everything a sequence of events produced: the sends per event, and the log. */
  datatype Trace = Trace(fanouts: seq<Fanout>, log: seq<LogRecord>)

  /** The records an optional record appends to the log. */
  function Logged(r: Option<LogRecord>): seq<LogRecord> {
    match r
    case Some(rec) => [rec]
    case None => []
  }

  /** The log after a sequence of events: each event's record appended in turn. */
  function LogOf(arrivals: seq<Arrival>): seq<LogRecord> {
    if |arrivals| == 0 then []
    else
      var last := arrivals[|arrivals| - 1];
      LogOf(arrivals[..|arrivals| - 1]) + Logged(Record(last.event, last.at))
  }

  /** The relay's behaviour over a sequence of events, handled in arrival order. */
  function Run(arrivals: seq<Arrival>): (t: Trace)
    ensures |t.fanouts| == |arrivals|
  {
    Trace(seq(|arrivals|, k requires 0 <= k < |arrivals| =>
                Handle(arrivals[k].clients, arrivals[k].event, arrivals[k].at).fanout),
          LogOf(arrivals))
  }

  /** Reference definition of the log: one record per chat message, in order. */
  function MessageRecords(arrivals: seq<Arrival>): seq<LogRecord> {
    if |arrivals| == 0 then []
    else MessageRecord(arrivals[0]) + MessageRecords(arrivals[1..])
  }

  function MessageRecord(a: Arrival): seq<LogRecord> {
    match a.event
    case Message(socket, message) => [LogRecord(a.at, socket.nick, message)]
    case _ => []
  }

  lemma {:induction false} MessageRecordsAppend(xs: seq<Arrival>, ys: seq<Arrival>)
    ensures MessageRecords(xs + ys) == MessageRecords(xs) + MessageRecords(ys)
  {
    if |xs| == 0 {
      assert xs + ys == ys;
    } else {
      assert (xs + ys)[1..] == xs[1..] + ys;
      MessageRecordsAppend(xs[1..], ys);
    }
  }

  /**
   * The records handed to the log are exactly the chat messages, one record
   * each, in the order the messages arrived; joins and departures are never
   * logged.
   */
  lemma {:induction false} LogIsMessagesInOrder(arrivals: seq<Arrival>)
    ensures Run(arrivals).log == MessageRecords(arrivals)
  {
    if |arrivals| > 0 {
      var n := |arrivals| - 1;
      var last, before := arrivals[n], arrivals[..n];
      assert LogOf(arrivals) == LogOf(before) + MessageRecord(last);
      assert MessageRecords(arrivals) == MessageRecords(before) + MessageRecord(last) by {
        assert arrivals == before + [last];
        MessageRecordsAppend(before, [last]);
        assert [last][1..] == [];
      }
      LogIsMessagesInOrder(before);
    }
  }

  /**
   * Whatever the event kind, a socket is never sent its own join, message or
   * departure.
   */
  lemma NoEchoInRun(arrivals: seq<Arrival>)
    ensures forall k :: 0 <= k < |arrivals| ==>
              forall s :: s in Run(arrivals).fanouts[k].sends ==> s.recipient != arrivals[k].event.socket.id
  {
  }

  /** A later event never changes what was logged before it. */
  lemma {:induction false} LogOnlyGrows(xs: seq<Arrival>, ys: seq<Arrival>)
    ensures Run(xs).log <= Run(xs + ys).log
  {
    LogIsMessagesInOrder(xs);
    LogIsMessagesInOrder(xs + ys);
    MessageRecordsAppend(xs, ys);
  }

  /** The departure announcement determines the count it reports. */
  lemma DisconnectedMessageInjective(a: nat, b: nat)
    ensures DisconnectedMessage(a) == DisconnectedMessage(b) ==> a == b
  {
  }

  /**
   * Bob leaves while alice and carol remain: both are told, in set order, that
   * two clients are left.
   */
  lemma DepartureScenario()
    ensures var alice := Client(1, Open, "text", "alice");
            var bob := Client(2, Closed, "text", "bob");
            var carol := Client(3, Open, "text", "carol");
            var text := "Client disconnected (2).";
            Handle([alice, carol], Close(bob, 2), "t").fanout
            == Fanout([Send(1, Raw(text)), Send(3, Raw(text))], 2)
  {
    assert Decimal.FromNat(2) == "2";
    assert DisconnectedMessage(2) == "Client disconnected (2).";
  }

  /**
   * Three text clients alice, bob and carol: alice's "hello" reaches bob and
   * carol verbatim, in set order, and never alice.
   */
  lemma ThreeClientScenario()
    ensures var alice := Client(1, Open, "text", "alice");
            var bob := Client(2, Open, "text", "bob");
            var carol := Client(3, Open, "text", "carol");
            Handle([alice, bob, carol], Message(alice, "hello"), "t").fanout
            == Fanout([Send(2, Raw("hello")), Send(3, Raw("hello"))], 2)
  {
  }
}
