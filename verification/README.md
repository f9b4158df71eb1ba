# Chat relay: subprotocol selection, fan-out and connection handlers

A Dafny model of the decision logic in `server.js`, a websocket chat relay.
Clients connect with an ordered list of subprotocols, get a nick taken from
their request path, and every message one client sends is relayed to every
other open client and appended to a message log.

The model has four parts, one module each:

- `Negotiation`: `handleProtocols`. It picks the client's first offered token
  that is `"text"` or `"json"`. When there is none it gives `Rejected`, which
  stands for the `false` the source returns.
- `Broadcast`: `broadcastExcept`. It is a pure function over the client set,
  given as a `seq<Client>` in iteration order. It returns the ordered list of
  sends and the `clients` counter. Socket identity (`client !== ws`) is the
  `id` field. `wss.clients` is a JavaScript `Set`, so a real client set never
  holds one socket twice; the lemmas that need this say so with `UniqueIds`.
  The frame is chosen by the **sender's** protocol: `Envelope` for a
  `"json"` sender, `Raw` otherwise.
- `Relay`: the `"connection"` listener. It covers nick derivation and the join,
  message and close handlers, plus a run over a sequence of events that
  collects each event's sends and the message log.
- `Decimal`: the decimal rendering of the count in `Client disconnected (N).`.
  `Sequences` holds two small sequence predicates used to state order and
  distinctness.

Every recipient of one broadcast gets the same frame, because `server.js:77`
tests the sender's `ws.protocol`; `Broadcast.RecipientProtocolIrrelevant`
states this. The `"error"` listener (`server.js:139-141`) only logs, so an
error is not a relay event.

`Relay.Run` folds the handlers over a sequence of events. It collects each
event's sends and the records handed to `saveToDb` (server.js:136). Its
meaning is stated by the rows for `Relay.LogIsMessagesInOrder`,
`Relay.LogOnlyGrows` and `Relay.NoEchoInRun`.

## Model

| member | source | states |
|---|---|---|
| `Negotiation.Scan` | server.js:51-58 | From index `i` on, the scan gives `Rejected` exactly when no token from `i` on is `"text"` or `"json"`. Otherwise it gives the token at the first supported position from `i`. |
| `Negotiation.HandleProtocols` | server.js:49-59 | The result is `Rejected` exactly when no offered token is supported, including for an empty list. Otherwise it is `"text"` or `"json"`, equals an offered token, and no earlier token is supported. |
| `Negotiation.SelectionIsFirstSupportedToken` | server.js:51-58 | Reference definition: the selection is the head of the client's supported tokens in offer order, and `Rejected` when that list is empty. |
| `Negotiation.SelectionOfConcatenation` | server.js:51-57 | The client's order decides. Over `first + second`, the selection is `first`'s if `first` has a supported token, else `second`'s. So a leading `"json"` beats a later `"text"`. |
| `Negotiation.SelectionWasOffered` | server.js:52-58 | A selected token is always one of the offered tokens. |
| `Negotiation.SelectionExamples` | server.js:49-59 | `["json","text"]` gives `"json"` and `["text","json"]` gives `"text"`. `["binary","json"]` gives `"json"`. `["binary"]` and `[]` are rejected. |
| `Broadcast.FrameFor` | server.js:77-87 | The frame always carries the payload unchanged. It is an envelope exactly when the sender's protocol is `"json"`, and then it holds the sender's nick and the clock reading. |
| `Broadcast.Recipients` | server.js:74-75 | A client is a recipient exactly when it is in the set, is not the sender and is OPEN. |
| `Broadcast.RecipientsMultiplicity` | server.js:74-75 | Each client passing the guard is a recipient as often as it occurs in the set. Every other client is a recipient zero times. |
| `Broadcast.RecipientsInSetOrder` | server.js:74 | The recipients form a subsequence of the client set, so iteration order is kept. |
| `Broadcast.BroadcastExcept` | server.js:71-91 | The counter equals the number of sends. Every send carries the frame chosen from the sender's protocol. No send is addressed to the sender. |
| `Broadcast.SendsFollowRecipients` | server.js:74-88 | The recipients of the sends, in order, are the ids of the reference recipients. That means one send per OPEN non-sender client, in set order, and nothing else. |
| `Broadcast.EachRecipientSentOnce` | server.js:74-88 | If the sockets in the set are distinct, each OPEN non-sender client gets exactly one send. Every other client in the set gets none, and no id outside the set gets any. |
| `Broadcast.RecipientTargetsAreClientIds` | server.js:74-86 | Every send goes to a socket of the client set, whether or not the set has duplicates. |
| `Broadcast.CountIsEligibleClients` | server.js:72-76 | If the sockets in the set are distinct, the counter equals the number of distinct OPEN clients other than the sender. |
| `Broadcast.FramingFollowsSender` | server.js:77-87 | For a `"json"` sender, every send is `Envelope(ts, sender.nick, data)`. For any other sender, every send is `Raw(data)`. |
| `Broadcast.RecipientProtocolIrrelevant` | server.js:75-87 | Two client sets that agree on socket ids and readyStates produce the same broadcast. The recipients' protocols and nicks play no part. |
| `Decimal.FromNat` | server.js:145 | The rendering of the count is a non-empty string of digits with no leading zero. |
| `Decimal.ValueOfFromNat` | server.js:145 | Reading the rendered count back as a decimal number gives the count. |
| `Decimal.FromNatInjective` | server.js:145 | Different counts are rendered differently. |
| `Relay.NickFromUrl` | server.js:127 | Putting the URL's first character back in front of the nick gives the URL. The nick is empty when the URL has at most one character. |
| `Relay.DisconnectedMessage` | server.js:145 | The departure text starts with `Client disconnected (` and ends with `).`. The digits between them have no leading zero and read back as the client count, which fixes the text uniquely. |
| `Relay.Announcement` | server.js:130-145 | A message event broadcasts the message unchanged, a connection broadcasts `Joined chat.`, and a close broadcasts the departure text, whose digits have no leading zero and read back as the given count. |
| `Relay.DisconnectedMessageInjective` | server.js:145 | The departure text determines the client count it reports. |
| `Relay.Speaker` | server.js:126-127 | Every event is broadcast from the event's own socket, with its protocol unchanged. A new connection's socket carries the nick `NickFromUrl(url)` when its join is broadcast; message and close events broadcast from the event's socket as given. |
| `Relay.Record` | server.js:133-137 | Exactly the message events produce a log record. The record holds the sender's nick and the message unchanged. |
| `Relay.Handle` | server.js:126-146 | For join, message and close events alike, no send reaches the event's own socket. Every send carries that event's text: `Joined chat.`, the message, or `Client disconnected (N).`. The counter matches the sends, and only messages are logged. |
| `Relay.JoinCarriesNickFromPath` | server.js:127-130 | A `"json"` socket's join is announced as an envelope under the nick taken from its request path. Any other socket's join is sent as the raw text. |
| `Relay.LogIsMessagesInOrder` | server.js:133-137 | The log equals the reference list of one record per message event, in arrival order. Joins and departures are never logged. |
| `Relay.NoEchoInRun` | server.js:126-146 | In a run, no event's sends ever reach that event's own socket. |
| `Relay.LogOnlyGrows` | server.js:136 | Later events only append to the log. What was logged before is kept as a prefix. |
| `Relay.DepartureScenario` | server.js:143-146 | When bob closes and alice and carol remain, alice and then carol receive `Raw("Client disconnected (2).")`. The counter is 2. |
| `Relay.ThreeClientScenario` | server.js:133-135 | With text clients alice, bob and carol, alice's `"hello"` goes to bob and then carol as `Raw("hello")`. The counter is 2 and alice gets nothing. |

## Left out

- `saveToDb` and `findInCollection` (server.js:93-121) are remote MongoDB I/O through a foreign driver. Persistence is modelled only as the sequence of records handed to `saveToDb`, in the order of the calls. Connection failures and the history read path are not modelled.
- The Express/CORS handler (server.js:28-37), `server.listen` and the port setting (server.js:7, 152-154) are web plumbing. They are not modelled.
- The websocket library's lifecycle is not modelled: readyState transitions, and when a socket joins or leaves `wss.clients`. Each event is given the client set it sees, as an input.
- The order in which the store inserts records is not modelled. `saveToDb` is called without being awaited (server.js:136) and opens its own connection each time (server.js:94), so concurrent inserts may land in a different order from the calls; the model's log is the order of the calls.
- The socket record carried by each `Message` and `Close` event (its nick and protocol) is an input, like the client set. The model does not carry `ws.nick` from the connection (server.js:127) to the socket's later events (server.js:80, 136); a run may give a socket a nick on its later events different from the one its connection derived.
- The count in `Client disconnected (N).` is an input. It is `wss.clients.size` when the close listener runs, and that depends on when the library removes the closing socket.
- `Date()` is read once per recipient and again for the log record. The model uses one clock reading per event for all of them.
- `JSON.stringify` is replaced by the `Envelope` constructor. The serialised text is not modelled.
- `handleProtocols` returning `false`: what the library then does with the handshake differs between library versions. Only the selection itself is modelled.
- The client's protocol and the timestamp are strings. A message that arrives as a binary buffer is modelled as a string.
- `Relay.NickFromUrl` treats a string as a sequence of Unicode characters. JavaScript's `substring(1)` drops one UTF-16 code unit, so for a path that starts with a character outside the Basic Multilingual Plane the two differ.
- Nothing in `console.log` output, the no-op `"error"` listener or the unused `users` array affects behaviour. None of them is modelled.
