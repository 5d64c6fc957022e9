# Ping counter server, modelled in Dafny

The program is a small TCP server. Its state is the struct `PingCounter`
(src/main.rs:12-68), which has a hand-written `poll` method; `main` wraps
that method in `future::poll_fn` (src/main.rs:79). The struct holds:

- the listener's stream of incoming connections;
- a `u64` counter of pings;
- a table from peer address to the reply waiting for that peer;
- a table from peer address to its line-framed connection.

Each `poll` passes over every connection. A connection with a waiting reply
gets it handed to `start_send` if the socket is ready. A connection with no
waiting reply is read once. The line `"ping\n"` bumps the counter and stores
`format!("{}\n", counter)` as that peer's reply. After the pass, a newly
accepted peer is added to the connection table and the pass starts again.
When the listener has nothing new, `poll` returns `Pending`. The first I/O
error ends the call. The client half of `main` reads a reply back with
`replace('\n', "").parse::<u64>()` (src/main.rs:93).

The project has five files:

- `wrappers.dfy`: `Option`.
- `reply.dfy`: the reply text. Decimal formatting and `u64` parsing, with both
  round trips proved.
- `net.dfy`: the world outside `poll`. It covers the answers of sockets and
  listener, and the iteration order of the hash map, which is arbitrary but
  lists each key exactly once.
- `ping_spec.dfy`: `poll` as functions of the counter's state and of the
  world's answers, with the properties of one visit, one pass and the whole
  call. The functions are `Visit`, `Pass`, `Accept`, `AfterPass`, `Run` and
  `Poll`.
- `ping_counter.dfy`: the class `PingCounter` with three of the source's four
  fields (`incoming` is the `Env.listener` input). Its `Poll` mutates them in
  place through the same loops as the source and is proved to compute exactly
  `PingSpec.Poll`.

A ghost field `sent` records, oldest first, every line a socket's
`start_send` accepted. It lets the model state that a reply is handed off
with its stored text, that nothing is sent twice, that each peer receives
its replies in increasing order, and that the reply for every counted ping
is either still waiting or was sent. That last fact holds after a `poll`
that ends `Pending`, and after one that ends with any error as long as no
`start_send` failed in a pass the call reached.

## Model

| member | source | states |
|---|---|---|
| Reply.DecimalCanonical | src/main.rs:46 | `{}` prints a counter as digits only, with no leading zero except for 0 itself |
| Reply.FormatReplyShape | src/main.rs:46 | a stored reply is the decimal text plus exactly one trailing '\n', with no other '\n' |
| Reply.DecimalValue | src/main.rs:46 | the printed digits have the counter's value |
| Reply.FormatReplyInjective | src/main.rs:46 | different counter values give different reply lines |
| Reply.FormatReply | src/main.rs:46 | the reply text `format!("{}\n", n)`; it has no contract of its own, and its properties are the rows `FormatReplyShape`, `DecimalValue`, `FormatReplyInjective` and `FormatThenParse` |
| Reply.StripNewlines | src/main.rs:93 | `replace('\n', "")` leaves no '\n', never lengthens, and leaves text without '\n' unchanged |
| Reply.StripNewlinesAppend | src/main.rs:93 | stripping distributes over concatenation |
| Reply.ParseU64 | src/main.rs:93 | `parse::<u64>` accepts only an optional '+' followed by at least one digit and nothing else; an accepted value fits in 64 bits |
| Reply.ParseReply | src/main.rs:93 | the client's `replace('\n', "").parse::<u64>()`; it has no contract of its own, and its properties are the rows `FormatThenParse` and `ParseThenFormat` |
| Reply.FormatThenParse | src/main.rs:46 | round trip: the client parses the server's reply for n (n ≤ u64::MAX) back to exactly n |
| Reply.ValueThenDecimal | src/main.rs:46 | printing the value of a canonical digit string gives back that string |
| Reply.ParseThenFormat | src/main.rs:93 | reverse round trip: a canonical number line the client accepts is exactly the server's reply for the parsed value |
| Net.ElementsSize | src/main.rs:33 | a sequence has no more distinct entries than its length; with as many, it has no repeats |
| Net.EnumerationDistinct | src/main.rs:33 | a hash-map iteration order (every key, one entry per key) visits no connection twice |
| PingSpec.Initial | src/main.rs:22-29 | `new`: counter 0, no reply waiting, no connection, nothing sent |
| PingSpec.ReplyInParses | src/main.rs:46 | a reply stored for a value in (lo, hi] parses back to that value, in that range |
| PingSpec.Visit | src/main.rs:34-55 | one visit never touches the connection table; the counter stays or goes up by one (wrapping at u64::MAX) |
| PingSpec.VisitVacant | src/main.rs:40-52 | without a waiting reply: the counter goes up by one iff the line is "ping\n"; the reply for the new value is stored, parses back to it, and the flush is skipped; any other line, end of stream or no line leaves the state unchanged; readiness and send result are not consulted |
| PingSpec.VisitOccupied | src/main.rs:35-39 | with a waiting reply: the socket is not read and no ping is counted; the reply leaves the table iff the socket is ready; it is handed to `start_send` once, with its stored text, or dropped with the send's error; not ready leaves the state unchanged |
| PingSpec.VisitPendingShape | src/main.rs:34-50 | a visit either stores one reply under a vacant address after "ping\n", or keeps the table, or removes exactly the visited entry |
| PingSpec.VisitReplies | src/main.rs:44-46 | every reply after a visit is either untouched or for a value above the counter before it |
| PingSpec.VisitKeepsReplies | src/main.rs:44-46 | a visit keeps every reply for a reached value and keeps replies pairwise different |
| PingSpec.VisitKeepsSent | src/main.rs:35-46 | a visit keeps every sent line the reply for a reached value, sent lines pairwise different, and no waiting reply equal to a sent one |
| PingSpec.VisitKeepsOrder | src/main.rs:35-46 | a visit keeps each peer's sent replies increasing, and the reply it waits for above all it was sent |
| PingSpec.HandoffKeepsSent | src/main.rs:36-37 | handing a waiting reply to `start_send` keeps the sent-record invariant |
| PingSpec.StoreKeepsSent | src/main.rs:44-46 | storing the reply for the next value under a vacant address keeps the sent-record invariant |
| PingSpec.VisitNoneLost | src/main.rs:34-55 | a visit loses no reply unless its `start_send` fails: the reply for every reached value is still waiting or was sent, also after a read or flush error |
| PingSpec.VisitSentGrows | src/main.rs:36-37 | a visit leaves the sent record as it was or appends exactly the visited peer's waiting reply |
| PingSpec.VisitErrorOrigin | src/main.rs:37-55 | the error a visit ends with is the send, read or flush error of its socket |
| PingSpec.Pass | src/main.rs:33-56 | a pass over the connections never changes the connection table |
| PingSpec.PassCount | src/main.rs:33-56 | a pass never lowers the counter and counts at most one ping per connection |
| PingSpec.PassReplies | src/main.rs:33-56 | every reply stored during a pass is for a value above the counter before the pass, and every other reply is untouched |
| PingSpec.PassKeepsPendingKeys | src/main.rs:33-56 | a pass over known connections keeps every waiting reply attached to a known connection |
| PingSpec.PassKeepsReplies | src/main.rs:33-56 | a pass keeps the reply invariant |
| PingSpec.PassKeepsSent | src/main.rs:33-56 | a pass keeps the sent-record invariant |
| PingSpec.PassKeepsOrder | src/main.rs:33-56 | a pass keeps each peer's replies increasing |
| PingSpec.PassSentGrows | src/main.rs:33-56 | a pass only appends to the sent record |
| PingSpec.PassErrorOrigin | src/main.rs:33-56 | the error a pass ends with is one some connection of that pass's order gave during that pass |
| PingSpec.PassNoneLost | src/main.rs:33-56 | a pass loses no reply when it ends without error, and also when it ends with a read or flush error while no socket of its order fails `start_send` |
| PingSpec.PassErrorFree | src/main.rs:33-56 | a pass whose visited sockets all answer without error ends without error |
| PingSpec.Accept | src/main.rs:61 | insert or replace: the new address maps to the new connection, every other connection is kept, none is removed, counter, replies and sent record unchanged |
| PingSpec.AcceptNoneLost | src/main.rs:61 | accepting a peer loses no reply |
| PingSpec.AcceptSize | src/main.rs:61 | accepting adds at most one connection |
| PingSpec.AfterPass | src/main.rs:58-65 | the loop goes round again only when the listener has another answer, and never yields `Ready(Ok(()))` |
| PingSpec.Run | src/main.rs:32-66 | pass k of the outer `loop` and everything after it; it has no contract of its own, and its properties are the `Run…` lemma rows |
| PingSpec.Poll | src/main.rs:31-67 | `poll` is `Run` from pass 0; it has no contract of its own, and its properties are the rows `PollProperties` and `PollCounter` |
| PingSpec.RunKeepsStreams | src/main.rs:31-67 | no connection is ever removed, not even one whose stream has ended |
| PingSpec.RunCounter | src/main.rs:31-67 | unless the counter wraps, `poll` never lowers it |
| PingSpec.RunCounterBound | src/main.rs:31-67 | unless the counter wraps, `poll` raises it by at most `MaxPings`: one ping per connection and pass |
| PingSpec.RunKeepsPendingKeys | src/main.rs:31-67 | every waiting reply stays attached to a known connection |
| PingSpec.RunKeepsReplies | src/main.rs:31-67 | every waiting reply stays the reply for a value the counter has reached, and no two peers wait for the same value |
| PingSpec.RunKeepsSent | src/main.rs:31-67 | across a whole poll, every sent line stays the reply for a reached value, no value is sent twice, and no waiting reply repeats a sent one |
| PingSpec.RunKeepsOrder | src/main.rs:31-67 | across a whole poll, each peer's sent replies stay increasing and below the reply it waits for |
| PingSpec.RunSentGrows | src/main.rs:31-67 | `poll` only appends to the sent record: nothing sent is taken back or reordered |
| PingSpec.RunErrorOrigin | src/main.rs:31-67 | an error `poll` returns is one the world gave during the call: the answer of a known connection's socket in a pass the call reaches, or the listener's or `peer_addr`'s answer after such a pass; a pass is reached when it is the first one or the listener handed over a new peer after every earlier pass of the call |
| PingSpec.RunNoneLost | src/main.rs:31-67 | a `poll` loses no reply, the reply for every value the counter reached still waiting or sent, when it ends `Pending`, and also when it ends with an error while no `start_send` fails in a pass it reaches |
| PingSpec.RunPreservesInv | src/main.rs:31-67 | `poll` keeps the invariant: counter within u64; waiting replies only for known connections, for reached values, pairwise different; sent replies for reached values, never repeated, increasing per peer, and never still waiting |
| PingSpec.RunNeverReadyOk | src/main.rs:31-67 | `poll` never returns `Ready(Ok(()))` |
| PingSpec.RunErrorFree | src/main.rs:31-67 | when no socket fails in a pass the call reaches and the listener's answers after those passes are not errors, `poll` returns `Pending` |
| PingSpec.PollProperties | src/main.rs:31-67 | one `poll` from any state: never `Ready(Ok(()))`, an error only as a known socket gave it in a pass the call reaches or the listener gave it after such a pass, no connection lost, the sent record only extended, invariant kept unless the counter wraps, and no reply lost when it ends `Pending` or when no `start_send` fails in a pass it reaches |
| PingSpec.PollCounter | src/main.rs:31-67 | one `poll` without wrap: the counter is monotone and bounded by `MaxPings` |
| PingServer.PingCounter.constructor | src/main.rs:22-29 | `new` builds the initial state, which satisfies the invariant and has lost no reply |
| PingServer.PingCounter.VisitConnection | src/main.rs:34-55 | the in-place visit of one connection leaves exactly `PingSpec.Visit`'s state and error |
| PingServer.PingCounter.VisitAll | src/main.rs:33-56 | the `for` loop over the connections leaves exactly `PingSpec.Pass`'s state and error |
| PingServer.PingCounter.PollOnce | src/main.rs:32-66 | one turn of the outer loop either returns `poll`'s result with the final state, or, when the pass ended without error and the listener handed over a peer with a known address, leaves exactly the state after the pass with that peer inserted, from which the rest of the call is unchanged |
| PingServer.PingCounter.Poll | src/main.rs:31-67 | `poll` on the fields gives exactly `PingSpec.Poll`'s result and new state |

## Left out

- The async runtime is not modelled: `Context`, wakers, and what happens between two calls of `poll`.
- The hash map's iteration order is an input. Each pass gets an order from `Env.order`, assumed to list every key once (`OrderOk`).
- The codec, the sockets and the listener are inputs, not models. Every answer they give during a pass (`poll_ready`, `start_send`, `poll_next`, `poll_flush`, `peer_addr`, the listener's `poll_next`) comes from `Env`. What a socket does with a line handed to it is recorded only as the `sent` trace.
- The listener's answers are a finite list. Once it is used up the listener has nothing ready, so every modelled `poll` ends.
- PingSpec.Visit: `num_pings += 1` wraps to 0 past u64::MAX, as a release build does. A debug build would panic there instead. The counter lemmas and the invariant assume `NoWrap`, so the panic is not modelled.
- The error inside `poll_ready`'s `Ready(Err(_))` is dropped, as `.is_ready()` drops it. Only readiness is modelled.
- `main` is not modelled apart from the client's parse of a reply (src/main.rs:93). That excludes binding, connecting, stdin, printing and `unwrap`. src/bin/server.rs and src/bin/client.rs are not part of this model.
- Four behaviours of the code worth noting; the model follows the code:
  - a connection whose stream has ended stays in the table;
  - any I/O error ends the whole `poll`;
  - only the exact line "ping\n", newline included, counts;
  - a connection that sent some other line is not read again in the same pass.
- A reply whose `start_send` fails is removed from the table and never sent, as the code does. The `sent` record holds only lines `start_send` accepted, so that reply does not appear in it.
