/**
  The server's state machine, `PingCounter` (src/main.rs:12-68), as a class
  whose `Poll` updates its fields in place. `Poll` is proved to compute
  exactly `PingSpec.Run` from its starting state, so everything proved there
  about the counter, the reply table and the connection table holds of it.
 */
module PingServer {
  import opened Wrappers
  import opened Reply
  import opened Net
  import opened PingSpec

  /** `u64`. */
  type U64 = n: nat | n <= U64_MAX

  class PingCounter {
    var numPings: U64
    /** The reply waiting to be sent to each peer. */
    var pendingMessages: map<SocketAddr, string>
    /** One connection per peer address. */
    var streams: map<SocketAddr, Conn>
    /** Every line a socket's `start_send` accepted so far, oldest first; a record of what the sockets were given, not state of the server. */
    ghost var sent: seq<Handoff>

    ghost function Model(): State
      reads this
    {
      State(numPings, pendingMessages, streams, sent)
    }

    /** `PingCounter::new`: no pings counted, no reply waiting, no connection. */
    constructor()
      ensures numPings == 0 && pendingMessages == map[] && streams == map[] && sent == []
      ensures Model() == Initial() && Inv(Model()) && NoneLost(Model())
    {
      numPings := 0;
      pendingMessages := map[];
      streams := map[];
      sent := [];
    }

    /**
      One turn of the `for` loop in `poll` (src/main.rs:34-55): the pending
      reply for `addr` is handed to the socket when it is ready; with no reply
      pending, a line is read and a `ping` answered. The result is the error
      that `?` would return.
     */
    method VisitConnection(addr: SocketAddr, ev: SocketEvents) returns (err: Option<IoError>)
      modifies this
      ensures Step(Model(), err) == Visit(old(Model()), addr, ev)
    {
      if addr in pendingMessages {
        if ev.ready {
          var msg := pendingMessages[addr];
          pendingMessages := pendingMessages - {addr};
          match ev.send
          case SendFailed(e) =>
            return Some(e);
          case Sent =>
            sent := sent + [Handoff(addr, msg)];
        }
      } else {
        match ev.next
        case NextFailed(e) =>
          return Some(e);
        case Line(text) =>
          if text == PING_LINE {
            numPings := if numPings < U64_MAX then numPings + 1 else 0;
            pendingMessages := pendingMessages[addr := FormatReply(numPings)];
            return None;
          }
        case EndOfStream =>
        case NoLine =>
      }
      if ev.flush.FlushFailed? {
        return Some(ev.flush.error);
      }
      return None;
    }

    /**
      The `for` loop of `poll` (src/main.rs:34-56): visits the connections in
      the order `order` and stops at the first error.
     */
    method VisitAll(order: seq<SocketAddr>, io: (nat, SocketAddr) -> SocketEvents, k: nat) returns (err: Option<IoError>)
      modifies this
      ensures Step(Model(), err) == Pass(old(Model()), order, io, k)
    {
      ghost var start := Model();
      var i := 0;
      while i < |order|
        invariant 0 <= i <= |order|
        invariant Pass(start, order, io, k) == Pass(Model(), order[i..], io, k)
      {
        assert order[i..][0] == order[i] && order[i..][1..] == order[i + 1..];
        err := VisitConnection(order[i], io(k, order[i]));
        if err.Some? {
          return;
        }
        i := i + 1;
      }
      assert order[i..] == [];
      return None;
    }

    /**
      One turn of the outer `loop` of `poll` (src/main.rs:33-66): a pass over
      the connections, then one look at the listener. `None` means the pass
      ended without error, the listener handed over a peer whose address is
      known, that peer was inserted, and the loop goes round again; otherwise
      the value `poll` returns.
     */
    method PollOnce(env: Env, k: nat) returns (done: Option<PollResult>)
      modifies this
      ensures done.Some? ==> Outcome(Model(), done.value) == Run(old(Model()), env, k)
      ensures done.None? ==> k < |env.listener| && Run(old(Model()), env, k) == Run(Model(), env, k + 1)
      ensures done.None? ==>
        && env.listener[k].Incoming? && env.listener[k].peer.PeerOk?
        && Model() == Accept(Pass(old(Model()), env.order(k, old(streams).Keys), env.io, k).state,
                             env.listener[k].peer.addr, env.listener[k].id)
    {
      var order := env.order(k, streams.Keys);
      ghost var passStart := Model();
      var err := VisitAll(order, env.io, k);
      RunStep(passStart, env, k, order, Step(Model(), err));
      if err.Some? {
        return Some(ReadyErr(err.value));
      }
      // `self.incoming.poll_next_unpin(cx)?` and `stream.peer_addr()?` (src/main.rs:58-59)
      if k < |env.listener| {
        match env.listener[k]
        case Incoming(id, peer) =>
          match peer {
            case PeerFailed(e) =>
              return Some(ReadyErr(e));
            case PeerOk(addr) =>
              streams := streams[addr := Conn(id)];
              return None;
          }
        case ListenerFailed(e) =>
          return Some(ReadyErr(e));
        case ListenerEnded =>
          return Some(Pending);
        case ListenerPending =>
          return Some(Pending);
      }
      return Some(Pending);
    }

    /**
      `PingCounter::poll`: passes over the connections until the listener has
      no new peer, then returns `Pending`; the first error ends the call.
      What this promises is proved about `PingSpec.Poll` (`PollProperties`).
     */
    method Poll(env: Env) returns (r: PollResult)
      modifies this
      ensures Outcome(Model(), r) == PingSpec.Poll(old(Model()), env)
    {
      ghost var start := Model();
      var k := 0;
      while true
        invariant k <= |env.listener|
        invariant PingSpec.Poll(start, env) == Run(Model(), env, k)
        decreases |env.listener| - k
      {
        var done := PollOnce(env, k);
        if done.Some? {
          return done.value;
        }
        k := k + 1;
      }
    }
  }
}
