/**
  The outside world of `PingCounter::poll` (src/main.rs:31-67). The sockets,
  the line codec and the listener are library objects; the model does not
  look inside them and takes each answer they give as an input instead.
 */
module Net {
  /** A peer's address, the key of both tables of the counter; only equality matters. */
  datatype SocketAddr = SocketAddr(ip: nat, port: nat)

  /** An `io::Error`; only its identity matters. */
  datatype IoError = IoError(code: nat)

  /** A connection (`Framed<TcpStream, LinesCodec>`); `id` tells apart the streams the listener handed out. */
  datatype Conn = Conn(id: nat)

  /** One call `start_send(line)` on the connection under `addr`. */
  datatype Handoff = Handoff(addr: SocketAddr, line: string)

  /** `poll_next` on a connection after its `?`: a line (the codec keeps its '\n'), end of stream, nothing yet, or an error. */
  datatype NextResult = Line(text: string) | EndOfStream | NoLine | NextFailed(error: IoError)

  datatype SendResult = Sent | SendFailed(error: IoError)

  /** `poll_flush`: done, more to write later, or an error. */
  datatype FlushResult = Flushed | FlushPending | FlushFailed(error: IoError)

  /**
    Everything one connection answers when the pass numbered by the caller
    visits it. `ready` is `poll_ready(..).is_ready()`, which is also true for
    `Ready(Err(_))`: that error is dropped by the source. The visit consults
    only the answers its branch needs.
   */
  datatype SocketEvents = SocketEvents(ready: bool, send: SendResult, next: NextResult, flush: FlushResult)

  /** `peer_addr()` of a freshly accepted stream. */
  datatype PeerAddr = PeerOk(addr: SocketAddr) | PeerFailed(error: IoError)

  /** One `poll_next` on the listener's `Incoming` stream. */
  datatype ListenerEvent =
    | Incoming(id: nat, peer: PeerAddr)
    | ListenerEnded
    | ListenerPending
    | ListenerFailed(error: IoError)

  /**
    The answers of the world during one `poll`:
    - `order(k, keys)` is the order in which pass k walks a table with these keys;
    - `io(k, a)` is what the connection under `a` answers during pass k;
    - `listener[k]` is what the listener answers after pass k; once the list
      is used up the listener has nothing ready.
   */
  datatype Env = Env(
    order: (nat, set<SocketAddr>) -> seq<SocketAddr>,
    io: (nat, SocketAddr) -> SocketEvents,
    listener: seq<ListenerEvent>)

  /**
    o lists every key and nothing else, with as many entries as there are
    keys; so it lists each key exactly once (`EnumerationDistinct`).
   */
  ghost predicate IsEnumeration(o: seq<SocketAddr>, keys: set<SocketAddr>) {
    |o| == |keys| && Elements(o) == keys
  }

  /** The iteration order of a hash map is arbitrary, but it visits each key once. */
  ghost predicate OrderOk(env: Env) {
    forall k: nat, keys: set<SocketAddr> :: IsEnumeration(env.order(k, keys), keys)
  }

  /** The part of `OrderOk` that counting needs: one entry per key. */
  ghost predicate OrderLengths(env: Env) {
    forall k: nat, keys: set<SocketAddr> :: |env.order(k, keys)| == |keys|
  }

  /** The set of entries of o. */
  function Elements(o: seq<SocketAddr>): set<SocketAddr> {
    set a | a in o
  }

  predicate Distinct(o: seq<SocketAddr>) {
    forall i, j :: 0 <= i < j < |o| ==> o[i] != o[j]
  }

  /** A sequence has at most as many different entries as it is long, and exactly as many only without repeats. */
  lemma {:induction false} ElementsSize(o: seq<SocketAddr>)
    ensures |Elements(o)| <= |o|
    ensures |Elements(o)| == |o| ==> Distinct(o)
    decreases |o|
  {
    if o != [] {
      var rest := o[1..];
      ElementsSize(rest);
      assert Elements(o) == Elements(rest) + {o[0]};
      if o[0] in rest {
        assert Elements(o) == Elements(rest);
      } else if |Elements(o)| == |o| {
        assert |Elements(rest)| == |rest|;
        forall i, j | 0 <= i < j < |o|
          ensures o[i] != o[j]
        {
          if i == 0 {
            assert o[j] == rest[j - 1];
          } else {
            assert o[i] == rest[i - 1] && o[j] == rest[j - 1];
          }
        }
      }
    }
  }

  /**
    An enumeration of a set never repeats a key: what `OrderOk` means for a
    pass, that no connection is visited twice. The proofs about a whole poll
    need only the two halves of `IsEnumeration` themselves.
   */
  lemma EnumerationDistinct(o: seq<SocketAddr>, keys: set<SocketAddr>)
    requires IsEnumeration(o, keys)
    ensures Distinct(o)
  {
    assert Elements(o) == keys;
    ElementsSize(o);
  }
}
