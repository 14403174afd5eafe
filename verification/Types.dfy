/** What several components share: an optional value, and the topic ids, overflow
    policies and queue answers of libs/shared/websocket/types.go. */
module Types {
  datatype Option<+T> = None | Some(value: T)

  type TopicId = nat

  /** `OverflowPolicy` */
  datatype Policy = Block | DropNewest | DropOldest

  /** The largest size `make` can allocate; above it, it panics. */
  datatype Memory = Unlimited | UpTo(bytes: nat)
  {
    predicate Holds(size: int) {
      Unlimited? || size <= bytes
    }
  }

  predicate Ascending(s: seq<int>) {
    forall i, j :: 0 <= i < j < |s| ==> s[i] <= s[j]
  }

  function Elements<T(==)>(list: seq<T>): set<T> {
    set x | x in list
  }

  /** The newest `n` of the messages. */
  function Newest<T>(messages: seq<T>, n: nat): seq<T> {
    if |messages| <= n then messages else messages[|messages| - n..]
  }

  lemma AppendAssociates<T>(a: seq<T>, b: seq<T>, c: seq<T>)
    ensures (a + b) + c == a + (b + c)
  {
  }

  lemma NewestNext<T>(messages: seq<T>, m: T, n: nat)
    requires n > 0
    ensures Newest(messages + [m], n)
         == (if |messages| < n then Newest(messages, n) else Newest(messages, n)[1..]) + [m]
  {
  }

  /** What a queue tells its caller: taken, refused, or that it has to wait. */
  datatype Decision = Accepted | Rejected | Waits
}
