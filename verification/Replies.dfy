/** What a client of the write-engine servers reads, one message at a time. */
module Replies {
  /** An empty message, an exception, or an answer, with whom or what it comes from. */
  datatype Reply<T> = Lost | Thrown | Ack(rc: nat, from: T)

  const NETWORK_ERROR := 10

  predicate Fine<T>(r: Reply<T>) {
    r.Ack? && r.rc == 0
  }

  /** How many of the first `n` messages are answers of 0, up to the first that is not. */
  function Leading<T>(n: nat, msgs: seq<Reply<T>>): (k: nat)
    ensures k <= n && k <= |msgs|
    ensures forall i :: 0 <= i < k ==> Fine(msgs[i])
    ensures k < n && k < |msgs| ==> !Fine(msgs[k])
    decreases |msgs|
  {
    if n == 0 || msgs == [] || !Fine(msgs[0]) then 0 else 1 + Leading(n - 1, msgs[1..])
  }
}
