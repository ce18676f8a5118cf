/**
 * What the two contribution collectors have in common, stated on values:
 * receiving moves buffered items, oldest first, to the end of the collected
 * list, and the done signal is raised when the collected count reaches the
 * expected one.
 */
module Barrier {

  /**
   * `collected` and `pending` after `n` receives: the `n` oldest pending
   * items are appended to `collected`, in arrival order.
   */
  function ReceiveMany<T>(collected: seq<T>, pending: seq<T>, n: nat): (r: (seq<T>, seq<T>))
    requires n <= |pending|
    ensures r.0 == collected + pending[..n]
    ensures r.1 == pending[n..]
    decreases n
  {
    if n == 0 then (collected, pending)
    else
      var r := ReceiveMany(collected + [pending[0]], pending[1..], n - 1);
      assert pending[..n] == [pending[0]] + pending[1..][..n - 1];
      assert pending[n..] == pending[1..][n - 1..];
      r
  }

  /**
   * Number of done signals raised by `n` single receives that start with
   * `count` items collected: one receive signals when its new count equals
   * `expected`.
   */
  function DoneSignals(expected: nat, count: nat, n: nat): nat
    decreases n
  {
    if n == 0 then 0
    else (if count + 1 == expected then 1 else 0) + DoneSignals(expected, count + 1, n - 1)
  }

  /**
   * Done fires at most once over any run of single receives, and it fires
   * exactly when the run crosses the expected count.
   */
  lemma {:induction false} DoneFiresOnce(expected: nat, count: nat, n: nat)
    ensures DoneSignals(expected, count, n) <= 1
    ensures DoneSignals(expected, count, n) == 1 <==> count < expected <= count + n
    decreases n
  {
    if n > 0 {
      DoneFiresOnce(expected, count + 1, n - 1);
    }
  }
}
