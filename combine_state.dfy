/**
 * The fragment collector of the combine protocol and its process-wide
 * registry, with the same flattening of channels as the split collector:
 * the buffered channel becomes `pending` and the done channel `doneSignals`.
 */
module CombineStates {
  import Barrier
  import opened Model

  /** A decrypted Shamir fragment with its key. */
  datatype ShamirShare = ShamirShare(key: Byte, share: seq<Byte>)

  class CombineState {
    const secretId: string
    const expected: nat
    var shares: seq<ShamirShare>
    var pending: seq<ShamirShare>
    var doneSignals: nat
    /** Receive goroutines started and still waiting for their input. */
    var receivers: nat
    /** Every fragment ever pushed, in push order. */
    ghost var pushed: seq<ShamirShare>

    ghost predicate Valid()
      reads this
    {
      && |pending| <= expected
      && shares + pending == pushed
      && doneSignals <= 1
      && (doneSignals == 1 ==> expected <= |shares|)
    }

    constructor (secretId: string, expected: nat)
      ensures Valid()
      ensures this.secretId == secretId && this.expected == expected
      ensures shares == [] && pending == [] && pushed == []
      ensures doneSignals == 0 && receivers == 0
    {
      this.secretId := secretId;
      this.expected := expected;
      shares := [];
      pending := [];
      doneSignals := 0;
      receivers := 0;
      pushed := [];
    }

    /** Number of fragments collected so far: those pushed and no longer pending. */
    function Len(): (n: nat)
      reads this
      ensures Valid() ==> n + |pending| == |pushed|
    {
      |shares|
    }

    /** Enqueue a contribution; the channel holds at most `expected` of them. */
    method Push(s: ShamirShare)
      requires Valid()
      requires |pending| < expected
      modifies this
      ensures Valid()
      ensures pending == old(pending) + [s] && pushed == old(pushed) + [s]
      ensures shares == old(shares)
      ensures doneSignals == old(doneSignals) && receivers == old(receivers)
    {
      pending := pending + [s];
      pushed := pushed + [s];
    }

    /** Start the goroutine that receives `expected` fragments and then signals done. */
    method Receive()
      requires Valid()
      modifies this
      ensures Valid()
      ensures receivers == old(receivers) + 1
      ensures shares == old(shares) && pending == old(pending) && pushed == old(pushed)
      ensures doneSignals == old(doneSignals)
    {
      receivers := receivers + 1;
    }

    /**
     * The body of a started Receive goroutine, run once the `expected`
     * shares it waits for are buffered: it moves them, oldest first, to
     * the end of `shares` and then signals done.
     */
    method RunReceiver()
      requires Valid()
      requires receivers > 0
      requires expected <= |pending|
      requires doneSignals == 0  // otherwise the final send blocks forever
      modifies this
      ensures Valid()
      ensures (shares, pending) == Barrier.ReceiveMany(old(shares), old(pending), expected)
      ensures old(shares) == [] ==> shares == pushed[..expected]
      ensures doneSignals == 1
      ensures receivers == old(receivers) - 1 && pushed == old(pushed)
    {
      ghost var before := pending;
      var i := 0;
      while i < expected
        invariant 0 <= i <= expected
        invariant shares == old(shares) + before[..i] && pending == before[i..]
        invariant shares + pending == pushed
        invariant doneSignals == 0 && receivers == old(receivers)
      {
        var p := pending[0];
        assert before[..i + 1] == before[..i] + [p];
        pending := pending[1..];
        shares := shares + [p];
        i := i + 1;
      }
      doneSignals := doneSignals + 1;
      receivers := receivers - 1;
    }

    /**
     * Receive one fragment, append it, and signal done when the count
     * reaches `expected`. Not modelled while a Receive goroutine is waiting.
     */
    method ReceiveOne()
      requires Valid()
      requires pending != []
      requires receivers == 0
      modifies this
      ensures Valid()
      ensures shares == old(shares) + [old(pending)[0]]
      ensures pending == old(pending)[1..]
      ensures Len() == old(Len()) + 1
      ensures doneSignals == old(doneSignals) + Barrier.DoneSignals(expected, old(Len()), 1)
      ensures doneSignals == old(doneSignals) + (if Len() == expected then 1 else 0)
      ensures receivers == old(receivers) && pushed == old(pushed)
    {
      var p := pending[0];
      pending := pending[1..];
      shares := shares + [p];
      if |shares| == expected {
        doneSignals := doneSignals + 1;
      }
    }
  }

  /** The process-wide map from secret id to its collector. */
  class CombineRegistry {
    var states: map<string, CombineState>

    constructor ()
      ensures states == map[]
    {
      states := map[];
    }
  }

  /** Create an empty collector of `expected` fragments and register it under `secretId`. */
  method NewCombineState(registry: CombineRegistry, secretId: string, expected: nat) returns (s: CombineState)
    modifies registry
    ensures fresh(s) && s.Valid()
    ensures s.secretId == secretId && s.expected == expected
    ensures s.shares == [] && s.pending == [] && s.pushed == []
    ensures s.doneSignals == 0 && s.receivers == 0
    ensures registry.states == old(registry.states)[secretId := s]
  {
    s := new CombineState(secretId, expected);
    registry.states := registry.states[secretId := s];
  }
}
