/**
 * The passphrase collector of the split protocol and its process-wide
 * registry. The buffered channel becomes the `pending` queue (oldest first,
 * capacity `expected`); the done channel, which has capacity one and no
 * reader, becomes the count `doneSignals`.
 */
module SplitStates {
  import Barrier

  /** One signer's contribution. */
  datatype Passphrase = Passphrase(userId: string, username: string, passphrase: string)

  class SplitState {
    const secretId: string
    const expected: nat
    var passphrases: seq<Passphrase>
    var pending: seq<Passphrase>
    var doneSignals: nat
    /** Receive goroutines started and still waiting for their input. */
    var receivers: nat
    /** Every passphrase ever pushed, in push order. */
    ghost var pushed: seq<Passphrase>

    ghost predicate Valid()
      reads this
    {
      && |pending| <= expected
      && passphrases + pending == pushed
      && doneSignals <= 1
      && (doneSignals == 1 ==> expected <= |passphrases|)
    }

    constructor (secretId: string, expected: nat)
      ensures Valid()
      ensures this.secretId == secretId && this.expected == expected
      ensures passphrases == [] && pending == [] && pushed == []
      ensures doneSignals == 0 && receivers == 0
    {
      this.secretId := secretId;
      this.expected := expected;
      passphrases := [];
      pending := [];
      doneSignals := 0;
      receivers := 0;
      pushed := [];
    }

    /** Number of passphrases collected so far: those pushed and no longer pending. */
    function Len(): (n: nat)
      reads this
      ensures Valid() ==> n + |pending| == |pushed|
    {
      |passphrases|
    }

    /** Enqueue a contribution; the channel holds at most `expected` of them. */
    method Push(p: Passphrase)
      requires Valid()
      requires |pending| < expected
      modifies this
      ensures Valid()
      ensures pending == old(pending) + [p] && pushed == old(pushed) + [p]
      ensures passphrases == old(passphrases)
      ensures doneSignals == old(doneSignals) && receivers == old(receivers)
    {
      pending := pending + [p];
      pushed := pushed + [p];
    }

    /** Start the goroutine that receives `expected` passphrases and then signals done. */
    method Receive()
      requires Valid()
      modifies this
      ensures Valid()
      ensures receivers == old(receivers) + 1
      ensures passphrases == old(passphrases) && pending == old(pending) && pushed == old(pushed)
      ensures doneSignals == old(doneSignals)
    {
      receivers := receivers + 1;
    }

    /**
     * The body of a started Receive goroutine, run once the `expected`
     * passphrases it waits for are buffered: it moves them, oldest first, to
     * the end of `passphrases` and then signals done.
     */
    method RunReceiver()
      requires Valid()
      requires receivers > 0
      requires expected <= |pending|
      requires doneSignals == 0  // otherwise the final send blocks forever
      modifies this
      ensures Valid()
      ensures (passphrases, pending) == Barrier.ReceiveMany(old(passphrases), old(pending), expected)
      ensures old(passphrases) == [] ==> passphrases == pushed[..expected]
      ensures doneSignals == 1
      ensures receivers == old(receivers) - 1 && pushed == old(pushed)
    {
      ghost var before := pending;
      var i := 0;
      while i < expected
        invariant 0 <= i <= expected
        invariant passphrases == old(passphrases) + before[..i] && pending == before[i..]
        invariant passphrases + pending == pushed
        invariant doneSignals == 0 && receivers == old(receivers)
      {
        var p := pending[0];
        assert before[..i + 1] == before[..i] + [p];
        pending := pending[1..];
        passphrases := passphrases + [p];
        i := i + 1;
      }
      doneSignals := doneSignals + 1;
      receivers := receivers - 1;
    }

    /**
     * Receive one passphrase, append it, and signal done when the count
     * reaches `expected`. Not modelled while a Receive goroutine is waiting.
     */
    method ReceiveOne()
      requires Valid()
      requires pending != []
      requires receivers == 0
      modifies this
      ensures Valid()
      ensures passphrases == old(passphrases) + [old(pending)[0]]
      ensures pending == old(pending)[1..]
      ensures Len() == old(Len()) + 1
      ensures doneSignals == old(doneSignals) + Barrier.DoneSignals(expected, old(Len()), 1)
      ensures doneSignals == old(doneSignals) + (if Len() == expected then 1 else 0)
      ensures receivers == old(receivers) && pushed == old(pushed)
    {
      var p := pending[0];
      pending := pending[1..];
      passphrases := passphrases + [p];
      if |passphrases| == expected {
        doneSignals := doneSignals + 1;
      }
    }
  }

  /** The process-wide map from secret id to its collector. */
  class SplitRegistry {
    var states: map<string, SplitState>

    constructor ()
      ensures states == map[]
    {
      states := map[];
    }
  }

  /** Create an empty collector of `expected` passphrases and register it under `secretId`. */
  method NewSplitState(registry: SplitRegistry, secretId: string, expected: nat) returns (s: SplitState)
    modifies registry
    ensures fresh(s) && s.Valid()
    ensures s.secretId == secretId && s.expected == expected
    ensures s.passphrases == [] && s.pending == [] && s.pushed == []
    ensures s.doneSignals == 0 && s.receivers == 0
    ensures registry.states == old(registry.states)[secretId := s]
  {
    s := new SplitState(secretId, expected);
    registry.states := registry.states[secretId := s];
  }
}
