/**
 * Record shapes of the secret-sharing service: users, secrets, encrypted
 * shares, and the status values a secret moves through.
 */
module Model {

  /** One byte, as the Go `byte` of a Shamir fragment key or of ciphertext. */
  type Byte = b: int | 0 <= b < 256

  datatype Option<T> = None | Some(value: T)

  /** The `(value, error)` pair of a Go call; an error is carried as its message. */
  datatype Result<T> = Ok(value: T) | Err(error: string)

  /** What an `Update` of a terminal program hands back to its event loop. */
  datatype Cmd =
    | Continue   // keep running
    | Quit       // tea.Quit: the program ends
    | Crash      // a panic inside Update: the program ends without further effects

  datatype User = User(id: string, username: string, publicKey: string)

  /**
   * A stored secret. Its `id` is the database record id, which starts with
   * "secrets:". The creation timestamp is not modelled; `parts` and
   * `threshold` are counts (the source never stores negative ones).
   */
  datatype Secret = Secret(
    id: string,
    user: string,
    title: string,   // the Label field ("label" is a Dafny keyword)
    parts: nat,
    threshold: nat,
    status: string)

  /** One encrypted Shamir fragment: `key` is the fragment's x-coordinate. */
  datatype Share = Share(
    id: string,
    secret: string,
    user: string,
    key: Byte,
    share: seq<Byte>)

  const Signing := "signing"
  const Ready := "ready"
  const Dead := "dead"

  /** The status changes the lifecycle performs: signing may become ready or dead. */
  predicate StatusStep(from: string, to: string) {
    from == to || (from == Signing && (to == Ready || to == Dead))
  }

  /** Once ready or dead, a secret stays in that status along any run of lifecycle steps. */
  lemma {:induction false} SettledStatusIsFinal(trace: seq<string>)
    requires |trace| > 0
    requires trace[0] == Ready || trace[0] == Dead
    requires forall i :: 0 <= i < |trace| - 1 ==> StatusStep(trace[i], trace[i + 1])
    ensures forall i :: 0 <= i < |trace| ==> trace[i] == trace[0]
    ensures Signing !in trace
  {
    if |trace| > 1 {
      assert StatusStep(trace[0], trace[1]);
      assert Ready != Signing && Dead != Signing by {
        assert |Ready| != |Signing| && |Dead| != |Signing|;
      }
      SettledStatusIsFinal(trace[1..]);
      forall i | 0 <= i < |trace| ensures trace[i] == trace[0] {
        if i > 0 { assert trace[i] == trace[1..][i - 1]; }
      }
    } else {
      assert |Ready| != |Signing| && |Dead| != |Signing|;
    }
  }
}
