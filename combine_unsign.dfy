/**
 * The unsign step of the combine protocol: once the holder has typed a
 * passphrase, pick the fragment to contribute from the holder's stored
 * shares and push it into the combine collector.
 */
module Unsign {
  import opened Model
  import opened Primitives
  import opened CombineStates

  /** Some collected fragment already carries `key`. */
  predicate KeyCollected(key: Byte, collected: seq<ShamirShare>) {
    exists j :: 0 <= j < |collected| && collected[j].key == key
  }

  /** A stored share is a candidate: it opens under `passphrase` and its key is not collected yet. */
  predicate Qualifies(share: Share, passphrase: string, collected: seq<ShamirShare>, cipher: Cipher) {
    cipher.decrypt(share.share, passphrase).Ok? && !KeyCollected(share.key, collected)
  }

  /** The fragment recovered from a qualifying share. */
  function Recovered(share: Share, passphrase: string, cipher: Cipher): ShamirShare
    requires cipher.decrypt(share.share, passphrase).Ok?
  {
    ShamirShare(share.key, cipher.decrypt(share.share, passphrase).value)
  }

  /**
   * The fragment to contribute: the one recovered from the last qualifying
   * share, or nothing when no share qualifies.
   */
  function LastQualifying(shares: seq<Share>, passphrase: string, collected: seq<ShamirShare>, cipher: Cipher)
    : (r: Option<ShamirShare>)
    ensures r.Some? ==> !KeyCollected(r.value.key, collected)
    ensures r.Some? ==> exists i :: 0 <= i < |shares| && shares[i].key == r.value.key
                                  && cipher.decrypt(shares[i].share, passphrase) == Ok(r.value.share)
    decreases |shares|
  {
    if shares == [] then None
    else
      var last := shares[|shares| - 1];
      if Qualifies(last, passphrase, collected, cipher) then Some(Recovered(last, passphrase, cipher))
      else
        LastQualifying(shares[..|shares| - 1], passphrase, collected, cipher)
  }

  /** Nothing is contributed exactly when no stored share qualifies. */
  lemma {:induction false} NothingQualifies(shares: seq<Share>, passphrase: string, collected: seq<ShamirShare>, cipher: Cipher)
    ensures LastQualifying(shares, passphrase, collected, cipher).None?
        <==> forall i :: 0 <= i < |shares| ==> !Qualifies(shares[i], passphrase, collected, cipher)
    decreases |shares|
  {
    if shares != [] {
      var front := shares[..|shares| - 1];
      NothingQualifies(front, passphrase, collected, cipher);
      assert forall i :: 0 <= i < |front| ==> front[i] == shares[i];
    }
  }

  /** When share `i` qualifies and no later one does, its fragment is the one contributed. */
  lemma {:induction false} LastQualifyingWins(shares: seq<Share>, passphrase: string, collected: seq<ShamirShare>,
                                              cipher: Cipher, i: nat)
    requires i < |shares| && Qualifies(shares[i], passphrase, collected, cipher)
    requires forall j :: i < j < |shares| ==> !Qualifies(shares[j], passphrase, collected, cipher)
    ensures LastQualifying(shares, passphrase, collected, cipher) == Some(Recovered(shares[i], passphrase, cipher))
    decreases |shares|
  {
    if i < |shares| - 1 {
      var front := shares[..|shares| - 1];
      assert front[i] == shares[i];
      LastQualifyingWins(front, passphrase, collected, cipher, i);
    }
  }

  /**
   * A wrong passphrase contributes nothing: when every stored share was
   * sealed under some other passphrase, no share qualifies.
   */
  lemma {:induction false} WrongPassphraseContributesNothing(shares: seq<Share>, plains: seq<seq<Byte>>, owners: seq<string>,
                                                             passphrase: string, collected: seq<ShamirShare>, cipher: Cipher)
    requires Authenticated(cipher)
    requires |plains| == |shares| == |owners|
    requires forall i :: 0 <= i < |shares| ==>
               cipher.encrypt(plains[i], owners[i]).Ok? && shares[i].share == cipher.encrypt(plains[i], owners[i]).value
    requires passphrase !in owners
    ensures LastQualifying(shares, passphrase, collected, cipher) == None
  {
    forall i | 0 <= i < |shares|
      ensures !Qualifies(shares[i], passphrase, collected, cipher)
    {
      assert owners[i] in owners;
    }
    NothingQualifies(shares, passphrase, collected, cipher);
  }

  /**
   * The selection loop of the unsign form: every stored share that decrypts
   * and whose key is not collected overwrites the choice, so the last one wins.
   */
  method SelectShare(shares: seq<Share>, passphrase: string, collected: seq<ShamirShare>, cipher: Cipher)
    returns (pick: Option<ShamirShare>)
    ensures pick == LastQualifying(shares, passphrase, collected, cipher)
  {
    pick := None;
    for n := 0 to |shares|
      invariant pick == LastQualifying(shares[..n], passphrase, collected, cipher)
    {
      assert shares[..n + 1][..n] == shares[..n];
      var share := shares[n];
      var plain := cipher.decrypt(share.share, passphrase);
      if plain.Ok? {
        var included := false;
        for m := 0 to |collected|
          invariant included <==> exists j :: 0 <= j < m && collected[j].key == share.key
        {
          if collected[m].key == share.key {
            included := true;
          }
        }
        if !included {
          pick := Some(ShamirShare(share.key, plain.value));
        }
      }
    }
    assert shares[..|shares|] == shares;
  }

  /** The form's state after it handled a message. */
  datatype Form = Form(completed: bool, passphrase: string)

  /** A message to the unsign program: the quit key, or anything the form handles. */
  datatype Msg = QuitKey | Input(form: Form)

  /** The fragment pushed when `msg` completes the form, if any. */
  function Contribution(shares: seq<Share>, msg: Msg, collected: seq<ShamirShare>, cipher: Cipher): seq<ShamirShare>
  {
    if msg.Input? && msg.form.completed then
      match LastQualifying(shares, msg.form.passphrase, collected, cipher)
      case None => []
      case Some(s) => [s]
    else []
  }

  /**
   * One update of the unsign program of a holder whose stored shares are
   * `shares`: quitting pushes nothing; completing the form pushes at most
   * one fragment into the combine collector and quits.
   */
  method Update(shares: seq<Share>, combineState: CombineState, msg: Msg, cipher: Cipher) returns (cmd: Cmd)
    requires combineState.Valid()
    requires |combineState.pending| + |Contribution(shares, msg, combineState.shares, cipher)| <= combineState.expected
    modifies combineState
    ensures combineState.Valid()
    ensures combineState.pending == old(combineState.pending) + Contribution(shares, msg, old(combineState.shares), cipher)
    ensures combineState.pushed == old(combineState.pushed) + Contribution(shares, msg, old(combineState.shares), cipher)
    ensures combineState.shares == old(combineState.shares)
    ensures combineState.doneSignals == old(combineState.doneSignals)
    ensures combineState.receivers == old(combineState.receivers)
    ensures cmd == if msg.QuitKey? || msg.form.completed then Quit else Continue
  {
    if msg.QuitKey? {
      return Quit;
    }
    if msg.form.completed {
      var pick := SelectShare(shares, msg.form.passphrase, combineState.shares, cipher);
      if pick.Some? {
        combineState.Push(pick.value);
      }
      return Quit;
    }
    return Continue;
  }
}
