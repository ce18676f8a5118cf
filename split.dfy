/**
 * The split program of the secret's initiator: it creates the secret in
 * "signing", registers a passphrase collector sized to the number of parts,
 * contributes the initiator's passphrase first and, once the collector is
 * full, splits the secret, seals one fragment under each collected
 * passphrase, stores the shares and marks the secret "ready". Quitting while
 * signing marks it "dead".
 */
module Split {
  import opened Model
  import opened Primitives
  import opened SplitStates
  import opened Store
  import Unsign
  import CombineStates

  /** Parameters the split program fixes for every new secret. */
  const DefaultParts: nat := 3
  const DefaultThreshold: nat := 2

  /**
   * The shares built by the sealing loop after it visited the fragment keys
   * in `order`; `complete` is false when an encryption failed, which ends
   * the loop before a share is built for the failing fragment.
   */
  datatype Sealing = Sealing(shares: seq<Share>, complete: bool)

  /**
   * Sealing of the fragments visited in `order`: the i-th visited fragment is
   * encrypted under the i-th collected passphrase and made into a share of
   * `secretId` held by `userId`.
   */
  function Seal(order: seq<Byte>, fragments: map<Byte, seq<Byte>>, passphrases: seq<Passphrase>,
                secretId: string, userId: string, cipher: Cipher): (r: Sealing)
    requires forall i :: 0 <= i < |order| ==> order[i] in fragments
    requires |order| <= |passphrases|
    ensures |r.shares| <= |order|
    ensures r.complete <==> |r.shares| == |order|
    decreases |order|
  {
    if order == [] then Sealing([], true)
    else
      var n := |order| - 1;
      var prev := Seal(order[..n], fragments, passphrases, secretId, userId, cipher);
      if !prev.complete then prev
      else
        match cipher.encrypt(fragments[order[n]], passphrases[n].passphrase)
        case Err(_) => Sealing(prev.shares, false)
        case Ok(c) => Sealing(prev.shares + [Share("", secretId, userId, order[n], c)], true)
  }

  /**
   * The i-th built share is the encryption of the i-th visited fragment
   * under the i-th passphrase, keyed by that fragment's key and held by
   * `userId`; a sealing that stopped early stopped at a failed encryption.
   */
  lemma {:induction false} SealedShares(order: seq<Byte>, fragments: map<Byte, seq<Byte>>, passphrases: seq<Passphrase>,
                                        secretId: string, userId: string, cipher: Cipher)
    requires forall i :: 0 <= i < |order| ==> order[i] in fragments
    requires |order| <= |passphrases|
    ensures var r := Seal(order, fragments, passphrases, secretId, userId, cipher);
            && (forall i :: 0 <= i < |r.shares| ==>
                  && cipher.encrypt(fragments[order[i]], passphrases[i].passphrase).Ok?
                  && r.shares[i] == Share("", secretId, userId, order[i],
                                          cipher.encrypt(fragments[order[i]], passphrases[i].passphrase).value))
            && (!r.complete ==> cipher.encrypt(fragments[order[|r.shares|]], passphrases[|r.shares|].passphrase).Err?)
    decreases |order|
  {
    if order != [] {
      var n := |order| - 1;
      SealedShares(order[..n], fragments, passphrases, secretId, userId, cipher);
      assert forall i :: 0 <= i < n ==> order[..n][i] == order[i];
    }
  }

  /** Fragment keys listed without repetition. */
  predicate Distinct(order: seq<Byte>) {
    forall i, j :: 0 <= i < j < |order| ==> order[i] != order[j]
  }

  /**
   * Every built share opens, under the passphrase it was paired with, to
   * the fragment it was made from, and distinct visited keys give shares
   * with distinct keys.
   */
  lemma SealedSharesOpen(order: seq<Byte>, fragments: map<Byte, seq<Byte>>, passphrases: seq<Passphrase>,
                         secretId: string, userId: string, cipher: Cipher)
    requires forall i :: 0 <= i < |order| ==> order[i] in fragments
    requires |order| <= |passphrases|
    requires Sound(cipher)
    requires Distinct(order)
    ensures var shares := Seal(order, fragments, passphrases, secretId, userId, cipher).shares;
            && (forall i :: 0 <= i < |shares| ==>
                  cipher.decrypt(shares[i].share, passphrases[i].passphrase) == Ok(fragments[order[i]]))
            && (forall i, j :: 0 <= i < j < |shares| ==> shares[i].key != shares[j].key)
  {
    SealedShares(order, fragments, passphrases, secretId, userId, cipher);
  }

  /**
   * The stored shares all belong to the initiator: any other user's query
   * for the shares of this secret is empty.
   */
  lemma {:induction false} OnlyInitiatorHoldsShares(shares: seq<Share>, secretId: string, initiator: string, other: string)
    requires forall i :: 0 <= i < |shares| ==> shares[i].user == initiator
    requires other != initiator
    ensures MineForSecret(shares, secretId, other) == []
  {
    if shares != [] {
      OnlyInitiatorHoldsShares(shares[1..], secretId, initiator, other);
    }
  }

  /**
   * Unsigning a complete sealing with the passphrase of contributor `i`
   * recovers exactly fragment `order[i]` when that key is not collected yet,
   * provided the contributors' passphrases are pairwise different.
   */
  lemma UnsignRecoversFragment(order: seq<Byte>, fragments: map<Byte, seq<Byte>>, passphrases: seq<Passphrase>,
                               secretId: string, userId: string, cipher: Cipher,
                               collected: seq<CombineStates.ShamirShare>, i: nat)
    requires forall j :: 0 <= j < |order| ==> order[j] in fragments
    requires |order| <= |passphrases|
    requires Sound(cipher) && Authenticated(cipher)
    requires Seal(order, fragments, passphrases, secretId, userId, cipher).complete
    requires forall j, k :: 0 <= j < k < |order| ==> passphrases[j].passphrase != passphrases[k].passphrase
    requires i < |order|
    requires !Unsign.KeyCollected(order[i], collected)
    ensures Unsign.LastQualifying(Seal(order, fragments, passphrases, secretId, userId, cipher).shares,
                                  passphrases[i].passphrase, collected, cipher)
            == Some(CombineStates.ShamirShare(order[i], fragments[order[i]]))
  {
    SealedShares(order, fragments, passphrases, secretId, userId, cipher);
    var shares := Seal(order, fragments, passphrases, secretId, userId, cipher).shares;
    var pass := passphrases[i].passphrase;
    forall j | i < j < |shares|
      ensures !Unsign.Qualifies(shares[j], pass, collected, cipher)
    {
      assert shares[j].share == cipher.encrypt(fragments[order[j]], passphrases[j].passphrase).value;
    }
    Unsign.LastQualifyingWins(shares, pass, collected, cipher, i);
  }
  /**
   * The shares of `built` whose insert succeeded, in order: `inserted(i)` is
   * the outcome of the database insert of the i-th share, which the split
   * program does not check.
   */
  function Kept(built: seq<Share>, inserted: nat -> bool): (r: seq<Share>)
    ensures |r| <= |built|
    decreases |built|
  {
    if built == [] then []
    else
      var n := |built| - 1;
      Kept(built[..n], inserted) + (if inserted(n) then [built[n]] else [])
  }

  /** When every insert succeeds, every built share is stored, in order. */
  lemma {:induction false} KeptAll(built: seq<Share>, inserted: nat -> bool)
    requires forall i :: 0 <= i < |built| ==> inserted(i)
    ensures Kept(built, inserted) == built
    decreases |built|
  {
    if built != [] {
      var n := |built| - 1;
      KeptAll(built[..n], inserted);
      assert built == built[..n] + [built[n]];
    }
  }

  /** A built share whose insert succeeded is stored. */
  lemma {:induction false} KeptHas(built: seq<Share>, inserted: nat -> bool, i: nat)
    requires i < |built| && inserted(i)
    ensures built[i] in Kept(built, inserted)
    decreases |built|
  {
    var n := |built| - 1;
    if i < n {
      KeptHas(built[..n], inserted, i);
      assert built[..n][i] == built[i];
    }
  }

  /** Only built shares whose insert succeeded are stored. */
  lemma {:induction false} KeptOnly(built: seq<Share>, inserted: nat -> bool, s: Share)
    requires s in Kept(built, inserted)
    ensures exists i :: 0 <= i < |built| && inserted(i) && built[i] == s
    decreases |built|
  {
    var n := |built| - 1;
    if s in Kept(built[..n], inserted) {
      KeptOnly(built[..n], inserted, s);
      var i :| 0 <= i < n && inserted(i) && built[..n][i] == s;
      assert built[i] == s;
    } else {
      assert inserted(n) && built[n] == s;
    }
  }

  /** Keeping the shares of a longer list keeps those of its prefix, then the new one if its insert succeeded. */
  lemma KeptAppend(built: seq<Share>, share: Share, inserted: nat -> bool)
    ensures Kept(built + [share], inserted) == Kept(built, inserted) + (if inserted(|built|) then [share] else [])
  {
    assert (built + [share])[..|built|] == built;
  }

  /**
   * The sealing loop has visited the keys in `order`, each once, and has
   * the keys in `remaining` still to visit.
   */
  predicate Visiting(order: seq<Byte>, remaining: set<Byte>, fragments: map<Byte, seq<Byte>>) {
    && |order| + |remaining| == |fragments|
    && remaining <= fragments.Keys
    && (forall j :: 0 <= j < |order| ==> order[j] in fragments && order[j] !in remaining)
    && (forall k :: k in fragments ==> k in remaining || k in order)
    && Distinct(order)
  }

  /** Visiting one more remaining key keeps the visit bookkeeping. */
  lemma VisitNext(order: seq<Byte>, remaining: set<Byte>, k: Byte, fragments: map<Byte, seq<Byte>>)
    requires Visiting(order, remaining, fragments) && k in remaining
    ensures Visiting(order + [k], remaining - {k}, fragments)
  {
  }

  /**
   * One step of the sealing loop: encrypt `fragment` under `passphrase`
   * and, when that succeeds, insert the share unless the insert fails.
   */
  method SealOne(store: Store, fragment: seq<Byte>, key: Byte, passphrase: string,
                 secretId: string, userId: string, cipher: Cipher, inserted: nat -> bool, index: nat,
                 ghost base: seq<Share>, ghost sealed: seq<Share>)
    returns (ok: bool, share: Share)
    requires store.Valid() && |sealed| == index
    requires store.shares == base + Kept(sealed, inserted)
    modifies store
    ensures store.Valid() && store.secrets == old(store.secrets)
    ensures ok == cipher.encrypt(fragment, passphrase).Ok?
    ensures ok ==> share == Share("", secretId, userId, key, cipher.encrypt(fragment, passphrase).value)
    ensures ok ==> store.shares == base + Kept(sealed + [share], inserted)
    ensures !ok ==> store.shares == old(store.shares)
  {
    var c := cipher.encrypt(fragment, passphrase);
    if c.Err? {
      return false, Share("", secretId, userId, key, []);
    }
    share := Share("", secretId, userId, key, c.value);
    KeptAppend(sealed, share, inserted);
    if inserted(index) {
      store.CreateShare(share);
    }
    ok := true;
  }

  /**
   * The sealing loop: visit the fragments in the map's iteration order,
   * encrypt the i-th one under the i-th passphrase and insert it as a share
   * (the insert may fail unnoticed); stop at the first failed encryption.
   */
  method StoreShares(store: Store, fragments: map<Byte, seq<Byte>>, passphrases: seq<Passphrase>,
                     secretId: string, userId: string, cipher: Cipher, inserted: nat -> bool)
    returns (complete: bool, ghost order: seq<Byte>)
    requires store.Valid()
    requires |fragments| == |passphrases|
    modifies store
    ensures store.Valid()
    ensures Distinct(order) && |order| <= |passphrases|
    ensures forall i :: 0 <= i < |order| ==> order[i] in fragments
    ensures complete == Seal(order, fragments, passphrases, secretId, userId, cipher).complete
    ensures complete ==> forall k :: k in fragments ==> k in order
    ensures store.shares == old(store.shares) + Kept(Seal(order, fragments, passphrases, secretId, userId, cipher).shares, inserted)
    ensures store.secrets == old(store.secrets)
  {
    order := [];
    ghost var sealed: seq<Share> := [];
    var remaining := fragments.Keys;
    var i := 0;
    while remaining != {}
      invariant store.Valid() && store.secrets == old(store.secrets)
      invariant i == |order| && Visiting(order, remaining, fragments)
      invariant Seal(order, fragments, passphrases, secretId, userId, cipher) == Sealing(sealed, true)
      invariant store.shares == old(store.shares) + Kept(sealed, inserted)
      decreases |remaining|
    {
      var k :| k in remaining;
      var pp := passphrases[i];
      i := i + 1;
      var ok, share := SealOne(store, fragments[k], k, pp.passphrase, secretId, userId, cipher, inserted,
                               i - 1, old(store.shares), sealed);
      ghost var prev := order;
      VisitNext(order, remaining, k, fragments);
      order := order + [k];
      remaining := remaining - {k};
      if !ok {
        assert Seal(order, fragments, passphrases, secretId, userId, cipher) == Sealing(sealed, false) by {
          assert order[..|prev|] == prev;
        }
        return false, order;
      }
      assert Seal(order, fragments, passphrases, secretId, userId, cipher) == Sealing(sealed + [share], true) by {
        assert order[..|prev|] == prev;
      }
      sealed := sealed + [share];
    }
    complete := true;
  }

  /** The form's state after it handled a message: the secret text and the passphrase typed. */
  datatype Form = Form(completed: bool, secret: seq<Byte>, passphrase: string)

  /** A message to the split program: the quit key, or anything the form handles. */
  datatype Msg = QuitKey | Input(form: Form)

  /**
   * The outcome of inserting a new secret: the insert failed, or the
   * database assigned it `id` but its reply could not be decoded, or it was
   * inserted under `id`.
   */
  datatype Insert = InsertFailed | DecodeFailed(id: string) | Inserted(id: string)

  /** The record the split program inserts for a new secret of `userId`. */
  function NewSecret(id: string, userId: string): Secret {
    Secret(id, userId, "", DefaultParts, DefaultThreshold, Signing)
  }

  /** The split program of one initiator, between terminal events. */
  class SplitSession {
    const user: User
    const store: Store
    const registry: SplitRegistry
    var form: Form
    var secret: Option<Secret>
    var splitState: SplitState?
    /** False once Update has asked the program to end. */
    var running: bool

    /**
     * While the program runs, its secret is the stored record and is still
     * signing; once it ended, a failed final write may have left the stored
     * record behind.
     */
    ghost predicate Valid()
      reads this, store, registry, splitState
    {
      && store.Valid()
      && (secret.None? <==> splitState == null)
      && (secret.Some? ==>
            && splitState.Valid()
            && splitState.secretId == secret.value.id
            && splitState.expected == secret.value.parts
            && secret.value.user == user.id
            && secret.value.parts == DefaultParts
            && secret.value.threshold == DefaultThreshold
            && secret.value.id in store.secrets
            && secret.value.id in registry.states
            && registry.states[secret.value.id] == splitState
            && (running ==> store.secrets[secret.value.id] == secret.value && secret.value.status == Signing))
    }

    constructor (user: User, store: Store, registry: SplitRegistry)
      requires store.Valid()
      ensures Valid() && running
      ensures this.user == user && this.store == store && this.registry == registry
      ensures secret == None && splitState == null && form == Form(false, [], "")
    {
      this.user := user;
      this.store := store;
      this.registry := registry;
      form := Form(false, [], "");
      secret := None;
      splitState := null;
      running := true;
    }

    /**
     * The quit key: a secret still signing becomes dead and is written back
     * (`written` is whether that write succeeded); the program ends.
     */
    method QuitKey(written: bool) returns (cmd: Cmd)
      requires Valid() && running
      modifies this, store
      ensures Valid() && !running && cmd == Quit
      ensures secret == if old(secret).Some? && old(secret).value.status == Signing
                        then Some(old(secret).value.(status := Dead))
                        else old(secret)
      ensures store.secrets == if secret != old(secret) && written
                               then old(store.secrets)[secret.value.id := secret.value]
                               else old(store.secrets)
      ensures store.shares == old(store.shares)
      ensures splitState == old(splitState) && form == old(form)
    {
      if secret.Some? && secret.value.status == Signing {
        secret := Some(secret.value.(status := Dead));
        if written {
          store.UpdateSecret(secret.value);
        }
      }
      running := false;
      cmd := Quit;
    }

    /**
     * The completed form of a session without a secret: insert a new secret
     * in "signing". When the database assigned it an id and answered
     * readably, register its collector sized to the parts, contribute the
     * initiator's passphrase and start the receiving goroutine; otherwise the
     * program ends, leaving the record behind if it was inserted.
     */
    method Create(created: Insert) returns (ok: bool)
      requires Valid() && running && secret.None?
      requires !created.InsertFailed? ==> created.id !in store.secrets
      modifies this, store, registry
      ensures Valid() && form == old(form)
      ensures ok == created.Inserted? && running == ok
      ensures store.shares == old(store.shares)
      ensures store.secrets == if created.InsertFailed? then old(store.secrets)
                               else old(store.secrets)[created.id := NewSecret(created.id, user.id)]
      ensures !ok ==> secret.None? && splitState == null && registry.states == old(registry.states)
      ensures ok ==>
                && secret == Some(NewSecret(created.id, user.id))
                && splitState != null && fresh(splitState)
                && registry.states == old(registry.states)[created.id := splitState]
                && splitState.pushed == [Passphrase(user.id, user.username, form.passphrase)]
                && splitState.pending == splitState.pushed
                && splitState.passphrases == []
                && splitState.receivers == 1 && splitState.doneSignals == 0
    {
      if created.InsertFailed? {
        running := false;
        return false;
      }
      var s := NewSecret(created.id, user.id);
      store.CreateSecret(s);
      if created.DecodeFailed? {
        running := false;
        return false;
      }
      secret := Some(s);
      var state := NewSplitState(registry, s.id, s.parts);
      state.Push(Passphrase(user.id, user.username, form.passphrase));
      state.Receive();
      splitState := state;
      ok := true;
    }

    /**
     * The collector is full: split the secret text, seal each fragment (in
     * the map's iteration order, returned as `order`) under the passphrase
     * at the same position, insert the shares and mark the secret "ready".
     * `inserted(i)` and `written` are the unchecked outcomes of the i-th
     * share insert and of the final status write. A failed encryption ends
     * the program with the secret still signing and the shares stored so far
     * kept; a failed split is a panic.
     */
    method Finish(shamir: Shamir, cipher: Cipher, inserted: nat -> bool, written: bool)
      returns (cmd: Cmd, ghost order: seq<Byte>)
      requires Valid() && running && splitState != null
      requires splitState.Len() == splitState.expected
      requires SplitsIntoParts(shamir)
      modifies this, store
      ensures Valid() && !running
      ensures splitState == old(splitState) && form == old(form)
      ensures var result := shamir.split(form.secret, DefaultParts, DefaultThreshold);
              && (result.Err? ==>
                    && cmd == Crash && secret == old(secret)
                    && store.secrets == old(store.secrets) && store.shares == old(store.shares))
              && (result.Ok? ==>
                    && cmd == Quit
                    && Distinct(order)
                    && (forall i :: 0 <= i < |order| ==> order[i] in result.value)
                    && |order| <= |splitState.passphrases|
                    && var sealing := Seal(order, result.value, splitState.passphrases,
                                           old(secret).value.id, user.id, cipher);
                    && store.shares == old(store.shares) + Kept(sealing.shares, inserted)
                    && (sealing.complete ==>
                          && (forall k :: k in result.value ==> k in order)
                          && secret == Some(old(secret).value.(status := Ready))
                          && store.secrets == if written then old(store.secrets)[secret.value.id := secret.value]
                                              else old(store.secrets))
                    && (!sealing.complete ==>
                          secret == old(secret) && store.secrets == old(store.secrets)))
    {
      var s := secret.value;
      var result := shamir.split(form.secret, s.parts, s.threshold);
      order := [];
      if result.Err? {
        running := false;
        return Crash, order;
      }
      var complete;
      complete, order := StoreShares(store, result.value, splitState.passphrases, s.id, user.id, cipher, inserted);
      if !complete {
        running := false;
        return Quit, order;
      }
      s := s.(status := Ready);
      secret := Some(s);
      if written {
        store.UpdateSecret(s);
      }
      running := false;
      cmd := Quit;
    }

    /**
     * One update of the split program. The quit key is handled first; then
     * the form takes the message; a completed form creates the secret, but
     * only once; and whenever the collector holds its expected count the
     * shares are made. `created`, `written` and `inserted` are the outcomes
     * of the database writes this update may perform.
     */
    method Update(msg: Msg, created: Insert, written: bool, inserted: nat -> bool, shamir: Shamir, cipher: Cipher)
      returns (cmd: Cmd, ghost order: seq<Byte>)
      requires Valid() && running
      requires SplitsIntoParts(shamir)
      requires !created.InsertFailed? ==> created.id !in store.secrets
      modifies this, store, registry
      ensures Valid()
      ensures running <==> cmd == Continue
      ensures old(secret).Some? ==>
                && secret.Some? && secret.value.id == old(secret).value.id
                && StatusStep(old(secret).value.status, secret.value.status)
      // The quit key.
      ensures msg.QuitKey? ==>
                && cmd == Quit && form == old(form)
                && secret == (if old(secret).Some? then Some(old(secret).value.(status := Dead)) else None)
                && store.secrets == (if old(secret).Some? && written
                                     then old(store.secrets)[secret.value.id := secret.value]
                                     else old(store.secrets))
                && store.shares == old(store.shares) && registry.states == old(registry.states)
      ensures msg.Input? ==> form == msg.form
      // Before the form is completed nothing happens.
      ensures msg.Input? && !msg.form.completed && old(secret).None? ==>
                && cmd == Continue && secret.None?
                && store.secrets == old(store.secrets) && store.shares == old(store.shares)
                && registry.states == old(registry.states)
      // The completed form creates the secret.
      ensures msg.Input? && msg.form.completed && old(secret).None? ==>
                && (secret.Some? <==> created.Inserted?)
                && (cmd == Continue <==> created.Inserted?)
                && (!created.Inserted? ==> cmd == Quit)
                && store.shares == old(store.shares)
                && store.secrets == (if created.InsertFailed? then old(store.secrets)
                                     else old(store.secrets)[created.id := NewSecret(created.id, user.id)])
                && (created.Inserted? ==>
                      && secret == Some(NewSecret(created.id, user.id))
                      && fresh(splitState)
                      && registry.states == old(registry.states)[created.id := splitState]
                      && splitState.pushed == [Passphrase(user.id, user.username, msg.form.passphrase)]
                      && splitState.passphrases == [] && splitState.receivers == 1)
                && (!created.Inserted? ==> registry.states == old(registry.states))
      // While the collector is not full, nothing happens.
      ensures msg.Input? && old(secret).Some? && old(splitState.Len()) != old(splitState.expected) ==>
                && cmd == Continue && secret == old(secret) && splitState == old(splitState)
                && store.secrets == old(store.secrets) && store.shares == old(store.shares)
                && registry.states == old(registry.states)
      // A full collector makes the shares and ends the program.
      ensures msg.Input? && old(secret).Some? && old(splitState.Len()) == old(splitState.expected) ==>
                var result := shamir.split(msg.form.secret, DefaultParts, DefaultThreshold);
                && cmd != Continue && splitState == old(splitState)
                && registry.states == old(registry.states)
                && (result.Err? ==>
                      && cmd == Crash && secret == old(secret)
                      && store.secrets == old(store.secrets) && store.shares == old(store.shares))
                && (result.Ok? ==>
                      && cmd == Quit
                      && Distinct(order)
                      && (forall i :: 0 <= i < |order| ==> order[i] in result.value)
                      && |order| <= |splitState.passphrases|
                      && var sealing := Seal(order, result.value, splitState.passphrases,
                                             old(secret).value.id, user.id, cipher);
                      && store.shares == old(store.shares) + Kept(sealing.shares, inserted)
                      && (sealing.complete ==>
                            && (forall k :: k in result.value ==> k in order)
                            && secret == Some(old(secret).value.(status := Ready))
                            && store.secrets == if written then old(store.secrets)[secret.value.id := secret.value]
                                                else old(store.secrets))
                      && (!sealing.complete ==>
                            secret == old(secret) && store.secrets == old(store.secrets)))
    {
      order := [];
      if msg.QuitKey? {
        cmd := QuitKey(written);
        return;
      }
      form := msg.form;
      if form.completed && secret.None? {
        var ok := Create(created);
        if !ok {
          return Quit, order;
        }
      }
      if splitState != null && splitState.Len() == splitState.expected {
        cmd, order := Finish(shamir, cipher, inserted, written);
        return;
      }
      cmd := Continue;
    }
  }
}
