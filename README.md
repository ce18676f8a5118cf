# ssss coordination engine, modelled in Dafny

ssss is an SSH service for Shamir secret sharing. An initiator runs `split`,
types a secret and a passphrase, and the service creates the secret in status
"signing". Other users run `sign <id>` and contribute their passphrases. Once
as many passphrases as parts are collected, the secret is split, each fragment
is encrypted under the passphrase at the same position and stored as a share,
and the secret becomes "ready". Later someone runs `combine <id>`, which opens a
collector sized to the threshold, and holders run `unsign <id>` with their
passphrase to push a decrypted fragment into it.

This project models the coordination engine behind those programs, without the
terminal interface, the SSH server and the database driver:

- `SplitStates` (`split_state.dfy`) and `CombineStates` (`combine_state.dfy`)
  are the two contribution collectors and their process-wide registries.
  - Each collector is a class.
  - The buffered Go channel becomes the `pending` queue, oldest first, with
    capacity `expected`. A send that would block becomes a precondition.
  - The done channel has capacity one. The split program never reads it (it
    polls `Len()`), and the combine program's use of it is not part of this
    model, so it becomes the count `doneSignals`. `Valid()` keeps that count
    at most one.
  - The ghost `pushed` records every contribution in push order.
- `Barrier` (`barrier.dfy`) states on plain values what receiving means:
  - `ReceiveMany` moves the `n` oldest pending items to the end of the
    collected list;
  - `DoneSignals` counts the done signals of a run of single receives.
- `Model` (`model.dfy`) holds the record shapes and the status values. It also
  has the status step relation that the lifecycle keeps.
- `Primitives` (`primitives.dfy`) stands for AES-GCM and Shamir's scheme.
  - They are values of function type, passed in as parameters.
  - The laws the engine relies on are predicates that callers must establish:
    `Sound`, `Authenticated` and `SplitsIntoParts`.
- `Store` (`store.dfy`) is the database, kept in memory. It holds secret
  records by id and a list of share records, plus the two queries the commands
  use.
- `Split` (`split.dfy`) is the split program of the initiator. It covers
  creation, the first contribution, sealing fragments under passphrases and the
  status transitions.
- `Unsign` (`combine_unsign.dfy`) is the unsign program. It selects the
  fragment to push and deduplicates by fragment key.
- `Commands` (`ssh.dfy`) covers the guards of `sign`, `combine` and `unsign`,
  and the id column of `list`.

The program's help text tells the initiator to hand the `sign` command, and
later the `unsign` command, to the shareholders (`cmd/ssh.go:28`,
`cmd/ssh.go:38`). But every stored share records the initiator as its holder
(`cmd/split.go:175`), not the shareholder whose passphrase sealed it, and
`unsign` loads only the caller's own shares. The model follows the code.
`Split.OnlyInitiatorHoldsShares` shows the consequence: `unsign` run by any
other user loads no shares.

The database writes of the split program are unchecked in the source. The
model makes their outcomes inputs of the session: whether the new secret was
inserted and its reply decoded (`Split.Insert`), whether each share insert
succeeded, and whether the final status write succeeded. So a secret can
become "ready" with only some of its shares stored (`Split.Kept`), and a
program can end while the stored record still says "signing", in which case
`sign` keeps accepting it (`Commands.SignFollowsSession`).

## Model

| member | source | states |
|---|---|---|
| Model.SettledStatusIsFinal | cmd/split.go:111-115 | The lifecycle only moves "signing" to "ready" or "dead". So along any sequence of its steps, a secret that is ready or dead keeps that status and never returns to "signing". |
| Barrier.ReceiveMany | cmd/splitState.go:49-54 | After `n` receives, the collected list is the old one followed by the `n` oldest pending items, in arrival order. The queue keeps only the rest. |
| Barrier.DoneFiresOnce | cmd/splitState.go:66-68 | Over any run of single receives, done is signalled at most once. It is signalled exactly when the run takes the count from below `expected` to at least `expected`. |
| SplitStates.SplitState.constructor | cmd/splitState.go:8-14 | A new collector has the given secret id and expected count. It has no passphrases, nothing pending and no done signal. |
| SplitStates.NewSplitState | cmd/splitState.go:7-18 | Creates an empty collector and registers it under the secret id. A previous entry is replaced, and no other key of the registry changes. |
| SplitStates.SplitState.Push | cmd/splitState.go:40-42 | Enqueues a passphrase at the back of the channel only while fewer than `expected` are pending. The collected list and the done signal are unchanged. |
| SplitStates.SplitState.Receive | cmd/splitState.go:44-56 | Starts the receiving goroutine. Nothing is collected yet. |
| SplitStates.SplitState.RunReceiver | cmd/splitState.go:45-55 | The goroutine's loop performs exactly `expected` receives. The collected list grows by the `expected` oldest pending passphrases, in push order. If it started empty, it then equals the first `expected` passphrases pushed. Done is signalled once. |
| SplitStates.SplitState.Len | cmd/splitState.go:36-38 | The number of collected passphrases is the number pushed minus those still pending in the channel. |
| SplitStates.SplitRegistry.constructor | cmd/splitState.go:5 | The process-wide map from secret id to passphrase collector starts empty. |
| SplitStates.SplitState.ReceiveOne | cmd/splitState.go:58-71 | Removes the oldest pending passphrase and appends it to the collected list, leaving earlier entries unchanged. `Len` grows by one. Done is signalled exactly when the new length equals `expected`, which agrees with `Barrier.DoneSignals`. |
| CombineStates.CombineState.constructor | cmd/combineState.go:13-19 | A new fragment collector has the given secret id and expected count. It has no shares, nothing pending and no done signal. |
| CombineStates.NewCombineState | cmd/combineState.go:12-23 | Creates an empty collector and registers it under the secret id, overwriting any earlier one. No other key of the registry changes. |
| CombineStates.CombineState.Push | cmd/combineState.go:39-41 | Enqueues a fragment only while fewer than `expected` are pending. The collected shares are unchanged. |
| CombineStates.CombineState.Receive | cmd/combineState.go:43-55 | Starts the receiving goroutine. Nothing is collected yet. |
| CombineStates.CombineState.RunReceiver | cmd/combineState.go:44-54 | Performs exactly `expected` receives, appending the oldest pending fragments in arrival order, and then signals done once. |
| CombineStates.CombineState.Len | cmd/combineState.go:35-37 | The number of collected fragments is the number pushed minus those still pending in the channel. |
| CombineStates.CombineRegistry.constructor | cmd/combineState.go:5 | The process-wide map from secret id to fragment collector starts empty. |
| CombineStates.CombineState.ReceiveOne | cmd/combineState.go:57-70 | Appends the oldest pending fragment at the end of the shares and leaves earlier entries unchanged. `Len` grows by one. Done is signalled exactly when the count reaches `expected`. |
| Store.Get | lib/repository/secret.go:23-35 | The lookup succeeds exactly when a record with id "secrets:" followed by the argument exists. When it succeeds, it returns that record. |
| Store.MineForSecret | lib/repository/share.go:21-36 | Returns exactly the stored shares of the given secret and user, and never more shares than are stored. |
| Store.Store.CreateSecret | cmd/split.go:134 | Inserts the new secret record under its fresh id, keeping every record stored under its own id. The share records are unchanged. |
| Store.Store.UpdateSecret | cmd/split.go:184 | Overwrites the record of an existing secret, keeping every record stored under its own id. The share records are unchanged. |
| Store.Store.CreateShare | cmd/split.go:179 | Appends one share record. The secret records are unchanged. |
| Unsign.LastQualifying | cmd/combineUnsign.go:95-115 | A selected fragment has a key not yet collected. It is the decryption, under the typed passphrase, of a stored share with that key. |
| Unsign.NothingQualifies | cmd/combineUnsign.go:95-109 | Nothing is selected if and only if no stored share both decrypts under the passphrase and has an uncollected key. |
| Unsign.LastQualifyingWins | cmd/combineUnsign.go:95-115 | The loop does not break. So when share `i` qualifies and no later share does, share `i`'s key and decrypted bytes are what is selected. |
| Unsign.WrongPassphraseContributesNothing | cmd/combineUnsign.go:96-99 | Suppose every stored share was sealed under a passphrase other than the typed one. With authenticated encryption, no share decrypts, and nothing is selected. |
| Unsign.SelectShare | cmd/combineUnsign.go:94-115 | The nested selection loops, with the decrypt filter and the key check over the collected shares, compute `LastQualifying`. |
| Unsign.Update | cmd/combineUnsign.go:76-126 | The quit key pushes nothing. A completed form pushes at most one fragment, the selected one, and only to the pending queue. The collected shares and the done signal are untouched. The program quits exactly on the quit key or a completed form. |
| Split.Seal | cmd/split.go:162-180 | Sealing never builds more shares than keys visited, and it is complete exactly when every visited fragment gave a share. |
| Split.SealedShares | cmd/split.go:162-178 | The i-th fragment visited is encrypted under the i-th collected passphrase. It becomes a share of the secret, held by the initiator and keyed by the fragment key. When sealing stops early, the next encryption is the one that failed. |
| Split.Kept | cmd/split.go:179 | Never more shares are stored than were built. |
| Split.KeptAll | cmd/split.go:179 | When every share insert succeeds, exactly the built shares are stored, in order. |
| Split.KeptHas | cmd/split.go:179 | A built share whose insert succeeded is stored. |
| Split.KeptOnly | cmd/split.go:179 | Every stored share was built and its insert succeeded. |
| Split.KeptAppend | cmd/split.go:162-180 | One more built share adds itself to the stored ones exactly when its insert succeeds. |
| Split.SealOne | cmd/split.go:164-179 | One step of the sealing loop succeeds exactly when the encryption does. The share is the ciphertext keyed by the fragment key, and it is stored only if its insert succeeds. A failed encryption stores nothing. |
| Split.SealedSharesOpen | cmd/split.go:162-178 | With a sound cipher, each built share decrypts, under the passphrase paired with it, to its fragment. The built shares' keys are pairwise different. |
| Split.OnlyInitiatorHoldsShares | cmd/split.go:173-178 | All sealed shares are held by the initiator, so the share query of `unsign` returns nothing for any other user. |
| Split.UnsignRecoversFragment | cmd/split.go:162-178 | Assume the sealing completed and the contributors' passphrases differ. Then unsigning with contributor `i`'s passphrase selects exactly fragment `order[i]`, provided its key is not collected yet. |
| Split.StoreShares | cmd/split.go:161-180 | The loop visits every fragment key once, in an arbitrary order. Its index into the passphrases stays in bounds because there are as many fragments as passphrases. It stores the shares `Seal` describes for that order whose inserts succeeded (`Kept`), and reports whether sealing completed. |
| Split.SplitSession.constructor | cmd/split.go:21-29 | A session starts running, with no secret and no collector. |
| Split.SplitSession.QuitKey | cmd/split.go:111-116 | Quitting turns a "signing" secret into "dead". The stored record changes only if that write succeeds. Any other status, including "ready", is left untouched. The program ends. |
| Split.SplitSession.Create | cmd/split.go:125-152 | A failed insert ends the program with nothing created. A reply that cannot be decoded ends it too, but leaves the inserted "signing" record behind. Otherwise it creates a secret in "signing" with 3 parts and threshold 2, held by the initiator. It registers a fresh collector sized to the parts. The initiator's passphrase is the first and only contribution pushed, and the receiving goroutine is started. |
| Split.SplitSession.Finish | cmd/split.go:154-187 | A failed split crashes the program with nothing stored. Otherwise the stored shares are those `Seal` builds for the iteration order whose inserts succeeded. The secret becomes "ready" exactly when every fragment was sealed, whatever the inserts did, and that status is stored if its write succeeds. An encryption error ends the program with the secret still "signing". |
| Split.SplitSession.Update | cmd/split.go:104-190 | The quit key has the effect of `QuitKey`. Before the form completes nothing happens. A completed form without a secret has the effect of `Create`: the program goes on exactly when the secret was created, and otherwise quits. Later updates do nothing while the collector is short. Once it holds its expected count they have the effect of `Finish`: a failed split crashes, and otherwise the program quits. Each status change is a `StatusStep`, and the program keeps running exactly when the command is to continue. |
| Commands.ListedId | cmd/ssh.go:60 | The listed id is the record id with its first 8 characters dropped. |
| Commands.ListedIdFindsSecret | cmd/ssh.go:60 | In a store that keeps every record under its own id, looking up the id that `list` prints for a record finds that very record. |
| Commands.List | cmd/ssh.go:52-64 | A query error is returned as it is. Otherwise there is one row per secret, in query order, with the listed id, threshold, parts and label. |
| Commands.Sign | cmd/ssh.go:84-99 | A lookup error is returned before any check. `sign` succeeds if and only if the secret is "signing" and has a registered collector, and then it hands that collector over. Otherwise it fails with the signing-state message. |
| Commands.RequireReady | cmd/ssh.go:122-124 | Given a successful lookup, the check passes if and only if the secret is "ready". Otherwise it fails with the ready-state message. |
| Commands.Combine | cmd/ssh.go:114-126 | It fails, without touching the registry, when the lookup or the ready check fails. Otherwise it registers a fresh empty collector under the secret id, sized to the secret's threshold. |
| Commands.Unsign | cmd/ssh.go:141-161 | It succeeds if and only if the secret is "ready", a combine collector is registered and the share query succeeds. It then hands over that collector and exactly the caller's shares of this secret. The errors come in the source's order: lookup, status, registry, query. |
| Commands.SignFollowsSession | cmd/ssh.go:92-99 | For a split session's secret, `sign` hands over the session's collector exactly while the stored record says "signing", which holds for the whole run. Otherwise it rejects the secret with the signing-state message. |

## Left out

- Encryption and Shamir's scheme (`cmd/crypt.go`, the Shamir library) are not modelled inside. They are function parameters with stated laws:
  - decryption inverts encryption (`Sound`);
  - a ciphertext opens under no other passphrase (`Authenticated`);
  - a split yields `parts` fragments with distinct keys (`SplitsIntoParts`).
- The panic of `decrypt` on ciphertext shorter than the nonce is not modelled. A short ciphertext is just one that does not decrypt.
- Nonce generation is left out. An encryption failure is any `Err` of the encrypt parameter.
- Goroutines, the mutex and blocking are linearised, so interleavings are not modelled:
  - `RunReceiver` runs the receiving goroutine as one step, once its `expected` items are all buffered. A push past capacity that would wait for that goroutine to drain is not modelled.
  - `ReceiveOne` is modelled only while no receiving goroutine is waiting.
  - A second done signal, which would block forever, is excluded by precondition.
- The unlocked `Len()` read in the split program is not modelled as a race.
- Unsign.Update: the key check looks only at collected shares, as the source does. A fragment still pending in the channel is not seen, so the same key can be pushed twice before it is received. The model keeps this behaviour and does not claim more.
- The database is in memory. The outcome of each write of the split program is an input, and the new record's id is chosen by the caller.
- Store.Get: the lookup fails with a fixed message when the record is missing. Other driver errors of the lookup are not modelled.
- Commands.Unsign: the share query's failure is an input; the query itself is modelled as always seeing the current share records.
- Commands.List: the query for the caller's secrets is a parameter. The creation time column and the output formatting are not modelled.
- The split program's `Secret` record has no label, so secrets it creates carry an empty label.
- Timestamps, logging and debug dumps are left out. So are the terminal interface (`Init`, `View`, form wiring, window sizes), the SSH server, configuration and dependency injection.
- Split.SplitSession.Update: the form itself is an input. A message is the quit key or the form's state after it handled the event. Because of this, a typed "q" counts as quitting, just as the source checks every key press before the form sees it.
- The sign and combine programs are not part of this model. They receive contributions and run the final combination. Their only effect here is through `Push`, `Receive` and `ReceiveOne`.
- The registries are never cleaned up by the source, and the model does not clean them up either.
