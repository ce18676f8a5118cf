/**
 * The commands a user runs over SSH, reduced to what they decide: `list`
 * prints the caller's secrets, and `sign`, `combine` and `unsign` look the
 * secret up and check its status and the registries before handing over to
 * their programs.
 */
module Commands {
  import opened Model
  import opened Store
  import opened SplitStates
  import opened CombineStates
  import Split

  const NotSigning := "Secret is not in a signing state."
  const NotReady := "Secret is not in a ready state."
  const NotCombining := "Secret is not being combined."

  /** Length of the record-table prefix "secrets:" that `list` drops. */
  const PrefixLength := 8

  /** The id column of `list`: the record id without its table prefix. */
  function ListedId(id: string): (r: string)
    requires |id| >= PrefixLength
    ensures id == id[..PrefixLength] + r
  {
    id[PrefixLength..]
  }

  /**
   * The id `list` prints for a stored record is the one `sign`, `combine`
   * and `unsign` accept for that record.
   */
  lemma ListedIdFindsSecret(secrets: map<string, Secret>, s: Secret)
    requires Keyed(secrets) && s in secrets.Values
    requires |s.id| >= PrefixLength && s.id[..PrefixLength] == SecretTable
    ensures Get(secrets, ListedId(s.id)) == Ok(s)
  {
    var k :| k in secrets && secrets[k] == s;
    assert SecretTable + ListedId(s.id) == s.id;
  }

  /** One line of `list`, without the creation time. */
  datatype Row = Row(id: string, threshold: nat, parts: nat, title: string)

  /** `list`: one row per secret of the caller, in the order the query returned them. */
  method List(mine: Result<seq<Secret>>) returns (r: Result<seq<Row>>)
    requires mine.Ok? ==> forall i :: 0 <= i < |mine.value| ==> |mine.value[i].id| >= PrefixLength
    ensures mine.Err? ==> r == Err(mine.error)
    ensures mine.Ok? ==> r.Ok? && |r.value| == |mine.value|
    ensures mine.Ok? ==> forall i :: 0 <= i < |mine.value| ==>
              var s := mine.value[i];
              r.value[i] == Row(ListedId(s.id), s.threshold, s.parts, s.title)
  {
    if mine.Err? {
      return Err(mine.error);
    }
    var rows: seq<Row> := [];
    for i := 0 to |mine.value|
      invariant |rows| == i
      invariant forall j :: 0 <= j < i ==>
                  rows[j] == Row(ListedId(mine.value[j].id), mine.value[j].threshold, mine.value[j].parts, mine.value[j].title)
    {
      var s := mine.value[i];
      rows := rows + [Row(s.id[PrefixLength..], s.threshold, s.parts, s.title)];
    }
    r := Ok(rows);
  }

  /**
   * `sign <id>`: the collector of a secret that is signing and has one
   * registered; a lookup error is returned before any check.
   */
  function Sign(secrets: map<string, Secret>, arg: string, splitStates: map<string, SplitState>)
    : (r: Result<SplitState>)
    ensures Get(secrets, arg).Err? ==> r == Err(Get(secrets, arg).error)
    ensures r.Ok? <==> && Get(secrets, arg).Ok?
                       && Get(secrets, arg).value.status == Signing
                       && Get(secrets, arg).value.id in splitStates
    ensures r.Ok? ==> r.value == splitStates[Get(secrets, arg).value.id]
    ensures Get(secrets, arg).Ok? && r.Err? ==> r.error == NotSigning
  {
    match Get(secrets, arg)
    case Err(e) => Err(e)
    case Ok(secret) =>
      if secret.status != Signing then Err(NotSigning)
      else if secret.id !in splitStates then Err(NotSigning)
      else Ok(splitStates[secret.id])
  }

  /** The status check shared by `combine` and `unsign`: the secret must be ready. */
  function RequireReady(secrets: map<string, Secret>, arg: string): (r: Result<Secret>)
    ensures Get(secrets, arg).Err? ==> r == Err(Get(secrets, arg).error)
    ensures r.Ok? <==> Get(secrets, arg).Ok? && Get(secrets, arg).value.status == Ready
    ensures r.Ok? ==> r.value == Get(secrets, arg).value
    ensures Get(secrets, arg).Ok? && r.Err? ==> r.error == NotReady
  {
    match Get(secrets, arg)
    case Err(e) => Err(e)
    case Ok(secret) => if secret.status != Ready then Err(NotReady) else Ok(secret)
  }

  /**
   * `combine <id>`: for a ready secret, register a fresh fragment collector
   * sized to its threshold, replacing any collector registered before.
   */
  method Combine(secrets: map<string, Secret>, arg: string, registry: CombineRegistry)
    returns (r: Result<CombineState>)
    modifies registry
    ensures RequireReady(secrets, arg).Err? ==>
              r == Err(RequireReady(secrets, arg).error) && registry.states == old(registry.states)
    ensures RequireReady(secrets, arg).Ok? ==>
              var secret := RequireReady(secrets, arg).value;
              && r.Ok? && fresh(r.value) && r.value.Valid()
              && r.value.secretId == secret.id && r.value.expected == secret.threshold
              && r.value.shares == [] && r.value.pending == []
              && registry.states == old(registry.states)[secret.id := r.value]
  {
    var ready := RequireReady(secrets, arg);
    if ready.Err? {
      return Err(ready.error);
    }
    var cs := NewCombineState(registry, ready.value.id, ready.value.threshold);
    r := Ok(cs);
  }

  /** What the unsign program is started with. */
  datatype UnsignSetup = UnsignSetup(combineState: CombineState, shares: seq<Share>)

  /**
   * `unsign <id>`: for a ready secret that is being combined, its collector
   * and the caller's own shares of it; `queryError` is the error of the
   * share query, if it failed.
   */
  function Unsign(secrets: map<string, Secret>, shares: seq<Share>, arg: string, userId: string,
                  combineStates: map<string, CombineState>, queryError: Option<string>): (r: Result<UnsignSetup>)
    ensures RequireReady(secrets, arg).Err? ==> r == Err(RequireReady(secrets, arg).error)
    ensures r.Ok? <==> && RequireReady(secrets, arg).Ok?
                       && RequireReady(secrets, arg).value.id in combineStates
                       && queryError.None?
    ensures r.Ok? ==>
              var id := RequireReady(secrets, arg).value.id;
              && r.value.combineState == combineStates[id]
              && (forall s :: s in r.value.shares <==> s in shares && s.secret == id && s.user == userId)
    ensures RequireReady(secrets, arg).Ok? && RequireReady(secrets, arg).value.id !in combineStates ==>
              r == Err(NotCombining)
    ensures (RequireReady(secrets, arg).Ok? && RequireReady(secrets, arg).value.id in combineStates
             && queryError.Some?) ==> r == Err(queryError.value)
  {
    match RequireReady(secrets, arg)
    case Err(e) => Err(e)
    case Ok(secret) =>
      if secret.id !in combineStates then Err(NotCombining)
      else if queryError.Some? then Err(queryError.value)
      else Ok(UnsignSetup(combineStates[secret.id], MineForSecret(shares, secret.id, userId)))
  }

  /**
   * `sign` follows the stored status of a split session's secret: it hands
   * over the session's collector while the record says "signing" (for the
   * whole run, and after a run whose final status write failed), and
   * rejects the secret otherwise.
   */
  lemma SignFollowsSession(session: Split.SplitSession, arg: string)
    requires session.Valid() && session.secret.Some?
    requires session.secret.value.id == SecretTable + arg
    ensures session.store.secrets[SecretTable + arg].status == Signing ==>
              Sign(session.store.secrets, arg, session.registry.states).Ok?
              && Sign(session.store.secrets, arg, session.registry.states).value == session.splitState
    ensures session.store.secrets[SecretTable + arg].status != Signing ==>
              Sign(session.store.secrets, arg, session.registry.states) == Err(NotSigning)
    ensures session.running ==>
              Sign(session.store.secrets, arg, session.registry.states).Ok?
              && Sign(session.store.secrets, arg, session.registry.states).value == session.splitState
  {
  }
}
