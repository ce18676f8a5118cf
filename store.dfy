/**
 * The database, kept in memory: secret records by id and the list of share
 * records, with the two queries the commands run against them.
 */
module Store {
  import opened Model

  /** Prefix of every secret record id. */
  const SecretTable := "secrets:"

  /** Every secret record is stored under its own id. */
  predicate Keyed(secrets: map<string, Secret>) {
    forall k :: k in secrets ==> secrets[k].id == k
  }

  class Store {
    var secrets: map<string, Secret>
    var shares: seq<Share>

    ghost predicate Valid()
      reads this
    {
      Keyed(secrets)
    }

    constructor ()
      ensures Valid()
      ensures secrets == map[] && shares == []
    {
      secrets := map[];
      shares := [];
    }

    /** Insert a new secret record under the id the database assigned to it. */
    method CreateSecret(s: Secret)
      requires Valid()
      requires s.id !in secrets
      modifies this
      ensures Valid()
      ensures secrets == old(secrets)[s.id := s] && shares == old(shares)
    {
      secrets := secrets[s.id := s];
    }

    /** Overwrite the record of an existing secret. */
    method UpdateSecret(s: Secret)
      requires Valid()
      requires s.id in secrets
      modifies this
      ensures Valid()
      ensures secrets == old(secrets)[s.id := s] && shares == old(shares)
    {
      secrets := secrets[s.id := s];
    }

    /** Insert a share record. */
    method CreateShare(s: Share)
      requires Valid()
      modifies this
      ensures Valid()
      ensures shares == old(shares) + [s] && secrets == old(secrets)
    {
      shares := shares + [s];
    }
  }

  /** The secret whose record id is "secrets:" followed by `id`. */
  function Get(secrets: map<string, Secret>, id: string): (r: Result<Secret>)
    ensures r.Ok? <==> SecretTable + id in secrets
    ensures r.Ok? ==> r.value == secrets[SecretTable + id]
  {
    if SecretTable + id in secrets then Ok(secrets[SecretTable + id])
    else Err("secret not found")
  }

  /** The shares of secret `secretId` held by user `userId`, in stored order. */
  function MineForSecret(shares: seq<Share>, secretId: string, userId: string): (r: seq<Share>)
    ensures forall s :: s in r <==> s in shares && s.secret == secretId && s.user == userId
    ensures |r| <= |shares|
  {
    if shares == [] then []
    else
      var rest := MineForSecret(shares[1..], secretId, userId);
      assert forall s :: s in shares <==> s == shares[0] || s in shares[1..];
      if shares[0].secret == secretId && shares[0].user == userId then [shares[0]] + rest else rest
  }
}
