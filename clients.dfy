/** The `clients` table: one row per registered identity, found by its link token. */
module Clients {
  import opened Wrappers
  import opened Json

  /** A row: `id, link_token, public_key, public_key_hash, key_type, display_name,
      fetch_token_hash, created_at`. Only the hash of the fetch token is kept. */
  datatype Client = Client(
    id: int,
    linkToken: string,
    publicKey: string,
    publicKeyHash: string,
    keyType: string,
    displayName: Json,
    fetchTokenHash: string,
    createdAt: int)

  /** The `UNIQUE` constraint on `link_token`. */
  predicate UniqueTokens(cs: seq<Client>) {
    forall i, j :: 0 <= i < j < |cs| ==> cs[i].linkToken != cs[j].linkToken
  }

  predicate Registered(cs: seq<Client>, linkToken: string) {
    exists i :: 0 <= i < |cs| && cs[i].linkToken == linkToken
  }

  /** `SELECT ... FROM clients WHERE link_token = %s`, first row. */
  function FindClient(cs: seq<Client>, linkToken: string): (r: Option<Client>)
    ensures r.Some? ==> r.value in cs && r.value.linkToken == linkToken
    ensures r.None? <==> !Registered(cs, linkToken)
  {
    if cs == [] then None
    else if cs[0].linkToken == linkToken then Some(cs[0])
    else
      var r := FindClient(cs[1..], linkToken);
      assert forall i :: 0 < i < |cs| ==> cs[i] == cs[1..][i - 1];
      r
  }

  /** With unique link tokens the lookup returns the one row carrying the token. */
  lemma {:induction false} FindClientUnique(cs: seq<Client>, c: Client)
    requires UniqueTokens(cs) && c in cs
    ensures FindClient(cs, c.linkToken) == Some(c)
  {
    if cs[0] != c {
      assert cs[0].linkToken != c.linkToken by {
        var j :| 0 <= j < |cs| && cs[j] == c;
      }
      assert c in cs[1..];
      FindClientUnique(cs[1..], c);
    }
  }

  /** Appending a row with a fresh token keeps the tokens unique and leaves every earlier
      lookup as it was. */
  lemma AppendFresh(cs: seq<Client>, c: Client, linkToken: string)
    requires UniqueTokens(cs) && !Registered(cs, c.linkToken)
    ensures UniqueTokens(cs + [c])
    ensures linkToken != c.linkToken ==> FindClient(cs + [c], linkToken) == FindClient(cs, linkToken)
    ensures FindClient(cs + [c], c.linkToken) == Some(c)
  {
    FindClientUnique(cs + [c], c);
    if linkToken != c.linkToken {
      FindAppendOther(cs, c, linkToken);
    }
  }

  lemma {:induction false} FindAppendOther(cs: seq<Client>, c: Client, linkToken: string)
    requires linkToken != c.linkToken
    ensures FindClient(cs + [c], linkToken) == FindClient(cs, linkToken)
  {
    if cs != [] {
      assert (cs + [c])[1..] == cs[1..] + [c];
      FindAppendOther(cs[1..], c, linkToken);
    }
  }

  /** The table invariant: unique link tokens, ids increasing and below the next
      auto-increment value. */
  predicate WellFormed(cs: seq<Client>, nextId: int) {
    && UniqueTokens(cs)
    && (forall i, j :: 0 <= i < j < |cs| ==> cs[i].id < cs[j].id)
    && forall i :: 0 <= i < |cs| ==> cs[i].id < nextId
  }

  lemma AppendWellFormed(cs: seq<Client>, c: Client, nextId: int)
    requires WellFormed(cs, nextId) && c.id == nextId && !Registered(cs, c.linkToken)
    ensures WellFormed(cs + [c], nextId + 1)
  {
    AppendFresh(cs, c, c.linkToken);
  }
}
