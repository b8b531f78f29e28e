/** Payload validation of the create-user endpoint (`create_user` in
    api/v1/api.py).

    The JSON body is a map from keys to values of any type `V`. The endpoint
    checks for the mandatory keys, then for a credential key, then keeps only
    the allow-listed keys for the new row, and answers by echoing the
    unfiltered payload and the request headers. It stores nothing. */
module CreateUser {
  import opened Http

  const MANDATORY_FIELDS: set<string> := {"username", "full_name"}
  const ALLOWED_FIELDS: set<string> := {"username", "email", "password_hash", "full_name", "bio"}

  /** The rejections; their JSON body carries the text under the key "error". */
  const MISSING_MANDATORY: Failure := HttpError(400, "Missing mandatory fields - username and full_name")
  const MISSING_CREDENTIAL: Failure := HttpError(400, "Either email or password must be provided")

  /** The outcome of one request: a rejection, or an accepted payload with
      the echoed body and headers and the fields the new row is built from. */
  datatype Outcome<V> =
    | Rejected(error: Failure)
    | Accepted(payload: map<string, V>, headers: map<string, string>, userFields: map<string, V>)

  /** The dictionary comprehension: the entries of `payload` whose key is
      allow-listed. */
  function FilterAllowed<V>(payload: map<string, V>): (r: map<string, V>)
    ensures forall k :: k in r <==> k in payload && k in ALLOWED_FIELDS
    ensures forall k :: k in r ==> r[k] == payload[k]
  {
    map k | k in payload && k in ALLOWED_FIELDS :: payload[k]
  }

  /** `create_user`. The mandatory-key check comes first: a payload without
      `username` or `full_name` is refused with that message even when it has
      no credential either. Of the credentials only the presence of the key
      `email` or `password_hash` is tested, not its value. */
  function CreateUser<V>(payload: map<string, V>, headers: map<string, string>): (r: Outcome<V>)
    ensures !(MANDATORY_FIELDS <= payload.Keys) ==> r == Rejected(MISSING_MANDATORY)
    ensures MANDATORY_FIELDS <= payload.Keys && "email" !in payload && "password_hash" !in payload
        ==> r == Rejected(MISSING_CREDENTIAL)
    ensures r.Accepted? <==>
      "username" in payload && "full_name" in payload && ("email" in payload || "password_hash" in payload)
    ensures r.Accepted? ==>
      && r.payload == payload && r.headers == headers
      && r.userFields.Keys <= ALLOWED_FIELDS
      && r.userFields.Keys == payload.Keys * ALLOWED_FIELDS
      && forall k :: k in r.userFields ==> r.userFields[k] == payload[k]
  {
    if !(MANDATORY_FIELDS <= payload.Keys) then Rejected(MISSING_MANDATORY)
    else if "email" !in payload && "password_hash" !in payload then Rejected(MISSING_CREDENTIAL)
    else Accepted(payload, headers, FilterAllowed(payload))
  }

  /** Keys outside the allow-list never reach the new row, and removing them
      beforehand changes nothing. */
  lemma FilterIgnoresOtherKeys<V>(payload: map<string, V>, extra: set<string>)
    requires extra !! ALLOWED_FIELDS
    ensures FilterAllowed(payload - extra) == FilterAllowed(payload)
    ensures FilterAllowed(FilterAllowed(payload)) == FilterAllowed(payload)
  {
  }

  /** A payload with a name and a full name but no credential key is refused
      with "Either email or password must be provided". */
  lemma NoCredentialExample(payload: map<string, string>)
    requires payload == map["username" := "ab", "full_name" := "A"]
    ensures CreateUser(payload, map[]) == Rejected(MISSING_CREDENTIAL)
  {
    assert MANDATORY_FIELDS <= payload.Keys;
  }

  /** A credential key counts whatever its value, even an empty one. */
  lemma CredentialPresenceSuffices(payload: map<string, string>)
    requires payload == map["username" := "ab", "full_name" := "A", "email" := "", "role" := "admin"]
    ensures CreateUser(payload, map[]).Accepted?
    ensures CreateUser(payload, map[]).userFields == map["username" := "ab", "full_name" := "A", "email" := ""]
  {
    assert MANDATORY_FIELDS <= payload.Keys;
    assert "role" !in ALLOWED_FIELDS;
  }
}
