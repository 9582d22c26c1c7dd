/**
 * The API-key gate of the mutating endpoints: the value of the `X-API-Key`
 * request header (None when the header is absent) is compared with one fixed
 * secret. Read endpoints carry no key at all.
 */
module Auth {
  import opened Wrappers

  const Secret: string := "your_secret_key"

  /** `ApiKey.authenticate`: returns the key when it equals the secret exactly, None otherwise. */
  function Authenticate(key: Option<string>): Option<string> {
    if key == Some(Secret) then key else None
  }

  /** The framework admits the request when `authenticate` returns a truthy value. */
  predicate Admitted(key: Option<string>) {
    Authenticate(key).Some? && Authenticate(key).value != ""
  }

  /** Exactly one credential opens the gate: the secret itself, compared character by character. */
  lemma AdmittedIffSecret(key: Option<string>)
    ensures Admitted(key) <==> key == Some(Secret)
    ensures Admitted(key) ==> Authenticate(key) == key
  {
  }
}
