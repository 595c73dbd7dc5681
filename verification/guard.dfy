/** The auth-guard effect the protected pages run on mount: read the token,
    validate it, and only then load the page's data. */
module AuthGuard {
  import opened Wrappers
  import opened Effects
  import Http
  import Storage

  const LoginPath := "/login"

  /** How a page reacts to a missing or rejected token: the dashboard and
      users pages send the visitor to the login page, the posts page stays. */
  datatype Policy = Redirecting | Staying

  /** What happens when the page mounts: a missing or empty token ends the
      guard (redirecting under that policy); otherwise validation is requested. */
  function OnMount(token: Option<string>, p: Policy): (effects: seq<Effect>)
    ensures Http.HasToken(token) ==> effects == [Validate(token.value)]
    ensures !Http.HasToken(token) ==> effects == (if p == Redirecting then [Redirect(LoginPath)] else [])
  {
    if !Http.HasToken(token) then (if p == Redirecting then [Redirect(LoginPath)] else [])
    else [Validate(token.value)]
  }

  /** What happens when validation settles: load on success; otherwise drop
      the token (and redirect under that policy). */
  function OnValidated(valid: bool, p: Policy): (effects: seq<Effect>)
    ensures valid ==> effects == [Load]
    ensures !valid ==> effects == [RemoveToken] + (if p == Redirecting then [Redirect(LoginPath)] else [])
  {
    if valid then [Load]
    else [RemoveToken] + (if p == Redirecting then [Redirect(LoginPath)] else [])
  }

  /** The whole guard for a token and the validation result it would get.
      Validation is requested only with a token; the data load happens only
      after a successful validation; the token is removed only when
      validation fails; the visitor is redirected exactly when the page's
      policy says so and the guard did not pass. */
  function Guard(token: Option<string>, valid: bool, p: Policy): (effects: seq<Effect>)
    ensures Http.HasToken(token) <==> |effects| > 0 && effects[0].Validate?
    ensures Http.HasToken(token) ==> effects[0] == Validate(token.value)
    ensures Load in effects <==> Http.HasToken(token) && valid
    ensures Load in effects ==> effects == [Validate(token.value), Load]
    ensures !Http.HasToken(token) ==> effects == (if p == Redirecting then [Redirect(LoginPath)] else [])
    ensures Http.HasToken(token) && !valid ==>
      effects == [Validate(token.value), RemoveToken] + (if p == Redirecting then [Redirect(LoginPath)] else [])
    ensures Http.HasToken(token) && !valid && p == Staying ==> effects == [Validate(token.value), RemoveToken]
    ensures Http.HasToken(token) && !valid && p == Redirecting ==>
      effects == [Validate(token.value), RemoveToken, Redirect(LoginPath)]
    ensures RemoveToken in effects <==> Http.HasToken(token) && !valid
    ensures Redirect(LoginPath) in effects <==> p == Redirecting && !(Http.HasToken(token) && valid)
  {
    var first := OnMount(token, p);
    if Http.HasToken(token) then first + OnValidated(valid, p) else first
  }

  /** A stored token that fails validation is gone from storage afterwards,
      whichever policy the page follows. */
  lemma RejectedTokenIsForgotten(h: Storage.Host, p: Policy)
    requires Http.HasToken(Storage.GetToken(h, false))
    ensures Storage.GetToken(ApplyToStorage(h, Guard(Storage.GetToken(h, false), false, p)), false) == None
  {
    var token := Storage.GetToken(h, false);
    var effects := Guard(token, false, p);
    var h1 := Storage.RemoveToken(h, false);
    if p == Redirecting {
      assert effects == [Validate(token.value), RemoveToken, Redirect(LoginPath)];
      assert ApplyToStorage(h, effects) == ApplyToStorage(h, effects[1..]);
      assert ApplyToStorage(h, effects[1..]) == ApplyToStorage(h1, effects[2..]);
      assert ApplyToStorage(h1, effects[2..]) == ApplyToStorage(h1, effects[3..]);
    } else {
      assert effects == [Validate(token.value), RemoveToken];
      assert ApplyToStorage(h, effects) == ApplyToStorage(h, effects[1..]);
      assert ApplyToStorage(h, effects[1..]) == ApplyToStorage(h1, effects[2..]);
    }
  }
}
