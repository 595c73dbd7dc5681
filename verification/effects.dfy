/** What a page handler does besides updating its own state: navigation,
    token writes, and the requests it issues. */
module Effects {
  import opened Wrappers
  import Storage

  /** An effect a handler emits, in the order it emits them. `Load` is the
      page's own first data request (`fetchPage(1, true)` or the stats load). */
  datatype Effect =
    | Redirect(path: string)
    | StoreToken(token: string)
    | RemoveToken
    | Validate(token: string)
    | Load

  /** The synchronous part of a handler: the next state and the request it
      issued, if any. */
  datatype Step<S, Q> = Step(next: S, issued: Option<Q>)

  /** Whether an effect writes the token cell. */
  predicate WritesToken(e: Effect) {
    e.StoreToken? || e.RemoveToken?
  }

  /** The last effect of a sequence that writes the token cell, if any. */
  function LastTokenWrite(effects: seq<Effect>): (w: Option<Effect>)
    ensures w.Some? ==> WritesToken(w.value) && w.value in effects
    decreases |effects|
  {
    if effects == [] then None
    else if WritesToken(effects[|effects| - 1]) then Some(effects[|effects| - 1])
    else LastTokenWrite(effects[..|effects| - 1])
  }

  /** The last token write, found from the front: the last one of the rest
      when the rest has one, else the first effect when it writes the token. */
  lemma {:induction false} LastTokenWriteFront(effects: seq<Effect>)
    requires effects != []
    ensures LastTokenWrite(effects) ==
      if LastTokenWrite(effects[1..]).Some? then LastTokenWrite(effects[1..])
      else if WritesToken(effects[0]) then Some(effects[0])
      else None
    decreases |effects|
  {
    var n := |effects|;
    if n == 1 {
      assert effects[1..] == [];
      assert effects[..0] == [];
    } else if !WritesToken(effects[n - 1]) {
      var init := effects[..n - 1];
      LastTokenWriteFront(init);
      assert init[1..] == effects[1..][..n - 2];
      assert effects[1..][n - 2] == effects[n - 1];
    } else {
      assert effects[1..][n - 2] == effects[n - 1];
    }
  }

  /** Runs the token effects against the browser's storage, with no storage
      faults; navigation and requests leave storage alone. The last token
      write decides what is read afterwards, and no other entry changes. */
  function ApplyToStorage(h: Storage.Host, effects: seq<Effect>): (r: Storage.Host)
    ensures h.Server? ==> r == h
    ensures h.Browser? ==> r.Browser?
    ensures h.Browser? ==>
      forall k :: k in h.entries && k != Storage.TokenKey ==> k in r.entries && r.entries[k] == h.entries[k]
    ensures h.Browser? ==>
      forall k :: k in r.entries && k != Storage.TokenKey ==> k in h.entries
    ensures LastTokenWrite(effects).None? ==> r == h
    ensures h.Browser? && LastTokenWrite(effects).Some? ==>
      Storage.GetToken(r, false) ==
        (if LastTokenWrite(effects).value.StoreToken? then Some(LastTokenWrite(effects).value.token) else None)
    decreases |effects|
  {
    if effects == [] then h
    else
      var h' := match effects[0]
        case StoreToken(t) => Storage.SetToken(h, t, false)
        case RemoveToken => Storage.RemoveToken(h, false)
        case _ => h;
      LastTokenWriteFront(effects);
      ApplyToStorage(h', effects[1..])
  }
}
