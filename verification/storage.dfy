/** config/storage.ts: the admin token kept under one fixed localStorage key,
    behind functions that never throw. */
module Storage {
  import opened Wrappers

  const TokenKey := "casarancha_admin_token"

  /** Where the module runs: without a `window` (server rendering), or in a
      browser whose localStorage holds string entries. */
  datatype Host = Server | Browser(entries: map<string, string>)

  /** `getToken()`. `throws` says whether `localStorage.getItem` throws on this
      call; the exception is swallowed and reads as "no token". */
  function GetToken(h: Host, throws: bool): (r: Option<string>)
    ensures h.Server? || throws ==> r == None
    ensures r.Some? ==> h.Browser? && TokenKey in h.entries && r.value == h.entries[TokenKey]
    ensures h.Browser? && !throws && TokenKey in h.entries ==> r.Some?
  {
    if h.Server? || throws then None
    else if TokenKey in h.entries then Some(h.entries[TokenKey])
    else None
  }

  /** `setToken(token)`. Without a window, or when `setItem` throws, nothing
      changes; otherwise only the token entry is written. */
  function SetToken(h: Host, token: string, throws: bool): (h': Host)
    ensures h.Server? || throws ==> h' == h
    ensures h.Browser? && !throws ==>
      && h'.Browser?
      && h'.entries.Keys == h.entries.Keys + {TokenKey}
      && h'.entries[TokenKey] == token
      && (forall k :: k in h.entries && k != TokenKey ==> h'.entries[k] == h.entries[k])
  {
    if h.Server? || throws then h else Browser(h.entries[TokenKey := token])
  }

  /** `removeToken()`. Without a window, or when `removeItem` throws, nothing
      changes; otherwise only the token entry is dropped. */
  function RemoveToken(h: Host, throws: bool): (h': Host)
    ensures h.Server? || throws ==> h' == h
    ensures h.Browser? && !throws ==>
      && h'.Browser?
      && h'.entries.Keys == h.entries.Keys - {TokenKey}
      && (forall k :: k in h'.entries ==> h'.entries[k] == h.entries[k])
  {
    if h.Server? || throws then h else Browser(h.entries - {TokenKey})
  }

  /** A token written successfully is the token read back; a later write
      overwrites an earlier one, whether or not the earlier one took effect. */
  lemma SetThenGet(entries: map<string, string>, first: Option<string>, token: string)
    ensures GetToken(SetToken(Browser(entries), token, false), false) == Some(token)
    ensures first.Some? ==>
      GetToken(SetToken(SetToken(Browser(entries), first.value, false), token, false), false) == Some(token)
  {
  }

  /** After a successful removal no token is read, and a failed removal keeps
      whatever was stored. */
  lemma RemoveThenGet(h: Host)
    ensures GetToken(RemoveToken(h, false), false) == None
    ensures GetToken(RemoveToken(h, true), false) == GetToken(h, false)
  {
  }
}
