/**
 * `tokenUtils` of `src/lib/tokenUtils.ts`: a second set of helpers over the same
 * `"auth_token"` entry. Unlike `AuthUtils` they do not check for a window, and their
 * validity test is strict at the expiry instant.
 */
module TokenUtils {
  import opened Wrappers
  import opened Js
  import opened Jwt
  import opened LocalStorage
  import AuthUtils

  const TokenKey: string := "auth_token"

  /** `tokenUtils.save(token)`. */
  method Save(storage: Storage, token: string)
    modifies storage
    ensures storage.items == old(storage.items)[TokenKey := token]
    ensures Get(storage) == Some(token)
  {
    storage.SetItem(TokenKey, token);
  }

  /** `tokenUtils.get()`. */
  function Get(storage: Storage): (r: Option<string>)
    reads storage
    ensures r.Some? <==> TokenKey in storage.items
    ensures r.Some? ==> r.value == storage.items[TokenKey]
  {
    storage.GetItem(TokenKey)
  }

  /** `tokenUtils.remove()`. */
  method Remove(storage: Storage)
    modifies storage
    ensures storage.items == old(storage.items) - {TokenKey}
    ensures Get(storage) == None
  {
    storage.RemoveItem(TokenKey);
  }

  /**
   * `tokenUtils.isValid(token)`, with `decode` standing for `tokenUtils.decode`:
   * the token decodes and `exp * 1000 > Date.now()`. Without `exp` the comparison
   * is with `NaN` and fails.
   */
  predicate IsValid(token: string, decode: string -> Option<Claims>, now: int) {
    decode(token).Some? && decode(token).value.exp.Some? && decode(token).value.exp.value * 1000 > now
  }

  /**
   * The two helpers disagree exactly on tokens that decode and either have no
   * `exp` or expire at this very millisecond: `AuthUtils` accepts those, `TokenUtils`
   * does not. Everywhere else they agree.
   */
  lemma ValidityAgreement(token: string, decode: string -> Option<Claims>, now: int)
    ensures IsValid(token, decode, now) ==> AuthUtils.IsTokenValid(token, decode, now)
    ensures AuthUtils.IsTokenValid(token, decode, now) && !IsValid(token, decode, now) <==>
      decode(token).Some? && (decode(token).value.exp.None? || decode(token).value.exp.value * 1000 == now)
  {
  }

  /**
   * `tokenUtils.getCurrent()`: the decoded claims of a stored, valid token. A token
   * that is present but not valid is removed; otherwise storage is left alone.
   */
  method GetCurrent(storage: Storage, decode: string -> Option<Claims>, now: int)
    returns (user: Option<Claims>)
    modifies storage
    ensures var stored := old(Get(storage));
      user == (if Truthy(stored) && IsValid(stored.value, decode, now) then decode(stored.value) else None)
    ensures user.Some? ==> user.value.exp.Some? && user.value.exp.value * 1000 > now
    ensures var stored := old(Get(storage));
      storage.items == (if Truthy(stored) && !IsValid(stored.value, decode, now)
                        then old(storage.items) - {TokenKey} else old(storage.items))
  {
    var token := Get(storage);
    if !Truthy(token) {
      return None;
    }
    if !IsValid(token.value, decode, now) {
      Remove(storage);
      return None;
    }
    return decode(token.value);
  }
}
