/**
 * The client-side helpers of `src/lib/auth.utils.ts`: the credential validators,
 * the token expiry test, and the `"auth_token"` entry of `localStorage`. When the
 * code runs without a `window` (on the server) there is no storage: the helpers
 * take a `Storage?` that is `null` in that case.
 */
module AuthUtils {
  import opened Wrappers
  import opened Js
  import opened Jwt
  import opened LocalStorage

  const TokenKey: string := "auth_token"

  // ---------------------------------------------------------------------------
  // validateEmail
  // ---------------------------------------------------------------------------

  /** A character of the class `[^\s@]`. */
  predicate EmailChar(c: char) {
    !IsWhitespace(c) && c != '@'
  }

  predicate EmailChars(s: string) {
    forall k | 0 <= k < |s| :: EmailChar(s[k])
  }

  /**
   * The strings `/^[^\s@]+@[^\s@]+\.[^\s@]+$/` matches: three non-empty runs of
   * `[^\s@]`, the first two joined by `@` at `i`, the last two by `.` at `j`.
   */
  ghost predicate EmailPattern(s: string) {
    exists i, j :: 0 < i && i + 1 < j && j + 1 < |s| && s[i] == '@' && s[j] == '.'
      && EmailChars(s[..i]) && EmailChars(s[i + 1..j]) && EmailChars(s[j + 1..])
  }

  /** The part after `@`: `[^\s@]+\.[^\s@]+`. */
  predicate ValidDomain(d: string) {
    EmailChars(d) && exists j | 0 < j < |d| - 1 :: d[j] == '.'
  }

  /** `validateEmail(email)`: a run of `[^\s@]`, an `@`, and a domain with an inner dot. */
  predicate ValidateEmail(email: string) {
    exists i | 0 < i < |email| :: email[i] == '@' && EmailChars(email[..i]) && ValidDomain(email[i + 1..])
  }

  lemma ValidateEmailSound(email: string)
    requires ValidateEmail(email)
    ensures EmailPattern(email)
  {
    var i :| 0 < i < |email| && email[i] == '@' && EmailChars(email[..i]) && ValidDomain(email[i + 1..]);
    var d := email[i + 1..];
    var j :| 0 < j < |d| - 1 && d[j] == '.';
    assert email[i + 1..i + 1 + j] == d[..j];
    assert email[i + 1 + j + 1..] == d[j + 1..];
    assert EmailChars(d[..j]) && EmailChars(d[j + 1..]);
    assert email[i + 1 + j] == '.';
  }

  /** Two runs of `[^\s@]` joined by a `.` make a domain. */
  lemma DomainOfRuns(a: string, b: string)
    requires a != [] && b != [] && EmailChars(a) && EmailChars(b)
    ensures ValidDomain(a + ['.'] + b)
  {
    var d := a + ['.'] + b;
    assert d[|a|] == '.';
    forall k | 0 <= k < |d|
      ensures EmailChar(d[k])
    {
      if k < |a| {
        assert d[k] == a[k];
      } else if k > |a| {
        assert d[k] == b[k - |a| - 1];
      }
    }
  }

  lemma SplitAt(s: string, i: nat, j: nat)
    requires i <= j < |s|
    ensures s[i..] == s[i..j] + [s[j]] + s[j + 1..]
  {
    assert s[i..] == s[i..j] + s[j..];
    assert s[j..] == [s[j]] + s[j + 1..];
  }

  lemma ValidateEmailComplete(email: string)
    requires EmailPattern(email)
    ensures ValidateEmail(email)
  {
    var i, j :| 0 < i && i + 1 < j && j + 1 < |email| && email[i] == '@' && email[j] == '.'
      && EmailChars(email[..i]) && EmailChars(email[i + 1..j]) && EmailChars(email[j + 1..]);
    DomainOfRuns(email[i + 1..j], email[j + 1..]);
    SplitAt(email, i + 1, j);
    assert email[i] == '@' && EmailChars(email[..i]) && ValidDomain(email[i + 1..]);
  }

  /** `validateEmail` accepts exactly the strings the regular expression matches. */
  lemma ValidateEmailMatchesPattern(email: string)
    ensures ValidateEmail(email) <==> EmailPattern(email)
  {
    if ValidateEmail(email) {
      ValidateEmailSound(email);
    }
    if EmailPattern(email) {
      ValidateEmailComplete(email);
    }
  }

  /** No whitespace, exactly one `@` (not first), and a `.` strictly inside the part after it. */
  predicate EmailShaped(s: string) {
    && (forall k | 0 <= k < |s| :: !IsWhitespace(s[k]))
    && (exists i | 0 < i < |s| :: s[i] == '@'
          && (forall k | 0 <= k < |s| && k != i :: s[k] != '@')
          && (exists j | i + 1 < j < |s| - 1 :: s[j] == '.'))
  }

  lemma EmailShapeSound(s: string)
    requires ValidateEmail(s)
    ensures EmailShaped(s)
  {
    var i :| 0 < i < |s| && s[i] == '@' && EmailChars(s[..i]) && ValidDomain(s[i + 1..]);
    var d := s[i + 1..];
    var j :| 0 < j < |d| - 1 && d[j] == '.';
    assert s[i + 1 + j] == '.';
    forall k | 0 <= k < |s| && k != i
      ensures s[k] != '@' && !IsWhitespace(s[k])
    {
      if k < i {
        assert s[k] == s[..i][k];
      } else {
        assert s[k] == d[k - i - 1];
      }
    }
  }

  lemma EmailShapeComplete(s: string)
    requires EmailShaped(s)
    ensures ValidateEmail(s)
  {
    var i :| 0 < i < |s| && s[i] == '@'
          && (forall k | 0 <= k < |s| && k != i :: s[k] != '@')
          && (exists j | i + 1 < j < |s| - 1 :: s[j] == '.');
    var j :| i + 1 < j < |s| - 1 && s[j] == '.';
    var d := s[i + 1..];
    forall k | 0 <= k < i
      ensures EmailChar(s[..i][k])
    {
      assert s[..i][k] == s[k];
    }
    forall k | 0 <= k < |d|
      ensures EmailChar(d[k])
    {
      assert d[k] == s[i + 1 + k];
    }
    assert d[j - i - 1] == '.';
    assert ValidDomain(d);
  }

  /**
   * The shape the pattern amounts to: no whitespace, exactly one `@`, not first,
   * and a `.` after it that is neither the first nor the last character of the domain.
   */
  lemma EmailShape(s: string)
    ensures ValidateEmail(s) <==> EmailShaped(s)
  {
    if ValidateEmail(s) {
      EmailShapeSound(s);
    }
    if EmailShaped(s) {
      EmailShapeComplete(s);
    }
  }

  // ---------------------------------------------------------------------------
  // validatePassword
  // ---------------------------------------------------------------------------

  const PasswordTooShort: string := "Password must be at least 6 characters long"

  /** `validatePassword(password)`: an error message, or `None` (`null`) when acceptable. */
  function ValidatePassword(password: string): (r: Option<string>)
    ensures r.Some? <==> |password| < 6
    ensures r.Some? ==> r.value == PasswordTooShort
  {
    if |password| < 6 then Some(PasswordTooShort) else None
  }

  // ---------------------------------------------------------------------------
  // Expiry
  // ---------------------------------------------------------------------------

  /**
   * `isTokenExpired(token)`: `exp * 1000 < Date.now()`. Without `exp` the product is
   * `NaN`, the comparison false, and the token counts as unexpired.
   */
  predicate IsTokenExpired(token: Claims, now: int) {
    token.exp.Some? && token.exp.value * 1000 < now
  }

  /**
   * `isTokenValid(token)`, with `decode` standing for `decodeToken` (`jwtDecode`
   * with its exception turned into `None`).
   */
  predicate IsTokenValid(token: string, decode: string -> Option<Claims>, now: int) {
    decode(token).Some? && !IsTokenExpired(decode(token).value, now)
  }

  /** A token is unexpired up to and including the millisecond its `exp` second starts. */
  lemma ExpiryBoundary(token: Claims, now: int)
    requires token.exp.Some?
    ensures IsTokenExpired(token, now) <==> token.exp.value * 1000 + 1 <= now
    ensures !IsTokenExpired(token, token.exp.value * 1000)
    ensures IsTokenExpired(token, now) ==> forall later :: later >= now ==> IsTokenExpired(token, later)
  {
  }

  // ---------------------------------------------------------------------------
  // The "auth_token" entry
  // ---------------------------------------------------------------------------

  /** `getStoredToken()`: `null` without a window, else the stored entry. */
  function GetStoredToken(window: Storage?): (r: Option<string>)
    reads window
    ensures window == null ==> r == None
    ensures window != null ==> (r.Some? <==> TokenKey in window.items)
    ensures r.Some? ==> window != null && r.value == window.items[TokenKey]
  {
    if window == null then None else window.GetItem(TokenKey)
  }

  /** `saveToken(token)`: afterwards the stored token is `token`; no other key changes. */
  method SaveToken(window: Storage?, token: string)
    modifies window
    ensures window != null ==> window.items == old(window.items)[TokenKey := token]
    ensures window != null ==> GetStoredToken(window) == Some(token)
  {
    if window != null {
      window.SetItem(TokenKey, token);
    }
  }

  /** `clearAuth()`: afterwards there is no stored token; no other key changes. */
  method ClearAuth(window: Storage?)
    modifies window
    ensures window != null ==> window.items == old(window.items) - {TokenKey}
    ensures GetStoredToken(window) == None
  {
    if window != null {
      window.RemoveItem(TokenKey);
    }
  }

  /**
   * `getCurrentUser()`: the claims of the stored token when it decodes and is
   * unexpired. A stored token that is present but not valid is removed; otherwise
   * storage is left alone.
   */
  method GetCurrentUser(window: Storage?, decode: string -> Option<Claims>, now: int)
    returns (user: Option<Claims>)
    modifies window
    ensures var stored := old(GetStoredToken(window));
      user == (if Truthy(stored) && IsTokenValid(stored.value, decode, now) then decode(stored.value) else None)
    ensures user.Some? ==> !IsTokenExpired(user.value, now)
    ensures window != null ==>
      var stored := old(GetStoredToken(window));
      window.items == (if Truthy(stored) && !IsTokenValid(stored.value, decode, now)
                       then old(window.items) - {TokenKey} else old(window.items))
  {
    var token := GetStoredToken(window);
    if !Truthy(token) {
      return None;
    }
    if !IsTokenValid(token.value, decode, now) {
      ClearAuth(window);
      return None;
    }
    return decode(token.value);
  }
}
