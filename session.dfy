/** The session helpers every page uses: the periodic renewal of the
    session id, the single-use CSRF token, and the login and role gates. */
module Sessions {
  import opened Wrappers

  /** Seconds after which `session_start_secure` renews the session id. */
  const RenewAfter: int := 1800

  const LoginRequiredMessage: string := "ログインが必要です。"
  const NoPermissionMessage: string := "このページにアクセスする権限がありません。"

  /** The default targets of `require_login` and `require_role`. */
  const LoginPage: string := "login.php"
  const AnalysisPage: string := "analysis.php"

  /** What a gate does: let the page go on, or redirect and end the request. */
  datatype Gate = Continue | Redirect(url: string)

  // ---------------------------------------------------------------------
  // Tokens

  /** One of the bytes `random_bytes` returns. */
  newtype byte = x: int | 0 <= x < 256

  /** The lower-case hexadecimal digit of a nibble. */
  function HexDigit(n: int): char
    requires 0 <= n < 16
  {
    if n < 10 then ('0' as int + n) as char else ('a' as int + n - 10) as char
  }

  /** The nibble of a lower-case hexadecimal digit. */
  function HexValue(c: char): int
  {
    if '0' <= c <= '9' then c as int - '0' as int
    else if 'a' <= c <= 'f' then c as int - 'a' as int + 10
    else 0
  }

  /** The two digits of one byte, high nibble first. */
  function HexPair(b: byte): string
  {
    [HexDigit(b as int / 16), HexDigit(b as int % 16)]
  }

  /** The byte a pair of digits stands for. */
  function PairValue(hi: char, lo: char): byte
  {
    ((HexValue(hi) * 16 + HexValue(lo)) % 256) as byte
  }

  /** `bin2hex`: two lower-case hexadecimal digits per byte, high nibble first. */
  function Hex(bytes: seq<byte>): (s: string)
    ensures |s| == 2 * |bytes|
    decreases |bytes|
  {
    if bytes == [] then []
    else Hex(bytes[..|bytes| - 1]) + HexPair(bytes[|bytes| - 1])
  }

  /** Reads pairs of hexadecimal digits back into bytes. */
  function Unhex(s: string): seq<byte>
    requires |s| % 2 == 0
    decreases |s|
  {
    if s == [] then []
    else Unhex(s[..|s| - 2]) + [PairValue(s[|s| - 2], s[|s| - 1])]
  }

  lemma HexDigitValue(n: int)
    requires 0 <= n < 16
    ensures HexValue(HexDigit(n)) == n
  {
  }

  /** Reading a token back gives the random bytes it encodes. */
  lemma {:induction false} UnhexHex(bytes: seq<byte>)
    ensures Unhex(Hex(bytes)) == bytes
    decreases |bytes|
  {
    if bytes != [] {
      var init, last := bytes[..|bytes| - 1], bytes[|bytes| - 1];
      var s := Hex(bytes);
      assert s == Hex(init) + HexPair(last);
      assert s[..|s| - 2] == Hex(init);
      UnhexHex(init);
      PairOfByte(last);
      assert bytes == init + [last];
    }
  }

  /** The two digits of a byte read back as that byte. */
  lemma PairOfByte(x: byte)
    ensures PairValue(HexPair(x)[0], HexPair(x)[1]) == x
  {
    var b := x as int;
    HexDigitValue(b / 16);
    HexDigitValue(b % 16);
    assert (b / 16) * 16 + b % 16 == b;
  }

  /** Different random bytes give different tokens. */
  lemma HexInjective(a: seq<byte>, b: seq<byte>)
    ensures Hex(a) == Hex(b) <==> a == b
  {
    if Hex(a) == Hex(b) {
      UnhexHex(a);
      UnhexHex(b);
    }
  }

  /** PHP's `empty()` on a `?string`: null, the empty string and "0". */
  predicate Blank(token: Option<string>)
  {
    token.None? || token.value == "" || token.value == "0"
  }

  /** The result of `validate_csrf_token`, from the stored and the given token. */
  predicate TokenAccepted(stored: Option<string>, token: Option<string>)
  {
    !Blank(token) && stored.Some? && stored.value == token.value
  }

  /** A token made from at least one random byte passes validation against
      itself; with no token stored, or with a different one, nothing passes. */
  lemma TokenAcceptance(bytes: seq<byte>, other: seq<byte>, token: Option<string>)
    ensures |bytes| > 0 ==> TokenAccepted(Some(Hex(bytes)), Some(Hex(bytes)))
    ensures !TokenAccepted(None, token)
    ensures TokenAccepted(Some(Hex(bytes)), Some(Hex(other))) ==> bytes == other
  {
    if |bytes| > 0 {
      assert |Hex(bytes)| >= 2;
      assert Hex(bytes) != "0" && Hex(bytes) != "";
    }
    HexInjective(bytes, other);
  }

  // ---------------------------------------------------------------------
  // Renewal

  /** The `created_at` stamp after `session_start_secure` at time now, and
      whether the session id was renewed. */
  function Renewal(createdAt: Option<int>, now: int): (r: (int, bool))
    ensures r.1 <==> createdAt.Some? && now - createdAt.value > RenewAfter
    ensures r.0 == (if createdAt.None? || r.1 then now else createdAt.value)
    ensures now - r.0 <= RenewAfter
  {
    if createdAt.None? then (now, false)
    else if now - createdAt.value > RenewAfter then (now, true)
    else (createdAt.value, false)
  }

  /** After a renewal the stamp is at most the renewal window old until
      that much time passes again: starting twice at the same time renews at most once. */
  lemma RenewalIdempotent(createdAt: Option<int>, now: int)
    ensures var (stamp, _) := Renewal(createdAt, now);
      Renewal(Some(stamp), now) == (stamp, false)
  {
  }

  // ---------------------------------------------------------------------
  // Gates

  /** `require_login`. */
  function LoginGate(user: Option<string>, redirectTo: string): (g: Gate)
    ensures g == Continue <==> user.Some?
    ensures g.Redirect? ==> g.url == redirectTo
  {
    if user.None? then Redirect(redirectTo) else Continue
  }

  /** `require_role`: `require_login` with its default target first, then the
      strict membership of the role in the allowed list. */
  function RoleGate(user: Option<string>, role: Option<string>, allowed: seq<string>, redirectTo: string): Gate
  {
    if user.None? then Redirect(LoginPage)
    else if role.None? || role.value !in allowed then Redirect(redirectTo)
    else Continue
  }

  /** The role gate lets the page go on exactly for a logged-in user whose
      role is one of the allowed ones; a visitor who is not logged in goes
      to the login page, a logged-in one without the role to the given page. */
  lemma RoleGateMeaning(user: Option<string>, role: Option<string>, allowed: seq<string>, redirectTo: string)
    ensures RoleGate(user, role, allowed, redirectTo) == Continue <==>
      LoginGate(user, LoginPage) == Continue && role.Some? && role.value in allowed
    ensures user.None? ==> RoleGate(user, role, allowed, redirectTo) == Redirect(LoginPage)
    ensures user.Some? && !(role.Some? && role.value in allowed) ==>
      RoleGate(user, role, allowed, redirectTo) == Redirect(redirectTo)
  {
  }

  /** The session variables the helpers read and write, and the number of
      times the session id has been renewed. */
  class Session {
    var csrfToken: Option<string>
    var createdAt: Option<int>
    var user: Option<string>
    var role: Option<string>
    var error: Option<string>
    var renewals: nat

    /** A fresh session of the given user and role. */
    constructor(user: Option<string>, role: Option<string>)
      ensures this.user == user && this.role == role
      ensures csrfToken.None? && createdAt.None? && error.None? && renewals == 0
    {
      this.user, this.role := user, role;
      csrfToken, createdAt, error, renewals := None, None, None, 0;
    }

    /** The `created_at` handling of `session_start_secure` at time now. */
    method Start(now: int)
      modifies this
      ensures createdAt == Some(Renewal(old(createdAt), now).0)
      ensures renewals == old(renewals) + (if Renewal(old(createdAt), now).1 then 1 else 0)
      ensures csrfToken == old(csrfToken) && user == old(user) && role == old(role) && error == old(error)
    {
      if createdAt.None? {
        createdAt := Some(now);
      } else if now - createdAt.value > RenewAfter {
        renewals := renewals + 1;
        createdAt := Some(now);
      }
    }

    /** `generate_csrf_token`, given what `random_bytes(32)` returned. */
    method GenerateCsrfToken(randomBytes: seq<byte>) returns (token: string)
      modifies this
      ensures token == Hex(randomBytes) && csrfToken == Some(token)
      ensures createdAt == old(createdAt) && user == old(user) && role == old(role)
      ensures error == old(error) && renewals == old(renewals)
    {
      token := Hex(randomBytes);
      csrfToken := Some(token);
    }

    /** `validate_csrf_token`: a token that passes is removed. */
    method ValidateCsrfToken(token: Option<string>) returns (ok: bool)
      modifies this
      ensures ok == TokenAccepted(old(csrfToken), token)
      ensures csrfToken == (if ok then None else old(csrfToken))
      ensures createdAt == old(createdAt) && user == old(user) && role == old(role)
      ensures error == old(error) && renewals == old(renewals)
    {
      if token.None? || token.value == "" || token.value == "0" || csrfToken.None? || csrfToken.value != token.value {
        return false;
      }
      csrfToken := None;
      return true;
    }

    /** `require_login`: sets the login message before redirecting. */
    method RequireLogin(redirectTo: string) returns (gate: Gate)
      modifies this
      ensures gate == LoginGate(user, redirectTo)
      ensures error == (if gate.Redirect? then Some(LoginRequiredMessage) else old(error))
      ensures csrfToken == old(csrfToken) && createdAt == old(createdAt) && user == old(user)
      ensures role == old(role) && renewals == old(renewals)
    {
      if user.None? {
        error := Some(LoginRequiredMessage);
        return Redirect(redirectTo);
      }
      return Continue;
    }

    /** `require_role`: the login gate with its default target, then the role. */
    method RequireRole(allowed: seq<string>, redirectTo: string) returns (gate: Gate)
      modifies this
      ensures gate == RoleGate(user, role, allowed, redirectTo)
      ensures error == (if user.None? then Some(LoginRequiredMessage)
                        else if gate.Redirect? then Some(NoPermissionMessage) else old(error))
      ensures csrfToken == old(csrfToken) && createdAt == old(createdAt) && user == old(user)
      ensures role == old(role) && renewals == old(renewals)
    {
      gate := RequireLogin(LoginPage);
      if gate.Redirect? {
        return;
      }
      if role.None? || role.value !in allowed {
        error := Some(NoPermissionMessage);
        return Redirect(redirectTo);
      }
    }
  }

  /** A generated token passes validation once: the form that posts it back
      is accepted, and posting it again is refused. */
  method TokenUsedOnce(s: Session, randomBytes: seq<byte>) returns (first: bool, second: bool)
    requires |randomBytes| == 32
    modifies s
    ensures first && !second
    ensures s.csrfToken.None?
  {
    var token := s.GenerateCsrfToken(randomBytes);
    TokenAcceptance(randomBytes, randomBytes, Some(token));
    first := s.ValidateCsrfToken(Some(token));
    second := s.ValidateCsrfToken(Some(token));
  }
}
