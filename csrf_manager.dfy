/**
 * Per-user anti-forgery tokens bound into inline-button callback data (csrf_manager.py).
 * A token is stored with an expiry one hour ahead; binding appends `|csrf:<token>` to an
 * action, and extraction splits at the LAST delimiter and checks the token against the
 * clicking user's own, unexpired token. Validation never rotates the token.
 */
module Csrf {
  import opened Wrappers
  import opened Text
  import opened Sets

  /** The separator between an action and its token in callback data. */
  const Delimiter: string := "|csrf:"

  /** Seconds a token stays valid after it is generated. */
  const TokenLifetime: int := 3600

  /** The alphabet of `secrets.token_urlsafe`: letters, digits, '-' and '_'. */
  predicate UrlSafeChar(c: char) {
    'A' <= c <= 'Z' || 'a' <= c <= 'z' || '0' <= c <= '9' || c == '-' || c == '_'
  }

  /** What `secrets.token_urlsafe(8)` can return: a non-empty URL-safe string. */
  predicate UrlSafeToken(t: string) {
    |t| > 0 && forall i :: 0 <= i < |t| ==> UrlSafeChar(t[i])
  }

  /** `f"{data}|csrf:{token}"`: the action, the delimiter right after it, then the token. */
  function Bind(data: string, token: string): string {
    data + Delimiter + token
  }

  /** `s.rsplit("|csrf:", 1)` as (action, token), or None when `"|csrf:"` is not in `s`. */
  function Unbind(s: string): (r: Option<(string, string)>)
    ensures r.None? <==> !Contains(s, Delimiter)
    ensures r.Some? ==> s == Bind(r.value.0, r.value.1)
    ensures r.Some? ==> forall k :: |r.value.0| < k ==> !IsAt(s, Delimiter, k)
  {
    RSplitLast(s, Delimiter)
  }

  /** Unbinding what was bound gives back the action and the token, whatever the action
      contains (even the delimiter itself), provided the token has no '|'. */
  lemma UnbindBind(data: string, token: string)
    requires forall i :: 0 <= i < |token| ==> token[i] != '|'
    ensures Unbind(Bind(data, token)) == Some((data, token))
  {
    var s := Bind(data, token);
    assert forall k :: |data| < k < |s| ==> s[k] != '|' by {
      forall k | |data| < k < |s| ensures s[k] != '|' {
        if k < |data| + |Delimiter| {
          assert s[k] == Delimiter[k - |data|];
        } else {
          assert s[k] == token[k - |data| - |Delimiter|];
        }
      }
    }
    assert IsAt(s, Delimiter, |data|);
    var r := Unbind(s).value;
    assert IsAt(s, Delimiter, |r.0|) by {
      assert s[|r.0|..|r.0| + |Delimiter|] == Delimiter;
    }
    assert s[|r.0|] == Delimiter[0];
    assert |r.0| == |data|;
    assert r.0 == s[..|data|] == data;
    assert r.1 == s[|data| + |Delimiter|..] == token;
  }

  /** The token `add_csrf_to_callback_data` binds for `u` at `now`: the user's unexpired
      token, or `newToken` (a newly generated one) when it is absent or expired. */
  function BindingToken(tokens: map<int, string>, expiry: map<int, int>, u: int, newToken: string, now: int): (r: string)
    ensures u in tokens && u in expiry && now <= expiry[u] ==> r == tokens[u]
    ensures !(u in tokens && u in expiry && now <= expiry[u]) ==> r == newToken
  {
    if u in tokens && u in expiry && now <= expiry[u] then tokens[u] else newToken
  }

  /** The token map after one binding for `u` at `now`. */
  function TokensAfterBind(tokens: map<int, string>, expiry: map<int, int>, u: int, newToken: string, now: int): map<int, string> {
    tokens[u := BindingToken(tokens, expiry, u, newToken, now)]
  }

  /** The expiry map after one binding for `u` at `now`: extended only when a token was generated. */
  function ExpiryAfterBind(tokens: map<int, string>, expiry: map<int, int>, u: int, newToken: string, now: int): map<int, int> {
    if u in tokens && u in expiry && now <= expiry[u] then expiry else expiry[u := now + TokenLifetime]
  }

  /** A second binding at the same moment reuses the first one's token and changes nothing,
      so every button of one keyboard carries the same token. */
  lemma BindAgain(tokens: map<int, string>, expiry: map<int, int>, u: int, newToken: string, newToken2: string, now: int)
    ensures var t1 := TokensAfterBind(tokens, expiry, u, newToken, now);
            var e1 := ExpiryAfterBind(tokens, expiry, u, newToken, now);
            && BindingToken(t1, e1, u, newToken2, now) == BindingToken(tokens, expiry, u, newToken, now)
            && TokensAfterBind(t1, e1, u, newToken2, now) == t1
            && ExpiryAfterBind(t1, e1, u, newToken2, now) == e1
  {
  }

  /** What `extract_callback_data` returns for user `u` and callback data `s`: the action
      before the LAST delimiter when the token after it is `u`'s unexpired token; None when
      the delimiter is absent, or the token differs (another user's, tampered) or has expired. */
  function Extracted(tokens: map<int, string>, expiry: map<int, int>, u: int, s: string, now: int): (r: Option<string>)
    ensures r.Some? ==> Unbind(s).Some? && r.value == Unbind(s).value.0
    ensures r.Some? <==> Unbind(s).Some? && u in tokens && u in expiry && now <= expiry[u] && tokens[u] == Unbind(s).value.1
  {
    match Unbind(s)
    case None => None
    case Some((data, token)) =>
      if u in tokens && u in expiry && now <= expiry[u] && tokens[u] == token then Some(data) else None
  }

  /** Round trip: data bound with `u`'s unexpired token is extracted unchanged for `u`. */
  lemma ExtractBound(tokens: map<int, string>, expiry: map<int, int>, u: int, data: string, now: int)
    requires u in tokens && u in expiry && now <= expiry[u] && UrlSafeToken(tokens[u])
    ensures Extracted(tokens, expiry, u, Bind(data, tokens[u]), now) == Some(data)
  {
    UnbindBind(data, tokens[u]);
  }

  /** Data bound with any other token (another user's, a guessed one) is rejected for `u`,
      and so is data bound with `u`'s own token once it has expired. */
  lemma ExtractRejectsForeignToken(tokens: map<int, string>, expiry: map<int, int>, u: int, data: string, token: string, now: int)
    requires UrlSafeToken(token)
    requires u in tokens ==> tokens[u] != token || (u in expiry && now > expiry[u])
    ensures Extracted(tokens, expiry, u, Bind(data, token), now) == None
  {
    UnbindBind(data, token);
  }

  /** Users whose token has expired at `now`. */
  function ExpiredUsers(expiry: map<int, int>, now: int): set<int> {
    set u | u in expiry && now > expiry[u]
  }

  class CsrfManager {
    var userTokens: map<int, string>
    var tokenExpiry: map<int, int>

    /** Both maps cover the same users, and every stored token is URL-safe. */
    ghost predicate Valid()
      reads this
    {
      && userTokens.Keys == tokenExpiry.Keys
      && forall u :: u in userTokens ==> UrlSafeToken(userTokens[u])
    }

    /** `u` holds a token that has not expired at `now`. */
    predicate HasLiveToken(u: int, now: int)
      reads this
    {
      u in userTokens && u in tokenExpiry && now <= tokenExpiry[u]
    }

    /** `u` holds a token that has expired at `now` (`now > expiry`). */
    predicate HasExpiredToken(u: int, now: int)
      reads this
    {
      u in tokenExpiry && now > tokenExpiry[u]
    }

    constructor ()
      ensures Valid()
      ensures userTokens == map[] && tokenExpiry == map[]
    {
      userTokens := map[];
      tokenExpiry := map[];
    }

    /** `generate_token`: the random token is the argument `token`. */
    method GenerateToken(u: int, token: string, now: int) returns (t: string)
      requires Valid() && UrlSafeToken(token)
      modifies this
      ensures Valid() && t == token
      ensures userTokens == old(userTokens)[u := token]
      ensures tokenExpiry == old(tokenExpiry)[u := now + TokenLifetime]
    {
      userTokens := userTokens[u := token];
      tokenExpiry := tokenExpiry[u := now + TokenLifetime];
      t := token;
    }

    /** `refresh_token`: a new token, unconditionally. */
    method RefreshToken(u: int, token: string, now: int) returns (t: string)
      requires Valid() && UrlSafeToken(token)
      modifies this
      ensures Valid() && t == token
      ensures userTokens == old(userTokens)[u := token]
      ensures tokenExpiry == old(tokenExpiry)[u := now + TokenLifetime]
    {
      t := GenerateToken(u, token, now);
    }

    /** `_cleanup_user_token`: forgets `u` in both maps. */
    method CleanupUserToken(u: int)
      modifies this
      ensures userTokens == old(userTokens) - {u}
      ensures tokenExpiry == old(tokenExpiry) - {u}
      ensures old(Valid()) ==> Valid()
    {
      if u in userTokens {
        userTokens := userTokens - {u};
      }
      if u in tokenExpiry {
        tokenExpiry := tokenExpiry - {u};
      }
    }

    /** `validate_token`: true iff `u` has an unexpired token equal to `token`;
        an expired token is deleted, and a valid one is NOT rotated. */
    method ValidateToken(u: int, token: string, now: int) returns (ok: bool)
      requires Valid()
      modifies this
      ensures Valid()
      ensures ok <==> old(HasLiveToken(u, now)) && old(userTokens)[u] == token
      ensures old(HasExpiredToken(u, now)) ==>
        userTokens == old(userTokens) - {u} && tokenExpiry == old(tokenExpiry) - {u}
      ensures !old(HasExpiredToken(u, now)) ==>
        userTokens == old(userTokens) && tokenExpiry == old(tokenExpiry)
    {
      if u !in userTokens {
        return false;
      }
      if now > tokenExpiry[u] {
        CleanupUserToken(u);
        return false;
      }
      if userTokens[u] != token {
        return false;
      }
      return true;
    }

    /** `get_user_token`: the unexpired token of `u`, or None; an expired one is deleted. */
    method GetUserToken(u: int, now: int) returns (t: Option<string>)
      requires Valid()
      modifies this
      ensures Valid()
      ensures t == if old(HasLiveToken(u, now)) then Some(old(userTokens)[u]) else None
      ensures old(HasExpiredToken(u, now)) ==>
        userTokens == old(userTokens) - {u} && tokenExpiry == old(tokenExpiry) - {u}
      ensures !old(HasExpiredToken(u, now)) ==>
        userTokens == old(userTokens) && tokenExpiry == old(tokenExpiry)
    {
      if u !in userTokens {
        return None;
      }
      if now > tokenExpiry[u] {
        CleanupUserToken(u);
        return None;
      }
      return Some(userTokens[u]);
    }

    /** `cleanup_expired_tokens`: collects the expired users, then deletes exactly them. */
    method CleanupExpiredTokens(now: int)
      requires Valid()
      modifies this
      ensures Valid()
      ensures userTokens == old(userTokens) - ExpiredUsers(old(tokenExpiry), now)
      ensures tokenExpiry == old(tokenExpiry) - ExpiredUsers(old(tokenExpiry), now)
    {
      var expired: set<int> := {};
      var unseen := tokenExpiry.Keys;
      while unseen != {}
        invariant userTokens == old(userTokens) && tokenExpiry == old(tokenExpiry)
        invariant unseen <= tokenExpiry.Keys
        invariant expired == ExpiredUsers(tokenExpiry, now) - unseen
        decreases unseen
      {
        ghost var w := Pick(unseen);
        var u :| u in unseen;
        if now > tokenExpiry[u] {
          expired := expired + {u};
        }
        unseen := unseen - {u};
      }
      var doomed := expired;
      while doomed != {}
        invariant doomed <= expired
        invariant Valid()
        invariant userTokens == old(userTokens) - (expired - doomed)
        invariant tokenExpiry == old(tokenExpiry) - (expired - doomed)
        decreases doomed
      {
        ghost var w := Pick(doomed);
        var u :| u in doomed;
        CleanupUserToken(u);
        doomed := doomed - {u};
      }
    }

    /** `add_csrf_to_callback_data`: binds `data` to the user's unexpired token, generating
        `freshToken` first only when the user has none or it has expired. */
    method AddCsrfToCallbackData(u: int, data: string, freshToken: string, now: int) returns (bound: string)
      requires Valid() && UrlSafeToken(freshToken)
      modifies this
      ensures Valid() && HasLiveToken(u, now)
      ensures bound == Bind(data, BindingToken(old(userTokens), old(tokenExpiry), u, freshToken, now))
      ensures userTokens == TokensAfterBind(old(userTokens), old(tokenExpiry), u, freshToken, now)
      ensures tokenExpiry == ExpiryAfterBind(old(userTokens), old(tokenExpiry), u, freshToken, now)
      ensures old(HasLiveToken(u, now)) ==>
        userTokens == old(userTokens) && tokenExpiry == old(tokenExpiry)
    {
      var token := GetUserToken(u, now);
      var t: string;
      if token.None? {
        t := GenerateToken(u, freshToken, now);
      } else {
        t := token.value;
      }
      bound := Bind(data, t);
    }

    /** `extract_callback_data`: see `Extracted`; an expired token met on the way is deleted. */
    method ExtractCallbackData(u: int, s: string, now: int) returns (r: Option<string>)
      requires Valid()
      modifies this
      ensures Valid()
      ensures r == Extracted(old(userTokens), old(tokenExpiry), u, s, now)
      ensures Unbind(s).Some? && old(HasExpiredToken(u, now)) ==>
        userTokens == old(userTokens) - {u} && tokenExpiry == old(tokenExpiry) - {u}
      ensures !(Unbind(s).Some? && old(HasExpiredToken(u, now))) ==>
        userTokens == old(userTokens) && tokenExpiry == old(tokenExpiry)
    {
      var parts := Unbind(s);
      if parts.None? {
        return None;
      }
      var ok := ValidateToken(u, parts.value.1, now);
      if !ok {
        return None;
      }
      return Some(parts.value.0);
    }
  }

  /** Round trip through the manager: data bound for `u` and extracted for `u` at the
      same moment comes back unchanged, and the token is not rotated by the extraction. */
  method BindThenExtract(m: CsrfManager, u: int, data: string, freshToken: string, now: int)
    returns (bound: string, r: Option<string>)
    requires m.Valid() && UrlSafeToken(freshToken)
    modifies m
    ensures m.Valid() && m.HasLiveToken(u, now)
    ensures bound == Bind(data, m.userTokens[u])
    ensures r == Some(data)
  {
    bound := m.AddCsrfToCallbackData(u, data, freshToken, now);
    UnbindBind(data, m.userTokens[u]);
    r := m.ExtractCallbackData(u, bound, now);
  }
}
