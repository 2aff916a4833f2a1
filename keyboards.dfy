/**
 * Inline keyboards as rows of (text, callback) buttons, the page arithmetic shared by
 * every paged keyboard, and the binding of callbacks through the CSRF manager when the
 * keyboard is built for a (truthy) user id.
 */
module Keyboards {
  import opened Wrappers
  import opened Text
  import opened Csrf

  datatype Button = Button(text: string, callback: string)

  type Keyboard = seq<seq<Button>>

  const PrevLabel: string := "⬅️ Назад"
  const NextLabel: string := "Вперёд ➡️"

  lemma PagesBound(n: int, k: int)
    requires n >= 1 && k >= 1
    ensures ((n - 1) / k) * k < n <= ((n - 1) / k + 1) * k
  {
    var q := (n - 1) / k;
    var m := (n - 1) % k;
    assert n - 1 == q * k + m;
    assert (q + 1) * k == q * k + k;
  }

  /** `(n - 1) // k + 1`: the number of pages of `k` items that `n >= 1` items fill,
      i.e. the only `r` with `(r - 1) * k < n <= r * k`. */
  function TotalPages(n: int, k: int): (r: int)
    requires n >= 1 && k >= 1
    ensures r >= 1
  {
    (n - 1) / k + 1
  }

  /** The page count is the least number of pages of `k` that hold `n` items. */
  lemma TotalPagesBounds(n: int, k: int)
    requires n >= 1 && k >= 1
    ensures (TotalPages(n, k) - 1) * k < n <= TotalPages(n, k) * k
  {
    PagesBound(n, k);
  }

  /** `max(0, min(page, total - 1))`. */
  function ClampPage(page: int, total: int): (r: int)
    requires total >= 1
    ensures 0 <= r < total
    ensures 0 <= page < total ==> r == page
    ensures page < 0 ==> r == 0
    ensures page >= total ==> r == total - 1
  {
    if page < 0 then 0 else if page > total - 1 then total - 1 else page
  }

  /** Multiplying by a non-negative factor keeps the order of two non-negative numbers. */
  lemma MulMonotone(a: int, b: int, k: int)
    requires 0 <= a <= b && k >= 0
    ensures 0 <= a * k <= b * k
  {
    assert b * k - a * k == (b - a) * k;
  }

  /** The first index shown on a clamped page lies inside the list. */
  lemma PageStartInside(n: int, k: int, page: int)
    requires n >= 1 && k >= 1 && 0 <= page < TotalPages(n, k)
    ensures 0 <= page * k < n
  {
    var r := TotalPages(n, k);
    TotalPagesBounds(n, k);
    MulMonotone(page, r - 1, k);
  }

  /** `items[page * k : page * k + k]` for a page inside the list: between 1 and `k`
      consecutive items, a full page unless it is the last one. */
  function PageSlice<T>(items: seq<T>, page: int, k: int): (r: seq<T>)
    requires |items| >= 1 && k >= 1 && 0 <= page < TotalPages(|items|, k)
    ensures 1 <= |r| <= k
    ensures 0 <= page * k && page * k + |r| <= |items|
    ensures |r| == k || page * k + |r| == |items|
    ensures forall i :: 0 <= i < |r| ==> r[i] == items[page * k + i]
  {
    PageStartInside(|items|, k, page);
    var start := page * k;
    if start + k <= |items| then items[start..start + k] else items[start..]
  }

  /** Python truthiness of an optional user id: `None` and `0` are false. */
  predicate Truthy(userId: Option<int>) {
    userId.Some? && userId.value != 0
  }

  /** The callback a builder attaches for `userId`: bound to `token` when `userId` is truthy. */
  function CallbackFor(userId: Option<int>, data: string, token: string): string {
    if Truthy(userId) then Bind(data, token) else data
  }

  /** A row with every callback passed through `CallbackFor`. */
  function BindRow(userId: Option<int>, row: seq<Button>, token: string): (r: seq<Button>)
    ensures |r| == |row|
  {
    seq(|row|, j requires 0 <= j < |row| => Button(row[j].text, CallbackFor(userId, row[j].callback, token)))
  }

  /** A layout with every callback passed through `CallbackFor`. */
  function BindKeyboard(userId: Option<int>, kb: Keyboard, token: string): (r: Keyboard)
    ensures |r| == |kb|
    ensures forall i :: 0 <= i < |r| ==> |r[i]| == |kb[i]|
  {
    seq(|kb|, i requires 0 <= i < |kb| => BindRow(userId, kb[i], token))
  }

  /** Binding a layout row by row, as the builders do, binds the whole layout. */
  lemma BindKeyboardAppend(userId: Option<int>, kb: Keyboard, row: seq<Button>, token: string)
    ensures BindKeyboard(userId, kb + [row], token) == BindKeyboard(userId, kb, token) + [BindRow(userId, row, token)]
  {
  }

  /** Binding a layout part by part binds the whole layout. */
  lemma BindKeyboardConcat(userId: Option<int>, a: Keyboard, b: Keyboard, token: string)
    ensures BindKeyboard(userId, a + b, token) == BindKeyboard(userId, a, token) + BindKeyboard(userId, b, token)
  {
  }

  /** Binding a row button by button, as the builders do, binds the whole row. */
  lemma BindRowAppend(userId: Option<int>, row: seq<Button>, b: Button, token: string)
    ensures BindRow(userId, row + [b], token) == BindRow(userId, row, token) + [Button(b.text, CallbackFor(userId, b.callback, token))]
  {
  }

  /** The page indicator `f"{page + 1}/{total}"`. */
  function PageIndicator(page: int, total: int): string {
    IntToString(page + 1) + "/" + IntToString(total)
  }

  /** The navigation row of a paged keyboard: "back" when a previous page exists, the
      page indicator, "forward" when a following page exists. */
  function NavRow(page: int, total: int, prevCb: string, infoCb: string, nextCb: string): (r: seq<Button>)
    requires 0 <= page < total
    ensures |r| == 1 + (if page > 0 then 1 else 0) + (if page < total - 1 then 1 else 0)
    ensures page > 0 ==> r[0] == Button(PrevLabel, prevCb)
    ensures r[if page > 0 then 1 else 0] == Button(PageIndicator(page, total), infoCb)
    ensures page < total - 1 ==> r[|r| - 1] == Button(NextLabel, nextCb)
  {
    (if page > 0 then [Button(PrevLabel, prevCb)] else [])
    + [Button(PageIndicator(page, total), infoCb)]
    + (if page < total - 1 then [Button(NextLabel, nextCb)] else [])
  }

  /** Every button of a bound keyboard keeps its text, and its callback gives back the
      layout's own callback, with the token, when unbound. */
  lemma BoundKeyboardUnbinds(userId: Option<int>, kb: Keyboard, token: string)
    requires Truthy(userId) && UrlSafeToken(token)
    ensures forall i, j :: 0 <= i < |kb| && 0 <= j < |kb[i]| ==>
      BindKeyboard(userId, kb, token)[i][j].text == kb[i][j].text &&
      Unbind(BindKeyboard(userId, kb, token)[i][j].callback) == Some((kb[i][j].callback, token))
  {
    forall i, j | 0 <= i < |kb| && 0 <= j < |kb[i]|
      ensures Unbind(BindKeyboard(userId, kb, token)[i][j].callback) == Some((kb[i][j].callback, token))
    {
      UnbindBind(kb[i][j].callback, token);
    }
  }

  /** A layout built without a user id is left as it is. */
  lemma UnboundKeyboardIsLayout(userId: Option<int>, kb: Keyboard, token: string)
    requires !Truthy(userId)
    ensures BindKeyboard(userId, kb, token) == kb
  {
    var r := BindKeyboard(userId, kb, token);
    forall i | 0 <= i < |kb| ensures r[i] == kb[i] {
      assert forall j :: 0 <= j < |kb[i]| ==> r[i][j] == kb[i][j];
    }
  }

  /** The token every bound callback of a keyboard built for `userId` at `now`, from the
      CSRF state `(tokens, expiry)`, carries. */
  function KeyboardToken(tokens: map<int, string>, expiry: map<int, int>, userId: Option<int>, newToken: string, now: int): string {
    if userId.Some? then BindingToken(tokens, expiry, userId.value, newToken, now) else newToken
  }

  /** The CSRF state a keyboard builder leaves: one binding's worth when it bound anything. */
  ghost predicate StateAfter(m: CsrfManager, userId: Option<int>, tokens: map<int, string>, expiry: map<int, int>,
                             newToken: string, now: int, bound: bool)
    reads m
  {
    if Truthy(userId) && bound then
      && m.userTokens == TokensAfterBind(tokens, expiry, userId.value, newToken, now)
      && m.tokenExpiry == ExpiryAfterBind(tokens, expiry, userId.value, newToken, now)
    else
      m.userTokens == tokens && m.tokenExpiry == expiry
  }

  /** Attaches one callback: bound through the CSRF manager when `userId` is truthy, raw
      otherwise. Within one keyboard every binding uses the token the first one chose;
      `(tokens, expiry)` is the CSRF state before the keyboard was started and `bound`
      says whether a binding has happened since. */
  method BindCallback(m: CsrfManager, userId: Option<int>, data: string, newToken: string, now: int,
                      ghost tokens: map<int, string>, ghost expiry: map<int, int>, ghost bound: bool)
    returns (cb: string)
    requires m.Valid() && UrlSafeToken(newToken)
    requires StateAfter(m, userId, tokens, expiry, newToken, now, bound)
    modifies m
    ensures m.Valid()
    ensures StateAfter(m, userId, tokens, expiry, newToken, now, true)
    ensures cb == CallbackFor(userId, data, KeyboardToken(tokens, expiry, userId, newToken, now))
  {
    if Truthy(userId) {
      BindAgain(tokens, expiry, userId.value, newToken, newToken, now);
      cb := m.AddCsrfToCallbackData(userId.value, data, newToken, now);
    } else {
      cb := data;
    }
  }

  /** Builds the navigation row of a paged keyboard, binding each of its callbacks in
      turn ("back" when `page > 0`, the indicator, "forward" when `page < total - 1`). */
  method BuildNavRow(m: CsrfManager, userId: Option<int>, page: int, total: int,
                     prevCb: string, infoCb: string, nextCb: string, newToken: string, now: int,
                     ghost tokens: map<int, string>, ghost expiry: map<int, int>, ghost bound: bool)
    returns (nav: seq<Button>)
    requires 0 <= page < total
    requires m.Valid() && UrlSafeToken(newToken)
    requires StateAfter(m, userId, tokens, expiry, newToken, now, bound)
    modifies m
    ensures m.Valid()
    ensures StateAfter(m, userId, tokens, expiry, newToken, now, true)
    ensures nav == BindRow(userId, NavRow(page, total, prevCb, infoCb, nextCb), KeyboardToken(tokens, expiry, userId, newToken, now))
  {
    ghost var token := KeyboardToken(tokens, expiry, userId, newToken, now);
    ghost var layout: seq<Button> := [];
    nav := [];
    var b := bound;
    if page > 0 {
      var cb := BindCallback(m, userId, prevCb, newToken, now, tokens, expiry, b);
      BindRowAppend(userId, layout, Button(PrevLabel, prevCb), token);
      layout := layout + [Button(PrevLabel, prevCb)];
      nav := nav + [Button(PrevLabel, cb)];
      b := true;
    }
    var cb := BindCallback(m, userId, infoCb, newToken, now, tokens, expiry, b);
    BindRowAppend(userId, layout, Button(PageIndicator(page, total), infoCb), token);
    layout := layout + [Button(PageIndicator(page, total), infoCb)];
    nav := nav + [Button(PageIndicator(page, total), cb)];
    if page < total - 1 {
      cb := BindCallback(m, userId, nextCb, newToken, now, tokens, expiry, true);
      BindRowAppend(userId, layout, Button(NextLabel, nextCb), token);
      layout := layout + [Button(NextLabel, nextCb)];
      nav := nav + [Button(NextLabel, cb)];
    }
    assert layout == NavRow(page, total, prevCb, infoCb, nextCb);
  }
}
