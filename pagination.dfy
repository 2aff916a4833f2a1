/**
 * Paged keyboards (pagination.py): the search-results keyboard and the admin's
 * users keyboard, the page summary line and the "back to search" keyboard. Every layout
 * is first described as a value (rows of (text, callback) buttons); the builders, which
 * append row by row and pass callbacks through the CSRF binder, are proved to produce
 * that layout bound with one token.
 */
module Pagination {
  import opened Wrappers
  import opened Text
  import opened Csrf
  import opened Keyboards
  import opened Auth

  const DefaultItemsPerPage: int := 10

  /** One search hit as the KeePass search hands it over. */
  datatype SearchResult = SearchResult(uuid: string, title: string, group: string)

  const NotFoundText: string := "Результатів не знайдено"
  const BackToSearchRow: seq<Button> := [Button("🔙 Назад до пошуку", "bs")]

  /** The label of the result numbered `n` (from 1): with a group the title is cut to 20
      characters and the group follows in parentheses; without one it is cut to 30. */
  function ResultLabel(n: int, r: SearchResult): string {
    if r.group != [] then IntToString(n) + ". " + Truncate(r.title, 20) + " (" + r.group + ")"
    else IntToString(n) + ". " + Truncate(r.title, 30)
  }

  /** The button of the result numbered `n`: it opens the entry `e_<uuid>`. */
  function ResultRow(n: int, r: SearchResult): seq<Button> {
    [Button(ResultLabel(n, r), "e_" + r.uuid)]
  }

  /** The rows of a page whose first result is numbered `first`. */
  function ResultRows(shown: seq<SearchResult>, first: int): (r: Keyboard)
    ensures |r| == |shown| && forall i :: 0 <= i < |shown| ==> r[i] == ResultRow(first + i, shown[i])
  {
    seq(|shown|, i requires 0 <= i < |shown| => ResultRow(first + i, shown[i]))
  }

  /** The navigation part of the results keyboard: one row when there is more than one page. */
  function ResultsNav(p: int, total: int): Keyboard
    requires 0 <= p < total
  {
    if total > 1 then [NavRow(p, total, "p_" + IntToString(p - 1), "pi", "p_" + IntToString(p + 1))] else []
  }

  /** The layout of `create_search_results_keyboard` before binding. */
  function SearchResultsLayout(results: seq<SearchResult>, page: int, k: int): (r: Keyboard)
    requires k >= 1
    ensures results == [] ==> r == []
  {
    if results == [] then []
    else
      var total := TotalPages(|results|, k);
      var p := ClampPage(page, total);
      ResultRows(PageSlice(results, p, k), p * k + 1) + ResultsNav(p, total)
  }

  /** A row of the first part of a keyboard made of two parts. */
  lemma ConcatLeft(rows: Keyboard, nav: Keyboard, i: int)
    requires 0 <= i < |rows|
    ensures (rows + nav)[i] == rows[i]
  {
  }

  /** The first row after the first part of a keyboard made of two parts. */
  lemma ConcatRight(rows: Keyboard, nav: Keyboard)
    requires nav != []
    ensures (rows + nav)[|rows|] == nav[0]
  {
  }

  /** The i-th row of a page of results is the result `p * k + i`, numbered from 1. */
  lemma ResultRowAt(results: seq<SearchResult>, p: int, k: int, i: int)
    requires |results| >= 1 && k >= 1 && 0 <= p < TotalPages(|results|, k)
    requires 0 <= i < |PageSlice(results, p, k)|
    ensures ResultRows(PageSlice(results, p, k), p * k + 1)[i] == ResultRow(p * k + i + 1, results[p * k + i])
  {
    var shown := PageSlice(results, p, k);
    assert shown[i] == results[p * k + i];
  }

  /** The results keyboard shows between 1 and `k` results of the clamped page, consecutive
      from `p * k` and in order, the i-th numbered `p * k + i + 1`, and a navigation row
      exactly when there is more than one page ("back" iff `p > 0`, "forward" iff
      `p < total - 1`, by `NavRow`). */
  lemma SearchResultsLayoutShape(results: seq<SearchResult>, page: int, k: int)
    requires k >= 1 && results != []
    ensures var total := TotalPages(|results|, k);
            var p := ClampPage(page, total);
            var n := |PageSlice(results, p, k)|;
            var r := SearchResultsLayout(results, page, k);
            && 1 <= n <= k && p * k + n <= |results|
            && |r| == n + (if total > 1 then 1 else 0)
            && (total > 1 ==> r[n] == NavRow(p, total, "p_" + IntToString(p - 1), "pi", "p_" + IntToString(p + 1)))
  {
  }

  /** Row `i` of the results keyboard is the result `p * k + i` of the clamped page `p`,
      numbered `p * k + i + 1`: the rows list the page's results consecutively and in order. */
  lemma SearchResultsLayoutRows(results: seq<SearchResult>, page: int, k: int, i: int)
    requires k >= 1 && results != []
    requires 0 <= i < |PageSlice(results, ClampPage(page, TotalPages(|results|, k)), k)|
    ensures var p := ClampPage(page, TotalPages(|results|, k));
            SearchResultsLayout(results, page, k)[i] == ResultRow(p * k + i + 1, results[p * k + i])
  {
    var total := TotalPages(|results|, k);
    var p := ClampPage(page, total);
    var rows := ResultRows(PageSlice(results, p, k), p * k + 1);
    ConcatLeft(rows, ResultsNav(p, total), i);
    ResultRowAt(results, p, k, i);
  }

  /** Every result label starts with its number, and the title it shows is the whole title
      when short enough, otherwise exactly 20 (with a group) or 30 (without) characters
      ending in "...". */
  lemma ResultLabelShape(n: int, r: SearchResult)
    ensures var limit := if r.group != [] then 20 else 30;
            var shown := Truncate(r.title, limit);
            && StartsWith(ResultLabel(n, r), IntToString(n) + ". ")
            && ResultLabel(n, r)[|IntToString(n) + ". "|..][..|shown|] == shown
            && (|r.title| <= limit ==> shown == r.title)
            && (|r.title| > limit ==> |shown| == limit && shown[..limit - 3] == r.title[..limit - 3])
  {
    var prefix := IntToString(n) + ". ";
    var limit := if r.group != [] then 20 else 30;
    var rest := if r.group != [] then " (" + r.group + ")" else "";
    assert ResultLabel(n, r) == prefix + (Truncate(r.title, limit) + rest);
  }

  /** The bounds `get_page_info` reports for a non-empty list: the clamped page, the page
      count and the 1-based first and last item shown. */
  function PageBounds(n: int, page: int, k: int): (r: (int, int, int, int))
    requires n >= 1 && k >= 1
    ensures var (p, total, first, last) := r;
            && 0 <= p < total && total == TotalPages(n, k)
            && 1 <= first <= last <= n && first == p * k + 1
            && last == (if p * k + k < n then p * k + k else n)
  {
    var total := TotalPages(n, k);
    var p := ClampPage(page, total);
    PageStartInside(n, k, p);
    var start := p * k;
    (p, total, start + 1, if start + k < n then start + k else n)
  }

  /** `get_page_info`. */
  function GetPageInfo(n: int, page: int, k: int): (r: string)
    requires n >= 0 && k >= 1
    ensures n == 0 <==> r == NotFoundText
  {
    if n == 0 then NotFoundText
    else
      var (p, total, first, last) := PageBounds(n, page, k);
      var r := "Сторінка " + IntToString(p + 1) + " з " + IntToString(total) + " (елементи " + IntToString(first)
               + "-" + IntToString(last) + " з " + IntToString(n) + ")";
      assert r[0] != NotFoundText[0];
      r
  }

  /** The page summary agrees with the results keyboard: it names the items the keyboard
      shows. */
  lemma PageInfoMatchesKeyboard(results: seq<SearchResult>, page: int, k: int)
    requires k >= 1 && results != []
    ensures var (p, total, first, last) := PageBounds(|results|, page, k);
            && p == ClampPage(page, TotalPages(|results|, k))
            && last - first + 1 == |PageSlice(results, p, k)|
  {
  }

  /** The label of the user numbered `n` in the admin's users keyboard. */
  function AdminUserLabel(n: int, u: Record): string {
    IntToString(n) + ". @" + Truncate(u.username, 20) + " (" + IntToString(u.userId) + ")"
  }

  /** The button of the user numbered `n`: it revokes `revoke_<id>`. */
  function AdminUserRow(n: int, u: Record): seq<Button> {
    [Button(AdminUserLabel(n, u), "revoke_" + IntToString(u.userId))]
  }

  function AdminUserRows(shown: seq<Record>, first: int): (r: Keyboard)
    ensures |r| == |shown| && forall i :: 0 <= i < |shown| ==> r[i] == AdminUserRow(first + i, shown[i])
  {
    seq(|shown|, i requires 0 <= i < |shown| => AdminUserRow(first + i, shown[i]))
  }

  function AdminUsersNav(p: int, total: int): Keyboard
    requires 0 <= p < total
  {
    if total > 1 then [NavRow(p, total, "users_page_" + IntToString(p - 1), "users_page_info", "users_page_" + IntToString(p + 1))]
    else []
  }

  /** The admin's users keyboard (`create_admin_users_keyboard`), never CSRF-bound. */
  function AdminUsersLayout(users: seq<Record>, page: int, k: int): (r: Keyboard)
    requires k >= 1
    ensures users == [] ==> r == []
  {
    if users == [] then []
    else
      var total := TotalPages(|users|, k);
      var p := ClampPage(page, total);
      AdminUserRows(PageSlice(users, p, k), p * k + 1) + AdminUsersNav(p, total)
  }

  /** The i-th row of a page of users is the user `p * k + i`, numbered from 1. */
  lemma AdminUserRowAt(users: seq<Record>, p: int, k: int, i: int)
    requires |users| >= 1 && k >= 1 && 0 <= p < TotalPages(|users|, k)
    requires 0 <= i < |PageSlice(users, p, k)|
    ensures AdminUserRows(PageSlice(users, p, k), p * k + 1)[i] == AdminUserRow(p * k + i + 1, users[p * k + i])
  {
    var shown := PageSlice(users, p, k);
    assert shown[i] == users[p * k + i];
  }

  /** The users keyboard shows between 1 and `k` users of the clamped page, in order,
      the i-th numbered `p * k + i + 1` with the callback `revoke_<id>`, and
      navigation exactly when there is more than one page. */
  lemma AdminUsersLayoutShape(users: seq<Record>, page: int, k: int)
    requires k >= 1 && users != []
    ensures var total := TotalPages(|users|, k);
            var p := ClampPage(page, total);
            var n := |PageSlice(users, p, k)|;
            var r := AdminUsersLayout(users, page, k);
            && 1 <= n <= k && p * k + n <= |users|
            && |r| == n + (if total > 1 then 1 else 0)
            && (total > 1 ==> r[n] == NavRow(p, total, "users_page_" + IntToString(p - 1), "users_page_info", "users_page_" + IntToString(p + 1)))
  {
  }

  /** Row `i` of the users keyboard is the user `p * k + i` of the clamped page `p`,
      numbered `p * k + i + 1` and revoking `revoke_<id>`. */
  lemma AdminUsersLayoutRows(users: seq<Record>, page: int, k: int, i: int)
    requires k >= 1 && users != []
    requires 0 <= i < |PageSlice(users, ClampPage(page, TotalPages(|users|, k)), k)|
    ensures var p := ClampPage(page, TotalPages(|users|, k));
            AdminUsersLayout(users, page, k)[i] == AdminUserRow(p * k + i + 1, users[p * k + i])
  {
    var total := TotalPages(|users|, k);
    var p := ClampPage(page, total);
    var rows := AdminUserRows(PageSlice(users, p, k), p * k + 1);
    ConcatLeft(rows, AdminUsersNav(p, total), i);
    AdminUserRowAt(users, p, k, i);
  }

  /** The loop of `create_search_results_keyboard` over the results of the page. */
  method BindResultRows(m: CsrfManager, shown: seq<SearchResult>, first: int, userId: Option<int>, newToken: string, now: int,
                        ghost tokens: map<int, string>, ghost expiry: map<int, int>)
    returns (kb: Keyboard)
    requires shown != []
    requires m.Valid() && UrlSafeToken(newToken)
    requires StateAfter(m, userId, tokens, expiry, newToken, now, false)
    modifies m
    ensures m.Valid()
    ensures StateAfter(m, userId, tokens, expiry, newToken, now, true)
    ensures kb == BindKeyboard(userId, ResultRows(shown, first), KeyboardToken(tokens, expiry, userId, newToken, now))
  {
    ghost var token := KeyboardToken(tokens, expiry, userId, newToken, now);
    kb := [];
    var i := 0;
    while i < |shown|
      invariant 0 <= i <= |shown|
      invariant m.Valid()
      invariant StateAfter(m, userId, tokens, expiry, newToken, now, i > 0)
      invariant kb == BindKeyboard(userId, ResultRows(shown[..i], first), token)
    {
      var r := shown[i];
      var cb := BindCallback(m, userId, "e_" + r.uuid, newToken, now, tokens, expiry, i > 0);
      var row := [Button(ResultLabel(first + i, r), cb)];
      assert row == BindRow(userId, ResultRow(first + i, r), token);
      assert ResultRows(shown[..i + 1], first) == ResultRows(shown[..i], first) + [ResultRow(first + i, r)];
      BindKeyboardAppend(userId, ResultRows(shown[..i], first), ResultRow(first + i, r), token);
      kb := kb + [row];
      i := i + 1;
    }
    assert shown[..i] == shown;
  }

  /** `create_search_results_keyboard`: the results layout, every callback bound with the
      user's token when `userId` is truthy. */
  method CreateSearchResultsKeyboard(m: CsrfManager, results: seq<SearchResult>, page: int, k: int,
                                     userId: Option<int>, newToken: string, now: int)
    returns (kb: Keyboard)
    requires k >= 1
    requires m.Valid() && UrlSafeToken(newToken)
    modifies m
    ensures m.Valid()
    ensures kb == BindKeyboard(userId, SearchResultsLayout(results, page, k),
                               KeyboardToken(old(m.userTokens), old(m.tokenExpiry), userId, newToken, now))
    ensures StateAfter(m, userId, old(m.userTokens), old(m.tokenExpiry), newToken, now, results != [])
  {
    ghost var tokens, expiry := m.userTokens, m.tokenExpiry;
    ghost var token := KeyboardToken(tokens, expiry, userId, newToken, now);
    if results == [] {
      return [];
    }
    var total := TotalPages(|results|, k);
    var p := ClampPage(page, total);
    var shown := PageSlice(results, p, k);
    kb := BindResultRows(m, shown, p * k + 1, userId, newToken, now, tokens, expiry);
    if total > 1 {
      var nav := BuildNavRow(m, userId, p, total, "p_" + IntToString(p - 1), "pi", "p_" + IntToString(p + 1),
                             newToken, now, tokens, expiry, true);
      BindKeyboardAppend(userId, [], ResultsNav(p, total)[0], token);
      assert [nav] == BindKeyboard(userId, ResultsNav(p, total), token);
      BindKeyboardConcat(userId, ResultRows(shown, p * k + 1), ResultsNav(p, total), token);
      kb := kb + [nav];
    } else {
      assert ResultRows(shown, p * k + 1) + ResultsNav(p, total) == ResultRows(shown, p * k + 1);
    }
    assert SearchResultsLayout(results, page, k) == ResultRows(shown, p * k + 1) + ResultsNav(p, total);
  }

  /** `create_admin_users_keyboard`: appends one row per user of the page, then the
      navigation row. */
  method CreateAdminUsersKeyboard(users: seq<Record>, page: int, k: int) returns (kb: Keyboard)
    requires k >= 1
    ensures kb == AdminUsersLayout(users, page, k)
  {
    if users == [] {
      return [];
    }
    var total := TotalPages(|users|, k);
    var p := ClampPage(page, total);
    var rows := BuildAdminUserRows(PageSlice(users, p, k), p * k + 1);
    var nav: Keyboard := [];
    if total > 1 {
      var row := BuildAdminUsersNav(p, total);
      nav := [row];
    }
    assert nav == AdminUsersNav(p, total);
    kb := rows + nav;
  }

  /** The user rows of the admin's users keyboard, appended one by one. */
  method BuildAdminUserRows(shown: seq<Record>, first: int) returns (kb: Keyboard)
    ensures kb == AdminUserRows(shown, first)
  {
    kb := [];
    var i := 0;
    while i < |shown|
      invariant 0 <= i <= |shown|
      invariant kb == AdminUserRows(shown[..i], first)
    {
      var u := shown[i];
      var name := u.username;
      if |name| > 20 {
        name := name[..17] + "...";
      }
      assert name == Truncate(u.username, 20);
      var row := [Button(IntToString(first + i) + ". @" + name + " (" + IntToString(u.userId) + ")",
                         "revoke_" + IntToString(u.userId))];
      assert row == AdminUserRow(first + i, u);
      kb := kb + [row];
      assert AdminUserRows(shown[..i + 1], first) == AdminUserRows(shown[..i], first) + [AdminUserRow(first + i, u)];
      i := i + 1;
    }
    assert shown[..i] == shown;
  }

  /** The navigation row of the admin's users keyboard, appended button by button. */
  method BuildAdminUsersNav(p: int, total: int) returns (nav: seq<Button>)
    requires 0 <= p < total
    ensures nav == NavRow(p, total, "users_page_" + IntToString(p - 1), "users_page_info", "users_page_" + IntToString(p + 1))
  {
    nav := [];
    if p > 0 {
      nav := nav + [Button(PrevLabel, "users_page_" + IntToString(p - 1))];
    }
    nav := nav + [Button(PageIndicator(p, total), "users_page_info")];
    if p < total - 1 {
      nav := nav + [Button(NextLabel, "users_page_" + IntToString(p + 1))];
    }
  }

  /** `create_back_keyboard`: one "back to search" button, bound when `userId` is truthy. */
  method CreateBackKeyboard(m: CsrfManager, userId: Option<int>, newToken: string, now: int) returns (kb: Keyboard)
    requires m.Valid() && UrlSafeToken(newToken)
    modifies m
    ensures m.Valid()
    ensures kb == BindKeyboard(userId, [BackToSearchRow], KeyboardToken(old(m.userTokens), old(m.tokenExpiry), userId, newToken, now))
    ensures StateAfter(m, userId, old(m.userTokens), old(m.tokenExpiry), newToken, now, true)
  {
    ghost var tokens, expiry := m.userTokens, m.tokenExpiry;
    var cb := BindCallback(m, userId, "bs", newToken, now, tokens, expiry, false);
    kb := [[Button("🔙 Назад до пошуку", cb)]];
    assert kb[0] == BindRow(userId, BackToSearchRow, KeyboardToken(tokens, expiry, userId, newToken, now));
  }
}
