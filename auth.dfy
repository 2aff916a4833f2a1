/**
 * The access registry (auth.py): the approved `users` and the `pending_requests`, the
 * request / approve / deny / revoke operations on them, the admin's user-removal
 * keyboard, and the handling of the admin's approve / deny buttons.
 */
module Auth {
  import opened Wrappers
  import opened Text
  import opened Csrf
  import opened Keyboards

  /** An entry of `users` (stamped `approved_at`) or of `pending_requests` (stamped
      `timestamp`); the stamp is the integer time of the call. */
  datatype Record = Record(userId: int, username: string, stamp: int)

  /** Shown for a Telegram user without a username. */
  const NoUsername: string := "без username"
  /** Used when an approve / deny button names a user with no pending request. */
  const UnknownUsername: string := "невідомий"

  /** Some entry of `records` belongs to `u`. */
  function Listed(records: seq<Record>, u: int): (r: bool)
    ensures r <==> exists i :: 0 <= i < |records| && records[i].userId == u
  {
    if records == [] then false
    else if records[0].userId == u then true
    else
      var rest := Listed(records[1..], u);
      assert rest ==> exists i :: 0 <= i < |records| && records[i].userId == u by {
        if rest {
          var i :| 0 <= i < |records[1..]| && records[1..][i].userId == u;
          assert records[i + 1].userId == u;
        }
      }
      assert (exists i :: 0 <= i < |records| && records[i].userId == u) ==> rest by {
        if exists i :: 0 <= i < |records| && records[i].userId == u {
          var i :| 0 <= i < |records| && records[i].userId == u;
          assert records[1..][i - 1].userId == u;
        }
      }
      rest
  }

  /** The list comprehension that drops every entry of `u`, keeping the others. */
  function Without(records: seq<Record>, u: int): (r: seq<Record>)
    ensures |r| <= |records|
    ensures |r| < |records| <==> Listed(records, u)
    ensures !Listed(r, u)
  {
    if records == [] then []
    else if records[0].userId == u then Without(records[1..], u)
    else [records[0]] + Without(records[1..], u)
  }

  /** Filtering keeps exactly the entries of other users. */
  lemma {:induction false} WithoutMembers(records: seq<Record>, u: int)
    ensures forall x :: x in Without(records, u) <==> x in records && x.userId != u
  {
    if records != [] {
      WithoutMembers(records[1..], u);
      assert records == [records[0]] + records[1..];
    }
  }

  lemma WithoutCons(x: Record, rest: seq<Record>, u: int)
    ensures Without([x] + rest, u) == (if x.userId == u then [] else [x]) + Without(rest, u)
  {
    assert ([x] + rest)[1..] == rest;
  }

  /** Filtering keeps the order of the remaining entries: filtering a concatenation is
      the concatenation of the filtered parts. */
  lemma {:induction false} WithoutConcat(a: seq<Record>, b: seq<Record>, u: int)
    ensures Without(a + b, u) == Without(a, u) + Without(b, u)
  {
    if a != [] {
      var h: seq<Record> := if a[0].userId == u then [] else [a[0]];
      assert (a + b)[0] == a[0] && (a + b)[1..] == a[1..] + b;
      WithoutConcat(a[1..], b, u);
      assert Without(a + b, u) == h + Without(a[1..] + b, u);
      assert Without(a, u) == h + Without(a[1..], u);
      assert h + (Without(a[1..], u) + Without(b, u)) == (h + Without(a[1..], u)) + Without(b, u);
    } else {
      assert a + b == b;
    }
  }

  /** Filtering out a user with no entry changes nothing. */
  lemma {:induction false} WithoutUnlisted(records: seq<Record>, u: int)
    requires !Listed(records, u)
    ensures Without(records, u) == records
  {
    if records != [] {
      assert !Listed(records[1..], u);
      WithoutUnlisted(records[1..], u);
    }
  }

  /** The username of the first pending request of `t`, or "невідомий" when there is none. */
  function FirstUsername(pending: seq<Record>, t: int): (r: string)
    ensures !Listed(pending, t) ==> r == UnknownUsername
    ensures Listed(pending, t) ==> exists i :: 0 <= i < |pending| && pending[i].userId == t && r == pending[i].username
                                               && forall j :: 0 <= j < i ==> pending[j].userId != t
  {
    if pending == [] then UnknownUsername
    else if pending[0].userId == t then pending[0].username
    else
      var r := FirstUsername(pending[1..], t);
      assert Listed(pending, t) ==> exists i :: 0 <= i < |pending| && pending[i].userId == t && r == pending[i].username
                                                && forall j :: 0 <= j < i ==> pending[j].userId != t by {
        if Listed(pending, t) {
          assert Listed(pending[1..], t);
          var i :| 0 <= i < |pending[1..]| && pending[1..][i].userId == t && r == pending[1..][i].username
                   && forall j :: 0 <= j < i ==> pending[1..][j].userId != t;
          assert forall j :: 0 <= j < i + 1 ==> pending[j].userId != t by {
            forall j | 0 <= j < i + 1 ensures pending[j].userId != t {
              if j > 0 {
                assert pending[j] == pending[1..][j - 1];
              }
            }
          }
          assert pending[i + 1] == pending[1..][i];
        }
      }
      r
  }

  /** What an admin button asks for. */
  datatype Decision = Approve(target: int) | Deny(target: int)

  /** How the callback data of an admin button reads. */
  datatype DecisionParse =
    | NotDecision           // neither `approve_` nor `deny_`: nothing happens
    | BadUserId             // `int()` raises on the user id field
    | Parsed(decision: Decision)

  /** The callback data of the approve button for `u`. */
  function ApproveData(u: int): string { "approve_" + IntToString(u) }

  /** The callback data of the deny button for `u`. */
  function DenyData(u: int): string { "deny_" + IntToString(u) }

  /** The decision in callback data: the prefix selects approve or deny, and the user id
      is `int(data.split("_")[1])`, the text between the first and second underscore. */
  function ParseDecision(data: string): (r: DecisionParse)
    ensures r.Parsed? && r.decision.Approve? ==>
      StartsWith(data, "approve_") && ParseInt(TakeUntil(data[8..], '_')) == Some(r.decision.target)
    ensures r.Parsed? && r.decision.Deny? ==>
      StartsWith(data, "deny_") && !StartsWith(data, "approve_") && ParseInt(TakeUntil(data[5..], '_')) == Some(r.decision.target)
    ensures r.BadUserId? <==>
      || (StartsWith(data, "approve_") && ParseInt(TakeUntil(data[8..], '_')).None?)
      || (!StartsWith(data, "approve_") && StartsWith(data, "deny_") && ParseInt(TakeUntil(data[5..], '_')).None?)
    ensures r.NotDecision? <==> !StartsWith(data, "approve_") && !StartsWith(data, "deny_")
  {
    if StartsWith(data, "approve_") then
      match ParseInt(TakeUntil(data[8..], '_'))
      case None => BadUserId
      case Some(t) => Parsed(Approve(t))
    else if StartsWith(data, "deny_") then
      match ParseInt(TakeUntil(data[5..], '_'))
      case None => BadUserId
      case Some(t) => Parsed(Deny(t))
    else NotDecision
  }

  /** The buttons sent to the admin read back as the decision they were made for. */
  lemma ParseDecisionData(u: int)
    ensures ParseDecision(ApproveData(u)) == Parsed(Approve(u))
    ensures ParseDecision(DenyData(u)) == Parsed(Deny(u))
  {
    IdField(u);
    ParseApproveData(u);
    ParseDenyData(u);
  }

  /** The id field of a generated button is the whole of `str(u)`, which reads back as `u`. */
  lemma IdField(u: int)
    ensures TakeUntil(IntToString(u), '_') == IntToString(u)
    ensures ParseInt(IntToString(u)) == Some(u)
  {
    ParseIntToString(u);
    IntToStringChars(u);
    NoUnderscore(IntToString(u));
  }

  /** Text made of digits and minus signs has no '_' to stop at. */
  lemma NoUnderscore(s: string)
    requires forall i :: 0 <= i < |s| ==> s[i] == '-' || IsAsciiDigit(s[i])
    ensures TakeUntil(s, '_') == s
  {
  }

  /** An approve button whose id field reads as `t` approves `t`. */
  lemma ApproveOf(x: string, t: int)
    requires ParseInt(TakeUntil(x, '_')) == Some(t)
    ensures ParseDecision("approve_" + x) == Parsed(Approve(t))
  {
    var d := "approve_" + x;
    assert d[..8] == "approve_";
    assert StartsWith(d, "approve_");
    assert d[8..] == x;
  }

  /** An approve button whose id field `int()` rejects approves nobody. */
  lemma ApproveBadId(x: string)
    requires ParseInt(TakeUntil(x, '_')) == None
    ensures ParseDecision("approve_" + x) == BadUserId
  {
    var d := "approve_" + x;
    assert d[..8] == "approve_";
    assert StartsWith(d, "approve_");
    assert d[8..] == x;
  }

  lemma ParseApproveData(u: int)
    requires TakeUntil(IntToString(u), '_') == IntToString(u) && ParseInt(IntToString(u)) == Some(u)
    ensures ParseDecision(ApproveData(u)) == Parsed(Approve(u))
  {
    ApproveOf(IntToString(u), u);
  }

  lemma ParseDenyData(u: int)
    requires TakeUntil(IntToString(u), '_') == IntToString(u) && ParseInt(IntToString(u)) == Some(u)
    ensures ParseDecision(DenyData(u)) == Parsed(Deny(u))
  {
    var d := DenyData(u);
    assert d[5..] == IntToString(u);
    DenyIsNotApprove(IntToString(u));
  }

  lemma DenyIsNotApprove(x: string)
    ensures !StartsWith("deny_" + x, "approve_")
  {
    var d := "deny_" + x;
    if |d| >= 8 {
      assert d[..8][0] == 'd';
    }
  }

  /** `int()` tolerates a blank before the id, so "approve_ 5" approves user 5. */
  lemma ParseDecisionSpaced()
    ensures ParseDecision("approve_ 5") == Parsed(Approve(5))
  {
    assert TakeUntil(" 5", '_') == " 5";
    ParseIntSpaced();
    ApproveOf(" 5", 5);
    assert "approve_" + " 5" == "approve_ 5";
  }

  /** The file separator before the id is not skipped by `int()`, so "approve_\x1c5" is
      a bad user id and approves nobody. */
  lemma ParseDecisionSeparator(data: string)
    requires data == "approve_\U{1C}5"
    ensures ParseDecision(data) == BadUserId
  {
    var x := "\U{1C}5";
    assert ParseInt(TakeUntil(x, '_')) == None by {
      assert TakeUntil(x, '_') == x;
      ParseIntRejectsSeparator();
    }
    ApproveBadId(x);
    assert data == "approve_" + x;
  }

  /** How handling an admin button ended. */
  datatype AdminOutcome =
    | MissingToken            // no `|csrf:` in the callback data
    | InvalidToken            // the token was not the clicker's, had expired, or the action was empty
    | NotAdmin                // the clicker is not the administrator
    | Ignored                 // neither an approve nor a deny action
    | Unparsable              // the user id field is not an integer
    | Approved(target: int, username: string)
    | ApproveFailed(target: int)   // already approved
    | Denied(target: int, username: string)
    | DenyFailed(target: int)      // no pending request

  /** The registry after an admin action, and its outcome. */
  datatype Registry = Registry(users: seq<Record>, pending: seq<Record>)

  /** The effect of an approve / deny action `data` on the registry, as auth.py does it:
      it never looks at who clicked. */
  function DecideAsWritten(reg: Registry, data: string, now: int): (r: (Registry, AdminOutcome))
    ensures r.1.Ignored? <==> ParseDecision(data).NotDecision?
    ensures r.1.Unparsable? <==> ParseDecision(data).BadUserId?
    ensures r.1.Approved? || r.1.ApproveFailed? <==> ParseDecision(data).Parsed? && ParseDecision(data).decision.Approve?
    ensures r.1.Denied? || r.1.DenyFailed? <==> ParseDecision(data).Parsed? && ParseDecision(data).decision.Deny?
    ensures r.1.Approved? || r.1.ApproveFailed? || r.1.Denied? || r.1.DenyFailed? ==> r.1.target == ParseDecision(data).decision.target
  {
    match ParseDecision(data)
    case NotDecision => (reg, Ignored)
    case BadUserId => (reg, Unparsable)
    case Parsed(Approve(t)) =>
      var name := FirstUsername(reg.pending, t);
      if Listed(reg.users, t) then (Registry(reg.users, Without(reg.pending, t)), ApproveFailed(t))
      else (Registry(reg.users + [Record(t, name, now)], Without(reg.pending, t)), Approved(t, name))
    case Parsed(Deny(t)) =>
      var name := FirstUsername(reg.pending, t);
      if Listed(reg.pending, t) then (Registry(reg.users, Without(reg.pending, t)), Denied(t, name))
      else (reg, DenyFailed(t))
  }

  /** The same, with the administrator check the other admin actions (`rm_`, `up_`) make:
      anyone but the administrator is refused and the registry is left alone. */
  function Decide(reg: Registry, clicker: int, adminId: int, data: string, now: int): (r: (Registry, AdminOutcome))
    ensures clicker != adminId ==> r == (reg, NotAdmin)
    ensures clicker == adminId ==> r == DecideAsWritten(reg, data, now)
  {
    if clicker != adminId then (reg, NotAdmin) else DecideAsWritten(reg, data, now)
  }

  /** An approval leaves the user approved and without pending requests; a refusal
      leaves them without pending requests and does not touch the approved users. */
  lemma DecideAsWrittenEffects(reg: Registry, data: string, now: int)
    ensures var (r, out) := DecideAsWritten(reg, data, now);
      && (out.Approved? ==> Listed(r.users, out.target) && !Listed(r.pending, out.target) && !Listed(reg.users, out.target))
      && (out.ApproveFailed? ==> r.users == reg.users && !Listed(r.pending, out.target))
      && (out.Denied? ==> r.users == reg.users && Listed(reg.pending, out.target) && !Listed(r.pending, out.target))
      && (out.DenyFailed? || out.Ignored? || out.Unparsable? ==> r == reg)
  {
    var (r, out) := DecideAsWritten(reg, data, now);
    if out.Approved? {
      assert r.users[|r.users| - 1].userId == out.target;
    }
  }

  /** The registry the approve / deny handler leaves once the CSRF gate has produced the
      (possibly absent or empty) action `extracted`; `checkAdmin` selects the corrected handler. */
  function AdminStep(reg: Registry, raw: string, extracted: Option<string>, clicker: int, adminId: int,
                     checkAdmin: bool, now: int): (r: (Registry, AdminOutcome))
    ensures r.1.MissingToken? <==> Unbind(raw).None?
    ensures r.1.InvalidToken? <==> Unbind(raw).Some? && (extracted.None? || extracted.value == "")
    ensures r.1.NotAdmin? <==> checkAdmin && clicker != adminId && Unbind(raw).Some? && extracted.Some? && extracted.value != ""
    ensures r.1.MissingToken? || r.1.InvalidToken? || r.1.NotAdmin? ==> r.0 == reg
  {
    if Unbind(raw).None? then (reg, MissingToken)
    else if extracted.None? || extracted.value == "" then (reg, InvalidToken)
    else if checkAdmin then Decide(reg, clicker, adminId, extracted.value, now)
    else DecideAsWritten(reg, extracted.value, now)
  }

  /** The flaw as written: a user who is not the administrator, holding an unexpired token
      of their own (every keyboard the bot sends them carries it), can forge the approve
      button for themselves and is approved. */
  lemma SelfApprovalAsWritten(reg: Registry, tokens: map<int, string>, expiry: map<int, int>,
                              u: int, adminId: int, now: int)
    requires u != adminId && !Listed(reg.users, u)
    requires u in tokens && u in expiry && now <= expiry[u] && UrlSafeToken(tokens[u])
    ensures var raw := Bind(ApproveData(u), tokens[u]);
            var (r, out) := AdminStep(reg, raw, Extracted(tokens, expiry, u, raw, now), u, adminId, false, now);
            out.Approved? && Listed(r.users, u)
  {
    var raw := Bind(ApproveData(u), tokens[u]);
    ExtractBound(tokens, expiry, u, ApproveData(u), now);
    UnbindBind(ApproveData(u), tokens[u]);
    ParseDecisionData(u);
    DecideAsWrittenEffects(reg, ApproveData(u), now);
  }

  /** Corrected: the same forged button is refused and nothing changes, while the
      administrator's own clicks behave exactly as before. */
  lemma SelfApprovalRefused(reg: Registry, tokens: map<int, string>, expiry: map<int, int>,
                            u: int, adminId: int, data: string, now: int)
    requires u in tokens && u in expiry && now <= expiry[u] && UrlSafeToken(tokens[u]) && data != ""
    ensures var raw := Bind(data, tokens[u]);
            var e := Extracted(tokens, expiry, u, raw, now);
            && (u != adminId ==> AdminStep(reg, raw, e, u, adminId, true, now) == (reg, NotAdmin))
            && (u == adminId ==> AdminStep(reg, raw, e, u, adminId, true, now) == AdminStep(reg, raw, e, u, adminId, false, now))
  {
    ExtractBound(tokens, expiry, u, data, now);
    UnbindBind(data, tokens[u]);
  }

  /** The user-removal button of one approved user. */
  function RemovalRow(u: Record): seq<Button> {
    [Button("🗑️ " + Truncate(u.username, 15) + " (" + IntToString(u.userId) + ")", "rm_" + IntToString(u.userId))]
  }

  const BackToMenuRow: seq<Button> := [Button("🔙 Назад до меню", "back_to_menu")]

  /** One removal row per user, in order. */
  function RemovalRows(shown: seq<Record>): (r: Keyboard)
    ensures |r| == |shown| && forall i :: 0 <= i < |shown| ==> r[i] == RemovalRow(shown[i])
  {
    seq(|shown|, i requires 0 <= i < |shown| => RemovalRow(shown[i]))
  }

  /** The navigation part of the removal keyboard: one row when there is more than one page. */
  function UsersNav(p: int, total: int): Keyboard
    requires 0 <= p < total
  {
    if total > 1 then [NavRow(p, total, "up_" + IntToString(p - 1), "upi", "up_" + IntToString(p + 1))] else []
  }

  /** The layout of the admin's user-removal keyboard before binding: the removal rows of
      the clamped page, the navigation part and the back-to-menu row; nothing at all for
      an empty list. */
  function UsersManagementLayout(users: seq<Record>, page: int, k: int): (r: Keyboard)
    requires k >= 1
    ensures users == [] ==> r == []
  {
    if users == [] then []
    else
      var total := TotalPages(|users|, k);
      var p := ClampPage(page, total);
      RemovalRows(PageSlice(users, p, k)) + UsersNav(p, total) + [BackToMenuRow]
  }

  /** The removal keyboard shows at most `k` users, consecutive from `p * k` and in order,
      navigation only when there is more than one page ("back" iff `p > 0`, "forward" iff
      `p < total - 1`, by `NavRow`), and always ends with the back-to-menu row. */
  lemma UsersManagementLayoutShape(users: seq<Record>, page: int, k: int)
    requires k >= 1 && users != []
    ensures var total := TotalPages(|users|, k);
            var p := ClampPage(page, total);
            var n := |PageSlice(users, p, k)|;
            var r := UsersManagementLayout(users, page, k);
            && 1 <= n <= k
            && |r| == n + (if total > 1 then 1 else 0) + 1
            && (forall i :: 0 <= i < n ==> r[i] == RemovalRow(users[p * k + i]))
            && (total > 1 ==> r[n] == NavRow(p, total, "up_" + IntToString(p - 1), "upi", "up_" + IntToString(p + 1)))
            && r[|r| - 1] == BackToMenuRow
  {
    var total := TotalPages(|users|, k);
    var p := ClampPage(page, total);
    var rows := RemovalRows(PageSlice(users, p, k));
    var nav := UsersNav(p, total);
    var r := UsersManagementLayout(users, page, k);
    assert r == rows + nav + [BackToMenuRow];
    assert forall i :: 0 <= i < |rows| ==> r[i] == rows[i];
    if total > 1 {
      assert r[|rows|] == nav[0];
    }
  }

  class AuthManager {
    var users: seq<Record>
    var pendingRequests: seq<Record>
    /** How many times the registry has been written to disk. */
    ghost var saves: nat

    /** The registry as loaded from disk (an empty one when the file is missing or unreadable). */
    constructor (users0: seq<Record>, pending0: seq<Record>)
      ensures users == users0 && pendingRequests == pending0 && saves == 0
    {
      users := users0;
      pendingRequests := pending0;
      saves := 0;
    }

    /** `is_user_allowed`: compares the decimal texts of the ids, which is the same as
        comparing the ids. */
    predicate IsUserAllowed(u: int)
      reads this
      ensures IsUserAllowed(u) <==> Listed(users, u)
    {
      assert forall i :: 0 <= i < |users| && IntToString(users[i].userId) == IntToString(u) ==> users[i].userId == u by {
        forall i | 0 <= i < |users| && IntToString(users[i].userId) == IntToString(u)
          ensures users[i].userId == u
        {
          IntToStringInjective(users[i].userId, u);
        }
      }
      exists i :: 0 <= i < |users| && IntToString(users[i].userId) == IntToString(u)
    }

    /** `add_user_request`: idempotent; it does not look at the approved users. */
    method AddUserRequest(u: int, username: string, now: int)
      modifies this
      ensures users == old(users)
      ensures Listed(old(pendingRequests), u) ==> pendingRequests == old(pendingRequests) && saves == old(saves)
      ensures !Listed(old(pendingRequests), u) ==>
        pendingRequests == old(pendingRequests) + [Record(u, username, now)] && saves == old(saves) + 1
    {
      var i := 0;
      while i < |pendingRequests|
        invariant 0 <= i <= |pendingRequests|
        invariant forall j :: 0 <= j < i ==> pendingRequests[j].userId != u
      {
        if pendingRequests[i].userId == u {
          return;
        }
        i := i + 1;
      }
      pendingRequests := pendingRequests + [Record(u, username, now)];
      saves := saves + 1;
    }

    /** `approve_user`: drops every pending request of `u`, then appends `u` to the users
        and reports True unless `u` was already approved (no duplicate, no save then). */
    method ApproveUser(u: int, username: string, now: int) returns (approved: bool)
      modifies this
      ensures pendingRequests == Without(old(pendingRequests), u)
      ensures approved <==> !Listed(old(users), u)
      ensures approved ==> users == old(users) + [Record(u, username, now)] && saves == old(saves) + 1
      ensures !approved ==> users == old(users) && saves == old(saves)
      ensures Listed(users, u) && !Listed(pendingRequests, u)
    {
      pendingRequests := Without(pendingRequests, u);
      if !Listed(users, u) {
        users := users + [Record(u, username, now)];
        assert users[|users| - 1].userId == u;
        saves := saves + 1;
        return true;
      }
      return false;
    }

    /** `deny_user`: drops every pending request of `u`; True iff there was one. */
    method DenyUser(u: int, username: string) returns (denied: bool)
      modifies this
      ensures users == old(users)
      ensures pendingRequests == Without(old(pendingRequests), u)
      ensures denied <==> Listed(old(pendingRequests), u)
      ensures saves == old(saves) + (if denied then 1 else 0)
    {
      var originalCount := |pendingRequests|;
      pendingRequests := Without(pendingRequests, u);
      if |pendingRequests| < originalCount {
        saves := saves + 1;
        return true;
      }
      return false;
    }

    /** `revoke_user_access`: drops every approved entry of `u`; True iff there was one. */
    method RevokeUserAccess(u: int) returns (revoked: bool)
      modifies this
      ensures pendingRequests == old(pendingRequests)
      ensures users == Without(old(users), u)
      ensures revoked <==> Listed(old(users), u)
      ensures !IsUserAllowed(u)
      ensures saves == old(saves) + (if revoked then 1 else 0)
    {
      var originalCount := |users|;
      users := Without(users, u);
      if |users| < originalCount {
        saves := saves + 1;
        return true;
      }
      return false;
    }

    /** `get_pending_requests`: a copy of the pending requests. */
    method GetPendingRequests() returns (r: seq<Record>)
      ensures r == pendingRequests
    {
      r := pendingRequests;
    }

    /** `get_allowed_users`: a copy of the approved users. */
    method GetAllowedUsers() returns (r: seq<Record>)
      ensures r == users
    {
      r := users;
    }

    /** The username loop of `handle_admin_callback`: the first pending request's name. */
    method LookupPendingUsername(t: int) returns (name: string)
      ensures name == FirstUsername(pendingRequests, t)
    {
      name := UnknownUsername;
      var i := 0;
      while i < |pendingRequests|
        invariant 0 <= i <= |pendingRequests|
        invariant FirstUsername(pendingRequests, t) == FirstUsername(pendingRequests[i..], t)
      {
        if pendingRequests[i].userId == t {
          name := pendingRequests[i].username;
          return;
        }
        assert pendingRequests[i..][1..] == pendingRequests[i + 1..];
        i := i + 1;
      }
    }

    /** The loop of `create_users_management_keyboard` over the users of the page. */
    method BindRemovalRows(m: CsrfManager, shown: seq<Record>, adminUserId: Option<int>, newToken: string, now: int,
                           ghost tokens: map<int, string>, ghost expiry: map<int, int>)
      returns (kb: Keyboard)
      requires shown != []
      requires m.Valid() && UrlSafeToken(newToken)
      requires StateAfter(m, adminUserId, tokens, expiry, newToken, now, false)
      modifies m
      ensures m.Valid()
      ensures StateAfter(m, adminUserId, tokens, expiry, newToken, now, true)
      ensures kb == BindKeyboard(adminUserId, RemovalRows(shown), KeyboardToken(tokens, expiry, adminUserId, newToken, now))
    {
      ghost var token := KeyboardToken(tokens, expiry, adminUserId, newToken, now);
      kb := [];
      var i := 0;
      while i < |shown|
        invariant 0 <= i <= |shown|
        invariant m.Valid()
        invariant StateAfter(m, adminUserId, tokens, expiry, newToken, now, i > 0)
        invariant kb == BindKeyboard(adminUserId, RemovalRows(shown[..i]), token)
      {
        var u := shown[i];
        var cb := BindCallback(m, adminUserId, "rm_" + IntToString(u.userId), newToken, now, tokens, expiry, i > 0);
        var row := [Button("🗑️ " + Truncate(u.username, 15) + " (" + IntToString(u.userId) + ")", cb)];
        assert row == BindRow(adminUserId, RemovalRow(u), token);
        assert RemovalRows(shown[..i + 1]) == RemovalRows(shown[..i]) + [RemovalRow(u)];
        BindKeyboardAppend(adminUserId, RemovalRows(shown[..i]), RemovalRow(u), token);
        kb := kb + [row];
        i := i + 1;
      }
      assert shown[..i] == shown;
    }

    /** `create_users_management_keyboard`: the removal layout, every callback bound with
        the administrator's token when `adminUserId` is truthy. */
    method CreateUsersManagementKeyboard(m: CsrfManager, shownUsers: seq<Record>, page: int, k: int,
                                         adminUserId: Option<int>, newToken: string, now: int)
      returns (kb: Keyboard)
      requires k >= 1
      requires m.Valid() && UrlSafeToken(newToken)
      modifies m
      ensures m.Valid()
      ensures kb == BindKeyboard(adminUserId, UsersManagementLayout(shownUsers, page, k),
                                 KeyboardToken(old(m.userTokens), old(m.tokenExpiry), adminUserId, newToken, now))
      ensures StateAfter(m, adminUserId, old(m.userTokens), old(m.tokenExpiry), newToken, now, shownUsers != [])
    {
      ghost var tokens, expiry := m.userTokens, m.tokenExpiry;
      ghost var token := KeyboardToken(tokens, expiry, adminUserId, newToken, now);
      if shownUsers == [] {
        return [];
      }
      var total := TotalPages(|shownUsers|, k);
      var p := ClampPage(page, total);
      var shown := PageSlice(shownUsers, p, k);
      kb := BindRemovalRows(m, shown, adminUserId, newToken, now, tokens, expiry);
      var navRows: Keyboard := [];
      if total > 1 {
        var nav := BuildNavRow(m, adminUserId, p, total, "up_" + IntToString(p - 1), "upi", "up_" + IntToString(p + 1),
                               newToken, now, tokens, expiry, true);
        navRows := [nav];
        BindKeyboardAppend(adminUserId, [], UsersNav(p, total)[0], token);
      }
      assert navRows == BindKeyboard(adminUserId, UsersNav(p, total), token);
      var cb := BindCallback(m, adminUserId, "back_to_menu", newToken, now, tokens, expiry, true);
      var back := [Button("🔙 Назад до меню", cb)];
      assert back == BindRow(adminUserId, BackToMenuRow, token);
      BindKeyboardAppend(adminUserId, [], BackToMenuRow, token);
      assert [] + [BackToMenuRow] == [BackToMenuRow];
      assert [back] == BindKeyboard(adminUserId, [BackToMenuRow], token);
      BindKeyboardConcat(adminUserId, RemovalRows(shown), UsersNav(p, total), token);
      BindKeyboardConcat(adminUserId, RemovalRows(shown) + UsersNav(p, total), [BackToMenuRow], token);
      kb := kb + navRows + [back];
    }

    /** `send_access_request_to_admin`: records the request, then builds the approve / deny
        buttons bound with the ADMINISTRATOR's token (bound even when `adminId` is 0). */
    method SendAccessRequestToAdmin(m: CsrfManager, u: int, username: string, adminId: int,
                                    newToken: string, now: int)
      returns (kb: Keyboard)
      requires m.Valid() && UrlSafeToken(newToken)
      modifies this, m
      ensures m.Valid()
      ensures users == old(users)
      ensures var name := if username == "" then NoUsername else username;
        && (Listed(old(pendingRequests), u) ==> pendingRequests == old(pendingRequests))
        && (!Listed(old(pendingRequests), u) ==> pendingRequests == old(pendingRequests) + [Record(u, name, now)])
      ensures var t := BindingToken(old(m.userTokens), old(m.tokenExpiry), adminId, newToken, now);
        kb == [[Button("✅ Разрешить", Bind(ApproveData(u), t)), Button("❌ Отклонить", Bind(DenyData(u), t))]]
      ensures m.userTokens == TokensAfterBind(old(m.userTokens), old(m.tokenExpiry), adminId, newToken, now)
      ensures m.tokenExpiry == ExpiryAfterBind(old(m.userTokens), old(m.tokenExpiry), adminId, newToken, now)
      ensures saves == old(saves) + (if Listed(old(pendingRequests), u) then 0 else 1)
    {
      var name := if username == "" then NoUsername else username;
      AddUserRequest(u, name, now);
      ghost var tokens, expiry := m.userTokens, m.tokenExpiry;
      var approve := m.AddCsrfToCallbackData(adminId, ApproveData(u), newToken, now);
      BindAgain(tokens, expiry, adminId, newToken, newToken, now);
      var deny := m.AddCsrfToCallbackData(adminId, DenyData(u), newToken, now);
      kb := [[Button("✅ Разрешить", approve), Button("❌ Отклонить", deny)]];
    }

    /** `handle_admin_callback` as written: the CSRF check on the raw callback data, then the
        approve / deny action, whoever clicked. */
    method HandleAdminCallbackAsWritten(m: CsrfManager, clicker: int, raw: string, now: int)
      returns (outcome: AdminOutcome)
      requires m.Valid()
      modifies this, m
      ensures m.Valid()
      ensures (Registry(users, pendingRequests), outcome)
        == AdminStep(Registry(old(users), old(pendingRequests)), raw,
                     Extracted(old(m.userTokens), old(m.tokenExpiry), clicker, raw, now), clicker, 0, false, now)
      ensures Unbind(raw).Some? && old(m.HasExpiredToken(clicker, now)) ==>
        m.userTokens == old(m.userTokens) - {clicker} && m.tokenExpiry == old(m.tokenExpiry) - {clicker}
      ensures !(Unbind(raw).Some? && old(m.HasExpiredToken(clicker, now))) ==>
        m.userTokens == old(m.userTokens) && m.tokenExpiry == old(m.tokenExpiry)
      ensures saves == old(saves) + (if outcome.Approved? || outcome.Denied? then 1 else 0)
    {
      outcome := HandleAdminCallbackImpl(m, clicker, 0, false, raw, now);
    }

    /** `handle_admin_callback` corrected: only the administrator's clicks take effect. */
    method HandleAdminCallback(m: CsrfManager, clicker: int, adminId: int, raw: string, now: int)
      returns (outcome: AdminOutcome)
      requires m.Valid()
      modifies this, m
      ensures m.Valid()
      ensures (Registry(users, pendingRequests), outcome)
        == AdminStep(Registry(old(users), old(pendingRequests)), raw,
                     Extracted(old(m.userTokens), old(m.tokenExpiry), clicker, raw, now), clicker, adminId, true, now)
      ensures clicker != adminId ==> users == old(users) && pendingRequests == old(pendingRequests)
      ensures Unbind(raw).Some? && old(m.HasExpiredToken(clicker, now)) ==>
        m.userTokens == old(m.userTokens) - {clicker} && m.tokenExpiry == old(m.tokenExpiry) - {clicker}
      ensures !(Unbind(raw).Some? && old(m.HasExpiredToken(clicker, now))) ==>
        m.userTokens == old(m.userTokens) && m.tokenExpiry == old(m.tokenExpiry)
      ensures saves == old(saves) + (if outcome.Approved? || outcome.Denied? then 1 else 0)
    {
      outcome := HandleAdminCallbackImpl(m, clicker, adminId, true, raw, now);
    }

    /** The approve / deny part of `handle_admin_callback`, on the extracted action. */
    method ApplyDecision(data: string, now: int) returns (outcome: AdminOutcome)
      modifies this
      ensures (Registry(users, pendingRequests), outcome) == DecideAsWritten(Registry(old(users), old(pendingRequests)), data, now)
      ensures saves == old(saves) + (if outcome.Approved? || outcome.Denied? then 1 else 0)
    {
      match ParseDecision(data)
      case NotDecision =>
        return Ignored;
      case BadUserId =>
        return Unparsable;
      case Parsed(Approve(t)) =>
        var name := LookupPendingUsername(t);
        var ok := ApproveUser(t, name, now);
        if ok {
          return Approved(t, name);
        }
        return ApproveFailed(t);
      case Parsed(Deny(t)) =>
        var name := LookupPendingUsername(t);
        ghost var before := pendingRequests;
        var ok := DenyUser(t, name);
        if ok {
          return Denied(t, name);
        }
        WithoutUnlisted(before, t);
        return DenyFailed(t);
    }

    method HandleAdminCallbackImpl(m: CsrfManager, clicker: int, adminId: int, checkAdmin: bool, raw: string, now: int)
      returns (outcome: AdminOutcome)
      requires m.Valid()
      modifies this, m
      ensures m.Valid()
      ensures (Registry(users, pendingRequests), outcome)
        == AdminStep(Registry(old(users), old(pendingRequests)), raw,
                     Extracted(old(m.userTokens), old(m.tokenExpiry), clicker, raw, now), clicker, adminId, checkAdmin, now)
      ensures Unbind(raw).Some? && old(m.HasExpiredToken(clicker, now)) ==>
        m.userTokens == old(m.userTokens) - {clicker} && m.tokenExpiry == old(m.tokenExpiry) - {clicker}
      ensures !(Unbind(raw).Some? && old(m.HasExpiredToken(clicker, now))) ==>
        m.userTokens == old(m.userTokens) && m.tokenExpiry == old(m.tokenExpiry)
      ensures saves == old(saves) + (if outcome.Approved? || outcome.Denied? then 1 else 0)
    {
      if Unbind(raw).None? {
        return MissingToken;
      }
      var data := m.ExtractCallbackData(clicker, raw, now);
      if data.None? || data.value == "" {
        return InvalidToken;
      }
      if checkAdmin && clicker != adminId {
        return NotAdmin;
      }
      outcome := ApplyDecision(data.value, now);
    }
  }
}
