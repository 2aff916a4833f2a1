/**
 * Admission routing (bot.py): the per-user state machine of `handle_text_message` over the
 * session flags `waiting_for_pin` and `waiting_for_email_code`, which composes the message
 * validators, the rate limiter, the e-mail second factor and the access-request hand-off
 * to the administrator; and the CSRF gate of `handle_callback_query` with the dispatch of
 * the extracted action, the command parse of `handle_menu_callback` and its
 * `request_access` branch. Telegram replies are abstracted to a `Reply` tag; the search
 * and listing handlers the bot hands over to are not part of this model.
 */
module Bot {
  import opened Wrappers
  import opened Text
  import opened Csrf
  import opened Keyboards
  import opened Auth
  import opened RateLimiting
  import opened EmailAuth
  import opened InputValidation

  /** `context.user_data`: the flags one user's conversation is in. A missing key reads as False. */
  datatype Session = Session(waitingForPin: bool, waitingForEmailCode: bool,
                             waitingForSearch: bool, waitingForGroup: bool)

  /** The environment the bot reads at start-up. `None` is an unset variable. */
  datatype Config = Config(accessPin: string, adminUserId: int,
                           adminEmail: Option<string>, smtpServer: Option<string>,
                           smtpUsername: Option<string>, smtpPassword: Option<string>)

  /** `ACCESS_PIN` and `ADMIN_USER_ID` when the environment does not set them. */
  const DefaultAccessPin: string := "1234"
  const DefaultAdminUserId: int := 0

  /** A configured value: set and not empty (Python truthiness). */
  predicate Set(v: Option<string>) {
    v.Some? && v.value != ""
  }

  /** `all([ADMIN_EMAIL, SMTP_SERVER, SMTP_USERNAME, SMTP_PASSWORD])`. */
  predicate EmailConfigured(c: Config) {
    Set(c.adminEmail) && Set(c.smtpServer) && Set(c.smtpUsername) && Set(c.smtpPassword)
  }

  /** What the bot answers a text message with. */
  datatype Reply =
    | InvalidInput(message: string)     // a validator's refusal, shown after "❌ "
    | Throttled(wait: int)              // a rate limiter's refusal: seconds to wait
    | WrongPin
    | EmailConfigError                  // correct PIN, but e-mail is not configured
    | CodeSent
    | CodeSendFailed
    | CodeResent
    | ResendFailed
    | AccessRequested                   // the code was right: the administrator was asked
    | CodeRejected(message: string, canRetry: bool)
    | NoAccess
    | Search(query: string)             // handed to the search handler
    | GroupSearch(group: string)        // handed to the group-search handler
    | NotUnderstood

  /** The name a user goes by: `user.username or "без username"`. */
  function DisplayName(username: string): (r: string)
    ensures r != ""
    ensures username != "" ==> r == username
  {
    if username == "" then NoUsername else username
  }

  /** Effect of the PIN branch: the new session, the reply, the limiter's PIN attempts and
      the 2FA store. */
  datatype PinEffect = PinEffect(session: Session, reply: Reply,
                                 pins: map<int, seq<int>>, codes: map<int, Challenge>)

  /** The PIN branch (bot.py:203-253) for a user `u` whose message is `text`: format check,
      then a PIN rate slot, then the PIN itself; a correct PIN forgets the user's PIN
      attempts, moves the session on to the e-mail code and sends a code, and moves it back
      if the code could not be sent. */
  function PinStep(s: Session, text: string, config: Config, pins: map<int, seq<int>>,
                   maxPin: int, lockout: int, codes: map<int, Challenge>,
                   u: int, name: string, code: string, delivered: bool, now: int): (e: PinEffect)
    requires maxPin >= 1
    ensures e.session.waitingForSearch == s.waitingForSearch && e.session.waitingForGroup == s.waitingForGroup
    ensures e.reply == CodeSent ==> text == config.accessPin && delivered && u in e.codes
    ensures e.codes != codes ==> text == config.accessPin
  {
    var format := ValidatePinCode(text);
    if !format.valid then PinEffect(s, InvalidInput(format.message), pins, codes)
    else
      var (v, after) := Check(Attempts(pins, u), now, lockout, maxPin);
      var counted := pins[u := after];
      if v.Denied? then PinEffect(s, Throttled(v.wait), counted, codes)
      else if text != config.accessPin then PinEffect(s, WrongPin, counted, codes)
      else
        var moved := s.(waitingForPin := false, waitingForEmailCode := true);
        var reset := counted - {u};
        if !EmailConfigured(config) then PinEffect(moved, EmailConfigError, reset, codes)
        else if delivered then PinEffect(moved, CodeSent, reset, AfterSend(codes, u, name, code, true, now))
        else PinEffect(s.(waitingForPin := true, waitingForEmailCode := false), CodeSendFailed, reset,
                       AfterSend(codes, u, name, code, false, now))
  }

  /** The branch's promises: a malformed PIN costs no rate slot and changes nothing; a
      refused or wrong PIN changes no flag and issues no challenge; a correct one forgets
      the PIN attempts and leaves the session waiting for the e-mail code, with a challenge
      stored exactly when the code went out, unless sending failed, which moves it back. */
  lemma PinStepEffects(s: Session, text: string, config: Config, pins: map<int, seq<int>>,
                       maxPin: int, lockout: int, codes: map<int, Challenge>,
                       u: int, name: string, code: string, delivered: bool, now: int)
    requires maxPin >= 1 && s.waitingForPin
    ensures var e := PinStep(s, text, config, pins, maxPin, lockout, codes, u, name, code, delivered, now);
      && (!ValidatePinCode(text).valid ==> e.pins == pins && e.session == s && e.codes == codes)
      && (e.reply.Throttled? || e.reply == WrongPin ==> e.session == s && e.codes == codes && u in e.pins)
      && (text == config.accessPin && ValidatePinCode(text).valid && !e.reply.Throttled? ==>
            && u !in e.pins && e.pins == pins - {u}
            && (e.reply == EmailConfigError ==> !e.session.waitingForPin && e.session.waitingForEmailCode && e.codes == codes)
            && (e.reply == CodeSent ==> !e.session.waitingForPin && e.session.waitingForEmailCode && e.codes[u] == NewChallenge(code, name, now))
            && (e.reply == CodeSendFailed ==> e.session == s.(waitingForEmailCode := false) && u !in e.codes))
  {
    var e := PinStep(s, text, config, pins, maxPin, lockout, codes, u, name, code, delivered, now);
    if text == config.accessPin && ValidatePinCode(text).valid && !e.reply.Throttled? {
      var after := Check(Attempts(pins, u), now, lockout, maxPin).1;
      assert pins[u := after] - {u} == pins - {u};
    }
  }

  /** Only the configured PIN gets a user out of the PIN state, and only when it is well
      formed and a rate slot was free; the other flags stay as they were. */
  lemma {:induction false} PinStateLeftOnlyWithPin(s: Session, text: string, config: Config, pins: map<int, seq<int>>,
                                                  maxPin: int, lockout: int, codes: map<int, Challenge>,
                                                  u: int, name: string, code: string, delivered: bool, now: int)
    requires maxPin >= 1 && s.waitingForPin
    ensures var e := PinStep(s, text, config, pins, maxPin, lockout, codes, u, name, code, delivered, now);
      && (!e.session.waitingForPin <==>
            text == config.accessPin && ValidatePinCode(text).valid
            && |Prune(Attempts(pins, u), now, lockout)| < maxPin
            && (delivered || !EmailConfigured(config)))
      && e.session.waitingForSearch == s.waitingForSearch && e.session.waitingForGroup == s.waitingForGroup
  {
    var e := PinStep(s, text, config, pins, maxPin, lockout, codes, u, name, code, delivered, now);
    if ValidatePinCode(text).valid {
      CheckOutcome(Attempts(pins, u), now, lockout, maxPin);
    }
  }

  /** Effect of the e-mail-code branch: the session, the reply, the limiter's 2FA
      attempts, the 2FA store, and whether the access request goes to the administrator. */
  datatype CodeEffect = CodeEffect(session: Session, reply: Reply, twofas: map<int, seq<int>>,
                                   codes: map<int, Challenge>, requested: bool)

  /** The word that asks for a new code, compared case-insensitively. */
  const ResendWord: string := "resend"

  /** The e-mail-code branch (bot.py:256-311): `resend` sends a new code; anything else must
      be six digits and get a 2FA rate slot before the store checks it. The right code
      ends the wait and asks the administrator; a wrong one keeps the wait only while the
      code may be retried. */
  function EmailStep(s: Session, text: string, twofas: map<int, seq<int>>, maxTwofa: int, lockout: int,
                     codes: map<int, Challenge>, u: int, name: string, code: string, delivered: bool,
                     now: int): (e: CodeEffect)
    requires maxTwofa >= 1
    ensures e.session.waitingForPin == s.waitingForPin
    ensures e.requested ==> u in codes && text == codes[u].code && !IsCodeExpired(codes[u].expiresAt, now)
  {
    if Lower(text) == ResendWord then
      CodeEffect(s, if delivered then CodeResent else ResendFailed, twofas,
                 AfterSend(codes - {u}, u, name, code, delivered, now), false)
    else
      var format := ValidateTwofaCode(text);
      if !format.valid then CodeEffect(s, InvalidInput(format.message), twofas, codes, false)
      else
        var (v, after) := Check(Attempts(twofas, u), now, lockout, maxTwofa);
        var counted := twofas[u := after];
        if v.Denied? then CodeEffect(s, Throttled(v.wait), counted, codes, false)
        else
          var (r, left) := Verify(codes, u, text, now);
          if r.success then CodeEffect(s.(waitingForEmailCode := false), AccessRequested, counted, left, true)
          else if r.canRetry then CodeEffect(s, CodeRejected(r.message, true), counted, left, false)
          else CodeEffect(s.(waitingForEmailCode := false), CodeRejected(r.message, false), counted, left, false)
  }

  /** `resend` in any letter case skips the format check and the 2FA rate limiter, and
      replaces the user's challenge; it never changes the session. */
  lemma ResendBypassesChecks(s: Session, text: string, twofas: map<int, seq<int>>, maxTwofa: int, lockout: int,
                             codes: map<int, Challenge>, u: int, name: string, code: string, delivered: bool, now: int)
    requires maxTwofa >= 1 && Lower(text) == ResendWord
    ensures var e := EmailStep(s, text, twofas, maxTwofa, lockout, codes, u, name, code, delivered, now);
      && !ValidateTwofaCode(text).valid
      && e.twofas == twofas && e.session == s && !e.requested
      && (delivered ==> e.codes[u] == NewChallenge(code, name, now))
      && (!delivered ==> u !in e.codes)
  {
    assert Lower(text)[0] == 'r';
    assert text[0] == 'r' || text[0] == 'R';
  }

  /** The wait for the code ends exactly when the code was right or can no longer be
      retried; the PIN flag is never touched; only the stored, unexpired code of the user
      asks the administrator. */
  lemma {:induction false} EmailStepFlags(s: Session, text: string, twofas: map<int, seq<int>>, maxTwofa: int, lockout: int,
                                         codes: map<int, Challenge>, u: int, name: string, code: string, delivered: bool, now: int)
    requires maxTwofa >= 1 && s.waitingForEmailCode
    ensures var e := EmailStep(s, text, twofas, maxTwofa, lockout, codes, u, name, code, delivered, now);
      && e.session.waitingForPin == s.waitingForPin
      && (e.reply == AccessRequested <==> e.requested)
      && (e.requested ==> !e.session.waitingForEmailCode && u in codes && text == codes[u].code
                          && !IsCodeExpired(codes[u].expiresAt, now))
      && (e.reply.CodeRejected? ==> (e.session.waitingForEmailCode <==> e.reply.canRetry))
      && (!e.reply.CodeRejected? && !e.requested ==> e.session == s)
  {
    var e := EmailStep(s, text, twofas, maxTwofa, lockout, codes, u, name, code, delivered, now);
    if Lower(text) != ResendWord && ValidateTwofaCode(text).valid {
      VerifySuccessOnlyWithCode(codes, u, text, now);
    }
  }

  /** Admission end to end: the configured PIN, then the code that was mailed for it
      within the hour, with rate slots free at both steps, leaves the user in neither
      waiting state with the access request sent. */
  lemma {:induction false} AdmissionRoundTrip(s: Session, config: Config, pins: map<int, seq<int>>, maxPin: int, pinLockout: int,
                                             twofas: map<int, seq<int>>, maxTwofa: int, twofaLockout: int,
                                             codes: map<int, Challenge>, u: int, name: string, code: string,
                                             now: int, later: int, nextCode: string, nextDelivered: bool)
    requires maxPin >= 1 && maxTwofa >= 1 && s.waitingForPin
    requires ValidatePinCode(config.accessPin).valid && EmailConfigured(config)
    requires |Prune(Attempts(pins, u), now, pinLockout)| < maxPin
    requires |Prune(Attempts(twofas, u), later, twofaLockout)| < maxTwofa
    requires IsGeneratedCode(code) && now <= later <= now + CodeExpiryMinutes * 60
    ensures var first := PinStep(s, config.accessPin, config, pins, maxPin, pinLockout, codes, u, name, code, true, now);
      var second := EmailStep(first.session, code, twofas, maxTwofa, twofaLockout, first.codes, u, name, nextCode, nextDelivered, later);
      && first.reply == CodeSent
      && second.reply == AccessRequested && second.requested
      && !second.session.waitingForPin && !second.session.waitingForEmailCode
      && u !in second.codes
  {
    var first := PinStep(s, config.accessPin, config, pins, maxPin, pinLockout, codes, u, name, code, true, now);
    CheckOutcome(Attempts(pins, u), now, pinLockout, maxPin);
    assert first.reply == CodeSent;
    assert first.codes[u] == NewChallenge(code, name, now);
    assert Lower(code) != ResendWord by {
      assert IsAsciiDigit(code[0]);
      assert Lower(code)[0] == code[0];
    }
    assert TwofaShape(code);
    assert ValidateTwofaCode(code).valid;
    CheckOutcome(Attempts(twofas, u), later, twofaLockout, maxTwofa);
  }

  /** What a message gets once the user is in neither admission state
      (bot.py:313-350): approved users' search or group input is validated and handed on. */
  function IdleReply(s: Session, text: string, allowed: bool): (r: Reply)
    ensures !allowed <==> r == NoAccess
    ensures r.Search? ==> s.waitingForSearch && r.query == Strip(text) && r.query != []
                          && |r.query| <= MaxQueryLength && !Suspicious(r.query)
    ensures r.GroupSearch? ==> !s.waitingForSearch && s.waitingForGroup && r.group == Strip(text) && r.group != []
                               && |r.group| <= MaxGroupNameLength
    ensures r == NotUnderstood <==> allowed && !s.waitingForSearch && !s.waitingForGroup
  {
    if !allowed then NoAccess
    else if s.waitingForSearch then
      var q := ValidateSearchQuery(text);
      if !q.valid then InvalidInput(q.message) else Search(q.cleaned.value)
    else if s.waitingForGroup then
      var g := ValidateGroupName(text);
      if !g.valid then InvalidInput(g.message) else GroupSearch(g.cleaned.value)
    else NotUnderstood
  }

  /** The access request went out (`send_access_request_to_admin`): the request is pending
      once, and the administrator's buttons are bound with the administrator's token. */
  ghost predicate RequestSent(auth: AuthManager, csrf: CsrfManager, users0: seq<Record>, pending0: seq<Record>,
                              tokens0: map<int, string>, expiry0: map<int, int>, u: int, username: string,
                              adminId: int, newToken: string, now: int, kb: Keyboard)
    reads auth, csrf
  {
    && auth.users == users0
    && (Listed(pending0, u) ==> auth.pendingRequests == pending0)
    && (!Listed(pending0, u) ==> auth.pendingRequests == pending0 + [Record(u, DisplayName(username), now)])
    && kb == [[Button("✅ Разрешить", Bind(ApproveData(u), BindingToken(tokens0, expiry0, adminId, newToken, now))),
               Button("❌ Отклонить", Bind(DenyData(u), BindingToken(tokens0, expiry0, adminId, newToken, now)))]]
    && csrf.userTokens == TokensAfterBind(tokens0, expiry0, adminId, newToken, now)
    && csrf.tokenExpiry == ExpiryAfterBind(tokens0, expiry0, adminId, newToken, now)
  }

  /** Nothing was sent to the administrator and neither the registry nor the tokens moved. */
  ghost predicate NothingSent(auth: AuthManager, csrf: CsrfManager, users0: seq<Record>, pending0: seq<Record>,
                              tokens0: map<int, string>, expiry0: map<int, int>, kb: Keyboard)
    reads auth, csrf
  {
    auth.users == users0 && auth.pendingRequests == pending0
    && csrf.userTokens == tokens0 && csrf.tokenExpiry == expiry0 && kb == []
  }

  /** The PIN branch of `handle_text_message`. */
  method HandlePin(rl: RateLimiter, em: Email2FA, config: Config, s: Session, u: int, name: string,
                   text: string, code: string, delivered: bool, now: int)
    returns (s2: Session, reply: Reply)
    requires rl.Valid() && IsGeneratedCode(code)
    modifies rl, em
    ensures rl.Valid()
    ensures PinEffect(s2, reply, rl.pinAttempts, em.codes)
      == PinStep(s, text, config, old(rl.pinAttempts), rl.maxPinAttempts, rl.pinLockoutDuration,
                 old(em.codes), u, name, code, delivered, now)
    ensures rl.twofaAttempts == old(rl.twofaAttempts) && rl.requestCounts == old(rl.requestCounts)
  {
    var format := ValidatePinCode(text);
    if !format.valid {
      return s, InvalidInput(format.message);
    }
    var v := rl.CheckPinRateLimit(u, now);
    if v.Denied? {
      return s, Throttled(v.wait);
    }
    if text != config.accessPin {
      return s, WrongPin;
    }
    ghost var counted := rl.pinAttempts;
    rl.ResetPinAttempts(u);
    s2 := s.(waitingForPin := false, waitingForEmailCode := true);
    if !EmailConfigured(config) {
      return s2, EmailConfigError;
    }
    var sent := em.SendVerificationCode(u, name, code, delivered, now);
    if sent.Some? {
      reply := CodeSent;
    } else {
      reply := CodeSendFailed;
      s2 := s2.(waitingForPin := true, waitingForEmailCode := false);
    }
  }

  /** The e-mail-code branch of `handle_text_message`, with the hand-off to the administrator. */
  method HandleEmailCode(rl: RateLimiter, em: Email2FA, auth: AuthManager, csrf: CsrfManager, config: Config,
                         s: Session, u: int, username: string, text: string, code: string, delivered: bool,
                         newToken: string, now: int)
    returns (s2: Session, reply: Reply, adminKb: Keyboard)
    requires rl.Valid() && csrf.Valid() && IsGeneratedCode(code) && UrlSafeToken(newToken)
    modifies rl, em, auth, csrf
    ensures rl.Valid() && csrf.Valid()
    ensures CodeEffect(s2, reply, rl.twofaAttempts, em.codes, adminKb != [])
      == EmailStep(s, text, old(rl.twofaAttempts), rl.maxTwofaAttempts, rl.twofaLockoutDuration,
                   old(em.codes), u, DisplayName(username), code, delivered, now)
    ensures rl.pinAttempts == old(rl.pinAttempts) && rl.requestCounts == old(rl.requestCounts)
    ensures adminKb != [] ==> RequestSent(auth, csrf, old(auth.users), old(auth.pendingRequests), old(csrf.userTokens),
                                          old(csrf.tokenExpiry), u, username, config.adminUserId, newToken, now, adminKb)
    ensures adminKb == [] ==> NothingSent(auth, csrf, old(auth.users), old(auth.pendingRequests), old(csrf.userTokens),
                                          old(csrf.tokenExpiry), adminKb)
    ensures auth.saves == old(auth.saves) + (if adminKb != [] && !Listed(old(auth.pendingRequests), u) then 1 else 0)
  {
    var name := DisplayName(username);
    adminKb := [];
    if Lower(text) == ResendWord {
      var sent := em.ResendCode(u, name, code, delivered, now);
      return s, if sent.Some? then CodeResent else ResendFailed, adminKb;
    }
    var format := ValidateTwofaCode(text);
    if !format.valid {
      return s, InvalidInput(format.message), adminKb;
    }
    var v := rl.CheckTwofaRateLimit(u, now);
    if v.Denied? {
      return s, Throttled(v.wait), adminKb;
    }
    var r := em.VerifyCode(u, text, now);
    if r.success {
      s2, reply := s.(waitingForEmailCode := false), AccessRequested;
      adminKb := auth.SendAccessRequestToAdmin(csrf, u, username, config.adminUserId, newToken, now);
    } else if r.canRetry {
      s2, reply := s, CodeRejected(r.message, true);
    } else {
      s2, reply := s.(waitingForEmailCode := false), CodeRejected(r.message, false);
    }
  }

  /** `handle_text_message`: the stripped message must pass the length check and get a
      general request slot; then the PIN state, the e-mail-code state, or (for approved
      users only) the search and group inputs decide what happens. */
  method HandleTextMessage(rl: RateLimiter, em: Email2FA, auth: AuthManager, csrf: CsrfManager, config: Config,
                           s: Session, u: int, username: string, message: string, code: string, delivered: bool,
                           newToken: string, now: int)
    returns (s2: Session, reply: Reply, adminKb: Keyboard)
    requires rl.Valid() && csrf.Valid() && IsGeneratedCode(code) && UrlSafeToken(newToken)
    modifies rl, em, auth, csrf
    ensures rl.Valid() && csrf.Valid()
    ensures var text := Strip(message);
      var length := ValidateMessageLength(text);
      !length.valid ==>
        && s2 == s && reply == InvalidInput(length.message)
        && rl.requestCounts == old(rl.requestCounts)
    ensures var text := Strip(message);
      ValidateMessageLength(text).valid ==>
        var (v, after) := Check(Attempts(old(rl.requestCounts), u), now, rl.requestWindow, rl.maxRequestsPerMinute);
        && rl.requestCounts == old(rl.requestCounts)[u := after]
        && (v.Denied? ==> s2 == s && reply == Throttled(v.wait))
    ensures var text := Strip(message);
      var passed := ValidateMessageLength(text).valid
        && Check(Attempts(old(rl.requestCounts), u), now, rl.requestWindow, rl.maxRequestsPerMinute).0.Allowed?;
      && (passed && s.waitingForPin ==>
            PinEffect(s2, reply, rl.pinAttempts, em.codes)
              == PinStep(s, text, config, old(rl.pinAttempts), rl.maxPinAttempts, rl.pinLockoutDuration,
                         old(em.codes), u, DisplayName(username), code, delivered, now)
            && rl.twofaAttempts == old(rl.twofaAttempts) && adminKb == [])
      && (passed && !s.waitingForPin && s.waitingForEmailCode ==>
            CodeEffect(s2, reply, rl.twofaAttempts, em.codes, adminKb != [])
              == EmailStep(s, text, old(rl.twofaAttempts), rl.maxTwofaAttempts, rl.twofaLockoutDuration,
                           old(em.codes), u, DisplayName(username), code, delivered, now)
            && rl.pinAttempts == old(rl.pinAttempts))
      && (passed && !s.waitingForPin && !s.waitingForEmailCode ==>
            s2 == s && reply == IdleReply(s, text, Listed(old(auth.users), u)))
      && (!passed || (!s.waitingForPin && !s.waitingForEmailCode) ==>
            && rl.pinAttempts == old(rl.pinAttempts) && rl.twofaAttempts == old(rl.twofaAttempts)
            && em.codes == old(em.codes))
    ensures adminKb != [] ==> RequestSent(auth, csrf, old(auth.users), old(auth.pendingRequests), old(csrf.userTokens),
                                          old(csrf.tokenExpiry), u, username, config.adminUserId, newToken, now, adminKb)
    ensures adminKb == [] ==> NothingSent(auth, csrf, old(auth.users), old(auth.pendingRequests), old(csrf.userTokens),
                                          old(csrf.tokenExpiry), adminKb)
    ensures auth.saves == old(auth.saves) + (if adminKb != [] && !Listed(old(auth.pendingRequests), u) then 1 else 0)
  {
    var text := Strip(message);
    var name := DisplayName(username);
    adminKb := [];
    var length := ValidateMessageLength(text);
    if !length.valid {
      return s, InvalidInput(length.message), adminKb;
    }
    var v := rl.CheckRequestRateLimit(u, now);
    if v.Denied? {
      return s, Throttled(v.wait), adminKb;
    }
    if s.waitingForPin {
      s2, reply := HandlePin(rl, em, config, s, u, name, text, code, delivered, now);
      return;
    }
    if s.waitingForEmailCode {
      s2, reply, adminKb := HandleEmailCode(rl, em, auth, csrf, config, s, u, username, text, code, delivered, newToken, now);
      return;
    }
    var allowed := auth.IsUserAllowed(u);
    return s, IdleReply(s, text, allowed), adminKb;
  }

  /** Where `handle_callback_query` sends an action that passed the CSRF gate, by its
      prefix, in the order the handler tests them. */
  datatype Route =
    | Menu(command: string)     // `cmd_`: the main menu
    | AdminAction               // `approve_` / `deny_`: an access decision
    | ViewEntry                 // `e_`
    | BackToSearch              // `bs`
    | TurnPage                  // `p_`
    | RemoveUser                // `rm_`
    | UsersPage                 // `up_`
    | BackToMenu                // `back_to_menu`
    | Unhandled                 // anything else: no answer

  /** The text after the first `c` in `s`: `s.split(c, 1)[1]`. */
  function AfterFirst(s: string, c: char): (r: string)
    requires c in s
    ensures s == TakeUntil(s, c) + [c] + r
  {
    if s[0] == c then s[1..]
    else
      assert c in s[1..] by {
        var k :| 0 <= k < |s| && s[k] == c;
        assert s[1..][k - 1] == c;
      }
      var r := AfterFirst(s[1..], c);
      assert s == [s[0]] + s[1..];
      r
  }

  /** The command of a menu action: `data.split("_", 1)[1] if "_" in data else data`. */
  function MenuCommand(data: string): (r: string)
    ensures '_' !in data ==> r == data
    ensures '_' in data ==> data == TakeUntil(data, '_') + "_" + r
  {
    if '_' in data then AfterFirst(data, '_') else data
  }

  /** The text after the first `c` of `p + [c] + rest`, where `p` has no `c`, is `rest`. */
  lemma {:induction false} AfterFirstPrefix(p: string, c: char, rest: string)
    requires c !in p
    ensures c in p + [c] + rest
    ensures AfterFirst(p + [c] + rest, c) == rest
  {
    var s := p + [c] + rest;
    assert s[|p|] == c;
    if p != [] {
      assert s[1..] == p[1..] + [c] + rest;
      AfterFirstPrefix(p[1..], c, rest);
    }
  }

  /** The menu buttons carry `cmd_<command>`, and the parse gives back the command. */
  lemma MenuCommandOf(command: string)
    ensures MenuCommand("cmd_" + command) == command
  {
    AfterFirstPrefix("cmd", '_', command);
    assert "cmd" + ['_'] + command == "cmd_" + command;
  }

  /** The first dispatch of `handle_callback_query` on the action that passed the gate:
      by prefix, in the order bot.py tests them. */
  function Classify(data: string): (r: Route)
    ensures r.Menu? <==> StartsWith(data, "cmd_")
    ensures r.Menu? ==> r.command == data[4..]
    ensures r == AdminAction <==> StartsWith(data, "approve_") || StartsWith(data, "deny_")
  {
    CmdIsNotDecision(data);
    if StartsWith(data, "cmd_") then
      AfterFirstPrefix("cmd", '_', data[4..]);
      assert data == "cmd" + ['_'] + data[4..];
      Menu(MenuCommand(data))
    else if StartsWith(data, "approve_") || StartsWith(data, "deny_") then AdminAction
    else if StartsWith(data, "e_") then ViewEntry
    else if data == "bs" then BackToSearch
    else if StartsWith(data, "p_") then TurnPage
    else if StartsWith(data, "rm_") then RemoveUser
    else if StartsWith(data, "up_") then UsersPage
    else if data == "back_to_menu" then BackToMenu
    else Unhandled
  }

  /** A menu action is never an access decision. */
  lemma CmdIsNotDecision(data: string)
    ensures StartsWith(data, "cmd_") ==> !StartsWith(data, "approve_") && !StartsWith(data, "deny_")
  {
    if StartsWith(data, "cmd_") {
      assert data[0] == 'c';
      if |data| >= 5 {
        assert data[..5][0] == 'c';
      }
    }
  }

  /** What the CSRF gate lets through: nothing without a delimiter, nothing when the token
      is not the clicker's live token or the action is empty, else the bare action. */
  datatype GateResult = NoToken | BadToken | Pass(data: string)

  function Gate(tokens: map<int, string>, expiry: map<int, int>, u: int, raw: string, now: int): (g: GateResult)
    ensures g.NoToken? <==> !Contains(raw, Delimiter)
    ensures g.Pass? ==> g.data != "" && Extracted(tokens, expiry, u, raw, now) == Some(g.data)
    ensures g.Pass? ==> u in tokens && u in expiry && now <= expiry[u] && raw == Bind(g.data, tokens[u])
  {
    if !Contains(raw, Delimiter) then NoToken
    else match Extracted(tokens, expiry, u, raw, now)
      case None => BadToken
      case Some(d) => if d == "" then BadToken else Pass(d)
  }

  /** A non-empty action the bot bound for `u` with `u`'s live token passes the gate
      unchanged; bound with any other token, or once the token expired, it does not. */
  lemma {:induction false} GateRoundTrip(tokens: map<int, string>, expiry: map<int, int>, u: int, data: string,
                                         token: string, now: int)
    requires data != "" && UrlSafeToken(token)
    ensures u in tokens && u in expiry && now <= expiry[u] && token == tokens[u] ==>
      Gate(tokens, expiry, u, Bind(data, token), now) == Pass(data)
    ensures !(u in tokens && u in expiry && now <= expiry[u] && token == tokens[u]) ==>
      Gate(tokens, expiry, u, Bind(data, token), now) == BadToken
  {
    UnbindBind(data, token);
    assert Contains(Bind(data, token), Delimiter);
  }

  /** How a callback ended. */
  datatype CallbackResult =
    | Refused(gate: GateResult)          // the security error or the bad-token answer
    | AccessPrompt(back: Keyboard)       // `cmd_request_access`: the PIN prompt with a back button
    | AdminHandled(outcome: AdminOutcome)
    | Dispatched(route: Route)           // handed to a handler this model leaves out

  const RequestAccessCommand: string := "request_access"
  const BackToMenuLabel: string := "🔙 Назад в меню"
  const BackToMenuData: string := "cmd_menu"

  /** `handle_callback_query` up to dispatch, with the `request_access` menu branch and the
      approve / deny handler (with the administrator check). Whatever happens, the CSRF
      state changes only by the deletion of an expired token of the clicker. */
  method HandleCallbackQuery(csrf: CsrfManager, auth: AuthManager, config: Config, s: Session, u: int,
                             raw: string, newToken: string, now: int)
    returns (s2: Session, result: CallbackResult)
    requires csrf.Valid() && UrlSafeToken(newToken)
    modifies csrf, auth
    ensures csrf.Valid()
    ensures var g := Gate(old(csrf.userTokens), old(csrf.tokenExpiry), u, raw, now);
      && (!g.Pass? ==> s2 == s && result == Refused(g)
                       && auth.users == old(auth.users) && auth.pendingRequests == old(auth.pendingRequests))
      && (g.Pass? && Classify(g.data) == Menu(RequestAccessCommand) ==>
            && s2 == s.(waitingForPin := true, waitingForEmailCode := false)
            && result == AccessPrompt([[Button(BackToMenuLabel, Bind(BackToMenuData, old(csrf.userTokens)[u]))]])
            && auth.users == old(auth.users) && auth.pendingRequests == old(auth.pendingRequests))
      && (g.Pass? && Classify(g.data) == AdminAction ==>
            && s2 == s && result.AdminHandled?
            && (Registry(auth.users, auth.pendingRequests), result.outcome)
                 == Decide(Registry(old(auth.users), old(auth.pendingRequests)), u, config.adminUserId, g.data, now))
      && (g.Pass? && Classify(g.data) != Menu(RequestAccessCommand) && Classify(g.data) != AdminAction ==>
            && s2 == s && result == Dispatched(Classify(g.data))
            && auth.users == old(auth.users) && auth.pendingRequests == old(auth.pendingRequests))
    ensures Contains(raw, Delimiter) && old(csrf.HasExpiredToken(u, now)) ==>
      csrf.userTokens == old(csrf.userTokens) - {u} && csrf.tokenExpiry == old(csrf.tokenExpiry) - {u}
    ensures !(Contains(raw, Delimiter) && old(csrf.HasExpiredToken(u, now))) ==>
      csrf.userTokens == old(csrf.userTokens) && csrf.tokenExpiry == old(csrf.tokenExpiry)
    ensures auth.saves == old(auth.saves)
      + (if result.AdminHandled? && (result.outcome.Approved? || result.outcome.Denied?) then 1 else 0)
  {
    if !Contains(raw, Delimiter) {
      return s, Refused(NoToken);
    }
    var extracted := csrf.ExtractCallbackData(u, raw, now);
    if extracted.None? || extracted.value == "" {
      return s, Refused(BadToken);
    }
    var data := extracted.value;
    var route := Classify(data);
    if route == Menu(RequestAccessCommand) {
      var back := csrf.AddCsrfToCallbackData(u, BackToMenuData, newToken, now);
      return s.(waitingForPin := true, waitingForEmailCode := false), AccessPrompt([[Button(BackToMenuLabel, back)]]);
    }
    if route == AdminAction {
      var outcome := auth.HandleAdminCallback(csrf, u, config.adminUserId, raw, now);
      return s, AdminHandled(outcome);
    }
    return s, Dispatched(route);
  }
}
