/**
 * The e-mail second factor (email_auth.py): a store of one pending challenge per user
 * (`codes_data["codes"]`, keyed by the user id) with its issue, verify, resend and
 * expiry-cleanup lifecycle. Delivery by SMTP is the boolean `delivered`, the random
 * six-digit code is an argument, and time is integer seconds `now`.
 */
module EmailAuth {
  import opened Wrappers
  import opened Text
  import opened Sets

  const CodeLength: int := 6
  const CodeExpiryMinutes: int := 60
  const MaxAttempts: int := 3

  /** One stored challenge. `expiresAt` is `None` when the stored timestamp text does not
      parse (only possible for data loaded from disk), which counts as expired. */
  datatype Challenge = Challenge(code: string, expiresAt: Option<int>, attempts: int, maxAttempts: int, username: string)

  /** The dictionary `verify_code` returns. */
  datatype VerifyResult = VerifyResult(success: bool, message: string, canRetry: bool)

  const NotFoundMessage: string := "Код не знайдено. Спробуйте спочатку ввести пін-код."
  const ExpiredMessage: string := "Код прострочений. Спробуйте спочатку ввести пін-код."
  const BlockedMessage: string := "Перевищено кількість спроб. Доступ заблоковано."
  const ConfirmedMessage: string := "Код підтверджено!"

  function WrongCodeMessage(remaining: int): string {
    "Невірний код. Залишилось спроб: " + IntToString(remaining)
  }

  /** `_is_code_expired`: past its expiry, or with an expiry that does not parse. */
  predicate IsCodeExpired(expiresAt: Option<int>, now: int) {
    expiresAt.None? || now > expiresAt.value
  }

  /** What `_generate_code` can produce: six decimal digits. */
  predicate IsGeneratedCode(code: string) {
    |code| == CodeLength && AllDigits(code)
  }

  /** An expired challenge never becomes valid again. */
  lemma ExpiredStaysExpired(expiresAt: Option<int>, now: int, later: int)
    requires IsCodeExpired(expiresAt, now) && now <= later
    ensures IsCodeExpired(expiresAt, later)
  {
  }

  /** The record a send stores: no attempts yet, three allowed, valid for sixty minutes. */
  function NewChallenge(code: string, username: string, now: int): (r: Challenge)
    ensures r.code == code && r.username == username
    ensures r.attempts == 0 && r.maxAttempts == MaxAttempts
    ensures forall t :: IsCodeExpired(r.expiresAt, t) <==> t > now + 3600
  {
    Challenge(code, Some(now + CodeExpiryMinutes * 60), 0, MaxAttempts, username)
  }

  /** The users whose challenge has expired at `now`. */
  function ExpiredCodes(codes: map<int, Challenge>, now: int): set<int> {
    set u | u in codes && IsCodeExpired(codes[u].expiresAt, now)
  }

  /** The store after `_cleanup_expired_codes`: exactly the unexpired challenges. */
  function LiveCodes(codes: map<int, Challenge>, now: int): (r: map<int, Challenge>)
    ensures forall u :: u in r <==> u in codes && !IsCodeExpired(codes[u].expiresAt, now)
    ensures forall u :: u in r ==> r[u] == codes[u]
  {
    codes - ExpiredCodes(codes, now)
  }

  /** The store after `send_verification_code`: the cleaned store with a new challenge for
      `u` when the mail went out, and without any challenge for `u` when it did not. */
  function AfterSend(codes: map<int, Challenge>, u: int, username: string, code: string, delivered: bool, now: int): (r: map<int, Challenge>)
    ensures delivered ==> u in r && r[u] == NewChallenge(code, username, now)
    ensures !delivered ==> u !in r
    ensures forall v :: v != u ==> (v in r <==> v in codes && !IsCodeExpired(codes[v].expiresAt, now))
    ensures forall v :: v != u && v in r ==> r[v] == codes[v]
  {
    if delivered then LiveCodes(codes, now)[u := NewChallenge(code, username, now)]
    else LiveCodes(codes, now) - {u}
  }

  /** `verify_code` on the store `codes`: the result and the store it leaves. */
  function Verify(codes: map<int, Challenge>, u: int, input: string, now: int): (r: (VerifyResult, map<int, Challenge>))
    ensures r.1.Keys <= codes.Keys
    ensures forall v :: v != u && v in codes ==> v in r.1 && r.1[v] == codes[v]
    ensures r.0.success ==> !r.0.canRetry && u !in r.1
    ensures r.0.canRetry <==> u in r.1
    ensures r.0.canRetry ==> r.1[u] == codes[u].(attempts := codes[u].attempts + 1)
  {
    if u !in codes then (VerifyResult(false, NotFoundMessage, false), codes)
    else
      var c := codes[u];
      if IsCodeExpired(c.expiresAt, now) then (VerifyResult(false, ExpiredMessage, false), codes - {u})
      else if c.attempts >= c.maxAttempts then (VerifyResult(false, BlockedMessage, false), codes - {u})
      else if input == c.code then (VerifyResult(true, ConfirmedMessage, false), codes - {u})
      else
        var remaining := c.maxAttempts - (c.attempts + 1);
        if remaining > 0 then
          (VerifyResult(false, WrongCodeMessage(remaining), true), codes[u := c.(attempts := c.attempts + 1)])
        else (VerifyResult(false, BlockedMessage, false), codes - {u})
  }

  /** Every stored challenge still has attempts left: `0 <= attempts < max_attempts`. */
  ghost predicate WellFormed(codes: map<int, Challenge>) {
    forall u :: u in codes ==> 0 <= codes[u].attempts < codes[u].maxAttempts
  }

  /** Without a challenge the answer is "not found", nothing is retried and the store is
      left as it is. */
  lemma VerifyNotFound(codes: map<int, Challenge>, u: int, input: string, now: int)
    requires u !in codes
    ensures Verify(codes, u, input, now) == (VerifyResult(false, NotFoundMessage, false), codes)
  {
  }

  /** An expired challenge (including one whose expiry does not parse) is deleted and
      cannot be retried, whatever code was typed. */
  lemma VerifyExpired(codes: map<int, Challenge>, u: int, input: string, now: int)
    requires u in codes && IsCodeExpired(codes[u].expiresAt, now)
    ensures var (r, after) := Verify(codes, u, input, now);
      !r.success && !r.canRetry && after == codes - {u}
  {
  }

  /** The right code succeeds, deletes the challenge, and the same code right after is "not found". */
  lemma VerifyCorrectOnce(codes: map<int, Challenge>, u: int, now: int)
    requires u in codes && !IsCodeExpired(codes[u].expiresAt, now) && WellFormed(codes)
    ensures var (r, after) := Verify(codes, u, codes[u].code, now);
      && r.success && after == codes - {u}
      && Verify(after, u, codes[u].code, now).0 == VerifyResult(false, NotFoundMessage, false)
  {
  }

  /** Success happens only for the stored, unexpired code of the user. */
  lemma VerifySuccessOnlyWithCode(codes: map<int, Challenge>, u: int, input: string, now: int)
    ensures Verify(codes, u, input, now).0.success <==>
      u in codes && !IsCodeExpired(codes[u].expiresAt, now) && codes[u].attempts < codes[u].maxAttempts && input == codes[u].code
  {
  }

  /** A wrong code counts exactly one attempt: the challenge is kept, and may be retried,
      iff attempts remain afterwards; otherwise it is deleted. */
  lemma VerifyWrongCode(codes: map<int, Challenge>, u: int, input: string, now: int)
    requires u in codes && !IsCodeExpired(codes[u].expiresAt, now) && WellFormed(codes)
    requires input != codes[u].code
    ensures var (r, after) := Verify(codes, u, input, now);
      var c := codes[u];
      && !r.success
      && (r.canRetry <==> c.maxAttempts - (c.attempts + 1) > 0)
      && (r.canRetry ==> after == codes[u := c.(attempts := c.attempts + 1)])
      && (!r.canRetry ==> after == codes - {u})
  {
  }

  /** No challenge is ever stored with its attempts used up: sending, cleaning up and
      verifying keep every stored challenge at `0 <= attempts < max_attempts`. */
  lemma {:induction false} WellFormedPreserved(codes: map<int, Challenge>, u: int, username: string, code: string, delivered: bool, input: string, now: int)
    requires WellFormed(codes)
    ensures WellFormed(AfterSend(codes, u, username, code, delivered, now))
    ensures WellFormed(Verify(codes, u, input, now).1)
  {
    var sent := AfterSend(codes, u, username, code, delivered, now);
    forall v | v in sent ensures 0 <= sent[v].attempts < sent[v].maxAttempts {
      if v != u || !delivered {
        assert v in codes && sent[v] == codes[v];
      }
    }
  }

  class Email2FA {
    var codes: map<int, Challenge>

    /** Starts from the store loaded from disk, which need not be well formed. */
    constructor (loaded: map<int, Challenge>)
      ensures codes == loaded
    {
      codes := loaded;
    }

    /** `_cleanup_expired_codes`: collects the users whose challenge has expired, then
        deletes them one by one. */
    method CleanupExpiredCodes(now: int)
      modifies this
      ensures codes == LiveCodes(old(codes), now)
    {
      var expired: set<int> := {};
      var unseen := codes.Keys;
      while unseen != {}
        invariant codes == old(codes)
        invariant unseen <= codes.Keys
        invariant expired == ExpiredCodes(codes, now) - unseen
        decreases unseen
      {
        ghost var w := Pick(unseen);
        var u :| u in unseen;
        if IsCodeExpired(codes[u].expiresAt, now) {
          expired := expired + {u};
        }
        unseen := unseen - {u};
      }
      var doomed := expired;
      while doomed != {}
        invariant doomed <= expired
        invariant codes == old(codes) - (expired - doomed)
        decreases doomed
      {
        ghost var w := Pick(doomed);
        var u :| u in doomed;
        codes := codes - {u};
        doomed := doomed - {u};
      }
    }

    /** `send_verification_code`: cleans up, stores a new challenge for `u` (replacing any
        other), and gives back the code when the mail was delivered; when it was not, the
        challenge is deleted again and the answer is `None`. */
    method SendVerificationCode(u: int, username: string, code: string, delivered: bool, now: int)
      returns (r: Option<string>)
      requires IsGeneratedCode(code)
      modifies this
      ensures codes == AfterSend(old(codes), u, username, code, delivered, now)
      ensures delivered ==> r == Some(code) && codes[u] == NewChallenge(code, username, now)
      ensures !delivered ==> r == None && u !in codes
    {
      CleanupExpiredCodes(now);
      codes := codes[u := NewChallenge(code, username, now)];
      if delivered {
        return Some(code);
      }
      if u in codes {
        codes := codes - {u};
      }
      return None;
    }

    /** `verify_code`. */
    method VerifyCode(u: int, input: string, now: int) returns (r: VerifyResult)
      modifies this
      ensures (r, codes) == Verify(old(codes), u, input, now)
    {
      if u !in codes {
        return VerifyResult(false, NotFoundMessage, false);
      }
      var c := codes[u];
      if IsCodeExpired(c.expiresAt, now) {
        codes := codes - {u};
        return VerifyResult(false, ExpiredMessage, false);
      }
      if c.attempts >= c.maxAttempts {
        codes := codes - {u};
        return VerifyResult(false, BlockedMessage, false);
      }
      if input == c.code {
        codes := codes - {u};
        return VerifyResult(true, ConfirmedMessage, false);
      }
      c := c.(attempts := c.attempts + 1);
      codes := codes[u := c];
      var remaining := c.maxAttempts - c.attempts;
      if remaining > 0 {
        return VerifyResult(false, WrongCodeMessage(remaining), true);
      }
      assert codes - {u} == old(codes) - {u};
      codes := codes - {u};
      return VerifyResult(false, BlockedMessage, false);
    }

    /** `resend_code`: drops the old challenge, then sends a new one; a delivered resend
        leaves a challenge with no attempts counted. */
    method ResendCode(u: int, username: string, code: string, delivered: bool, now: int)
      returns (r: Option<string>)
      requires IsGeneratedCode(code)
      modifies this
      ensures codes == AfterSend(old(codes) - {u}, u, username, code, delivered, now)
      ensures delivered ==> r == Some(code) && codes[u].attempts == 0 && codes[u].code == code
      ensures !delivered ==> r == None && u !in codes
    {
      if u in codes {
        codes := codes - {u};
      }
      r := SendVerificationCode(u, username, code, delivered, now);
    }
  }
}
