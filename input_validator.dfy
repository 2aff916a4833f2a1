/**
 * Input validation (input_validator.py): length limits for messages, search queries and
 * group names, the PIN, 2FA-code and UUID shapes, the suspicious-character filter and
 * `sanitize_input`. The three patterns are anchored with `^...$`, and Python's `$` also
 * matches just before one final line feed, so each shape is checked on the text with one
 * trailing "\n" dropped.
 */
module InputValidation {
  import opened Wrappers
  import opened Text

  const MaxMessageLength: int := 1000
  const MaxQueryLength: int := 200
  const MaxGroupNameLength: int := 100

  /** The dictionary every `validate_*` returns: `valid`, `message`, and for a length
      failure `current_length` and `max_length`, for a success `cleaned_*` where given. */
  datatype Validation = Validation(valid: bool, message: string, currentLength: Option<int>,
                                   maxLength: Option<int>, cleaned: Option<string>)

  function Fail(message: string): Validation {
    Validation(false, message, None, None, None)
  }

  function TooLong(message: string, current: int, limit: int): Validation {
    Validation(false, message, Some(current), Some(limit), None)
  }

  function Pass(message: string): Validation {
    Validation(true, message, None, None, None)
  }

  /** The 20 characters a search query may not contain. */
  const SuspiciousChars: seq<char> :=
    ['<', '>', '"', '\'', '&', ';', '(', ')', '{', '}', '[', ']', '|', '\\', '/', '*', '?', '`', '~', '$']

  predicate IsHexDigit(c: char) {
    IsAsciiDigit(c) || ('a' <= c <= 'f') || ('A' <= c <= 'F')
  }

  /** Text matched by `[0-9]{4,10}`. */
  predicate PinShape(s: string) {
    4 <= |s| <= 10 && AllDigits(s)
  }

  /** Text matched by `[0-9]{6}`. */
  predicate TwofaShape(s: string) {
    |s| == 6 && AllDigits(s)
  }

  /** Text matched by `[0-9a-f]{8}-[0-9a-f]{4}-[0-9a-f]{4}-[0-9a-f]{4}-[0-9a-f]{12}` ignoring
      case: the textual UUID form of section 3 of RFC 4122. */
  predicate UuidShape(s: string) {
    && |s| == 36
    && forall i :: 0 <= i < 36 ==>
         if i == 8 || i == 13 || i == 18 || i == 23 then s[i] == '-' else IsHexDigit(s[i])
  }

  /** What `$` leaves to the pattern: the text without one final line feed. */
  function DropFinalNewline(s: string): (r: string)
    ensures r == s || (s == r + "\n")
  {
    if s != [] && s[|s| - 1] == '\n' then s[..|s| - 1] else s
  }

  /** Python's `re.match(r'^<shape>$', s)`, given that no shape contains a line feed:
      the text is the shape, or the shape followed by one line feed. */
  lemma DollarMatch(s: string, body: string)
    requires forall i :: 0 <= i < |body| ==> body[i] != '\n'
    ensures DropFinalNewline(s) == body <==> s == body || s == body + "\n"
  {
    if s == body + "\n" {
      assert s[..|s| - 1] == body;
    }
    if s == body && s != [] {
      assert s[|s| - 1] == body[|body| - 1];
    }
  }

  /** `_contains_suspicious_chars` as a predicate. */
  predicate Suspicious(text: string) {
    exists i :: 0 <= i < |SuspiciousChars| && SuspiciousChars[i] in text
  }

  /** `_contains_suspicious_chars`: tries each listed character in turn. */
  method ContainsSuspiciousChars(text: string) returns (found: bool)
    ensures found <==> Suspicious(text)
    ensures found <==> exists k :: 0 <= k < |text| && text[k] in SuspiciousChars
  {
    for i := 0 to |SuspiciousChars|
      invariant forall j :: 0 <= j < i ==> SuspiciousChars[j] !in text
    {
      if SuspiciousChars[i] in text {
        return true;
      }
    }
    return false;
  }

  /** `validate_message_length`. */
  function ValidateMessageLength(message: string): (r: Validation)
    ensures r.valid <==> 0 < |message| <= MaxMessageLength
    ensures |message| > MaxMessageLength ==> r.currentLength == Some(|message|) && r.maxLength == Some(MaxMessageLength)
  {
    if message == [] then Fail("Повідомлення не може бути порожнім")
    else if |message| > MaxMessageLength then
      TooLong("Повідомлення занадто довге. Максимум 1000 символів.", |message|, MaxMessageLength)
    else Pass("Повідомлення валідне")
  }

  /** `validate_search_query`: judged and cleaned after `strip`. */
  function ValidateSearchQuery(query: string): (r: Validation)
    ensures r.valid <==> Strip(query) != [] && |Strip(query)| <= MaxQueryLength && !Suspicious(Strip(query))
    ensures r.valid ==> r.cleaned == Some(Strip(query))
    ensures Strip(query) != [] && |Strip(query)| > MaxQueryLength ==> r.currentLength == Some(|Strip(query)|)
  {
    var q := Strip(query);
    if query == [] || q == [] then Fail("Пошуковий запит не може бути порожнім")
    else if |q| > MaxQueryLength then
      TooLong("Пошуковий запит занадто довгий. Максимум 200 символів.", |q|, MaxQueryLength)
    else if Suspicious(q) then Fail("Пошуковий запит містить недозволені символи")
    else Validation(true, "Пошуковий запит валідний", None, None, Some(q))
  }

  /** `validate_group_name`: like the query check, without the character filter. */
  function ValidateGroupName(groupName: string): (r: Validation)
    ensures r.valid <==> Strip(groupName) != [] && |Strip(groupName)| <= MaxGroupNameLength
    ensures r.valid ==> r.cleaned == Some(Strip(groupName))
    ensures Strip(groupName) != [] && |Strip(groupName)| > MaxGroupNameLength ==> r.currentLength == Some(|Strip(groupName)|)
  {
    var g := Strip(groupName);
    if groupName == [] || g == [] then Fail("Назва групи не може бути порожньою")
    else if |g| > MaxGroupNameLength then
      TooLong("Назва групи занадто довга. Максимум 100 символів.", |g|, MaxGroupNameLength)
    else Validation(true, "Назва групи валідна", None, None, Some(g))
  }

  /** `validate_pin_code`: four to ten ASCII digits (or those followed by one line feed). */
  function ValidatePinCode(pin: string): (r: Validation)
    ensures r.valid <==> PinShape(pin) || (|pin| > 0 && pin[|pin| - 1] == '\n' && PinShape(pin[..|pin| - 1]))
  {
    if pin == [] then Fail("Пін-код не може бути порожнім")
    else if !PinShape(DropFinalNewline(pin)) then Fail("Пін-код повинен містити тільки цифри (4-10 символів)")
    else Pass("Пін-код валідний")
  }

  /** `validate_twofa_code`: exactly six ASCII digits (or those followed by one line feed). */
  function ValidateTwofaCode(code: string): (r: Validation)
    ensures r.valid <==> TwofaShape(code) || (|code| > 0 && code[|code| - 1] == '\n' && TwofaShape(code[..|code| - 1]))
  {
    if code == [] then Fail("2FA код не може бути порожнім")
    else if !TwofaShape(DropFinalNewline(code)) then Fail("2FA код повинен містити рівно 6 цифр")
    else Pass("2FA код валідний")
  }

  /** `validate_uuid`: the 8-4-4-4-12 hexadecimal form in either case (or that followed by
      one line feed). */
  function ValidateUuid(uuid: string): (r: Validation)
    ensures r.valid <==> UuidShape(uuid) || (|uuid| > 0 && uuid[|uuid| - 1] == '\n' && UuidShape(uuid[..|uuid| - 1]))
  {
    if uuid == [] then Fail("UUID не може бути порожнім")
    else if !UuidShape(DropFinalNewline(uuid)) then Fail("Невірний формат UUID")
    else Pass("UUID валідний")
  }

  /** Once stripped, as the bot does before checking, a PIN or code is valid exactly when it
      is nothing but the digits the pattern asks for. */
  lemma StrippedCodes(s: string)
    ensures ValidatePinCode(Strip(s)).valid <==> PinShape(Strip(s))
    ensures ValidateTwofaCode(Strip(s)).valid <==> TwofaShape(Strip(s))
  {
    var t := Strip(s);
    if t != [] {
      assert IsSpace('\n');
      assert t[|t| - 1] != '\n';
    }
  }

  /** Lowering a character keeps it a hex digit, a hyphen or a line feed exactly when it was one. */
  lemma LowerCharClasses(c: char)
    ensures IsHexDigit(LowerChar(c)) == IsHexDigit(c)
    ensures LowerChar(c) == '-' <==> c == '-'
    ensures LowerChar(c) == '\n' <==> c == '\n'
  {
  }

  /** Lowering commutes with dropping the final line feed. */
  lemma {:induction false} LowerDropFinalNewline(s: string)
    ensures DropFinalNewline(Lower(s)) == Lower(DropFinalNewline(s))
  {
    if s != [] {
      LowerCharClasses(s[|s| - 1]);
      assert Lower(s)[..|s| - 1] == Lower(s[..|s| - 1]);
    }
  }

  /** The UUID shape is blind to case. */
  lemma {:induction false} UuidShapeLower(s: string)
    ensures UuidShape(Lower(s)) == UuidShape(s)
  {
    var l := Lower(s);
    forall i | 0 <= i < |s|
      ensures (IsHexDigit(l[i]) <==> IsHexDigit(s[i])) && (l[i] == '-' <==> s[i] == '-')
    {
      LowerCharClasses(s[i]);
    }
  }

  /** The UUID check ignores case: lowering the letters does not change its verdict. */
  lemma {:induction false} UuidIgnoresCase(uuid: string)
    ensures ValidateUuid(Lower(uuid)).valid == ValidateUuid(uuid).valid
  {
    LowerDropFinalNewline(uuid);
    UuidShapeLower(DropFinalNewline(uuid));
  }

  /** `sanitize_input`: "" for "", otherwise the stripped text cut to 1000 characters. */
  function SanitizeInput(text: string): (r: string)
    ensures text == [] ==> r == []
    ensures text != [] ==> |r| <= |Strip(text)| && r == Strip(text)[..|r|] && |r| == (if |Strip(text)| > MaxMessageLength then MaxMessageLength else |Strip(text)|)
  {
    if text == [] then ""
    else
      var t := Strip(text);
      if |t| > MaxMessageLength then t[..MaxMessageLength] else t
  }

  /** Sanitizing is not idempotent: the cut can leave whitespace at the end, which a second
      pass strips. */
  lemma SanitizeNotIdempotent()
    ensures var t := seq(MaxMessageLength - 1, _ => 'a') + " b";
      SanitizeInput(SanitizeInput(t)) != SanitizeInput(t)
  {
    var t := seq(MaxMessageLength - 1, _ => 'a') + " b";
    StripUnspaced(t);
    var once := SanitizeInput(t);
    assert once == t[..MaxMessageLength];
    assert once[MaxMessageLength - 1] == ' ';
    StripDropsTrailingSpace(once);
  }
}
