/**
 * The parts of the KeePass handler (keepass_handler.py) that do not depend on the
 * database library: HTML escaping, the password-strength rating, the entry card shown
 * to the user, the group path, the two search filters, and the reconnect decision of a
 * handler whose database file may change on disk. The database is a sequence of entries;
 * opening it and reading the file's modification time are inputs.
 */
module KeePass {
  import opened Wrappers
  import opened Text

  /** The `path` attribute of a KeePass group: absent, a list of names, or other text. */
  datatype GroupPath = NoPath | PathList(parts: seq<string>) | PathText(text: string)

  datatype Group = Group(path: GroupPath, name: string)

  /** A database entry; `""` stands for an empty or missing field, and `expires` is the
      already formatted expiry time, when there is one. */
  datatype Entry = Entry(uuid: string, title: string, username: string, password: string, url: string,
                         notes: string, group: Option<Group>, expires: Option<string>)

  /** The dictionary the searches hand back for an entry. */
  datatype EntryRecord = EntryRecord(uuid: string, title: string, username: string, password: string, url: string,
                                     notes: string, group: string, expires: Option<string>)

  // ---------------------------------------------------------------- HTML escaping

  /** `s.replace(c, rep)` for a single character `c`. */
  function ReplaceChar(s: string, c: char, rep: string): string {
    if s == [] then [] else (if s[0] == c then rep else [s[0]]) + ReplaceChar(s[1..], c, rep)
  }

  lemma {:induction false} ReplaceCharConcat(a: string, b: string, c: char, rep: string)
    ensures ReplaceChar(a + b, c, rep) == ReplaceChar(a, c, rep) + ReplaceChar(b, c, rep)
  {
    if a != [] {
      var h := if a[0] == c then rep else [a[0]];
      assert (a + b)[0] == a[0] && (a + b)[1..] == a[1..] + b;
      ReplaceCharConcat(a[1..], b, c, rep);
      assert ReplaceChar(a + b, c, rep) == h + ReplaceChar(a[1..] + b, c, rep);
      assert ReplaceChar(a, c, rep) == h + ReplaceChar(a[1..], c, rep);
      assert h + (ReplaceChar(a[1..], c, rep) + ReplaceChar(b, c, rep))
          == (h + ReplaceChar(a[1..], c, rep)) + ReplaceChar(b, c, rep);
    } else {
      assert a + b == b;
    }
  }

  /** `&`, `<` or `>` followed by the rest of its entity starts at index `k` of `s`. */
  predicate EntityAt(s: string, k: int) {
    IsAt(s, "&amp;", k) || IsAt(s, "&lt;", k) || IsAt(s, "&gt;", k)
  }

  function EscapeChar(c: char): string {
    if c == '&' then "&amp;" else if c == '<' then "&lt;" else if c == '>' then "&gt;" else [c]
  }

  /** No `<` or `>`, and every `&` starts an entity. */
  predicate HtmlSafe(r: string) {
    && (forall i :: 0 <= i < |r| ==> r[i] != '<' && r[i] != '>')
    && (forall k :: 0 <= k < |r| && r[k] == '&' ==> EntityAt(r, k))
  }

  lemma IsAtConcat(x: string, y: string, pat: string, k: int)
    ensures IsAt(x, pat, k) ==> IsAt(x + y, pat, k)
    ensures IsAt(y, pat, k) ==> IsAt(x + y, pat, |x| + k)
  {
    if IsAt(x, pat, k) {
      assert (x + y)[k..k + |pat|] == x[k..k + |pat|];
    }
    if IsAt(y, pat, k) {
      assert (x + y)[|x| + k..|x| + k + |pat|] == y[k..k + |pat|];
    }
  }

  /** Safe texts stay safe when put together. */
  lemma HtmlSafeConcat(x: string, y: string)
    requires HtmlSafe(x) && HtmlSafe(y)
    ensures HtmlSafe(x + y)
  {
    var r := x + y;
    forall k | 0 <= k < |r| && r[k] == '&' ensures EntityAt(r, k) {
      if k < |x| {
        assert x[k] == '&';
        IsAtConcat(x, y, "&amp;", k);
        IsAtConcat(x, y, "&lt;", k);
        IsAtConcat(x, y, "&gt;", k);
      } else {
        assert y[k - |x|] == '&';
        IsAtConcat(x, y, "&amp;", k - |x|);
        IsAtConcat(x, y, "&lt;", k - |x|);
        IsAtConcat(x, y, "&gt;", k - |x|);
      }
    }
  }

  function EscapeChars(s: string): string {
    if s == [] then [] else EscapeChar(s[0]) + EscapeChars(s[1..])
  }

  lemma {:induction false} EscapeCharsSafe(s: string)
    ensures HtmlSafe(EscapeChars(s))
  {
    if s != [] {
      var e := EscapeChar(s[0]);
      assert IsAt(e, e, 0);
      assert HtmlSafe(e);
      EscapeCharsSafe(s[1..]);
      HtmlSafeConcat(e, EscapeChars(s[1..]));
    }
  }

  /** `escape_html`: `&`, then `<`, then `>` replaced by their entities ("" for ""). */
  function EscapeHtml(text: string): (r: string)
    ensures r == EscapeChars(text)
    ensures HtmlSafe(r)
    ensures r == [] <==> text == []
  {
    EscapeSequential(text);
    EscapeCharsSafe(text);
    ReplaceChar(ReplaceChar(ReplaceChar(text, '&', "&amp;"), '<', "&lt;"), '>', "&gt;")
  }

  lemma ReplaceSingle(c0: char, c: char, rep: string)
    ensures ReplaceChar([c0], c, rep) == if c0 == c then rep else [c0]
  {
    assert [c0][1..] == [];
  }

  lemma ReplaceAbsent(s: string, c: char, rep: string)
    requires c !in s
    ensures ReplaceChar(s, c, rep) == s
  {
    if s != [] {
      assert s == [s[0]] + s[1..];
      ReplaceAbsent(s[1..], c, rep);
    }
  }

  /** The three replaces on a single character give its escape. */
  lemma EscapeOneChar(c: char)
    ensures ReplaceChar(ReplaceChar(ReplaceChar([c], '&', "&amp;"), '<', "&lt;"), '>', "&gt;") == EscapeChar(c)
  {
    ReplaceSingle(c, '&', "&amp;");
    if c == '&' {
      ReplaceAbsent("&amp;", '<', "&lt;");
      ReplaceAbsent("&amp;", '>', "&gt;");
    } else {
      assert ReplaceChar([c], '&', "&amp;") == [c];
      ReplaceSingle(c, '<', "&lt;");
      if c == '<' {
        assert ReplaceChar([c], '<', "&lt;") == "&lt;";
        ReplaceAbsent("&lt;", '>', "&gt;");
      } else {
        assert ReplaceChar([c], '<', "&lt;") == [c];
        ReplaceSingle(c, '>', "&gt;");
      }
    }
  }

  /** The three successive replaces escape each character on its own. */
  lemma {:induction false} EscapeSequential(s: string)
    ensures ReplaceChar(ReplaceChar(ReplaceChar(s, '&', "&amp;"), '<', "&lt;"), '>', "&gt;") == EscapeChars(s)
  {
    if s != [] {
      var head, tail := [s[0]], s[1..];
      assert s == head + tail;
      ReplaceCharConcat(head, tail, '&', "&amp;");
      var a1, b1 := ReplaceChar(head, '&', "&amp;"), ReplaceChar(tail, '&', "&amp;");
      ReplaceCharConcat(a1, b1, '<', "&lt;");
      var a2, b2 := ReplaceChar(a1, '<', "&lt;"), ReplaceChar(b1, '<', "&lt;");
      ReplaceCharConcat(a2, b2, '>', "&gt;");
      EscapeSequential(tail);
      EscapeOneChar(s[0]);
    }
  }

  /** Reads entities back: the inverse of escaping. */
  function UnescapeHtml(s: string): string {
    if s == [] then []
    else if StartsWith(s, "&amp;") then "&" + UnescapeHtml(s[5..])
    else if StartsWith(s, "&lt;") then "<" + UnescapeHtml(s[4..])
    else if StartsWith(s, "&gt;") then ">" + UnescapeHtml(s[4..])
    else [s[0]] + UnescapeHtml(s[1..])
  }

  /** Reading back an entity in front of any text. */
  lemma UnescapeEntity(entity: string, c: char, rest: string)
    requires (entity, c) in {("&amp;", '&'), ("&lt;", '<'), ("&gt;", '>')}
    ensures UnescapeHtml(entity + rest) == [c] + UnescapeHtml(rest)
  {
    var r := entity + rest;
    assert r[..|entity|] == entity && r[|entity|..] == rest;
    assert r[0] == '&';
    if c != '&' {
      assert r[1] == entity[1] != 'a';
      assert !StartsWith(r, "&amp;");
    }
    if c == '>' {
      assert r[1] == 'g';
      assert !StartsWith(r, "&lt;");
    }
  }

  /** Reading back an escaped character in front of any text. */
  lemma UnescapeFront(c: char, rest: string)
    ensures UnescapeHtml(EscapeChar(c) + rest) == [c] + UnescapeHtml(rest)
  {
    if c == '&' {
      UnescapeEntity("&amp;", c, rest);
    } else if c == '<' {
      UnescapeEntity("&lt;", c, rest);
    } else if c == '>' {
      UnescapeEntity("&gt;", c, rest);
    } else {
      var r := [c] + rest;
      assert r[0] == c && r[1..] == rest;
      assert !StartsWith(r, "&amp;") && !StartsWith(r, "&lt;") && !StartsWith(r, "&gt;");
    }
  }

  /** Escaping loses nothing: the escaped text reads back as the original. */
  lemma {:induction false} UnescapeEscape(s: string)
    ensures UnescapeHtml(EscapeHtml(s)) == s
  {
    if s != [] {
      UnescapeEscape(s[1..]);
      UnescapeFront(s[0], EscapeChars(s[1..]));
      assert s == [s[0]] + s[1..];
    }
  }

  // ---------------------------------------------------------------- password strength

  const SpecialChars: string := "!@#$%^&*()_+-=[]{}|;:,.<>?"

  predicate HasUpper(pw: string) { exists i :: 0 <= i < |pw| && IsUpper(pw[i]) }
  predicate HasLower(pw: string) { exists i :: 0 <= i < |pw| && IsLower(pw[i]) }
  predicate HasDigit(pw: string) { exists i :: 0 <= i < |pw| && IsAsciiDigit(pw[i]) }
  predicate HasSpecial(pw: string) { exists i :: 0 <= i < |pw| && pw[i] in SpecialChars }

  function Point(b: bool): int { if b then 1 else 0 }

  /** One point each for: at least 8 characters, at least 12, an upper-case letter, a
      lower-case letter, a digit, a special character. */
  function StrengthScore(pw: string): (r: int)
    ensures 0 <= r <= 6
  {
    Point(|pw| >= 8) + Point(|pw| >= 12) + Point(HasUpper(pw)) + Point(HasLower(pw))
    + Point(HasDigit(pw)) + Point(HasSpecial(pw))
  }

  datatype Strength = Weak | Medium | Strong

  /** Scores up to 2 are weak, 3 and 4 medium, 5 and 6 strong. */
  function Level(pw: string): Strength {
    var s := StrengthScore(pw);
    if s <= 2 then Weak else if s <= 4 then Medium else Strong
  }

  /** `_calculate_password_strength`: the level and the length of the text it was given. */
  function PasswordStrength(pw: string): string {
    LevelName(Level(pw)) + " (" + IntToString(|pw|) + " символів)"
  }

  /** Adding characters never lowers the score. */
  lemma ScoreMonotone(pw: string, extra: string)
    ensures StrengthScore(pw + extra) >= StrengthScore(pw)
  {
    var l := pw + extra;
    assert forall i :: 0 <= i < |pw| ==> l[i] == pw[i];
    assert HasUpper(pw) ==> HasUpper(l);
    assert HasLower(pw) ==> HasLower(l);
    assert HasDigit(pw) ==> HasDigit(l);
    assert HasSpecial(pw) ==> HasSpecial(l);
  }

  /** A password of twelve or more characters drawn from all four classes is strong; one
      under eight characters from at most two classes is weak. */
  lemma LevelExtremes(pw: string)
    ensures |pw| >= 12 && HasUpper(pw) && HasLower(pw) && HasDigit(pw) && HasSpecial(pw) ==> Level(pw) == Strong
    ensures |pw| < 8 && Point(HasUpper(pw)) + Point(HasLower(pw)) + Point(HasDigit(pw)) + Point(HasSpecial(pw)) <= 2
            ==> Level(pw) == Weak
  {
  }

  /** The rank of a level: weak below medium below strong. */
  function Rank(l: Strength): int {
    match l case Weak => 0 case Medium => 1 case Strong => 2
  }

  /** Appending characters never lowers the level. */
  lemma {:induction false} LevelMonotone(pw: string, extra: string)
    ensures Rank(Level(pw + extra)) >= Rank(Level(pw))
  {
    ScoreMonotone(pw, extra);
  }

  /** The name of a level as the card shows it. */
  function LevelName(l: Strength): string {
    match l case Weak => "Слабкий" case Medium => "Середній" case Strong => "Сильний"
  }

  /** The strength text names the level, then the length of the rated text, which reads
      back as that length. */
  lemma PasswordStrengthReports(pw: string)
    ensures var k := IntToString(|pw|);
      PasswordStrength(pw) == LevelName(Level(pw)) + " (" + k + " символів)" && ParseInt(k) == Some(|pw|)
  {
    ParseIntToString(|pw|);
  }

  /** The labels of the password lines of the entry card. */
  const PasswordOpen: string := "🔒 <b>Пароль:</b> <code>"
  const QualityLabel: string := "💪 <b>Якість:</b> "

  /** The password lines of the entry card AS WRITTEN: the strength is rated on the
      HTML-escaped password, so its level and length are those of the escaped text. */
  function PasswordLinesAsWritten(password: string): (r: seq<string>)
    ensures password != [] ==> |r| == 2 && r[1] == QualityLabel + PasswordStrength(EscapeHtml(password))
  {
    var escaped := EscapeHtml(password);
    if escaped != [] then
      [PasswordOpen + escaped + "</code>", QualityLabel + PasswordStrength(escaped)]
    else ["🔒 <b>Пароль:</b> <i>(не встановлено)</i>"]
  }

  /** The password lines of the entry card, rating the password itself. */
  function PasswordLines(password: string): (r: seq<string>)
    ensures password == [] ==> r == ["🔒 <b>Пароль:</b> <i>(не встановлено)</i>"]
    ensures password != [] ==> |r| == 2 && r[0] == PasswordOpen + EscapeHtml(password) + "</code>"
    ensures password != [] ==> r[1] == QualityLabel + PasswordStrength(password)
  {
    var escaped := EscapeHtml(password);
    if escaped != [] then
      [PasswordOpen + escaped + "</code>", QualityLabel + PasswordStrength(password)]
    else ["🔒 <b>Пароль:</b> <i>(не встановлено)</i>"]
  }

  lemma EscapeLtLt()
    ensures EscapeHtml("<<") == "&lt;&lt;"
  {
    var lt := "<";
    assert EscapeChars("<<") == "&lt;&lt;" by {
      assert EscapeChars(lt) == "&lt;" by {
        assert lt[1..] == [];
      }
      assert ("<<")[0] == '<' && ("<<")[1..] == lt;
    }
  }

  lemma ScoreOfEscapedLtLt()
    ensures StrengthScore("&lt;&lt;") == 3
  {
    var e := "&lt;&lt;";
    assert IsLower(e[1]) && e[0] in SpecialChars;
    assert forall i :: 0 <= i < |e| ==> e[i] in {'&', 'l', 't', ';'};
  }

  lemma ScoreOfLtLt()
    ensures StrengthScore("<<") == 1
  {
    assert "<<"[0] in SpecialChars;
  }

  lemma StrengthOfEscapedLtLt()
    ensures PasswordStrength("&lt;&lt;") == "Середній (8 символів)"
  {
    ScoreOfEscapedLtLt();
  }

  lemma StrengthOfLtLt()
    ensures PasswordStrength("<<") == "Слабкий (2 символів)"
  {
    ScoreOfLtLt();
  }

  lemma AsWrittenLineOf(pw: string, escaped: string)
    requires pw != [] && EscapeHtml(pw) == escaped
    ensures PasswordLinesAsWritten(pw)[1] == QualityLabel + PasswordStrength(escaped)
  {
  }

  lemma AsWrittenRatesEscaped()
    ensures PasswordLinesAsWritten("<<")[1] == QualityLabel + PasswordStrength("&lt;&lt;")
  {
    EscapeLtLt();
    AsWrittenLineOf("<<", "&lt;&lt;");
  }

  lemma CorrectedRatesRaw()
    ensures PasswordLines("<<")[1] == QualityLabel + "Слабкий (2 символів)"
  {
    StrengthOfLtLt();
  }

  /** As written, the two-character password "<<" is rated on "&lt;&lt;": eight characters
      with lower-case letters and specials, hence medium, although "<<" itself is weak. */
  lemma EscapedStrengthAsWritten()
    ensures PasswordLinesAsWritten("<<")[1] != PasswordLines("<<")[1]
  {
    AsWrittenRatesEscaped();
    StrengthOfEscapedLtLt();
    CorrectedRatesRaw();
    assert |PasswordLinesAsWritten("<<")[1]| == |QualityLabel| + |"Середній (8 символів)"|;
    assert |PasswordLines("<<")[1]| == |QualityLabel| + |"Слабкий (2 символів)"|;
  }

  /** The corrected card rates the password as typed: its level and its own length. */
  lemma PasswordLinesRateThePassword(password: string)
    requires password != []
    ensures PasswordLines(password)[1] == QualityLabel + PasswordStrength(password)
    ensures UnescapeHtml(PasswordLines(password)[0][|PasswordOpen|..|PasswordLines(password)[0]| - |"</code>"|]) == password
  {
    var line := PasswordLines(password)[0];
    var head := PasswordOpen;
    assert line == head + EscapeHtml(password) + "</code>";
    assert line[|head|..|line| - |"</code>"|] == EscapeHtml(password);
    UnescapeEscape(password);
  }

  // ---------------------------------------------------------------- entry card

  const NotesLimit: int := 300
  const NoValue: string := "<i>(не встановлено)</i>"

  const TitleOpen: string := "🔑 <b>"
  const UserLabel: string := "👤 <b>Логін:</b> "
  const UrlLabel: string := "🌐 <b>URL-посилання:</b> "
  const NotesLabel: string := "📝 <b>Нотатки:</b>"
  const ExpiryLabel: string := "⏰ <b>Термін дії:</b> "
  const GroupLabel: string := "📁 <b>Група:</b> "
  /** The rule under the title: 30 box-drawing characters. */
  const Rule: string := "──────────────────────────────"

  /** The notes lines: the label and the notes cut to 300 characters and escaped, or the
      label with the not-set marker. */
  function NotesLines(notes: string): (r: seq<string>)
    ensures notes != [] ==> r == [NotesLabel, "<i>" + EscapeHtml(Truncate(notes, NotesLimit)) + "</i>"]
    ensures notes == [] ==> r == [NotesLabel + " " + NoValue]
  {
    if notes != [] then [NotesLabel, "<i>" + EscapeHtml(Truncate(notes, NotesLimit)) + "</i>"]
    else [NotesLabel + " " + NoValue]
  }

  /** The title line: the title escaped, in bold. */
  function TitleLine(title: string): (r: string)
    ensures r == TitleOpen + EscapeHtml(title) + "</b>"
  {
    TitleOpen + EscapeHtml(title) + "</b>"
  }

  /** The user-name line: the name escaped as code, or the not-set marker exactly when the
      name is empty. */
  function UserLine(username: string): (r: string)
    ensures username != [] ==> r == UserLabel + "<code>" + EscapeHtml(username) + "</code>"
    ensures username == [] ==> r == UserLabel + NoValue
  {
    var u := EscapeHtml(username);
    if u != [] then UserLabel + "<code>" + u + "</code>" else UserLabel + NoValue
  }

  /** The URL line: the URL escaped, or the not-set marker exactly when it is empty. */
  function UrlLine(url: string): (r: string)
    ensures url != [] ==> r == UrlLabel + EscapeHtml(url)
    ensures url == [] ==> r == UrlLabel + NoValue
  {
    var u := EscapeHtml(url);
    if u != [] then UrlLabel + u else UrlLabel + NoValue
  }

  /** The expiry line: the expiry time escaped, or the not-set marker when there is none. */
  function ExpiryLine(expires: Option<string>): (r: string)
    ensures expires.Some? && expires.value != [] ==> r == ExpiryLabel + EscapeHtml(expires.value)
    ensures expires.None? || expires.value == [] ==> r == ExpiryLabel + NoValue
  {
    if expires.Some? && expires.value != [] then ExpiryLabel + EscapeHtml(expires.value)
    else ExpiryLabel + NoValue
  }

  /** The group line, present only for a non-empty group. */
  function GroupLines(group: string): (r: seq<string>)
    ensures group != [] ==> r == [GroupLabel + EscapeHtml(group)]
    ensures group == [] ==> r == []
  {
    var g := EscapeHtml(group);
    if g != [] then [GroupLabel + g] else []
  }

  /** What a card line shows after its label: the text between `open` and `close`, read
      back from HTML, or the empty text for the not-set marker. */
  function ShownValue(line: string, lead: string, open: string, close: string): string {
    if !StartsWith(line, lead) then []
    else
      var rest := line[|lead|..];
      if rest == NoValue || |rest| < |open| + |close| then []
      else UnescapeHtml(rest[|open|..|rest| - |close|])
  }

  /** The escaped text of a non-empty field never starts with `<`, so it is never the
      not-set marker, even with a closing tag after it. */
  lemma NotTheMarker(x: string, close: string)
    requires HtmlSafe(x)
    requires x != [] || |close| != |NoValue|
    ensures x + close != NoValue
  {
    if x != [] {
      assert (x + close)[0] == x[0] != '<';
    }
  }

  /** A line that is the label followed by `open + x + close` shows `x` read back. */
  lemma ShownAfterLabel(lead: string, open: string, x: string, close: string)
    requires open + x + close != NoValue
    ensures ShownValue(lead + open + x + close, lead, open, close) == UnescapeHtml(x)
  {
    var line := lead + open + x + close;
    assert line[..|lead|] == lead;
    var rest := line[|lead|..];
    assert rest == open + x + close;
    assert rest[|open|..|rest| - |close|] == x;
  }

  /** Every field of the card reads back from its line as the raw field: escaping loses
      nothing, and an empty field shows the not-set marker, which no escaped text equals. */
  lemma {:induction false} CardFieldsReadBack(e: EntryRecord)
    ensures ShownValue(TitleLine(e.title), TitleOpen, "", "</b>") == e.title
    ensures ShownValue(UserLine(e.username), UserLabel, "<code>", "</code>") == e.username
    ensures ShownValue(UrlLine(e.url), UrlLabel, "", "") == e.url
    ensures ShownValue(ExpiryLine(e.expires), ExpiryLabel, "", "")
      == (if e.expires.Some? then e.expires.value else [])
    ensures e.group != [] ==> ShownValue(GroupLines(e.group)[0], GroupLabel, "", "") == e.group
  {
    ShownTitle(e.title);
    if e.username != [] {
      ShownCode(e.username);
    } else {
      ShownMarker(UserLabel);
    }
    if e.url != [] {
      ShownEscaped(UrlLabel, e.url);
    } else {
      ShownMarker(UrlLabel);
    }
    if e.expires.Some? && e.expires.value != [] {
      ShownEscaped(ExpiryLabel, e.expires.value);
    } else {
      ShownMarker(ExpiryLabel);
    }
    if e.group != [] {
      ShownEscaped(GroupLabel, e.group);
    }
  }

  /** The title line reads back as the title. */
  lemma ShownTitle(title: string)
    ensures ShownValue(TitleOpen + EscapeHtml(title) + "</b>", TitleOpen, "", "</b>") == title
  {
    var t := EscapeHtml(title);
    NotTheMarker(t, "</b>");
    assert "" + t + "</b>" == t + "</b>";
    assert TitleOpen + "" + t + "</b>" == TitleOpen + t + "</b>";
    ShownAfterLabel(TitleOpen, "", t, "</b>");
    UnescapeEscape(title);
  }

  /** A non-empty user name, escaped as code after its label, reads back as the name. */
  lemma ShownCode(username: string)
    requires username != []
    ensures ShownValue(UserLabel + "<code>" + EscapeHtml(username) + "</code>", UserLabel, "<code>", "</code>")
      == username
  {
    var u := EscapeHtml(username);
    var rest := "<code>" + u + "</code>";
    assert rest[1] == 'c' != NoValue[1];
    assert UserLabel + "<code>" + u + "</code>" == UserLabel + rest;
    ShownAfterLabel(UserLabel, "<code>", u, "</code>");
    UnescapeEscape(username);
  }

  /** A line that is the label and a non-empty escaped field reads back as the field. */
  lemma ShownEscaped(lead: string, field: string)
    requires field != []
    ensures ShownValue(lead + EscapeHtml(field), lead, "", "") == field
  {
    var x := EscapeHtml(field);
    var line := lead + x;
    assert x != NoValue by {
      assert x[0] != '<';
    }
    assert line[..|lead|] == lead && line[|lead|..] == x;
    assert x[0..|x| - 0] == x;
    UnescapeEscape(field);
  }

  /** The not-set marker after the label shows the empty text. */
  lemma ShownMarker(lead: string)
    ensures ShownValue(lead + NoValue, lead, "", "") == []
  {
    var line := lead + NoValue;
    assert line[..|lead|] == lead;
    assert line[|lead|..] == NoValue;
  }

  /** The lines of `format_entry_for_display` for an entry, in order: the title, a rule,
      the user name, the password lines, the URL, the notes lines, the expiry and, only
      for a non-empty group, the group. */
  function EntryLines(e: EntryRecord): (r: seq<string>)
    ensures |r| >= 7
    ensures e.notes != [] ==> "<i>" + EscapeHtml(Truncate(e.notes, NotesLimit)) + "</i>" in r
    ensures var p := |PasswordLines(e.password)|;
            var n := |NotesLines(e.notes)|;
      && |r| == 5 + p + n + |GroupLines(e.group)|
      && r[0] == TitleLine(e.title) && r[1] == Rule && r[2] == UserLine(e.username)
      && r[3..3 + p] == PasswordLines(e.password)
      && r[3 + p] == UrlLine(e.url)
      && r[4 + p..4 + p + n] == NotesLines(e.notes)
      && r[4 + p + n] == ExpiryLine(e.expires)
      && (e.group != [] ==> r[5 + p + n] == GroupLabel + EscapeHtml(e.group))
  {
    var head := [TitleLine(e.title), Rule, UserLine(e.username)];
    var tail := [ExpiryLine(e.expires)] + GroupLines(e.group);
    EntryLinesLayout(head, PasswordLines(e.password), [UrlLine(e.url)], NotesLines(e.notes), tail);
    head + PasswordLines(e.password) + [UrlLine(e.url)] + NotesLines(e.notes) + tail
  }

  /** Where the parts of the card sit in their concatenation. */
  lemma EntryLinesLayout(head: seq<string>, pw: seq<string>, mid: seq<string>, notes: seq<string>, tail: seq<string>)
    requires |head| == 3 && |mid| == 1 && |tail| >= 1
    ensures var r := head + pw + mid + notes + tail;
      var p := |pw|;
      var n := |notes|;
      && |r| == 4 + p + n + |tail|
      && r[0] == head[0] && r[1] == head[1] && r[2] == head[2]
      && r[3..3 + p] == pw
      && r[3 + p] == mid[0]
      && r[4 + p..4 + p + n] == notes
      && r[4 + p + n] == tail[0]
      && (|tail| > 1 ==> r[5 + p + n] == tail[1])
      && (forall x :: x in notes ==> x in r)
  {
    var r := head + pw + mid + notes + tail;
    assert r == head + (pw + (mid + (notes + tail)));
  }

  /** `format_entry_for_display`: the card text, or the "not found" line for no entry. */
  function FormatEntryForDisplay(entry: Option<EntryRecord>): (r: string)
    ensures entry.None? ==> r == "❌ Запис не знайдено"
    ensures entry.Some? ==> r == Join(EntryLines(entry.value), "\n")
  {
    if entry.None? then "❌ Запис не знайдено" else Join(EntryLines(entry.value), "\n")
  }

  /** The notes shown are at most 300 characters before escaping, and read back as the
      first 297 characters of the notes followed by "..." when they were longer. */
  lemma NotesShown(notes: string)
    requires notes != []
    ensures UnescapeHtml(EscapeHtml(Truncate(notes, NotesLimit))) == Truncate(notes, NotesLimit)
    ensures |Truncate(notes, NotesLimit)| <= NotesLimit
    ensures |notes| > NotesLimit ==> Truncate(notes, NotesLimit) == notes[..297] + "..."
  {
    UnescapeEscape(Truncate(notes, NotesLimit));
    if |notes| > NotesLimit {
      var t := Truncate(notes, NotesLimit);
      assert t == t[..297] + t[297..];
    }
  }

  // ---------------------------------------------------------------- group path

  /** Python's truth value of `group.path`: a non-empty list or a non-empty text. */
  predicate PathTruthy(path: GroupPath) {
    match path
    case NoPath => false
    case PathList(parts) => parts != []
    case PathText(text) => text != []
  }

  /** `"/".join(group.path)` for a list, `str(group.path)` otherwise. */
  function PathString(path: GroupPath): string {
    match path
    case NoPath => ""
    case PathList(parts) => Join(parts, "/")
    case PathText(text) => text
  }

  /** `_get_group_path`: when the group has a path (a non-empty list or text), that path
      joined with "/" and without a leading "Root/", even if it then reads as empty;
      otherwise the group's name unless it is empty or "Root". */
  function GroupPathOf(group: Option<Group>): (r: string)
    ensures group.None? ==> r == []
    ensures group.Some? && PathTruthy(group.value.path) ==>
      var p := PathString(group.value.path);
      && (StartsWith(p, "Root/") ==> p == "Root/" + r)
      && (!StartsWith(p, "Root/") ==> r == p)
    ensures group.Some? && !PathTruthy(group.value.path) ==>
      && (r == [] <==> group.value.name == [] || group.value.name == "Root")
      && (r != [] ==> r == group.value.name)
  {
    match group
    case None => ""
    case Some(g) =>
      if PathTruthy(g.path) then
        var path := PathString(g.path);
        if StartsWith(path, "Root/") then
          assert path == path[..5] + path[5..];
          path[5..]
        else path
      else if g.name != [] && g.name != "Root" then g.name
      else ""
  }

  /** A path list whose only part is empty is still a path: the name is not consulted. */
  lemma EmptyPartIsAPath(name: string)
    ensures GroupPathOf(Some(Group(PathList([""]), name))) == ""
  {
    assert Join([""], "/") == "";
  }

  /** A path under "Root" is shown without it; the root itself, by name, is shown as "". */
  lemma GroupPathDropsRoot(rest: seq<string>, name: string)
    requires rest != []
    ensures GroupPathOf(Some(Group(PathList(["Root"] + rest), name))) == Join(rest, "/")
    ensures GroupPathOf(Some(Group(NoPath, "Root"))) == ""
  {
    var parts := ["Root"] + rest;
    assert parts[1..] == rest;
    var path := Join(parts, "/");
    assert path == "Root" + "/" + Join(rest, "/");
    assert path[..5] == "Root/";
    assert path[5..] == Join(rest, "/");
  }

  // ---------------------------------------------------------------- searching

  function ToRecord(e: Entry): EntryRecord {
    EntryRecord(e.uuid, e.title, e.username, e.password, e.url, e.notes, GroupPathOf(e.group), e.expires)
  }

  /** `field and query.lower() in field.lower()`. */
  predicate FieldMatches(field: string, query: string) {
    field != [] && Contains(Lower(field), Lower(query))
  }

  /** The test of `search_entries`: the query, ignoring case, in the title, user name, URL or notes. */
  predicate EntryMatches(e: Entry, query: string) {
    FieldMatches(e.title, query) || FieldMatches(e.username, query) || FieldMatches(e.url, query) || FieldMatches(e.notes, query)
  }

  /** The test of `search_entries_by_group`: the query, ignoring case, in the group path. */
  predicate GroupMatches(e: Entry, query: string) {
    Contains(Lower(GroupPathOf(e.group)), Lower(query))
  }

  /** Both searches ignore the case of the query, and an empty query matches every entry
      with a non-empty field (and every entry for the group search). */
  lemma SearchIgnoresCase(e: Entry, query: string)
    ensures EntryMatches(e, Lower(query)) == EntryMatches(e, query)
    ensures GroupMatches(e, Lower(query)) == GroupMatches(e, query)
    ensures EntryMatches(e, "") <==> e.title != [] || e.username != [] || e.url != [] || e.notes != []
    ensures GroupMatches(e, "")
  {
    LowerIdempotent(query);
    assert Lower("") == "";
    assert IsAt(Lower(e.title), "", 0) && IsAt(Lower(e.username), "", 0);
    assert IsAt(Lower(e.url), "", 0) && IsAt(Lower(e.notes), "", 0);
    assert IsAt(Lower(GroupPathOf(e.group)), "", 0);
  }

  /** The entries `keep` accepts, in their order. */
  function Filter(entries: seq<Entry>, keep: Entry -> bool): (r: seq<Entry>)
    ensures |r| <= |entries|
  {
    if entries == [] then []
    else (if keep(entries[0]) then [entries[0]] else []) + Filter(entries[1..], keep)
  }

  /** Filtering keeps exactly the entries `keep` accepts. */
  lemma {:induction false} FilterMembers(entries: seq<Entry>, keep: Entry -> bool)
    ensures forall e :: e in Filter(entries, keep) <==> e in entries && keep(e)
  {
    if entries != [] {
      FilterMembers(entries[1..], keep);
      assert entries == [entries[0]] + entries[1..];
    }
  }

  lemma {:induction false} FilterConcat(a: seq<Entry>, b: seq<Entry>, keep: Entry -> bool)
    ensures Filter(a + b, keep) == Filter(a, keep) + Filter(b, keep)
  {
    if a != [] {
      var h := if keep(a[0]) then [a[0]] else [];
      assert (a + b)[0] == a[0] && (a + b)[1..] == a[1..] + b;
      FilterConcat(a[1..], b, keep);
      assert Filter(a + b, keep) == h + Filter(a[1..] + b, keep);
      assert Filter(a, keep) == h + Filter(a[1..], keep);
      assert h + (Filter(a[1..], keep) + Filter(b, keep)) == (h + Filter(a[1..], keep)) + Filter(b, keep);
    } else {
      assert a + b == b;
    }
  }

  function Records(entries: seq<Entry>): (r: seq<EntryRecord>)
    ensures |r| == |entries| && forall i :: 0 <= i < |entries| ==> r[i] == ToRecord(entries[i])
  {
    seq(|entries|, i requires 0 <= i < |entries| => ToRecord(entries[i]))
  }

  /** Filtering one more entry appends it when it is kept. */
  lemma FilterSnoc(entries: seq<Entry>, i: int, keep: Entry -> bool)
    requires 0 <= i < |entries|
    ensures Filter(entries[..i + 1], keep) == Filter(entries[..i], keep) + (if keep(entries[i]) then [entries[i]] else [])
  {
    FilterConcat(entries[..i], [entries[i]], keep);
    assert entries[..i + 1] == entries[..i] + [entries[i]];
    assert [entries[i]][1..] == [];
  }

  lemma RecordsSnoc(kept: seq<Entry>, e: Entry)
    ensures Records(kept + [e]) == Records(kept) + [ToRecord(e)]
  {
  }

  /** The loop of `search_entries` (keep the matching entries, then convert them); with
      `byGroup` the loop of `search_entries_by_group`, which tests the group path. */
  method FilterEntries(entries: seq<Entry>, query: string, byGroup: bool) returns (results: seq<EntryRecord>)
    ensures byGroup ==> results == Records(Filter(entries, e => GroupMatches(e, query)))
    ensures !byGroup ==> results == Records(Filter(entries, e => EntryMatches(e, query)))
  {
    ghost var keep := if byGroup then (e: Entry) => GroupMatches(e, query) else (e: Entry) => EntryMatches(e, query);
    results := [];
    var i := 0;
    while i < |entries|
      invariant 0 <= i <= |entries|
      invariant results == Records(Filter(entries[..i], keep))
    {
      var e := entries[i];
      FilterSnoc(entries, i, keep);
      var hit := if byGroup then GroupMatches(e, query) else EntryMatches(e, query);
      assert hit == keep(e);
      if hit {
        RecordsSnoc(Filter(entries[..i], keep), e);
        results := results + [ToRecord(e)];
      }
      i := i + 1;
    }
    assert entries[..i] == entries;
  }

  /** Searching by fields keeps exactly the matching entries, and searching a database
      made of two parts searches each part in turn. */
  lemma SearchExactly(a: seq<Entry>, b: seq<Entry>, query: string)
    ensures forall e :: e in Filter(a, e => EntryMatches(e, query)) <==> e in a && EntryMatches(e, query)
    ensures Filter(a + b, e => EntryMatches(e, query)) == Filter(a, e => EntryMatches(e, query)) + Filter(b, e => EntryMatches(e, query))
  {
    FilterMembers(a, e => EntryMatches(e, query));
    FilterConcat(a, b, e => EntryMatches(e, query));
  }

  // ---------------------------------------------------------------- reconnecting

  /** `_check_and_reconnect` decides to reconnect iff the file exists, the interval since the
      last reconnect has elapsed, and the file is newer than the one loaded (or its time is
      unknown). */
  predicate ShouldReconnect(fileExists: bool, currentModified: int, lastModified: Option<int>,
                            sinceReconnect: int, interval: int) {
    fileExists && sinceReconnect >= interval && (lastModified.None? || currentModified > lastModified.value)
  }

  /** What opening the database file yields: its entries and modification time, or nothing
      when it cannot be opened. */
  datatype Opened = Opened(entries: seq<Entry>, mtime: int)

  class KeePassHandler {
    /** `kp is not None`. */
    var connected: bool
    var entries: seq<Entry>
    var lastModified: Option<int>
    var lastReconnect: int
    const reconnectInterval: int

    /** Opens the database (a failure to open is an exception and is not modelled). */
    constructor (db: Opened, now: int)
      ensures connected && entries == db.entries && lastModified == Some(db.mtime) && lastReconnect == now
      ensures reconnectInterval == 300
    {
      connected := true;
      entries := db.entries;
      lastModified := Some(db.mtime);
      lastReconnect := now;
      reconnectInterval := 300;
    }

    /** `is_connected`. */
    function IsConnected(): bool
      reads this
    {
      connected
    }

    /** `_reconnect`: drops the connection and opens the file again; a failure is swallowed
        and leaves the handler disconnected. */
    method Reconnect(db: Option<Opened>, now: int)
      modifies this
      ensures db.Some? ==> connected && entries == db.value.entries && lastModified == Some(db.value.mtime) && lastReconnect == now
      ensures db.None? ==> !connected && entries == old(entries) && lastModified == old(lastModified) && lastReconnect == old(lastReconnect)
    {
      connected := false;
      if db.Some? {
        connected := true;
        entries := db.value.entries;
        lastModified := Some(db.value.mtime);
        lastReconnect := now;
      }
    }

    /** `force_reconnect`: reconnects and reports success even when opening failed. */
    method ForceReconnect(db: Option<Opened>, now: int) returns (ok: bool)
      modifies this
      ensures ok
      ensures connected <==> db.Some?
      ensures db.Some? ==> entries == db.value.entries && lastModified == Some(db.value.mtime) && lastReconnect == now
    {
      Reconnect(db, now);
      ok := true;
    }

    /** `_check_and_reconnect`: reconnects, and answers true, exactly when `ShouldReconnect`. */
    method CheckAndReconnect(fileExists: bool, currentModified: int, now: int, db: Option<Opened>) returns (reconnected: bool)
      modifies this
      ensures reconnected == ShouldReconnect(fileExists, currentModified, old(lastModified), now - old(lastReconnect), reconnectInterval)
      ensures reconnected ==> (connected <==> db.Some?)
      ensures reconnected && db.Some? ==> entries == db.value.entries && lastModified == Some(db.value.mtime) && lastReconnect == now
      ensures !reconnected ==> (connected == old(connected) && entries == old(entries)
                               && lastModified == old(lastModified) && lastReconnect == old(lastReconnect))
    {
      if !fileExists {
        return false;
      }
      if now - lastReconnect < reconnectInterval {
        return false;
      }
      if lastModified.None? || currentModified > lastModified.value {
        Reconnect(db, now);
        return true;
      }
      return false;
    }

    /** `search_entries`: checks for a newer file first, then filters the entries (none
        when not connected). */
    method SearchEntries(query: string, fileExists: bool, currentModified: int, now: int, db: Option<Opened>)
      returns (results: seq<EntryRecord>)
      modifies this
      ensures var go := ShouldReconnect(fileExists, currentModified, old(lastModified), now - old(lastReconnect), reconnectInterval);
        && (go ==> (connected <==> db.Some?))
        && (go && db.Some? ==> entries == db.value.entries && lastModified == Some(db.value.mtime) && lastReconnect == now)
        && (!go ==> (connected == old(connected) && entries == old(entries)
                     && lastModified == old(lastModified) && lastReconnect == old(lastReconnect)))
      ensures results == if connected then Records(Filter(entries, e => EntryMatches(e, query))) else []
    {
      var _ := CheckAndReconnect(fileExists, currentModified, now, db);
      if !connected {
        return [];
      }
      results := FilterEntries(entries, query, false);
    }

    /** `search_entries_by_group`: the same for the group path (its failure without a
        connection is caught and gives no results). */
    method SearchEntriesByGroup(query: string, fileExists: bool, currentModified: int, now: int, db: Option<Opened>)
      returns (results: seq<EntryRecord>)
      modifies this
      ensures var go := ShouldReconnect(fileExists, currentModified, old(lastModified), now - old(lastReconnect), reconnectInterval);
        && (go ==> (connected <==> db.Some?))
        && (go && db.Some? ==> entries == db.value.entries && lastModified == Some(db.value.mtime) && lastReconnect == now)
        && (!go ==> (connected == old(connected) && entries == old(entries)
                     && lastModified == old(lastModified) && lastReconnect == old(lastReconnect)))
      ensures results == if connected then Records(Filter(entries, e => GroupMatches(e, query))) else []
    {
      var _ := CheckAndReconnect(fileExists, currentModified, now, db);
      if !connected {
        return [];
      }
      results := FilterEntries(entries, query, true);
    }
  }
}
