/** Validation of the account fields: username, password and e-mail
    address. */
module Auth {
  import opened Common
  import opened Text
  import opened Validation

  // ---------------------------------------------------------------------
  // validate_username
  // ---------------------------------------------------------------------

  predicate UsernameChar(c: char) {
    IsAlphanumeric(c) || c == '_' || c == '-'
  }

  /** `validate_username`: the sanitised name must be 3 to 50 bytes of
      letters, digits, '_' and '-'. */
  function ValidateUsername(username: string): (r: Result<string>)
    ensures r.Ok? <==>
              && 3 <= Utf8Len(SanitizeString(username)) <= 50
              && forall i :: 0 <= i < |SanitizeString(username)| ==> UsernameChar(SanitizeString(username)[i])
    ensures r.Ok? ==> r.value == SanitizeString(username) && 3 <= |r.value| <= 50
    ensures SanitizeString(username) == [] ==> r == Err("Username is required")
    ensures var s := SanitizeString(username);
      s != [] && Utf8Len(s) < 3 ==> r == Err("Username must be at least 3 characters")
    ensures var s := SanitizeString(username);
      s != [] && 3 <= Utf8Len(s) && Utf8Len(s) > 50 ==> r == Err("Username must be 50 characters or less")
    ensures var s := SanitizeString(username);
      && 3 <= Utf8Len(s) <= 50
      && (exists i :: 0 <= i < |s| && !UsernameChar(s[i]))
      ==> r == Err("Username can only contain letters, numbers, underscores, and hyphens")
  {
    var sanitized := SanitizeString(username);
    if sanitized == [] then
      Err("Username is required")
    else if Utf8Len(sanitized) < 3 then
      Err("Username must be at least 3 characters")
    else if Utf8Len(sanitized) > 50 then
      Err("Username must be 50 characters or less")
    else if !forall i :: 0 <= i < |sanitized| ==> UsernameChar(sanitized[i]) then
      Err("Username can only contain letters, numbers, underscores, and hyphens")
    else
      UsernameAscii(sanitized);
      Ok(sanitized)
  }

  lemma UsernameAscii(s: string)
    requires forall i :: 0 <= i < |s| ==> UsernameChar(s[i])
    ensures Utf8Len(s) == |s|
  {
    forall i | 0 <= i < |s| ensures s[i] as int < 0x80 {
      assert UsernameChar(s[i]);
    }
    Utf8LenAscii(s);
  }

  /** A name made of two words is refused, whatever separates them: the
      single space sanitising leaves is not an allowed character
      ("user name"). */
  lemma UsernameRejectsSpace(w1: string, sep: string, w2: string)
    requires IsWord(w1) && NoControl(w1) && IsWord(w2) && NoControl(w2)
    requires sep != [] && forall i :: 0 <= i < |sep| ==> IsWhitespace(sep[i])
    ensures ValidateUsername(w1 + sep + w2).Err?
  {
    SanitizeJoinsWords(w1, sep, w2);
    var s := w1 + " " + w2;
    assert s[|w1|] == ' ' && !UsernameChar(' ');
  }

  // ---------------------------------------------------------------------
  // validate_password
  // ---------------------------------------------------------------------

  /** `validate_password`: the raw password (not sanitised) must be 8 to 128
      bytes and contain a letter. */
  function ValidatePassword(password: string): (r: Result<Unit>)
    ensures r.Ok? <==>
              && 8 <= Utf8Len(password) <= 128
              && exists i :: 0 <= i < |password| && IsAlphabetic(password[i])
    ensures password == [] ==> r == Err("Password is required")
    ensures password != [] && Utf8Len(password) < 8 ==> r == Err("Password must be at least 8 characters")
    ensures password != [] && 8 <= Utf8Len(password) && Utf8Len(password) > 128 ==>
              r == Err("Password must be 128 characters or less")
    ensures 8 <= Utf8Len(password) <= 128 && (forall i :: 0 <= i < |password| ==> !IsAlphabetic(password[i])) ==>
              r == Err("Password must contain at least one letter")
  {
    if password == [] then
      Err("Password is required")
    else if Utf8Len(password) < 8 then
      Err("Password must be at least 8 characters")
    else if Utf8Len(password) > 128 then
      Err("Password must be 128 characters or less")
    else if !exists i :: 0 <= i < |password| && IsAlphabetic(password[i]) then
      Err("Password must contain at least one letter")
    else
      Ok(Unit)
  }

  /** A password of digits only is refused however long it is ("12345678"). */
  lemma PasswordNeedsLetter(password: string)
    requires AllDigits(password)
    ensures ValidatePassword(password).Err?
  {
    forall i | 0 <= i < |password| ensures !IsAlphabetic(password[i]) {
      assert IsAsciiDigit(password[i]);
    }
  }

  // ---------------------------------------------------------------------
  // is_valid_email
  // ---------------------------------------------------------------------

  /** `[a-zA-Z0-9]`. */
  predicate AsciiAlnum(c: char) {
    IsAsciiUpper(c) || IsAsciiLower(c) || IsAsciiDigit(c)
  }

  /** `[a-zA-Z0-9.!#$%&'*+/=?^_`{|}~-]`, the characters of the local part. */
  predicate LocalChar(c: char) {
    AsciiAlnum(c) || c in ".!#$%&'*+/=?^_`{|}~-"
  }

  /** `[a-zA-Z0-9-]`. */
  predicate LabelChar(c: char) {
    AsciiAlnum(c) || c == '-'
  }

  /** `[a-zA-Z0-9.!#$%&'*+/=?^_`{|}~-]+`. */
  predicate IsLocalPart(l: string) {
    l != [] && forall i :: 0 <= i < |l| ==> LocalChar(l[i])
  }

  /** `[a-zA-Z0-9](?:[a-zA-Z0-9-]{0,61}[a-zA-Z0-9])?`: 1 to 63 characters,
      alphanumeric at both ends, hyphens allowed inside. */
  predicate IsLabel(l: string) {
    && 1 <= |l| <= 63
    && AsciiAlnum(l[0]) && AsciiAlnum(l[|l| - 1])
    && forall i :: 0 <= i < |l| ==> LabelChar(l[i])
  }

  /** `str::split(sep)`: the pieces between the separators, at least one. */
  function SplitOn(s: string, sep: char): (parts: seq<string>)
    ensures |parts| >= 1
    ensures forall i :: 0 <= i < |parts| ==> sep !in parts[i]
    decreases |s|
  {
    var i := IndexOf(s, sep);
    if i == |s| then
      [s]
    else
      assert sep !in s[..i];
      [s[..i]] + SplitOn(s[i + 1..], sep)
  }

  /** The pieces glued back together with the separator. */
  function JoinOn(parts: seq<string>, sep: char): string
    requires |parts| >= 1
  {
    if |parts| == 1 then parts[0] else parts[0] + [sep] + JoinOn(parts[1..], sep)
  }

  lemma {:induction false} SplitJoin(s: string, sep: char)
    ensures JoinOn(SplitOn(s, sep), sep) == s
    decreases |s|
  {
    var i := IndexOf(s, sep);
    if i < |s| {
      var rest := SplitOn(s[i + 1..], sep);
      SplitJoin(s[i + 1..], sep);
      assert SplitOn(s, sep) == [s[..i]] + rest;
      assert ([s[..i]] + rest)[1..] == rest;
      assert s == s[..i] + [sep] + s[i + 1..];
    }
  }

  lemma IndexOfAfter(p: string, sep: char, rest: string)
    requires sep !in p
    ensures IndexOf(p + [sep] + rest, sep) == |p|
  {
    var s := p + [sep] + rest;
    assert forall j :: 0 <= j < |p| ==> s[j] == p[j];
    assert s[|p|] == sep;
  }

  lemma {:induction false} JoinSplit(parts: seq<string>, sep: char)
    requires |parts| >= 1 && forall i :: 0 <= i < |parts| ==> sep !in parts[i]
    ensures SplitOn(JoinOn(parts, sep), sep) == parts
  {
    if |parts| == 1 {
      SplitOnNone(parts[0], sep);
    } else {
      var rest := JoinOn(parts[1..], sep);
      SplitOnAfter(parts[0], sep, rest);
      JoinSplit(parts[1..], sep);
      assert parts == [parts[0]] + parts[1..];
    }
  }

  lemma SplitOnNone(p: string, sep: char)
    requires sep !in p
    ensures SplitOn(p, sep) == [p]
  {
    assert IndexOf(p, sep) == |p|;
  }

  lemma SplitOnAfter(p: string, sep: char, rest: string)
    requires sep !in p
    ensures SplitOn(p + [sep] + rest, sep) == [p] + SplitOn(rest, sep)
  {
    var s := p + [sep] + rest;
    IndexOfAfter(p, sep, rest);
    assert s[..|p|] == p && s[|p| + 1..] == rest;
  }

  /** The recogniser: one '@' splitting a local part from a domain whose
      '.'-separated pieces are all labels. */
  predicate RegexMatches(email: string) {
    var parts := SplitOn(email, '@');
    && |parts| == 2
    && IsLocalPart(parts[0])
    && var labels := SplitOn(parts[1], '.');
       forall i :: 0 <= i < |labels| ==> IsLabel(labels[i])
  }

  /** `email` is `local@label.label...label`: the language of the pattern
      `^[a-zA-Z0-9.!#$%&'*+/=?^_`{|}~-]+@LABEL(?:\.LABEL)*$`. */
  ghost predicate Shape(email: string, local: string, labels: seq<string>) {
    && |labels| >= 1
    && IsLocalPart(local)
    && (forall i :: 0 <= i < |labels| ==> IsLabel(labels[i]))
    && email == local + "@" + JoinOn(labels, '.')
  }

  ghost predicate MatchesPattern(email: string) {
    exists local, labels :: Shape(email, local, labels)
  }

  lemma NoAtInLocal(l: string)
    requires IsLocalPart(l)
    ensures '@' !in l
  {
    forall i | 0 <= i < |l| ensures l[i] != '@' {
      assert LocalChar(l[i]);
    }
  }

  lemma NoSeparatorInLabel(l: string)
    requires IsLabel(l)
    ensures '@' !in l && '.' !in l
  {
    forall i | 0 <= i < |l| ensures l[i] != '@' && l[i] != '.' {
      assert LabelChar(l[i]);
    }
  }

  lemma {:induction false} NoAtInDomain(labels: seq<string>)
    requires |labels| >= 1 && forall i :: 0 <= i < |labels| ==> IsLabel(labels[i])
    ensures '@' !in JoinOn(labels, '.')
    ensures forall i :: 0 <= i < |labels| ==> '.' !in labels[i]
  {
    forall i | 0 <= i < |labels| ensures '@' !in labels[i] && '.' !in labels[i] {
      NoSeparatorInLabel(labels[i]);
    }
    if |labels| > 1 {
      NoAtInDomain(labels[1..]);
      var rest := JoinOn(labels[1..], '.');
      assert JoinOn(labels, '.') == labels[0] + "." + rest;
    }
  }

  /** A text of the pattern's shape splits back into its local part and
      labels, so the shape of a text is unique. */
  lemma ShapeSplits(email: string, local: string, labels: seq<string>)
    requires Shape(email, local, labels)
    ensures SplitOn(email, '@') == [local, JoinOn(labels, '.')]
    ensures SplitOn(JoinOn(labels, '.'), '.') == labels
  {
    var domain := JoinOn(labels, '.');
    NoAtInLocal(local);
    NoAtInDomain(labels);
    assert JoinOn([local, domain], '@') == email;
    JoinSplit([local, domain], '@');
    JoinSplit(labels, '.');
  }

  /** The recogniser accepts exactly the language of the pattern. */
  lemma RecogniserMatchesPattern(email: string)
    ensures RegexMatches(email) <==> MatchesPattern(email)
  {
    var parts := SplitOn(email, '@');
    if RegexMatches(email) {
      var labels := SplitOn(parts[1], '.');
      SplitJoin(email, '@');
      SplitJoin(parts[1], '.');
      assert JoinOn(parts, '@') == parts[0] + "@" + parts[1];
      assert Shape(email, parts[0], labels);
    }
    if MatchesPattern(email) {
      var local, labels :| Shape(email, local, labels);
      ShapeSplits(email, local, labels);
    }
  }

  /** `is_valid_email`: at most 254 bytes, matching the pattern, and the
      piece after the last '.' of the part after the first '@' at least two
      bytes long. */
  predicate IsValidEmail(email: string) {
    if Utf8Len(email) > 254 || !RegexMatches(email) then false
    else
      var parts := SplitOn(email, '@');
      if |parts| >= 2 then
        var labels := SplitOn(parts[1], '.');
        Utf8Len(labels[|labels| - 1]) >= 2
      else
        false
  }

  /** A valid address is a local part, '@', and labels joined by '.', the
      last of them at least two characters, 254 bytes in all; and every
      such text is valid. */
  lemma EmailCharacterisation(email: string)
    ensures IsValidEmail(email) <==>
              Utf8Len(email) <= 254
              && exists local, labels :: Shape(email, local, labels) && |labels[|labels| - 1]| >= 2
  {
    RecogniserMatchesPattern(email);
    if MatchesPattern(email) {
      var local, labels :| Shape(email, local, labels);
      ShapeSplits(email, local, labels);
      LabelAscii(labels[|labels| - 1]);
      forall local', labels' | Shape(email, local', labels')
        ensures labels' == labels
      {
        ShapeSplits(email, local', labels');
      }
    }
  }

  lemma LabelAscii(l: string)
    requires IsLabel(l)
    ensures Utf8Len(l) == |l|
  {
    forall i | 0 <= i < |l| ensures l[i] as int < 0x80 {
      assert LabelChar(l[i]);
    }
    Utf8LenAscii(l);
  }

  /** A domain without any dot is accepted when it is one label of two or
      more characters ("user@localhost"). */
  lemma DotlessDomainAccepted(local: string, tld: string)
    requires IsLocalPart(local) && IsLabel(tld) && |tld| >= 2
    requires Utf8Len(local + "@" + tld) <= 254
    ensures IsValidEmail(local + "@" + tld)
  {
    assert JoinOn([tld], '.') == tld;
    assert Shape(local + "@" + tld, local, [tld]);
    EmailCharacterisation(local + "@" + tld);
  }

  /** A one-character top-level label is refused ("a@b.c"). */
  lemma ShortTldRejected(email: string, local: string, labels: seq<string>)
    requires Shape(email, local, labels) && |labels[|labels| - 1]| < 2
    ensures !IsValidEmail(email)
  {
    ShapeSplits(email, local, labels);
    LabelAscii(labels[|labels| - 1]);
    ShortLastLabel(email, labels);
  }

  lemma ShortLastLabel(email: string, labels: seq<string>)
    requires |labels| >= 1 && Utf8Len(labels[|labels| - 1]) < 2
    requires |SplitOn(email, '@')| >= 2 && SplitOn(SplitOn(email, '@')[1], '.') == labels
    ensures !IsValidEmail(email)
  {
  }

  // ---------------------------------------------------------------------
  // validate_email
  // ---------------------------------------------------------------------

  /** `validate_email`: sanitise and lower-case, then check. */
  function ValidateEmail(email: string): (r: Result<string>)
    ensures r.Ok? <==> IsValidEmail(ToLower(SanitizeString(email)))
    ensures r.Ok? ==> r.value == ToLower(SanitizeString(email))
                      && forall i :: 0 <= i < |r.value| ==> !IsAsciiUpper(r.value[i])
    ensures ToLower(SanitizeString(email)) == [] ==> r == Err("Email is required")
    ensures ToLower(SanitizeString(email)) != [] && !IsValidEmail(ToLower(SanitizeString(email))) ==>
              r == Err("Invalid email format. Please enter a valid email address (e.g., user@example.com)")
  {
    var lowered := ToLower(SanitizeString(email));
    if lowered == [] then
      Err("Email is required")
    else if !IsValidEmail(lowered) then
      Err("Invalid email format. Please enter a valid email address (e.g., user@example.com)")
    else
      Ok(lowered)
  }

  lemma ToLowerIdempotent(s: string)
    ensures ToLower(ToLower(s)) == ToLower(s)
  {
  }

  lemma ToLowerKeepsSanitized(s: string)
    requires Sanitized(s)
    ensures Sanitized(ToLower(s))
  {
    var t := ToLower(s);
    forall i | 0 <= i < |t| ensures !IsControl(t[i]) && (IsWhitespace(t[i]) ==> t[i] == s[i]) {
    }
    forall i | 0 <= i < |t| && IsWhitespace(t[i])
      ensures t[i] == ' ' && 0 < i < |t| - 1 && !IsWhitespace(t[i + 1])
    {
      assert IsWhitespace(s[i]);
    }
  }

  /** An address `validate_email` returns is returned unchanged when it is
      validated again. */
  lemma ValidateEmailIdempotent(email: string)
    requires ValidateEmail(email).Ok?
    ensures ValidateEmail(ValidateEmail(email).value) == ValidateEmail(email)
  {
    var s := SanitizeString(email);
    SanitizeSanitized(email);
    ToLowerKeepsSanitized(s);
    SanitizeFixpoint(ToLower(s));
    ToLowerIdempotent(s);
  }
}
