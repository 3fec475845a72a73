/** The two regular expressions of the register handler (api/controllers/auth.js:19-22),
    exactly as written. Each comes twice: a reference reading of the pattern as a language
    (the decomposition the regular expression engine searches for), and the index-based test
    the handlers use, with a lemma that the two agree on every string. */
module Patterns {
  import opened JsRuntime

  predicate IsAsciiLetter(c: char) {
    ('A' <= c <= 'Z') || ('a' <= c <= 'z')
  }

  /** `[A-Za-z0-9._%+-]` */
  predicate IsLocalChar(c: char) {
    IsAsciiLetter(c) || IsDecimalDigit(c) || c == '.' || c == '_' || c == '%' || c == '+' || c == '-'
  }

  /** `[A-Za-z0-9.-]` */
  predicate IsDomainChar(c: char) {
    IsAsciiLetter(c) || IsDecimalDigit(c) || c == '.' || c == '-'
  }

  predicate AllLocal(s: string) {
    forall i :: 0 <= i < |s| ==> IsLocalChar(s[i])
  }

  predicate AllDomain(s: string) {
    forall i :: 0 <= i < |s| ==> IsDomainChar(s[i])
  }

  predicate AllLetters(s: string) {
    forall i :: 0 <= i < |s| ==> IsAsciiLetter(s[i])
  }

  // ---------------------------------------------------------------------------------------
  // Email: ^[A-Za-z0-9._%+-]+@[A-Za-z0-9.-]+.[A-Za-z]{2,}$
  // The `.` before the top-level domain is not escaped, so it stands for any character
  // except a line terminator.

  /** One way for `s` to match the email pattern: local part, `@`, domain, the single
      unescaped-dot character, and a top-level domain of at least two letters. */
  ghost predicate EmailSplit(s: string, local: string, domain: string, dot: char, tld: string) {
    && s == local + "@" + domain + [dot] + tld
    && |local| >= 1 && AllLocal(local)
    && |domain| >= 1 && AllDomain(domain)
    && !IsLineTerminator(dot)
    && |tld| >= 2 && AllLetters(tld)
  }

  /** The language of the email pattern. */
  ghost predicate EmailPatternMatches(s: string) {
    exists local, domain, dot, tld :: EmailSplit(s, local, domain, dot, tld)
  }

  /** After the `@`: some position `j` holds the any-character, with domain characters
      before it and at least two letters after it. */
  predicate DomainPartOk(r: string) {
    exists j | 1 <= j && j + 3 <= |r| ::
      AllDomain(r[..j]) && !IsLineTerminator(r[j]) && AllLetters(r[j + 1..])
  }

  /** `emailRegex.test(email)`. */
  predicate EmailRegexTest(s: string) {
    exists at | 1 <= at < |s| :: s[at] == '@' && AllLocal(s[..at]) && DomainPartOk(s[at + 1..])
  }

  lemma EmailSplitGivesTest(s: string, local: string, domain: string, dot: char, tld: string)
    requires EmailSplit(s, local, domain, dot, tld)
    ensures EmailRegexTest(s)
  {
    var at := |local|;
    var r := domain + [dot] + tld;
    assert s == local + "@" + r;
    assert s[at] == '@' && s[..at] == local && s[at + 1..] == r;
    var j := |domain|;
    assert r[..j] == domain && r[j] == dot && r[j + 1..] == tld;
    assert DomainPartOk(r);
  }

  lemma EmailTestGivesSplit(s: string)
    requires EmailRegexTest(s)
    ensures EmailPatternMatches(s)
  {
    var at :| 1 <= at < |s| && s[at] == '@' && AllLocal(s[..at]) && DomainPartOk(s[at + 1..]);
    DomainGivesSplit(s, at);
  }

  lemma DomainGivesSplit(s: string, at: int)
    requires 1 <= at < |s| && s[at] == '@' && AllLocal(s[..at]) && DomainPartOk(s[at + 1..])
    ensures EmailPatternMatches(s)
  {
    var r := s[at + 1..];
    var j :| 1 <= j && j + 3 <= |r| && AllDomain(r[..j]) && !IsLineTerminator(r[j]) && AllLetters(r[j + 1..]);
    assert r[j] == s[at + 1 + j] && r[j + 1..] == s[at + 1 + j + 1..];
    SplitAt(s, at, j);
  }

  lemma SplitAt(s: string, at: int, j: int)
    requires 1 <= at < |s| && s[at] == '@' && AllLocal(s[..at])
    requires 1 <= j && at + 1 + j + 3 <= |s|
    requires AllDomain(s[at + 1..][..j]) && !IsLineTerminator(s[at + 1 + j]) && AllLetters(s[at + 1 + j + 1..])
    ensures EmailSplit(s, s[..at], s[at + 1..at + 1 + j], s[at + 1 + j], s[at + 1 + j + 1..])
    ensures EmailPatternMatches(s)
  {
    var local, domain, dot, tld := s[..at], s[at + 1..at + 1 + j], s[at + 1 + j], s[at + 1 + j + 1..];
    assert s[at + 1..][..j] == domain;
    assert s == local + "@" + domain + [dot] + tld;
    assert EmailSplit(s, local, domain, dot, tld);
  }

  /** The test the handler runs accepts exactly the language of the pattern. */
  lemma EmailRegexTestCorrect(s: string)
    ensures EmailRegexTest(s) <==> EmailPatternMatches(s)
  {
    if EmailRegexTest(s) {
      EmailTestGivesSplit(s);
    }
    if EmailPatternMatches(s) {
      var local, domain, dot, tld :| EmailSplit(s, local, domain, dot, tld);
      EmailSplitGivesTest(s, local, domain, dot, tld);
    }
  }

  /** A domain without any dot passes: the unescaped `.` consumes an ordinary letter. */
  lemma DotlessDomainAccepted()
    ensures EmailPatternMatches("a@bcom")
  {
    assert EmailSplit("a@bcom", "a", "b", 'c', "om");
  }

  /** Every accepted address contains an `@` with at least one character before it and three
      after it, so the empty string and an address without `@` are refused. */
  lemma EmailPatternShape(s: string)
    requires EmailPatternMatches(s)
    ensures |s| >= 5 && '@' in s
  {
    var local, domain, dot, tld :| EmailSplit(s, local, domain, dot, tld);
    assert s[|local|] == '@';
  }

  // ---------------------------------------------------------------------------------------
  // Password: ^(?=.*[A-Za-z])(?=.*d).{6,}$
  // The string literal holds `d`, not `\d`: the second look-ahead asks for the letter d.

  /** `(?=.*[A-Za-z])` at the start: a letter preceded only by non-terminators. */
  ghost predicate LetterAhead(s: string) {
    exists i :: 0 <= i < |s| && NoLineTerminator(s[..i]) && IsAsciiLetter(s[i])
  }

  /** `(?=.*d)` at the start: a `d` preceded only by non-terminators. */
  ghost predicate LetterDAhead(s: string) {
    exists i :: 0 <= i < |s| && NoLineTerminator(s[..i]) && s[i] == 'd'
  }

  /** The language of the password pattern: both look-aheads, then `.{6,}` up to the end. */
  ghost predicate PasswordPatternMatches(s: string) {
    LetterAhead(s) && LetterDAhead(s) && |s| >= 6 && NoLineTerminator(s)
  }

  /** `passwordRegex.test(password)`. */
  predicate PasswordRegexTest(s: string) {
    |s| >= 6 && NoLineTerminator(s) && 'd' in s
  }

  /** The test accepts exactly the pattern's language: at least six characters, no line
      terminator, and a letter `d` somewhere. No digit is needed. */
  lemma PasswordRegexTestCorrect(s: string)
    ensures PasswordRegexTest(s) <==> PasswordPatternMatches(s)
  {
    if PasswordRegexTest(s) {
      var i :| 0 <= i < |s| && s[i] == 'd';
      assert NoLineTerminator(s[..i]);
      assert LetterAhead(s) && LetterDAhead(s);
    }
    if PasswordPatternMatches(s) {
      var i :| 0 <= i < |s| && NoLineTerminator(s[..i]) && s[i] == 'd';
      assert 'd' in s;
    }
  }

  /** A password with a digit but no `d` is refused, one with a `d` is accepted, and so is
      one with no digit at all. */
  lemma PasswordExamples()
    ensures !PasswordPatternMatches("abc123")
    ensures PasswordPatternMatches("Passw0rd")
    ensures PasswordPatternMatches("dddddd")
  {
    PasswordRegexTestCorrect("abc123");
    PasswordRegexTestCorrect("Passw0rd");
    PasswordRegexTestCorrect("dddddd");
    assert "Passw0rd"[7] == 'd';
    assert "dddddd"[0] == 'd';
  }
}
