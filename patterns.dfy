/** The two format checks of `/send-passkey`: the deliberately loose email
    pattern `^[^\s@]+@[^\s@]+\.[^\s@]+$` (not the address syntax of RFC 5322)
    and the passkey pattern `^\d{6}$`, both JavaScript regular expressions
    without the `u` flag.  Each check is written as the matcher decides it and
    is proved equal to a reading of the pattern as a regular expression. */
module Patterns {
  import opened JsValues

  /** `\s`: the WhiteSpace and LineTerminator code points of ECMA-262
      (sections 12.2 and 12.3), the Unicode space separators (Zs) included. */
  predicate IsSpace(c: char)
    ensures IsSpace(c) ==> c != '@' && c != '.' && !IsDigit(c)
  {
    c == '\t' || c == '\U{000B}' || c == '\U{000C}' || c == ' ' || c == '\U{00A0}'
    || c == '\U{FEFF}' || c == '\U{1680}' || ('\U{2000}' <= c <= '\U{200A}')
    || c == '\U{202F}' || c == '\U{205F}' || c == '\U{3000}'
    || c == '\n' || c == '\r' || c == '\U{2028}' || c == '\U{2029}'
  }

  /** `\d` without the `u` flag: the ten ASCII digits and nothing else. */
  predicate IsDigit(c: char) {
    '0' <= c <= '9'
  }

  /** The character class `[^\s@]`. */
  predicate IsWordChar(c: char) {
    !IsSpace(c) && c != '@'
  }

  /** `[^\s@]+` matching all of `s`. */
  predicate IsWord(s: string) {
    |s| > 0 && forall i :: 0 <= i < |s| ==> IsWordChar(s[i])
  }

  /** Index of the first occurrence of `c` in `s`. */
  function FirstIndex(s: string, c: char): (r: Option<nat>)
    ensures r.Some? ==> r.value < |s| && s[r.value] == c && c !in s[..r.value]
    ensures r.None? ==> c !in s
  {
    if |s| == 0 then None
    else if s[0] == c then Some(0)
    else match FirstIndex(s[1..], c)
      case None => None
      case Some(k) =>
        assert s[..k + 1] == [s[0]] + s[1..][..k];
        Some(k + 1)
  }

  /** `[^\s@]+\.[^\s@]+` matching all of `d`, the part after the `@`: `d` is a
      word with a `.` that has at least one character on each side. */
  predicate IsDomain(d: string) {
    |d| >= 3 && IsWord(d) && '.' in d[1..|d| - 1]
  }

  /** The email check.  `[^\s@]+` cannot cross an `@`, so the pattern's `@` is
      the first one; what follows it must be a domain. */
  predicate ValidEmail(s: string)
    ensures ValidEmail(s) ==> '@' in s && |s| >= 5
  {
    match FirstIndex(s, '@')
    case None => false
    case Some(k) => IsWord(s[..k]) && IsDomain(s[k + 1..])
  }

  /** The email pattern read as a regular expression: `s` is a word, `@`, a
      word, `.`, a word, with the `@` at index `at` and the `.` at index `dot`. */
  ghost predicate EmailSplit(s: string, at: nat, dot: nat) {
    at < dot < |s| && s[at] == '@' && s[dot] == '.'
    && IsWord(s[..at]) && IsWord(s[at + 1..dot]) && IsWord(s[dot + 1..])
  }

  ghost predicate MatchesEmailPattern(s: string) {
    exists at: nat, dot: nat :: EmailSplit(s, at, dot)
  }

  /** The accepted addresses described in words, with the `@` at index `at`:
      no whitespace anywhere, exactly one `@`, something before it, and after
      it a `.` with at least one character on each side. */
  ghost predicate EmailShape(s: string, at: nat) {
    0 < at < |s| && s[at] == '@'
    && (forall i :: 0 <= i < |s| && s[i] == '@' ==> i == at)
    && (forall i :: 0 <= i < |s| ==> !IsSpace(s[i]))
    && exists dot :: at + 1 < dot < |s| - 1 && s[dot] == '.'
  }

  lemma WordSlice(s: string, i: nat, j: nat)
    requires IsWord(s) && i < j <= |s|
    ensures IsWord(s[i..j])
  {
    assert forall k :: 0 <= k < j - i ==> s[i..j][k] == s[i + k];
  }

  lemma WordConcat(a: string, b: string)
    requires IsWord(a) && IsWord(b)
    ensures IsWord(a + b)
  {
    assert forall k :: 0 <= k < |a + b| ==> (a + b)[k] == if k < |a| then a[k] else b[k - |a|];
  }

  /** The email check accepts exactly the strings the regular expression matches. */
  lemma ValidEmailMatchesPattern(s: string)
    ensures ValidEmail(s) <==> MatchesEmailPattern(s)
  {
    if ValidEmail(s) {
      var at := FirstIndex(s, '@').value;
      var d := s[at + 1..];
      var m :| 1 <= m < |d| - 1 && d[m] == '.';
      var dot := at + 1 + m;
      assert s[at + 1..dot] == d[..m];
      assert s[dot + 1..] == d[m + 1..];
      WordSlice(d, 0, m);
      WordSlice(d, m + 1, |d|);
      assert EmailSplit(s, at, dot);
    }
    if MatchesEmailPattern(s) {
      var at: nat, dot: nat :| EmailSplit(s, at, dot);
      var local := s[..at];
      assert '@' !in local by {
        assert forall i :: 0 <= i < |local| ==> IsWordChar(local[i]);
      }
      FirstIndexIsFirst(s, '@', at);
      var d := s[at + 1..];
      var host, tld := s[at + 1..dot], s[dot + 1..];
      assert d == host + ['.'] + tld;
      assert IsWord(['.']);
      WordConcat(host, ['.']);
      WordConcat(host + ['.'], tld);
      assert d[1..|d| - 1][dot - at - 2] == '.';
    }
  }

  /** When `c` first occurs at `k`, `FirstIndex` finds it there. */
  lemma {:induction false} FirstIndexIsFirst(s: string, c: char, k: nat)
    requires k < |s| && s[k] == c && c !in s[..k]
    ensures FirstIndex(s, c) == Some(k)
  {
    if k > 0 {
      assert s[0] in s[..k];
      assert s[1..][..k - 1] == s[1..k];
      assert forall x :: x in s[1..k] ==> x in s[..k];
      FirstIndexIsFirst(s[1..], c, k - 1);
    }
  }

  /** The email check accepts exactly the strings of the shape described in words. */
  lemma ValidEmailShape(s: string)
    ensures ValidEmail(s) <==> exists at: nat :: EmailShape(s, at)
  {
    ValidEmailMatchesPattern(s);
    if MatchesEmailPattern(s) {
      var at: nat, dot: nat :| EmailSplit(s, at, dot);
      WordsAroundSeparators(s, at, dot);
      assert EmailShape(s, at);
    }
    if at: nat :| EmailShape(s, at) {
      var dot :| at + 1 < dot < |s| - 1 && s[dot] == '.';
      var local, host, tld := s[..at], s[at + 1..dot], s[dot + 1..];
      assert forall i :: 0 <= i < |local| ==> local[i] == s[i];
      assert forall i :: 0 <= i < |host| ==> host[i] == s[at + 1 + i];
      assert forall i :: 0 <= i < |tld| ==> tld[i] == s[dot + 1 + i];
      assert EmailSplit(s, at, dot);
    }
  }

  /** In a split string, the only `@` is the separator and there is no whitespace. */
  lemma WordsAroundSeparators(s: string, at: nat, dot: nat)
    requires EmailSplit(s, at, dot)
    ensures forall i :: 0 <= i < |s| && s[i] == '@' ==> i == at
    ensures forall i :: 0 <= i < |s| ==> !IsSpace(s[i])
  {
    forall i | 0 <= i < |s|
      ensures !IsSpace(s[i]) && (s[i] == '@' ==> i == at)
    {
      if i < at {
        assert s[..at][i] == s[i];
      } else if at < i < dot {
        assert s[at + 1..dot][i - at - 1] == s[i];
      } else if dot < i {
        assert s[dot + 1..][i - dot - 1] == s[i];
      }
    }
  }

  /** `\d{n}` matching all of `p`: `n` repetitions of one digit each. */
  predicate DigitRun(p: string, n: nat)
    ensures DigitRun(p, n) ==> |p| == n
  {
    if n == 0 then p == [] else |p| > 0 && IsDigit(p[0]) && DigitRun(p[1..], n - 1)
  }

  const PasskeyLength: nat := 6

  /** The passkey check `^\d{6}$`. */
  predicate ValidPasskey(p: string)
    ensures ValidPasskey(p) ==> |p| == 6 && '\n' !in p
  {
    DigitRunIff(p, PasskeyLength);
    assert DigitRun(p, PasskeyLength) ==> forall i :: 0 <= i < |p| ==> p[i] != '\n';
    DigitRun(p, PasskeyLength)
  }

  lemma {:induction false} DigitRunIff(p: string, n: nat)
    ensures DigitRun(p, n) <==> |p| == n && forall i :: 0 <= i < |p| ==> IsDigit(p[i])
  {
    if n > 0 && |p| > 0 {
      DigitRunIff(p[1..], n - 1);
      assert forall i :: 1 <= i < |p| ==> p[1..][i - 1] == p[i];
    }
  }

  /** A passkey is accepted exactly when it is six ASCII digits. */
  lemma ValidPasskeyIff(p: string)
    ensures ValidPasskey(p) <==> |p| == 6 && forall i :: 0 <= i < |p| ==> IsDigit(p[i])
  {
    DigitRunIff(p, PasskeyLength);
  }

  /** An ordinary address is accepted. */
  lemma AcceptsPlainAddress()
    ensures ValidEmail("a@b.com")
  {
    FirstIndexIsFirst("a@b.com", '@', 1);
    assert "a@b.com"[2..][1] == '.';
  }

  /** The pattern is loose: consecutive dots pass ... */
  lemma AcceptsConsecutiveDots()
    ensures ValidEmail("a..b@c.d")
  {
    FirstIndexIsFirst("a..b@c.d", '@', 4);
    assert "a..b@c.d"[5..][1] == '.';
  }

  /** ... and so do characters RFC 5322 forbids in an address. */
  lemma AcceptsAngleBrackets()
    ensures ValidEmail("<x>@y.z")
  {
    FirstIndexIsFirst("<x>@y.z", '@', 3);
    assert "<x>@y.z"[4..][1] == '.';
  }

  /** No `@`, no dot after it, or nothing before it: rejected. */
  lemma RejectsMissingParts()
    ensures !ValidEmail("bad") && !ValidEmail("a@b") && !ValidEmail("@b.com")
  {
  }

  /** A dot at either end of the domain, a second `@` or whitespace: rejected. */
  lemma RejectsMalformedDomains()
    ensures !ValidEmail("a@.com") && !ValidEmail("a@b.") && !ValidEmail("a@b@c.d")
  {
    FirstIndexIsFirst("a@b@c.d", '@', 1);
    assert "a@b@c.d"[2..][1] == '@';
  }

  lemma RejectsWhitespace()
    ensures !ValidEmail("a b@c.d") && !ValidEmail("a@b.c\n")
  {
    FirstIndexIsFirst("a@b.c\n", '@', 1);
    assert "a@b.c\n"[2..][3] == '\n';
  }

  /** Passkeys accepted and rejected: five and seven digits fail, and so do
      digits outside ASCII. */
  lemma PasskeyExamples()
    ensures ValidPasskey("123456") && ValidPasskey("000000")
    ensures !ValidPasskey("12345") && !ValidPasskey("1234567") && !ValidPasskey("12a456")
    ensures !ValidPasskey("\U{FF11}23456")
  {
  }
}
