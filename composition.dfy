/** The email that `/send-passkey` composes for a request that passed both
    format checks: the subject, the greeting and the plain-text body.  The
    HTML body is not part of this model. */
module Composition {
  import opened JsValues
  import opened Patterns

  /** The emoji at the end of the subject and of the closing line are given
      here as the characters that stand in the source file. */
  const Subject: string := "Your Friend Wants to Brainrot \U{011F}\U{0178}\U{02DC}\U{02C6}"
  const Intro: string := "Your friend wants to brainrot, so here's the passkey to help them:"
  const Closing: string := "Decide accordingly if you want to help them or not. \U{011F}\U{0178}\U{02DC}"
  const Footer: string := "Enter this passkey in the extension to unlock."

  /** `Hi <username>,` when the username is truthy, `Hi,` otherwise. */
  function Greeting(username: Option<string>): (g: string)
    ensures |g| >= 3 && g[..2] == "Hi" && g[|g| - 1] == ','
    ensures |g| > 3 <==> Truthy(username)
  {
    if Truthy(username) then "Hi " + username.value + "," else "Hi,"
  }

  /** Reads the name back out of a greeting; `None` for the nameless one. */
  function GreetingName(greeting: string): Option<string> {
    if |greeting| >= 4 && greeting[..3] == "Hi " && greeting[|greeting| - 1] == ','
    then Some(greeting[3..|greeting| - 1])
    else None
  }

  /** The greeting names the user exactly when the username is truthy, and then
      names them verbatim; otherwise it is `Hi,`. */
  lemma GreetingRoundTrip(username: Option<string>)
    ensures GreetingName(Greeting(username)) == if Truthy(username) then username else None
    ensures !Truthy(username) ==> Greeting(username) == "Hi,"
  {
    if Truthy(username) {
      var g := Greeting(username);
      assert g[..3] == "Hi ";
      assert g[3..|g| - 1] == username.value;
    }
  }

  /** The plain-text body, the same concatenation as the source. */
  function TextBody(greeting: string, passkey: string): (t: string)
    ensures |t| == |greeting| + |passkey| + |Before| + |After|
  {
    greeting + "\n\n"
    + Intro + "\n\n"
    + passkey + "\n\n"
    + Closing + "\n\n"
    + Footer
  }

  /** The fixed text between the greeting and the passkey, and after the passkey. */
  const Before: string := "\n\n" + Intro + "\n\n"
  const After: string := "\n\n" + Closing + "\n\n" + Footer

  lemma TextBodyParts(greeting: string, passkey: string)
    ensures TextBody(greeting, passkey) == greeting + Before + passkey + After
  {
    Regroup(greeting, "\n\n", Intro, passkey, Closing, Footer);
  }

  lemma Regroup(g: string, nl: string, intro: string, p: string, closing: string, footer: string)
    ensures g + nl + intro + nl + p + nl + closing + nl + footer
         == g + (nl + intro + nl) + p + (nl + closing + nl + footer)
  {
  }

  /** Splits a plain-text body back into its greeting and its six-character
      passkey, or `None` when the fixed text is not where the body puts it. */
  function ReadTextBody(t: string): Option<(string, string)> {
    var n := |Before| + PasskeyLength + |After|;
    if |t| < n then None
    else if t[|t| - n..|t| - n + |Before|] == Before && t[|t| - |After|..] == After
    then Some((t[..|t| - n], t[|t| - n + |Before|..|t| - |After|]))
    else None
  }

  /** Reading a body gives back the greeting and passkey it was composed from. */
  lemma ReadTextBodyRoundTrip(greeting: string, passkey: string)
    requires |passkey| == PasskeyLength
    ensures ReadTextBody(TextBody(greeting, passkey)) == Some((greeting, passkey))
  {
    var t := TextBody(greeting, passkey);
    TextBodyParts(greeting, passkey);
    var n := |Before| + PasskeyLength + |After|;
    assert t[|t| - n..|t| - n + |Before|] == Before;
    assert t[|t| - |After|..] == After;
    assert t[..|t| - n] == greeting;
    assert t[|t| - n + |Before|..|t| - |After|] == passkey;
  }

  /** Whatever `ReadTextBody` accepts is the body of the pair it returns. */
  lemma ReadTextBodySound(t: string)
    requires ReadTextBody(t).Some?
    ensures |ReadTextBody(t).value.1| == PasskeyLength
    ensures TextBody(ReadTextBody(t).value.0, ReadTextBody(t).value.1) == t
  {
    var (g, p) := ReadTextBody(t).value;
    var n := |Before| + PasskeyLength + |After|;
    TextBodyParts(g, p);
    assert t == t[..|t| - n] + t[|t| - n..|t| - n + |Before|]
      + t[|t| - n + |Before|..|t| - |After|] + t[|t| - |After|..];
  }

  /** The passkey occupies the whole of a line of `t` starting at index `i`. */
  ghost predicate OnOwnLine(t: string, passkey: string, i: nat) {
    0 < i && i + |passkey| < |t|
    && t[i - 1] == '\n' && t[i..i + |passkey|] == passkey && t[i + |passkey|] == '\n'
    && '\n' !in passkey
  }

  /** The body opens with the greeting and a blank line, and a valid passkey
      stands verbatim on a line of its own. */
  lemma TextBodyLayout(greeting: string, passkey: string)
    requires ValidPasskey(passkey)
    ensures var t := TextBody(greeting, passkey);
      |t| >= |greeting| + 2 && t[..|greeting| + 2] == greeting + "\n\n"
      && exists i: nat :: OnOwnLine(t, passkey, i)
  {
    var t := TextBody(greeting, passkey);
    TextBodyParts(greeting, passkey);
    ValidPasskeyIff(passkey);
    assert '\n' !in passkey by {
      forall i | 0 <= i < |passkey| ensures passkey[i] != '\n' {
        assert IsDigit(passkey[i]);
      }
    }
    var i := |greeting| + |Before|;
    assert t[i..i + |passkey|] == passkey;
    assert OnOwnLine(t, passkey, i);
  }
}
