# Passkey relay server: request validation and message composition

This project models the core of the `focus-passkey-server`, the small HTTP
server that emails a one-time six-digit passkey to a friend of the user so
that the friend can unlock the "brainrot" filter extension. The model covers
these parts of the `POST /send-passkey` handler and of startup:

- the guard chain on the request body. `email` and `passkey` must both be
  present. Then the email must match `^[^\s@]+@[^\s@]+\.[^\s@]+$`. Then the
  passkey must match `^\d{6}$`. The first guard that fails decides the 400
  response (module `Patterns` and `PasskeyServer.Validate`);
- the mapping from the email provider's answer to the response. An error
  gives 502 with the provider's details, success gives 200 with the id, and an
  exception gives 500 (`PasskeyServer.Handle`);
- the greeting and the plain-text body of the email (module `Composition`);
- the startup guard. The server starts only when `RESEND_API_KEY` and
  `FROM_EMAIL` are both non-empty, and the port defaults to 3000
  (`PasskeyServer.Start`).

Everything is pure: datatypes, functions and lemmas. The handler becomes a
total function `Handle(cfg, req, result)`. The provider's answer `result` is
an input of type `SendResult`. The output `Exchange` holds the response and the
email handed to the provider, if one was sent. Request fields are
`Option<string>`. JavaScript's `!x` on a string field is modelled as "absent
or empty" (`JsValues.Truthy`). A request without a body reads as all three
fields absent, as `req.body || {}` makes it.

Both regular expressions are JavaScript expressions without the `u` flag.
`\d` is `[0-9]`. `\s` is the WhiteSpace and LineTerminator sets of ECMA-262
(sections 12.2 and 12.3), the Unicode space separators included
(`Patterns.IsSpace`). The email pattern is deliberately loose and is not the
address syntax of RFC 5322. `Patterns.ValidEmail` decides it the way the
matcher does: the pattern's `@` must be the first `@`, because `[^\s@]+` cannot
cross one. Two independent readings are proved equal to it. One is the
regular expression read as a split (word, `@`, word, `.`, word). The other is
the shape described in words: no whitespace, exactly one `@` with something
before it, and a `.` after it with a character on each side.

The 400 message speaks of required fields. Because `!""` is true, an empty
`email` or `passkey` gets it as well as an absent one.

## Model

| member | source | states |
|---|---|---|
| `Patterns.IsSpace` | focus-passkey-server/index.js:41 | `\s` is the ECMAScript WhiteSpace and LineTerminator set; no whitespace character is `@`, `.` or a digit, so the classes of both patterns do not overlap |
| `Patterns.ValidEmail` | focus-passkey-server/index.js:41-42 | an accepted email contains an `@` and is at least five characters long (`a@b.c`); `ValidEmailMatchesPattern` and `ValidEmailShape` pin it exactly |
| `Patterns.DigitRun` | focus-passkey-server/index.js:47 | `\d{n}` matches only strings of length n; `DigitRunIff` pins it exactly |
| `Patterns.ValidPasskey` | focus-passkey-server/index.js:47 | an accepted passkey has six characters and no newline; `ValidPasskeyIff` pins it exactly |
| `Patterns.ValidEmailMatchesPattern` | focus-passkey-server/index.js:41-42 | the email check accepts exactly the strings that split as `[^\s@]+` `@` `[^\s@]+` `.` `[^\s@]+`, in both directions |
| `Patterns.ValidEmailShape` | focus-passkey-server/index.js:41-42 | the email check accepts exactly the strings with no whitespace, exactly one `@` with a non-empty part before it, and a `.` after the `@` with at least one character on each side |
| `Patterns.DigitRunIff` | focus-passkey-server/index.js:47 | `\d{n}` matches a whole string exactly when it has length n and every character is an ASCII digit |
| `Patterns.ValidPasskeyIff` | focus-passkey-server/index.js:47 | the passkey check accepts exactly the strings of six characters in `'0'..'9'` |
| `Patterns.AcceptsPlainAddress` | focus-passkey-server/index.js:41-42 | `a@b.com` passes the email check |
| `Patterns.AcceptsConsecutiveDots` | focus-passkey-server/index.js:41-42 | the check is loose: `a..b@c.d` passes |
| `Patterns.AcceptsAngleBrackets` | focus-passkey-server/index.js:41-42 | the check is loose: `<x>@y.z` passes although RFC 5322 forbids it |
| `Patterns.RejectsMissingParts` | focus-passkey-server/index.js:41-42 | `bad`, `a@b` and `@b.com` fail the email check |
| `Patterns.RejectsMalformedDomains` | focus-passkey-server/index.js:41-42 | `a@.com`, `a@b.` and `a@b@c.d` fail the email check |
| `Patterns.RejectsWhitespace` | focus-passkey-server/index.js:41-42 | a space inside, or a trailing newline, fails the email check (`$` does not match before a final newline) |
| `Patterns.PasskeyExamples` | focus-passkey-server/index.js:47 | `123456` and `000000` pass; `12345`, `1234567`, `12a456` and a passkey starting with a full-width digit fail |
| `Composition.Greeting` | focus-passkey-server/index.js:52 | the greeting starts with `Hi`, ends with `,`, and is longer than `Hi,` exactly when the username is truthy |
| `Composition.GreetingRoundTrip` | focus-passkey-server/index.js:52 | the greeting names the user exactly when the username is truthy, and then names them verbatim (`Hi <username>,`); otherwise it is exactly `Hi,` |
| `Composition.TextBody` | focus-passkey-server/index.js:60-65 | the body is the greeting and the passkey plus a fixed amount of text; `ReadTextBodyRoundTrip`, `ReadTextBodySound` and `TextBodyLayout` pin it |
| `Composition.ReadTextBodyRoundTrip` | focus-passkey-server/index.js:60-65 | the greeting and a six-character passkey can be read back from the body they were composed into |
| `Composition.ReadTextBodySound` | focus-passkey-server/index.js:60-65 | every body the reader accepts is the body of the greeting and passkey it returns, so the reader is the exact inverse of composition |
| `Composition.TextBodyLayout` | focus-passkey-server/index.js:60-65 | the body starts with the greeting and a blank line, and a valid passkey stands verbatim on a line of its own |
| `PasskeyServer.Validate` | focus-passkey-server/index.js:34-49 | a request is accepted exactly when both fields are truthy and both patterns match, and the accepted fields are the request's own; "required" is given exactly when a field is absent or empty; "Invalid email format" is given exactly when both are present and the email fails |
| `PasskeyServer.RejectionMessagesDistinct` | focus-passkey-server/index.js:36-49 | the three 400 messages (`email and passkey are required`, `Invalid email format`, `Passkey must be 6 digits`) differ, so the response tells which guard failed |
| `PasskeyServer.Compose` | focus-passkey-server/index.js:67-73 | the email goes to the request's address from the configured sender with the fixed subject, and for a six-character passkey its text reads back as the greeting and that passkey |
| `PasskeyServer.Respond` | focus-passkey-server/index.js:75-83 | a provider answer never gives a 400; the response is a success, with no `error` field, exactly when the provider sent the email |
| `PasskeyServer.Handle` | focus-passkey-server/index.js:32-84 | an email is sent exactly when validation accepts; the response is 400 exactly when nothing was sent; the email sent goes to the request's address from the configured sender with the fixed subject, and its text carries the greeting and the passkey |
| `PasskeyServer.PresenceCheckedFirst` | focus-passkey-server/index.js:36-38 | an absent or empty `email` or `passkey` gives 400 "email and passkey are required" and no send, whatever the other fields and the provider are |
| `PasskeyServer.EmailCheckedBeforePasskey` | focus-passkey-server/index.js:36-44 | with both fields present, a malformed email gives 400 "Invalid email format" and no send, whatever the passkey is |
| `PasskeyServer.PasskeyCheckedLast` | focus-passkey-server/index.js:46-49 | with both fields present and a well-formed email, a passkey that is not six ASCII digits gives 400 "Passkey must be 6 digits" and no send |
| `PasskeyServer.SentOnlyWhenPatternsMatch` | focus-passkey-server/index.js:36-73 | the provider is reached exactly when both fields are truthy, the email matches the regular expression and the passkey is six ASCII digits |
| `PasskeyServer.ProviderIgnoredOnRejection` | focus-passkey-server/index.js:36-49 | a refused request gets the same outcome whatever the provider would have answered |
| `PasskeyServer.ProviderDecidesOutcome` | focus-passkey-server/index.js:75-83 | for an accepted request: a provider error gives 502 "Failed to send email" with the provider's details; success gives 200 with the id and no error; an exception gives 500 "Internal server error" |
| `PasskeyServer.DocumentedRefusals` | focus-passkey-server/index.js:36-49 | `a@b.com` with `12345` is refused for the passkey; `bad` with `123456`, and `bad` with `12`, are refused for the email |
| `PasskeyServer.DocumentedSuccess` | focus-passkey-server/index.js:75-80 | `a@b.com` with `123456` and a provider returning an id gives 200 with that id |
| `PasskeyServer.Start` | focus-passkey-server/index.js:9-16 | the server listens exactly when `RESEND_API_KEY` and `FROM_EMAIL` are both non-empty, with those values and the port defaulting to 3000 (the number `3000` in the source, the string `"3000"` here); otherwise the process exits with 1 |

## Left out

- Express routing, CORS, JSON body parsing, `dotenv` loading, `app.listen` and the `console` logging are framework and I/O plumbing.
- The `/health` endpoint returns a constant object.
- The provider call `resend.emails.send` is a network call. It appears only as the `SendResult` input. The provider's error object is modelled as a string, and the API key is carried in `Config` but never used.
- `PasskeyServer.Handle` treats the send as the only step that can throw. The model has no other exception inside the `try`, such as a failing `res.json`.
- The HTML body is presentation markup and is not modelled. In the source, `username` and `passkey` are put into the HTML without escaping.
- Only string values are modelled for `email`, `username` and `passkey`. JSON numbers, booleans and objects, and the way JavaScript coerces them in `!x` and `regex.test`, are not part of this model.
- Strings are sequences of Unicode scalar values, but a JavaScript regular expression without `u` works on UTF-16 code units. For both patterns this makes no difference. A character outside the Basic Multilingual Plane is two code units, and neither unit is whitespace, `@`, `.` or a digit. Lone surrogates cannot be represented.
- The emoji in the subject and in the closing line are modelled as the characters that stand in index.js at lines 51 and 64 (a UTF-8 emoji's bytes read as single-byte characters). No property depends on them.
- `PasskeyServer.Start`: the default port is the number `3000` in the source and the string `"3000"` in the model. `app.listen` treats both the same.
- The browser-extension content filters (YouTube, Instagram, URL blocklist) and the popup are not part of this model.
