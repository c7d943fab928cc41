# Mail-Sender: a Dafny model of the request pipeline

Mail-Sender is a small Express server. `POST /api/send-email` takes a
recipient, some HTML content and an optional subject, and sends them through
a mail provider. `GET /api/test` verifies the provider configuration and shows
the configured sender address in masked form. This project models the logic
of those two handlers in `app.js` as pure Dafny functions and proves lemmas
about them:

- **Validation** (`Validation`, `ValidatorLib`). These are the three
  express-validator chains. Each chain trims its field and collects errors in
  chain order. A chain does not stop at its first failure, so empty content
  is reported twice: once by `notEmpty` and once by `isLength`. The `trim`
  sanitizers rewrite the body, and the handler then reads the trimmed fields.
  `isEmail` and `normalizeEmail` belong to the validator library, so they
  appear as the uninterpreted function fields of `EmailLibrary`.
- **Mail options** (`SendEmail.BuildMailOptions`, `TagStrip`). The subject
  falls back to "Message from Email Sender App". The HTML body is the trimmed
  content. The plain-text body is that content after the global replace
  `/<[^>]*>/g` → `""`, which `TagStrip.StripTags` models as a left-to-right
  scan.
- **Outcome mapping** (`SendEmail.HandleSendEmail`). Validation errors give
  400 and no mail is sent. A delivered mail gives 200, echoing the recipient
  and the subject. A provider failure gives 500, and the provider's message
  is included only when `NODE_ENV` is exactly `"development"`. The provider
  is a parameter `sendMail: MailOptions -> SendOutcome`. The handler also
  returns the list of mails it handed to the provider, so that "nothing is
  sent" can be stated.
- **Configuration test** (`ConfigTest`, `Masking`). The service defaults to
  "gmail". An unset or empty `EMAIL_USER` is shown as "Not configured".
  Otherwise the user is shown after the non-global replace
  `/(.{2}).*(@.*)/` → `"$1***$2"`. `Masking` models the regex as written:
  - the match is the leftmost one;
  - `.` matches anything except a line terminator;
  - the greedy `.*` backs off to the last '@' on the same line.

The environment (`NODE_ENV`, `EMAIL_USER`, `EMAIL_SERVICE`) is a value of
`Config.Env`. An unset variable is `None`.

Where the code and its description differ, the model follows the code:

- The mail's `html` is the trimmed content, not the content as submitted,
  because the sanitizer rewrites `req.body` before the handler reads it.
- A subject of exactly 200 characters after trimming is accepted, although
  the message says "less than 200" (`Validation.SubjectBoundary`).
- The masked user keeps the '@' and everything after the last '@'. A user
  whose only '@' sits at index 0 or 1 is shown unchanged.
- The 500 response of `/api/test` always carries the provider's error
  message, whatever `NODE_ENV` holds.
- `from` interpolates `EMAIL_USER` into a template literal, so when the
  variable is unset it reads `"Email Sender App" <undefined>`.

## Model

| member | source | states |
|---|---|---|
| `ValidatorLib.TrimStart` | app.js:46 | the start-trimmed text is never longer than the input; `TrimStartCuts` says what is cut |
| `ValidatorLib.TrimEnd` | app.js:46 | the end-trimmed text is never longer than the input; `TrimEndCuts` says what is cut |
| `ValidatorLib.Trim` | app.js:46 | the trimmed text is never longer than the input; `TrimCuts` pins it down exactly |
| `ValidatorLib.TrimStartCuts` | app.js:46 | trimming the start keeps a suffix, removes only white space, and stops at a character that is not white space |
| `ValidatorLib.TrimEndCuts` | app.js:46 | trimming the end keeps a prefix, removes only white space, and stops at a character that is not white space |
| `ValidatorLib.TrimCuts` | app.js:46 | `trim` returns the part of the input between a leading and a trailing run of white space, with no white space left at either end |
| `ValidatorLib.TrimOfTrimmed` | app.js:46 | a string with no white space at either end is left unchanged by `trim` |
| `ValidatorLib.TrimIdempotent` | app.js:46 | trimming twice gives the same result as trimming once |
| `ValidatorLib.TrimAllWhiteSpace` | app.js:52-53 | a string made only of white space trims to "", which `notEmpty` then rejects |
| `Validation.FieldText` | app.js:45-46 | a field as the chain sees it after `trim()`: no white space at either end, and "" when the field is missing |
| `Validation.RecipientErrors` | app.js:45-48 | no error exactly when the trimmed recipient passes the email check; otherwise the single recipient error |
| `Validation.ContentErrors` | app.js:51-56 | no error exactly when the trimmed content has 1 to 50000 characters; "Email content is required" exactly when it is empty; at most two errors, all for `emailContent` |
| `Validation.SubjectErrors` | app.js:58-62 | no error exactly when the subject is absent or trims to at most 200 characters; otherwise the single subject error |
| `Validation.Validate` | app.js:44-63 | no errors exactly when every field passes its rule; a body that passed has content of 1 to 50000 characters and any subject has at most 200 |
| `Validation.ChainErrors` | app.js:44-63 | for each field, its errors in the collected list are exactly what its own chain reports |
| `Validation.ErrorsInChainOrder` | app.js:44-63 | errors come in chain order: all recipient errors, then content errors, then subject errors |
| `Validation.RecipientRule` | app.js:45-48 | a recipient failing the email check gives exactly one `toEmail` error with its message, and that error comes first; a passing one gives none |
| `Validation.MissingRecipientRejected` | app.js:45-48 | a missing `toEmail` is checked as "" and rejected when "" is not an email |
| `Validation.ContentRule` | app.js:51-56 | trimmed content that is empty gives both the "required" and the length error; 1 to 50000 characters gives no error; longer content gives the length error alone |
| `Validation.BlankContentRejected` | app.js:51-54 | absent or all-white-space content is reported as "Email content is required" |
| `Validation.SubjectRule` | app.js:58-62 | an absent subject is never an error; a present one is reported exactly when its trimmed length exceeds 200 |
| `Validation.SubjectBoundary` | app.js:58-62 | a trimmed subject of 200 characters passes and one of 201 is reported |
| `Validation.AllViolationsReported` | app.js:44-63 | each field is reported if and only if it breaks its own rule |
| `TagStrip.StripTags` | app.js:88 | the global replace of `<[^>]*>` by "": never longer than its input; its lemmas below say what it removes and keeps |
| `TagStrip.TagAt` | app.js:88 | a tag starts here exactly when the text starts with '<' and has a later '>'; the tag ends at the first '>' |
| `TagStrip.StripTagsDeletes` | app.js:88 | the stripped text is a subsequence of the input: characters are only deleted, never reordered, repeated or introduced |
| `TagStrip.StripTagsKeepsCharacters` | app.js:88 | every character of the stripped text occurs in the input |
| `TagStrip.StripTagsLeavesNoTag` | app.js:88 | no '<' in the stripped text is followed by a '>' |
| `TagStrip.StripTagsKeepsTagless` | app.js:88 | text without a '<' followed by a '>' is unchanged |
| `TagStrip.StripTagsShortensTagged` | app.js:88 | text with a tag gets strictly shorter |
| `TagStrip.StripTagsUnchangedIff` | app.js:88 | stripping leaves the text unchanged if and only if it holds no tag |
| `TagStrip.StripTagsIdempotent` | app.js:88 | stripping twice gives the same result as stripping once |
| `TagStrip.StripTagsWithoutOpen` | app.js:88 | text without '<' is unchanged |
| `TagStrip.StripTagsWithoutClose` | app.js:88 | text without '>' is unchanged |
| `TagStrip.StripTagsAppendUnclosed` | app.js:88 | a tail without '>' passes through untouched |
| `TagStrip.StripTagsKeepsUnclosed` | app.js:88 | a '<' with no later '>' survives, with everything after it |
| `TagStrip.StripTagsKeepsPlain` | app.js:88 | a first character other than '<' is kept, and stripping goes on after it |
| `TagStrip.StripTagsKeepsPlainPrefix` | app.js:88 | text without '<' at the front is kept whole, and stripping goes on after it |
| `TagStrip.StripTagsLeadingTag` | app.js:88 | a `<...>` at the very start is removed up to its first '>' |
| `TagStrip.StripTagsRemovesTag` | app.js:88 | text without '<' followed by a `<...>` span holding no '>': the span is removed, the text before it is kept, and stripping goes on after it |
| `TagStrip.StripTagsElement` | app.js:88 | an element `<t>w</t>` with plain text `w` strips down to `w` |
| `TagStrip.StripTagsExample` | app.js:88 | two elements in a row, like `<h1>Hi</h1><p>there</p>`, strip to the concatenation of their texts |
| `Masking.LineEnd` | app.js:123 | a run of `.` starting at `i` stops at the next line terminator or at the end |
| `Masking.LastAt` | app.js:123 | finds the last '@' in a range, or reports that the range has none |
| `Masking.MatchAt` | app.js:123 | the regex matches at `p` exactly when an '@' follows two characters on the same line; group 2 starts at the last such '@' |
| `Masking.FirstMatch` | app.js:123 | the match found is the leftmost one: no earlier position matches, and no match at all means none anywhere |
| `Masking.MaskUser` | app.js:123 | no match leaves the user unchanged; the leftmost match at `p`, with group 2 at `q`, keeps the text up to the end of group 1, inserts "***", and keeps the text from the '@' of group 2 on |
| `Masking.Replace` | app.js:123 | `$1***$2` in place of the match, with the text before and after the match kept, equals the text up to group 1's end, "***", and the text from group 2's '@' on |
| `Masking.MaskTable` | app.js:123 | for a one-line user: a last '@' at index 2 or later gives two characters, "***" and the suffix from that '@'; no '@' at index 2 or later leaves it unchanged |
| `Masking.MaskKeepsPrefixAndDomain` | app.js:123 | a one-line user whose last '@' is at index 2 or later becomes its first two characters, "***", and the suffix from that '@' |
| `Masking.MaskWithoutLateAt` | app.js:123 | a one-line user with no '@' at index 2 or later is unchanged |
| `Masking.MaskHidesLocalPart` | app.js:123 | two users with the same first two characters and the same suffix from their last '@' are shown the same |
| `Masking.MaskShortLocalPartExample` | app.js:123 | "a@b.com" is shown unchanged |
| `Masking.MaskExample` | app.js:123 | "anna@ex.com" is shown as "an***@ex.com" |
| `SendEmail.Sender` | app.js:84 | the `from` header is `"Email Sender App" <user>`, and reads `"Email Sender App" <undefined>` when `EMAIL_USER` is unset |
| `Js.Or` | app.js:86 | the JavaScript or-operator on a string: a truthy value wins, anything else gives the fallback, so the result is "" only when the fallback is |
| `SendEmail.BuildMailOptions` | app.js:83-89 | `from` is the sender header and the mail goes to the sanitized recipient with the trimmed content as HTML, a non-empty subject, and a plain text that is no longer and holds no tag |
| `SendEmail.SubjectFallsBack` | app.js:86 | the subject is the trimmed subject, or "Message from Email Sender App" when the subject is absent or trims to "" |
| `SendEmail.MailBodies` | app.js:83-88 | `html` is the trimmed content, `text` is that content with its tags stripped, and `to` is the normalized trimmed recipient |
| `SendEmail.HandleSendEmail` | app.js:66-109 | at most one mail is handed to the provider, and none exactly when validation reported errors |
| `SendEmail.ProviderNotConsulted` | app.js:69-76 | a request that fails validation gets the same answer whatever the provider would do, so the provider is never called |
| `SendEmail.ValidationFailureResponse` | app.js:69-76 | status 400 if and only if there are errors; then `success: false`, "Validation failed", the error list, and no mail sent |
| `SendEmail.DeliveredResponse` | app.js:91-101 | a delivered mail gives 200, `success: true`, "Email sent successfully", and details holding the normalized recipient and the mail's subject |
| `Config.ErrorDetail` | app.js:107 | the error message is passed on exactly when `NODE_ENV` is "development", and is then the provider's message |
| `SendEmail.RejectedResponse` | app.js:102-108 | a provider failure gives 500 and the generic message; the error detail is present exactly when `NODE_ENV` is "development", and is then the provider's message |
| `SendEmail.InvalidRecipientRefused` | app.js:45-48 | a recipient failing the email check gives 400 with the recipient error first, whatever the other fields hold, and no mail is sent |
| `SendEmail.SentMessagesAreValid` | app.js:66-91 | any mail handed to the provider has a recipient that passed the email check, 1 to 50000 characters of HTML with tag-free text, and a subject of 1 to 200 characters |
| `SendEmail.DefaultSubjectExample` | app.js:83-101 | "a@b.com" with content "hello" and no subject is sent under the default subject and answered with 200 |
| `SendEmail.InvalidRecipientExample` | app.js:69-76 | "not-an-email" is refused with 400 and a `toEmail` error, and no mail is sent |
| `ConfigTest.ServiceName` | app.js:121 | never ""; the configured `EMAIL_SERVICE` when it is set and non-empty, otherwise "gmail" |
| `ConfigTest.ShownUser` | app.js:122-124 | an unset or empty user shows "Not configured"; a one-line user with its last '@' at index 2 or later shows two characters, "***" and the suffix from that '@'; one with no '@' at index 2 or later is shown as it is |
| `ConfigTest.HandleTest` | app.js:113-135 | status 200 exactly when the provider's verification succeeds; a success shows the service name and the shown user; a failure carries the provider's message |
| `ConfigTest.ShownUserTable` | app.js:122-124 | an unset or empty user shows "Not configured"; an '@' at index 2 or later shows two characters, "***" and the suffix from the last '@'; otherwise the user is shown as it is |
| `ConfigTest.ServiceDefaults` | app.js:121 | the service shown is `EMAIL_SERVICE`, or "gmail" when it is unset or empty |
| `ConfigTest.FailureShowsError` | app.js:127-133 | a failed verification gives 500, "Email configuration failed" and the provider's message, whatever the environment holds |

## Left out

- Rate limiting (app.js:20-26) is not modelled. It lives in `express-rate-limit`, whose counting store is not in the repository.
- `createTransporter`, `sendMail` and `verify` (app.js:29-41, 91, 116) talk to the external mail provider. They appear only as the parameter `sendMail` and the value `VerifyOutcome`. The transport's service and credentials are not modelled.
- `helmet`, `cors`, the body parsers and their 10 MB limit, the health and docs routes, the 404 and catch-all error middleware, and `app.listen` are not modelled. They are framework plumbing.
- `details.sentAt` is not modelled, because it comes from the wall clock.
- `console.error` logging is not modelled. It is I/O.
- `isEmail` and `normalizeEmail` are uninterpreted. Their rules belong to the validator library.
- `Masking.MatchAt`, `Masking.FirstMatch` and `Masking.MaskUser`: count Unicode code points, while the regex, which has no `u` flag, counts UTF-16 code units. A user with a character outside the Basic Multilingual Plane among its first characters is masked differently: `"😀@mail.com"` is shown as `"😀***@mail.com"` by the server but unchanged here, and in `"a😀@x"` the server splits the surrogate pair inside group 1. Lone surrogates cannot occur in a Dafny string.
- `isLength` counts characters here as Dafny `char`s. The library counts surrogate pairs as one, so astral characters are not modelled specially.
- Request fields are strings or absent. A JSON `null` subject gives the same outputs as an absent one, so it is folded into `None`. Numbers, arrays and objects in the body are not modelled.
- An error entry holds only its field and message. The `type`, `value` and `location` entries of express-validator's error objects are left out.
- `usageExample.js` is a client that only sends a network request and logs. Its `fromName` is never read by the server.
- `ConfigTest.ShownUserTable`, `ConfigTest.ShownUser` and `Masking.MaskTable`: state the masking table only for users without line breaks. For other users, `Masking.MatchAt` and `Masking.FirstMatch` describe the regex in general.
- `TagStrip.StripTagsExample`: is stated for two elements `<t1>w1</t1><t2>w2</t2>` in general rather than for the literal `"<h1>Hi</h1><p>there</p>"`, which it covers with `t1 = "h1"`, `w1 = "Hi"`, `t2 = "p"`, `w2 = "there"`.
