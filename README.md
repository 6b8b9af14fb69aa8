# personal-backend core in Dafny

This project models the request-handling core of a small NestJS back end
whose one job is a contact form. A visitor's message is sent as an email
once a Cloudflare Turnstile captcha has been verified. The model covers six
pieces of the back end:

- **`SanitizePipe`** and its factory (`Sanitize`, `SanitizePipes`,
  `SanitizeExamples`). The pipe walks any JSON-like value and cleans every
  string in it. Each string goes through an HTML sanitizer, then loses its
  control characters, and then takes one of two paths:
  - a "header" field (its name contains one of the configured header names)
    is collapsed to one trimmed line with no whitespace runs;
  - any other field keeps its line breaks, with CRLF turned into LF.

  The structure of the value is preserved.
- **`StringUtils.truncate` / `safeSubstring`** (`StringUtils`): clamped,
  never-failing substring and truncation with a suffix.
- **`ErrorUtils.getErrorMessage`** (`ErrorUtils`): the message of whatever
  was thrown, or a fallback.
- **`FileReaderService.readFile`** (`FileReader`): the file is checked for
  access, then read and trimmed. ENOENT becomes NotFound and every other
  failure becomes an internal error. An empty path gives `null`.
- **`CaptchaService`** (`Captcha`): fail-closed verification. The secret
  key comes from a file named in configuration. A missing secret, a missing
  token, a provider failure or any exception all give `false`. Only a reply
  whose `success` is true gives `true`.
- **`EmailService`** (`Email`): the captcha is checked first and a rejection
  is Forbidden. Then the SMTP credentials are loaded, all three secret files
  or nothing. One mail is sent from the SMTP user to the target address,
  with the theme as subject. Every failure after the captcha is the same
  opaque internal error.

The outside world is represented by small objects with fixed answers and
ghost logs (module `Platform`):

- `FileSystem`: per-path access errors and contents, plus a log of the
  `access` and `readFile` calls;
- `VerificationEndpoint`: the provider's reply, plus a log of the POSTed
  requests;
- `Mailer`: the transport's failure, if any, plus a log of the deliveries;
- `Config`: the environment settings.

Each service method is proved to compute a pure function of these inputs
(`ReadFileResult`, `VerifyRun`, `CredentialRunOf`, `EmailRunOf`,
`Sanitized`) and to touch the collaborators exactly as that function says.
The properties are then stated about the functions.

The source operations themselves are functions of the model, and each
property row below names the lemma or method whose contract is about them:
`Text.Trim` and `Text.ToLower` (`trim()` and `toLowerCase()`),
`Sanitize.CollapseHeaderBreaks` (sanitize.pipe.ts:129),
`Sanitize.CollapseSpaces` (line 130), `Sanitize.HeaderClean` (lines 127-131),
`Sanitize.NormalizeCrlf` (line 133), `Sanitize.SanitizedString`
(lines 100-137), `Sanitize.Sanitized` (lines 55-98),
`ErrorUtils.PrimitiveToString` (`String(...)` in error.utils.ts:8),
`FileReader.ReadFileResult` (file-reader.service.ts:8-28),
`Email.AssembleCredentials` (email.service.ts:94-112),
`Email.CredentialRunOf` (lines 64-113) and `Email.EmailRunOf` (lines 24-62).

Three behaviours of the code worth knowing:

- **The body path is not idempotent.** `"\r\r\n"` becomes `"\r\n"`, and a
  second pass turns that into `"\n"` (`Sanitize.BodyPathNotIdempotent`).
  After the HTML call, the header path is idempotent: control stripping
  followed by the header passes, applied twice, equals applying it once
  (`Sanitize.HeaderPathIdempotent`). Nothing is claimed about `sanitize-html`
  itself, which is a parameter of the model.
- **A missing secret-key path is not a loud failure.** `getSecretKey`
  throws, but `verify` catches the exception and answers `false`
  (`Captcha.MissingSecretPathIsFalse`).
- **`SanitizePipe` is not applied anywhere in the application bootstrap.**
  The mail therefore uses the DTO's `theme` and `description` as received,
  and the email model does not pass them through the pipe.

## Model

| member | source | states |
|---|---|---|
| Text.TrimStartSpec | src/common/pipes/sanitize.pipe.ts:131 | the leading-whitespace cut leaves a suffix of the input that does not start with whitespace, and everything cut is whitespace |
| Text.TrimEndSpec | src/common/pipes/sanitize.pipe.ts:131 | the trailing-whitespace cut leaves a prefix of the input that does not end with whitespace, and everything cut is whitespace |
| Text.TrimSpec | src/common/pipes/sanitize.pipe.ts:131 | `trim()` returns a contiguous piece of its input with no JavaScript whitespace at either end, and everything outside that piece is whitespace |
| Text.TrimKeepsOthers | src/common/pipes/sanitize.pipe.ts:131 | every character that is not whitespace occurs exactly as often in the trimmed string as in the input |
| Text.TrimIdentity | src/file-reader/file-reader.service.ts:14 | a string is left unchanged by trimming exactly when it has no whitespace at either end |
| Text.Contains | src/common/pipes/sanitize.pipe.ts:147 | `includes` holds exactly when the needle occurs at some index of the string |
| Text.ContainsSelf | src/common/pipes/sanitize.pipe.ts:146-148 | every string includes itself, so a full match is always also a partial match |
| StringUtils.SafeSubstring | src/common/utils/string/string.utils.ts:13-22 | `null`/`undefined`/empty give ""; otherwise the result has length max(0, min(len, end) − max(0, start)) and is the characters of the value from the clamped start on, never out of bounds |
| StringUtils.SafeSubstringWhole | src/common/utils/string/string.utils.ts:16-21 | with `end` omitted and a start at or below 0 the whole string comes back |
| StringUtils.SafeSubstringSplit | src/common/utils/string/string.utils.ts:13-22 | two adjacent safe substrings concatenate to the safe substring spanning both |
| StringUtils.Truncate | src/common/utils/string/string.utils.ts:4-11 | "" for an absent or empty value; the value unchanged (untrimmed) when within `maxLength` (default 50); otherwise a prefix of the trimmed value of length min(trimmed length, maxLength), followed by the suffix (default "..."), so at most maxLength + suffix length |
| ErrorUtils.GetErrorMessage | src/common/utils/error.utils.ts:2-12 | an `Error` gives its message; a string gives itself; another object with `message` gives `String(message)`; anything else gives the fallback, "Unknown error" by default |
| ErrorUtils.FallbackOnlyWithoutMessage | src/common/utils/error.utils.ts:11 | the fallback never shows when the thrown value is a string or carries a message |
| ErrorUtils.PlainObjectLikeError | src/common/utils/error.utils.ts:3-8 | a plain object with a string message is reported exactly like an `Error` with that message |
| Sanitize.ResolveConfig | src/common/pipes/sanitize.pipe.ts:45-53 | the defaults are no tags, no attributes, escape mode and the sixteen default header names; each field given in the partial configuration replaces its default, including with `undefined` |
| Sanitize.StripControl | src/common/pipes/sanitize.pipe.ts:110-123 | the result has no character in 0x00–0x08, 0x0B–0x0C, 0x0E–0x1F or 0x7F and is no longer than the input |
| Sanitize.StripControlKeeps | src/common/pipes/sanitize.pipe.ts:114-122 | every character that is not a control character occurs exactly as often in the result as in the input |
| Sanitize.StripControlAppend | src/common/pipes/sanitize.pipe.ts:110 | the per-character replace distributes over concatenation |
| Sanitize.StripControlIdentity | src/common/pipes/sanitize.pipe.ts:110-123 | a string is left unchanged exactly when it has no control character, so TAB, LF and CR survive |
| Sanitize.CollapseHeaderBreaksKeeps | src/common/pipes/sanitize.pipe.ts:129 | every character other than CR, LF, TAB and space occurs exactly as often in the result as in the input |
| Sanitize.CollapseHeaderBreaksSafe | src/common/pipes/sanitize.pipe.ts:129 | the result has no CR, LF or TAB, and a control-free input gives a control-free result |
| Sanitize.CollapseHeaderBreaksIdentity | src/common/pipes/sanitize.pipe.ts:129 | a string without CR, LF or TAB is left as it is |
| Sanitize.CollapseHeaderBreaksRun | src/common/pipes/sanitize.pipe.ts:23 | a whole run of CR, LF and TAB before another character becomes exactly one space |
| Sanitize.CollapseHeaderBreaksAppend | src/common/pipes/sanitize.pipe.ts:129 | a string cut right after a character that is no break is collapsed piece by piece |
| Sanitize.CollapseSpacesSafe | src/common/pipes/sanitize.pipe.ts:130 | the result has no two adjacent whitespace characters, is empty only for an empty input, starts with whitespace exactly when the input does, and adds no CR, LF, TAB or control character |
| Sanitize.CollapseSpacesKeeps | src/common/pipes/sanitize.pipe.ts:130 | every character that is not whitespace occurs exactly as often in the result as in the input |
| Sanitize.CollapseSpacesRun | src/common/pipes/sanitize.pipe.ts:22 | a whole run of two or more whitespace characters before a non-whitespace character, or at the end, becomes exactly one space |
| Sanitize.CollapseSpacesSingle | src/common/pipes/sanitize.pipe.ts:22 | a character that does not start a run of two whitespace characters is kept as it is, so a lone space, tab or newline is not replaced |
| Sanitize.CollapseSpacesIdentity | src/common/pipes/sanitize.pipe.ts:22 | a string with no two adjacent whitespace characters is left as it is |
| Sanitize.HeaderClean | src/common/pipes/sanitize.pipe.ts:127-131 | a header value comes out as one line, without whitespace runs and trimmed, and control-free input stays control-free |
| Sanitize.HeaderCleanKeeps | src/common/pipes/sanitize.pipe.ts:127-131 | the header passes only replace or cut whitespace: every other character occurs exactly as often in the result as in the input |
| Sanitize.HeaderCleanIdentity | src/common/pipes/sanitize.pipe.ts:127-131 | the header passes leave a value unchanged exactly when it is already one trimmed line without whitespace runs |
| Sanitize.HeaderCleanIdempotent | src/common/pipes/sanitize.pipe.ts:127-131 | cleaning a header value twice is cleaning it once |
| Sanitize.HeaderPathIdempotent | src/common/pipes/sanitize.pipe.ts:110-131 | after the HTML call, control stripping followed by the header passes, applied to its own output, changes nothing |
| Sanitize.HeaderCleanAfterBreaks | src/common/pipes/sanitize.pipe.ts:128-131 | when collapsing the breaks already gives a header-safe value, that value is the result |
| Sanitize.NormalizeCrlfLength | src/common/pipes/sanitize.pipe.ts:133 | the result is shorter than the input by exactly the number of CRLF pairs |
| Sanitize.NormalizeCrlfKeepsClean | src/common/pipes/sanitize.pipe.ts:133 | a control-free input gives a control-free result |
| Sanitize.NormalizeCrlfKeepsOthers | src/common/pipes/sanitize.pipe.ts:133 | every character other than CR occurs exactly as often in the result as in the input |
| Sanitize.NormalizeCrlfDropsCr | src/common/pipes/sanitize.pipe.ts:133 | CR loses exactly one occurrence per CRLF pair |
| Sanitize.NormalizeCrlfIdentity | src/common/pipes/sanitize.pipe.ts:133 | a body value is left unchanged exactly when it has no CRLF pair |
| Sanitize.NoCarriageReturnKept | src/common/pipes/sanitize.pipe.ts:133 | a body value without CR is left unchanged |
| Sanitize.NormalizeCrlfAppend | src/common/pipes/sanitize.pipe.ts:133 | a string cut anywhere except between the CR and the LF of a pair is normalised piece by piece |
| Sanitize.CrRunBeforeLf | src/common/pipes/sanitize.pipe.ts:133 | in a run of CRs before an LF only the last CR is removed, and the LF stays after the other CRs |
| Sanitize.BodyPathNotIdempotent | src/common/pipes/sanitize.pipe.ts:132-134 | the body path maps "\r\r\n" to "\r\n", and a second pass maps that to "\n" |
| Sanitize.AnyHeaderMatches | src/common/pipes/sanitize.pipe.ts:145-149 | the field matches exactly when some configured header name, lower-cased, occurs in it |
| Sanitize.IsHeaderField | src/common/pipes/sanitize.pipe.ts:139-151 | an empty field name is never a header field, and neither is any name when the list is `undefined`; otherwise the lower-cased name must include some lower-cased header name |
| Sanitize.SanitizedStringSpec | src/common/pipes/sanitize.pipe.ts:100-137 | every cleaned string is free of control characters; a header field is the HTML-sanitized, control-stripped text put through the header passes, so one trimmed line without whitespace runs; any other field is the HTML-sanitized, control-stripped text with CRLF turned into LF |
| Sanitize.SanitizedSpec | src/common/pipes/sanitize.pipe.ts:55-98 | the result has the input's shape (same array lengths, same object keys, null, undefined, numbers and booleans untouched), and every string in it is control-free |
| Sanitize.TransformNeverHeaderBound | src/common/pipes/sanitize.pipe.ts:55-98 | every string at any depth, even inside objects under header-like keys, is cleaned with field name "" and so comes out HTML-sanitized, control-stripped and CRLF-normalised, never header-folded; arrays keep their length, objects their keys, and other scalars are unchanged |
| SanitizeExamples.BodyExample | src/common/pipes/sanitize.pipe.ts:110-134 | the body value "line1\r\nline2" becomes "line1\nline2" |
| SanitizeExamples.HeaderExample | src/common/pipes/sanitize.pipe.ts:100-149 | with the default configuration and an HTML sanitizer that leaves the text alone, the `subject` field (a default header name) with value "a\r\nBcc: x\n\ny" becomes the single line "a Bcc: x y" |
| SanitizePipes.SanitizePipe.constructor | src/common/pipes/sanitize.pipe.ts:45-53 | the pipe's configuration is the resolved one |
| SanitizePipes.SanitizePipe.Transform | src/common/pipes/sanitize.pipe.ts:55-62 | the transformed value is the sanitized value |
| SanitizePipes.SanitizePipe.SanitizePrimitive | src/common/pipes/sanitize.pipe.ts:64-67 | a string is cleaned as field "", and every other primitive comes back as it is |
| SanitizePipes.SanitizePipe.SanitizeArray | src/common/pipes/sanitize.pipe.ts:69-76 | the loop builds the sanitized array item by item |
| SanitizePipes.SanitizePipe.SanitizeObject | src/common/pipes/sanitize.pipe.ts:78-98 | the loop builds the sanitized object key by key, with the same key set |
| SanitizePipes.SanitizePipe.SanitizeString | src/common/pipes/sanitize.pipe.ts:100-137 | the three passes compute the cleaned string |
| SanitizePipes.SanitizePipe.StripControlCharacters | src/common/pipes/sanitize.pipe.ts:110-123 | the per-character loop computes the control-stripped string |
| SanitizePipes.SanitizePipeFactory.Create | src/common/pipes/sanitize.pipe.ts:156-158 | a fresh pipe with the resolved configuration |
| Platform.FileSystem.Access | src/file-reader/file-reader.service.ts:12 | the access check fails with the path's access error (ENOENT for an unknown path) and is logged |
| Platform.FileSystem.ReadFile | src/file-reader/file-reader.service.ts:13 | the read returns the path's contents (ENOENT for an unknown path) and is logged |
| Platform.VerificationEndpoint.Post | src/captcha/captcha.service.ts:41-47 | the request is logged and the provider's reply comes back |
| Platform.Mailer.SendMail | src/email/email.service.ts:35-50 | the delivery is logged and the transport's failure, if any, comes back |
| FileReader.ReadFileResultSpec | src/file-reader/file-reader.service.ts:8-28 | `null` exactly for an empty path; otherwise the trimmed content when both steps succeed; NotFound exactly when the failing step reports ENOENT; any other failure is an internal error |
| FileReader.FileReaderService.ReadFile | src/file-reader/file-reader.service.ts:8-28 | the method computes the read result; it calls `access` only for a non-empty path, and `readFile` only after access succeeded |
| FileReader.FileReaderService.Failed | src/file-reader/file-reader.service.ts:15-27 | ENOENT becomes NotFound naming the path, and anything else an internal error naming the path and the cause |
| Captcha.SecretKeyResult | src/captcha/captcha.service.ts:76-107 | a missing path setting is an internal error with its message; a configured path whose read succeeds gives exactly that key with the configured URL or Cloudflare's siteverify; a configured path whose read fails gives an internal error with the reader's message; so every failure is an internal error and every success carries what the reader returned |
| Captcha.BuildPayload | src/captcha/captcha.service.ts:32-36 | the payload carries the secret and the token, and `remoteip` exactly when a non-empty remote IP was given |
| Captcha.VerifyRun | src/captcha/captcha.service.ts:18-70 | the verdict is true exactly when the secret loads non-empty, the token is non-empty and the provider replies success; a request is sent exactly when the first two hold, and it goes to the configured URL with the built payload |
| Captcha.MissingSecretPathIsFalse | src/captcha/captcha.service.ts:90-95 | without the secret-path setting `verify` answers false with no file access and no request |
| Captcha.TokenLogView | src/captcha/captcha.service.ts:38 | the logged token is at most 23 characters, and a token of at most 20 characters is logged in full |
| Captcha.CaptchaService.Verify | src/captcha/captcha.service.ts:18-70 | the method's answer, its requests and its file accesses are those of the verification run |
| Captcha.CaptchaService.VerifyToken | src/captcha/captcha.service.ts:72-74 | verifying a bare token is verifying a request with that token and no remote IP |
| Captcha.CaptchaService.GetSecretKey | src/captcha/captcha.service.ts:76-107 | the method computes the secret-key result and reads only the configured file |
| Email.AssembleCredentialsSpec | src/email/email.service.ts:94-112 | the assembled credentials come back exactly when all three reads returned a non-empty value, carry those values with `secure` true only for "true", and every failure is an internal error |
| Email.CredentialRunOfSpec | src/email/email.service.ts:64-113 | a missing host fails first, then a missing secret path, both before any read; otherwise the user, password and target files are read in that order; credentials come back exactly when all three load non-empty, with `secure` true only for "true" and the port defaulting to 587; every failure is an internal error |
| Email.MailText | src/email/email.service.ts:49 | the body is "От: ", the sender, "\n\nТема: ", the theme, "\n\n" and the description, in that order and nothing else |
| Email.EmailRunOfSpec | src/email/email.service.ts:24-62 | a rejected captcha is Forbidden with nothing read or sent; otherwise the credential files are read, a mail from the user to the target with the theme as subject is sent exactly when the credentials load, and every later failure is the same internal error |
| Email.ReadsOpsOfThree | src/email/email.service.ts:88-92 | the file accesses of the three reads are those of each read in turn |
| Email.OneBadSecretStopsSend | src/email/email.service.ts:94-96 | any one unreadable or empty secret stops the send, and a valid captcha then ends in the internal error |
| Email.EmailService.SendEmail | src/email/email.service.ts:24-62 | the method's outcome, its delivery, its captcha request and its file accesses are those of the email run |
| Email.EmailService.GetSmtpCredential | src/email/email.service.ts:64-113 | the method computes the credential run and reads exactly its three files |

## Left out

- `StringUtils.SafeSubstring` and `StringUtils.Truncate` take `start`, `end` and `maxLength` as integers. JavaScript numbers that are fractional, `NaN` or infinite (which `substring` truncates or treats as 0 or the length) are not modelled; every caller in this core passes integer literals.
- `sanitize-html` is a library outside this repository. The model takes it as a parameter of type `(string, HtmlOptions) -> string` and proves every property for any such function.
- Logging (`Logger` calls and the text they print) is left out. Only the token log view is modelled, because its length bound is a property of `truncate`.
- `Promise.all` starts the three secret reads concurrently. The model reads them one after another in argument order, and when several fail it reports the first in that order.
- `SMTP_PORT` is taken as an already-parsed integer with default 587. `Number(...)` parsing and `NaN` are not modelled.
- `Text.ToLower` lower-cases ASCII letters only. JavaScript's full Unicode case mapping is not modelled.
- A Dafny `char` is a Unicode scalar value, while a JavaScript string is a sequence of UTF-16 code units. Strings with surrogate pairs are not distinguished.
- `ErrorUtils.GetErrorMessage` covers numbers as integers only. Floating-point numbers, and `String()` of objects, symbols and bigints in a `message` property, are not modelled.
- The `typeof str !== 'string'` guard in `sanitizeString` is left out because its argument is always a string there.
- `Captcha.SecretKeyResult` keeps the inner exception's message when `getSecretKey` rewraps a reader failure. NestJS's exact wording of the rewrapped exception is not modelled.
- `FileReader.ReadFileResult` always appends the file-system error's message. A thrown value that is not an `Error` instance is not modelled, because the Node file-system calls throw only `Error`s.
- `nodemailer.createTransport` is modelled as the options record it receives. Only `sendMail` can fail in the model.
- `Sanitize.SanitizedSpec` keeps every key of an object, including `"__proto__"`. In the code, `result[key] = …` on a `{}` literal with that key sets the new object's prototype instead of creating an own property, so the key is dropped from the result; that special key is not modelled.
- `SanitizePipes.SanitizePipe.SanitizeObject` treats `"__proto__"` like any other key and claims the input's key set; the prototype assignment the code performs for that key is not modelled.
- The controller, the DTO validators, the modules, the health endpoint and the bootstrap are outside this model.
