# Voice agent: request handling, sign-up and chat state, in Dafny

This project models the logic of a Next.js chat application whose assistant answers
text prompts through a web-search model call and streams voice responses into the same
conversation. Everything the application delegates to other systems (the OpenAI client,
MongoDB through Mongoose, nodemailer, bcrypt, `fetch`, NextAuth's `signIn`, the clock and
`Math.random`) enters the model as a parameter, so each handler becomes a function or a
method of its inputs.

The modules, one file each:

- `Js` (js.dfy): `Option`, JavaScript values and truthiness, and `String.prototype.trim`
  with the exact ECMAScript whitespace and line-terminator sets.
- `Http` (http.dfy): the JSON response envelope, a status and an `{ error }`,
  `{ output, toolType }` or `{ message }` body.
- `Agent` (agent.dfy): `POST /api/agent`. It validates the prompt and defaults the tool
  type to `web_search`. Only that tool is accepted. It asks the model, falls back to
  "No response generated" on empty text and turns exceptions into a 500. The model's
  reply is an input.
- `Otp` (otp.dfy): the OTP records of `models/Otp.ts`, code generation
  (`Math.floor(100000 + Math.random() * 900000).toString()` with the random draw as an
  integer choice), the ten-minute expiry, the e-mail text, the latest-record lookup and
  `deleteMany`.
- `AuthRoutes` (auth_store.dfy): the `send-otp`, `verify-otp` and `register` routes as
  methods of a class `AuthStore` that holds the `User` and `Otp` collections as sequences.
  verify-otp's checks are also a pure function, `VerifyGuard`. Which awaited step throws,
  if any, is a parameter (`Fault`); `hash` stands for `bcrypt.hash`.
- `PasswordPolicy` (password.dfy): the password regular expression shared by the register
  and login pages, given as its clause-by-clause meaning and as a one-pass scanner proved
  equal to it.
- `UriComponent` (uri.dfy): `encodeURIComponent` (UTF-8, upper-case hex) and a strict
  percent-decoder, with the round trip proved. The decoder stands in for the verify
  page's query reader; the two agree on `encodeURIComponent` output.
- `AuthPages` (auth_pages.dfy): the session redirect, the form gate and the submit
  handlers of the register and login pages, as classes holding the session status, the
  loading flag, the toasts shown and the navigations made. Each handler is split at its
  `await`.
- `Markdown` (markdown.dfy): the `language-(\w+)` extraction that decides whether a code
  element is highlighted.
- `Chat` (chat.dfy): the chat page's message list, covering `sendMessage` and the voice
  session's `response.delta` / `response.completed` handlers. A class `ChatPage` holds the
  state. A pure function `Delta` specifies the delta handler.

Observations the proofs make explicit:

- verify-otp does not look for an existing user. An OTP requested before the same email
  registers through `/api/register` still creates a second `User` document
  (`AuthRoutes.DuplicateAccountScenario`). Whether the database refuses it depends on the
  `User` schema, and `src/models/User.ts` is not part of this model.
- The login page treats an `undefined` result of `signIn` as success (`!res?.error`).
  `AuthPages.LoginPage.FinishLogin` keeps that behaviour.
- The streaming handler's index is not adjusted when the user sends a message while a
  response streams. Later deltas keep growing the earlier bot message, which then sits
  above the user's message (`Chat.DeltaAfterInterleavedMessage`).
- The register page passes the password to the verify page in the URL's query string.
  `AuthPages.VerifyOtpUrlCarriesCredentials` proves that a reader which splits the query
  at its first `&` and percent-decodes both values gets the email and the password back
  intact, whatever characters they contain.
- The agent route has a single tool: `src/app/api/agent/route.ts:25-37` has only the
  `web_search` case and rejects every other tag.

## Model

| member | source | states |
|---|---|---|
| Js.Trim | src/app/api/verify-otp/route.ts:26 | `trim` never lengthens a string and leaves neither end trimmable |
| Js.TrimBlankIff | src/app/chat/page.tsx:38 | `!s.trim()` holds exactly when every character of s is ECMAScript whitespace or a line terminator |
| Js.TrimPadded | src/app/api/verify-otp/route.ts:26 | trimming removes exactly the whitespace padding around a core whose ends are not whitespace |
| Js.TrimKeeps | src/app/api/verify-otp/route.ts:26 | a string whose ends are not whitespace is unchanged by `trim` |
| Js.TrimIdempotent | src/app/api/verify-otp/route.ts:26 | trimming twice gives the same string as trimming once |
| Agent.SelectedToolType | src/app/api/agent/route.ts:20 | a falsy tool type becomes `"web_search"`; a truthy one is kept; the result is always truthy |
| Agent.OracleCall | src/app/api/agent/route.ts:13-31 | the model is asked exactly when the body parsed, the prompt is a non-empty string and the selected tool is web_search, and then with model gpt-4o-mini, the web_search tool and the prompt as input |
| Agent.Handle | src/app/api/agent/route.ts:11-48 | status 200 iff the model was asked and answered; 400 iff the body parsed but the model was not asked; 500 iff the body could not be read or the model threw; a 200 carries a non-empty output and toolType web_search; every other status carries an error body |
| Agent.PromptCheckedFirst | src/app/api/agent/route.ts:15-17 | a missing, empty or non-string prompt gives 400 "prompt is required" for every tool type and the model is not asked |
| Agent.ToolTypeDefaultsToWebSearch | src/app/api/agent/route.ts:20 | with a valid prompt and an absent or empty tool type, the model is asked with web search |
| Agent.OtherToolTypesRefused | src/app/api/agent/route.ts:35-36 | any truthy tool type other than `"web_search"` gives 400 "Invalid tool type" and the model is not asked |
| Agent.WebSearchAnswer | src/app/api/agent/route.ts:32-39 | the response is exactly 200 `{ output, toolType: "web_search" }`, the output being the model's text or "No response generated" when that text is empty |
| Agent.ErrorMessage | src/app/api/agent/route.ts:44 | a present message is kept as it is, even when empty; only an absent one becomes "unknown error" |
| Agent.ThrownErrorEnvelope | src/app/api/agent/route.ts:41-46 | a thrown error gives 500 with its message, and "unknown error" only when the message is absent |
| Agent.ReplyIgnoredWithoutCall | src/app/api/agent/route.ts:15-37 | when the model is not asked, its reply has no influence on the response |
| Otp.DecimalString | src/app/api/send-otp/route.ts:22 | `toString` of a non-negative integer is a non-empty digit string with no leading zero except for 0 itself |
| Otp.DecimalRoundTrip | src/app/api/send-otp/route.ts:22 | reading back the decimal string of n gives n |
| Otp.DecimalLength | src/app/api/send-otp/route.ts:22 | a number n with 10^(k-1) <= n < 10^k has a decimal string of exactly k digits |
| Otp.DigitsBounds | src/app/api/send-otp/route.ts:22 | a k-digit string without a leading zero denotes a number in [10^(k-1), 10^k) |
| Otp.CanonicalDigits | src/app/api/send-otp/route.ts:22 | a digit string without a leading zero is the decimal string of the number it denotes |
| Otp.GenerateCode | src/app/api/send-otp/route.ts:22 | the code has exactly six digits, does not start with 0, and denotes 100000 plus the random choice |
| Otp.EveryCodeReachable | src/app/api/send-otp/route.ts:22 | every six-digit string not starting with 0 is generated by some random choice |
| Otp.ExpiresAt | src/app/api/send-otp/route.ts:23 | the expiry lies 600000 ms, ten minutes, after the issue time |
| Otp.ExpiryIsPermanent | src/app/api/verify-otp/route.ts:22 | a record expired at one instant stays expired at every later one; one live at an instant was live at every earlier one |
| Otp.Issue | src/app/api/send-otp/route.ts:22-26 | the stored record carries the email, the generated code and the creation time |
| Otp.IssuedValidForTenMinutes | src/app/api/send-otp/route.ts:23 | a fresh record is unexpired exactly up to and including now + 600000 ms |
| Otp.OtpMail | src/app/api/send-otp/route.ts:39-44 | the mail goes to the email, has subject "Your OTP Code", and its text starts with "Your OTP code is " followed by the stored code |
| Otp.Latest | src/app/api/verify-otp/route.ts:16 | None iff the email has no record; otherwise a record of that email whose creation time is the greatest among its records |
| Otp.LatestIsFreshest | src/app/api/verify-otp/route.ts:16 | a record created after every other record of its email is the one found |
| Otp.DeleteMany | src/app/api/verify-otp/route.ts:35 | the result is a subset of the records, none of them for the email |
| Otp.DeleteManyKeepsOthers | src/app/api/verify-otp/route.ts:35 | deletion removes every record of the email and keeps the records of every other email, in order |
| Otp.NothingLatestAfterDelete | src/app/api/verify-otp/route.ts:35 | after the deletion no record of the email is found |
| AuthRoutes.HasUserAfterAppend | src/app/api/send-otp/route.ts:13 | after a user is appended, `findOne({ email })` finds a user exactly when it found one before or the new user has that email |
| AuthRoutes.VerifyGuard | src/app/api/verify-otp/route.ts:12-28 | the required-fields error exactly when a field is missing or empty; "OTP not found" exactly when all fields are present and the email has no record; "OTP expired" only for an expired latest record; "Invalid OTP" only for a live latest record whose trimmed code differs from the trimmed input; Accept only when the latest record is live and its trimmed code equals the trimmed input |
| AuthRoutes.MismatchRejected | src/app/api/verify-otp/route.ts:26-28 | a live latest record whose trimmed code differs from the trimmed input gives "Invalid OTP" |
| AuthRoutes.MissingFieldReadsNothing | src/app/api/verify-otp/route.ts:12-14 | a missing or empty field gives "Email, OTP and password are required", whatever the records and the clock |
| AuthRoutes.OnlyLatestConsulted | src/app/api/verify-otp/route.ts:16 | two stores with the same latest record for the email give the same verdict |
| AuthRoutes.ExpiryBeforeCode | src/app/api/verify-otp/route.ts:21-28 | an expired latest record gives "OTP expired" whatever code was entered |
| AuthRoutes.IssuedCodeVerifies | src/app/api/verify-otp/route.ts:16-28 | the code just issued, when no older record of the email is newer, is accepted with any surrounding whitespace at any time up to the expiry |
| AuthRoutes.IssuedCodeExpires | src/app/api/verify-otp/route.ts:21-24 | after the ten minutes any entered code gives "OTP expired" |
| AuthRoutes.NoReplay | src/app/api/verify-otp/route.ts:35 | once the email's records are deleted, the same request gives "OTP not found" |
| AuthRoutes.GuardAccepts | src/app/api/verify-otp/route.ts:16-28 | a latest record that is live and matches after trimming is accepted |
| AuthRoutes.CodeUnpadded | src/app/api/verify-otp/route.ts:26 | a generated code is unchanged by `trim` |
| AuthRoutes.AuthStore.constructor | src/models/Otp.ts:9-16 | the store starts with the given users and OTP records |
| AuthRoutes.AuthStore.SendOtp | src/app/api/send-otp/route.ts:7-54 | a failure to connect, read or look up gives 500 and changes nothing; an existing user gives 400 "User with this email already exists", no record and no mail; a failed `Otp.create`, which includes an empty email refused by the schema's `required` check, gives 500 "Failed to send OTP", no record and no mail; otherwise the record is appended before the mail, a failed mail gives 500 "Failed to send OTP" and keeps the record, success gives `{ message: "OTP sent" }`; users never change |
| AuthRoutes.AuthStore.VerifyOtp | src/app/api/verify-otp/route.ts:7-42 | each rejection of `VerifyGuard` gives 400 with its error and changes nothing; an exception before the user is created gives 500 and changes nothing; on acceptance exactly one user with the hashed password is appended, and the email's records are deleted unless that deletion throws |
| AuthRoutes.AuthStore.Register | src/app/api/register/route.ts:6-23 | an existing user gives 400 "User already exists"; otherwise exactly one user with `hash(password, 10)` is appended and the answer is 201 "User registered successfully"; any exception gives 500 "Server error" with the users unchanged; unique emails stay unique |
| AuthRoutes.AcceptedAtOnce | src/app/api/verify-otp/route.ts:16-28 | the code just mailed is accepted a millisecond later |
| AuthRoutes.RegisterWhileOtpPending | src/app/api/register/route.ts:11-17 | an OTP sent at time 0 and a registration of the same email leave one user and one record |
| AuthRoutes.DuplicateAccountScenario | src/app/api/verify-otp/route.ts:31-32 | verify-otp after such a registration leaves two users with the same email |
| PasswordPolicy.Scan | src/app/register/page.tsx:27 | one pass finds which of the four classes occur and whether every character is allowed |
| PasswordPolicy.Accepts | src/app/register/page.tsx:27 | the scanner accepts exactly the strings the regular expression matches; an accepted password has at least 8 characters and one of each class |
| PasswordPolicy.RegexAsClasses | src/app/login/page.tsx:24-25 | the regular expression matches exactly the strings of 8 or more allowed characters containing a lower-case letter, an upper-case letter, a digit and one of `@$!%*?&` |
| PasswordPolicy.LookaheadOverAllowed | src/app/register/page.tsx:27 | over allowed characters each `(?=.*X)` lookahead holds exactly when the class occurs |
| PasswordPolicy.AllowedIsNotTerminator | src/app/register/page.tsx:27 | no allowed character is a line terminator, so `.` passes over all of them |
| PasswordPolicy.ForeignCharacterRejects | src/app/register/page.tsx:27 | a password with any character outside `[A-Za-z\d@$!%*?&]` is refused |
| PasswordPolicy.ShortestAccepted | src/app/register/page.tsx:27 | eight characters covering the four classes are accepted |
| UriComponent.Utf8 | src/app/register/page.tsx:54 | a character encodes to one to four UTF-8 bytes |
| UriComponent.Encode | src/app/register/page.tsx:54 | `encodeURIComponent` output contains only unreserved characters and `%` |
| UriComponent.Decode | src/app/register/verify-otp/verify-otp-client.tsx:9-11 | a decoded string is never longer than its encoding; a string without `%` decodes to itself |
| UriComponent.Utf8WellFormed | src/app/register/page.tsx:54 | a character's bytes form a well-formed shortest UTF-8 sequence that spells it |
| UriComponent.EscapesOfChar | src/app/register/page.tsx:54 | the escapes of a character's bytes decode to that character and are consumed entirely |
| UriComponent.DecodeEncodedChar | src/app/register/page.tsx:54 | decoding one encoded character and a rest gives the character before the decoded rest |
| UriComponent.DecodeEncode | src/app/register/page.tsx:54 | `decodeURIComponent(encodeURIComponent(s)) == s` for every string |
| AuthPages.VerifyOtpUrl | src/app/register/page.tsx:53-55 | the URL is the verify page's path with `?email=` followed only by unreserved characters, `%`, `&` and `=` |
| AuthPages.ReadVerifyOtpUrl | src/app/register/verify-otp/verify-otp-client.tsx:9-11 | credentials are read only from a URL starting with the verify page's path, and from its query |
| AuthPages.ReadQuery | src/app/register/verify-otp/verify-otp-client.tsx:9-11 | credentials are read only when the query's first `&` opens `&password=`, and then they are the decoded text before it and the decoded text after it |
| AuthPages.VerifyOtpUrlCarriesCredentials | src/app/register/page.tsx:53-55 | reading the verify-otp URL back gives exactly the submitted email and password |
| AuthPages.QueryCarriesValues | src/app/register/page.tsx:54 | the encoded email cannot contain `&`, so the query splits back into both values |
| AuthPages.RegisterPage.constructor | src/app/register/page.tsx:10-19 | the page starts with the session's status, not loading and with no toasts; the effect's run after the first render has pushed "/" exactly when that status is authenticated |
| AuthPages.RegisterPage.SessionChanged | src/app/register/page.tsx:14-19 | runs only for a status different from the current one; the status becomes the new one, "/" is pushed exactly when it is authenticated, and nothing else changes |
| AuthPages.RegisterPage.SubmitSendOtp | src/app/register/page.tsx:21-40 | callable only while the form is shown (status neither loading nor authenticated); a refused password shows the rule, does not set loading and sends nothing; an accepted one sets loading and sends the email |
| AuthPages.RegisterPage.FinishSendOtp | src/app/register/page.tsx:42-64 | ok: "OTP sent successfully!" and navigation to the verify page with both credentials; not ok: `data.error` or "Failed to send OTP"; exception: "Server error, please try again"; loading ends false on every path |
| AuthPages.LoginPage.constructor | src/app/login/page.tsx:7-18 | the page starts with the session's status and no toasts; the effect's run after the first render has pushed "/chat" exactly when that status is authenticated |
| AuthPages.LoginPage.SessionChanged | src/app/login/page.tsx:14-18 | runs only for a status different from the current one; the status becomes the new one, "/chat" is pushed exactly when it is authenticated, and the toasts do not change |
| AuthPages.LoginPage.SubmitLogin | src/app/login/page.tsx:20-41 | callable only while the form is shown (status neither loading nor authenticated); a refused password shows the rule and `signIn` is not called; an accepted one is passed to `signIn` |
| AuthPages.LoginPage.FinishLogin | src/app/login/page.tsx:43-48 | no error (also an undefined result): "Login successful!" and navigation to /chat; an error: "Invalid credentials"; a rejection changes nothing |
| Markdown.FirstMatchFrom | src/app/chat/page.tsx:153 | the leftmost position from which `language-` followed by a word character occurs, or None when there is none |
| Markdown.WordRun | src/app/chat/page.tsx:153 | the greedy `(\w+)` group: the longest run of word characters at the position |
| Markdown.CodeLanguage | src/app/chat/page.tsx:153 | None iff the class name has no match; otherwise the non-empty word after the leftmost match |
| Markdown.LanguageAfterMarker | src/app/chat/page.tsx:153 | `language-` + word + a non-word tail yields exactly that word |
| Markdown.RenderCode | src/app/chat/page.tsx:153-169 | highlighted exactly for a block element with a recognised language, in that language; inline code otherwise |
| Chat.ReplyMessage | src/app/chat/page.tsx:51-55 | the reply is a bot message: `data.output` when ok; "**Error:** " followed by `data.error` when a failed response has a non-empty one, else by "Unknown error"; for a thrown error "**Error:** " followed by its message, or by its string form when the message is empty |
| Chat.Delta | src/app/chat/page.tsx:104-117 | an empty delta changes nothing; with a current bot message, its text grows by the delta and the length and every other message stay; otherwise a new bot message is appended and becomes current |
| Chat.Completed | src/app/chat/page.tsx:119-121 | the completion handler keeps the messages and clears the current index |
| Chat.NextResponseStartsNewMessage | src/app/chat/page.tsx:104-121 | after a completion, the next non-empty delta appends a new bot message and makes it current |
| Chat.ResponseBecomesOneMessage | src/app/chat/page.tsx:104-121 | after a completion, a run of non-empty deltas appends exactly one bot message holding their concatenation |
| Chat.GrowsCurrent | src/app/chat/page.tsx:107-110 | further deltas keep extending the last bot message |
| Chat.DeltaAfterInterleavedMessage | src/app/chat/page.tsx:107-110 | a user message sent mid-stream stays last, and the next delta extends the earlier bot message |
| Chat.SentPromptReachesModel | src/app/chat/page.tsx:38-49 | a prompt the page sends passes the agent's prompt check and goes to web search |
| Chat.ChatPage.constructor | src/app/chat/page.tsx:21-23 | empty input, no messages, not loading, no current bot message |
| Chat.ChatPage.Type | src/app/chat/page.tsx:230-231 | the input becomes the typed text and nothing else changes |
| Chat.ChatPage.SendMessage | src/app/chat/page.tsx:37-49 | blank input changes nothing and sends nothing; otherwise the input is cleared, appended untrimmed as a user message, loading is set and the input is the prompt sent |
| Chat.ChatPage.ReceiveReply | src/app/chat/page.tsx:51-58 | exactly one reply message is appended and loading ends false |
| Chat.ChatPage.StartStream | src/app/chat/page.tsx:103 | a new voice session starts with no current bot message |
| Chat.ChatPage.FailVoiceStart | src/app/chat/page.tsx:126-128 | a failed voice start appends one "**Error:** " bot message |
| Chat.ChatPage.OnDelta | src/app/chat/page.tsx:104-117 | the messages and index become `Delta` of the old ones; input and loading do not change |
| Chat.ChatPage.OnCompleted | src/app/chat/page.tsx:119-121 | the index is cleared and the messages stay |

## Left out

- The OpenAI client, `fetch`, nodemailer, Mongoose and bcrypt are foreign libraries. Their
  results are parameters: the model's reply, the fetch outcome, the `signIn` result, a
  `hash` function and the first step that throws (`Fault`).
- `Math.random()` is floating point. The model uses the integer it selects, a choice in
  [0, 900000).
- `Date.now()` and `new Date()` are parameters (`now`). Mongoose's `createdAt` is taken as
  the same `now` as `expiresAt`, although the source reads the clock twice.
- Otp.Latest: records of one email created in the same millisecond are ordered by the
  database in an unspecified way. The contract promises only a record with the greatest
  creation time.
- Request fields of the account routes that are JSON values other than strings (numbers,
  booleans, objects) are not modelled. A non-string `otp` would make `.trim()` throw. A
  number or boolean `email` is cast to a string by Mongoose, but an object such as
  `{ "$ne": "" }` is taken as a query operator by `findOne({ email })`
  (`src/app/api/send-otp/route.ts:13`, `src/app/api/register/route.ts:11`,
  `src/app/api/verify-otp/route.ts:16`), so register would answer "User already exists"
  as soon as any user exists. The model's email is always a string. Only verify-otp's fields may be absent
  (`VerifyRequest`); send-otp and register take their email and password as strings, so
  an absent one there, which Mongoose would read as `{ email: undefined }`, is not
  modelled.
- `bcrypt.hash` draws a fresh random salt on every call. The model's `hash` is a fixed
  function, so two hashes of one password are equal in the model and differ in the
  application. No contract compares two hashes.
- The verify page reads the credentials with `useSearchParams().get`
  (`src/app/register/verify-otp/verify-otp-client.tsx:9-11`), a form-urlencoded reader.
  It turns `+` into a space and keeps a `%` not followed by two hex digits as literal
  text (`%ZZ` stays `%ZZ`). Escapes that spell ill-formed UTF-8, such as `%FF`, become
  U+FFFD. `decodeURIComponent` throws in both of these cases. `UriComponent.Decode` and
  `AuthPages.ReadQuery` are a strict stand-in for that reader. The two agree on every
  query the register page builds, since `encodeURIComponent` output has no `+` and only
  well-formed escapes; they differ on hand-written URLs.
- A string holding a lone UTF-16 surrogate makes `encodeURIComponent` throw. The register
  page would then show "Server error, please try again" after the success toast
  (`src/app/register/page.tsx:54` and its catch at 59-61). A Dafny `char` cannot hold a
  lone surrogate, so this path is not modelled.
- `src/models/User.ts` is not part of this model. `User.create` is an append, with no
  unique index.
- `src/app/api/realtime-session/route.ts` is network provisioning of a voice session with
  floating-point tuning, a wrapper over an upstream API.
- The voice session lifecycle (connecting, closing and the SDK's event wiring) is
  asynchronous SDK code. Only its effect on the message list is modelled: the index
  reset at start, the delta and completion handlers, and the error message on a failed
  start.
- Chat.ChatPage.OnDelta: `bot +=` mutates the message object shared with the previous
  list. React may call a state updater twice, which would repeat that mutation. The model
  updates the list as a value, once per delta. The handler is a `setMessages` updater that
  reads and sets `currentBotIndex` (`src/app/chat/page.tsx:106-116`). React may defer it
  to the next render, while the completion handler clears the index at once (:119-121).
  The model assumes every queued updater has run before the next event. A delta still
  queued when the completion arrives would instead start a new bubble and leave the index
  on it, and the next response would then extend that bubble, so
  `Chat.ResponseBecomesOneMessage` holds only under that assumption.
- Concurrent `sendMessage` calls (the Enter key is not gated on `loading`) interleave two
  requests. `loading` is one flag, and the model treats each request as its own
  SendMessage / ReceiveReply pair.
- The `\n$` strip of the highlighted code text, JSX rendering, clipboard writes, styling,
  `setTimeout`, scrolling and textarea resizing are presentation.
- The rest of `src/app/register/verify-otp/verify-otp-client.tsx` (its OTP form and its
  own session redirect), `src/app/page.tsx`, `src/app/layout.tsx` and the components are
  presentation and navigation plumbing.
- The agent route has a single tool, web search, and refuses every other tool type; no
  other tool is modelled because the route has none.
