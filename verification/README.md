# anonQ: a verified model of the server core

anonQ is a small anonymous question-and-answer board. Visitors submit
questions, and can ask for a grammar correction of their text first. An
admin signs in, answers questions, lists them and deletes them. Answered
questions are published as question/answer pairs.

This project models the server side of that in Dafny. Each request is one
atomic step: it takes the process-wide state (three rate-limiter maps, the
admin session store and the two tables), the request and the outside
world's answers, and returns a new state, a reply and at most one outbound
call. The outside world's answers are: the clock, the store's success
flags, the provider's reply, the random token, the identity provider's
session and the bcrypt verdict.

Modules, following the source layout:

- `Wrappers`: `Option` and `Result`.
- `Text`: JavaScript `trim`, ASCII `toLowerCase`, one-character `split`,
  `startsWith`/`endsWith` and the UTF-16 `length` over Dafny strings.
- `Environment`: `process.env` as a map, with JavaScript truthiness.
- `Config`: provider selection and environment validation (lib/config.ts).
- `RateLimit`: the fixed-window limiters and the client-key derivations of
  the two public routes.
- `Sessions`: the admin session store, token extraction and cookies
  (lib/auth.ts).
- `AdminAllowList`: the email allow-list (lib/auth0.ts).
- `Gateway`: grammar correction and notification (lib/services/apiService.ts).
- `Ordering`: the newest-first sort used by the store queries.
- `QuestionStore`: the question service over two in-memory tables
  (lib/data/questionService.ts).
- `Http`: JSON bodies, replies, server state and the shared content check.
- `PublicRoutes`, `AdminRoutes`: the route handlers under app/api.

Modelling choices:

- Strings are sequences of code points. Lengths compared against the
  1000/2000 limits are UTF-16 lengths, as JavaScript's `length` is.
- HMAC-SHA256 is the free constructor `Sessions.Hmac(secret, token)`, so it
  is injective for a fixed secret.
- A JSON field is absent, a string, or some other value of which only
  truthiness matters. Calling `.trim()` on a non-string throws, which gives
  500.
- The store runs each query as one round trip that either succeeds or
  fails. Ids and timestamps the database assigns are inputs.
- The admin data routes are gated by the identity provider and the
  allow-list, not by the local session store. Only the login route uses
  that store, which is how the source is written.

`getQuestionById` (lib/data/questionService.ts:37-46) maps every error the
store reports to null, including zero rows and several rows. So `addAnswer`
reports "not found" and the answer route replies 404 when the lookup query
fails. The one lookup failure that is not mapped is the throw of
`getSupabase()` (lib/supabase.ts:9-16) when the store URL or key is unset.
It happens before the query, so the route's catch replies 500
(`QuestionStore.AddAnswer`, `AdminRoutes.AnswerSubmitted`).

A store flag stands for the whole round trip. A `false` flag covers both an
error the store reports and the throw of an unconfigured client, which the
routes answer alike with 500. Only the answer route tells the two apart,
and it reads the store configuration from the environment to do so.

## Model

| member | source | states |
|---|---|---|
| RateLimit.Check | app/api/questions/route.ts:8-26 | Admits iff the key is new, its window has lapsed (strictly more than `windowMs` elapsed) or its count is below the ceiling. A rejection leaves the counters untouched. A reset stores count 1 at `now`, otherwise the count goes up by one. Other keys never change. |
| RateLimit.CheckKeepsBounded | app/api/questions/route.ts:20-25 | No stored count ever exceeds the ceiling. |
| RateLimit.RunInWindow | app/api/questions/regenerate/route.ts:8-26 | Within one window, request i is admitted iff count + i is below the ceiling, and the stored count saturates at the ceiling. |
| RateLimit.FreshKeyWindow | app/api/questions/route.ts:8-47 | For a fresh key and requests within one window of the first, request i is admitted iff i is below the ceiling: 100 general, 5 submissions, 10 regenerations. |
| RateLimit.WindowBoundary | app/api/questions/route.ts:15-18 | At exactly `windowMs` after the reset a full key is still refused; one millisecond later it is admitted again with count 1. |
| RateLimit.CeilDiv | app/api/questions/route.ts:41 | `Math.ceil(n / d)` on integers: the least q with n <= q*d. |
| RateLimit.CheckSubmission | app/api/questions/route.ts:28-47 | Same admission as the 5-per-hour limiter. A retry hint is present iff rejected, and it equals the ceiling of the remaining window in seconds. That is never negative, and at most 3600 unless the window starts in the future. |
| RateLimit.ClientKey | app/api/questions/route.ts:49-53 | The first comma field of x-forwarded-for if non-empty, else a non-empty x-real-ip, else "unknown". Never empty. |
| RateLimit.ForwardedChainKey | app/api/questions/route.ts:50 | A forwarded chain "client,proxies" is keyed by the client address. |
| RateLimit.RegenerationKey | app/api/questions/regenerate/route.ts:29-35 | The platform address when non-empty, else the same chain as `ClientKey`. |
| Sessions.SessionSecret | lib/auth.ts:10-16 | SESSION_SECRET if set, else the admin password hash, else the fixed fallback "insecure-fallback-secret". Never empty. |
| Sessions.Sweep | lib/auth.ts:62-69 | Removes exactly the entries that expired strictly before now and keeps the others unchanged. |
| Sessions.CreateSession | lib/auth.ts:29-40 | Stores the token's hash with expiry now + 24h, sweeps expired entries and returns the raw token. Entries that survive are otherwise unchanged. |
| Sessions.CreateAddsOne | lib/auth.ts:29-39 | With a fresh hash and nothing to sweep, exactly one key is added. |
| Sessions.ValidateSession | lib/auth.ts:42-55 | Valid iff the token is non-empty and its hash maps to an expiry at or after now. An expired entry is evicted. Otherwise the store is unchanged. |
| Sessions.CreatedSessionValidates | lib/auth.ts:29-54 | A created token validates from creation until its expiry instant inclusive, despite the post-insert sweep. |
| Sessions.CreatedSessionExpires | lib/auth.ts:49-52 | After its expiry a created token no longer validates and its entry is evicted. |
| Sessions.OtherTokenRejected | lib/auth.ts:42-48 | In a store holding only the issued token, any other token is rejected, because the hash is injective. |
| Sessions.InvalidateSession | lib/auth.ts:57-60 | Removes that token's entry and nothing else. |
| Sessions.InvalidatedStaysInvalid | lib/auth.ts:57-60 | After invalidation the token never validates. |
| Sessions.SessionFromRequest | lib/auth.ts:71-80 | The suffix after "Bearer " when the header starts with it, else the cookie value when non-empty, else nothing. |
| Sessions.BearerRoundTrip | lib/auth.ts:72-75 | A header "Bearer " + t yields exactly t, whatever the cookie. |
| Sessions.RequireAuth | lib/auth.ts:110-121 | Passes iff a non-empty token is presented and it validates. The store changes only by validation's eviction. |
| Sessions.AuthCookie | lib/auth.ts:82-94 | Name admin_session, value the token, HTTP-only, same-site strict, path "/", secure only in production, max-age the session length in seconds. |
| Sessions.LogoutCookie | lib/auth.ts:96-108 | Same attributes, empty value, max-age 0. |
| Sessions.CookieRoundTrip | lib/auth.ts:78-79 | The login cookie sent back presents the token; the logout cookie presents none. |
| AdminAllowList.NormalizeEntry | lib/auth0.ts:3 | The entry trimmed, with each ASCII capital moved 32 code points down to its lower-case letter and every other code point kept, so the same length as the trimmed entry. The result is trimmed and lower case, and an entry already in that form is kept unchanged. |
| AdminAllowList.ParseAllowList | lib/auth0.ts:3 | Unset gives the empty list; otherwise one normalised entry per comma field, at least one. |
| AdminAllowList.IsAllowedUser | lib/auth0.ts:9-13 | No or empty email is refused. An empty list admits everyone. Otherwise admitted iff the lower-cased, untrimmed email is an entry. |
| AdminAllowList.EntriesNormalized | lib/auth0.ts:3 | Every parsed entry is trimmed and lower case. |
| AdminAllowList.CaseInsensitive | lib/auth0.ts:3-12 | Emails equal up to ASCII case get the same verdict. |
| AdminAllowList.UnsetAllowsEveryone | lib/auth0.ts:3-11 | With the variable unset every non-empty email passes. |
| AdminAllowList.EmptyVariableLocksOut | lib/auth0.ts:3-12 | With the variable set to "" the list is [""] and no email passes. |
| AdminAllowList.LeadingSpaceNeverMatches | lib/auth0.ts:3-12 | An email starting with white space never matches a set list, since entries are trimmed and the email is not. |
| Config.GetApiConfig | lib/config.ts:26-62 | Custom provider iff API_PROVIDER is "custom": present iff its URL and key are set. Otherwise OpenAI: present iff its key is set, with the fixed base URL. The model, token limit and temperature are the chosen provider's own variables when set, else gpt-3.5-turbo, "1000" and "0.7". |
| Config.ModelDefaults | lib/config.ts:32-58 | When the chosen provider's own model variable is unset, the model is gpt-3.5-turbo, whatever the other provider's variable holds. |
| Config.OtherProviderModelIgnored | lib/config.ts:29-61 | Changing the model variable of the provider not chosen leaves the configuration unchanged. |
| Config.GetNtfyUrl | lib/config.ts:22-24 | NTFY_URL when set, else NEXT_PUBLIC_NTFY_URL. |
| Config.GetAdminPasswordHash | lib/config.ts:68-74 | The hash unchanged when set, else the error the source throws. |
| Config.ValidateEnvironment | lib/config.ts:77-93 | Valid iff the hash is set and an API configuration results, and iff there are no errors. The only messages are the two of the source. The hash message appears iff the hash is missing, and the API message iff no API configuration results, in that order. |
| Config.ValidMeansUsable | lib/config.ts:68-93 | Validation passes exactly when the admin hash can be read and a provider configuration can be built. |
| Gateway.NormalizeEndpoint | lib/services/apiService.ts:62-64 | A URL ending in /chat/completions or /generate is kept; any other URL gets /chat/completions appended. The result always ends in an endpoint suffix. |
| Gateway.NormalizeIdempotent | lib/services/apiService.ts:62-64 | Normalising twice equals normalising once. |
| Gateway.Endpoint | lib/services/apiService.ts:59-64 | OpenAI always posts to the fixed chat-completions URL, whatever URL is configured. |
| Gateway.BuildRequest | lib/services/apiService.ts:89-106 | Exactly two messages, the fixed instruction then the user's text verbatim. Model, tokens and temperature come from the configuration. |
| Gateway.Extract | lib/services/apiService.ts:108-120 | OpenAI: the trimmed first choice, failing iff there is none. Custom: never fails. Results are trimmed. |
| Gateway.CustomFallbackOrder | lib/services/apiService.ts:113-116 | Custom extraction is the first non-empty of trimmed choice, text and corrected, else "". |
| Gateway.CorrectGrammar | lib/services/apiService.ts:48-87 | No configuration: the input back with "API not configured" and no request. Otherwise exactly one request to `Endpoint` with `BuildRequest`. Succeeds iff the reply arrives and extraction succeeds; any failure returns the input with "Correction service unavailable". |
| Gateway.EmptyCustomReplySucceeds | lib/services/apiService.ts:113-116 | A custom reply with nothing usable is a success with empty text. |
| Gateway.SendNotification | lib/services/apiService.ts:122-140 | No request iff the URL is missing or empty; otherwise one post with the title and message, priority `high`, the tag `question` and a 10-second timeout. Its outcome never reaches the caller. |
| Ordering.Insert | lib/data/questionService.ts:101 | Inserting into a newest-first list keeps it newest-first and adds exactly that element. |
| Ordering.SortDesc | lib/data/questionService.ts:21 | The result is a permutation of the input, ordered by key, non-increasing. The order among equal keys is not specified. |
| QuestionStore.AddQuestion | lib/data/questionService.ts:5-14 | On success appends one unanswered row holding the trimmed text and returns it. On failure nothing changes. |
| QuestionStore.GetUnansweredQuestions | lib/data/questionService.ts:16-25 | Exactly the unanswered rows, newest first; fails iff the store does. |
| QuestionStore.GetAllQuestions | lib/data/questionService.ts:27-35 | A permutation of all rows, newest first; fails iff the store does. |
| QuestionStore.GetQuestionById | lib/data/questionService.ts:37-46 | A row is returned iff the store worked and exactly one row has that id, and it is that row. A store error, no row or several rows give nothing. |
| QuestionStore.FindAnswer | lib/data/questionService.ts:98 | The position of the first answer referencing the question, or none when no answer does. |
| QuestionStore.Join | lib/data/questionService.ts:95-100 | Each question paired with its first answer; questions without one are dropped and none with one is lost. A pair occurs exactly as often as its question's row. |
| QuestionStore.GetAllQA | lib/data/questionService.ts:81-102 | Fails iff either read fails. Otherwise every pair is an answered question with its first answer, none is missing, each occurs as often as its question's row, and pairs are newest answer first. |
| QuestionStore.MarkAnswered | lib/data/questionService.ts:60-63 | Flags the rows with that id and leaves every other row as it was. |
| QuestionStore.AddAnswer | lib/data/questionService.ts:48-68 | With an unconfigured client the lookup throws and nothing changes. Not found (or the lookup reported an error): nothing changes. Otherwise the trimmed answer is appended, then the question flagged. A failed insert changes nothing. A failed flag update keeps exactly the answer row and leaves the questions alone. Success iff both writes succeed. |
| QuestionStore.DeleteQuestion | lib/data/questionService.ts:104-111 | Reports success iff the store did. Then each question row with another id remains as often as it was stored and those with that id are gone; each answer remains as often as it was stored unless the schema cascades and it references that id. |
| QuestionStore.DeleteKeepsConsistent | lib/data/questionService.ts:104-111 | A successful delete, cascading or not, keeps every remaining question's answer count equal to its flag. |
| QuestionStore.AnswerCountAppend | lib/data/questionService.ts:52-56 | Appending an answer raises its question's answer count by one and no other. |
| QuestionStore.AnswerKeepsConsistent | lib/data/questionService.ts:48-68 | Answering an unanswered question keeps "answered iff exactly one answer" for every question. |
| QuestionStore.SecondAnswerBreaksConsistency | lib/data/questionService.ts:48-68 | Answering an already answered question is not refused and leaves two answers for it. |
| QuestionStore.PartialAnswerBreaksConsistency | lib/data/questionService.ts:58-65 | When the flag update fails after the insert, an unanswered question is left with an answer. |
| QuestionStore.AskAnswerPublish | lib/data/questionService.ts:5-102 | A question submitted then answered leaves the unanswered list and is published as one pair occurring exactly once, both texts trimmed; no other pair carries its id. |
| Http.CheckContent | app/api/questions/route.ts:77-89 | Falsy gives Missing; a non-string throws; white space only gives Blank; over the limit in trimmed UTF-16 units gives TooLong; otherwise accepted with the trimmed text. |
| Http.ContentBoundary | app/api/admin/answer/route.ts:29-34 | Exactly the limit is accepted; one unit more is too long. |
| PublicRoutes.SubmitQuestion | app/api/questions/route.ts:55-109 | Checks in order: general limit (rejection changes nothing), submission limit (429 with retry hint), body, content (400), insert (500), then 201 with the trimmed row stored and the raw text announced. Sessions and regeneration counters never change. |
| PublicRoutes.AcceptQuestion | app/api/questions/route.ts:74-102 | Past the limiters: 400 iff the text is missing, blank or too long; 201 iff it is valid and the insert succeeds. The table and notification change only on 201. |
| PublicRoutes.QuotaRun | app/api/questions/route.ts:28-47 | Continuing within the hour, requests stay admitted until five are counted and the next gets 429 with a retry hint in [1, 3600]. |
| PublicRoutes.SixthSubmissionRefused | app/api/questions/route.ts:59-72 | Six submissions from a new client within an hour: the first five pass both limiters whatever their bodies; the sixth gets 429 with Retry-After in [1, 3600]. |
| PublicRoutes.LongestQuestionAccepted | app/api/questions/route.ts:84-101 | Past both limiters, a question of exactly 1000 trimmed units is stored, trimmed, with 201. One unit more gets 400 and stores nothing. |
| PublicRoutes.RejectedBodyStillCounts | app/api/questions/route.ts:59-82 | A 400 has already consumed both the general and the submission quota. |
| PublicRoutes.Regenerate | app/api/questions/regenerate/route.ts:38-81 | Only the regeneration counters change, so submission quotas are untouched. 429 iff its limiter refuses. 200 with the correction's text iff the text is valid; when the gateway reports an error that text is the input. |
| PublicRoutes.CorrectSubmitted | app/api/questions/regenerate/route.ts:49-73 | Past the limiter: 400 iff the text is missing, blank or too long; otherwise 200 with the gateway's text and its request as the outbound call. |
| PublicRoutes.RegenerateAllFollowsLimiter | app/api/questions/regenerate/route.ts:42-47 | Over a sequence of requests, the route returns 429 exactly where the limiter alone refuses. |
| PublicRoutes.EleventhRegenerationRefused | app/api/questions/regenerate/route.ts:8-26 | From a new client within 15 minutes of its first request, the first ten pass and every later one gets 429. |
| AdminRoutes.AuthorizedUsers | app/api/admin/answer/route.ts:6-9 | Only a signed-in user with an email passes. Without a list everyone such passes; with one, the email must match a listed field up to case. |
| AdminRoutes.PostAnswer | app/api/admin/answer/route.ts:5-54 | 401 iff not authorised, changing nothing. Then 400 / 404 / 201 / 500 as the fields, the store configuration, the lookup and the two writes decide; a valid request with an unconfigured store is a 500 that changes nothing. Only the tables change, and on 201 the trimmed answer is appended and the question flagged. A 500 keeps the questions; it keeps the inserted answer row exactly when the question exists and the insert succeeded, and otherwise changes nothing. |
| AdminRoutes.AnswerSubmitted | app/api/admin/answer/route.ts:11-53 | 400 iff a field is falsy or the text is blank or too long. An unconfigured store client gives 500 and changes nothing. Otherwise 404 iff the id is not a string or the lookup finds no single row. 201 iff the question exists and both writes succeed. A 500 keeps the questions; it keeps the inserted answer row exactly when the question exists and the insert succeeded, and otherwise changes nothing. |
| AdminRoutes.AnswerRouteKeepsConsistent | app/api/admin/answer/route.ts:36-47 | An authorised, valid answer to an unanswered question, with a configured store whose calls succeed, gets 201 and keeps the tables consistent. |
| AdminRoutes.GetQuestions | app/api/admin/questions/route.ts:5-23 | Changes nothing. 401 iff not authorised; 200 iff all reads succeed, with every question newest first and the published pairs. |
| AdminRoutes.DeleteQuestionRoute | app/api/admin/questions/route.ts:25-51 | 401 iff not authorised, 400 iff the id is missing or empty, 200 iff the store succeeds, else 500. Only a 200 changes the tables, to the store's delete of that id: the question's rows are gone, every other row keeps its multiplicity, and the answers to it go exactly when the schema cascades. |
| AdminRoutes.DeletedQuestionCannotBeAnswered | app/api/admin/questions/route.ts:39-44 | For an authorised admin the delete of a non-empty id succeeds, and answering that id afterwards gets 404 (500 when the store client is unconfigured) and changes nothing. |
| AdminRoutes.AnswerToMissingQuestion | app/api/admin/answer/route.ts:36-42 | Answering an id no row carries changes nothing and is a 404, or a 500 when the store client is unconfigured. |
| AdminRoutes.Login | app/api/admin/login/route.ts:6-42 | 400 iff the password is falsy. 200 iff it is a string, the hash is configured and bcrypt accepts. 401 iff bcrypt refuses. Otherwise 500. Only a 200 changes the session store: it adds the token's hash with 24h expiry, keeps every other unexpired session with its expiry and drops the expired ones, as `createSession` does. It also sets the cookie carrying the body's token. |
| AdminRoutes.MissingPasswordIgnoresConfiguration | app/api/admin/login/route.ts:11-16 | Without a password the reply is the same whatever the configuration, bcrypt, token or clock. |
| AdminRoutes.LoginThenAuthenticated | app/api/admin/login/route.ts:30-35 | Until it expires, the issued token passes `requireAuth`, sent either as the cookie or as a bearer header. |
| Text.Trim | app/api/questions/route.ts:77 | The result is an infix of the input with only white space before and after it. It is trimmed, and empty iff the input is all white space. |
| Text.TrimCharacterised | app/api/questions/route.ts:77 | Conversely, any trimmed infix with white space on both sides, empty only for an all-white-space input, is the trim. |
| Text.TrimIdempotent | lib/auth0.ts:3 | Trimming twice equals trimming once. |
| Text.Split | lib/auth0.ts:3 | At least one field, none containing the separator. |
| Text.JoinSplit | app/api/questions/route.ts:50 | Joining the fields of a split gives back the input. |
| Text.SplitJoin | lib/auth0.ts:3 | Splitting a join of separator-free fields gives back the fields. |
| Text.Utf16Length | app/api/questions/route.ts:84 | The code-point count plus the number of code points above U+FFFF, so between the count and twice it, and equal iff every code point is in the Basic Multilingual Plane. |

## Left out

- The React pages and components, lib/api.ts, lib/hooks/useClientStorage.ts and next.config.js: browser or client plumbing with no server logic.
- lib/supabase.ts beyond its configuration check: the client it builds is replaced by the in-memory tables and success flags; its throw when the store URL or key is unset is `QuestionStore.StoreConfigured`.
- AdminRoutes.AnswerSubmitted: a truthy non-string question id is taken to match no row, so it gives 404 with a configured store. The source passes the value to the query unchecked, and what the store makes of it is not modelled.
- AdminRoutes.PostAnswer: its 404 clause rests on the same assumption about a truthy non-string question id, since it hands the body to `AdminRoutes.AnswerSubmitted`.
- `GET /api/questions` and app/api/questions/qa/route.ts: they only forward `getAllQA`, which is modelled.
- `getAnswerByQuestionId` and `getPort`: no modelled route uses them.
- Supabase, axios and the HTTP exchange: replaced by success flags, a reply input and returned request records.
- Random token generation, HMAC-SHA256 and bcrypt: the token is an input, HMAC is an injective constructor and bcrypt is a parameter.
- Auth0: its session is reduced to an optional email.
- `Date.now()` and date parsing: the clock and timestamps are integers, and each operation reads the clock once. `Sessions.CreateSession` uses the same instant for the new expiry and the sweep, where lib/auth.ts:34 and :63 read it twice, so an entry expiring between the two reads is swept by the source and kept by the model; likewise `PublicRoutes.SubmitQuestion` gives both limiters (app/api/questions/route.ts:9 and :29) one instant.
- `parseInt`/`parseFloat` of the token limit and temperature: the values are kept as the raw strings.
- Config.GetApiConfig: does not model the numeric parsing above.
- `toLowerCase` beyond ASCII: non-ASCII letters are left as they are, so `Text.Lower` is ASCII-only.
- Lone surrogates: Dafny strings hold scalar values only.
- Gateway.Extract: the provider's reply is an object whose fields are strings or absent. A non-string field, or a non-object body such as JSON `null` (lib/services/apiService.ts:113 reads `data.choices` without `?.`), would throw and be reported as "Correction service unavailable"; neither is modelled.
- Concurrency: requests are atomic steps. Lost updates between interleaved handlers on the shared maps are not modelled.
- Request timeouts: recorded as constants on the outbound request; elapsed time is not modelled.
- Console logging, and the exact JSON and header encoding of replies (Retry-After is the integer it would print).
