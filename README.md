# Hello World Cloudflare Worker with D1 — a verified model

This project models, in Dafny, the decision logic of a Cloudflare Worker that
greets visitors with a message read from a D1 database, and of the three
Node scripts that provision that database.

- **The worker** (`src/index.js`):
  - escaping text for HTML;
  - normalising a repository slug from several environment variables;
  - describing where the request was served from;
  - choosing between the database greeting and the built-in fallback;
  - the sections of the success and error pages;
  - the status `fetch` answers with.
- **`scripts/get-db-id.mjs`:** the argument loop, the `uuid` check of the lookup and where the id goes.
- **`scripts/set-db-id.mjs`:** the argument loop, the id taken from the environment, and the global substitution of every `database_id = "..."` entry, with its replacement count.
- **`scripts/ensure-db.mjs`:** the argument loop, the found-or-created decision, and the effects `main` requests.

Modules and files:

- **`JsText`** (`js_text.dfy`): the JavaScript values and string operations the code relies on:
  - truthiness and `String(v)`;
  - `trim()` with the ECMAScript white-space set;
  - `split` on one character;
  - `argv.slice(2)`;
  - the `[x = fallback] = items` and `v || fallback` defaults;
  - the TypeError raised by `env?.KEY?.trim()`.
- **`HtmlEscape`** (`html_escape.dfy`): `escapeHtml` as five chained global replacements. It comes with a reference per-character escaper, a decoder of the five entities and the safety predicate.
- **`Repository`** (`repository.dfy`): the slug pattern, the two GitHub patterns written as hand-coded matchers, `normalizeRepositoryValue` and `resolveRepositorySlug`.
- **`Greeting`** (`greeting.dfy`): the location text, the database note, the fallback, and the resolver over an abstract database outcome.
- **`Page`** (`page.dfy`): the release section, the slots of both pages, and `fetch`.
- **`GetDbId`**, **`SetDbId`**, **`EnsureDb`**: the three scripts. The argument loops are methods proved against functions that describe the parsed arguments. The substitution is a method whose loop is proved against a scan of the text into pieces.

JavaScript values are modelled as `Missing` (undefined or null), `Str(s)`, or `Other(text, truthy)`, where `Other` is any other value with its `String()` text and truthiness.

How `fetch` fails, as the code is written:

- The error page tells the visitor that the worker "could not reach the D1 database" (src/index.js:441-442).
- No database failure reaches that page. `resolveGreeting` catches every failure of the binding or the query and answers with the fallback greeting, with status 200.
- The error page, with status 500, appears only when the fallback is needed and `DEFAULT_GREETING` is a non-nullish non-string, whose `trim` call throws a TypeError.
- A SITE_TITLE or SITE_RELEASE of that kind throws before the `try`, so `fetch` rejects instead of answering (`Page.Fetch` returns `Err`).

## Model

| member | source | states |
|---|---|---|
| JsText.Trim | src/index.js:54 | the trimmed text is empty exactly when the input is all white space, and otherwise neither starts nor ends with white space |
| JsText.TrimOfPadded | src/index.js:54 | trimming removes exactly the white space around a text that has none at its ends |
| JsText.TrimIdempotent | src/index.js:54 | trimming twice gives what trimming once gives |
| JsText.TrimmedOr | src/index.js:160 | `env?.KEY?.trim() \|\| fallback`: fallback for a nullish or blank value, the trimmed text otherwise, and a TypeError naming `env?.KEY?.trim` exactly for values that are neither |
| JsText.Split | scripts/ensure-db.mjs:18 | `split` gives at least one piece and no piece holds the separator |
| JsText.JoinSplit | scripts/ensure-db.mjs:18 | joining the pieces of a split with the separator gives the text back |
| JsText.FlagValue | scripts/ensure-db.mjs:18 | the second piece of `flag=v` is the part of `v` before its own first `=`; what follows a second `=` is lost |
| JsText.Unconsumed | scripts/ensure-db.mjs:16-33 | the positionals of an argument loop are the arguments it does not consume, each taken from the arguments; no consumed flag is ever a positional |
| JsText.FirstUnconsumed | scripts/get-db-id.mjs:48 | the first positional, which names the database, is the first argument that is not a flag, even when it is the empty string: `[x = fallback]` then gives that argument and never the fallback; later positionals do not change it |
| JsText.NoneUnconsumed | scripts/ensure-db.mjs:35 | when the loop consumes every argument there is no positional, so `[x = fallback]` gives the fallback, `hello_world` in the scripts |
| JsText.CommandArgs | scripts/ensure-db.mjs:11 | `argv.slice(2)`: the interpreter and script entries followed by the arguments give argv back; with fewer than two entries there are no arguments |
| JsText.OrDefault | scripts/ensure-db.mjs:19 | `value \|\| fallback` is always the value or the fallback, the value whenever it is a non-empty string, and empty only when the fallback is empty too |
| HtmlEscape.ReplaceAll | src/index.js:42 | a text without the character is unchanged, and no occurrence of the character is left unless the replacement holds it |
| HtmlEscape.ReplaceAllConcat | src/index.js:42 | a global replacement works piece by piece over a concatenation |
| HtmlEscape.EscapeHtml | src/index.js:40-47 | a text without `&`, `<`, `>`, `"` and `'` is left as it is; escaping never shortens a text, so only the empty text escapes to the empty text |
| HtmlEscape.EscapeHtmlIsPerChar | src/index.js:40-47 | the five chained replacements equal escaping each character on its own, so `&` is not escaped twice |
| HtmlEscape.EscapeHtmlConcat | src/index.js:40-47 | escaping distributes over concatenation |
| HtmlEscape.EscapeHtmlSafe | src/index.js:40-47 | the escaped text holds no `<`, `>`, `"` or `'`, and every `&` in it starts one of the five entities |
| HtmlEscape.SafeConcat | src/index.js:40-47 | safe texts stay safe when joined |
| HtmlEscape.UnescapeEscapeHtml | src/index.js:40-47 | decoding the five entities in the escaped text gives the input back |
| HtmlEscape.UnescapeEscapeHtmlThen | src/index.js:40-47 | decoding escaped text followed by more markup gives the text and then the decoded markup |
| HtmlEscape.UnescapePlain | src/index.js:40-47 | markup without special characters decodes to itself |
| HtmlEscape.EscapeHtmlInjective | src/index.js:40-47 | different texts escape to different texts |
| Repository.GithubUrlCapture | src/index.js:60-62 | whatever the https pattern captures matches the slug pattern |
| Repository.GithubUrlCaptureSound | src/index.js:60-62 | a capture comes from a real match: the scheme and host in any case, the capture, and an optional `/` |
| Repository.GithubUrlCaptureGreedy | src/index.js:60-62 | for every way the pattern matches, the capture is the slug together with any `.git`, as the greedy group takes it |
| Repository.SshCapture | src/index.js:68 | whatever the SSH pattern captures matches the slug pattern |
| Repository.SshCaptureSound | src/index.js:68 | an SSH capture comes from a real match of prefix and slug |
| Repository.SshCaptureGreedy | src/index.js:68 | for every way the SSH pattern matches, the capture includes any `.git` |
| Repository.NormalizeRepositoryValue | src/index.js:49-75 | a non-string gives null, and every result matches the slug pattern |
| Repository.NormalizeSlug | src/index.js:54-58 | a value whose trimmed text is a slug gives that trimmed text |
| Repository.NormalizeGithubUrl | src/index.js:60-66 | a trimmed https GitHub URL in any case, with optional `.git` and `/`, gives its capture |
| Repository.NormalizeSsh | src/index.js:68-72 | a trimmed `git@github.com:` remote gives its capture |
| Repository.NormalizeOnlyThese | src/index.js:49-75 | every result is the trimmed slug, the URL capture or the SSH capture; anything else gives null |
| Repository.GitSuffixKeptInUrl | src/index.js:60-62 | `https://github.com/o/r.git` normalises to `o/r.git` |
| Repository.GitSuffixKeptInRemote | src/index.js:68 | `git@github.com:o/r.git` normalises to `o/r.git` |
| Repository.FirstNormalizedIsFirst | src/index.js:86-92 | the search returns the normalisation of the first candidate that normalises |
| Repository.FirstNormalizedNone | src/index.js:86-92 | the search finds nothing exactly when no candidate normalises |
| Repository.ResolveRepositorySlug | src/index.js:77-105 | every result matches the slug pattern |
| Repository.ResolveRepositorySlugFirst | src/index.js:77-92 | the first key, in the order SITE_REPOSITORY, GITHUB_REPOSITORY, CF_PAGES_REPO_FULL_NAME, REPOSITORY, WRANGLER_REPOSITORY, whose value normalises decides |
| Repository.ResolveRepositorySlugFallback | src/index.js:94-104 | with no usable candidate, the result is the trimmed `owner/name` exactly when both are truthy and it matches the pattern, else null |
| Greeting.TruthyTexts | src/index.js:27 | the filter keeps only truthy values and is empty exactly when none is truthy |
| Greeting.DescribeInfrastructureLocation | src/index.js:19-38 | no `cf` gives null; otherwise the truthy city, region and country joined by `, `, else `the <colo> data center`, else null |
| Greeting.LocationOrder | src/index.js:27-31 | whenever city, region or country is truthy, the text is the truthy ones among them joined by `, `, in the order city, region, country; written out in full for all three, city and country, and country alone |
| Greeting.FormatDatabaseNote | src/index.js:10-17 | the note is the fixed prefix, then the trimmed location (or `an unknown location` when there is none or it is blank), then `.` |
| Greeting.ResolveFallbackGreeting | src/index.js:159-173 | the trimmed DEFAULT_GREETING when not blank, else `Hello World`; always FALLBACK_NOTE and a non-empty warning; a TypeError exactly for a DEFAULT_GREETING without `trim` |
| Greeting.ReadGreetingFromDatabase | src/index.js:135-157 | the row's message exactly when it is truthy; otherwise the binding, no-rows or driver error |
| Greeting.ResolveGreeting | src/index.js:175-191 | throws only when the fallback is needed and DEFAULT_GREETING has no `trim`; a warning exactly when the fallback is used; the message is always truthy |
| Greeting.ResolveGreetingCases | src/index.js:175-191 | a truthy row is served verbatim with the database note and no warning; every other outcome gives the fallback with its reason |
| Greeting.FallbackWarningMentionsReason | src/index.js:185-188 | a thrown error's message appears in parentheses in the warning |
| Page.BuildReleaseSection | src/index.js:107-133 | a badge exactly when there is a slug, else the release text exactly when the escaped label is not empty, else nothing; the screen-reader label uses the release only when its escaped text is not empty; every field is safe and decodes to the URL, slug or label it was built from |
| Page.RenderSuccessHtml | src/index.js:193-220 | title, message and note are safe and decode to their inputs; the request-URL section only for a non-empty string URL; the warning only when it is non-empty |
| Page.RenderErrorHtml | src/index.js:355-365 | the reason is safe and decodes to the error message; the title decodes to the site title, the dash and ERROR_TITLE |
| Page.Fetch | src/index.js:450-485 | rejects exactly for a SITE_TITLE or SITE_RELEASE without `trim`; otherwise 200 or 500, with 500 exactly when the resolver threw, which happens exactly when the database cannot serve and DEFAULT_GREETING has no `trim`; the release section is never empty |
| Page.Respond | src/index.js:456-483 | the success page with status 200 for a resolved greeting, the error page with status 500 and the thrown message for a throw; a shown release label means the page always has a release section |
| Page.ServedRow | src/index.js:456-472 | a truthy row gives status 200, shows the message and no warning |
| Page.UnboundDefault | src/index.js:176-179 | no binding and no DEFAULT_GREETING give 200, `Hello World`, and the missing-binding warning |
| Page.FailedRead | src/index.js:185-189 | a failing read gives 200 with the error's message in the warning |
| Page.BrokenDefaultGreeting | src/index.js:473-483 | a DEFAULT_GREETING without `trim`, when the database cannot serve, gives 500 with the TypeError's message on the page |
| GetDbId.FetchDatabaseId | scripts/get-db-id.mjs:5-16 | the parsed `uuid` exactly when it is truthy; otherwise the lookup's error or the missing-id message naming the database |
| GetDbId.EnvFileLine | scripts/get-db-id.mjs:18-26 | the appended entry is one line ending in a newline, and reading it up to the first `=` gives back the variable name, with the id after it |
| GetDbId.RunCli | scripts/get-db-id.mjs:28-66 | exactly one outcome: the lookup's error, the printed id, the `NAME=<id>` line appended to GITHUB_ENV, or the GITHUB_ENV error |
| GetDbId.GithubEnvVariableLast | scripts/get-db-id.mjs:33-43 | the last flag decides: the bare flag gives D1_DATABASE_ID, `--github-env=NAME` the second `=` segment, empty falls back |
| GetDbId.GithubEnvVariableUnset | scripts/get-db-id.mjs:31 | without either flag the variable stays null |
| GetDbId.GithubEnvVariableNonEmpty | scripts/get-db-id.mjs:35-41 | a chosen variable name is never empty |
| SetDbId.SpacedChar | scripts/set-db-id.mjs:12 | a found `\s*c` is white space followed by `c` |
| SetDbId.MatchAt | scripts/set-db-id.mjs:12 | a match lies in the text and ends with the closing quote |
| SetDbId.MatchAtSound | scripts/set-db-id.mjs:12 | a match is `database_id\s*=\s*"`, a non-empty value without quotes, and `"` |
| SetDbId.MatchAtEntry | scripts/set-db-id.mjs:12 | every entry written in any of the pattern's forms is matched, with exactly its prefix and value |
| SetDbId.EmptyValueNotMatched | scripts/set-db-id.mjs:12 | `database_id = ""` is not matched |
| SetDbId.ScanEntries | scripts/set-db-id.mjs:12-15 | every entry the global scan finds is a match of the pattern |
| SetDbId.RenderScan | scripts/set-db-id.mjs:12-15 | the scan loses nothing: its pieces put together give the text |
| SetDbId.RewriteIsRenderWithValue | scripts/set-db-id.mjs:12-15 | the replacement is the scanned text with only the entry values changed to the id, so prefixes, spacing and other text are kept |
| SetDbId.CountZeroIffNoMatch | scripts/set-db-id.mjs:17 | the count is zero exactly when the pattern matches nowhere |
| SetDbId.UpdateWranglerToml | scripts/set-db-id.mjs:7-22 | the loop counts the matches and builds the replacement; zero matches is the error and there is nothing to write |
| SetDbId.ReadDatabaseIdFromEnv | scripts/set-db-id.mjs:24-32 | an unset or empty value is an error naming the variable; any other value is returned trimmed |
| SetDbId.ParseArguments | scripts/set-db-id.mjs:34-68 | name from the first positional or `hello_world`; path from the `--wrangler=` flag, else the second positional, else `wrangler.toml`; the variable from the last `--env` form |
| SetDbId.EnvVarLast | scripts/set-db-id.mjs:41-50 | the last `--env` form decides, with the second `=` segment and the D1_DATABASE_ID fallback |
| SetDbId.WranglerFlagLast | scripts/set-db-id.mjs:52-56 | the last `--wrangler=` decides, with the second `=` segment and the `wrangler.toml` fallback |
| SetDbId.WranglerFlagUnset | scripts/set-db-id.mjs:38 | without `--wrangler=` the flag leaves the path unset |
| SetDbId.FlagValuesNonEmpty | scripts/set-db-id.mjs:48-54 | a chosen path or variable name is never empty |
| SetDbId.Run | scripts/set-db-id.mjs:70-90 | the id comes from the chosen variable or else from the lookup; an id error is final; otherwise the text is rewritten exactly when it has a match |
| EnsureDb.ParseArguments | scripts/ensure-db.mjs:10-38 | a bare `--wrangler` throws; otherwise the first positional or `hello_world`, the last `--wrangler=` path, and migrations unless `--no-migrations` appears |
| EnsureDb.WranglerPathLast | scripts/ensure-db.mjs:17-21 | the last `--wrangler=V` decides with the part of V before a second `=`, or `wrangler.toml` when that is empty |
| EnsureDb.WranglerPathDefault | scripts/ensure-db.mjs:13 | without `--wrangler=` the path is `wrangler.toml` |
| EnsureDb.WranglerPathDropsSecondAssignment | scripts/ensure-db.mjs:18 | `--wrangler=a=b` gives the path `a` |
| EnsureDb.EnsureDatabase | scripts/ensure-db.mjs:72-88 | a found database with `created: false`; else the created id with `created: true`; else the creation error; created exactly when the lookup failed |
| EnsureDb.Run | scripts/ensure-db.mjs:96-115 | the argument error escapes; an ensure error exits 1 with nothing done; otherwise the configuration write comes first and migrations follow exactly when the database was created and not switched off |

## Left out

- Logging: the log lines are left out: the `console.error` of `fetch`'s `catch`, and `main`'s `Updated ...` and `Created ...` messages. `GetDbId.RunCli` keeps the two outputs that carry a result: the `console.log` of the id (`Printed`) and the `console.error` of a failure's message (`Failed`).
- HTTP: the `Response` object and its `content-type` header are left out. Only the status and the page slots are modelled.
- Page markup: the stylesheet and the fixed markup around the slots are presentation text. The model keeps which sections appear and what each slot holds.
- The D1 driver: `prepare(...).first()` is an input outcome (`Greeting.Database`). This covers no binding, a binding without `prepare`, a row, no row, and a thrown error's message.
- `async`/`await` is plain sequencing in the model.
- External processes: `execSync` and the wrangler commands are outcomes given as parameters, and so is `JSON.parse` of their output.
  - `fetchDatabaseId`'s command becomes `GetDbId.Info`.
  - `createDatabase` becomes `EnsureDb.Run`'s `create`.
  - `applyMigrations` becomes `migrate`.
- Files and process state are replaced by parameters and results:
  - `readFileSync`, `writeFileSync` and `appendFileSync`;
  - `process.env`, `process.exit` and the `import.meta.url` guard.
- The configuration write in ensure-db (`writeDatabaseIdToConfig`) is an outcome parameter.
  - ensure-db imports `extractDatabaseId` and `writeDatabaseIdToConfig`, which get-db-id.mjs and set-db-id.mjs do not export. As written, the script fails when its modules are linked.
  - The model gives no meaning to those two functions and describes `main` as if they existed.
- SetDbId.UpdateWranglerToml: the error names the path as given, not the absolute path `resolve` makes of it.
- The `error.stderr` branch of the scripts' `catch` blocks is not modelled. An error is represented by its message.
- `String(v)` of a value whose conversion itself throws (a Symbol, an object with a throwing `toString`) is not modelled. `JsText.Value` gives every value a text.
- A `cf` value that is present but not an object is modelled as absent.
