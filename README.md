# Update route, repository-metadata route and line-ending script of bolt.diy, in Dafny

This project models the three pieces of logic the repository actually contains
around its self-update feature, with the I/O replaced by plain inputs:

- **`POST /api/update`** (`UpdateRoute`, from `app/routes/api.update.ts`). The
  handler gates on the HTTP method (405), checks that the parsed JSON body is an
  object whose `branch` is a string (400), and otherwise answers with a fixed
  report saying that updates are not available in the Cloudflare environment
  (200). An exception while parsing the body becomes a 500 response. The body is
  a small JSON datatype; the guard is written with JavaScript's truthiness,
  `typeof` and `in` and is proved equal to "an object with a string `branch`".
- **`GET /api/system/git-info`** (`GitInfoRoute`, from
  `app/routes/api.system.git-info.ts`). `getGitHubInfo` builds the request
  headers, fetches a repository's metadata, falls back once to
  `stackblitz-labs/bolt.diy` on a 404, and turns any other failure into `null`.
  `loader` projects the result into the `local` / `github` / `isForked`
  response. The network is an oracle from the request (URL and headers) to its
  outcome. The lookup returns the requests it sent, so that the number and
  targets of the fetches can be stated.
- **`convert-endings.js`** (`ConvertEndings`). It splits the file listing with
  `split('\n').filter(Boolean)` and rewrites file contents with
  `replace(/\r\n/g, '\n')`. Both are recursive functions over strings. The main
  results are these. Splitting is undone by joining. A listing of
  newline-terminated names reads back as exactly those names. The replacement
  deletes exactly the carriage returns that precede a line feed. Its output still
  contains `"\r\n"` exactly when the input contains `"\r\r\n"`, so the pass is
  not idempotent in general.

The update route is a stub that returns a fixed report
(app/routes/api.update.ts:34).

## Model

| member | source | states |
|---|---|---|
| `UpdateRoute.RejectsBodyExactly` | app/routes/api.update.ts:30 | the guard (`!body`, `typeof body !== 'object'`, `!('branch' in body)`, `typeof body.branch !== 'string'`) rejects exactly the bodies that are not objects holding a string `branch`; `null`, arrays and non-string `branch` are all rejected |
| `UpdateRoute.NotAvailableReport` | app/routes/api.update.ts:35-51 | the success report has stage `complete` and `updateReady = false`; additions and deletions are 0; changed files and commit messages are empty; compare URL and both commits are empty; total size is `"0 B"`; the message, error and changelog texts are the fixed "not available", "manual or CI/CD" and "disabled" texts |
| `UpdateRoute.FailureMessage` | app/routes/api.update.ts:57 | the 500 error text is the thrown `Error`'s message, and "Unknown error occurred while preparing update" for a thrown non-Error |
| `UpdateRoute.Action` | app/routes/api.update.ts:22-62 | non-POST gives 405 "Method not allowed"; a throwing parse gives 500 with `success: false`; a body that is not an object with a string `branch` gives 400 with the exact validation message; every other body gives 200 with the fixed report |
| `UpdateRoute.MethodGateIgnoresBody` | app/routes/api.update.ts:23-28 | for a non-POST method the response is 405 and identical for any two bodies, including ones whose parsing throws: the body is never read |
| `UpdateRoute.BranchValueIrrelevant` | app/routes/api.update.ts:30-51 | two accepted bodies get identical responses: the value of `branch` and any other keys influence nothing |
| `UpdateRoute.StatusDeterminesPayload` | app/routes/api.update.ts:22-62 | the status is always one of 200, 400, 405 or 500; 200 carries the report, 500 the `success: false` body, 400 and 405 the `error` body |
| `UpdateRoute.SuccessNeverReady` | app/routes/api.update.ts:30-51 | a 200 response happens only for a POST with an accepted body, and it never reports an update as ready |
| `UpdateRoute.EmptyObjectAndGet` | app/routes/api.update.ts:23-32 | `{}` gives 400 with the validation message; a numeric `branch` or a `null` body gives 400; a GET gives 405 |
| `GitInfoRoute.RequestHeaders` | app/routes/api.system.git-info.ts:22-30 | `Accept` is always `application/vnd.github.v3+json`; `Authorization` is present exactly when the token is set and non-empty, with value `"token " + token`; no other header |
| `GitInfoRoute.BuildHeaders` | app/routes/api.system.git-info.ts:22-30 | the in-place construction (start with `Accept`, add `Authorization` when a token is set) yields exactly the headers above |
| `GitInfoRoute.GetGitHubInfo` | app/routes/api.system.git-info.ts:19-61 | a lookup sends one or two requests, each carrying the headers above; the first goes to the repository's API URL; a second one exists only for a repository other than the fallback and goes to the fallback's URL |
| `GitInfoRoute.FallbackExactlyOn404` | app/routes/api.system.git-info.ts:38-48 | a second request is sent exactly when the first answer is a non-OK 404 for a repository other than `stackblitz-labs/bolt.diy`; the result is then the fallback lookup's result |
| `GitInfoRoute.FallbackNeverFallsBack` | app/routes/api.system.git-info.ts:46-47 | looking up `stackblitz-labs/bolt.diy` sends exactly one request, so a lookup makes at most two fetches and terminates |
| `GitInfoRoute.FirstAnswerDecides` | app/routes/api.system.git-info.ts:38-60 | a fetch that throws, a non-OK status outside the fallback case, or an OK body that does not parse gives `null`; an OK parsed body is returned unchanged |
| `GitInfoRoute.InfoComesFromOkAnswer` | app/routes/api.system.git-info.ts:46-56 | any metadata returned is, unchanged, the parsed body of an OK answer to one of the requests the lookup sent |
| `GitInfoRoute.Project` | app/routes/api.system.git-info.ts:66-95 | `local` is the fixed sentinels (`no-git-info` and six `unknown`s); `github` is null exactly when the info is; `currentRepo` copies full name, default branch, stars, forks and open issues; `upstream` copies the parent's four fields; `isForked` holds exactly when a parent is present, which is exactly when `upstream` is non-null |
| `GitInfoRoute.ProjectForgetsOnlyName` | app/routes/api.system.git-info.ts:76-95 | two metadata records project to the same response exactly when they differ at most in the short `name` |
| `GitInfoRoute.Loader` | app/routes/api.system.git-info.ts:63-97 | the loader's `github` block is present exactly when the single request to the fallback got an OK, parsable answer, and is then that answer's projection; otherwise `github` is null and `isForked` false |
| `ConvertEndings.SplitOn` | convert-endings.js:5-6 | `split('\n')` yields at least one piece, and no piece contains the separator |
| `ConvertEndings.SplitCount` | convert-endings.js:5-6 | there is exactly one more piece than there are separators |
| `ConvertEndings.JoinSplit` | convert-endings.js:6 | joining the pieces with the separator gives the input back |
| `ConvertEndings.SplitAfterLine` | convert-endings.js:5-6 | a separator-free line followed by the separator is split off as exactly one piece |
| `ConvertEndings.NonEmpty` | convert-endings.js:7 | `filter(Boolean)` keeps no empty string, is no longer than its input, and keeps exactly the non-empty strings of its input |
| `ConvertEndings.NonEmptyAppend` | convert-endings.js:7 | filtering distributes over concatenation, so the original order is kept |
| `ConvertEndings.NonEmptyCounts` | convert-endings.js:7 | every non-empty string occurs as often after filtering as before; the empty string not at all |
| `ConvertEndings.FileList` | convert-endings.js:5-7 | no file name is empty or contains a line feed; there are at most one more names than line feeds in the listing |
| `ConvertEndings.FileListOfListing` | convert-endings.js:5-7 | a listing that prints each non-empty, single-line name followed by a line feed reads back as exactly those names, in order |
| `ConvertEndings.ReplaceCrlf` | convert-endings.js:11 | the global replacement never lengthens its input; its exact effect is stated by the lemmas below |
| `ConvertEndings.ReplaceIsDrop` | convert-endings.js:11 | the single left-to-right pass equals deleting exactly the carriage returns that immediately precede a line feed, so every `"\r\n"` is replaced |
| `ConvertEndings.ReplaceLength` | convert-endings.js:11 | the output length is the input length minus the number of `"\r\n"` occurrences |
| `ConvertEndings.ReplaceCounts` | convert-endings.js:11 | every character other than `'\r'` occurs equally often in input and output; `'\r'` occurs once less per `"\r\n"` |
| `ConvertEndings.ReplaceKeepsLineFeeds` | convert-endings.js:11 | the number of line feeds is preserved |
| `ConvertEndings.ReplaceUnchangedIff` | convert-endings.js:11 | the output equals the input exactly when the input contains no `"\r\n"` |
| `ConvertEndings.ReplaceLeavesCrlfIff` | convert-endings.js:11 | the output contains `"\r\n"` exactly when the input contains `"\r\r\n"` |
| `ConvertEndings.ReplaceIdempotentIff` | convert-endings.js:11 | a second pass changes nothing exactly when the input contains no `"\r\r\n"` |
| `ConvertEndings.NotIdempotentExample` | convert-endings.js:11 | `"\r\r\n"` becomes `"\r\n"` and then `"\n"`: the pass is not idempotent |

## Left out

- The network call to the GitHub API is not modelled. It is an oracle parameter, and it answers the same request the same way.
- Reading `GITHUB_TOKEN` from the environment is not modelled. Its value is a parameter.
- Console logging, the `timestamp` field of the git-info response (taken from the clock) and the `async`/`await` scheduling are left out.
- Remix's `json(...)` response construction is not modelled. Responses are plain datatypes.
- `request.json()` itself is not modelled. Its outcome is an input: the parsed value or the thrown value.
- The HTTP method is compared as the given string. The request layer's normalisation of method names is not part of this model.
- JSON numbers are reals, so NaN is not represented. Truthiness and `typeof` are exact for every other value.
- A parsed array answers a property lookup only for `length`. Index keys are not modelled. The only key the route asks about is `branch`, which an array never has.
- `GitInfoRoute.GetGitHubInfo`: the parsed metadata is taken to have the declared `GitHubRepoInfo` shape. The source casts it without checking, so a differently shaped or `null` body is not modelled.
- The status text and the message of the error thrown for a non-OK answer are dropped. The source catches that error and returns `null`.
- The loop in convert-endings.js that reads, converts and writes each file is I/O and is left out. So are running the listing command and file reading and writing.
- remix.config.js, functions/_worker.js and functions/[[path]].ts are build and framework wiring with no logic, and are not part of this model.
- Commit classification, changelog synthesis, diff statistics, compare-URL building, dirty-tree checks and update staging do not exist in the code, so they are not modelled.
