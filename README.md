# File storage front end — list, name and session logic

The file-storage front end lets a user sign in with Internet Identity and upload
files into a per-principal namespace `/uploads/<principal>` of an asset canister.
It can also list, download and delete those files. This project models, in Dafny,
the logic the front end wraps around the DFINITY SDKs:

- **Listing.** Both views filter the canister's assets to the principal's prefix,
  sort them newest first by `encodings[0].modified`, and map each key to a table
  row. The home page (`pages/index.tsx`) shows the last `/`-segment. The upload
  panel (`src/components/DownloadFile.tsx`) splits the whole key on `-` into a
  timestamp and a file name.
- **Stored names.** The home page sanitises the name: split on `.`, pop the
  extension, lower-case, collapse `\W` runs, replace the first `_`, trim, and turn
  whitespace runs into `_`. The panel stores a file as `timestamp-name`.
- **Page state.** The two views hold `uploads`, `isUploading`, `progress` and the
  staged `file`. Their handlers (`upload`, `remove`, `logout`, `uploadFile`,
  `addFile`, `removeFile`, the listing effects) change these cells behind
  "logged in with an asset manager" guards, with `finally` resets.
- **Session.** The auth provider (`src/hooks/use-auth.hook.tsx`) runs
  `updateClient`, `login` and `logout` over `isLogin`, `authClient`,
  `assetManager` and `identity`. It picks the identity-provider URL and the agent
  host, and `useAuth` fails outside the provider.

The SDK calls are treated as inputs:

- `list()` is an `Option<seq<Asset>>`, where `None` means the promise rejected.
- `store` is a `Settled` key (or keys).
- `commit`, `delete` and `fetchRootKey` are each a `Completion`.
- `isAuthenticated()`/`getIdentity()` arrive together as a `Probe`.
- The clock is a `nat` and the Safari test a `bool`.

Each handler is one atomic step.

Modules, one per file:

- `Wrappers`: `Option`, `Settled`, `Completion`, `Result`.
- `JsArray`: `Array.prototype.filter`.
- `JsText`: the JavaScript string and number operations the code chains, over ASCII.
- `Uploads`: assets, the prefix filter, the stable newest-first sort, the upload path.
- `Session`: the auth hook.
- `HomePage`: `pages/index.tsx`.
- `DownloadFile`: `src/components/DownloadFile.tsx`.

The model follows the code where its behaviour is easy to misread:

- The panel parses the *whole* key, path included. A listed key such as
  `/uploads/abc/1-a.txt` gets the file name `a.txt`, and its timestamp is read
  from `/uploads/abc/1`, which gives `NaN` (`DownloadFile.ListedKeyExample`).
  Every listed key starts with `/`, so every listed row has a NaN timestamp
  (`DownloadFile.ListedRow`).
- There is no 1 GiB size check anywhere in the code. `addFile` stages the first
  chosen file whatever its size; a size ceiling appears only in a TODO comment.
- After `logout` in the auth hook, `updateClient` runs again unauthenticated. It
  keeps the previous asset manager rather than clearing it: `isLogin` becomes
  false, but `assetManager` stays.
- On the home page, an upload error that does not mention an unauthorised caller
  is rethrown after the `finally` block. It is not surfaced to the user. The
  upload path renders as `/uploads/undefined` when there is no principal.
- A rejected `list()` is not caught. The rows keep their previous value.

## Model

| member | source | states |
|---|---|---|
| JsText.Split | src/components/DownloadFile.tsx:55 | `split` on one character yields at least one piece and no piece contains the separator |
| JsText.JoinSplit | src/components/DownloadFile.tsx:55-59 | joining the pieces with the separator gives back the original string |
| JsText.Join | src/components/DownloadFile.tsx:59 | no contract of its own: `Array.prototype.join` (also at src/components/DownloadFile.tsx:93 and pages/index.tsx:162, 169); `JsText.JoinSplit` and `JsText.ConcatSplit` state what joining split pieces gives |
| JsText.SplitWithoutSeparator | pages/index.tsx:160-161 | a string without the separator splits into itself alone |
| JsText.SplitAround | src/components/DownloadFile.tsx:55 | splitting `a + sep + b` is splitting `a` and `b` independently |
| JsText.LastPiece | pages/index.tsx:83 | `split(sep).slice(-1)[0]` contains no separator |
| JsText.LastPieceAfterSeparator | pages/index.tsx:83 | the last piece of `a + sep + b` is `b` when `b` holds no separator |
| JsText.LastPieceIsSuffix | pages/index.tsx:83 | the last piece is a suffix of the string, preceded by the separator whenever it is shorter than the string |
| JsText.DropChar | src/components/DownloadFile.tsx:59 | the result has no occurrence of the character, is no longer, and is the input when the character is absent |
| JsText.ConcatSplit | src/components/DownloadFile.tsx:55-59 | `split(c).join("")` removes exactly the occurrences of `c` |
| JsText.StartsWith | pages/index.tsx:80 | no contract of its own: `startsWith` (also at src/components/DownloadFile.tsx:47); `Uploads.KeepOwned` states which assets it keeps |
| JsText.TemplateText | pages/index.tsx:171 | no contract of its own: `${v}` renders an absent value as `undefined`; `Uploads.UploadPath` and `Session.IdentityProvider` state the texts it gives |
| JsText.OrEmpty | pages/index.tsx:80 | no contract of its own: the empty-string fallback of the listing prefix, for an absent value; `Uploads.ListingPrefix` states that an absent principal gives the bare `/uploads/` prefix |
| JsText.Includes | pages/index.tsx:180 | `includes(sub)` holds exactly when `sub` occurs at some position |
| JsText.ToLowerCase | pages/index.tsx:163 | same length, no upper-case letter left, non-letters unchanged, each upper-case letter mapped to its lower-case letter |
| JsText.ReplaceRuns | pages/index.tsx:164-167 | a regular-expression run replacement: no longer than the input, empty iff the input is, the first character replaced exactly when it matches, no change when nothing matches, and no two adjacent replacements when the replacement itself matches |
| JsText.ReplaceRunsChars | pages/index.tsx:164-167 | each character of a run replacement is the replacement or a non-matching character of the input |
| JsText.ReplaceRunsKeepsOthers | pages/index.tsx:164-167 | apart from the replacement character, the output keeps exactly the input's non-matching characters, in their order |
| JsText.ReplaceRunsRun | pages/index.tsx:164-167 | a maximal run of matching characters becomes exactly one replacement character, and the text after it is replaced on its own |
| JsText.ReplaceFirst | pages/index.tsx:165 | a string-pattern `replace` changes only the position of the first occurrence and keeps the length |
| JsText.Trim | pages/index.tsx:166 | `trim` keeps the part after the leading whitespace that is followed only by whitespace; the result neither starts nor ends with whitespace and is the input when there is nothing to trim |
| JsText.ToNumber | src/components/DownloadFile.tsx:60 | unary `+` of the empty string is 0 |
| JsText.ToNumberNaN | src/components/DownloadFile.tsx:60 | unary `+` of a string with a non-digit character is NaN |
| JsText.NumberToString | src/components/DownloadFile.tsx:93 | the decimal form of a number is a non-empty digit string without a leading zero |
| JsText.NumberRoundTrip | src/components/DownloadFile.tsx:92-93 | reading back the decimal form of a number gives the number |
| Uploads.LastProgress | src/components/DownloadFile.tsx:100-102 | the value the progress cell ends with; `Uploads.AfterReportsIsLast` proves that the report-by-report `setProgress` calls leave it |
| Uploads.AfterReports | src/components/DownloadFile.tsx:100-102 | no contract of its own: one `setProgress(current / total)` per `onProgress` report, in order; `Uploads.AfterReportsIsLast` states its result |
| Uploads.AfterReportsIsLast | src/components/DownloadFile.tsx:100-102 | overwriting the cell once per report leaves the last report's `(current, total)` pair, and the starting value when no report arrived |
| JsArray.Filter | pages/index.tsx:80 | `filter` keeps only elements meeting the predicate and never grows |
| JsArray.FilterCounts | pages/index.tsx:80 | `filter` keeps every copy of a kept element and drops every copy of the others |
| JsArray.FilterAppend | pages/index.tsx:207 | `filter` distributes over concatenation, so relative order is preserved |
| JsArray.FilterKeepsAll | pages/index.tsx:207 | filtering with a predicate every element meets changes nothing |
| Uploads.ListingPrefix | pages/index.tsx:80 | the listing prefix `/uploads/${principal?.toString() || ''}` starts with `/uploads/`, and is exactly `/uploads/` when there is no principal |
| Uploads.UploadPath | pages/index.tsx:171 | the store path `/uploads/${principal?.toString()}` starts with `/uploads/`, and is `/uploads/undefined` when there is no principal |
| Uploads.UploadedKeyIsListed | pages/index.tsx:171 | every key stored under a principal's upload path starts with that principal's listing prefix (line 80), so what is uploaded is listed again |
| Uploads.KeepOwned | pages/index.tsx:80 | the owned assets are exactly the assets whose key starts with the prefix, with their multiplicities |
| Uploads.ListingPrefixWidens | pages/index.tsx:80 | with no trailing slash, a key listed for a principal is also listed for every prefix of that principal and for an absent principal |
| Uploads.WithoutKey | pages/index.tsx:207 | the removal filter of both views (here and src/components/DownloadFile.tsx:131): every row with the key goes, every other row stays with its multiplicity; nothing changes when no row has the key |
| Uploads.WithoutKeyAppend | pages/index.tsx:207 | removal works on each part of a list separately, so the kept rows stay in their order |
| Uploads.InsertByRecency | pages/index.tsx:81 | inserting adds exactly the element, with its multiplicity, and nothing else |
| Uploads.InsertKeepsNewestFirst | pages/index.tsx:81 | inserting into a newest-first sequence keeps it newest first |
| Uploads.SortByRecency | pages/index.tsx:81 | the comparator sort yields a permutation ordered non-increasingly by `modified` |
| Uploads.InsertKeepsTies | pages/index.tsx:81 | insertion keeps the relative order of the elements sharing one `modified` value |
| Uploads.SortIsStable | pages/index.tsx:81 | the sort is stable: assets with equal `modified` keep their input order |
| Session.IsLocal | src/hooks/use-auth.hook.tsx:13 | no contract of its own: local unless `DFX_NETWORK` is `ic`, an unset network included; `Session.HostFollowsNetwork` and `Session.TrustedAgent` state what follows from it |
| Session.CanisterId | src/hooks/use-auth.hook.tsx:14 | no contract of its own: `CANISTER_ID`, or the empty string when it is unset; `Session.AuthProvider.Valid` requires every asset manager to be built with it |
| Session.AgentHost | src/hooks/use-auth.hook.tsx:50-52 | no contract of its own: `Session.HostFollowsNetwork` states which host each network gives |
| Session.HostFollowsNetwork | src/hooks/use-auth.hook.tsx:49-52 | the agent host is `https://ic0.app` exactly when `DFX_NETWORK` is `ic`, and `http://127.0.0.1:<port>` when local |
| Session.IdentityProvider | src/hooks/use-auth.hook.tsx:80-88 | the provider URL is `https://identity.ic0.app` exactly when not local, the `localhost:4943/?canisterId=` form on local Safari, and the `<II>.localhost:4943` form otherwise |
| Session.TrustedAgent | src/hooks/use-auth.hook.tsx:49-58 | an agent ready for the asset manager has its root key fetched exactly when local, and uses the network's host and the identity |
| Session.ManagerFor | src/hooks/use-auth.hook.tsx:60 | no contract of its own: `new AssetManager({ canisterId, agent })` with the trusted agent; `Session.TrustedAgent` states the agent's host, identity and root key, and `Session.AuthProvider.ValuesWhileLoggedIn` that the logged-in provider publishes it |
| Session.PrincipalOf | src/components/DownloadFile.tsx:48 | `identity?.getPrincipal().toString()` is present exactly when the identity is, and is its principal |
| Session.UseAuth | src/hooks/use-auth.hook.tsx:113-121 | `useAuth` throws the missing-provider message exactly when there is no context value, and otherwise returns it |
| Session.AuthProvider.Values | src/hooks/use-auth.hook.tsx:105-106 | no contract of its own: the published context value `{ isLogin, identity, assetManager }`; `Session.AuthProvider.ValuesWhileLoggedIn` states what it holds while logged in |
| Session.AuthProvider.ValuesWhileLoggedIn | src/hooks/use-auth.hook.tsx:43-70 | under the provider's invariant, a logged-in context value holds an identity and the asset manager built for that identity, so the provider never publishes "logged in without an asset manager" |
| Session.AuthProvider.constructor | src/hooks/use-auth.hook.tsx:33-36 | the provider starts logged out with no client, asset manager or identity |
| Session.AuthProvider.UpdateClient | src/hooks/use-auth.hook.tsx:43-70 | completes unless the local root-key fetch rejects; then `isLogin` and `identity` follow the client, and a new asset manager is installed only when authenticated, the old one otherwise kept; a rejected call changes nothing; the session invariant is kept |
| Session.AuthProvider.Login | src/hooks/use-auth.hook.tsx:72-95 | nothing without an auth client; otherwise the selected provider is used and a successful sign-in runs `updateClient` |
| Session.AuthProvider.Logout | src/hooks/use-auth.hook.tsx:97-102 | nothing without an auth client or when `authClient.logout()` rejects; otherwise the state is what `updateClient` leaves after logging out, and the old asset manager stays |
| HomePage.ListUploads | pages/index.tsx:78-87 | the rows are, in order, the display records of a newest-first permutation of exactly the assets under the principal's prefix |
| HomePage.ToUpload | pages/index.tsx:82-85 | no contract of its own: the display record of an asset; `HomePage.UploadRowShape` states that it keeps the key and takes its last `/`-segment as the file name |
| HomePage.ListedRow | pages/index.tsx:80-85 | every row is the display record of an input asset whose key starts with the prefix |
| HomePage.UploadRowShape | pages/index.tsx:82-85 | a row keeps its key, and its file name is the key's last `/`-segment: a slash-free suffix preceded by `/` |
| HomePage.CollapsedWordsChars | pages/index.tsx:163-164 | after lower-casing and collapsing `\W` runs only spaces and `[a-z0-9_]` remain |
| HomePage.TrimKeepsSpacedStoredName | pages/index.tsx:166 | trimming keeps that character set |
| HomePage.UnderscoredChars | pages/index.tsx:167 | turning whitespace runs into `_` leaves only `[a-z0-9_]` |
| HomePage.SanitizeBase | pages/index.tsx:162-167 | the sanitised base holds only `[a-z0-9_]`, and an empty base stays empty; its value is stated by the lemmas below |
| HomePage.SanitizeBaseKeepsPlain | pages/index.tsx:162-167 | a non-empty base made of `[a-z0-9]` passes through every stage unchanged |
| HomePage.SanitizeBaseDropsLeadingUnderscore | pages/index.tsx:165-166 | a leading `_` before such a base is turned into a space by `.replace('_', ' ')` and removed by `trim` |
| HomePage.SanitizeName | pages/index.tsx:160-169 | no contract of its own: the split, pop, join and sanitise chain; `SanitizeNameParts`, `SanitizeNameShape`, `SanitizeKeepsExtension`, `SanitizeNameWithoutDot` and `SanitizeNameKeepsPlain` state what it gives |
| HomePage.SanitizeNameParts | pages/index.tsx:160-169 | the stored name is the sanitised base, a `.`, and the popped extension |
| HomePage.SanitizeNameShape | pages/index.tsx:160-169 | the stored name ends with `.` and the original extension verbatim, and everything before that `.` is in `[a-z0-9_]` |
| HomePage.DottedShape | pages/index.tsx:169 | `[base, ext].join('.')` ends with `.` + `ext` and keeps the base's characters before it |
| HomePage.SanitizeKeepsExtension | pages/index.tsx:160-169 | the stored name's extension is the original's |
| HomePage.SanitizeNameWithoutDot | pages/index.tsx:160-169 | a name without `.` becomes `.` followed by the whole name |
| HomePage.SanitizeNameKeepsPlain | pages/index.tsx:160-169 | a name such as `report.pdf`, a `[a-z0-9]` base and a dot-free extension, is stored unchanged |
| HomePage.StoreRequests | pages/index.tsx:159-171 | one store request per chosen file, in order, under the upload path with that file's sanitised name |
| HomePage.NewRows | pages/index.tsx:171-173 | one row per chosen file, pairing the key `store` returned with the sanitised name |
| HomePage.FailureOutcome | pages/index.tsx:179-184 | an error is turned into the alert exactly when its message includes `Caller is not authorized`, and is rethrown otherwise |
| HomePage.Home.AssetManagerOf | pages/index.tsx:63-69 | there is an asset manager exactly when there is an agent, built from that agent and the configured canister |
| HomePage.Home.constructor | pages/index.tsx:55-61 | the page starts logged out, not uploading, with no client, principal, agent or rows |
| HomePage.Home.UpdateClient | pages/index.tsx:90-110 | this page's `updateClient` always builds a trusted agent and records client, principal and login flag, unless the local root-key fetch rejects, which changes nothing |
| HomePage.Home.Login | pages/index.tsx:112-132 | nothing without an auth client; otherwise the selected provider is used and a successful sign-in runs `updateClient` |
| HomePage.Home.Logout | pages/index.tsx:134-141 | with a client, runs `updateClient` once `authClient.logout()` completes; clears the progress cell, except when `authClient.logout()` or that `updateClient` rejected, which change nothing |
| HomePage.Home.Refresh | pages/index.tsx:75-88 | logged in with an asset manager, the rows become the listing of the resolved assets; otherwise, or on a rejected list, they are left as they were |
| HomePage.Home.Upload | pages/index.tsx:143-189 | no-op unless logged in with an asset manager and a file list arrived; then one store request per file under `/uploads/<principal>` with the sanitised name, the new rows before the old ones on commit, the alert-or-rethrow outcome on failure, and `progress` undefined and `isUploading` false on every path |
| HomePage.Home.Remove | pages/index.tsx:204-209 | deletes only when logged in with an asset manager, and drops exactly the rows with the key once the delete completes |
| DownloadFile.ParseKey | src/components/DownloadFile.tsx:55-61 | no contract of its own: `ParseKeyAtFirstHyphen`, `ParseKeyWithoutHyphen`, `PathKeyHasNoTimestamp` and `StoredNameParses` state what it gives |
| DownloadFile.ParseKeyAtFirstHyphen | src/components/DownloadFile.tsx:55-61 | a key parses at its first `-`: the timestamp is the number before it, the file name everything after it with every further `-` dropped |
| DownloadFile.ParseKeyWithoutHyphen | src/components/DownloadFile.tsx:55-61 | a key without `-` has an empty file name and is read whole as the timestamp |
| DownloadFile.StoredName | src/components/DownloadFile.tsx:92-93 | no contract of its own: `[timestamp, file.name].join("-")`; `DownloadFile.StoredNameParses` states that the panel's parser reads it back |
| DownloadFile.StoredNameParses | src/components/DownloadFile.tsx:92-93 | a bare `timestamp-name` parses back to the timestamp and the name without its hyphens |
| DownloadFile.PathKeyHasNoTimestamp | src/components/DownloadFile.tsx:55-60 | a key starting with `/` has a NaN timestamp |
| DownloadFile.ListedKeyExample | src/components/DownloadFile.tsx:54-62 | `/uploads/abc/1-a.txt` lists as file name `a.txt` with a NaN timestamp |
| DownloadFile.ListDownloads | src/components/DownloadFile.tsx:42-64 | the rows are, in order, the parsed keys of a newest-first permutation of exactly the assets under the principal's prefix |
| DownloadFile.ListedRow | src/components/DownloadFile.tsx:46-62 | every row's key is an input asset's key under the prefix, and every row's timestamp is NaN |
| DownloadFile.DownloadFileView.constructor | src/components/DownloadFile.tsx:34-37 | no staged file, progress 0, no rows, not uploading |
| DownloadFile.DownloadFileView.Refresh | src/components/DownloadFile.tsx:39-69 | logged out, the rows are cleared whatever they held; logged in with an asset manager, they become the listing; otherwise they stay |
| DownloadFile.DownloadFileView.AddFile | src/components/DownloadFile.tsx:71-82 | stages the first chosen file only when at least one was chosen, else the staged file is unchanged |
| DownloadFile.DownloadFileView.ClearFile | src/components/DownloadFile.tsx:150 | the clear button unstages the file and changes nothing else |
| DownloadFile.DownloadFileView.UploadFile | src/components/DownloadFile.tsx:84-115 | no-op unless an asset manager, a login and a staged file exist; then stores `timestamp-name` under `/uploads/<principal>`, sets the progress cell once per commit report (it ends on the last one), puts the new row first on commit, swallows errors, and clears `isUploading` and the staged file on every path |
| DownloadFile.DownloadFileView.RemoveFile | src/components/DownloadFile.tsx:128-133 | deletes only when logged in with an asset manager, and drops exactly the rows with the key once the delete completes |

## Left out

- Rendering: the JSX, MUI components, `CircularProgressWithLabel`, the tables, and `src/components/Navigation.tsx`. This is UI only.
- Configuration: `next.config.mjs` and `pages/_app.tsx`. These are build settings and provider wiring.
- SDK internals: `AuthClient`, `HttpAgent`, `AssetManager.list/batch/store/commit/delete` and `fetchRootKey` are foreign network calls. Their outcomes are parameters. `HttpAgent.create` on the home page is taken to always succeed.
- The mount effects (`AuthClient.create().then(updateClient)`). These are `UpdateClient` with the created client.
- Async interleaving: `Promise.all` ordering, effect scheduling and out-of-order list responses. Each handler is one atomic step, so stale responses are not modelled.
- Progress values: `current / total` is floating point. `Progress` keeps the last report as the pair `Ratio(current, total)`, or `Zero`/`Undefined`.
- `Uploads.LastProgress`: keeps the pair of the last report, not its quotient. A `{current: 0}` report puts the number 0 back in the program's cell and a `total` of 0 puts NaN there; the model records both as `Ratio`, distinct from the initial `Zero`.
- Display: `Math.round` and `toISOString` are display-only floating-point work.
- DOM plumbing: the file input in `addFile`/`upload` and the anchor-click `download`/`downloadFile` handlers are I/O. A chosen file arrives as its name and size.
- `console.log` calls are I/O with no effect on state.
- `new Date().getTime()` is a `nat` parameter.
- The Safari user-agent regular expression is a `bool` parameter.
- `JsText.ToLowerCase`: maps only ASCII `A`–`Z`, not full Unicode case mapping.
- `JsText.Trim`: strips only ASCII whitespace, not U+00A0, U+FEFF, U+2028/2029 and the other Unicode spaces JavaScript's `trim` also strips. At pages/index.tsx:166 its input holds only `[a-z0-9_ ]`, so this changes nothing there.
- `JsText.ReplaceRuns`: `\W` and `\s` are their ASCII forms. `\s` is space, tab, line feed, carriage return, vertical tab and form feed.
- `JsText.ToNumber`: parses plain decimal digit strings only, without surrounding whitespace, signs, fractions, exponents, hexadecimal or `Infinity`. Every other string is NaN. A JavaScript number is a double: digit strings above 2^53 round to the nearest double and very long ones (beyond about 309 digits) give `Infinity`, while the model keeps the exact value. Listed keys parse as NaN and `getTime()` stays below 2^53, so no value the program parses reaches these.
- `JsText.NumberToString`: gives plain decimal digits, without the exponent form JavaScript uses from 10^21 upwards.
- `HomePage.Home.Upload`: requires one returned key per chosen file. This mirrors `Promise.all` resolving with one result per file.
- `HomePage.Home.Upload`: assumes the commit's progress reports are overwritten by the `finally` reset, so they are not parameters.
- Assets without encodings: `encodings[0]` is assumed to exist, and `modified` is its integer value.
