# Verification model of the Synapse CLI and dashboard logic

A Dafny model of the parts of Synapse whose correctness is not visible from one function body: the
`.env.local` rewriter and the guard around `npx convex`, the dashboard's silent token refresh, the
CLI's paginated listing under token expiry, the CSV export of the audit log, the upgrade dialog, and
five small algorithms. `dafny verify dfyconfig.toml` checks all of it.

## What is modelled

**`.env.local` (`cli/lib/env-file.js`, `cli/lib/convex.js`, `cli/lib/commands/convex.js`).**
`JsText` holds the JavaScript string operations, `EnvLine` the line level: quoting, unquoting, the key
pattern (a scanner proved equal to a grammar), the commented deployment line. Both writers,
`updateEnvContent` and `reassertPublicConvexUrls`, are one line rewriter with different rules
(`EnvRules`), whose effect on the parsed environment, on line counts and on unowned lines is proved once
(`EnvRewrite`). `EnvFile` has the source's loops, each equal to a specification function; `EnvUpdate`,
`EnvPromises`, `EnvStability` and `EnvMultiline` say what the written file parses to, how it is laid out and
when another run changes it; `EnvName` and `EnvLate` follow the lines that a deployment name with line breaks adds. `EnvGuard`
models whole `npx convex` runs: any interleaving of writes by the child, watch events that succeed or fail, and the
child's exit. `EnvReassert` says what a re-assertion does to the text. `ConvexEnv` is the environment of the child.

**Silent refresh (`dashboard/lib/api.ts`).** N requests, the module-level promise, the stored bundle, the
refresh POSTs and the server's current refresh token, as interleaved atomic steps. Replies may be refused,
lost, or lost after the server has rotated the token. The step from "the POST settles" to "the starter nulls the
promise" may be interleaved with anything, which allows more runs than a browser does.

**Paginated listing (`cli/lib/api.js`, `cli/lib/commands/_context.js`).** The network is an oracle that decides
every single request by its number and token, so a token can expire before any page.

**Audit CSV (`dashboard/components/AuditLogView.tsx`).** The printer against a reader written from section 2
of RFC 4180, with LF as the record separator; `strict` readers also refuse a CR outside quotes.

**Upgrade dialog (`dashboard/components/UpdateBanner.tsx`).** State, marker, clock, and every status request
and upgrade POST still in flight, over closing, reopening, reloading, replacing the dialog and replies in any order.

**Small algorithms.** Flag parsing (`Flags`), redaction (`Redaction`), topology grouping (`Topology`), activity
bursts (`ActivityBursts`), the longest-zone search (`ZoneMatch`).

## Where the code and its own words differ

The model follows the code. Each of these has a lemma.

- A comment in `env-file.js` calls `updateEnvContent` idempotent on rewrites. It is not on every file: an unowned line ending in CR
  loses one CR per run, and dropping a repeated managed line can expose a blank last line (`EnvStability.SecondRunExact`,
  `EnvStability.SecondRunCanChange`); with a one-line name every file settles (`EnvStability.EveryFileSettles`).
- The guard is called loop-safe. It is exactly when the URLs contain no backslash, quote or newline; otherwise
  every watch event rewrites the file again once it has drifted (`EnvGuard.LoopSafeExactly`, `EnvGuard.EscapedUrlsPingPong`).
- `reassertPublicConvexUrls` is said to leave the rest of the file byte for byte. It does so exactly when it writes
  nothing or the file is tidy (`EnvReassert.ChangesOnlyUrlsExactly`); a write to any other file turns CRLF into LF
  (`EnvReassert.CrlfIsNotKept`, `EnvReassert.WindowsCommentIsRewritten`), collapses repeated lines, appends missing ones
  or rewrites lines that assign an inherited name. What every other variable holds is kept
  (`EnvGuard.GuardKeepsTheRest`).
- `quoteEnvValue` and `unquoteEnvValue` are inverse exactly on values without backslash, quote and newline
  (`EnvLine.QuoteRoundTripExact`, `EnvLine.BackslashIsDoubled`).
- The later lines of a deployment name with newlines in it are lines of the file (`EnvName.ParseOfUpdated`,
  `EnvMultiline.LaterLineOfNameAssigns`), and such a file may never settle
  (`EnvMultiline.MultilineNameNeverSettles`). What the file parses to is stated for every name.
- `assignments[key]` and `want[key]` also find the names every object inherits, so lines that assign `constructor`,
  `toString` and so on are claimed by both writers. The model includes them, with the text V8 gives for such a member
  (`EnvPromises.UpdatedEnvironment`, `EnvGuard.ReassertedEnvironment`, `EnvGuard.InheritedNameIsLost`).
- After a refresh that worked, an error of the retried request other than 401 still ends the session
  (`SilentRefresh.ServerErrorEndsSession`), and a refresh reply that arrives later brings it back
  (`SilentRefresh.LateReplyRestoresSession`).
- The CSV printer does not quote a field whose only special character is CR (`AuditCsv.CsvRoundTripExact`,
  `AuditCsv.BareCRIsRefused`).
- A dialog can poll with no marker set, even when replies are handled in the order of their requests, and then an idle
  updater holds it past 30 minutes (`UpgradeDialog.InOrderRepliesCanSlip`, `UpgradeDialog.MarkerlessPollingIsForever`).
- A topology with a host listed twice prints that host's cells twice (`Topology.PrintsEveryCellOnceExactly`,
  `Topology.RepeatedHostRepeatsItsCell`).

## Assumptions

- Refresh: one tab, no login while requests run, a successful refresh reply carries a new access and a new refresh
  token. Tokens are numbered in the order the server issues them.
- Upgrade dialog: while the page is open only this code writes the marker, and the clock does not run backwards.
- A listing's cursors are distinct, so the chain ends; each request's fate is arbitrary.
- `toLowerCase`, `Date.parse` and `JSON.stringify` are parameters or already-computed texts. `lower` may be any function.
- The child of `npx convex` lays `.env.local` under its own environment, reading it as `parseEnvContent` does.

## Model

| member | source | states |
|---|---|---|
| EnvLine.ThreePassesAreOneEscape | cli/lib/env-file.js:58-60 | The three replace passes equal one escape per character; no pass rewrites another's output |
| EnvLine.EscapeIsInjective | cli/lib/env-file.js:58-60 | A decoder undoes the escape on every value |
| EnvLine.QuoteRoundTripExact | cli/lib/env-file.js:58-100 | Unquoting a quoted value gives it back iff it has no backslash, quote or LF |
| EnvLine.BackslashIsDoubled | cli/lib/env-file.js:58-100 | One backslash comes back as two |
| EnvLine.KeyFromLineExact | cli/lib/env-file.js:66-69 | The scanner finds a key iff the line splits as the regular expression's grammar says, with that key |
| EnvLine.ParseLineIffKey | cli/lib/env-file.js:104-117 | A line assigns iff it has a key, and it assigns that key |
| EnvLine.LabelStaysInComment | cli/lib/env-file.js:86-89 | A team or project label never breaks its line or opens another comment |
| EnvLine.BreaksBecomeOneSpace | cli/lib/env-file.js:86-89 | A run of line breaks inside a label becomes one space |
| EnvLine.PlainLabelIsKept | cli/lib/env-file.js:86-89 | A trimmed label without breaks and hash signs is kept as it is |
| EnvLine.DeploymentLineIsInert | cli/lib/env-file.js:141-151 | The deployment line is recognised as one, assigns nothing, and is one line iff the name is |
| EnvLine.DeploymentLineUncommented | cli/lib/env-file.js:141-151 | Taken out of its comment, the line assigns `prod:` or `dev:`, the name, then the labels |
| EnvLine.LabelsRead | cli/lib/env-file.js:141-151 | The exact text of the line with a team, a project, both and neither |
| EnvLine.NameGoesBeforeSlug | cli/lib/env-file.js:144-145 | The label is the name; the slug counts only without one |
| EnvLine.UnquoteExactly | cli/lib/env-file.js:91-100 | Quotes of either kind are taken off in pairs, and a lone one is empty |
| EnvLine.BareValueStays | cli/lib/env-file.js:91-100 | Any other trimmed value, with a quote at one end only too, stays as it is |
| EnvLine.SpacesAreDropped | cli/lib/env-file.js:91-93 | White space around a value is no part of it |
| EnvRewrite.ParseEnvContent | cli/lib/env-file.js:102-119 | The parsing loop equals the line-by-line fold, blank and comment lines and `__proto__` included |
| EnvRewrite.RewriteEffect | cli/lib/env-file.js:182-214 | After a rewrite the parsed environment is canonical at the slots and untouched elsewhere |
| EnvRewrite.OneLinePerSlot | cli/lib/env-file.js:204-212 | A rewrite leaves exactly one line for each slot it found whose canonical line assigns it again, and none for any other: an inherited name, in `updateEnvContent`, keeps none |
| EnvRewrite.UnownedLinesSurvive | cli/lib/env-file.js:182-214 | Unowned lines survive in order on every input; each inherited name adds one line among them, and without one they are unchanged |
| EnvRewrite.PlacesWithin | cli/lib/env-file.js:182-214 | In order means at increasing places of the output |
| EnvFile.PopTrailingBlanks | cli/lib/env-file.js:160-162 | Trailing empty lines are dropped |
| EnvFile.TextIsItsLines | cli/lib/env-file.js:158-162 | Joined lines are read back, with any number of blank lines after the last |
| EnvFile.RewriteLines | cli/lib/env-file.js:178-214 | The loop writes the rules' rewrite of the lines and has seen exactly the slots of the lines |
| EnvFile.MissingPublicLines | cli/lib/env-file.js:220-232 | The public lines to append are those of the slots not found |
| EnvFile.MissingAuthLines | cli/lib/env-file.js:234-242 | The self-hosted lines to append are those of the slots not found |
| EnvFile.AppendSections | cli/lib/env-file.js:244-255 | The two sections with their headers and blank lines |
| EnvFile.UpdateEnvContent | cli/lib/env-file.js:153-258 | Equals `UpdatedText`, or refuses exactly when URL or admin key is missing |
| EnvUpdate.RewriteIsBody | cli/lib/env-file.js:178-257 | The whole rewrite is one pass over the input followed by the block it appends |
| EnvUpdate.UpdatedLines | cli/lib/env-file.js:257 | For any name, the written file splits into the lines its entries spread to, less a CR each |
| EnvName.DeploymentEntry | cli/lib/env-file.js:192-232 | A named rewrite writes the deployment line exactly once, and every other entry is one line |
| EnvName.DeploymentLines | cli/lib/env-file.js:141-151 | For any name, the deployment line is one inert deployment line followed by the name's later lines |
| EnvName.ParseOfUpdated | cli/lib/env-file.js:153-258 | The written file parses to its entries, but for keys that the name's later lines assign and nothing after them |
| EnvLate.LateExactly | cli/lib/env-file.js:182-255 | Which keys are written after the deployment line, read off the input: managed ones not assigned before it and others assigned after it; without one, the self-hosted keys that are missing |
| EnvPromises.UpdatedEnvironment | cli/lib/env-file.js:153-258 | For every key and any name, what the written file parses to |
| EnvPromises.ManagedReadBack | cli/lib/env-file.js:164-176 | With a one-line name, what each of the four managed variables reads: the site URL where there is one, else the cloud URL; exact values when they need no escaping |
| EnvPromises.MapUpdateExact | cli/lib/env-file.js:153-258 | For any name, the rewriter is a map update of the four managed keys, less CONVEX_DEPLOYMENT when named, iff every key passes a check of its own |
| EnvPromises.PlainMapUpdateExact | cli/lib/env-file.js:153-258 | With a one-line name it is iff no value needs escaping and no key is inherited |
| EnvMultiline.LaterLineOfNameAssigns | cli/lib/env-file.js:141-151 | An assignment on any later line of the deployment name, the last included, becomes a variable, whatever the file |
| EnvMultiline.LaterLineIsNoMapUpdate | cli/lib/env-file.js:141-258 | A key the name decides, at another value than the file had, makes the file no map update |
| EnvMultiline.TwoLineNameIsNoMapUpdate | cli/lib/env-file.js:141-258 | The name `prod-x`, line feed, `A=1` on a new file is a concrete case |
| EnvMultiline.MultilineNameNeverSettles | cli/lib/env-file.js:192-232 | If a later line of the name is unowned, not blank and without CR, every run changes the file again |
| EnvStability.UpdatedLayout | cli/lib/env-file.js:178-257 | For any name, one line per managed slot plus those the name adds; the other lines are the input's in order plus the appended block iff no line assigns an inherited name and the name adds no line of its own |
| EnvStability.SecondRunExact | cli/lib/env-file.js:153-258 | Iff-condition under which a second run changes nothing |
| EnvStability.LaterRunExact | cli/lib/env-file.js:153-258 | For every n > 0, run n + 2 changes nothing iff no unowned line of the input ends in n + 1 CRs |
| EnvStability.EveryFileSettles | cli/lib/env-file.js:153-258 | After more runs than the longest line has characters, nothing changes any more |
| EnvStability.FreshFileLayout | cli/lib/env-file.js:1-14 | The lines of a file the CLI creates, in the order its header comment documents |
| EnvStability.ForeignFileLayout | cli/lib/env-file.js:216-255 | Behind a file of the user's own lines come both sections, each after a blank line |
| EnvStability.HalfOwnedLayout | cli/lib/env-file.js:216-255 | A file with one half of the managed lines gets the other half's section alone, after a blank line |
| EnvStability.FreshFileIsStable | cli/lib/env-file.js:216-257 | A file the CLI created is left alone by the next run |
| EnvStability.SecondRunCanChange | cli/lib/env-file.js:160-212 | A family of files on which a second run does change something |
| EnvGuard.EnvSession.constructor | cli/lib/env-file.js:369-376 | Watches exactly when there are credentials with a URL and a file |
| EnvGuard.EnvSession.Reassert | cli/lib/env-file.js:307-355 | Writes exactly when an existing file has drifted, and then the re-asserted text |
| EnvGuard.EnvSession.OnUpstreamWrite | cli/lib/commands/convex.js:138-146 | The child may replace or remove the file while it runs |
| EnvGuard.EnvSession.OnWatchEvent | cli/lib/env-file.js:376-383 | A watch event re-asserts, or fails without effect |
| EnvGuard.EnvSession.OnChildExit | cli/lib/commands/convex.js:147-155 | The guard is stopped before the final re-assertion |
| EnvGuard.RewritePublicLines | cli/lib/env-file.js:328-351 | The loop and the appended lines equal the re-asserted lines |
| EnvGuard.ReassertedEnvironment | cli/lib/env-file.js:307-355 | For every key, what a re-asserted file parses to |
| EnvGuard.ReassertedReadBack | cli/lib/env-file.js:317-322 | The two URLs a re-asserted file reads: the site URL where there is one, else the cloud URL |
| EnvGuard.LeftAloneExactly | cli/lib/env-file.js:307-326 | An existing file is not written iff there is no URL or both variables read those values already |
| EnvGuard.ReassertConvergesExactly | cli/lib/env-file.js:299-304 | After a write nothing has drifted iff the URLs need no escaping |
| EnvReassert.ReassertedLayout | cli/lib/env-file.js:328-353 | In the re-asserted text each wanted key and each inherited name assigned has one line; the other lines are the input's in order less one CR each, with the blanks at the end replaced when a key was missing |
| EnvReassert.WrittenTextExactly | cli/lib/env-file.js:328-353 | The text that would be written differs from the input only in the two URLs' lines iff each URL has one line, no slot repeats, and every other line has no CRLF and is no other spelling of an inherited name |
| EnvReassert.ChangesOnlyUrlsExactly | cli/lib/env-file.js:307-355 | One re-assertion changes the file only in those lines iff it does not write at all, or the file is as just described |
| EnvReassert.CrlfIsNotKept | cli/lib/env-file.js:324-330 | Whenever it writes, a line ended by CRLF, other than the two, is rewritten |
| EnvReassert.WindowsCommentIsRewritten | cli/lib/env-file.js:283-285 | A drifted file with both URL lines keeps its comment ended by LF, and not the same comment ended by CRLF |
| EnvGuard.UpdatedFileNeedsNoReassert | cli/lib/env-file.js:307-326 | After `updateEnvContent` with the same credentials and any name, re-asserting is a no-op iff both URLs read back; with a one-line name iff they need no escaping |
| EnvGuard.GuardWritesBounded | cli/lib/env-file.js:357-398 | With URLs that need no escaping, in every run the guard writes at most once more than the child |
| EnvGuard.EscapedUrlsPingPong | cli/lib/env-file.js:365-367 | With a URL that needs escaping and a file that has drifted, n events cause n writes |
| EnvGuard.LoopSafeExactly | cli/lib/env-file.js:365-367 | Loop safety holds for all runs iff the URLs need no escaping or there are none |
| EnvGuard.FinalFileExactly | cli/lib/commands/convex.js:142-155 | After a successful final assertion an existing file holds both URLs iff they need no escaping or nothing had drifted |
| EnvGuard.WatchEventExactly | cli/lib/env-file.js:376-383 | At every point of every run a watched event that succeeds restores both URLs iff they need no escaping or nothing had drifted; otherwise nothing changes |
| EnvGuard.ChildExitExactly | cli/lib/commands/convex.js:147-155 | The exit stops the guard; a final assertion that succeeds restores both URLs iff they need no escaping or nothing had drifted, a failed one changes nothing |
| EnvGuard.OtherVariablesRead | cli/lib/env-file.js:299-304 | At every point of every run each variable but the two URLs, and but the values of inherited names, reads as in the child's last text |
| EnvGuard.WatchingMeansUrl | cli/lib/env-file.js:369-398 | In every run the guard watches iff there was a URL and a file at the start and the child has not exited |
| EnvGuard.GuardKeepsTheRest | cli/lib/env-file.js:299-304 | At every point of every run the file exists iff the child's last text does, and reads as that text in every variable but the two URLs, inherited names being assigned alike |
| EnvGuard.InheritedNameIsLost | cli/lib/env-file.js:204-212 | A file that assigns `constructor`: the rewrite loses it, a re-assertion overwrites it |
| ConvexEnv.BuildConvexEnv | cli/lib/convex.js:14-30 | The loops equal `SpawnEnv` |
| ConvexEnv.SpawnEnvExact | cli/lib/convex.js:4-30 | Where each variable comes from: fresh credentials, then process, then file; CONVEX_DEPLOYMENT from the process unless both are set, else gone |
| ConvexEnv.ChildReads | cli/lib/convex.js:14-30 | What the child reads: the two self-hosted variables from credentials, process and file in this order, passing over empty ones; others from process, then file |
| ConvexEnv.SelfHostedFile | cli/lib/convex.js:14-30 | A file with both self-hosted variables decides the mode of the child |
| ConvexEnv.ModesNeverMix | cli/lib/env-file.js:129-151 | After a rewrite with any name that empties neither variable, the child is self-hosted, and Convex's other mode is active too iff the name assigns a deployment, or none was named and the file assigned one |
| SilentRefresh.Tab.Fetch | dashboard/lib/api.ts:1303-1321 | A send carries the token stored at that moment |
| SilentRefresh.Tab.ClearAuth | dashboard/lib/api.ts:1339-1358 | The session is cleared and the request fails |
| SilentRefresh.Tab.RefreshAccessToken | dashboard/lib/api.ts:1232-1246 | Join, give up, or start, and the new state of each |
| SilentRefresh.Tab.HandleAnswer | dashboard/lib/api.ts:1323-1341 | The new state after each answer to a first send and to a retry |
| SilentRefresh.Tab.HandleRefreshReply | dashboard/lib/api.ts:1247-1282 | The bundle is saved, or the refresh has failed |
| SilentRefresh.Tab.ContinueWaiter | dashboard/lib/api.ts:1285-1340 | The starter nulls the promise; each waiter retries or clears |
| SilentRefresh.StepKeepsInv | dashboard/lib/api.ts:1210-1358 | Every step keeps the protocol's invariant |
| SilentRefresh.SingleFlight | dashboard/lib/api.ts:1210-1224 | In every reachable state at most one refresh is in flight, and with none the stored refresh token is the server's current one |
| SilentRefresh.NoZombiePromise | dashboard/lib/api.ts:1219-1292 | A promise implies its starter still waits; once all requests are answered there is none |
| SilentRefresh.TokensAreSingleUse | dashboard/lib/api.ts:1219-1246 | Every posted refresh token is the server's current one at that moment and was never posted before |
| SilentRefresh.TwoSendsOneRefresh | dashboard/lib/api.ts:1298-1341 | At most two sends and one refresh per request |
| SilentRefresh.PostsExactly | dashboard/lib/api.ts:1232-1323 | A step posts a refresh iff it is a 401 to a first send with no promise and a stored refresh token, and posts that token |
| SilentRefresh.WaitsExactly | dashboard/lib/api.ts:1232-1323 | A step makes a request wait iff it is a 401 to its first send with a promise to join or a token to post |
| SilentRefresh.SendsCarryTheStoredToken | dashboard/lib/api.ts:1303-1337 | Every send, the repeated one too, carries the access token stored at that moment |
| SilentRefresh.OtherErrorEndsTheRequest | dashboard/lib/api.ts:1323-1376 | A first send answered by another error fails its request and changes nothing else |
| SilentRefresh.RefreshesExactly | dashboard/lib/api.ts:1232-1323 | In every run a request has joined or started a refresh iff its first send was answered 401 while there was a promise or a stored refresh token |
| SilentRefresh.FailsExactly | dashboard/lib/api.ts:1323-1379 | In every run a request has failed iff one of the listed steps failed it |
| SilentRefresh.RetryIsAtLeastAsNew | dashboard/lib/api.ts:1281-1334 | A retry carries a token at least as new as the awaited one, or finds the store cleared |
| SilentRefresh.EveryRunEnds | dashboard/lib/api.ts:1298-1358 | n requests take at most 6n steps in every interleaving |
| SilentRefresh.NoRequestHangs | dashboard/lib/api.ts:1298-1358 | While a request is unanswered, some step is possible |
| SilentRefresh.SucceedsExactly | dashboard/lib/api.ts:1323-1379 | In every run a request has succeeded iff the server accepted one of its sends |
| SilentRefresh.StepDecidesSession | dashboard/lib/api.ts:1281-1341 | The store is empty after a step iff the step ended the session, or it was empty and the step saved nothing |
| SilentRefresh.SessionEndsExactly | dashboard/lib/api.ts:1281-1341 | In every run the store is empty at the end iff the session was over at some point and no refresh reply was saved after it |
| SilentRefresh.LateReplyRestoresSession | dashboard/lib/api.ts:1281-1341 | A run in which a failed retry ends the session and a refresh still in flight brings it back |
| SilentRefresh.ServerErrorEndsSession | dashboard/lib/api.ts:1329-1341 | A run in which a non-401 error ends a freshly renewed session |
| CliListing.PayloadExact | cli/lib/api.js:415-436 | The payload is the first known key that holds an array, else the first array; none iff there is no array |
| CliListing.PayloadFieldIsTaken | cli/lib/api.js:415-436 | Conversely a field so described is the one taken, so there is only one |
| CliListing.EnvelopeReads | cli/lib/api.js:415-436 | A known name goes before an array listed first, and does not count without an array |
| CliListing.RefreshableApi.Request | cli/lib/api.js:79 | One request, its fate, the page and the next cursor |
| CliListing.RefreshableApi.ListAll | cli/lib/api.js:68-98 | The cursor loop equals the pass over the pages |
| CliListing.RefreshableApi.Refreshing | cli/lib/commands/_context.js:47-98 | The wrapper's whole effect on config, client, disk and traffic |
| CliListing.PassExact | cli/lib/api.js:68-98 | A pass returns all rows iff every request is accepted, else throws the first refusal |
| CliListing.BadPageThrows | cli/lib/api.js:83-94 | A page without an array is never skipped |
| CliListing.BadPageExactly | cli/lib/api.js:83-94 | The first such page reached ends the listing with its own error, after the requests made so far |
| CliListing.PagesServeTheirRows | cli/lib/api.js:68-98 | Any pages, empty ones too, serve the rows they add up to, so the exact theorems apply to them |
| CliListing.CallListsEverythingExactly | cli/lib/commands/_context.js:47-98 | The call returns the whole list in order, and returns iff the old token lasts, or a 401 comes first, renewing works and the new token lasts; at most one refresh |
| CliListing.ThrowsExactly | cli/lib/commands/_context.js:53-83 | The call asks for a new login iff a 401 met a refresh token and no session came of it; otherwise, without a renewal, the listing's own outcome stands |
| CliListing.CallKeepsTokensInStep | cli/lib/commands/_context.js:84-94 | From any state, a saved renewal puts config, disk and client in step, an unsaved one changes the config in memory, to what is stated, and nothing else, and without a renewal none changes |
| CliListing.RenewedConfig | cli/lib/commands/_context.js:84-90 | Each field of a renewed config: the session's where it has one, else the old one, the type `Bearer` for want of any |
| CliListing.PostsLastGranted | cli/lib/commands/_context.js:59-90 | Over any calls each refresh posts the refresh token granted last, saved or not |
| CliListing.PostsExactly | cli/lib/commands/_context.js:59-75 | A call posts a refresh iff its first pass ends in a 401 and the config has a refresh token |
| CliListing.UnsavedRenewalExactly | cli/lib/commands/_context.js:89-93 | After an unsaved renewal they agree iff the disk already held the renewed config |
| CliListing.TokensStayInStep | cli/lib/commands/_context.js:47-98 | After any calls, over disks that may fail, disk and client agree, and the config agrees iff the last renewal was saved or changed nothing; at most one refresh each |
| AuditCsv.CsvRoundTripExact | dashboard/components/AuditLogView.tsx:566-600 | Reading the export gives the header and one nine-field record per event; for strict readers iff no bare CR is printed |
| AuditCsv.BareCRIsRefused | dashboard/components/AuditLogView.tsx:578-583 | An event with a CR in its id, as a concrete case |
| AuditCsv.ExportHoldsEveryProperty | dashboard/components/AuditLogView.tsx:566-600 | The table read back has each of the nine properties of every event in the column of its name; a missing one is blank |
| AuditCsv.CsvIsInjective | dashboard/components/AuditLogView.tsx:566-600 | Two exports are equal iff the events agree in every property, a missing text counting as an empty one |
| AuditCsv.FieldRoundTrip | dashboard/components/AuditLogView.tsx:578-583 | An escaped field is read back, whatever follows it in the record |
| AuditCsv.StrayTextIsRefused | dashboard/components/AuditLogView.tsx:578-583 | The reader is no laxer than the RFC: text behind a closing quote and a quote in a bare field are refused |
| UpgradeDialog.Component.SetState | dashboard/components/UpdateBanner.tsx:211-256 | Entering polling starts one polling effect, leaving it ends that effect |
| UpgradeDialog.Component.IsMarkerStale | dashboard/components/UpdateBanner.tsx:512-519 | Older than 30 minutes, strictly, or not a number; an empty marker never is |
| UpgradeDialog.Component.ResumeRunningUpgrade | dashboard/components/UpdateBanner.tsx:146-160 | Opening goes to review without a marker and asks for the status with one |
| UpgradeDialog.Component.HandleResumeReply | dashboard/components/UpdateBanner.tsx:159-200 | The state after each reply, and no effect once cancelled |
| UpgradeDialog.Component.HandlePollReply | dashboard/components/UpdateBanner.tsx:216-248 | The state after each poll reply, failures counted, and no effect once cancelled |
| UpgradeDialog.Component.HandlePostReply | dashboard/components/UpdateBanner.tsx:267-281 | Marker and state after the upgrade POST |
| UpgradeDialog.ReportsExactly | dashboard/components/UpdateBanner.tsx:159-248 | In every run success, or failure, is reported at some point iff a request that was not cancelled came back with it |
| UpgradeDialog.MarkerSurvivesExactly | dashboard/components/UpdateBanner.tsx:146-281 | In every run a set marker stays set iff no reported end, refused POST, or stale marker met by a poll or a resume clears it |
| UpgradeDialog.MarkedAndOverExactly | dashboard/components/UpdateBanner.tsx:146-281 | A set marker meets a final state iff a POST of a replaced dialog is granted there |
| UpgradeDialog.MarkerExcludesTheEnd | dashboard/components/UpdateBanner.tsx:146-281 | In every run a set marker excludes `succeeded` and `failed` at every point iff no POST of a replaced dialog is granted in one of them |
| UpgradeDialog.LateGrantMarksAnEnd | dashboard/components/UpdateBanner.tsx:100-106 | A run in which that happens |
| UpgradeDialog.MarkerlessPollingExactly | dashboard/components/UpdateBanner.tsx:159-200 | Polling loses its marker iff a live, non-final resume reply is handled when the marker is gone, or a replaced dialog's POST is refused |
| UpgradeDialog.PollingHasMarker | dashboard/components/UpdateBanner.tsx:146-281 | In every run polling implies a marker at every point iff nothing slips in it |
| UpgradeDialog.IdleCannotHoldTheDialog | dashboard/components/UpdateBanner.tsx:216-234 | While nothing slips an idle poll reply keeps the dialog polling iff the marker is at most 30 minutes old, or empty since before the page was loaded |
| UpgradeDialog.MarkerlessPollingIsForever | dashboard/components/UpdateBanner.tsx:230-234 | Without a marker no run of waits, polls and idle replies ends the polling |
| UpgradeDialog.IdleRoundsAreRuns | dashboard/components/UpdateBanner.tsx:250-251 | Such runs exist for any length of time |
| UpgradeDialog.InOrderRepliesCanSlip | dashboard/components/UpdateBanner.tsx:146-248 | A run with replies in request order that ends polling without a marker |
| UpgradeDialog.RunIsWellFormed | dashboard/components/UpdateBanner.tsx:211-256 | In every run one polling effect is live iff the state is polling, and fewer than three failures are counted |
| UpgradeDialog.RebootsExactly | dashboard/components/UpdateBanner.tsx:235-248 | In every run without a final reply, polling gives way to the reload iff three polls in a row are lost |
| UpgradeDialog.ResumeLeadsExactly | dashboard/components/UpdateBanner.tsx:159-200 | A live resume reply that is not final, met with a marker, leads to polling with the marker kept iff an upgrade runs or the marker is not stale, else to review without one |
| UpgradeDialog.ReopenedIsPolling | dashboard/components/UpdateBanner.tsx:146-167 | From the end of every run, reopening the dialog on a running upgrade ends in polling with the marker kept |
| UpgradeDialog.PollLeadsExactly | dashboard/components/UpdateBanner.tsx:216-248 | State, marker and failure count after each live poll reply |
| UpgradeDialog.CancelledRepliesAreIgnored | dashboard/components/UpdateBanner.tsx:161-224 | Cancelled replies and the passing of time change neither state nor marker |
| UpgradeDialog.GrantsLeadExactly | dashboard/components/UpdateBanner.tsx:267-281 | State and marker after the upgrade POST is granted or refused, also for a replaced dialog |
| UpgradeDialog.OperatorLeadsExactly | dashboard/components/UpdateBanner.tsx:146-160 | Where the buttons, opening, closing, reloading and replacing lead; none touches the marker |
| UpgradeDialog.ReopeningCancels | dashboard/components/UpdateBanner.tsx:146-163 | At the end of every run, reopening leaves every status request sent before it cancelled |
| UpgradeDialog.PollingKeepsItsEffect | dashboard/components/UpdateBanner.tsx:211-256 | Polling that goes on keeps its effect and failure count |
| UpgradeDialog.PollingStartsOneEffect | dashboard/components/UpdateBanner.tsx:211-256 | Polling entered anew starts one effect with one request and no failures |
| UpgradeDialog.RepliesAreHandledOnce | dashboard/components/UpdateBanner.tsx:159-248 | A reply is one request less in flight, the others keep their order |
| Flags.ExtractFlags | cli/lib/commands/_resource.js:70-120 | The index loop equals the token scan, last value per name |
| Flags.ScanPrintsBack | cli/lib/commands/_resource.js:70-120 | The tokens print back to the arguments, and a pure boolean never takes the next argument |
| Flags.ScanReadsBack | cli/lib/commands/_resource.js:70-120 | Every grammatical token list is read back as printed, so the reading is unique |
| Flags.LastTokenWins | cli/lib/commands/_resource.js:93-114 | A flag is set iff a token names it, to what the last such token says |
| Flags.WrittenValues | cli/lib/commands/_resource.js:93-117 | `--name=value` and `--name value` set the text, `--name` sets true, and a positional sets nothing |
| Flags.CommandLineReads | cli/lib/commands/_resource.js:93-117 | A switch, a string flag and a positional, read from their text for every value |
| Flags.AssignedFlagsRoundTrip | cli/lib/commands/_resource.js:96-101 | `--name=value` flags and positionals in any interleaving are read back |
| Flags.RestIsSubsequence | cli/lib/commands/_resource.js:117 | `rest` is a subsequence of the arguments |
| Redaction.RedactJson | dashboard/lib/redact.ts:27-39 | The recursive loops equal `Redact` |
| Redaction.IncludesExactly | dashboard/lib/redact.ts:22-25 | The substring test finds the word iff it stands at some position |
| Redaction.SensitiveExactly | dashboard/lib/redact.ts:11-25 | A key is sensitive iff its lower case holds one of the eight words |
| Redaction.WordInside | dashboard/lib/redact.ts:22-25 | A word with anything around it is found |
| Redaction.RedactHidesExactlySensitive | cli/lib/commands/_cellplane.js:32-42 | Two trees redact alike iff they differ only beneath sensitive keys |
| Redaction.RedactKeepsTheRest | dashboard/lib/redact.ts:27-39 | Everything not beneath a sensitive key (or a property named `__proto__`, which is dropped) is unchanged, and redacting twice is redacting once |
| Redaction.RedactedIsClean | dashboard/lib/redact.ts:33-36 | Beneath every sensitive key, at any depth, stands the placeholder |
| Redaction.PlaceholderEverywhere | dashboard/lib/redact.ts:33-36 | At every path of the result a sensitive key holds the placeholder |
| Redaction.EveryFieldStays | dashboard/lib/redact.ts:30-37 | Every property stays in its place under its key |
| Redaction.ProtoIsDropped | dashboard/lib/redact.ts:30-37 | A property named `__proto__` is lost and the others are not affected |
| Topology.Group | cli/lib/commands/_cellplane.js:348-365 | The map and the unplaced list give each host its cells |
| Topology.PrintsEveryCellOnceExactly | cli/lib/commands/_cellplane.js:348-372 | What is printed is a permutation of the cells iff no host holding a cell is listed twice |
| Topology.RepeatedHostRepeatsItsCell | cli/lib/commands/_cellplane.js:361-367 | A host listed twice prints its cell twice, as a concrete case |
| Topology.HostGroupInOrder | cli/lib/commands/_cellplane.js:351-355 | Under a host stand exactly its cells, in listing order |
| Topology.UnplacedInOrder | cli/lib/commands/_cellplane.js:356-358 | Unplaced are exactly the cells without a listed host, in listing order |
| Topology.PrintedWhere | cli/lib/commands/_cellplane.js:348-365 | A cell stands under the host it names, and is unplaced iff it names none that is listed |
| ActivityBursts.GroupActivity | dashboard/components/ActivityFeed.tsx:112-134 | The buffer loop equals `Bursts` |
| ActivityBursts.BurstsArePartition | dashboard/components/ActivityFeed.tsx:112-134 | The groups concatenate to the events, are runs of the burst relation, and break where it fails |
| ActivityBursts.BurstsAreThePartition | dashboard/components/ActivityFeed.tsx:112-134 | They are the only such cut |
| ActivityBursts.GroupsAreAlike | dashboard/components/ActivityFeed.tsx:112-134 | A group has one actor, action and target type, and neighbours at most five minutes apart |
| ActivityBursts.AlikeAreGrouped | dashboard/components/ActivityFeed.tsx:112-134 | Where one group ends, the next event differs in one of these |
| ZoneMatch.MatchingCredential | dashboard/components/HostDomainPanel.tsx:394-413 | None for an empty domain, else the first of the longest covering Cloudflare zones |
| ZoneMatch.ResultIsDetermined | dashboard/components/HostDomainPanel.tsx:394-413 | That result is unique; none iff no zone covers the domain; equal-length zones are the same zone |
| ZoneMatch.SpellingIsIgnored | dashboard/components/HostDomainPanel.tsx:394-413 | White space around a name and what lower-casing folds make no difference |
| ZoneMatch.FinalDotIsIgnored | dashboard/components/HostDomainPanel.tsx:394-413 | Nor does one final dot |
| ZoneMatch.CoversSubdomainsOnly | dashboard/components/HostDomainPanel.tsx:403-405 | A zone covers itself and its subdomains, and no name that merely ends in its letters |
| ZoneMatch.LongerZoneWins | dashboard/components/HostDomainPanel.tsx:405-408 | A subdomain's own zone wins over its parent's in either listing order |
| ZoneMatch.OnlyCloudflareCounts | dashboard/components/HostDomainPanel.tsx:400-401 | A result is a stored Cloudflare credential, and there is none without one |

## Left out

- EnvStability.SecondRunExact: asks for a one-line deployment name, as do the lemmas on later runs. For a longer one `EnvMultiline.MultilineNameNeverSettles` covers every name with an unowned, non-blank later line without CR; names whose later lines are all blank, managed or ended by CR are not covered.
- SilentRefresh.SingleFlight: does not cover replies without a new refresh token, several tabs, or a login during a refresh, which the code does not coordinate.
- `parseConvexTarget` and `inferConvexTarget`: take leading `--target` flags, the last one counting, or else prod for `deploy` and dev for anything else.
- `collectValueFlag`: gathers the values of one repeatable flag; `Flags` models the general parser.
- `itemsOf`: returns a response that is an array, or its `items`, `domains` or `members` array, or nothing.
- `groupByDay`: a run grouping like `ActivityBursts`, by equal calendar day.
- `redactOperationRun`: a shallow copy with three fields redacted by the function `Redaction` models.
- `collectPaginated`: the loop of `listAll` without the restart, over requests that `SilentRefresh` models one by one.
- The dotenv parser of the Convex CLI: taken to read a file as `parseEnvContent` does.
- UTF-16: a Dafny character is a Unicode scalar value; no operation here looks inside a surrogate pair.
- Requests sent without authentication (`auth: false`), which carry no token and never refresh.
- Two tabs sharing one session storage, and React's double effects in development mode.
- Files, processes, watchers, HTTP, JSX, translations: the file is a text or absent, a child is any sequence of writes, a server is an oracle.
- The Go control plane, the installer and the drift engine are not part of this model.
