# Lumina email generator — a verified model of its pure logic

Lumina is a browser-based assistant for drafting emails. The user gives a
context and some style settings. A server route fills a fixed French
template with them, and the client keeps a cache of earlier results. A
second screen manages saved templates, with a version history and a
rolling list of backups. Everything else in the repository is rendering,
browser storage or network plumbing.

This project models the three pieces of sequential logic as pure Dafny
functions over immutable data:

- **The email resolver** (`route.ts`), in module `EmailTemplates`:
  - The twelve-entry table is keyed by tone (`professionnel`, `amical`,
    `formel`, `persuasif`) and length (`court`, `moyen`, `long`).
  - Any other key falls back to the professional/medium template.
  - Three first-occurrence replacements then fill in `{destinataire}`,
    `{contenu}` and `{expediteur}`.
  - Each closing is written as a list of phrases. Rendering the list gives
    exactly the table's text.
  - The model covers JavaScript's `String.prototype.replace` with a string
    pattern in full (module `Strings`). Only the first occurrence is
    replaced. The replacement string's `$$`, `$&`, `` $` `` and `$'`
    patterns are expanded.
- **The result cache** (`EmailGenerator.tsx`), in module `ResultCache`:
  - A lookup finds the first entry whose ten key fields equal the request.
  - An insert appends and keeps only the last 50 entries.
  - Clearing empties the cache.
  - The generate flow runs in order: the blank-context guard, then the
    cache, then the generation endpoint. The endpoint's answer is a
    parameter.
  - The same file's two statistics helpers are in module `TemplateStats`.
- **Template bookkeeping** (`TemplateManager.tsx`), in module
  `TemplateManager`:
  - Backups form a rolling window of 10, and a restore replaces the
    template list.
  - Each save appends a version numbered `|versions| + 1`.
  - Templates can be replaced, deleted or have their favourite flag
    toggled by id.
  - A search filter ignores case.

Shared helpers are in `Seqs`: the rolling window `[...xs, x].slice(-n)` and
an order-preserving filter. `Wrappers` holds `Option`.

Clock readings (`Date.now()` ids, ISO dates) and the generation endpoint's
answer are parameters. `JSON.stringify` sizes are given numbers. Local
storage, toasts and timers are not modelled.

## Behaviour of the code worth knowing

- The key fields omit `isAnonymous`, even though the request body sends it.
  Two requests that differ only in that toggle hit the same cache entry.
- The body sentence is passed as the replacement string of `replace`, so
  `$` patterns in the user's context are expanded. For example, `$$`
  becomes `$`, and `$&` would insert `{contenu}`. The code therefore does
  not always insert the text verbatim, as a plain description of it
  would suggest. The model follows the code (`DollarPatternInContext`).
- A context containing `{expediteur}` takes the sender replacement. The
  name goes into the body sentence, and the template's own `{expediteur}`
  stays in the email (`SenderPlaceholderInContext`).
- Any change to one of the ten fields makes a lookup miss only when no
  other entry matches the changed request. `MatchesIffSameKey` states the
  entry-level fact. `OtherRequestStillMisses` shows that one insert does
  not turn a different request into a hit.
- The form offers the tones `storytelling` and `synthétique`, which the
  table lacks. Both silently give the professional/medium email
  (`FormOnlyTonesFallBack`).
- `saveTemplate` appends the new version to the versions of the template
  passed in, not to those of the stored entry it replaces
  (`SaveIsVersionedReplace`).

## Model

| member | source | states |
|---|---|---|
| EmailTemplates.ParseTone | src/app/api/generate-email/route.ts:29 | a tone key yields the tone it names; a string naming no tone yields nothing |
| EmailTemplates.ParseLength | src/app/api/generate-email/route.ts:29 | a length key yields the length it names; any other string yields nothing |
| EmailTemplates.ToneKeyRoundTrip | src/app/api/generate-email/route.ts:4-25 | every tone's table key parses back to that tone |
| EmailTemplates.LengthKeyRoundTrip | src/app/api/generate-email/route.ts:4-25 | every length's table key parses back to that length |
| EmailTemplates.Resolve | src/app/api/generate-email/route.ts:29 | when both keys are in the table the chosen pair is the one they name; when either is missing it is professional/medium |
| EmailTemplates.ClosingPlain | src/app/api/generate-email/route.ts:4-25 | no closing text of the table contains `{` or `$` |
| EmailTemplates.PlaceholdersWellFormed | src/app/api/generate-email/route.ts:36-38 | the three tokens are brace-delimited placeholders and pairwise different |
| EmailTemplates.TemplateFrame | src/app/api/generate-email/route.ts:4-25 | in every template, each placeholder occurs exactly at its one position (no recipient in formal templates) |
| EmailTemplates.BodyOnce | src/app/api/generate-email/route.ts:4-25 | every template holds `{contenu}` exactly once, right after the opening |
| EmailTemplates.SenderLast | src/app/api/generate-email/route.ts:4-25 | every template holds `{expediteur}` exactly once, as its last characters |
| EmailTemplates.RecipientOnceUnlessFormal | src/app/api/generate-email/route.ts:4-25 | `{destinataire}` occurs once, after the greeting, exactly in the non-formal templates |
| EmailTemplates.FirstStep | src/app/api/generate-email/route.ts:36 | the recipient replacement yields the filled-in salutation followed by the rest of the template unchanged |
| EmailTemplates.SecondStep | src/app/api/generate-email/route.ts:37 | the body replacement splices a `$`-free body sentence in place of `{contenu}` |
| EmailTemplates.GenerateEmailShape | src/app/api/generate-email/route.ts:27-39 | for a context without `{` or `$`, the email is salutation, body sentence quoting the context, closing of the resolved template, then "Votre nom" |
| EmailTemplates.EmailEndsWithSenderName | src/app/api/generate-email/route.ts:38 | such an email ends with "Votre nom" |
| EmailTemplates.EmailQuotesContext | src/app/api/generate-email/route.ts:32-37 | such an email contains the sentence quoting the context verbatim, right after the salutation |
| EmailTemplates.NoPlaceholderLeft | src/app/api/generate-email/route.ts:35-38 | no placeholder remains in such an email |
| EmailTemplates.FormalRecipientUnchanged | src/app/api/generate-email/route.ts:36 | on a formal template the recipient replacement changes nothing |
| EmailTemplates.LanguageIgnored | src/app/api/generate-email/route.ts:27-39 | the language argument has no effect on the email |
| EmailTemplates.UnknownKeysFallBack | src/app/api/generate-email/route.ts:29 | a tone or length outside the table gives the same email as professional/medium |
| EmailTemplates.FormOnlyTonesFallBack | src/app/api/generate-email/route.ts:29 | the form's `storytelling` and `synthétique` tones give the professional/medium email |
| EmailTemplates.SenderPlaceholderInContext | src/app/api/generate-email/route.ts:37-38 | a context of `{expediteur}` receives the sender name, and the template's own `{expediteur}` is left at the end |
| EmailTemplates.DollarPatternInContext | src/app/api/generate-email/route.ts:37 | a context of `$$` appears in the email as a single `$` |
| Strings.IndexOf | src/app/api/generate-email/route.ts:36 | the result is the first position where the pattern occurs, and none exactly when it does not occur |
| Strings.ReplaceFirst | src/app/api/generate-email/route.ts:36-38 | without an occurrence the string is unchanged; with one and a `$`-free replacement the length changes by the length difference |
| Strings.ReplaceFirstAt | src/app/api/generate-email/route.ts:36-38 | with the first occurrence at `i`, the result is the prefix, the expanded replacement and the suffix |
| Strings.ReplaceFirstKeepsLater | src/app/api/generate-email/route.ts:36-38 | a later occurrence of the pattern survives the replacement, shifted by the length change |
| Strings.ReplaceFirstRepeatedToken | src/app/api/generate-email/route.ts:36-38 | with a token repeated twice, only the first is replaced |
| Strings.ExpandPlain | src/app/api/generate-email/route.ts:37 | a replacement string without `$` is inserted verbatim |
| Strings.ExpandEscapedDollar | src/app/api/generate-email/route.ts:37 | between `$`-free text, `$$` in a replacement string becomes one `$` |
| Strings.Trim | src/components/EmailGenerator.tsx:160 | neither end of the result is whitespace, and the result is the input with only whitespace removed from both ends |
| Strings.TrimEmptyIffBlank | src/components/EmailGenerator.tsx:160 | the trimmed context is empty exactly when every character is whitespace |
| Strings.Lower | src/components/TemplateManager.tsx:204-205 | same length, and each character is lower-cased on its own |
| Strings.LowerIdempotent | src/components/TemplateManager.tsx:204-205 | lower-casing twice is lower-casing once |
| Strings.ContainsEmpty | src/components/TemplateManager.tsx:204-205 | every string includes the empty query |
| Seqs.KeepLast | src/components/EmailGenerator.tsx:212 | the result is a suffix of the input of length `min(len, n)` |
| Seqs.PushWindow | src/components/EmailGenerator.tsx:212 | the new length is `min(len + 1, n)`, the new element is last, and the kept old elements are a suffix of the old sequence |
| Seqs.KeepLastAppend | src/components/EmailGenerator.tsx:212 | windowing before appending more and windowing again is windowing once |
| Seqs.PushEachWindow | src/components/EmailGenerator.tsx:212 | pushing elements one by one keeps exactly the last `n` of everything seen |
| Seqs.Filter | src/components/TemplateManager.tsx:176 | the result holds only kept elements of the input, every kept element as many times as the input holds it, in order |
| Seqs.FilterKeepsAll | src/components/TemplateManager.tsx:176 | a filter that keeps every element is the identity |
| ResultCache.MatchesIffSameKey | src/components/EmailGenerator.tsx:117-144 | an entry matches a request exactly when all ten key fields are equal |
| ResultCache.MatchIgnoresBookkeeping | src/components/EmailGenerator.tsx:131-144 | id, result and timestamp play no part in matching |
| ResultCache.FindFrom | src/components/EmailGenerator.tsx:131-144 | the first matching index at or after the start, and none exactly when none matches |
| ResultCache.Find | src/components/EmailGenerator.tsx:131-144 | the first matching entry in insertion order, and none exactly when no entry matches |
| ResultCache.Lookup | src/components/EmailGenerator.tsx:117-157 | a hit exactly when some entry matches, returning the result of the first one |
| ResultCache.NewEntry | src/components/EmailGenerator.tsx:196-210 | the new entry carries the request's key and the generated result |
| ResultCache.Insert | src/components/EmailGenerator.tsx:212 | new length `min(len + 1, 50)`, new entry last, kept old entries an in-order suffix |
| ResultCache.Clear | src/components/EmailGenerator.tsx:234-236 | the cleared cache is empty |
| ResultCache.ClearedCacheMisses | src/components/EmailGenerator.tsx:234-236 | after clearing, every lookup misses |
| ResultCache.InsertBounded | src/components/EmailGenerator.tsx:212 | an insert never leaves more than 50 entries |
| ResultCache.LookupAfterInsert | src/components/EmailGenerator.tsx:212 | a request that missed finds the entry inserted for it, with its result |
| ResultCache.OtherRequestStillMisses | src/components/EmailGenerator.tsx:131-144 | inserting one request's entry leaves a different request missing |
| ResultCache.FinishGenerate | src/components/EmailGenerator.tsx:212 | on whatever cache stands when the answer arrives: new length `min(len + 1, 50)`, the new entry last with the request's key and the answer, older entries an in-order suffix, and a request that missed there now hits the answer |
| ResultCache.ClearDuringFetch | src/components/EmailGenerator.tsx:212-236 | a clear while the request is in flight leaves a cache holding only the new entry, which the request then hits |
| ResultCache.HandleGenerate | src/components/EmailGenerator.tsx:159-232 | blank context is rejected with the cache untouched; otherwise a hit returns the first match's result without inserting, a miss with an answer returns it and inserts a new entry, and a miss without one fails with the cache untouched (lookup and insert on the same cache, with no change in between) |
| ResultCache.HandleGenerateBounded | src/components/EmailGenerator.tsx:212 | the generate flow keeps the cache within 50 entries |
| ResultCache.RepeatIsHit | src/components/EmailGenerator.tsx:159-212 | a non-blank request that misses is generated from the endpoint's answer, and asking again is then a hit on that result whatever the endpoint would answer |
| ResultCache.InsertAll | src/components/EmailGenerator.tsx:212 | inserting entries one by one leaves the last 50 of old and new entries together |
| ResultCache.DistinctInsertsWindow | src/components/EmailGenerator.tsx:212 | with distinct keys inserted into an empty cache, an entry older than the last 50 misses and every later one hits its own result |
| ResultCache.SixtyDistinctInserts | src/components/EmailGenerator.tsx:212 | sixty distinct requests: the first ten miss, the last fifty hit |
| TemplateStats.Count | src/components/EmailGenerator.tsx:440-443 | the count is positive exactly for tones that occur, and at most the number of templates |
| TemplateStats.CountDisjoint | src/components/EmailGenerator.tsx:440-443 | the counts of two different tones add up to at most the number of templates |
| TemplateStats.Best | src/components/EmailGenerator.tsx:444 | the chosen position has the largest count, and every earlier position a strictly smaller one |
| TemplateStats.MostUsedTone | src/components/EmailGenerator.tsx:438-445 | "N/A" for no templates; otherwise a tone of maximal count, the earliest-seen among ties, shown as "N/A" when it is the empty string |
| TemplateStats.MajorityToneWins | src/components/EmailGenerator.tsx:438-445 | a non-empty tone used by more than half of the templates is the one returned |
| TemplateStats.Utf16Length | src/components/EmailGenerator.tsx:449 | the UTF-16 length lies between the number of characters and twice that |
| TemplateStats.TotalLength | src/components/EmailGenerator.tsx:449-450 | the summed length is at least each template's own content length |
| TemplateStats.AverageLength | src/components/EmailGenerator.tsx:447-454 | "N/A" exactly for no templates; "Court" exactly when the total is below 100·n, "Moyen" exactly when between 100·n and 300·n, "Long" otherwise |
| TemplateManager.CreateBackup | src/components/TemplateManager.tsx:107-115 | templates unchanged; backup count `min(len + 1, 10)`; the newest backup holds the current list; older backups kept as an in-order suffix |
| TemplateManager.RestoreFromBackup | src/components/TemplateManager.tsx:124-125 | the template list becomes the backup's list and the backups stay |
| TemplateManager.RestoreUndoesEdits | src/components/TemplateManager.tsx:107-125 | restoring the newest backup after any edits gives back the state at backup time |
| TemplateManager.NewVersion | src/components/TemplateManager.tsx:134-141 | the new version is numbered `|versions| + 1`, holds the template's content and records the author and change note |
| TemplateManager.WithVersion | src/components/TemplateManager.tsx:143-147 | one version appended, earlier versions unchanged, `updatedAt` set, every other field kept |
| TemplateManager.HistoryNumbering | src/components/TemplateManager.tsx:134-146 | repeated versioning adds one version per edit, keeps the earlier ones, and keeps the versions numbered 1..n |
| TemplateManager.ReplaceById | src/components/TemplateManager.tsx:150-152 | same length; templates with the id are replaced, all others unchanged in place |
| TemplateManager.ReplaceKeepsIds | src/components/TemplateManager.tsx:150-152 | every position keeps its id after a replacement by id |
| TemplateManager.ReplaceLastWins | src/components/TemplateManager.tsx:162-166 | of two replacements with the same id, the later one wins outright |
| TemplateManager.CreateVersion | src/components/TemplateManager.tsx:134-152 | templates with another id are unchanged; every template with the id becomes the given template with one more version and the new `updatedAt` |
| TemplateManager.SaveTemplate | src/components/TemplateManager.tsx:162-166 | same length, and templates with another id are unchanged |
| TemplateManager.SaveIsVersionedReplace | src/components/TemplateManager.tsx:162-166 | saving equals one replacement by the saved template carrying one more version |
| TemplateManager.DeleteTemplate | src/components/TemplateManager.tsx:175-176 | no template with the id remains; every other template remains as many times as before, in order |
| TemplateManager.DeleteAbsentId | src/components/TemplateManager.tsx:175-176 | deleting an id no template has changes nothing |
| TemplateManager.ToggleFavorite | src/components/TemplateManager.tsx:185-191 | only the flag of templates with the id flips; everything else is unchanged |
| TemplateManager.ToggleTwice | src/components/TemplateManager.tsx:185-191 | toggling twice restores the list |
| TemplateManager.FilteredTemplates | src/components/TemplateManager.tsx:203-206 | a template is kept exactly when its lower-cased name or category contains the lower-cased query, as many times as it occurs, in order |
| TemplateManager.EmptyQueryKeepsAll | src/components/TemplateManager.tsx:203-206 | the empty query keeps every template |
| TemplateManager.QueryCaseIgnored | src/components/TemplateManager.tsx:203-206 | lower-casing the query does not change the result |

## Left out

- EmailTemplates.GenerateEmailShape: stated only for contexts without `{`
  and `$`. `SenderPlaceholderInContext` and `DollarPatternInContext` show
  what happens otherwise.
- EmailTemplates.EmailEndsWithSenderName: same premise as
  `GenerateEmailShape`. A context holding `{expediteur}` leaves the
  placeholder at the end instead.
- EmailTemplates.EmailQuotesContext: same premise. Without it, `$`
  patterns change the quoted text.
- EmailTemplates.NoPlaceholderLeft: same premise. A context holding a
  placeholder keeps one in the email.
- Prototype-inherited keys such as `constructor` as a length make the
  `?.[]` lookup return a function, and the call then throws. The table is
  modelled over its twelve own keys only, so any other key falls back.
- The `POST` handler's JSON parsing, `NextResponse` and error response are
  I/O around `generateEmail` and are not modelled.
- Browser storage: the load and save effects, the storage removal in
  `clearCache`, and the template and backup persistence are not modelled.
  They are serialisation plus I/O.
- The `fetch` call is not modelled. Its outcome is the `response`
  parameter of `HandleGenerate` (`None` for a non-ok status or a thrown
  error). A response without an `email` field is not modelled.
- `isLoading`, toasts, the `onGenerate` callback and the React state
  batching are not modelled.
- Clocks: ids, timestamps and ISO dates are parameters. The hourly backup
  timer is not modelled.
- ResultCache.Request: formality, creativity, temperature and maxTokens
  are modelled as exact `real` values compared by equality. maxTokens is a
  `real` because the number input stores `valueAsNumber`, which can be
  fractional. `JSON.stringify` distinctions are not modelled: `-0`
  serialises like `0`, and `NaN` becomes `null`. NaN is what maxTokens
  holds when the field is cleared, and it then matches any other NaN
  entry.
- Backup.size is the length of the serialised list in the code; here it
  is a given number.
- Strings.Lower: lower-cases ASCII letters only. JavaScript's
  `toLowerCase` also maps accented and other Unicode capitals.
- TemplateStats.MostUsedTone: the tie-break follows the insertion order
  of the counting object's keys. JavaScript lists integer-like keys
  (such as `"1"`) first, which is not modelled. A tone named like an
  inherited property (such as `constructor`) breaks the code's counting,
  which is not modelled either.
- TemplateStats.AverageLength: computed in exact real arithmetic. The
  code divides in floating point, which could differ only for totals
  within rounding distance of a band boundary.
- `shareTemplate`, the empty "Versions" handler, the generator's
  save-menu items that have no handler, and `selectedTemplate` change no
  template state and are not modelled.
- ResultCache.HandleGenerate: runs the lookup and the insert on the same
  cache, as happens when nothing else changes the cache during the
  fetch. The code looks up in the cache of the current render, and after
  the `await` it inserts into the cache as it stands then.
  `FinishGenerate` models that insert on its own, on any current cache.
  `ClearDuringFetch` shows that a clear in between leaves only the new
  entry. Other interleavings of React updates are not modelled.
- `EmailIntegrations.tsx`, `Analytics.tsx`, `Navbar.tsx`, `Footer.tsx`,
  `page.tsx` and `layout.tsx` are not part of this model. They are
  presentational or mock screens without state logic.
