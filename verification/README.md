# Draft store and content materialisation of a newsletter site

This project models the content-reconciliation layer of a newsletter web
site, written in Dafny. Editors keep article drafts in a key-value store.
Each draft is a record under `temp-post:{slug}`. A separately maintained
slug index (`temp-post-keys`) lists the drafts, because the store cannot
enumerate keys by prefix. A build step later turns the drafts into
markdown files under `content/articles/`. Read endpoints then merge those
static articles with the remaining drafts.

The model is functional throughout:

- the store is a `map<string, TempPost>` plus a `seq<string>` index;
- the file tier is a `map<string, string>` from path to text;
- every storage or file call is replaced by an explicit outcome parameter
  (`Io = Done | Fail(message)`);
- every operation is a pure function that returns the new state and the
  result.

Timestamps stay strings, as the source stores them. Ordering goes through
a parameter `time: string -> int` that stands for `new Date(s).getTime()`.
Date validity is a parameter `validDate: string -> bool`. The post id is
a parameter, because the source derives it from the clock and a random
number.

Modules:

- `Common`: `Option`, `Result`, the `Io` outcome, and `Reason`, which
  models `${error.message || error}`.
- `Text`: JavaScript `\s`, `includes`, `replace` with a string pattern
  (first occurrence only) and `substring(0, n)`.
- `Slug`: `generateSlug`.
- `Posts`: the `TempPost` record, the patch merge of `updateTempPost`, and
  the key and path names.
- `Validation`: `validatePostInput` over JavaScript values, with
  truthiness.
- `Json`: `JSON.stringify` of a string array and a reader for it.
- `Markdown`: `tempPostToMarkdown` and a reader for the front matter it
  writes.
- `Sorting`: the stable newest-first sort used by every listing.
- `DraftStore`: `getTempPostBySlug`, `createTempPost`, `updateTempPost`,
  `deleteTempPost` and `getAllTempPosts`, with the index invariant
  `Consistent`. The invariant says the index lists exactly the stored
  slugs, without repeats.
- `BuildEndpoint`: the index-driven materialisation handler.
- `BuildScript`: the key-scan materialisation script, with deletion
  markers.
- `CreateEndpoint`, `AdminCatalog`, `PublicCatalog`, `Subscribe` and
  `EnvCheck`: the HTTP handlers around the store.

Behaviour of the code that is easy to miss, and that the model keeps:

- A rename in `updateTempPost` replaces the old slug in place in the index
  (`keyIndex.map`). It does not append the new slug and remove the old one.
- The build endpoint reads no deletion markers, because its marker list is
  fixed to empty. So `deleted` is always 0.
- After a run, the build endpoint rewrites the index to the slugs that
  occur inside some error string, and only when something was processed.
  It does not simply drop the processed slugs. See "Findings".
- Validation happens in the create handler, not in `createTempPost`.
- `getTempPostBySlug` turns a storage failure into "not found". Because of
  this, `createTempPost` overwrites an existing record when the conflict
  lookup fails (`DraftStore.CreateOverwritesOnLookupFailure`), and
  `deleteTempPost` answers `false` instead of surfacing the failure.
- `getAllTempPosts` drops from the index every slug whose read threw, not
  only the slugs whose record is missing. A transient read error therefore
  strands the record outside the index
  (`DraftStore.GetAllDropsUnreadable`).

## Model

| member | source | states |
|---|---|---|
| Slug.GenerateSlug | server/utils/tempPostManager.ts:31-38 | the slug contains only `a-z`, `0-9` and `-`, has no `--` and no leading or trailing `-`, and keeps exactly the letters and digits of the lower-cased title, in order |
| Slug.SlugFixesSlugs | server/utils/tempPostManager.ts:31-38 | every string of slug shape is its own slug |
| Slug.SlugIdempotent | server/utils/tempPostManager.ts:31-38 | slugifying a slug changes nothing |
| Slug.HelloWorld | server/utils/tempPostManager.ts:31-38 | "Hello, World!" becomes "hello-world" |
| Slug.StripInvalidFacts | server/utils/tempPostManager.ts:34 | removing characters outside `[a-z0-9\s-]` leaves only admitted characters and loses no letter or digit |
| Slug.CollapseNoDouble | server/utils/tempPostManager.ts:35-36 | collapsing runs of a class that includes `-` leaves no `--` |
| Slug.TrimFacts | server/utils/tempPostManager.ts:37 | trimming one leading and one trailing `-` from a string without `--` gives a slug with the same letters and digits |
| Slug.SlugSteps | server/utils/tempPostManager.ts:31-38 | the four replacement steps, in the source's order, produce a string of slug shape with the title's letters and digits |
| Common.Reason | server/utils/tempPostManager.ts:184 | the text of a caught error is its own message, or a non-empty fallback when the message is empty |
| Posts.ArticlePathInjective | server/api/build/generate-content.ts:42 | distinct slug-shaped names are written to distinct markdown files |
| Validation.Validate | server/utils/tempPostManager.ts:306-341 | `valid` iff there are no errors; each message is present iff its own field fails its check; the messages come in field order, each at most once |
| Validation.DateMessagesExclusive | server/utils/tempPostManager.ts:321-328 | a missing date gives "Published date is required" and never also "must be a valid date" |
| Validation.MissingTextIff | server/utils/tempPostManager.ts:309-319 | the source's test `!v \|\| typeof v !== 'string' \|\| v.trim().length === 0` fails exactly when the value is a string with a non-blank character |
| Validation.ValidIsWellTyped | server/utils/tempPostManager.ts:306-341 | a body that passes validation has the field types of `TempPostInput` |
| Json.StringArrayReads | server/utils/tempPostManager.ts:293 | the JSON text of a string array reads back as the same array, whatever follows it |
| Json.EscapeNoNewline | server/utils/tempPostManager.ts:293 | a JSON string literal never contains a raw line break, so the tags line stays one line |
| Json.QuoteReads | server/utils/tempPostManager.ts:293 | a quoted, escaped string reads back as the original text, whatever follows it |
| Json.StringArrayNoNewline | server/utils/tempPostManager.ts:293 | the JSON text of a string array has no line break |
| Markdown.UnquoteEscape | server/utils/tempPostManager.ts:290-291 | un-doubling the quotes of a quote-doubled string gives back the original |
| Markdown.QuoteEscapeNewline | server/utils/tempPostManager.ts:290-291 | doubling quotes adds no line break and removes none |
| Markdown.TitleRead | server/utils/tempPostManager.ts:290 | the title line reads back as the post's title |
| Markdown.DescriptionRead | server/utils/tempPostManager.ts:291 | the description line reads back as the post's description |
| Markdown.PublishedAtRead | server/utils/tempPostManager.ts:292 | a date without `'` reads back from its line |
| Markdown.ToMarkdown | server/utils/tempPostManager.ts:288-300 | the content appears verbatim at the end of the document |
| Markdown.LinesRead | server/utils/tempPostManager.ts:289-297 | the front-matter lines, joined with line breaks, are read back one by one and the rest is left over |
| Markdown.ReadFrontLines | server/utils/tempPostManager.ts:289-297 | each front-matter field, `null` for a missing sent date included, reads back as the post's value |
| Markdown.MarkdownRoundTrip | server/utils/tempPostManager.ts:288-300 | reading a rendered post gives back its title, description, date, tags, newsletter flag, sent date and content |
| Markdown.MarkdownInjective | server/utils/tempPostManager.ts:288-300 | two posts that render to the same text agree on every rendered field |
| Sorting.SortDescCorrect | server/utils/tempPostManager.ts:99 | the sort orders newest first and keeps exactly the input's elements (a permutation) |
| Sorting.SortDescSorted | server/utils/tempPostManager.ts:99 | input already in newest-first order, ties included, comes back unchanged |
| Sorting.SortDescStable | server/utils/tempPostManager.ts:99 | the sort is stable: for every key, the elements with that key keep their input order, so ties stay in index order and drafts stay ahead of static articles of the same date |
| Sorting.InsertKeyed | server/utils/tempPostManager.ts:99 | an inserted element lands ahead of every element with the same key |
| Sorting.InsertPerm | server/utils/tempPostManager.ts:99 | inserting one element keeps every element |
| Sorting.InsertSorted | server/utils/tempPostManager.ts:99 | inserting into a newest-first list keeps it newest first |
| DraftStore.GetBySlug | server/utils/tempPostManager.ts:115-130 | a record comes back iff the read succeeds and the slug is stored, and it is the stored record; a failed read looks like "not found" |
| DraftStore.AddSlug | server/utils/tempPostManager.ts:170-176 | the index gains the slug only when it is absent, appended at the end; otherwise it is unchanged; an index without repeats stays without repeats |
| DraftStore.RenameSlug | server/utils/tempPostManager.ts:221-225 | the index keeps its length and each occurrence of the old slug is replaced in place |
| DraftStore.RenameMembers | server/utils/tempPostManager.ts:221-225 | after the rename the index holds the new slug and every other slug it held, and no longer the old one |
| DraftStore.RenameKeepsNoDup | server/utils/tempPostManager.ts:221-225 | renaming to a slug not yet indexed keeps an index without repeats |
| DraftStore.RemoveSlug | server/utils/tempPostManager.ts:266-272 | the index keeps exactly the other slugs, in their original order |
| DraftStore.RemoveSlugCounts | server/utils/tempPostManager.ts:268 | every other slug keeps all its repeats, and the removed slug has none left |
| DraftStore.Create | server/utils/tempPostManager.ts:135-186 | success iff no stored record was found under the slug and the record write succeeded; on failure nothing changes; on success the new draft is stored under its slug, and with both index calls succeeding the index gains the slug at the end unless already listed; a failed index read or write leaves the index as it was |
| DraftStore.CreateConflict | server/utils/tempPostManager.ts:145-149 | an occupied slug gives an error mentioning "A post with this title already exists" and writes neither record nor index |
| DraftStore.CreateSuccess | server/utils/tempPostManager.ts:151-176 | a created post is a `draft` with no sent date and `createdAt == updatedAt`; it is stored under its slug, and with a working index the store stays consistent and the slug is indexed exactly once |
| DraftStore.CreateOverwritesOnLookupFailure | server/utils/tempPostManager.ts:145-166 | when the conflict lookup fails, an existing record under the same slug is overwritten |
| DraftStore.CreateIndexFailureStrands | server/utils/tempPostManager.ts:166-179 | a failed index update after the record write leaves a stored record missing from the index |
| DraftStore.Update | server/utils/tempPostManager.ts:191-246 | a successful update stores the merged record under the target slug and returns it; a failed index read or write leaves the index as it was; the only other index outcome is the in-place rename of the old slug |
| DraftStore.UpdateNotFound | server/utils/tempPostManager.ts:195-200 | an unknown slug, or a failed lookup, gives "Failed to update post: Post not found" and changes nothing |
| DraftStore.UpdateConflict | server/utils/tempPostManager.ts:203-214 | a new slug that is occupied gives the conflict error before any key is removed |
| DraftStore.UpdateRename | server/utils/tempPostManager.ts:203-239 | on a rename the old key is gone, the new key holds the merged record with the new slug, every other key keeps its presence and its record, and the index entry is replaced at the same position |
| DraftStore.UpdateInPlace | server/utils/tempPostManager.ts:203-239 | when the title is unchanged or slugifies to the same slug, the merged record stays under its key and the index is untouched |
| DraftStore.StatusChangeKeepsSlug | server/utils/tempPostManager.ts:232-237 | a publish or unpublish patch changes only the status and `updatedAt` |
| DraftStore.UpdateWriteFailureLosesRecord | server/utils/tempPostManager.ts:216-239 | a rename whose final write fails loses the record under both slugs |
| DraftStore.UpdatePreservesConsistent | server/utils/tempPostManager.ts:191-246 | with every call succeeding, an update keeps the index equal to the stored slugs, without repeats |
| DraftStore.Delete | server/utils/tempPostManager.ts:251-283 | `true` iff the record was found and removed; `false` changes nothing; `true` removes exactly that key, and with both index calls succeeding the index becomes the order-keeping filter without the slug; a failed index read or write leaves the index as it was; the index is only ever shortened, never reordered |
| DraftStore.DeletePreservesConsistent | server/utils/tempPostManager.ts:262-275 | with a working index a delete keeps the store consistent, and the deleted slug leaves the index |
| DraftStore.RemoveKeepsNoDup | server/utils/tempPostManager.ts:268 | filtering a slug out of an index without repeats leaves no repeats |
| DraftStore.GetAll | server/utils/tempPostManager.ts:54-109 | listing never changes a record and returns at most one post per index slug; when some slug does not resolve and the rewrite succeeds, the index becomes the resolved slugs; a failed index read or a failed rewrite leaves the index as it was |
| DraftStore.Resolved | server/utils/tempPostManager.ts:71-86 | the kept slugs are exactly the listed slugs that are stored and readable, in their original order |
| DraftStore.GetAllKeepsOrder | server/utils/tempPostManager.ts:88-96 | the index after a listing is the index before it with some slugs left out, never reordered or extended |
| DraftStore.GetAllContents | server/utils/tempPostManager.ts:71-99 | the result is exactly the records of the index slugs that could be read, as a multiset, sorted by `createdAt`, newest first |
| DraftStore.GetAllRepairs | server/utils/tempPostManager.ts:88-96 | with every read and the index write succeeding, the index afterwards is exactly the stored index slugs in their original order, so it lists only stored slugs, and a consistent store is left as it is |
| DraftStore.GetAllDropsUnreadable | server/utils/tempPostManager.ts:83-96 | a record whose read throws is dropped from the index though it is still stored |
| DraftStore.GetAllIndexFailure | server/utils/tempPostManager.ts:59-67 | an unreadable index gives an empty list and changes nothing |
| DraftStore.ResolvedSubseq | server/utils/tempPostManager.ts:71-90 | a dropped slug makes the valid list shorter than the index, which triggers the index rewrite |
| BuildEndpoint.Step | server/api/build/generate-content.ts:34-52 | one slug adds at most one to `processed + errors`, never lowers either count, never adds a record and leaves every remaining record as it was |
| BuildEndpoint.StepSkips | server/api/build/generate-content.ts:35-39 | a slug without a record is neither counted nor reported |
| BuildEndpoint.StepSucceeds | server/api/build/generate-content.ts:41-49 | a slug that goes through writes `content/articles/{post.slug}.md` as the post's markdown, loses its key and is counted |
| BuildEndpoint.StepFails | server/api/build/generate-content.ts:34-52 | a failed read, write or removal appends "Failed to process {slug}: {message}" for the first failing call, marks the slug failed, keeps the key and counts nothing; when only the removal failed the file stays written |
| BuildEndpoint.DrainCounts | server/api/build/generate-content.ts:28-53 | `processed + errors` grows by at most the number of index slugs |
| BuildEndpoint.DrainFrame | server/api/build/generate-content.ts:33-53 | records whose slug is not in the index are untouched |
| BuildEndpoint.DrainClears | server/api/build/generate-content.ts:33-53 | after a loop without errors no index slug still has a record |
| BuildEndpoint.DrainIdle | server/api/build/generate-content.ts:33-53 | if no index slug has a record, the loop changes no record or file and counts nothing |
| BuildEndpoint.DrainGrows | server/api/build/generate-content.ts:33-53 | the error list only grows over the loop |
| BuildEndpoint.DrainKeys | server/api/build/generate-content.ts:33-53 | the loop never adds a record |
| BuildEndpoint.DrainFailedKept | server/api/build/generate-content.ts:33-53 | with every read succeeding and no repeated slug, each slug that failed still has its record after the loop |
| BuildEndpoint.Generate | server/api/build/generate-content.ts:5-112 | an unreadable index is a 500 and nothing changes; otherwise `deleted` is 0 and `processed + errors` is at most the index length; the index never gains a slug, stays as it was when nothing was processed or its write fails, keeps the order of the slugs it keeps, and otherwise is the filter of the index by the substring rule, repeats included |
| BuildEndpoint.CleanRunEmptiesIndex | server/api/build/generate-content.ts:56-63 | a run that processed something without any error leaves the index empty |
| BuildEndpoint.RetainAsWritten | server/api/build/generate-content.ts:56-63 | a slug is kept iff it is indexed and occurs inside some error string; the kept slugs stay in index order |
| BuildEndpoint.RetainAsWrittenCounts | server/api/build/generate-content.ts:58-61 | a kept slug keeps all its repeats; a dropped one has none left |
| BuildEndpoint.RetainFailed | server/api/build/generate-content.ts:58-60 | a slug is kept iff it is indexed and failed to process; the kept slugs stay in index order |
| BuildEndpoint.RetainFailedCounts | server/api/build/generate-content.ts:58-60 | a failed slug keeps all its repeats; any other has none left |
| BuildEndpoint.RetainNothing | server/api/build/generate-content.ts:56-63 | without errors the index becomes empty, under either rule |
| BuildEndpoint.EmptyIndex | server/api/build/generate-content.ts:28-30 | an empty index gives `processed 0, deleted 0, errors []` and no writes |
| BuildEndpoint.RerunChangesNothing | server/api/build/generate-content.ts:28-67 | after an error-free run, a second run changes no record, file or index and processes nothing |
| BuildEndpoint.SubstringRetentionKeepsProcessed | server/api/build/generate-content.ts:56-63 | with index `["a", "ab"]` and a failed write for "ab", the substring rule keeps the processed slug "a" in the index after its record is gone |
| BuildEndpoint.ErrorMentionsShorterSlug | server/api/build/generate-content.ts:51 | the error text for "ab" contains the slug "a" |
| BuildEndpoint.FailedOnlyRetainsFailures | server/api/build/generate-content.ts:58-60 | under the intended rule the new index is the index filtered to the slugs that failed, in order and with repeats |
| BuildEndpoint.FailedOnlyScenario | server/api/build/generate-content.ts:56-63 | the same run under the intended rule keeps only "ab", whose record is still stored |
| BuildEndpoint.FailedOnlyIndexHasRecords | server/api/build/generate-content.ts:56-63 | under the intended rule, with an index without repeats and every read succeeding, every slug left in the index still has its record |
| BuildScript.PostStep | scripts/generate-content.mjs:58-81 | one post key never touches the index or the markers, and adds at most one to `processed + errors` |
| BuildScript.MarkerStep | scripts/generate-content.mjs:84-116 | one marker never touches the index or the drafts, and never counts a post as processed |
| BuildScript.GenerateContent | scripts/generate-content.mjs:14-131 | the run completes iff both settings are present and the connection, `mkdir` and key scan succeed; otherwise nothing changes; the index is never changed |
| BuildScript.UnconfiguredIdle | scripts/generate-content.mjs:17-21 | a missing or empty `KV_URL` or `KV_REST_TOKEN` ends the run before anything is touched |
| BuildScript.ScanFailureAborts | scripts/generate-content.mjs:44-51 | a failed key scan aborts before any post or marker is touched |
| BuildScript.PostSkipped | scripts/generate-content.mjs:60-64 | an empty post key is skipped without error |
| BuildScript.PostSucceeds | scripts/generate-content.mjs:66-75 | a post that goes through writes `{post.slug}.md`, loses its key and is counted |
| BuildScript.PostFails | scripts/generate-content.mjs:76-80 | a failed call records one error and keeps the key |
| BuildScript.MarkerSkipped | scripts/generate-content.mjs:86-90 | a missing marker, or one without a slug, is skipped and kept |
| BuildScript.MarkerApplied | scripts/generate-content.mjs:92-110 | the file is removed and counted if it exists, nothing is counted if it does not, and in both cases the marker is deleted without error |
| BuildScript.MarkerKeptOnFileError | scripts/generate-content.mjs:100-114 | an access failure other than a missing file, or a failed unlink, records an error and keeps the marker |
| BuildScript.ScanDrainsAll | scripts/generate-content.mjs:45-81 | when every post call succeeds, a run leaves no draft and the index as it was, so indexed slugs go stale |
| BuildScript.PostAccounting | scripts/generate-content.mjs:58-81 | each scanned key adds at most one to `processed + errors` |
| BuildScript.DrainPostsClears | scripts/generate-content.mjs:58-81 | when every call succeeds, the loop leaves none of the scanned drafts and adds no draft |
| CreateEndpoint.NoBodyNotConflict | server/api/admin/posts/index.post.ts:43-61 | the `TypeError` the validator throws for an absent body does not mention the title conflict, so it is answered with 500 |
| CreateEndpoint.Catch | server/api/admin/posts/index.post.ts:34-62 | a structured error is re-thrown unchanged; a plain error is 409 iff its message mentions the title conflict, else 500 |
| CreateEndpoint.HandleCreate | server/api/admin/posts/index.post.ts:3-63 | no user gives 401, a request without a body gives 500, and an invalid body gives 400 with the validator's messages, all without a store call; the reply is `Created` iff the body is valid, no stored record was found under its slug and the write succeeded; only a created post changes the store |
| CreateEndpoint.ConflictIs409 | server/api/admin/posts/index.post.ts:43-52 | the store's wrapped conflict message maps to 409 and the store is untouched |
| CreateEndpoint.WriteFailureIs500 | server/api/admin/posts/index.post.ts:54-61 | a failed write whose message does not mention the conflict maps to 500 |
| CreateEndpoint.CreatedIsNewDraft | server/api/admin/posts/index.post.ts:27-33 | a created reply carries the new draft for the body, stored under its slug |
| AdminCatalog.FromDraft | server/api/admin/posts/index.get.ts:34-40 | a draft's row gives back exactly that draft, comes from the store, and is editable, deletable and not published |
| AdminCatalog.FromStatic | server/api/admin/posts/index.get.ts:42-58 | a static row gives back no draft, is published, read-only and without content; it carries the document's id and tags (or `[]`), title, description and date (or ""), and a missing path gives the slug ""; a non-empty sent date is kept and an empty one reads as never sent; all three dates are the article's own; the newsletter flag is true only when set to true |
| AdminCatalog.DraftRoundTrip | server/api/admin/posts/index.get.ts:34-40 | a database row carries the draft's own fields unchanged |
| AdminCatalog.AdminList | server/api/admin/posts/index.get.ts:4-86 | no user gives 401 with nothing touched; otherwise no record changes, `total` equals `tempCount + publishedCount`, and `publishedCount` is 0 when the content query fails |
| AdminCatalog.AdminListContents | server/api/admin/posts/index.get.ts:32-66 | the rows are exactly one per listed draft and one per static article, as a multiset, sorted by `updatedAt \|\| createdAt`, newest first |
| AdminCatalog.AdminFlags | server/api/admin/posts/index.get.ts:34-58 | a row is editable and deletable iff it came from the store, and published iff it is static; static rows are `published` without content |
| AdminCatalog.StaticFailureListsDrafts | server/api/admin/posts/index.get.ts:22-29 | a failed content query lists the drafts only, without an error |
| AdminCatalog.StaticSlugOfArticlePath | server/api/admin/posts/index.get.ts:44 | the slug of a static article at `/articles/{s}` is `s` |
| AdminCatalog.StaticSlugWithoutPrefix | server/api/admin/posts/index.get.ts:44 | a path without `/articles/` is kept whole as the slug |
| AdminCatalog.StaticDefaults | server/api/admin/posts/index.get.ts:45-52 | missing title, description and date give "", missing tags `[]`, a missing flag false, a missing or empty sent date "never sent", and a missing path the slug "" |
| AdminCatalog.ChangedAt | server/api/admin/posts/index.get.ts:63-64 | the sort date is `updatedAt`, or `createdAt` when that is empty |
| PublicCatalog.PublishedOnly | server/api/articles/index.get.ts:8 | keeps exactly the drafts whose status is `published`, in their original order |
| PublicCatalog.PublishedOnlyCounts | server/api/articles/index.get.ts:8 | each published draft is kept as often as it occurs, every other draft is dropped |
| PublicCatalog.ListArticles | server/api/articles/index.get.ts:4-63 | no record changes, `total` equals `dbPosts + staticPosts`, and `staticPosts` is 0 when the content query fails |
| PublicCatalog.ArticlesContents | server/api/articles/index.get.ts:18-45 | the list holds exactly one entry per published draft and one per static article, as a multiset, sorted by `publishedAt`, newest first |
| PublicCatalog.DatabaseEntriesPublished | server/api/articles/index.get.ts:7-28 | every database entry comes from a listed draft whose status is `published` |
| PublicCatalog.PublishedShown | server/api/articles/index.get.ts:7-28 | every listed published draft appears, at `/articles/{slug}` |
| PublicCatalog.DraftArticleInjective | server/api/articles/index.get.ts:21-28 | the entry's path determines the draft's slug |
| PublicCatalog.DraftPathRoundTrip | server/api/articles/index.get.ts:22 | the editor's list turns a draft's public path back into its slug |
| PublicCatalog.StaticFailureListsDrafts | server/api/articles/index.get.ts:12-16 | a failed content query lists database entries only |
| PublicCatalog.StoreOutageListsStatics | server/api/articles/index.get.ts:7 | an unreadable slug index lists static entries only, without an error |
| Subscribe.EmailCheckIsPattern | server/api/subscribe.post.ts:31-32 | the shape check (no white space, one `@` that is not first, a `.` in the domain that is neither its first nor its last character) accepts exactly the strings of `^[^\s@]+@[^\s@]+\.[^\s@]+$` |
| Subscribe.FirstAt | server/api/subscribe.post.ts:31 | finds the first `@`, or reports that there is none |
| Subscribe.Catch | server/api/subscribe.post.ts:71-88 | success iff the provider answered 400 with an `ErrorMessage` containing "already exists"; otherwise the error's own status and message, or 500 and the generic message |
| Subscribe.HandleSubscribe | server/api/subscribe.post.ts:19-90 | a request without a body is 500 "Failed to subscribe to newsletter"; a missing, empty or non-string e-mail is 400 "Email is required"; a real subscription needs a well-formed address, full configuration and a successful call; demo mode only without configuration |
| Subscribe.MalformedEmail | server/api/subscribe.post.ts:31-37 | an address the pattern rejects is 400 "Invalid email format", whatever the provider would do |
| Subscribe.DemoMode | server/api/subscribe.post.ts:42-48 | without full configuration a valid address succeeds in demo mode and the provider is not asked |
| Subscribe.ProviderDecides | server/api/subscribe.post.ts:57-69 | with full configuration the provider's outcome decides the reply |
| Subscribe.AlreadyListed | server/api/subscribe.post.ts:75-83 | a provider 400 saying the contact already exists is a success |
| Subscribe.SuccessCases | server/api/subscribe.post.ts:19-90 | success iff there is a body, the address is valid, and the subscriber is in demo mode, was added, or already exists |
| EnvCheck.CheckEnv | server/api/debug/env-check.get.ts:1-41 | 401 iff there is no user; the listing has exactly the names containing KV, REDIS, STORAGE or UPSTASH, and `count` is its size |
| EnvCheck.Mask | server/api/debug/env-check.get.ts:19-30 | empty values show "not set"; credentials show their first 10 characters and "..."; URLs show their first 30 characters and "..."; the credential rule wins |
| EnvCheck.SecretsTruncated | server/api/debug/env-check.get.ts:22-23 | a credential shows at most a 10-character prefix of its value |
| EnvCheck.UrlsTruncated | server/api/debug/env-check.get.ts:24-25 | a URL shows at most a 30-character prefix of its value |
| EnvCheck.PlainValuesShown | server/api/debug/env-check.get.ts:26-28 | any other listed value is shown as it is |

## Left out

- `generatePostId` is a parameter (`id`). It hashes the clock and a random number.
- Date parsing, `toISOString` and `NaN` dates are left out. Times are strings ordered through a given `time` function, and date validity is a given predicate. A comparator that yields `NaN` is not modelled.
- Slug.GenerateSlug: lowers only ASCII letters, because full Unicode case mapping is not modelled. The character class `\s` is the full JavaScript one.
- The storage backends, the Upstash client, key globbing and the file system are maps plus one `Io` outcome per call. Duplicate slugs in one loop see the same outcome for each of their calls.
- Logging is left out. So are the `stack` and `data.error` fields of error replies, which only carry diagnostics.
- Concurrency is left out: the read-modify-write races on `temp-post-keys` and overlapping pipeline runs.
- `readBody` failures (a malformed body, which it rejects itself) and extra body fields are left out. An absent body is modelled, in the create and the subscribe handler.
- Non-string tag elements, which the create validator lets through, are left out: tags are strings throughout the model.
- The build script's exit status is not modelled: it is 0 whether the run completes, aborts or reports errors.
- The process itself (`process.argv`, `mkdir` of the directory beyond its outcome) is left out.
- The pass-through fields of the diagnostics reply (`NODE_ENV`, `VERCEL_ENV`, `VERCEL_REGION`, `NITRO_PRESET`, `VERCEL`) are left out; they are copied unchanged.
- The content collection query is reduced to its result, or `None` when it throws.
- The unreachable 500 of the listing handlers is left out, because `getAllTempPosts` never throws.
- Text.Take: counts Unicode characters, while `substring` counts UTF-16 code units, so a value with characters outside the Basic Multilingual Plane is cut at a different place.
- Json.StringArrayReads: covers the escapes `JSON.stringify` writes for code units. Surrogate pairs are not treated specially.
- Markdown.MarkdownRoundTrip: holds only for posts whose title, description and date have no line break, whose date has no `'`, and whose sent date is not the text `null`. The writer puts these values raw into single lines, so other values do not read back.
- Markdown.ReadFrontLines: the reader understands the layout the writer produces, not YAML in general.
- BuildEndpoint.RerunChangesNothing: stated for a first run without errors. A failed item would be retried by the second run.
- BuildEndpoint.FailedOnlyIndexHasRecords: assumes every record read succeeds. A slug whose read failed keeps its index entry whether or not it has a record.
- The newsletter sender, login, cron and deploy-hook triggers, storage smoke tests, toast state and configuration files are outside this model.

## Findings

| source | as written | input that shows it | evidently intended | confidence | as-written member | corrected member |
|---|---|---|---|---|---|---|
| server/api/build/generate-content.ts:56-63 | the rewritten index keeps every slug that occurs as a substring of some error string | index `["a", "ab"]`, the file write for "ab" fails with "disk full": the error "Failed to process ab: disk full" contains "a", so "a" stays indexed although its record was removed | keep exactly the slugs that failed to process, as the comment at line 59 says | not executed | BuildEndpoint.SubstringRetentionKeepsProcessed | BuildEndpoint.FailedOnlyIndexHasRecords |
