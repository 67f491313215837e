# post_link_finder in Dafny

A model of the post-URL discovery path of *post_link_finder*. The
program takes a CSV export of Instagram or Facebook posts and finds, for
each post, the URL of the post on the network. It searches with Google
Custom Search (a pool of API keys with daily budgets) and with a library
search as a fallback, validating each hit against per-network URL rules.
Companion scripts clean the export, rebuild it in a target schema, and
split it into files of 500 rows.

Modules, in dependency order:

- `Results` (results.dfy): `Option` and `Result`.
- `Text` (text.dfy): Python's `in` on strings (`Contains`), `startswith`,
  `endswith`, subsequences, and `str(n)` for part numbers.
- `Frames` (frame.dfy): the slice of a pandas DataFrame the code uses:
  ordered columns, rows as maps, and column assignment.
- `StringUtils` (string_utils.dfy): `filter_bmp_characters`, the
  comma/CR/LF replacement, and `extract_relevant_url` over a parser given
  as a parameter.
- `SocialNetworks` (social_network.dfy): the `SocialNetwork` enum. This
  covers the link validator, the profile URL, the query builders, the
  post-URL column, and both column-mapping tables.
- `Schema` (schema.dfy): `fix_df`, in its lenient and strict revisions.
- `Cleaning` (cleaning.dfy): `clean_data_posts`.
- `Fragmentor` (fragmentor.dfy): the three fragmentor scripts, covering
  extension check, chunking into 500-row parts, and part names.
- `Backends` (backend.dfy): search hits, back-end answers, and the
  validator type.
- `CustomSearch` (custom_search.dfy): `CSEKey` and `CSEManager`.
- `LibSearch` (lib_search.dfy): `SearchManager`.
- `LegacySearcher` (legacy_searcher.dfy): `Searcher.start_search` and the
  row loop of src/searcher.py.
- `ClientSearcher` (client_searcher.dfy): `process_search` and the row
  loop of src/client/searcher.py.

Every back-end is an oracle passed in by the caller:

- Custom Search is a function from an API key and a query to an answer.
- The library search is a function from a query to the hits it yields
  and how the iteration ends.
- The alternative search is a function from a query to a URL.
- `urlparse` is a function from a URL to its scheme, host and path.

The class-based providers call `is_valid_link(link=…, title=…,
post_text=…)`. The only `is_valid_link` in the source takes the link
alone, so for those providers the validator is a parameter of type
`(link, title, post text) -> bool`. The first searcher revision calls
`is_valid_link(link)`, and there the model uses the per-network rule
itself.

Behaviours worth noting:

- The Custom Search manager never retries another key after a 429.
  Every path of its `while True` body ends at a `return`
  (src/search_engines/google_custom_search.py:68-75).
- No title-similarity check exists. Validation is the substring rule.
- `extract_relevant_url("")` is not `""`: its f-string always contains
  `://`. See Findings.
- The client loop stops at the first row that finds the library search's
  quota flag set. Quota errors from Custom Search only switch keys off.

## Model

| member | source | states |
|---|---|---|
| `Text.Contains` | src/social_network/social_network.py:41-46 | Python's `needle in hay` on strings: true iff the needle occurs contiguously at some index. `ContainsPart` and `ContainsExtend` prove that a string contains its parts, and that containment survives extension on either side. |
| `Text.NatToString` | src/client/fragmentor.py:21 | `str(part)` is a non-empty run of decimal digits. |
| `Text.ParseNatToString` | src/client/fragmentor.py:21 | Reading `str(n)` back as a decimal number gives `n`, so the rendering loses nothing. |
| `Frames.WithColumn` | src/social_network/social_network.py:142-149 | `df[name] = values`: an existing column keeps its position and gets the new cells, a new column is appended at the end, the frame stays well formed, and every other cell is kept. |
| `Frames.Render` | src/social_network/social_network.py:125 | `str()` in an f-string: a string renders as itself, and a missing value read from a CSV (`NaN`) renders as `nan`. |
| `StringUtils.FilterBmp` | src/utils/utils.py:184-186 | The result has no code point above U+FFFF and is no longer than the input. |
| `StringUtils.FilterBmpSubsequence` | src/utils/utils.py:186 | The filtered string is a subsequence of the input. |
| `StringUtils.FilterBmpConcat` | src/utils/utils.py:185-186 | Filtering works character by character, so it distributes over concatenation. |
| `StringUtils.FilterBmpFixpoint` | src/utils/utils.py:184-186 | A string is returned unchanged exactly when all its characters are in the BMP. |
| `StringUtils.FilterBmpIdempotent` | src/utils/utils.py:184-186 | Filtering twice gives the same result as filtering once. |
| `StringUtils.ReplaceSeparators` | src/utils/utils.py:217 | Length is kept. No `,`, `\r` or `\n` is left. Those three become spaces, and every other character is unchanged. |
| `StringUtils.ReplaceSeparatorsIdempotent` | src/utils.py:66 | Replacing twice gives the same result as replacing once. |
| `StringUtils.ExtractRelevantUrl` | src/utils/utils.py:227-230 | Whatever the parser returns, the result contains `://` and is never empty. |
| `StringUtils.ExtractRelevantUrlParts` | src/utils/utils.py:229-230 | The result is the scheme and `://`, then host and path. The query and fragment are dropped. |
| `SocialNetworks.InstagramRule` | src/social_network/social_network.py:40-43 | An Instagram link is valid iff it contains `https://www.instagram.com/` and one of `p/`, `tv/`, `reel/`, `video/`, `photo/`. |
| `SocialNetworks.FacebookRule` | src/social_network/social_network.py:44-47 | A Facebook link is valid iff it contains `https://www.facebook.com/` and one of `posts/`, `videos/`, `photos/`, `groups/`. |
| `SocialNetworks.ValidLinkNotEmpty` | src/utils/utils.py:42-50 | A valid link is at least as long as the home URL, so it is never empty. |
| `SocialNetworks.AcceptsPostLink` | src/social_network/social_network.py:41 | `https://www.instagram.com/p/abc123` is accepted. |
| `SocialNetworks.RejectsExplorePage` | src/social_network/social_network.py:41 | `https://www.instagram.com/explore/` is rejected: it has no post marker. |
| `SocialNetworks.ExploreLacksMarker` | src/social_network/social_network.py:41 | No Instagram marker occurs anywhere in the explore-page URL. |
| `SocialNetworks.RejectsMissingBase` | src/social_network/social_network.py:41 | `http://instagram.com/p/x` is rejected: the exact home URL is absent. |
| `SocialNetworks.MarkerMatchedAnywhere` | src/social_network/social_network.py:41 | Markers match anywhere in the link: `https://www.instagram.com/shop/` passes because of `p/`. |
| `SocialNetworks.AcceptsFacebookPost` | src/social_network/social_network.py:45 | A Facebook `posts/` link under the home URL is accepted. |
| `SocialNetworks.PostUrlColumn` | src/social_network/social_network.py:30-36 | Instagram maps to `url` and Facebook to `postUrl`. |
| `SocialNetworks.ProfileUrl` | src/social_network/social_network.py:123-125 | The home URL is a prefix, and the user name is exactly what follows it. |
| `SocialNetworks.ProfileUrlInjective` | src/fragmentor.py:100-102 | Different user names give different profile URLs. |
| `SocialNetworks.Query` | src/social_network/social_network.py:128-134 | The query starts with `site: <domain> username: `, then the user name and a space, and ends with the post text. Its length is the prefix plus the user name, a space and the text. |
| `SocialNetworks.QueryDeterminesText` | src/social_network/social_network.py:130-132 | For one user, the query determines the post text. |
| `SocialNetworks.AlternativeQuery` | src/utils/utils.py:128-134 | The query starts with `site:+<domain>+`, and the rest is exactly the text. |
| `SocialNetworks.InstagramTargets` | src/social_network/social_network.py:56-90 | Lists the Instagram table's 35 target columns in order. |
| `SocialNetworks.FacebookTargets` | src/social_network/social_network.py:94-117 | Lists the Facebook table's 23 target columns in order. |
| `SocialNetworks.InstagramTargetsDistinct` | src/social_network/social_network.py:56-90 | No Instagram target name occurs twice. |
| `SocialNetworks.FacebookTargetsDistinct` | src/social_network/social_network.py:94-117 | No Facebook target name occurs twice. |
| `SocialNetworks.MappingTableShape` | src/social_network/social_network.py:52-118 | Each table has distinct targets and includes its network's post-URL column and `profileUrl`. Its first entry copies an input column. |
| `SocialNetworks.UsernameTarget` | src/fragmentor.py:30-96 | A table has a `username` target iff the network is Instagram. |
| `Schema.MappedRow` | src/social_network/social_network.py:141-142 | A rebuilt row has exactly the target columns, and each holds its copied cell or its default. |
| `Schema.ProfileColumn` | src/social_network/social_network.py:149 | Each `profileUrl` cell is the profile URL of the rendered user name in that row. |
| `Schema.MapFrame` | src/social_network/social_network.py:138-142 | Fails (`KeyError`) iff a copied column is missing. Otherwise the frame is well formed, its columns are the targets in table order, the row count is kept, and every cell is its mapping's cell. |
| `Schema.FixDf` | src/social_network/social_network.py:137-151 | The lenient `fix_df` succeeds iff every copied column exists. Its result has a `username` column and the same number of rows. |
| `Schema.FixDfStrict` | src/utils/utils.py:136-145 | The strict `fix_df` succeeds iff every copied column exists and the table has a `username` target. Its columns are exactly the targets, and the row count is kept. |
| `Schema.FixWithColumns` | src/social_network/social_network.py:141-146 | For any usable table, the result has the target columns, then `username` if the table lacks it. The row count is kept. |
| `Schema.FixWithProfileUrl` | src/social_network/social_network.py:145-149 | `profileUrl` is rebuilt from user names when one is known. Otherwise it keeps its empty default. |
| `Schema.ProfileUrlDefault` | src/social_network/social_network.py:115 | Each table's `profileUrl` entry is a defaulted empty string. |
| `Schema.FixDfColumns` | src/social_network/social_network.py:137-151 | `fix_df` fails iff a copied column is missing. Its columns follow table order and always include `username`. |
| `Schema.FixDfProfileUrl` | src/social_network/social_network.py:148-149 | `profileUrl` is rewritten from the user names iff some user name is not null. |
| `Schema.FacebookProfileUrlStaysEmpty` | src/social_network/social_network.py:145-149 | For Facebook, the added `username` column is all null, so every `profileUrl` stays empty. |
| `Schema.StrictFixDfFailsForFacebook` | src/fragmentor.py:104-113 | The strict `fix_df` fails for every Facebook frame. |
| `Schema.FixDfSucceedsForFacebook` | src/social_network/social_network.py:144-146 | The lenient `fix_df` succeeds for every Facebook frame that has the copied columns, and adds `username`. |
| `Cleaning.DedupeFrom` | src/utils/utils.py:209 | Output rows come from the input, keep the id column, and are no more numerous. |
| `Cleaning.DropDuplicates` | src/utils/utils.py:209 | `drop_duplicates(subset='id')`: the kept rows are a subsequence of the input, keep the id column, and have pairwise distinct ids. |
| `Cleaning.DedupeSubsequence` | src/utils.py:58 | Deduplication keeps the original order: the output is a subsequence. |
| `Cleaning.DedupeDistinct` | src/utils/utils.py:209 | No two kept rows share an id, and no kept id was already seen. |
| `Cleaning.DedupeKeepsFirst` | fragmentor.py:91 | The first row of every unseen id is kept. |
| `Cleaning.DedupeOnlyFirsts` | src/utils/utils.py:209 | Every kept row is the first row of its id. |
| `Cleaning.DedupeCount` | src/utils/utils.py:209-210 | The number of kept rows equals the number of distinct unseen ids. |
| `Cleaning.DuplicatesRemoved` | fragmentor.py:90-92 | `duplicates` is the row count minus the number of distinct ids. |
| `Cleaning.KeepLong` | src/utils/utils.py:213 | Keeps exactly the rows whose text is a string of at least 100 characters, and every kept text is that long. |
| `Cleaning.KeepLongSubsequence` | src/utils.py:62 | The length filter keeps the original order. |
| `Cleaning.KeepLongDistinct` | src/utils/utils.py:209-213 | The length filter cannot make two ids collide. |
| `Cleaning.ScrubRow` | src/utils/utils.py:217 | Only the text cell changes: the other columns keep their cells, and the text stays a string of the same length. |
| `Cleaning.CleanRows` | src/utils/utils.py:204-224 | Every cleaned text has at least 100 characters and no `,`, `\r` or `\n`. No rows are added. |
| `Cleaning.CleanDataPosts` | src/utils.py:53-73 | Fails iff `id` or `text` is missing, or the frame has rows and no `text` cell is a string (`.str` then raises `AttributeError`). Otherwise the frame keeps its columns, and its rows are the cleaned rows. |
| `Cleaning.CleanRowsUnique` | src/utils.py:58 | After cleaning, ids are pairwise distinct. |
| `Cleaning.CleanRowsSound` | src/utils/utils.py:209-217 | Each cleaned row is the first row of its id, with a long-enough text, scrubbed. |
| `Cleaning.CleanRowsComplete` | src/utils.py:58-66 | The first row of every id with a long-enough text survives, scrubbed. |
| `Cleaning.CleanRowsOrdered` | src/utils/utils.py:209-217 | The cleaned rows are, in order, the scrubbed forms of a subsequence of the input, each with a long-enough text: relative order is preserved. |
| `Fragmentor.Split` | src/fragmentor.py:125-128 | The parts concatenate back to the rows. There are ceil(n/500) of them; part k is rows [500k, min(500(k+1), n)). Every part is non-empty with at most 500 rows, and all but the last have exactly 500. |
| `Fragmentor.Stem` | src/fragmentor.py:127 | For a name of at least 4 characters, stem plus the last 4 characters is the name. Shorter names give `""`. |
| `Fragmentor.ValidateFileExtension` | src/utils.py:10-14 | Passes iff the name ends with the extension. |
| `Fragmentor.CsvStem` | src/fragmentor.py:119-127 | A validated `.csv` name is its stem followed by `.csv`. |
| `Fragmentor.PartName` | src/client/fragmentor.py:21 | A part name starts with `<prefix>_part` and ends with the extension, and exactly `str(part)` lies between them. |
| `Fragmentor.PartNamesDistinct` | src/fragmentor.py:125-128 | Different part numbers give different file names. |
| `Fragmentor.NameParts` | src/fragmentor.py:125-128 | Part k, counting from 0, is named with number k+1 and holds the k-th chunk. |
| `Fragmentor.WriteParts` | src/client/fragmentor.py:17-24 | The written parts concatenate back to the rows. There are ceil(n/500) parts; part k holds rows [500k, min(500(k+1), n)), all but the last hold exactly 500, and part k is named `<prefix>_part<k+1><ext>`. |
| `Fragmentor.FragmentCsv` | src/fragmentor.py:116-129 | Succeeds iff the name ends in `.csv` and cleaning and the strict `fix_df` succeed. The parts reproduce the cleaned, fixed rows and are named after the stem with `.csv`. |
| `Fragmentor.FragmentText` | src/client/fragmentor.py:8-24 | The same for the client script: clean, then lenient `fix_df`, then split into `.txt` parts. |
| `Fragmentor.FragmentRaw` | fragmentor.py:85-98 | Succeeds iff the name ends in `.csv` and `id` exists. The parts reproduce the deduplicated rows and are named after the whole file name. |
| `Fragmentor.RawPartNameKeepsExtension` | fragmentor.py:96 | The top-level script names the first part of `posts.csv` `posts.csv_part1.csv`, where the stem-based scripts name it `posts_part1.csv`. |
| `Backends.FirstValid` | src/search_engines/google_custom_search.py:56-67 | Finds the first hit in back-end order that the validator accepts. None iff no hit is accepted. |
| `Backends.FirstValidNotEmpty` | src/search_engines/google_lib_search.py:27-34 | With a validator that rejects empty links, an accepted hit has a non-empty link. |
| `CustomSearch.NewKey` | src/search_engines/google_custom_search.py:7-10 | A fresh key has 0 requests and is active. |
| `CustomSearch.IncrementRequests` | src/search_engines/google_custom_search.py:12-16 | Adds exactly one request. The key stays active iff it was active and the count is at most 100. `active ⟹ count ≤ 100` holds afterwards. |
| `CustomSearch.IncrementsSpec` | src/search_engines/google_custom_search.py:12-16 | After m ≥ 1 requests, the count has grown by m. The key is active iff it was and the total is at most 100. |
| `CustomSearch.FreshKeyLifetime` | src/search_engines/google_custom_search.py:7-16 | A fresh key stays active for exactly 100 requests. |
| `CustomSearch.NewManager` | src/search_engines/google_custom_search.py:20-24 | Creates one fresh key per token, with no successes and `all_keys_off` false. |
| `CustomSearch.GetActiveKey` | src/search_engines/google_custom_search.py:26-30 | Returns the first active key in pool order. None iff no key is active. |
| `CustomSearch.SearchPost` | src/search_engines/google_custom_search.py:35-75 | Keeps the pool size and tokens. Never reactivates a key. Preserves `active ⟹ count ≤ 100`. `all_keys_off` is never reset. |
| `CustomSearch.NoActiveKey` | src/search_engines/google_custom_search.py:38-43 | With no active key, the call returns `""`, sets `all_keys_off`, and changes nothing else. |
| `CustomSearch.ChargesFirstActiveKey` | src/search_engines/google_custom_search.py:45-46 | Only the first active key is charged one request, whatever the answer. The other keys are untouched. |
| `CustomSearch.ErrorOutcomes` | src/search_engines/google_custom_search.py:68-75 | On an HTTP error the call returns `""` and counts no success. The key stays active iff the status is not 429 and its budget remains. There is no retry. |
| `CustomSearch.SuccessOutcome` | src/search_engines/google_custom_search.py:56-67 | A successful answer returns its first accepted hit and counts one success. Otherwise it returns `""` and counts none. |
| `CustomSearch.SuccessCountsFoundLinks` | src/search_engines/google_custom_search.py:66-67 | `success_searches` grows by one iff a non-empty link is returned. |
| `CustomSearch.OneRequestPerCall` | src/search_engines/google_custom_search.py:37-75 | A call adds exactly one request to the pool when a key is active, and none otherwise. |
| `CustomSearch.TotalRequestsUpdate` | src/search_engines/google_custom_search.py:13 | Changing one key's count changes the pool total by the same amount. |
| `LibSearch.NewSearchManager` | src/search_engines/google_lib_search.py:7-9 | The quota flag starts false and the counter starts at 0. |
| `LibSearch.SearchPost` | src/search_engines/google_lib_search.py:15-44 | The quota flag is never reset. The counter grows by at most one. The flag is newly set only by a 429, and then `""` is returned. |
| `LibSearch.SearchPostResult` | src/search_engines/google_lib_search.py:27-34 | Returns the first accepted hit in generator order, with one success counted. Otherwise returns `""` with none. |
| `LibSearch.SuccessCountsFoundLinks` | src/search_engines/google_lib_search.py:33-34 | `success_search` grows by one iff a non-empty URL is returned. |
| `LibSearch.IgnoresQuotaFlag` | src/search_engines/google_lib_search.py:15-17 | The search does not consult its own quota flag. |
| `LibSearch.QuotaLatch` | src/search_engines/google_lib_search.py:35-38 | The flag is set after the call iff it was set before, or a 429 ended a search with no accepted hit. |
| `LegacySearcher.FirstValidLink` | src/searcher.py:41-46 | Returns the link of the first hit that satisfies the network rule. Returns `""` iff no hit does. |
| `LegacySearcher.TryFrom` | src/searcher.py:25-54 | `start_search` from slot `a` on, one slot per step: the pool keeps its size and tokens, no slot is switched back on, a count grows by at most one and stays at most 101, and the link is `""` or valid. |
| `LegacySearcher.TryFromShape` | src/searcher.py:25-54 | The reference definition tries slots in order: earlier slots failed (a 429 switched them off, other errors left them), the slot that answers is charged one request and gives its first valid link, later slots are untouched, and with no answer the link is `""`. |
| `LegacySearcher.StartSearch` | src/searcher.py:22-54 | The loop computes exactly the reference definition `TryFrom` from slot 0. Tries each key at most once, in order, skipping inactive keys and keys with count above 100. Earlier keys failed: a 429 switches a key off, and other errors leave it. The first success adds one to that key's count and returns its first valid link or `""`. Later keys are untouched. With no success, it returns `""`. |
| `LegacySearcher.PoolStepTrans` | src/searcher.py:108-116 | Two rows' worth of searches keep the pool's invariants. |
| `LegacySearcher.PoolAfter` | src/searcher.py:108-116 | The slots after searching the messages one after another, each search starting where the previous one left off. No slot is switched back on, and the count bound is kept. |
| `LegacySearcher.PoolAfterStep` | src/searcher.py:108-116 | Searching one more message continues from the slots the earlier messages left. |
| `LegacySearcher.RowUrl` | src/searcher.py:108-128 | The URL row k writes is the one its search finds from the slots the earlier rows left, and it holds `://`. |
| `LegacySearcher.FoundUrls` | src/searcher.py:108-128 | One URL per message: entry k is row k's result, with the slots threaded from row k-1. Every URL found holds `://`. |
| `LegacySearcher.SearchRow` | src/searcher.py:108-130 | The query is the BMP-filtered message. The slots and the Custom Search link are those `start_search` gives for that query. The alternative search runs iff Custom Search found nothing, using `generate_alternative_query`. A found URL is written in extracted form. |
| `LegacySearcher.SearchMessages` | src/searcher.py:108-116 | The loop returns exactly `FoundUrls`: URL k is the search of message k from the slots the earlier rows left. The final slots are those after all the searches. |
| `LegacySearcher.Messages` | src/searcher.py:109 | One message per row, and message k is exactly row k's `message` string. |
| `LegacySearcher.WrittenCell` | src/searcher.py:118-128 | A row's post-URL cell: the found URL, else what the column held, else missing when the column is new. |
| `LegacySearcher.WriteUrls` | src/searcher.py:118-128 | Only the post-URL column changes. It is appended only when it was absent and some URL was found; each of its cells is the written cell of its row. |
| `LegacySearcher.SearchFrame` | src/searcher.py:106-130 | Fails iff some row has no string `message` (an export without rows never fails). Otherwise the slots are those after searching every message in turn, and the frame is the input with the URLs each row's search found written to the post-URL column. |
| `ClientSearcher.RawSearch` | src/client/searcher.py:13-20 | The library search runs only when Custom Search returned `""`. The engine is `cse` iff Custom Search found a link. |
| `ClientSearcher.ProcessSearchAsWritten` | src/client/searcher.py:13-22 | As written, the URL is the extracted form of the raw answer, even when both providers found nothing, so it is never empty. Providers and engine are those of the raw search. |
| `ClientSearcher.ProcessSearch` | src/client/searcher.py:13-22 | As intended, the URL is `""` iff both providers found nothing, and a found URL is the extracted form of the raw answer. |
| `ClientSearcher.WrittenUrlAsWritten` | src/client/searcher.py:63-71 | As written, a searched row's cell is the extracted raw answer, whatever it was. |
| `ClientSearcher.WrittenUrl` | src/client/searcher.py:63-71 | As intended, a searched row's cell is the profile URL when nothing was found, and the extracted raw answer otherwise. |
| `ClientSearcher.AsWrittenWritesSeparator` | src/client/searcher.py:71 | As written, a row with nothing found gets `://`, not the profile URL. |
| `ClientSearcher.WritesProfileWhenNothingFound` | src/client/searcher.py:63-71 | With the intended `process_search`, a row with nothing found gets the profile URL, and a found link is written in extracted form. |
| `ClientSearcher.VisitRow` | src/client/searcher.py:56-71 | For either revision of `process_search`: a row with a URL is skipped, leaves the providers alone, and is counted iff its URL differs from the profile URL. Any other row is searched from the current providers, which become what the search left, and gets that revision's cell (`://`-extracted raw answer as written). The provider success count grows by one iff a provider returned a link. |
| `ClientSearcher.StepCell` | src/client/searcher.py:63-71 | A searched row's cell holds `://` when a link was found, and otherwise is `extract_relevant_url("")` as written or the profile URL as intended. |
| `ClientSearcher.MatchesStep` | src/client/searcher.py:43-71 | One visited row extends the row-by-row agreement between input, output and outcome log. |
| `ClientSearcher.TracedStep` | src/client/searcher.py:43-71 | A visit made with the quota flag clear extends the trace of provider states by one step. |
| `ClientSearcher.CreditsSnoc` | src/client/searcher.py:77-80 | The report count grows by one outcome's credit per row. |
| `ClientSearcher.Run` | src/client/searcher.py:43-71 | Per visited row, the output is what a visit allows. `trace[k]` is the providers' state before row k: it starts at the input state, its quota flag was clear before every visited row, and each visit leads from `trace[k]` to `trace[k+1]` by the search of that row. The loop stops before a row only when the flag is set. Later rows are unchanged. `success` counts the skipped rows with a non-profile URL, and `success` plus the provider counters grows by the number of credited rows. |
| `ClientSearcher.RunFresh` | src/client/searcher.py:77-80 | From fresh providers, for either revision, the reported found count is exactly the credited rows: prefilled non-profile URLs plus searches that returned a link. It is at most the number of visited rows. |
| `ClientSearcher.CreditsBound` | src/client/searcher.py:77-80 | The credited rows are at most the visited rows. |

## Left out

- ClientSearcher.VisitRow: the success-counter clause holds only for a validator that rejects `""`. The source counts any accepted hit, even an empty link, but the real per-network rule never accepts `""` (`SocialNetworks.ValidLinkNotEmpty`).
- ClientSearcher.Run: the counter equation is conditioned on a validator that rejects `""`, for the same reason.
- ClientSearcher.RunFresh: requires a validator that rejects `""`, for the same reason.
- HTTP and the back-ends (`requests.get`, googleapiclient, `googlesearch.search`) are oracles. Exceptions other than HTTP errors propagate in the source and are not modelled for Custom Search and the first searcher.
- `search_alternative` (src/searcher.py:67-94) scrapes web pages with a random user agent and sleeps. It is the `alternative` oracle of `LegacySearcher.SearchRow`.
- `urlparse` is the `parse` oracle, and `ExtractRelevantUrl` only reassembles its parts.
- Interactive input (`get_social_network`, `list_files_and_get_input`), environment variables, `load_dotenv`, the SIGINT handler and `sys.exit` are left out. An exit is an `Err` result.
- pandas I/O (`read_csv`, `to_csv`, `to_string`, the JSON export) is left out. Part contents are rows, not rendered text.
- `format_data`, `save_to_json`, `extract_theme_from_filename`, `get_cse_keys` and `clean_df` are not defined in the repository's files and are not part of this model.
- src/client/formatter.py is glue and is not part of this model.
- `remaped_columns` in fragmentor.py is left out. Missing commas make it call tuples, so it cannot run. It is never called.
- Console output is left out, including the statistics `clean_data_posts` prints. Its "remaining" figure subtracts the duplicates twice. That is printing only, and no returned value depends on it.
- Floating-point `NaN` is `Null`, and it renders as `nan`. Numeric cells and pandas dtypes are not modelled: a `text` column counts as a string column when some cell holds a string.
- `ClientSearcher.Run` reads `username`, `message` and `url` directly. The `or` fallbacks to `Username`, `Caption` and `URL` are left out, and so are user names and texts that are not strings.
- `LegacySearcher.SearchFrame` checks that all messages are strings before searching. The source fails at the first non-string message, after searching earlier rows. The key state after that crash is not modelled.
- Every back-end is a pure function shared by all rows, so two rows with the same query get the same answer. Answers that change over time are not modelled.
- `ClientSearcher.Run` and `ClientSearcher.VisitRow` take the `process_search` revision as a parameter. `AsWritten` is the source's loop; `Corrected` is the loop with the fix described under Findings.
- The first searcher's `main` passes `NUM_KEYS` to `range` as a string. The model takes the key slots as given.
- The `max_results` query parameter of the first searcher is part of the oracle.
- The mapping tables of src/fragmentor.py and src/utils/utils.py are textually identical to src/social_network/social_network.py's, so one table definition serves all three copies.

## Findings

| source | as written | input that shows it | evidently intended | confidence | as-written member | corrected member |
|---|---|---|---|---|---|---|
| src/client/searcher.py:22 | `process_search` passes the URL through `extract_relevant_url` even when both providers returned `""`. The f-string then yields `://`, which is truthy, so `post_url or profile_url` at line 71 never falls back. | A row with no URL for which both providers find nothing, with `urlparse("")` giving empty parts: the row is written `://`. | Extract only found links. A row with nothing found gets the profile URL. | not executed | `ClientSearcher.AsWrittenWritesSeparator` | `ClientSearcher.WritesProfileWhenNothingFound` |
| src/fragmentor.py:111 | `fix_df` reads `df_fixed['username']` unconditionally. The Facebook table has no `username` target (it has `nickName`). | Any Facebook export: `fix_df` raises `KeyError` and no part is written. | Add a missing `username` column and rebuild `profileUrl` only when some user name is known, as src/social_network/social_network.py:144-149 does. | not executed | `Schema.StrictFixDfFailsForFacebook` | `Schema.FixDfSucceedsForFacebook` |

`Fragmentor.FragmentCsv` keeps the strict revision, because it models
src/fragmentor.py as written. The client fragmentor and the searchers use
the lenient one.
