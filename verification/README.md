# fetch-docs, modelled in Dafny

This project models the documentation fetcher `tools/scripts/fetch-docs.py`.
For every configured source, the fetcher does the following:

- reads the source's sitemap and keeps the URLs that contain the source's pattern;
- derives a document name from each URL;
- fetches the `.md` variant of each named page, with retries and exponential back-off;
- compares the content's hash with the one stored in the source's manifest;
- writes the documents that changed, tallies `updated` / `unchanged` / `failed`;
- saves the manifest when something was updated.

A check mode, `check_updates`, reports for each source which names are new, removed or changed, and writes nothing.

The model is pure. Everything outside the program is a value of
`Sources.World`:

- the network (the results of successive requests to a URL);
- the XML parser;
- the content hash;
- whether a document file can be written;
- the manifest files;
- the clock.

The thread pool becomes the order in which the futures finish. That order is a sequence `done` of the submitted tasks, and it is constrained only to be a rearrangement of them, so every proof about it holds for every completion order.

Modules, leaf first:

- `Results` (`Option`, `Result`, Python truthiness of an optional string).
- `Seqs` (subsequences, counting, mapping, rearrangements).
- `Strings` (`p in s`, `s.split(sep)[-1]`, `s.rstrip(c)`).
- `Urls` (filtering, the document-name rule, the markdown URL, the first URL containing a name).
- `Retry` (`fetch_with_retry`).
- `Manifests`.
- `Sitemap` (`fetch_sitemap`).
- `Documents` (`fetch_markdown`, `process_document`).
- `Aggregate` (the completion loop).
- `Sources` (`process_source`).
- `Checks` (`check_updates`).

Behaviour of the code worth knowing:

- **Document names.** The name comes from the *last* piece of `url.split(pattern)`, not from the text after the first occurrence of the pattern.
- **Retry budget.** Retries use the fetcher-wide `max_retries`. The per-source `max_retries` that `load_config` fills in is never read by `fetch_with_retry`.
- **Documents without a stored hash.** There is no separate "new" classification when fetching. A document without a stored hash is `would_update` in a dry run, and it is not even fetched then. Otherwise it is `updated`, or `failed` if the fetch fails.
- **Unwritable document files.** An exception while writing a document file is caught by the completion loop and counted as `failed`. It does not fail the source.
- **Empty pattern.** An empty pattern makes `url.split('')` raise as soon as a URL is filtered. Neither `process_source` nor `check_updates` catches this, so both return an error in the model.
- **Documents sharing a name.** Two filtered URLs can yield the same name. Only the hash of the one finishing last is stored, so when their contents differ the other one is `updated` again on every run (`Aggregate.StableAcrossRuns` needs the last writer).
- **Check-mode URL lookup.** A changed name is re-fetched from the first filtered URL that merely *contains* the name. That URL may belong to another document (`Checks.LookupMayPickOtherDocument`).

## Model

| member | source | states |
|---|---|---|
| `Strings.FirstIndex` | tools/scripts/fetch-docs.py:144 | the leftmost occurrence of the pattern, no earlier one, or none at all; the basis of Python's `in` |
| `Strings.AfterLast` | tools/scripts/fetch-docs.py:260 | `split(sep)[-1]` is a suffix in which `sep` occurs nowhere, preceded by `sep` when `sep` occurs, and the whole string otherwise |
| `Strings.AfterLastScan` | tools/scripts/fetch-docs.py:260 | `split(sep)[-1]` is the text after the separators found by the left-to-right scan for non-overlapping occurrences: each the leftmost one where the previous ended, none after the last |
| `Strings.AfterLastFirst` | tools/scripts/fetch-docs.py:260 | dropping the text up to and including the first separator does not change the last piece |
| `Strings.OverlappingSeparator` | tools/scripts/fetch-docs.py:260 | with a self-overlapping separator the scan decides: `"aaa".split("aa")[-1]` is `"a"` |
| `Strings.RStrip` | tools/scripts/fetch-docs.py:261 | `rstrip('/')` is the longest prefix that does not end in `/`, and only `/` characters were removed |
| `Strings.RStripIgnoresTrailing` | tools/scripts/fetch-docs.py:261 | appending stripped characters does not change the stripped result |
| `Urls.FilterUrls` | tools/scripts/fetch-docs.py:142-144 | the result is an in-order subsequence of the URLs and holds each URL containing the pattern exactly as often as the input, and no other |
| `Urls.DocName` | tools/scripts/fetch-docs.py:260-261 | raises exactly for an empty pattern; the name is empty when the pattern is absent, never contains `/`, and occurs in the URL; with the pattern present, the name is empty exactly when the last piece stripped of trailing slashes is, and is that stripped piece's last `/`-separated segment (the whole piece when it holds no `/`) |
| `Urls.DocNameShape` | tools/scripts/fetch-docs.py:260-261 | a non-empty name ends the URL up to its trailing slashes and is preceded either by a `/` or directly by the pattern (so it need not be a whole path segment) |
| `Urls.MarkdownUrl` | tools/scripts/fetch-docs.py:172 | the markdown URL ends in `.md` after the URL with its trailing slashes, and only those, removed |
| `Urls.MarkdownUrlIgnoresTrailingSlashes` | tools/scripts/fetch-docs.py:172 | trailing slashes never change the markdown URL |
| `Urls.FirstContaining` | tools/scripts/fetch-docs.py:387 | the first URL that contains the name, with no earlier one containing it, or none when no URL contains it |
| `Retry.RetryFrom` | tools/scripts/fetch-docs.py:99-108 | from attempt `i`: stops at the first success or after the budget, sleeping `2^k` after each failed attempt `k` but the last |
| `Retry.Retry` | tools/scripts/fetch-docs.py:94-111 | at most `max_retries` requests, all before the last failed; the response is the first success, or none after exactly `max_retries` failures; delays `1, 2, 4, …`, one fewer than the requests |
| `Retry.FetchWithRetry` | tools/scripts/fetch-docs.py:94-111 | the loop with a doubling `delay` makes the same requests and sleeps as the recursive definition |
| `Retry.TotalBackoff` | tools/scripts/fetch-docs.py:106-108 | delays `1, 2, …, 2^(n-1)` add up to `2^n - 1` |
| `Retry.PermanentFailure` | tools/scripts/fetch-docs.py:99-111 | an endpoint that always fails is tried exactly `max_retries` times, with total back-off `2^(max_retries-1) - 1` |
| `Manifests.StoredHash` | tools/scripts/fetch-docs.py:263 | a name the manifest holds gives its stored hash; a name it lacks gives none |
| `Sitemap.Texts` | tools/scripts/fetch-docs.py:133-135 | only non-empty `loc` texts are kept, each as often as an element carries it |
| `Sitemap.TextsInOrder` | tools/scripts/fetch-docs.py:133-135 | the kept texts keep document order |
| `Sitemap.LocTexts` | tools/scripts/fetch-docs.py:127-135 | namespaced `loc` elements are used when there are any, the namespace-less ones otherwise |
| `Sitemap.BlankNamespacedSuppressesFallback` | tools/scripts/fetch-docs.py:128-131 | namespaced elements without text still suppress the fallback, so the sitemap yields nothing |
| `Sitemap.FetchSitemap` | tools/scripts/fetch-docs.py:113-140 | empty when the fetch fails after all retries or the XML does not parse; a fetched sitemap that parses yields exactly its `loc` texts; never an empty URL |
| `Documents.FetchMarkdown` | tools/scripts/fetch-docs.py:170-180 | the content is the first successful attempt on the `.md` URL within the budget, every earlier attempt having failed; none means all of them failed |
| `Documents.FetchIgnoresTrailingSlashes` | tools/scripts/fetch-docs.py:172-174 | trailing slashes on the page URL never change what is fetched |
| `Documents.ProcessDocument` | tools/scripts/fetch-docs.py:182-221 | the full classification: each status, and raising, exactly under its condition on stored hash, force, dry run, fetched content, hash comparison and writability; content and hash only with `updated` |
| `Documents.FetchIrrelevantWhenSkipped` | tools/scripts/fetch-docs.py:207-209 | a dry run without a usable stored hash (or forced) does not depend on the network |
| `Documents.DryRunNeverWrites` | tools/scripts/fetch-docs.py:197-209 | a dry run never raises and never returns `updated`, content or a hash |
| `Documents.StableContentUnchanged` | tools/scripts/fetch-docs.py:188-194 | content whose hash equals the stored one is `unchanged`, dry run or not |
| `Documents.NoStoredHashNeverUnchanged` | tools/scripts/fetch-docs.py:207-221 | a document without a stored hash, or forced, is never `unchanged` |
| `Documents.UpdatedHashMatchesContent` | tools/scripts/fetch-docs.py:211-219 | `updated` carries the content and the hash of that content |
| `Aggregate.ExactlyOneCounter` | tools/scripts/fetch-docs.py:300-333 | every outcome, raised or returned, lands in exactly one counter |
| `Aggregate.Absorb` | tools/scripts/fetch-docs.py:296-333 | one completion adds one to the counters and writes its own name's entry only for a real update with a hash, leaving every other key alone |
| `Aggregate.Run` | tools/scripts/fetch-docs.py:294-335 | the loop adds exactly one count per completion |
| `Aggregate.TallyOfTotal` | tools/scripts/fetch-docs.py:300-333 | the three counts of a batch add up to its size |
| `Aggregate.TallyOfPermutation` | tools/scripts/fetch-docs.py:294 | the counts depend only on the multiset of outcomes, not on completion order |
| `Aggregate.RunTally` | tools/scripts/fetch-docs.py:294-335 | the loop adds to each counter the number of outcomes of that kind |
| `Aggregate.DryRunKeepsDocuments` | tools/scripts/fetch-docs.py:311 | a dry run leaves the manifest documents untouched |
| `Aggregate.RunKeepsUnwritten` | tools/scripts/fetch-docs.py:310-317 | a key no completion writes keeps its loaded entry or stays absent |
| `Aggregate.RunLastWriteWins` | tools/scripts/fetch-docs.py:310-317 | the last completion writing a key decides its entry (url, hash, stamp) |
| `Aggregate.StableAcrossRuns` | tools/scripts/fetch-docs.py:188-317 | after a real run, a document whose last write came from some content is `unchanged` in the next run that fetches the same content, dry or not |
| `Aggregate.RunKeys` | tools/scripts/fetch-docs.py:310-317 | the keys after the loop are the loaded keys plus the written names |
| `Sources.TaskList` | tools/scripts/fetch-docs.py:257-264 | the tasks are the filtered URLs that yield a name, in order and with multiplicity, each with its name and stored hash; none when markdown fetching is off |
| `Sources.Prepare` | tools/scripts/fetch-docs.py:257-264 | an empty pattern raises exactly when some URL was filtered; otherwise the task list |
| `Sources.Pool` | tools/scripts/fetch-docs.py:269-335 | the loop over a batch counts every finished future once |
| `Sources.RunTasks` | tools/scripts/fetch-docs.py:269-346 | counts sum to the batch size; saved iff not dry and updated > 0, with the loaded manifest's source and the final clock reading as `last_updated` |
| `Sources.RunOrSkip` | tools/scripts/fetch-docs.py:249-267 | the early returns and the run both keep the save decision |
| `Sources.Finish` | tools/scripts/fetch-docs.py:257-346 | fails exactly when preparing the tasks raised |
| `Sources.ProcessSource` | tools/scripts/fetch-docs.py:223-346 | fails exactly when an empty pattern meets a filtered URL |
| `Sources.SaveDecision` | tools/scripts/fetch-docs.py:241-343 | the manifest is saved iff not dry and updated > 0, and then records the sitemap as source |
| `Sources.DryRunNeverSaves` | tools/scripts/fetch-docs.py:340-343 | a dry run never saves the manifest |
| `Sources.SubmittedPermutation` | tools/scripts/fetch-docs.py:274-294 | rearranging the tasks rearranges their outcomes |
| `Sources.CompletionOutcomes` | tools/scripts/fetch-docs.py:294-297 | the outcomes of the completions are those of the finished tasks, in order |
| `Sources.PoolTally` | tools/scripts/fetch-docs.py:294-335 | the counters of the loop are the tally of the finished tasks' outcomes |
| `Sources.RunOrSkipTally` | tools/scripts/fetch-docs.py:249-335 | whatever the completion order, the counters are the tally of the submitted outcomes, all zero for an empty batch |
| `Sources.ProcessSourceTally` | tools/scripts/fetch-docs.py:223-346 | `process_source` returns the tally of its submitted documents' outcomes |
| `Sources.ProcessSourceTotal` | tools/scripts/fetch-docs.py:223-346 | the three counters add up to the number of submitted documents |
| `Sources.OrderIndependent` | tools/scripts/fetch-docs.py:294-346 | two completion orders give the same counters and the same save decision |
| `Sources.SitemapFailureDoesNothing` | tools/scripts/fetch-docs.py:244-250 | an unreachable sitemap gives all-zero counters and no save |
| `Sources.MarkdownOffDoesNothing` | tools/scripts/fetch-docs.py:262-267 | with `fetch_markdown` off nothing is submitted and nothing saved |
| `Sources.CompletionNames` | tools/scripts/fetch-docs.py:295-297 | each completion carries its task and a returned name equal to the task's name |
| `Sources.NoCompletionWrites` | tools/scripts/fetch-docs.py:310-317 | no completion writes a key whose write no task's outcome asks for |
| `Sources.UnwrittenKeysKept` | tools/scripts/fetch-docs.py:310-317 | the manifest changes only at keys some outcome writes; every other entry is kept |
| `Sources.UnprocessedKeysKept` | tools/scripts/fetch-docs.py:310-317 | entries of names no task carries are kept |
| `Sources.UpdatedDocumentRecorded` | tools/scripts/fetch-docs.py:304-343 | a real `updated` with a hash is saved in the manifest, whatever the completion order |
| `Sources.AllUpdatesRecorded` | tools/scripts/fetch-docs.py:310-343 | from an empty manifest, when every outcome writes, the saved keys are exactly the batch's names: no update is lost |
| `Checks.CurrentNames` | tools/scripts/fetch-docs.py:369-375 | the current names are exactly the non-empty names of the filtered URLs; an empty pattern raises when a URL is filtered |
| `Checks.Compare` | tools/scripts/fetch-docs.py:378-406 | new, changed and removed are pairwise disjoint; changed is within current ∩ existing; new, removed and the shared names together cover current ∪ existing |
| `Checks.CheckSource` | tools/scripts/fetch-docs.py:356-412 | a source's report fails exactly when an empty pattern meets a filtered URL |
| `Checks.CheckSourceReport` | tools/scripts/fetch-docs.py:378-406 | new = listed and not stored; removed = stored and not listed; changed = listed, stored and with a differing re-fetched hash |
| `Checks.LookupFinds` | tools/scripts/fetch-docs.py:386-388 | a listed name always finds a URL to re-fetch |
| `Checks.LookupMayPickOtherDocument` | tools/scripts/fetch-docs.py:387 | the URL re-fetched for a name can be another document's, whose own name differs |
| `Checks.StaleMatchesDryRun` | tools/scripts/fetch-docs.py:386-406 | for a listed name with a stored hash, check mode reports it changed exactly when a non-forced dry run fed the content of the looked-up URL would report `would_update`; that URL is the first one containing the name, not necessarily the document's own |
| `Checks.Select` | tools/scripts/fetch-docs.py:350-352 | all sources when no name is given, otherwise the in-order subsequence of sources with that name, each kept as often as it occurs |
| `Checks.CheckAll` | tools/scripts/fetch-docs.py:354-414 | succeeds iff every selected source does; its keys are exactly the selected sources' names |
| `Checks.LastSourceWins` | tools/scripts/fetch-docs.py:408 | a source name maps to the report of the last source with that name |
| `Checks.CheckUpdates` | tools/scripts/fetch-docs.py:348-414 | with a source name given, only that name can appear in the result |

## Left out

- HTTP, XML parsing, JSON, file I/O and directory creation (`mkdir`): the network, the parser, the manifest files and document-file writability are oracles in `Sources.World`.
- Failing `mkdir` of the output directory or `save_manifest` is not modelled. Both raise out of `process_source`, and the model does not include those errors.
- Hashing: `get_document_hash` (SHA-256) is an uninterpreted function from content to hash.
- Clock: `datetime.utcnow()` is the k-th reading of an oracle. Entries and `last_updated` carry the reading, not a formatted timestamp.
- Threads and the manifest lock: the pool is replaced by an arbitrary completion order. The lock only serialises the loop's updates, which the fold already does. The bound on workers in flight is not modelled.
- Sleeping: the back-off delays are returned as a list, not waited for. The unused `retry_delay` default and the request timeout are not modelled.
- Each URL's attempt oracle is fixed for a whole run. A fetch and a later re-fetch of the same URL therefore see the same answers.
- Printing, verbosity, the progress bar (tqdm) and its fallback are not modelled.
- `load_config`, its defaults and `max_workers` are not modelled.
- `run`, the argument parser and `main` are not modelled, including the totals summed over sources and the unknown-source errors.
- `load_manifest` and `save_manifest` are modelled only as the oracle and the saved value. A manifest file is assumed well formed: a JSON document with a `documents` mapping.
- The finance scripts of the repository are not modelled.
- Order in the check report: `changed` comes back in completion order and `new`/`removed` in set order. The model reports sets.
- `Sources.RunOrSkip`: its contract states only the save decision. The counters of the early returns are stated by `Sources.RunOrSkipTally`.
- `Checks.CheckUpdates`: its contract states only the key restriction. Success and the reports are stated by `Checks.CheckAll`, `Checks.CheckSource` and `Checks.CheckSourceReport` for the per-source check it passes in.
