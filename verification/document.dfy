/** `fetch_markdown` and `process_document`: the fetch-compare-write decision
    for one document. The network is an oracle giving, per URL, the results
    of successive attempts; hashing is an uninterpreted `digest`; whether the
    document file can be written is a boolean, and an unwritable file makes
    the call raise. */
module Documents {
  import opened Results
  import Urls
  import Retry

  /** `fetch_markdown(url)`: the body of the `.md` variant of `url`, retried. */
  function FetchMarkdown(url: string, maxRetries: int, net: string -> seq<Option<string>>): (r: Option<string>)
    ensures r.Some? ==> exists k :: 0 <= k < maxRetries && Retry.Attempt(net(Urls.MarkdownUrl(url)), k) == r
                                   && forall j :: 0 <= j < k ==> Retry.Attempt(net(Urls.MarkdownUrl(url)), j).None?
    ensures r.None? ==> forall k :: 0 <= k < maxRetries ==> Retry.Attempt(net(Urls.MarkdownUrl(url)), k).None?
  {
    var attempts := net(Urls.MarkdownUrl(url));
    RetryResponse(maxRetries, attempts);
    Retry.Retry(maxRetries, attempts).response
  }

  /** The response of a retried fetch is the first successful attempt within
      the budget, and none means all of them failed. */
  lemma RetryResponse(maxRetries: int, attempts: seq<Option<string>>)
    ensures var r := Retry.Retry(maxRetries, attempts).response;
            r.Some? ==> exists k :: 0 <= k < maxRetries && Retry.Attempt(attempts, k) == r
                                    && forall j :: 0 <= j < k ==> Retry.Attempt(attempts, j).None?
    ensures var r := Retry.Retry(maxRetries, attempts).response;
            r.None? ==> forall k :: 0 <= k < maxRetries ==> Retry.Attempt(attempts, k).None?
  {
    var run := Retry.Retry(maxRetries, attempts);
    if run.response.Some? {
      assert Retry.Attempt(attempts, run.tries - 1) == run.response;
    }
  }

  /** Trailing slashes on the page URL never change what is fetched. */
  lemma FetchIgnoresTrailingSlashes(url: string, slashes: string, maxRetries: int,
                                    net: string -> seq<Option<string>>)
    requires forall i :: 0 <= i < |slashes| ==> slashes[i] == '/'
    ensures FetchMarkdown(url + slashes, maxRetries, net) == FetchMarkdown(url, maxRetries, net)
  {
    Urls.MarkdownUrlIgnoresTrailingSlashes(url, slashes);
  }

  /** The status strings `process_document` returns. */
  datatype Status = Unchanged | Updated | WouldUpdate | Failed

  /** A returned tuple `(doc_name, status, content, hash)`, or an exception
      (raised when writing the document file fails). */
  datatype Outcome =
    | Returned(name: string, status: Status, content: Option<string>, hash: Option<string>)
    | Raised

  /** A stored hash exists, the run is not forced, and so the document is
      fetched only to compare. */
  predicate Compares(existing: Option<string>, force: bool) {
    !force && Truthy(existing)
  }

  /** Whether `process_document` calls `fetch_markdown` at all. */
  predicate Fetches(existing: Option<string>, force: bool, dryRun: bool) {
    Compares(existing, force) || !dryRun
  }

  /** The fetched content differs from the stored hash. */
  predicate Differs(existing: Option<string>, fetched: Option<string>, digest: string -> string)
    requires existing.Some? && fetched.Some?
  {
    digest(fetched.value) != existing.value
  }

  /** `process_document`. `fetched` is what `fetch_markdown` returns if it is
      called; `canWrite` says whether writing the document file succeeds. */
  function ProcessDocument(name: string, existing: Option<string>, force: bool, dryRun: bool,
                           fetched: Option<string>, digest: string -> string, canWrite: bool): (r: Outcome)
    ensures r.Returned? ==> r.name == name
    ensures r.Raised? <==> !dryRun && Truthy(fetched) && !canWrite
                           && (Compares(existing, force) ==> Differs(existing, fetched, digest))
    ensures r.Returned? && r.status == Unchanged <==>
              Compares(existing, force) && Truthy(fetched) && !Differs(existing, fetched, digest)
    ensures r.Returned? && r.status == Failed <==> Fetches(existing, force, dryRun) && !Truthy(fetched)
    ensures r.Returned? && r.status == WouldUpdate <==>
              dryRun && (Compares(existing, force) ==> Truthy(fetched) && Differs(existing, fetched, digest))
    ensures r.Returned? && r.status == Updated <==>
              !dryRun && Truthy(fetched) && canWrite
              && (Compares(existing, force) ==> Differs(existing, fetched, digest))
    ensures r.Returned? && r.status == Updated ==> r.content == fetched && r.hash == Some(digest(fetched.value))
    ensures r.Returned? && r.status != Updated ==> r.content.None? && r.hash.None?
  {
    if Compares(existing, force) then
      if Truthy(fetched) then
        if digest(fetched.value) == existing.value then Returned(name, Unchanged, None, None)
        else if !dryRun then
          if canWrite then Returned(name, Updated, fetched, Some(digest(fetched.value))) else Raised
        else Returned(name, WouldUpdate, None, None)
      else Returned(name, Failed, None, None)
    else if dryRun then Returned(name, WouldUpdate, None, None)
    else if Truthy(fetched) then
      if canWrite then Returned(name, Updated, fetched, Some(digest(fetched.value))) else Raised
    else Returned(name, Failed, None, None)
  }

  /** When nothing is fetched, the network's answer cannot matter. */
  lemma FetchIrrelevantWhenSkipped(name: string, existing: Option<string>, force: bool, dryRun: bool,
                                   a: Option<string>, b: Option<string>, digest: string -> string, canWrite: bool)
    requires !Fetches(existing, force, dryRun)
    ensures ProcessDocument(name, existing, force, dryRun, a, digest, canWrite)
         == ProcessDocument(name, existing, force, dryRun, b, digest, canWrite)
  {
  }

  /** A dry run never writes and never raises: no content and no hash come back. */
  lemma DryRunNeverWrites(name: string, existing: Option<string>, force: bool,
                          fetched: Option<string>, digest: string -> string, canWrite: bool)
    ensures var r := ProcessDocument(name, existing, force, true, fetched, digest, canWrite);
            r.Returned? && r.status != Updated && r.content.None? && r.hash.None?
  {
  }

  /** Content whose hash equals the stored one is reported unchanged, dry run or not. */
  lemma StableContentUnchanged(name: string, h: string, content: string, dryRun: bool,
                               digest: string -> string, canWrite: bool)
    requires h != "" && content != "" && digest(content) == h
    ensures ProcessDocument(name, Some(h), false, dryRun, Some(content), digest, canWrite).status == Unchanged
  {
  }

  /** A forced or first-time document is never reported unchanged. */
  lemma NoStoredHashNeverUnchanged(name: string, existing: Option<string>, force: bool, dryRun: bool,
                                   fetched: Option<string>, digest: string -> string, canWrite: bool)
    requires !Compares(existing, force)
    ensures var r := ProcessDocument(name, existing, force, dryRun, fetched, digest, canWrite);
            r.Returned? ==> r.status != Unchanged
  {
  }

  /** A returned `updated` always carries the hash of the content it carries. */
  lemma UpdatedHashMatchesContent(name: string, existing: Option<string>, force: bool, dryRun: bool,
                                  fetched: Option<string>, digest: string -> string, canWrite: bool)
    ensures var r := ProcessDocument(name, existing, force, dryRun, fetched, digest, canWrite);
            r.Returned? && r.status == Updated ==> r.content.Some? && r.hash == Some(digest(r.content.value))
  {
  }
}
