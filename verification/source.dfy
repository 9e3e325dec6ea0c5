/** `process_source`: load the manifest, list and filter the sitemap URLs,
    derive document names, process every named document, tally the outcomes
    and save the manifest when something was updated. The outside world
    (network, XML parser, hash, file system, manifest file and clock) is a
    value of `World`; the order in which the futures finish is a permutation
    of the submitted tasks. */
module Sources {
  import opened Results
  import opened Seqs
  import opened Urls
  import opened Manifests
  import opened Documents
  import opened Aggregate
  import Sitemap
  import Retry

  /** The fields of one entry of the configuration's `sources` list. */
  datatype SourceConfig = SourceConfig(
    name: string,
    sitemap: string,
    pattern: string,
    manifestFile: string,
    fetchMarkdown: bool)

  /** Everything outside the program: attempt results per URL, the XML parser,
      the content hash, whether the document file `<name>.md` can be written,
      the manifest file's content, and the k-th clock reading. */
  datatype World = World(
    net: string -> seq<Option<string>>,
    parse: string -> Option<Sitemap.LocLists>,
    digest: string -> string,
    canWrite: string -> bool,
    load: string -> Manifest,
    clock: nat -> string)

  /** A filtered URL yields a non-empty document name. */
  predicate Named(url: string, pattern: string) {
    DocName(url, pattern).Success? && DocName(url, pattern).value != ""
  }

  /** A task carries its URL's document name and the hash stored under it. */
  predicate TaskFor(task: Task, pattern: string, documents: map<string, Entry>) {
    Named(task.url, pattern) && task.name == DocName(task.url, pattern).value
    && task.existing == StoredHash(documents, task.name)
  }

  function TaskUrls(tasks: seq<Task>): (r: seq<string>)
    ensures |r| == |tasks| && forall k :: 0 <= k < |tasks| ==> r[k] == tasks[k].url
  {
    Map((t: Task) => t.url, tasks)
  }

  lemma TaskUrlsCons(task: Task, tasks: seq<Task>)
    ensures TaskUrls([task] + tasks) == [task.url] + TaskUrls(tasks)
  {
  }

  /** The `docs_to_process` loop for a non-empty pattern: the URLs that yield a
      name, in order, each with its stored hash, and none at all when the
      source does not fetch markdown. */
  function TaskList(urls: seq<string>, pattern: string, documents: map<string, Entry>,
                    fetchMarkdown: bool): (r: seq<Task>)
    requires pattern != ""
    ensures forall k :: 0 <= k < |r| ==> TaskFor(r[k], pattern, documents)
    ensures IsSubsequence(TaskUrls(r), urls)
    ensures !fetchMarkdown ==> r == []
    ensures forall u :: multiset(TaskUrls(r))[u] == if fetchMarkdown && Named(u, pattern) then multiset(urls)[u] else 0
  {
    if |urls| == 0 then []
    else
      var rest := TaskList(urls[1..], pattern, documents, fetchMarkdown);
      var name := DocName(urls[0], pattern).value;
      var keep := fetchMarkdown && Named(urls[0], pattern);
      var task := Task(urls[0], name, StoredHash(documents, name));
      var r := if keep then [task] + rest else rest;
      TaskForStep(pattern, documents, rest, task, keep, r);
      TaskUrlsCons(task, rest);
      KeepStep(urls, TaskUrls(rest), TaskUrls(r), keep, pattern, fetchMarkdown);
      r
  }

  lemma TaskForStep(pattern: string, documents: map<string, Entry>, rest: seq<Task>, task: Task,
                    keep: bool, r: seq<Task>)
    requires forall k :: 0 <= k < |rest| ==> TaskFor(rest[k], pattern, documents)
    requires keep ==> TaskFor(task, pattern, documents)
    requires r == if keep then [task] + rest else rest
    ensures forall k :: 0 <= k < |r| ==> TaskFor(r[k], pattern, documents)
  {
  }

  /** One step of the order-keeping filter: keeping or dropping the head URL. */
  lemma KeepStep(urls: seq<string>, rest: seq<string>, r: seq<string>, keep: bool,
                 pattern: string, fetchMarkdown: bool)
    requires |urls| > 0 && keep == (fetchMarkdown && Named(urls[0], pattern))
    requires r == if keep then [urls[0]] + rest else rest
    requires IsSubsequence(rest, urls[1..])
    requires forall u :: multiset(rest)[u] == if fetchMarkdown && Named(u, pattern) then multiset(urls[1..])[u] else 0
    ensures IsSubsequence(r, urls)
    ensures forall u :: multiset(r)[u] == if fetchMarkdown && Named(u, pattern) then multiset(urls)[u] else 0
  {
    assert urls == [urls[0]] + urls[1..];
    if keep {
      SubsequenceCons(rest, urls);
    } else {
      SubsequenceSkip(rest, urls);
    }
  }

  /** The submitted tasks, or the `ValueError` that `url.split('')` raises as
      soon as an empty pattern meets a URL. */
  function Prepare(urls: seq<string>, pattern: string, documents: map<string, Entry>,
                   fetchMarkdown: bool): (r: Result<seq<Task>, NameError>)
    ensures r.Failure? <==> pattern == "" && |urls| > 0
    ensures r.Success? && pattern != "" ==> r.value == TaskList(urls, pattern, documents, fetchMarkdown)
    ensures r.Success? && pattern == "" ==> r.value == []
    ensures |urls| == 0 ==> r.Success? && |r.value| == 0
  {
    if |urls| == 0 then Success([])
    else if pattern == "" then Failure(EmptySeparator)
    else Success(TaskList(urls, pattern, documents, fetchMarkdown))
  }

  /** The manifest as loaded, with its `source` set to the sitemap URL. */
  function Loaded(src: SourceConfig, world: World): (m: Manifest)
    ensures m.source == Some(src.sitemap)
    ensures m.documents == world.load(src.manifestFile).documents
    ensures m.lastUpdated == world.load(src.manifestFile).lastUpdated
  {
    world.load(src.manifestFile).(source := Some(src.sitemap))
  }

  /** `filter_urls(fetch_sitemap(sitemap), url_pattern)`. */
  function Filtered(src: SourceConfig, maxRetries: int, world: World): seq<string> {
    FilterUrls(Sitemap.FetchSitemap(src.sitemap, maxRetries, world.net, world.parse), src.pattern)
  }

  function SourceTasks(src: SourceConfig, maxRetries: int, world: World): Result<seq<Task>, NameError> {
    Prepare(Filtered(src, maxRetries, world), src.pattern, Loaded(src, world).documents, src.fetchMarkdown)
  }

  /** What the future of `task` produces. */
  function OutcomeOf(task: Task, maxRetries: int, world: World, force: bool, dryRun: bool): Outcome {
    ProcessDocument(task.name, task.existing, force, dryRun,
                    FetchMarkdown(task.url, maxRetries, world.net), world.digest, world.canWrite(task.name))
  }

  /** The outcomes in submission order. */
  function Submitted(tasks: seq<Task>, maxRetries: int, world: World, force: bool, dryRun: bool): (os: seq<Outcome>)
    ensures |os| == |tasks| && forall i :: 0 <= i < |tasks| ==> os[i] == OutcomeOf(tasks[i], maxRetries, world, force, dryRun)
  {
    Map((t: Task) => OutcomeOf(t, maxRetries, world, force, dryRun), tasks)
  }

  /** The futures as `as_completed` yields them: `done` lists the tasks in the
      order their futures finish, and the k-th is handled at clock reading k. */
  function Completions(done: seq<Task>, maxRetries: int, world: World, force: bool, dryRun: bool): (cs: seq<Completion>)
    ensures |cs| == |done|
    ensures forall k :: 0 <= k < |done| ==>
              cs[k] == Completion(done[k], OutcomeOf(done[k], maxRetries, world, force, dryRun), world.clock(k))
  {
    seq(|done|, k requires 0 <= k < |done| =>
      Completion(done[k], OutcomeOf(done[k], maxRetries, world, force, dryRun), world.clock(k)))
  }

  /** The result of `process_source`: its `stats`, and the manifest it saves, if any. */
  datatype SourceRun = SourceRun(stats: Tally, saved: Option<Manifest>)

  /** The `as_completed` loop over the whole batch, starting from the loaded
      manifest documents and zero counters. */
  function Pool(done: seq<Task>, documents: map<string, Entry>, maxRetries: int,
                world: World, force: bool, dryRun: bool): (acc: Acc)
    ensures acc.tally.updated + acc.tally.unmodified + acc.tally.failed == |done|
  {
    Run(Acc(Zero, documents), Completions(done, maxRetries, world, force, dryRun), dryRun)
  }

  /** The save step: a new manifest stamped `stamp`, but only for a real run
      that updated something. */
  function Save(tally: Tally, documents: map<string, Entry>, source: Option<string>, stamp: string,
                dryRun: bool): (m: Option<Manifest>)
    ensures m.Some? <==> !dryRun && tally.updated > 0
    ensures m.Some? ==> m.value == Manifest(Some(stamp), source, documents)
  {
    if !dryRun && tally.updated > 0 then Some(Manifest(Some(stamp), source, documents)) else None
  }

  /** The thread pool and the save decision, for a non-empty batch; the new
      `last_updated` is the clock reading after the last completion. */
  function RunTasks(done: seq<Task>, manifest: Manifest, maxRetries: int,
                    world: World, force: bool, dryRun: bool): (r: SourceRun)
    ensures r.stats.updated + r.stats.unmodified + r.stats.failed == |done|
    ensures r.saved.Some? <==> !dryRun && r.stats.updated > 0
    ensures r.saved.Some? ==> r.saved.value.source == manifest.source
    ensures r.saved.Some? ==> r.saved.value.lastUpdated == Some(world.clock(|done|))
  {
    var acc := Pool(done, manifest.documents, maxRetries, world, force, dryRun);
    SourceRun(acc.tally, Save(acc.tally, acc.documents, manifest.source, world.clock(|done|), dryRun))
  }

  /** `done` is a rearrangement of the source's batch: `as_completed` yields
      every submitted future exactly once. */
  predicate Completes(src: SourceConfig, maxRetries: int, world: World, done: seq<Task>) {
    SourceTasks(src, maxRetries, world).Success? ==>
      multiset(done) == multiset(SourceTasks(src, maxRetries, world).value)
  }

  /** The batch run, or all-zero counters and no save when either the
      filtered URLs or the prepared tasks are empty (the two early returns). */
  function RunOrSkip(urls: seq<string>, tasks: seq<Task>, manifest: Manifest, done: seq<Task>,
                     maxRetries: int, world: World, force: bool, dryRun: bool): (r: SourceRun)
    ensures r.saved.Some? <==> !dryRun && r.stats.updated > 0
    ensures r.saved.Some? ==> r.saved.value.source == manifest.source
  {
    if |urls| == 0 || |tasks| == 0 then SourceRun(Zero, None)
    else RunTasks(done, manifest, maxRetries, world, force, dryRun)
  }

  /** The part of `process_source` after the URLs are filtered and the
      tasks prepared. */
  function Finish(urls: seq<string>, tasks: Result<seq<Task>, NameError>, manifest: Manifest,
                  done: seq<Task>, maxRetries: int, world: World, force: bool, dryRun: bool): (r: Result<SourceRun, NameError>)
    ensures r.Failure? <==> tasks.Failure?
  {
    match tasks
    case Failure(e) => Failure(e)
    case Success(ts) => Success(RunOrSkip(urls, ts, manifest, done, maxRetries, world, force, dryRun))
  }

  /** `process_source(source, force, dry_run)`, with the fetcher-wide
      `max_retries`; `done` is the order in which the futures finish. Fails
      only when an empty pattern meets a URL. */
  function ProcessSource(src: SourceConfig, maxRetries: int, world: World, force: bool, dryRun: bool,
                         done: seq<Task>): (r: Result<SourceRun, NameError>)
    ensures r.Failure? <==> src.pattern == "" && |Filtered(src, maxRetries, world)| > 0
  {
    var urls := Filtered(src, maxRetries, world);
    Finish(urls, SourceTasks(src, maxRetries, world), Loaded(src, world), done, maxRetries, world, force, dryRun)
  }

  /** The manifest is saved exactly when the run is not dry and something was
      updated, and it then records the sitemap as its source. */
  lemma SaveDecision(src: SourceConfig, maxRetries: int, world: World, force: bool, dryRun: bool,
                     done: seq<Task>)
    ensures var r := ProcessSource(src, maxRetries, world, force, dryRun, done);
            r.Success? ==> (r.value.saved.Some? <==> !dryRun && r.value.stats.updated > 0)
    ensures var r := ProcessSource(src, maxRetries, world, force, dryRun, done);
            r.Success? && r.value.saved.Some? ==> r.value.saved.value.source == Some(src.sitemap)
  {
  }

  /** A dry run never saves the manifest. */
  lemma DryRunNeverSaves(src: SourceConfig, maxRetries: int, world: World, force: bool, done: seq<Task>)
    ensures var r := ProcessSource(src, maxRetries, world, force, true, done);
            r.Success? ==> r.value.saved.None?
  {
    SaveDecision(src, maxRetries, world, force, true, done);
  }

  /** Rearranging the tasks rearranges their outcomes. */
  lemma SubmittedPermutation(tasks: seq<Task>, done: seq<Task>, maxRetries: int, world: World,
                             force: bool, dryRun: bool)
    requires multiset(done) == multiset(tasks)
    ensures multiset(Submitted(done, maxRetries, world, force, dryRun))
         == multiset(Submitted(tasks, maxRetries, world, force, dryRun))
  {
    var f := (t: Task) => OutcomeOf(t, maxRetries, world, force, dryRun);
    MapPermutation(f, done, tasks);
    assert Submitted(done, maxRetries, world, force, dryRun) == Map(f, done);
    assert Submitted(tasks, maxRetries, world, force, dryRun) == Map(f, tasks);
  }

  /** The k-th completion carries the outcome of the k-th finished task. */
  lemma CompletionOutcomes(done: seq<Task>, maxRetries: int, world: World, force: bool, dryRun: bool)
    ensures Outcomes(Completions(done, maxRetries, world, force, dryRun))
         == Submitted(done, maxRetries, world, force, dryRun)
  {
  }

  /** The counters of the loop are those of the outcomes of the finished tasks. */
  lemma PoolTally(done: seq<Task>, documents: map<string, Entry>, maxRetries: int,
                  world: World, force: bool, dryRun: bool)
    ensures Pool(done, documents, maxRetries, world, force, dryRun).tally
         == TallyOf(Submitted(done, maxRetries, world, force, dryRun))
  {
    RunTally(Acc(Zero, documents), Completions(done, maxRetries, world, force, dryRun), dryRun);
    CompletionOutcomes(done, maxRetries, world, force, dryRun);
  }

  /** The counters after the batch are those of the submitted outcomes,
      whatever order the futures finish in. */
  lemma RunOrSkipTally(urls: seq<string>, tasks: seq<Task>, manifest: Manifest, done: seq<Task>,
                       maxRetries: int, world: World, force: bool, dryRun: bool)
    requires multiset(done) == multiset(tasks)
    requires |urls| == 0 ==> |tasks| == 0
    ensures RunOrSkip(urls, tasks, manifest, done, maxRetries, world, force, dryRun).stats
         == TallyOf(Submitted(tasks, maxRetries, world, force, dryRun))
  {
    if |urls| > 0 && |tasks| > 0 {
      PoolTally(done, manifest.documents, maxRetries, world, force, dryRun);
      SubmittedPermutation(tasks, done, maxRetries, world, force, dryRun);
      TallyOfPermutation(Submitted(done, maxRetries, world, force, dryRun),
                         Submitted(tasks, maxRetries, world, force, dryRun));
    } else {
      assert |Submitted(tasks, maxRetries, world, force, dryRun)| == 0;
    }
  }

  /** `process_source` returns the tally of the submitted documents' outcomes:
      every document is counted once, and an empty batch gives all-zero counters. */
  lemma ProcessSourceTally(src: SourceConfig, maxRetries: int, world: World, force: bool, dryRun: bool,
                           done: seq<Task>)
    requires Completes(src, maxRetries, world, done)
    ensures var r := ProcessSource(src, maxRetries, world, force, dryRun, done);
            var tasks := SourceTasks(src, maxRetries, world);
            r.Success? ==> tasks.Success?
                           && r.value.stats == TallyOf(Submitted(tasks.value, maxRetries, world, force, dryRun))
  {
    var urls := Filtered(src, maxRetries, world);
    var tasks := SourceTasks(src, maxRetries, world);
    if tasks.Success? {
      RunOrSkipTally(urls, tasks.value, Loaded(src, world), done, maxRetries, world, force, dryRun);
    }
  }

  /** Every submitted document is counted exactly once. */
  lemma ProcessSourceTotal(src: SourceConfig, maxRetries: int, world: World, force: bool, dryRun: bool,
                           done: seq<Task>)
    requires Completes(src, maxRetries, world, done)
    ensures var r := ProcessSource(src, maxRetries, world, force, dryRun, done);
            var tasks := SourceTasks(src, maxRetries, world);
            r.Success? ==> tasks.Success? && (r.value.stats.updated + r.value.stats.unmodified + r.value.stats.failed) == |tasks.value|
  {
    ProcessSourceTally(src, maxRetries, world, force, dryRun, done);
    var tasks := SourceTasks(src, maxRetries, world);
    if tasks.Success? {
      TallyOfTotal(Submitted(tasks.value, maxRetries, world, force, dryRun));
    }
  }

  /** The counters do not depend on the order in which the futures finish,
      and neither does the decision to save. */
  lemma OrderIndependent(src: SourceConfig, maxRetries: int, world: World, force: bool, dryRun: bool,
                         a: seq<Task>, b: seq<Task>)
    requires Completes(src, maxRetries, world, a) && Completes(src, maxRetries, world, b)
    ensures var ra := ProcessSource(src, maxRetries, world, force, dryRun, a);
            var rb := ProcessSource(src, maxRetries, world, force, dryRun, b);
            (ra.Success? <==> rb.Success?)
            && (ra.Success? ==> ra.value.stats == rb.value.stats
                                && (ra.value.saved.Some? <==> rb.value.saved.Some?))
  {
    ProcessSourceTally(src, maxRetries, world, force, dryRun, a);
    ProcessSourceTally(src, maxRetries, world, force, dryRun, b);
  }

  /** A sitemap that cannot be fetched yields all-zero counters and no save. */
  lemma SitemapFailureDoesNothing(src: SourceConfig, maxRetries: int, world: World, force: bool,
                                  dryRun: bool, done: seq<Task>)
    requires Retry.Retry(maxRetries, world.net(src.sitemap)).response.None?
    ensures ProcessSource(src, maxRetries, world, force, dryRun, done) == Success(SourceRun(Zero, None))
  {
  }

  /** A source with `fetch_markdown` off submits nothing and saves nothing. */
  lemma MarkdownOffDoesNothing(src: SourceConfig, maxRetries: int, world: World, force: bool,
                               dryRun: bool, done: seq<Task>)
    requires !src.fetchMarkdown
    ensures var r := ProcessSource(src, maxRetries, world, force, dryRun, done);
            r.Success? ==> r.value == SourceRun(Zero, None)
  {
  }

  /** Each completion carries the name of its own task. */
  lemma CompletionNames(done: seq<Task>, maxRetries: int, world: World, force: bool, dryRun: bool, k: nat)
    requires k < |done|
    ensures var c := Completions(done, maxRetries, world, force, dryRun)[k];
            c.task == done[k] && (c.outcome.Returned? ==> c.outcome.name == c.task.name)
  {
  }

  /** No completion writes a key whose write no task's outcome asks for. */
  lemma NoCompletionWrites(tasks: seq<Task>, done: seq<Task>, maxRetries: int, world: World,
                           force: bool, dryRun: bool, key: string)
    requires multiset(done) == multiset(tasks)
    requires forall i :: 0 <= i < |tasks| ==> !Writes(OutcomeOf(tasks[i], maxRetries, world, force, dryRun), key, dryRun)
    ensures var cs := Completions(done, maxRetries, world, force, dryRun);
            forall k :: 0 <= k < |cs| ==> !WritesKey(cs[k], key, dryRun)
  {
    var cs := Completions(done, maxRetries, world, force, dryRun);
    forall k | 0 <= k < |cs|
      ensures !WritesKey(cs[k], key, dryRun)
    {
      var i := Located(done, tasks, k);
    }
  }

  /** The manifest changes only where an outcome asks for a write: every other
      key keeps its loaded entry, or stays absent. */
  lemma UnwrittenKeysKept(tasks: seq<Task>, done: seq<Task>, manifest: Manifest, maxRetries: int,
                          world: World, force: bool, dryRun: bool, key: string)
    requires multiset(done) == multiset(tasks)
    requires forall i :: 0 <= i < |tasks| ==> !Writes(OutcomeOf(tasks[i], maxRetries, world, force, dryRun), key, dryRun)
    ensures var acc := Pool(done, manifest.documents, maxRetries, world, force, dryRun);
            (key in acc.documents <==> key in manifest.documents)
            && (key in manifest.documents ==> acc.documents[key] == manifest.documents[key])
  {
    NoCompletionWrites(tasks, done, maxRetries, world, force, dryRun, key);
    RunKeepsUnwritten(Acc(Zero, manifest.documents), Completions(done, maxRetries, world, force, dryRun), dryRun, key);
  }

  /** In particular the loop keeps the loaded entry of every name no task carries. */
  lemma UnprocessedKeysKept(tasks: seq<Task>, done: seq<Task>, manifest: Manifest, maxRetries: int,
                            world: World, force: bool, dryRun: bool, key: string)
    requires multiset(done) == multiset(tasks)
    requires forall i :: 0 <= i < |tasks| ==> tasks[i].name != key
    ensures var acc := Pool(done, manifest.documents, maxRetries, world, force, dryRun);
            (key in acc.documents <==> key in manifest.documents)
            && (key in manifest.documents ==> acc.documents[key] == manifest.documents[key])
  {
    UnwrittenKeysKept(tasks, done, manifest, maxRetries, world, force, dryRun, key);
  }

  /** A document whose future returns `updated` with a hash in a real run is
      in the saved manifest. */
  lemma UpdatedDocumentRecorded(tasks: seq<Task>, done: seq<Task>, manifest: Manifest, maxRetries: int,
                                world: World, force: bool, i: nat)
    requires multiset(done) == multiset(tasks) && i < |tasks|
    requires OutcomeOf(tasks[i], maxRetries, world, force, false).Returned?
    requires OutcomeOf(tasks[i], maxRetries, world, force, false).status == Updated
    requires Truthy(OutcomeOf(tasks[i], maxRetries, world, force, false).hash)
    ensures var r := RunTasks(done, manifest, maxRetries, world, force, false);
            r.saved.Some? && tasks[i].name in r.saved.value.documents
  {
    var cs := Completions(done, maxRetries, world, force, false);
    var k := Located(tasks, done, i);
    CompletionNames(done, maxRetries, world, force, false, k);
    assert WritesKey(cs[k], tasks[i].name, false);
    RunKeys(Acc(Zero, manifest.documents), cs, false, tasks[i].name);
    PoolTally(done, manifest.documents, maxRetries, world, force, false);
    CountPositive(Submitted(done, maxRetries, world, force, false), CountsUpdated, k);
  }

  /** Starting from an empty manifest, when every document's outcome asks for
      a write the saved manifest holds exactly the names of the batch: no
      update is lost, whatever order the futures finish in. */
  lemma AllUpdatesRecorded(tasks: seq<Task>, done: seq<Task>, maxRetries: int, world: World, force: bool,
                           key: string)
    requires multiset(done) == multiset(tasks) && |tasks| > 0
    requires forall i :: 0 <= i < |tasks| ==> Writes(OutcomeOf(tasks[i], maxRetries, world, force, false), tasks[i].name, false)
    ensures var r := RunTasks(done, Empty, maxRetries, world, force, false);
            r.saved.Some?
            && (key in r.saved.value.documents <==> exists i :: 0 <= i < |tasks| && tasks[i].name == key)
  {
    UpdatedDocumentRecorded(tasks, done, Empty, maxRetries, world, force, 0);
    var cs := Completions(done, maxRetries, world, force, false);
    RunKeys(Acc(Zero, map[]), cs, false, key);
    if exists k :: 0 <= k < |cs| && WritesKey(cs[k], key, false) {
      var k :| 0 <= k < |cs| && WritesKey(cs[k], key, false);
      var i := Located(done, tasks, k);
      CompletionNames(done, maxRetries, world, force, false, k);
      assert tasks[i].name == key;
    }
    if exists i :: 0 <= i < |tasks| && tasks[i].name == key {
      var i :| 0 <= i < |tasks| && tasks[i].name == key;
      var k := Located(tasks, done, i);
      assert WritesKey(cs[k], key, false);
    }
  }
}
