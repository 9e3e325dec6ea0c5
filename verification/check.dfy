/** `check_updates`: compare the document names a source's sitemap lists now
    with the names in its manifest, and re-fetch the names found in both to see
    whether their content hash moved. Only a report comes back: nothing is
    written, neither documents nor manifests. */
module Checks {
  import opened Results
  import opened Seqs
  import opened Strings
  import opened Urls
  import opened Manifests
  import opened Documents
  import opened Sources

  /** The `{"new": ..., "changed": ..., "removed": ...}` entry of one source,
      with its lists as sets (their order is set or completion order).
      `added` is the `"new"` list. */
  datatype Report = Report(added: set<string>, changed: set<string>, removed: set<string>)

  /** The URL yields the non-empty name `n`. */
  predicate Yields(url: string, pattern: string, n: string) {
    Named(url, pattern) && DocName(url, pattern).value == n
  }

  /** Some filtered URL yields the name `n`. */
  predicate Lists(urls: seq<string>, pattern: string, n: string) {
    Exists(urls, u => Yields(u, pattern, n))
  }

  /** `current_docs`: the non-empty names of the filtered URLs, or the
      `ValueError` an empty pattern raises as soon as it meets a URL. */
  function CurrentNames(urls: seq<string>, pattern: string): (r: Result<set<string>, NameError>)
    ensures r.Failure? <==> pattern == "" && |urls| > 0
    ensures r.Success? ==> forall n :: n in r.value <==> Lists(urls, pattern, n)
  {
    if |urls| == 0 then Success({})
    else if pattern == "" then Failure(EmptySeparator)
    else
      var rest := CurrentNames(urls[1..], pattern);
      var name := DocName(urls[0], pattern).value;
      var r := if name != "" then rest.value + {name} else rest.value;
      CurrentStep(urls, pattern, rest.value, r);
      Success(r)
  }

  /** Adding the head URL's name, if any, to the names of the tail. */
  lemma CurrentStep(urls: seq<string>, pattern: string, rest: set<string>, r: set<string>)
    requires |urls| > 0 && pattern != ""
    requires forall n :: n in rest <==> Lists(urls[1..], pattern, n)
    requires r == if DocName(urls[0], pattern).value != "" then rest + {DocName(urls[0], pattern).value} else rest
    ensures forall n :: n in r <==> Lists(urls, pattern, n)
  {
    forall n
      ensures n in r <==> Lists(urls, pattern, n)
    {
      ListsCons(urls, pattern, n);
    }
  }

  /** A name is listed by the URLs when the head URL yields it or the tail lists it. */
  lemma ListsCons(urls: seq<string>, pattern: string, n: string)
    requires |urls| > 0
    ensures Lists(urls, pattern, n) <==> Yields(urls[0], pattern, n) || Lists(urls[1..], pattern, n)
  {
    ExistsCons(urls, u => Yields(u, pattern, n));
  }

  /** Whether the name `n` counts as changed: the first filtered URL that
      contains `n` exists and is non-empty, the source fetches markdown, the
      fetched content is non-empty, and its hash differs from the stored one
      (a missing stored hash differs from every hash). */
  predicate Stale(n: string, urls: seq<string>, documents: map<string, Entry>, fetchMarkdown: bool,
                  maxRetries: int, world: World) {
    match FirstContaining(urls, n)
    case None => false
    case Some(i) =>
      var content := FetchMarkdown(urls[i], maxRetries, world.net);
      urls[i] != "" && fetchMarkdown && Truthy(content)
      && Some(world.digest(content.value)) != StoredHash(documents, n)
  }

  /** The report for the current names against the manifest documents. */
  function Compare(current: set<string>, urls: seq<string>, documents: map<string, Entry>,
                   fetchMarkdown: bool, maxRetries: int, world: World): (r: Report)
    ensures r.added !! r.removed && r.added !! r.changed && r.changed !! r.removed
    ensures r.changed <= current * documents.Keys
    ensures r.added + r.removed + (current * documents.Keys) == current + documents.Keys
  {
    Report(current - documents.Keys,
           (set n | n in current && n in documents && Stale(n, urls, documents, fetchMarkdown, maxRetries, world)),
           documents.Keys - current)
  }

  /** `check_updates` for one source. The manifest is read as stored; unlike
      `process_source` its `source` field is not consulted. */
  function CheckSource(src: SourceConfig, maxRetries: int, world: World): (r: Result<Report, NameError>)
    ensures r.Failure? <==> src.pattern == "" && |Filtered(src, maxRetries, world)| > 0
  {
    var urls := Filtered(src, maxRetries, world);
    var documents := world.load(src.manifestFile).documents;
    match CurrentNames(urls, src.pattern)
    case Failure(e) => Failure(e)
    case Success(current) => Success(Compare(current, urls, documents, src.fetchMarkdown, maxRetries, world))
  }

  /** Membership in each list of a source's report, name by name: new names
      are listed but not stored, removed names are stored but not listed, and
      changed names are listed, stored and stale. */
  lemma CheckSourceReport(src: SourceConfig, maxRetries: int, world: World, n: string)
    requires CheckSource(src, maxRetries, world).Success?
    ensures var urls := Filtered(src, maxRetries, world);
            var documents := world.load(src.manifestFile).documents;
            var r := CheckSource(src, maxRetries, world).value;
            (n in r.added <==> Lists(urls, src.pattern, n) && n !in documents)
            && (n in r.removed <==> n in documents && !Lists(urls, src.pattern, n))
            && (n in r.changed <==> Lists(urls, src.pattern, n) && n in documents
                                    && Stale(n, urls, documents, src.fetchMarkdown, maxRetries, world))
  {
  }

  /** A name listed by the sitemap always finds a URL to re-fetch: its own
      URL contains it, so the substring lookup never comes back empty. */
  lemma LookupFinds(urls: seq<string>, pattern: string, n: string)
    requires Lists(urls, pattern, n)
    ensures FirstContaining(urls, n).Some?
  {
    var i :| 0 <= i < |urls| && Yields(urls[i], pattern, n);
    assert Contains(urls[i], n);
  }

  /** The lookup takes the first URL that merely contains the name, which can
      be another document's URL: with pattern `/d/`, the name `x` of `/d/x`
      is looked up at `/d/xy` when that is listed first, and the name of
      `/d/xy` is `xy`. */
  lemma LookupMayPickOtherDocument(pattern: string, name: string, extra: string)
    requires pattern != "" && name != "" && extra != ""
    requires Lacks(name + extra, '/') && !Contains(name, pattern) && !Contains(name + extra, pattern)
    ensures var urls := [pattern + (name + extra), pattern + name];
            DocName(urls[1], pattern) == Success(name)
            && FirstContaining(urls, name) == Some(0)
            && DocName(urls[0], pattern) == Success(name + extra)
            && name + extra != name
  {
    assert Lacks(name, '/') by {
      forall i | 0 <= i < |name| ensures name[i] != '/' {
        assert (name + extra)[i] == name[i];
      }
    }
    NameOfSimpleUrl(pattern, name);
    NameOfSimpleUrl(pattern, name + extra);
    var url := pattern + (name + extra);
    MiddleOccurs(pattern, name, extra);
    assert Contains(url, name);
    assert |name + extra| != |name|;
  }

  lemma MiddleOccurs(a: string, b: string, c: string)
    ensures OccursAt(a + (b + c), b, |a|)
  {
    assert (a + (b + c))[|a|..|a| + |b|] == b;
  }

  /** The name of `pattern + tail`, where the tail holds neither the pattern
      nor a slash, is the tail. */
  lemma NameOfSimpleUrl(pattern: string, tail: string)
    requires pattern != "" && tail != "" && Lacks(tail, '/') && !Contains(tail, pattern)
    ensures DocName(pattern + tail, pattern) == Success(tail)
  {
    var url := pattern + tail;
    assert OccursAt(url, pattern, 0);
    assert FirstIndex(url, pattern) == Some(0);
    assert url[|pattern|..] == tail;
    AfterLastFirst(url, pattern, 0);
    assert AfterLast(url, pattern) == tail;
    assert RStrip(tail, '/') == tail;
    LacksNotContains(tail, '/');
    assert AfterLast(tail, "/") == tail;
  }

  /** A listed name with a stored hash is reported changed exactly when a
      non-forced dry run, fed the content fetched from the URL the lookup
      picks, would report `would_update`. That URL is the first one merely
      containing the name, which need not be the document's own. */
  lemma StaleMatchesDryRun(n: string, urls: seq<string>, pattern: string, documents: map<string, Entry>,
                           maxRetries: int, world: World, canWrite: bool)
    requires Lists(urls, pattern, n) && Truthy(StoredHash(documents, n))
    ensures FirstContaining(urls, n).Some?
    ensures var i := FirstContaining(urls, n).value;
            var fetched := FetchMarkdown(urls[i], maxRetries, world.net);
            (Stale(n, urls, documents, true, maxRetries, world)
             <==> ProcessDocument(n, StoredHash(documents, n), false, true, fetched, world.digest, canWrite).status
                  == WouldUpdate)
  {
    LookupFinds(urls, pattern, n);
    var i0 :| 0 <= i0 < |urls| && Yields(urls[i0], pattern, n);
    assert n != "";
    assert urls[FirstContaining(urls, n).value] != "";
  }

  /** `sources`, or only those named `sourceName` when that is given and non-empty. */
  function Select(sources: seq<SourceConfig>, sourceName: Option<string>): (r: seq<SourceConfig>)
    ensures !Truthy(sourceName) ==> r == sources
    ensures Truthy(sourceName) ==> IsSubsequence(r, sources)
    ensures Truthy(sourceName) ==> forall s :: s in r <==> s in sources && s.name == sourceName.value
    ensures Truthy(sourceName) ==>
              forall s :: multiset(r)[s] == if s.name == sourceName.value then multiset(sources)[s] else 0
  {
    if !Truthy(sourceName) || |sources| == 0 then sources
    else
      var rest := Select(sources[1..], sourceName);
      assert sources == [sources[0]] + sources[1..];
      if sources[0].name == sourceName.value then
        SubsequenceCons(rest, sources);
        [sources[0]] + rest
      else
        SubsequenceSkip(rest, sources);
        rest
  }

  /** The names of `sources`. */
  function Names(sources: seq<SourceConfig>): (r: set<string>)
    ensures forall n :: n in r <==> exists i :: 0 <= i < |sources| && sources[i].name == n
  {
    if |sources| == 0 then {}
    else
      var init := sources[..|sources| - 1];
      assert forall i :: 0 <= i < |init| ==> init[i] == sources[i];
      Names(init) + {sources[|sources| - 1].name}
  }

  /** The loop over the selected sources, with `check` the per-source
      comparison: a report per source name (a later source with the same name
      replaces an earlier one), or the error of the first source that raised. */
  function CheckAll(sources: seq<SourceConfig>, check: SourceConfig -> Result<Report, NameError>):
    (r: Result<map<string, Report>, NameError>)
    ensures r.Success? <==> forall i :: 0 <= i < |sources| ==> check(sources[i]).Success?
    ensures r.Success? ==> r.value.Keys == Names(sources)
  {
    if |sources| == 0 then Success(map[])
    else
      var init := sources[..|sources| - 1];
      var last := sources[|sources| - 1];
      assert forall i :: 0 <= i < |init| ==> init[i] == sources[i];
      match CheckAll(init, check)
      case Failure(e) => Failure(e)
      case Success(m) =>
        match check(last)
        case Failure(e) => Failure(e)
        case Success(report) => Success(m[last.name := report])
  }

  /** The last source with a given name decides its report. */
  lemma {:induction false} LastSourceWins(sources: seq<SourceConfig>, check: SourceConfig -> Result<Report, NameError>,
                                          i: nat)
    requires i < |sources| && CheckAll(sources, check).Success?
    requires forall j :: i < j < |sources| ==> sources[j].name != sources[i].name
    ensures sources[i].name in CheckAll(sources, check).value
    ensures CheckAll(sources, check).value[sources[i].name] == check(sources[i]).value
    decreases |sources|
  {
    var init := sources[..|sources| - 1];
    if i < |sources| - 1 {
      assert forall j :: 0 <= j < |init| ==> init[j] == sources[j];
      LastSourceWins(init, check, i);
    }
  }

  /** `check_updates(source_name)`: the reports of the selected sources, keyed
      by source name, or the error the first failing source raised. */
  function CheckUpdates(sources: seq<SourceConfig>, sourceName: Option<string>, maxRetries: int,
                        world: World): (r: Result<map<string, Report>, NameError>)
    ensures r.Success? ==> forall k :: k in r.value ==> !Truthy(sourceName) || k == sourceName.value
  {
    var selected := Select(sources, sourceName);
    CheckAll(selected, src => CheckSource(src, maxRetries, world))
  }
}
