/** URL selection and naming: `filter_urls`, the document-name rule of
    `process_source`/`check_updates`, the markdown URL of `fetch_markdown` and the
    URL lookup of `check_updates`. */
module Urls {
  import opened Results
  import opened Strings
  import opened Seqs

  /** `filter_urls`: the URLs that contain `pattern`, in their original order. */
  function FilterUrls(urls: seq<string>, pattern: string): (r: seq<string>)
    ensures IsSubsequence(r, urls)
    ensures forall i :: 0 <= i < |r| ==> Contains(r[i], pattern)
    ensures forall u :: multiset(r)[u] == if Contains(u, pattern) then multiset(urls)[u] else 0
  {
    if |urls| == 0 then []
    else
      var rest := FilterUrls(urls[1..], pattern);
      assert urls == [urls[0]] + urls[1..];
      if Contains(urls[0], pattern) then [urls[0]] + rest else rest
  }

  /** The name rule raises (`str.split` with an empty separator) when the
      pattern is empty. */
  datatype NameError = EmptySeparator

  /** The document name of `url`: the last `/`-separated segment of the last
      piece `url.split(pattern)` yields, trailing slashes removed;
      empty when the pattern does not occur. */
  function DocName(url: string, pattern: string): (r: Result<string, NameError>)
    ensures r.Failure? <==> pattern == ""
    ensures r.Success? && !Contains(url, pattern) ==> r.value == ""
    ensures r.Success? ==> Lacks(r.value, '/')
    ensures r.Success? ==> Contains(url, r.value)
    ensures r.Success? && Contains(url, pattern) ==>
              var stripped := RStrip(AfterLast(url, pattern), '/');
              (r.value == "" <==> stripped == "")
              && IsSuffix(r.value, stripped)
              && (r.value == stripped || IsSuffix("/" + r.value, stripped))
  {
    if pattern == "" then Failure(EmptySeparator)
    else
      var part := if Contains(url, pattern) then AfterLast(url, pattern) else "";
      var name := if part != "" then AfterLast(RStrip(part, '/'), "/") else "";
      LacksNotContains(name, '/');
      NameInsideUrl(url, part, RStrip(part, '/'), name);
      Success(name)
  }

  /** A non-empty name ends the URL up to its trailing slashes (it occurs at
      `k` and ends where `RStrip(url, '/')` ends), and it is preceded by a
      slash or directly by the pattern, so it need not be a whole path segment. */
  lemma DocNameShape(url: string, pattern: string, n: string) returns (k: int)
    requires DocName(url, pattern) == Success(n) && n != ""
    ensures k == |RStrip(url, '/')| - |n|
    ensures 0 < k && OccursAt(url, n, k)
    ensures url[k - 1] == '/' || (k >= |pattern| && OccursAt(url, pattern, k - |pattern|))
  {
    assert pattern != "";
    var part := AfterLast(url, pattern);
    var stripped := RStrip(part, '/');
    DocNameParts(url, pattern, n, part, stripped);
    k := ShapeFromParts(url, pattern, part, stripped, n);
  }

  lemma ShapeFromParts(url: string, pattern: string, part: string, stripped: string, n: string) returns (k: int)
    requires pattern != "" && n != "" && stripped == RStrip(part, '/')
    requires IsSuffix(pattern + part, url)
    requires stripped != "" && IsSuffix(n, stripped)
    requires IsSuffix("/" + n, stripped) || n == stripped
    ensures k == |RStrip(url, '/')| - |n|
    ensures 0 < k && OccursAt(url, n, k)
    ensures url[k - 1] == '/' || (k >= |pattern| && OccursAt(url, pattern, k - |pattern|))
  {
    RStripAt(url, part, stripped, |url| - |part|);
    k := |RStrip(url, '/')| - |n|;
    SegmentShape(url, pattern, part, stripped, n, k);
  }

  /** What the name rule's intermediate strings satisfy. */
  lemma DocNameParts(url: string, pattern: string, n: string, part: string, stripped: string)
    requires DocName(url, pattern) == Success(n) && n != ""
    requires pattern != "" && part == AfterLast(url, pattern) && stripped == RStrip(part, '/')
    ensures IsSuffix(pattern + part, url)
    ensures stripped != "" && IsSuffix(n, stripped)
    ensures IsSuffix("/" + n, stripped) || n == stripped
  {
  }

  /** The name occurs at `k`, where it ends exactly where `stripped` ends inside
      `url`, and is preceded by a slash or the pattern. */
  lemma SegmentShape(url: string, pattern: string, part: string, stripped: string, n: string, k: int)
    requires pattern != "" && n != ""
    requires k == |url| - |part| + |stripped| - |n|
    requires IsSuffix(pattern + part, url)
    requires |stripped| <= |part| && stripped == part[..|stripped|]
    requires IsSuffix(n, stripped)
    requires IsSuffix("/" + n, stripped) || n == stripped
    ensures 0 < k && OccursAt(url, n, k)
    ensures url[k - 1] == '/' || (k >= |pattern| && OccursAt(url, pattern, k - |pattern|))
  {
    NameAt(url, part, stripped, n, k);
    SegmentStart(url, pattern, part, stripped, n, k);
  }

  /** A suffix `n` of the prefix `stripped` of the suffix `part` of `url`
      occurs at `k`. */
  lemma NameAt(url: string, part: string, stripped: string, n: string, k: int)
    requires IsSuffix(part, url)
    requires |stripped| <= |part| && stripped == part[..|stripped|]
    requires IsSuffix(n, stripped) && k == |url| - |part| + |stripped| - |n|
    ensures 0 <= k && OccursAt(url, n, k)
  {
    assert url[k..k + |n|] == stripped[|stripped| - |n|..];
  }

  /** The character before the name is the slash that ends the previous
      segment, or the name is the whole stripped piece and the pattern
      precedes it. */
  lemma SegmentStart(url: string, pattern: string, part: string, stripped: string, n: string, k: int)
    requires pattern != "" && IsSuffix(pattern + part, url)
    requires |stripped| <= |part| && stripped == part[..|stripped|]
    requires IsSuffix(n, stripped) && (IsSuffix("/" + n, stripped) || n == stripped)
    requires k == |url| - |part| + |stripped| - |n|
    ensures 0 < k
    ensures url[k - 1] == '/' || (k >= |pattern| && OccursAt(url, pattern, k - |pattern|))
  {
    var m := |url| - |part|;
    if n != stripped {
      assert stripped[|stripped| - |n| - 1] == ("/" + n)[0];
      assert url[k - 1] == part[k - 1 - m];
    } else {
      assert url[m - |pattern|..m] == (pattern + part)[..|pattern|];
    }
  }

  /** Stripping a suffix of `url` that keeps some character strips `url` at
      the same place. */
  lemma RStripAt(url: string, part: string, stripped: string, m: nat)
    requires m + |part| == |url| && url[m..] == part
    requires stripped == RStrip(part, '/') && stripped != ""
    ensures |RStrip(url, '/')| == m + |stripped|
  {
    var l := m + |stripped|;
    forall i | l <= i < |url|
      ensures url[i] == '/'
    {
      assert url[i] == part[i - m];
    }
    assert url[l - 1] == stripped[|stripped| - 1];
    RStripUnique(url, '/', url[..l]);
  }

  /** A suffix of a prefix of a suffix of `url` occurs in `url`. */
  lemma NameInsideUrl(url: string, part: string, stripped: string, name: string)
    requires name != "" ==> IsSuffix(part, url)
    requires name != "" ==> |stripped| <= |part| && stripped == part[..|stripped|]
    requires name != "" ==> IsSuffix(name, stripped)
    ensures Contains(url, name)
  {
    ContainsIff(url, name);
    if name == "" {
      assert OccursAt(url, name, 0);
    } else {
      NameAt(url, part, stripped, name, |url| - |part| + |stripped| - |name|);
    }
  }

  /** `fetch_markdown`'s URL: `url.rstrip('/') + '.md'`. */
  function MarkdownUrl(url: string): (r: string)
    ensures |r| >= 3 && r[|r| - 3..] == ".md"
    ensures var base := r[..|r| - 3];
      && |base| <= |url| && base == url[..|base|]
      && (forall i :: |base| <= i < |url| ==> url[i] == '/')
      && (|base| == 0 || base[|base| - 1] != '/')
  {
    var base := RStrip(url, '/');
    assert (base + ".md")[..|base|] == base;
    base + ".md"
  }

  /** Appending slashes to a URL does not change its markdown URL. */
  lemma MarkdownUrlIgnoresTrailingSlashes(url: string, slashes: string)
    requires forall i :: 0 <= i < |slashes| ==> slashes[i] == '/'
    ensures MarkdownUrl(url + slashes) == MarkdownUrl(url)
  {
    RStripIgnoresTrailing(url, slashes, '/');
  }

  /** `next((u for u in urls if name in u), None)`, as an index into `urls`. */
  function FirstContaining(urls: seq<string>, name: string): (r: Option<nat>)
    ensures r.None? <==> forall i :: 0 <= i < |urls| ==> !Contains(urls[i], name)
    ensures r.Some? ==> r.value < |urls| && Contains(urls[r.value], name)
    ensures r.Some? ==> forall j :: 0 <= j < r.value ==> !Contains(urls[j], name)
  {
    if |urls| == 0 then None
    else if Contains(urls[0], name) then Some(0)
    else
      match FirstContaining(urls[1..], name)
      case None => None
      case Some(i) => Some(i + 1)
  }
}
