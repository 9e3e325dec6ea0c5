/** `fetch_sitemap`: the `loc` texts of a sitemap. XML parsing is an oracle
    returning, for a body, the texts of the namespaced `loc` elements and of
    the namespace-less ones (`None` for an element without text), or `None`
    when the body is not well-formed XML. */
module Sitemap {
  import opened Results
  import opened Seqs
  import Retry

  datatype LocLists = LocLists(namespaced: seq<Option<string>>, plain: seq<Option<string>>)

  /** Wraps every string in `Some`. */
  function Somes(r: seq<string>): (w: seq<Option<string>>)
    ensures |w| == |r| && forall i :: 0 <= i < |r| ==> w[i] == Some(r[i])
  {
    Map((x: string) => Some(x), r)
  }

  lemma SomesCons(x: string, r: seq<string>)
    ensures Somes([x] + r) == [Some(x)] + Somes(r)
  {
  }

  /** The texts kept by `if loc.text: urls.append(loc.text)`, in order. */
  function Texts(elements: seq<Option<string>>): (r: seq<string>)
    ensures forall i :: 0 <= i < |r| ==> r[i] != ""
    ensures forall x :: x != "" ==> multiset(r)[x] == multiset(elements)[Some(x)]
  {
    if |elements| == 0 then []
    else
      var rest := Texts(elements[1..]);
      var r := if elements[0].Some? && elements[0].value != "" then [elements[0].value] + rest else rest;
      TextsStep(elements, rest, r);
      r
  }

  lemma TextsStep(elements: seq<Option<string>>, rest: seq<string>, r: seq<string>)
    requires |elements| > 0
    requires forall x :: x != "" ==> multiset(rest)[x] == multiset(elements[1..])[Some(x)]
    requires r == if elements[0].Some? && elements[0].value != "" then [elements[0].value] + rest else rest
    ensures forall x :: x != "" ==> multiset(r)[x] == multiset(elements)[Some(x)]
  {
    assert elements == [elements[0]] + elements[1..];
    forall x | x != ""
      ensures multiset(r)[x] == multiset(elements)[Some(x)]
    {
      assert multiset(elements)[Some(x)] == multiset([elements[0]])[Some(x)] + multiset(elements[1..])[Some(x)];
    }
  }

  /** The kept texts keep their document order. */
  lemma {:induction false} TextsInOrder(elements: seq<Option<string>>)
    ensures IsSubsequence(Somes(Texts(elements)), elements)
    decreases |elements|
  {
    if |elements| > 0 {
      var rest := Texts(elements[1..]);
      var t := Texts(elements);
      TextsInOrder(elements[1..]);
      if elements[0].Some? && elements[0].value != "" {
        assert t == [elements[0].value] + rest;
        assert Somes(t) == [elements[0]] + Somes(rest) by {
          SomesCons(elements[0].value, rest);
        }
        SubsequenceCons(Somes(rest), elements);
      } else {
        assert t == rest;
        SubsequenceSkip(Somes(rest), elements);
      }
    }
  }

  /** Elements without text contribute nothing. */
  lemma {:induction false} BlankTexts(elements: seq<Option<string>>)
    requires forall i :: 0 <= i < |elements| ==> elements[i] == None
    ensures Texts(elements) == []
    decreases |elements|
  {
    if |elements| > 0 {
      BlankTexts(elements[1..]);
    }
  }

  /** Namespaced elements are used unless there are none at all. */
  function LocTexts(locs: LocLists): (r: seq<string>)
    ensures |locs.namespaced| > 0 ==> forall x :: x != "" ==> multiset(r)[x] == multiset(locs.namespaced)[Some(x)]
    ensures |locs.namespaced| == 0 ==> forall x :: x != "" ==> multiset(r)[x] == multiset(locs.plain)[Some(x)]
    ensures forall i :: 0 <= i < |r| ==> r[i] != ""
  {
    if |locs.namespaced| > 0 then Texts(locs.namespaced) else Texts(locs.plain)
  }

  /** Namespaced elements that all lack text still suppress the fallback: the
      sitemap yields nothing even if namespace-less `loc`s have URLs. */
  lemma BlankNamespacedSuppressesFallback(locs: LocLists)
    requires |locs.namespaced| > 0
    requires forall i :: 0 <= i < |locs.namespaced| ==> locs.namespaced[i] == None
    ensures LocTexts(locs) == []
  {
    BlankTexts(locs.namespaced);
  }

  /** `fetch_sitemap(url)`: empty when the fetch fails after all retries or the
      body does not parse. */
  function FetchSitemap(url: string, maxRetries: int, net: string -> seq<Option<string>>,
                        parse: string -> Option<LocLists>): (r: seq<string>)
    ensures Retry.Retry(maxRetries, net(url)).response.None? ==> r == []
    ensures forall i :: 0 <= i < |r| ==> r[i] != ""
    ensures var response := Retry.Retry(maxRetries, net(url)).response;
            response.Some? ==> r == if parse(response.value).Some? then LocTexts(parse(response.value).value) else []
  {
    match Retry.Retry(maxRetries, net(url)).response
    case None => []
    case Some(body) =>
      match parse(body)
      case None => []
      case Some(locs) => LocTexts(locs)
  }
}
