/** `fetch_wikipedia_intro`: the page address built from the topic and the
    accumulation of the page's paragraph texts under a soft length cap. The
    HTTP request and the HTML parsing are one parameter, `get`, which maps a
    URL to the failure of the request, to a page without the content
    container, or to the stripped texts of the container's `<p>` elements in
    document order. */
module Scraper {
  import opened Wrappers
  import Text

  const WikiPrefix: string := "https://en.wikipedia.org/wiki/"

  /** The accumulated paragraphs, joined by single spaces, may grow past
      this length by one paragraph at most. */
  const SoftCap: nat := 1000

  /** `topic.replace(' ', '_')`. */
  function Slug(topic: string): (r: string)
    ensures |r| == |topic|
    ensures forall i :: 0 <= i < |topic| ==> r[i] == (if topic[i] == ' ' then '_' else topic[i])
  {
    if topic == [] then []
    else [if topic[0] == ' ' then '_' else topic[0]] + Slug(topic[1..])
  }

  /** The page address: the fixed article prefix followed by the slug. */
  function WikiUrl(topic: string): (url: string)
    ensures |url| == |WikiPrefix| + |topic|
    ensures url[..|WikiPrefix|] == WikiPrefix
    ensures forall i :: 0 <= i < |topic| ==>
      url[|WikiPrefix| + i] == (if topic[i] == ' ' then '_' else topic[i])
  {
    WikiPrefix + Slug(topic)
  }

  /** The texts the loop appends: the non-empty ones, in document order. */
  function NonEmpty(texts: seq<string>): (r: seq<string>)
    ensures |r| <= |texts|
    ensures forall t :: t in r ==> t != "" && t in texts
    ensures forall t :: t in texts && t != "" ==> t in r
  {
    if texts == [] then []
    else (if texts[0] != "" then [texts[0]] else []) + NonEmpty(texts[1..])
  }

  /** Filtering distributes over concatenation: the kept texts of a
      document are those of its first part followed by those of the rest,
      so document order is preserved. */
  lemma {:induction false} NonEmptyAppend(a: seq<string>, b: seq<string>)
    ensures NonEmpty(a + b) == NonEmpty(a) + NonEmpty(b)
  {
    if a == [] {
      assert a + b == b;
    } else {
      assert (a + b)[0] == a[0] && (a + b)[1..] == a[1..] + b;
      NonEmptyAppend(a[1..], b);
    }
  }

  /** `kept` is where the accumulation of `all` stops: a prefix of `all`
      every proper prefix of which stays within the cap, and which is either
      all of `all` or already past the cap. */
  ghost predicate SoftCapPrefix(all: seq<string>, kept: seq<string>) {
    && kept <= all
    && (forall k :: 0 <= k < |kept| ==> |Text.Join(" ", kept[..k])| <= SoftCap)
    && (kept == all || |Text.Join(" ", kept)| > SoftCap)
  }

  /** The built-in `p < q` under a name, so that the quantifier in
      `ProperPrefixUnderCap` has a term to trigger on. */
  predicate ProperPrefix(p: seq<string>, q: seq<string>) {
    p < q
  }

  /** Joining a longer list of texts never gives a shorter string. */
  lemma {:induction false} JoinPrefixMonotone(sep: string, p: seq<string>, q: seq<string>)
    requires p <= q
    ensures |Text.Join(sep, p)| <= |Text.Join(sep, q)|
  {
    if |p| > 1 {
      assert p[1..] <= q[1..];
      JoinPrefixMonotone(sep, p[1..], q[1..]);
    }
  }

  /** Every proper prefix of where the accumulation stops is within the cap
      and is not yet everything. */
  lemma ProperPrefixUnderCap(all: seq<string>, kept: seq<string>)
    requires SoftCapPrefix(all, kept)
    ensures forall p :: ProperPrefix(p, kept) ==> |Text.Join(" ", p)| <= SoftCap && p != all
  {
    forall p | ProperPrefix(p, kept)
      ensures |Text.Join(" ", p)| <= SoftCap && p != all
    {
      assert p == kept[..|p|];
    }
  }

  /** At most one prefix of `all` is where the accumulation stops. */
  lemma SoftCapPrefixUnique(all: seq<string>, kept1: seq<string>, kept2: seq<string>)
    requires SoftCapPrefix(all, kept1) && SoftCapPrefix(all, kept2)
    ensures kept1 == kept2
  {
    ProperPrefixUnderCap(all, kept1);
    ProperPrefixUnderCap(all, kept2);
    assert ProperPrefix(kept1, kept2) || ProperPrefix(kept2, kept1) || kept1 == kept2;
  }

  /** The loop from the point where `paras` has been accumulated and `rest`
      is still to be visited. */
  function CollectFrom(rest: seq<string>, paras: seq<string>): (kept: seq<string>)
    requires |Text.Join(" ", paras)| <= SoftCap
    ensures paras <= kept <= paras + NonEmpty(rest)
    ensures forall k :: |paras| <= k < |kept| ==> |Text.Join(" ", kept[..k])| <= SoftCap
    ensures kept == paras + NonEmpty(rest) || |Text.Join(" ", kept)| > SoftCap
    decreases |rest|
  {
    if rest == [] then paras
    else
      var paras' := if rest[0] != "" then paras + [rest[0]] else paras;
      assert paras' + NonEmpty(rest[1..]) == paras + NonEmpty(rest);
      if |Text.Join(" ", paras')| > SoftCap then paras'
      else
        var kept := CollectFrom(rest[1..], paras');
        assert kept[..|paras'|] == paras' && paras'[..|paras|] == paras;
        assert kept[..|paras|] == kept[..|paras'|][..|paras|];
        assert forall k :: |paras| <= k < |paras'| ==> k == |paras| && kept[..k] == paras;
        kept
  }

  /** The paragraphs the loop keeps from the page's texts. */
  function CollectParagraphs(texts: seq<string>): (kept: seq<string>)
    ensures SoftCapPrefix(NonEmpty(texts), kept)
  {
    CollectFrom(texts, [])
  }

  datatype FetchError = HttpFailure(cause: string) | NoContent

  /** `fetch_wikipedia_intro(topic)`. */
  function FetchIntro(topic: string, get: string -> Result<Option<seq<string>>, string>): (r: Result<string, FetchError>)
    ensures get(WikiUrl(topic)).Failure? ==> r == Failure(HttpFailure(get(WikiUrl(topic)).error))
    ensures get(WikiUrl(topic)) == Success(None) ==> r == Failure(NoContent)
    ensures get(WikiUrl(topic)).Success? && get(WikiUrl(topic)).value.Some? ==>
      var texts := get(WikiUrl(topic)).value.value;
      forall kept :: SoftCapPrefix(NonEmpty(texts), kept) ==>
        r == Success(if kept == [] then "" else Text.Join("\n\n", kept))
  {
    match get(WikiUrl(topic))
    case Failure(cause) => Failure(HttpFailure(cause))
    case Success(None) => Failure(NoContent)
    case Success(Some(texts)) =>
      var paras := CollectParagraphs(texts);
      assert forall kept :: SoftCapPrefix(NonEmpty(texts), kept) ==> kept == paras by {
        forall kept | SoftCapPrefix(NonEmpty(texts), kept) ensures kept == paras {
          SoftCapPrefixUnique(NonEmpty(texts), kept, paras);
        }
      }
      Success(if paras == [] then "" else Text.Join("\n\n", paras))
  }

  /** Texts whose space-joined total never passes the cap are all kept. */
  lemma UnderCapKeepsAll(texts: seq<string>)
    requires |Text.Join(" ", NonEmpty(texts))| <= SoftCap
    ensures CollectParagraphs(texts) == NonEmpty(texts)
  {
    var kept := CollectParagraphs(texts);
    JoinPrefixMonotone(" ", kept, NonEmpty(texts));
  }
}
