/** The fallback of the LLM response recovery: the span that
    `re.search(r"\{.*\}", text, flags=re.DOTALL)` matches. With DOTALL the
    `.*` crosses newlines, so a match is any `{` followed later by a `}`;
    `re.search` reports the leftmost start and, `.*` being greedy, the
    longest match from that start. */
module Extraction {
  import opened Wrappers

  /** A match of the pattern occupies `s[a..b + 1]`. */
  ghost predicate IsBraceSpan(s: string, a: int, b: int) {
    0 <= a < b < |s| && s[a] == '{' && s[b] == '}'
  }

  ghost predicate HasBraceSpan(s: string) {
    exists a, b :: IsBraceSpan(s, a, b)
  }

  /** The match `re.search` returns: leftmost start, then longest end. */
  ghost predicate IsSearchMatch(s: string, a: int, b: int) {
    && IsBraceSpan(s, a, b)
    && forall a', b' :: IsBraceSpan(s, a', b') ==> a <= a' && (a' == a ==> b' <= b)
  }

  function FirstIndexFrom(s: string, c: char, from: nat): (r: Option<nat>)
    requires from <= |s|
    ensures r.Some? ==> from <= r.value < |s| && s[r.value] == c
    ensures r.Some? ==> forall k :: from <= k < r.value ==> s[k] != c
    ensures r.None? ==> forall k :: from <= k < |s| ==> s[k] != c
    decreases |s| - from
  {
    if from == |s| then None
    else if s[from] == c then Some(from)
    else FirstIndexFrom(s, c, from + 1)
  }

  /** Index of the first occurrence of `c` in `s`. */
  function FirstIndex(s: string, c: char): (r: Option<nat>)
    ensures r.Some? ==> r.value < |s| && s[r.value] == c
    ensures r.Some? ==> forall k :: 0 <= k < r.value ==> s[k] != c
    ensures r.None? ==> forall k :: 0 <= k < |s| ==> s[k] != c
  {
    FirstIndexFrom(s, c, 0)
  }

  function LastIndexBefore(s: string, c: char, upto: nat): (r: Option<nat>)
    requires upto <= |s|
    ensures r.Some? ==> r.value < upto && s[r.value] == c
    ensures r.Some? ==> forall k :: r.value < k < upto ==> s[k] != c
    ensures r.None? ==> forall k :: 0 <= k < upto ==> s[k] != c
  {
    if upto == 0 then None
    else if s[upto - 1] == c then Some(upto - 1)
    else LastIndexBefore(s, c, upto - 1)
  }

  /** Index of the last occurrence of `c` in `s`. */
  function LastIndex(s: string, c: char): (r: Option<nat>)
    ensures r.Some? ==> r.value < |s| && s[r.value] == c
    ensures r.Some? ==> forall k :: r.value < k < |s| ==> s[k] != c
    ensures r.None? ==> forall k :: 0 <= k < |s| ==> s[k] != c
  {
    LastIndexBefore(s, c, |s|)
  }

  /** The bounds of the regex match: from the first `{` to the last `}`,
      provided that `}` comes after that `{`. */
  function SearchBounds(s: string): (r: Option<(nat, nat)>)
    ensures r.Some? ==> IsSearchMatch(s, r.value.0, r.value.1)
    ensures r.None? <==> !HasBraceSpan(s)
  {
    match (FirstIndex(s, '{'), LastIndex(s, '}'))
    case (Some(a), Some(b)) => if a < b then Some((a, b)) else None
    case _ => None
  }

  /** `m.group(0)` when the search matches, `None` when it does not. */
  function BraceSpan(s: string): (r: Option<string>)
    ensures r.Some? <==> HasBraceSpan(s)
    ensures forall a, b :: IsSearchMatch(s, a, b) ==> r == Some(s[a..b + 1])
    ensures r.Some? ==> exists a, b :: IsSearchMatch(s, a, b) && r.value == s[a..b + 1]
  {
    match SearchBounds(s)
    case Some((a, b)) => Some(s[a..b + 1])
    case None => None
  }

  /** The match starts at the first `{` of the text and ends at the last `}`
      of the text, whatever lies between, newlines included. */
  lemma SearchMatchIsFirstToLast(s: string, a: int, b: int)
    requires IsSearchMatch(s, a, b)
    ensures forall k :: 0 <= k < a ==> s[k] != '{'
    ensures forall k :: b < k < |s| ==> s[k] != '}'
  {
    forall k | 0 <= k < a
      ensures s[k] != '{'
    {
      assert s[k] == '{' ==> IsBraceSpan(s, k, b);
    }
    forall k | b < k < |s|
      ensures s[k] != '}'
    {
      assert s[k] == '}' ==> IsBraceSpan(s, a, k);
    }
  }
}
