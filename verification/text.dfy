/** String helpers shared by the generator, the scraper and the endpoints:
    Python's `str.strip()` and `str.join`. */
module Text {

  /** Python's `str.isspace` for one character: the ASCII controls
      TAB..CR and FS..US, the space, NEL, NO-BREAK SPACE and the Unicode
      space separators and line/paragraph separators. */
  predicate IsSpace(c: char) {
    var n := c as int;
    || 0x09 <= n <= 0x0D
    || 0x1C <= n <= 0x20
    || n == 0x85
    || n == 0xA0
    || n == 0x1680
    || 0x2000 <= n <= 0x200A
    || n == 0x2028
    || n == 0x2029
    || n == 0x202F
    || n == 0x205F
    || n == 0x3000
  }

  predicate AllSpace(s: string) {
    forall i :: 0 <= i < |s| ==> IsSpace(s[i])
  }

  /** `r` is what is left of `s` once the whitespace run `s[..i]` in front
      and the whitespace run after `r` are cut off, and `r` itself neither
      starts nor ends with whitespace. */
  ghost predicate StrippedAt(s: string, r: string, i: int) {
    && 0 <= i <= |s| - |r|
    && r == s[i..i + |r|]
    && AllSpace(s[..i])
    && AllSpace(s[i + |r|..])
    && (r != [] ==> !IsSpace(r[0]) && !IsSpace(r[|r| - 1]))
  }

  /** Python's `s.lstrip()`. */
  function TrimStart(s: string): (r: string)
    ensures |r| <= |s|
  {
    if s != [] && IsSpace(s[0]) then TrimStart(s[1..]) else s
  }

  /** `lstrip` cuts off exactly the leading whitespace run: what it keeps
      is a suffix that does not start with whitespace, and everything
      before that suffix is whitespace. */
  lemma {:induction false} TrimStartSpec(s: string)
    ensures var r := TrimStart(s);
      && r == s[|s| - |r|..]
      && AllSpace(s[..|s| - |r|])
      && (r != [] ==> !IsSpace(r[0]))
  {
    if s != [] && IsSpace(s[0]) {
      TrimStartSpec(s[1..]);
      var r := TrimStart(s);
      assert s[1..][|s| - 1 - |r|..] == s[|s| - |r|..];
      var cut := s[..|s| - |r|];
      forall k | 0 <= k < |cut|
        ensures IsSpace(cut[k])
      {
        if k > 0 {
          assert cut[k] == s[1..][..|s| - 1 - |r|][k - 1];
        }
      }
    }
  }

  /** Python's `s.rstrip()`. */
  function TrimEnd(s: string): (r: string)
    ensures |r| <= |s|
  {
    if s != [] && IsSpace(s[|s| - 1]) then TrimEnd(s[..|s| - 1]) else s
  }

  /** `rstrip` cuts off exactly the trailing whitespace run: what it keeps
      is a prefix that does not end with whitespace, and everything after
      that prefix is whitespace. */
  lemma {:induction false} TrimEndSpec(s: string)
    ensures var r := TrimEnd(s);
      && r == s[..|r|]
      && AllSpace(s[|r|..])
      && (r != [] ==> !IsSpace(r[|r| - 1]))
  {
    if s != [] && IsSpace(s[|s| - 1]) {
      var s' := s[..|s| - 1];
      TrimEndSpec(s');
      var r := TrimEnd(s);
      assert s'[..|r|] == s[..|r|];
      var cut := s[|r|..];
      forall k | 0 <= k < |cut|
        ensures IsSpace(cut[k])
      {
        if k < |s| - 1 - |r| {
          assert s[|r|..][k] == s'[|r|..][k];
        }
      }
    }
  }

  /** Python's `s.strip()`. */
  function Strip(s: string): (r: string)
    ensures |r| <= |s|
  {
    TrimEnd(TrimStart(s))
  }

  /** What `Strip` leaves: the input without its leading and trailing
      whitespace, as characterised by `StrippedAt`. */
  lemma StripCharacterized(s: string)
    ensures exists i :: StrippedAt(s, Strip(s), i)
  {
    var t := TrimStart(s);
    var r := TrimEnd(t);
    TrimStartSpec(s);
    TrimEndSpec(t);
    var i := |s| - |t|;
    assert r == Strip(s);
    assert r == s[i..i + |r|];
    assert s[i + |r|..] == t[|r|..];
    assert StrippedAt(s, r, i);
  }

  /** Nothing is left of the input exactly when it is all whitespace. */
  lemma StripEmptyIffAllSpace(s: string)
    ensures Strip(s) == [] <==> AllSpace(s)
  {
    var t := TrimStart(s);
    var r := TrimEnd(t);
    TrimStartSpec(s);
    TrimEndSpec(t);
    var i := |s| - |t|;
    assert r == Strip(s);
    assert r != [] ==> s[i] == r[0];
    if r == [] {
      assert t[|r|..] == t;
      assert s[..i] == s;
    }
  }

  /** The pointwise reading of `StrippedAt`: every character before `i` and
      after `r` is whitespace, and the first and last characters of a
      non-empty `r` are not. */
  lemma StrippedAtPointwise(s: string, r: string, i: int)
    requires StrippedAt(s, r, i)
    ensures forall k :: 0 <= k < i ==> IsSpace(s[k])
    ensures forall k :: i + |r| <= k < |s| ==> IsSpace(s[k])
    ensures r != [] ==> !IsSpace(s[i]) && !IsSpace(s[i + |r| - 1])
  {
    forall k | 0 <= k < i
      ensures IsSpace(s[k])
    {
      assert s[..i][k] == s[k];
    }
    forall k | i + |r| <= k < |s|
      ensures IsSpace(s[k])
    {
      assert s[i + |r|..][k - i - |r|] == s[k];
    }
  }

  /** There is only one way to strip a string: any `r` that satisfies
      `StrippedAt` is the result of `Strip`. */
  lemma StripUnique(s: string, r: string, i: int, r': string, i': int)
    requires StrippedAt(s, r, i) && StrippedAt(s, r', i')
    ensures r == r'
  {
    StrippedAtPointwise(s, r, i);
    StrippedAtPointwise(s, r', i');
  }

  /** Stripping twice is stripping once. */
  lemma StripIdempotent(s: string)
    ensures Strip(Strip(s)) == Strip(s)
  {
    var r := Strip(s);
    StripCharacterized(s);
    StripCharacterized(r);
    assert StrippedAt(r, r, 0) by {
      assert r[..0] == [] && r[|r|..] == [];
    }
    var i :| StrippedAt(r, Strip(r), i);
    StripUnique(r, r, 0, Strip(r), i);
  }

  /** Python's `sep.join(parts)`. */
  function Join(sep: string, parts: seq<string>): string {
    if parts == [] then ""
    else if |parts| == 1 then parts[0]
    else parts[0] + sep + Join(sep, parts[1..])
  }
}
