/** Fetch-interception URL patterns: the greedy matcher against the standard meaning of a glob. */
module UrlPatterns {
  import opened Text

  /** Standard glob meaning: `*` stands for any substring, every other character for itself. */
  ghost predicate GlobMatches(pattern: string, url: string)
    decreases |pattern| + |url|
  {
    if pattern == "" then url == ""
    else if pattern[0] == '*' then
      GlobMatches(pattern[1..], url) || (url != "" && GlobMatches(pattern, url[1..]))
    else url != "" && pattern[0] == url[0] && GlobMatches(pattern[1..], url[1..])
  }

  /** The segments can be laid out in `url` in order, without overlap. */
  ghost predicate Placeable(segments: seq<string>, url: string)
    decreases |segments|
  {
    segments == [] ||
    exists i :: OccursAt(url, segments[0], i) && Placeable(segments[1..], url[i + |segments[0]|..])
  }

  /** The non-empty pieces, in order (`filter(|s| !s.is_empty())`). */
  function NonEmpty(pieces: seq<string>): seq<string> {
    if pieces == [] then []
    else if pieces[0] == "" then NonEmpty(pieces[1..])
    else [pieces[0]] + NonEmpty(pieces[1..])
  }

  /** Exchange argument: what fits after a later point also fits after an earlier one. */
  lemma {:induction false} PlaceableEarlier(segments: seq<string>, url: string, from: nat)
    requires from <= |url|
    requires Placeable(segments, url[from..])
    ensures Placeable(segments, url)
  {
    if segments != [] {
      var i :| OccursAt(url[from..], segments[0], i)
            && Placeable(segments[1..], url[from..][i + |segments[0]|..]);
      assert url[from..][i..i + |segments[0]|] == url[from + i..from + i + |segments[0]|];
      assert OccursAt(url, segments[0], from + i);
      assert url[from..][i + |segments[0]|..] == url[from + i + |segments[0]|..];
    }
  }

  /** Taking the earliest occurrence never loses a layout. */
  lemma EarliestIsEnough(segments: seq<string>, url: string, first: nat)
    requires segments != [] && OccursAt(url, segments[0], first)
    requires forall j | 0 <= j < first :: !OccursAt(url, segments[0], j)
    ensures Placeable(segments, url) <==> Placeable(segments[1..], url[first + |segments[0]|..])
  {
    var n := |segments[0]|;
    if Placeable(segments, url) {
      var i :| OccursAt(url, segments[0], i) && Placeable(segments[1..], url[i + n..]);
      assert url[first + n..][i - first..] == url[i + n..];
      PlaceableEarlier(segments[1..], url[first + n..], i - first);
    }
  }

  lemma {:induction false} EmptySegmentsAreFree(segments: seq<string>, url: string)
    ensures Placeable(NonEmpty(segments), url) <==> Placeable(segments, url)
    decreases |segments|
  {
    if segments != [] {
      if segments[0] == "" {
        EmptySegmentsAreFree(segments[1..], url);
        assert OccursAt(url, "", 0) && url[0..] == url;
        EarliestIsEnough(segments, url, 0);
      } else {
        assert NonEmpty(segments)[1..] == NonEmpty(segments[1..]);
        forall i | OccursAt(url, segments[0], i)
          ensures Placeable(NonEmpty(segments[1..]), url[i + |segments[0]|..])
             <==> Placeable(segments[1..], url[i + |segments[0]|..])
        {
          EmptySegmentsAreFree(segments[1..], url[i + |segments[0]|..]);
        }
      }
    }
  }

  /** A leading star tries every suffix. */
  lemma {:induction false} LeadingStar(pattern: string, url: string)
    ensures GlobMatches("*" + pattern, url) <==> exists i :: 0 <= i <= |url| && GlobMatches(pattern, url[i..])
    decreases |url|
  {
    assert ("*" + pattern)[1..] == pattern;
    assert url[0..] == url;
    if url != "" {
      LeadingStar(pattern, url[1..]);
      if i :| 0 <= i <= |url| && GlobMatches(pattern, url[i..]) && i > 0 {
        assert url[1..][i - 1..] == url[i..];
      }
      if j :| 0 <= j <= |url[1..]| && GlobMatches(pattern, url[1..][j..]) {
        assert url[1..][j..] == url[j + 1..];
      }
    }
  }

  /** A pattern with an open end: its first piece is anchored, the others only ordered. */
  lemma {:induction false} OpenEnded(pattern: string, url: string)
    ensures var pieces := Split(pattern, '*');
            GlobMatches(pattern + "*", url)
            <==> pieces[0] <= url && Placeable(pieces[1..], url[|pieces[0]|..])
    decreases |pattern|, 0
  {
    var pieces := Split(pattern, '*');
    if pattern == "" {
      LeadingStar("", url);
      assert "*" + "" == "*" && pattern + "*" == "*";
      assert url[|url|..] == "";
    } else {
      var rest := Split(pattern[1..], '*');
      assert (pattern + "*")[1..] == pattern[1..] + "*";
      if pattern[0] == '*' {
        assert pieces[1..] == rest && url[0..] == url;
        assert pattern + "*" == "*" + (pattern[1..] + "*");
        AnyStart(pattern[1..], url);
      } else if url != "" {
        OpenEnded(pattern[1..], url[1..]);
        assert pieces[1..] == rest[1..];
        assert pieces[0] <= url <==> pattern[0] == url[0] && rest[0] <= url[1..];
        if rest[0] <= url[1..] {
          assert url[1..][|rest[0]|..] == url[|pieces[0]|..];
        }
      }
    }
  }

  lemma {:induction false} AnchoredAt(pattern: string, url: string, i: nat)
    requires i <= |url|
    ensures var pieces := Split(pattern, '*');
            GlobMatches(pattern + "*", url[i..])
            <==> OccursAt(url, pieces[0], i) && Placeable(pieces[1..], url[i + |pieces[0]|..])
    decreases |pattern|, 1
  {
    var first := Split(pattern, '*')[0];
    OpenEnded(pattern, url[i..]);
    if i + |first| <= |url| {
      assert url[i..][..|first|] == url[i..i + |first|];
      assert url[i..][|first|..] == url[i + |first|..];
    }
  }

  lemma {:induction false} StartsSomewhere(pattern: string, url: string)
    requires Placeable(Split(pattern, '*'), url)
    ensures exists i :: 0 <= i <= |url| && GlobMatches(pattern + "*", url[i..])
    decreases |pattern|, 2
  {
    var pieces := Split(pattern, '*');
    var i :| OccursAt(url, pieces[0], i) && Placeable(pieces[1..], url[i + |pieces[0]|..]);
    AnchoredAt(pattern, url, i);
  }

  /** Open at both ends: every piece is only ordered. */
  lemma {:induction false} AnyStart(pattern: string, url: string)
    ensures GlobMatches("*" + (pattern + "*"), url) <==> Placeable(Split(pattern, '*'), url)
    decreases |pattern|, 3
  {
    LeadingStar(pattern + "*", url);
    if i :| 0 <= i <= |url| && GlobMatches(pattern + "*", url[i..]) {
      AnchoredAt(pattern, url, i);
      assert OccursAt(url, Split(pattern, '*')[0], i);
    }
    if Placeable(Split(pattern, '*'), url) {
      StartsSomewhere(pattern, url);
    }
  }

  /** What one pattern selects: it may match anywhere inside the URL. The empty pattern selects nothing. */
  ghost predicate Selects(pattern: string, url: string) {
    pattern != "" && GlobMatches("*" + (pattern + "*"), url)
  }

  /** A star-free pattern selects exactly the URLs that contain it. */
  lemma StarFreeIsContains(pattern: string, url: string)
    requires pattern != "" && '*' !in pattern
    ensures Selects(pattern, url) <==> exists i :: OccursAt(url, pattern, i)
  {
    SplitJoin([pattern], '*');
    AnyStart(pattern, url);
  }

  method SegmentsInOrder(url: string, segments: seq<string>) returns (matched: bool)
    ensures matched <==> Placeable(segments, url)
  {
    var pos := 0;
    var k := 0;
    assert segments[0..] == segments && url[0..] == url;
    while k < |segments|
      invariant 0 <= k <= |segments| && 0 <= pos <= |url|
      invariant Placeable(segments, url) <==> Placeable(segments[k..], url[pos..])
    {
      var rest := segments[k..];
      var found := Find(url[pos..], segments[k]);
      if found.None? {
        return false;
      }
      EarliestIsEnough(rest, url[pos..], found.value);
      assert url[pos..][found.value + |segments[k]|..] == url[pos + found.value + |segments[k]|..];
      assert rest[1..] == segments[k + 1..];
      pos := pos + found.value + |segments[k]|;
      k := k + 1;
    }
    return true;
  }

  method PatternMatches(url: string, pattern: string) returns (matched: bool)
    ensures matched <==> Selects(pattern, url)
  {
    if pattern == "" {
      return false;
    }
    AnyStart(pattern, url);
    EmptySegmentsAreFree(Split(pattern, '*'), url);
    if pattern == "*" {
      assert NonEmpty(Split("*", '*')) == [];
      return true;
    }
    if '*' in pattern {
      var segments := NonEmpty(Split(pattern, '*'));
      if segments == [] {
        return true;
      }
      matched := SegmentsInOrder(url, segments);
    } else {
      StarFreeIsContains(pattern, url);
      var found := Find(url, pattern);
      matched := found.Some?;
    }
  }

  /** The interception check is sound and complete for the glob meaning of its patterns. */
  method UrlMatchesPatterns(url: string, patterns: seq<string>) returns (matched: bool)
    ensures matched <==> exists p :: p in patterns && Selects(p, url)
  {
    for i := 0 to |patterns|
      invariant forall j | 0 <= j < i :: !Selects(patterns[j], url)
    {
      var hit := PatternMatches(url, patterns[i]);
      if hit {
        return true;
      }
    }
    return false;
  }
}
