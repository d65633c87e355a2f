/** Episode-link discovery on a season listing, and the page references
    derived from a title or episode page URL. */
module Links {
  import opened Common
  import opened PyText

  /** The origin every relative episode href is resolved against. */
  const Site: string := "https://www.imdb.com"
  /** What an episode href carries just before its final digit. */
  const EpisodeMarker: string := "=ttep_ep"
  const ReviewsSuffix: string := "/reviews?ref_=tt_urv"
  const RatingsSuffix: string := "/ratings/?ref_=tt_ov_rt"

  // ---------------------------------------------------------------------
  // The pattern '=ttep_ep\d$'
  // ---------------------------------------------------------------------

  predicate EndsWithMarker(s: string) {
    |s| >= 9 && s[|s| - 9..|s| - 1] == EpisodeMarker && IsDigit(s[|s| - 1])
  }

  /** `regex.search('=ttep_ep\d$', h)`: the marker and one digit at the very end,
      or just before a final newline, which `$` also accepts. */
  predicate IsEpisodeHref(h: string) {
    || EndsWithMarker(h)
    || (|h| >= 1 && h[|h| - 1] == '\n' && EndsWithMarker(h[..|h| - 1]))
  }

  /** A href ending in the marker and one character, with or without a
      final newline, matches exactly when that character is a digit. */
  lemma EpisodeHrefForm(p: string, d: char, t: string)
    requires t == [] || t == "\n"
    ensures IsEpisodeHref(p + EpisodeMarker + [d] + t) <==> IsDigit(d)
  {
    var m := p + EpisodeMarker + [d];
    assert m[|m| - 9..|m| - 1] == EpisodeMarker;
    assert m[|m| - 1] == d;
    if t == "\n" {
      var h := m + t;
      assert h[..|h| - 1] == m;
      assert h[|h| - 1] == '\n';
    } else {
      assert m[|m| - 2] == 'p';
      assert !EndsWithMarker(m[..|m| - 1]);
    }
  }

  /** The digit the pattern matched. */
  function MarkerDigit(h: string): (c: char)
    requires IsEpisodeHref(h)
    ensures IsDigit(c)
  {
    if EndsWithMarker(h) then h[|h| - 1] else h[|h| - 2]
  }

  // ---------------------------------------------------------------------
  // Discovery: filter, deduplicate, sort, resolve
  // ---------------------------------------------------------------------

  /** The hrefs the discovery loop appends, in document order. */
  function EpisodeHrefs(hrefs: seq<string>): (r: seq<string>)
    ensures forall h :: h in r <==> h in hrefs && IsEpisodeHref(h)
    decreases |hrefs|
  {
    if hrefs == [] then []
    else
      var init := EpisodeHrefs(hrefs[..|hrefs| - 1]);
      var last := hrefs[|hrefs| - 1];
      assert hrefs == hrefs[..|hrefs| - 1] + [last];
      if IsEpisodeHref(last) then init + [last] else init
  }

  /** Ascending in Python's string order, hence without duplicates. */
  ghost predicate StrictlySorted(s: seq<string>) {
    forall i, j :: 0 <= i < j < |s| ==> LexLess(s[i], s[j])
  }

  lemma SortedDistinctElements(s: seq<string>)
    requires StrictlySorted(s)
    ensures forall i, j :: 0 <= i < j < |s| ==> s[i] != s[j]
  {
    forall i, j | 0 <= i < j < |s|
      ensures s[i] != s[j]
    {
      LexIrreflexive(s[i]);
    }
  }

  lemma BelowHead(x: string, s: seq<string>)
    requires StrictlySorted(s) && s != [] && LexLess(x, s[0])
    ensures forall j :: 0 <= j < |s| ==> LexLess(x, s[j])
  {
    forall j | 0 < j < |s|
      ensures LexLess(x, s[j])
    {
      LexTransitive(x, s[0], s[j]);
    }
  }

  lemma ConsSorted(x: string, s: seq<string>)
    requires StrictlySorted(s)
    requires forall y :: y in s ==> LexLess(x, y)
    ensures StrictlySorted([x] + s)
  {
    var r := [x] + s;
    forall i, j | 0 <= i < j < |r|
      ensures LexLess(r[i], r[j])
    {
      if i == 0 {
        assert r[j] == s[j - 1];
      } else {
        assert r[i] == s[i - 1] && r[j] == s[j - 1];
      }
    }
  }

  /** Insert `x` into an ascending sequence, unless it is already there. */
  function Insert(s: seq<string>, x: string): (r: seq<string>)
    requires StrictlySorted(s)
    ensures StrictlySorted(r)
    ensures forall y :: y in r <==> y in s || y == x
    decreases |s|
  {
    if s == [] then [x]
    else if x == s[0] then s
    else if LexLess(x, s[0]) then
      BelowHead(x, s);
      ConsSorted(x, s);
      [x] + s
    else
      assert StrictlySorted(s[1..]);
      var rest := Insert(s[1..], x);
      LexTotal(x, s[0]);
      assert forall y :: y in s[1..] ==> LexLess(s[0], y);
      ConsSorted(s[0], rest);
      assert s == [s[0]] + s[1..];
      [s[0]] + rest
  }

  /** `links = list(set(links)); links.sort()`: every distinct element once, in ascending order. */
  function SortedDistinct(xs: seq<string>): (r: seq<string>)
    ensures StrictlySorted(r)
    ensures forall y :: y in r <==> y in xs
    decreases |xs|
  {
    if xs == [] then []
    else
      assert xs == xs[..|xs| - 1] + [xs[|xs| - 1]];
      Insert(SortedDistinct(xs[..|xs| - 1]), xs[|xs| - 1])
  }

  lemma HeadIsElement(s: seq<string>)
    ensures s != [] ==> s[0] in s
  {
  }

  /** Two ascending sequences with the same elements are equal: the order in
      which `set` hands its elements to `sort` cannot change the result. */
  lemma {:induction false} SortedUnique(a: seq<string>, b: seq<string>)
    requires StrictlySorted(a) && StrictlySorted(b)
    requires forall x :: x in a <==> x in b
    ensures a == b
    decreases |a|
  {
    if a == [] {
      HeadIsElement(b);
    } else {
      assert a[0] in b && b[0] in a;
      assert a[0] == b[0] by {
        if a[0] != b[0] {
          var k :| 0 <= k < |a| && a[k] == b[0];
          var m :| 0 <= m < |b| && b[m] == a[0];
          assert LexLess(a[0], b[0]) && LexLess(b[0], a[0]);
          LexAsymmetric(a[0], b[0]);
          assert false;
        }
      }
      SortedDistinctElements(a);
      SortedDistinctElements(b);
      assert a == [a[0]] + a[1..] && b == [b[0]] + b[1..];
      forall x
        ensures x in a[1..] <==> x in b[1..]
      {
        if x in a[1..] {
          var k :| 1 <= k < |a| && a[k] == x;
          assert x != a[0] && x in b;
          var m :| 0 <= m < |b| && b[m] == x;
          assert b[1..][m - 1] == x;
        }
        if x in b[1..] {
          var k :| 1 <= k < |b| && b[k] == x;
          assert x != b[0] && x in a;
          var m :| 0 <= m < |a| && a[m] == x;
          assert a[1..][m - 1] == x;
        }
      }
      SortedUnique(a[1..], b[1..]);
    }
  }

  /** `[f"{website}{l}" for l in links]`. */
  function WithSite(hs: seq<string>): (r: seq<string>)
    ensures |r| == |hs|
    ensures forall k :: 0 <= k < |hs| ==> r[k] == Site + hs[k]
  {
    seq(|hs|, k requires 0 <= k < |hs| => Site + hs[k])
  }

  lemma WithSiteSorted(hs: seq<string>)
    requires StrictlySorted(hs)
    ensures StrictlySorted(WithSite(hs))
  {
    var r := WithSite(hs);
    forall i, j | 0 <= i < j < |r|
      ensures LexLess(r[i], r[j])
    {
      LexCommonPrefix(Site, hs[i], hs[j]);
    }
  }

  /** What `get_episodes_links` returns for a listing whose anchors carry `hrefs`:
      the site origin followed by each episode href, each exactly once, in
      ascending order of the href (and so of the whole link). */
  function EpisodeLinks(hrefs: seq<string>): (links: seq<string>)
    ensures forall h :: h in hrefs && IsEpisodeHref(h) ==> Site + h in links
    ensures forall k :: 0 <= k < |links| ==>
      && |Site| <= |links[k]| && links[k][..|Site|] == Site
      && links[k][|Site|..] in hrefs && IsEpisodeHref(links[k][|Site|..])
    ensures forall i, j :: 0 <= i < j < |links| ==> LexLess(links[i][|Site|..], links[j][|Site|..])
    ensures StrictlySorted(links)
    ensures forall i, j :: 0 <= i < j < |links| ==> links[i] != links[j]
  {
    var hs := SortedDistinct(EpisodeHrefs(hrefs));
    var links := WithSite(hs);
    WithSiteSorted(hs);
    SortedDistinctElements(links);
    assert forall k :: 0 <= k < |links| ==> links[k][|Site|..] == hs[k];
    assert forall h :: h in hs ==> Site + h in links by {
      forall h | h in hs
        ensures Site + h in links
      {
        var k :| 0 <= k < |hs| && hs[k] == h;
        assert links[k] == Site + h;
      }
    }
    links
  }

  /** `get_episodes_links` after the page has been rendered: the loop over the
      anchors, then deduplication, sorting and resolution against the site. */
  method GetEpisodesLinks(hrefs: seq<string>) returns (links: seq<string>)
    ensures links == EpisodeLinks(hrefs)
  {
    var found: seq<string> := [];
    for i := 0 to |hrefs|
      invariant found == EpisodeHrefs(hrefs[..i])
    {
      assert hrefs[..i + 1][..i] == hrefs[..i];
      if IsEpisodeHref(hrefs[i]) {
        found := found + [hrefs[i]];
      }
    }
    assert hrefs[..|hrefs|] == hrefs;
    var distinct := SortedDistinct(found);
    links := seq(|distinct|, k requires 0 <= k < |distinct| => Site + distinct[k]);
  }

  // ---------------------------------------------------------------------
  // Page derivation
  // ---------------------------------------------------------------------

  /** `"/".join(p.split("/")[:-1])`: `p` up to, not including, its last '/';
      empty when `p` has no '/'. */
  function ParentPath(p: string): (r: string)
    ensures '/' !in p ==> r == ""
    ensures '/' in p ==> |r| < |p| && p[..|r|] == r && p[|r|] == '/' && '/' !in p[|r| + 1..]
  {
    var pieces := Split(p, "/");
    var n := |pieces|;
    JoinSplit(p, "/");
    SplitPiecesAvoid(p, '/');
    if n == 1 then
      Join(pieces[..n - 1], "/")
    else
      JoinSnoc(pieces, "/");
      var r := Join(pieces[..n - 1], "/");
      assert p == r + "/" + pieces[n - 1];
      assert p[|r| + 1..] == pieces[n - 1];
      r
  }

  /** `get_reviews_page(p)`: the last path segment of `p` replaced by the reviews suffix. */
  function ReviewsPage(p: string): (r: string)
    ensures '/' !in p ==> r == ReviewsSuffix
    ensures '/' in p ==> exists i :: 0 <= i < |p| && p[i] == '/' && '/' !in p[i + 1..] && r == p[..i] + ReviewsSuffix
  {
    var head := ParentPath(p);
    assert '/' in p ==> p[..|head|] == head;
    head + ReviewsSuffix
  }

  /** `get_ratings_page(p)`: the last path segment of `p` replaced by the ratings suffix. */
  function RatingsPage(p: string): (r: string)
    ensures '/' !in p ==> r == RatingsSuffix
    ensures '/' in p ==> exists i :: 0 <= i < |p| && p[i] == '/' && '/' !in p[i + 1..] && r == p[..i] + RatingsSuffix
  {
    var head := ParentPath(p);
    assert '/' in p ==> p[..|head|] == head;
    head + RatingsSuffix
  }

  // ---------------------------------------------------------------------
  // Episode number
  // ---------------------------------------------------------------------

  /** `int(link.split("ep")[-1])`. */
  function EpisodeNumber(link: string): (r: Result<int>)
    ensures r.Failure? ==> r.error == ValueError
  {
    var pieces := Split(link, "ep");
    match ParseNat(pieces[|pieces| - 1])
    case Some(n) => Success(n)
    case None => Failure(ValueError)
  }

  lemma MarkerEndsWithEp(s: string)
    requires EndsWithMarker(s)
    ensures s == s[..|s| - 3] + "ep" + [s[|s| - 1]]
  {
    var m := s[|s| - 9..|s| - 1];
    assert m[6..] == "ep";
    assert s[|s| - 3..|s| - 1] == m[6..];
    assert s == s[..|s| - 3] + s[|s| - 3..|s| - 1] + [s[|s| - 1]];
  }

  lemma ParseDigitTail(d: char, t: string)
    requires IsDigit(d) && (t == [d] || t == [d, '\n'])
    ensures ParseNat(t) == Some(DigitValue(d))
  {
    assert StripLeft(t) == t;
    assert Strip(t) == [d];
    assert DigitsValue([d]) == DigitValue(d);
  }

  /** A discovered link always yields an episode number: the digit the pattern matched. */
  lemma EpisodeNumberOfHref(h: string)
    requires IsEpisodeHref(h)
    ensures EpisodeNumber(Site + h) == Success(DigitValue(MarkerDigit(h)))
  {
    var d := MarkerDigit(h);
    var s := if EndsWithMarker(h) then h else h[..|h| - 1];
    var t: string := if EndsWithMarker(h) then [d] else [d, '\n'];
    var q := s[..|s| - 3];
    MarkerEndsWithEp(s);
    assert h == q + "ep" + t by {
      if !EndsWithMarker(h) {
        assert h == s + ['\n'];
      }
    }
    assert Site + h == (Site + q) + "ep" + t;
    EpisodeNumberOfTail(Site + q, d, t);
  }

  /** A link ending in "ep", a digit and possibly a newline parses to that digit. */
  lemma EpisodeNumberOfTail(p: string, d: char, t: string)
    requires IsDigit(d) && (t == [d] || t == [d, '\n'])
    ensures EpisodeNumber(p + "ep" + t) == Success(DigitValue(d))
  {
    SplitEpLast(p, t);
    ParseDigitTail(d, t);
  }

  /** Every link `get_episodes_links` returns parses to an episode number between 0 and 9. */
  lemma EpisodeLinksNumbered(hrefs: seq<string>, k: nat)
    requires k < |EpisodeLinks(hrefs)|
    ensures var n := EpisodeNumber(EpisodeLinks(hrefs)[k]); n.Success? && 0 <= n.value <= 9
  {
    var link := EpisodeLinks(hrefs)[k];
    var h := link[|Site|..];
    assert link == Site + h;
    EpisodeNumberOfHref(h);
  }
}
