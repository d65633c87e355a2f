/** Record extraction from a fully expanded reviews page: one row per
    `div.lister-item` block, seven columns, in the three variants the
    repository carries (scraping_utils.py and scrapers.py share one). */
module Extraction {
  import opened Common
  import opened PyText

  /** An element inside a review block: tag name, class list and its `.text`. */
  datatype Element = Element(tag: string, classes: seq<string>, text: string)

  /** One `div.lister-item` block: the elements inside it, in document order. */
  type Block = seq<Element>

  predicate Matches(e: Element, tag: string, cls: string) {
    e.tag == tag && cls in e.classes
  }

  /** `fetch_el_if_available(block, tag, cls)`: the text of the first element
      with that tag and class, or None when there is none. */
  function Fetch(b: Block, tag: string, cls: string): (r: Option<string>)
    ensures r.None? <==> forall i :: 0 <= i < |b| ==> !Matches(b[i], tag, cls)
    ensures r.Some? ==> exists i :: 0 <= i < |b| && Matches(b[i], tag, cls) && b[i].text == r.value
                                    && forall j :: 0 <= j < i ==> !Matches(b[j], tag, cls)
    decreases |b|
  {
    if b == [] then None
    else if Matches(b[0], tag, cls) then Some(b[0].text)
    else
      var r := Fetch(b[1..], tag, cls);
      assert forall i :: 1 <= i < |b| ==> b[i] == b[1..][i - 1];
      r
  }

  /** One review as the seven columns hold it. `N` is the type of the rating
      and reaction columns: numbers where the code parses them, raw strings
      where it does not. */
  datatype Row<N> = Row(
    rating: Option<N>,
    userName: Option<string>,
    date: Option<string>,
    title: Option<string>,
    text: Option<string>,
    helpful: Option<N>,
    total: Option<N>)

  // ---------------------------------------------------------------------
  // Field pipelines
  // ---------------------------------------------------------------------

  /** `s.replace("\n", "")`. */
  function NoNewlines(s: string): string {
    Remove(s, '\n')
  }

  /** `float(s)` on the numeric fields. */
  function ToNumber(s: string): Result<nat> {
    match ParseNat(s)
    case Some(n) => Success(n)
    case None => Failure(ValueError)
  }

  /** `text.replace("\n", "").split("/")[0]`: the rating's numerator text. */
  function Numerator(text: string): string {
    Split(NoNewlines(text), "/")[0]
  }

  /** Rating in scraping_utils.py and scrapers.py: absent stays None, present is `float(numerator)`. */
  function ParsedRating(t: Option<string>): (r: Result<Option<nat>>)
    ensures t.None? ==> r == Success(None)
    ensures t.Some? ==> (r.Failure? <==> ParseNat(Numerator(t.value)).None?)
    ensures r.Failure? ==> r.error == ValueError
    ensures t.Some? && r.Success? ==> r.value == ParseNat(Numerator(t.value))
  {
    match t
    case None => Success(None)
    case Some(s) =>
      var n :- ToNumber(Numerator(s));
      Success(Some(n))
  }

  /** Rating in the development script: `float()` is applied outside the
      None test, so an absent rating is `float(None)`. */
  function CrashingRating(t: Option<string>): (r: Result<Option<nat>>)
    ensures t.None? ==> r == Failure(TypeError)
    ensures t.Some? ==> r == ParsedRating(t)
  {
    match t
    case None => Failure(TypeError)
    case Some(s) =>
      var n :- ToNumber(Numerator(s));
      Success(Some(n))
  }

  /** Rating in test.py: the numerator text itself, unparsed. */
  function RawRating(t: Option<string>): (r: Option<string>)
    ensures r.None? <==> t.None?
    ensures r.Some? ==> '/' !in r.value && '\n' !in r.value
    ensures r.Some? ==> (ParsedRating(t).Success? <==> ParseNat(r.value).Some?)
  {
    match t
    case None => None
    case Some(s) => NumeratorBeforeSlash(s); Some(Numerator(s))
  }

  /** `text.replace("\n", "").split(" ")`, the display-name-date tokens. */
  function NameTokens(s: string): seq<string> {
    Split(NoNewlines(s), " ")
  }

  /** The user name: token 0 of the display-name-date text. */
  function UserName(t: Option<string>): Option<string> {
    match t
    case None => None
    case Some(s) => Some(NameTokens(s)[0])
  }

  /** test.py's user name and date: token 0, and token 1 twice joined by a space. */
  function NameAndRepeatedDate(t: Option<string>): (r: Result<(Option<string>, Option<string>)>)
    ensures t.None? ==> r == Success((None, None))
    ensures t.Some? ==> (r.Failure? <==> ' ' !in NoNewlines(t.value))
    ensures r.Failure? ==> r.error == IndexError
    ensures r.Success? ==> r.value.0 == UserName(t) && (r.value.1.None? <==> t.None?)
  {
    match t
    case None => Success((None, None))
    case Some(s) =>
      var tokens := NameTokens(s);
      SplitCount(NoNewlines(s), ' ');
      CountPositive(NoNewlines(s), ' ');
      if |tokens| < 2 then Failure(IndexError)
      else Success((Some(tokens[0]), Some(tokens[1] + " " + tokens[1])))
  }

  /** The review date: newline-free and stripped. */
  function ReviewDate(t: Option<string>): Option<string> {
    match t
    case None => None
    case Some(s) => Some(Strip(NoNewlines(s)))
  }

  /** The review title: newline-free. */
  function ReviewTitle(t: Option<string>): Option<string> {
    match t
    case None => None
    case Some(s) => Some(NoNewlines(s))
  }

  /** The review text. Its newline removal is guarded by the TITLE being
      present: a present title with no text element calls `None.replace`. */
  function ReviewText(title: Option<string>, text: Option<string>): (r: Result<Option<string>>)
    ensures r.Failure? <==> title.Some? && text.None?
    ensures r.Failure? ==> r.error == AttributeError
    ensures r.Success? && title.None? ==> r.value == text
    ensures r.Success? && title.Some? ==>
      r.value.Some? && forall c :: c in r.value.value <==> c in text.value && c != '\n'
  {
    if title.None? then Success(text)
    else if text.None? then Failure(AttributeError)
    else Success(Some(NoNewlines(text.value)))
  }

  /** `text.replace("\n", "").strip().split(" ")`, the reaction tokens. */
  function ReactionTokens(s: string): seq<string> {
    Split(Strip(NoNewlines(s)), " ")
  }

  /** A reaction token as it reaches `float()`: commas removed or not. */
  function CountText(token: string, dropCommas: bool): string {
    if dropCommas then Remove(token, ',') else token
  }

  /** Helpful and total reaction counts: tokens 0 and 3, parsed, in that order. */
  function ReactionCounts(t: Option<string>, dropCommas: bool): (r: Result<(Option<nat>, Option<nat>)>)
    ensures r.Failure? ==> t.Some? && (r.error == ValueError || (r.error == IndexError && |ReactionTokens(t.value)| < 4))
    ensures r.Success? && t.Some? ==> |ReactionTokens(t.value)| >= 4
  {
    match t
    case None => Success((None, None))
    case Some(s) =>
      var tokens := ReactionTokens(s);
      var helpful :- ToNumber(CountText(tokens[0], dropCommas));
      if |tokens| < 4 then Failure(IndexError)
      else
        var total :- ToNumber(CountText(tokens[3], dropCommas));
        Success((Some(helpful), Some(total)))
  }

  /** test.py's reactions: tokens 0 and 3 as raw strings. */
  function RawReactions(t: Option<string>): (r: Result<(Option<string>, Option<string>)>)
    ensures r.Failure? <==> t.Some? && |ReactionTokens(t.value)| < 4
    ensures r.Failure? ==> r.error == IndexError
  {
    match t
    case None => Success((None, None))
    case Some(s) =>
      var tokens := ReactionTokens(s);
      if |tokens| < 4 then Failure(IndexError)
      else Success((Some(tokens[0]), Some(tokens[3])))
  }

  // ---------------------------------------------------------------------
  // One loop iteration per variant
  // ---------------------------------------------------------------------

  /** The loop body of `scrape_reviews_page` in scraping_utils.py and scrapers.py. */
  function UtilsRow(b: Block): (r: Result<Row<nat>>)
    ensures r.Success? <==>
      && ParsedRating(Fetch(b, "div", "ipl-ratings-bar")).Success?
      && !(Fetch(b, "a", "title").Some? && Fetch(b, "div", "text").None?)
      && ReactionCounts(Fetch(b, "div", "actions"), true).Success?
    ensures Fetch(b, "div", "ipl-ratings-bar").Some? && ParseNat(Numerator(Fetch(b, "div", "ipl-ratings-bar").value)).None?
      ==> r == Failure(ValueError)
  {
    var rating :- ParsedRating(Fetch(b, "div", "ipl-ratings-bar"));
    var name := UserName(Fetch(b, "div", "display-name-date"));
    var date := ReviewDate(Fetch(b, "span", "review-date"));
    var title := ReviewTitle(Fetch(b, "a", "title"));
    var text :- ReviewText(title, Fetch(b, "div", "text"));
    var reactions :- ReactionCounts(Fetch(b, "div", "actions"), true);
    Success(Row(rating, name, date, title, text, reactions.0, reactions.1))
  }

  /** The loop body of `scrape_reviews_page` in the development script. */
  function SeriesRow(b: Block): (r: Result<Row<nat>>)
    ensures Fetch(b, "div", "ipl-ratings-bar").None? ==> r == Failure(TypeError)
    ensures Fetch(b, "div", "ipl-ratings-bar").Some? ==> (r.Success? <==>
      && ParsedRating(Fetch(b, "div", "ipl-ratings-bar")).Success?
      && !(Fetch(b, "a", "title").Some? && Fetch(b, "div", "text").None?)
      && ReactionCounts(Fetch(b, "div", "actions"), false).Success?)
    ensures Fetch(b, "div", "ipl-ratings-bar").Some? && Fetch(b, "div", "actions").None? ==> r == UtilsRow(b)
  {
    var rating :- CrashingRating(Fetch(b, "div", "ipl-ratings-bar"));
    var name := UserName(Fetch(b, "div", "display-name-date"));
    var date := ReviewDate(Fetch(b, "span", "review-date"));
    var title := ReviewTitle(Fetch(b, "a", "title"));
    var text :- ReviewText(title, Fetch(b, "div", "text"));
    var reactions :- ReactionCounts(Fetch(b, "div", "actions"), false);
    Success(Row(rating, name, date, title, text, reactions.0, reactions.1))
  }

  /** The loop body of `scrape_reviews_page` in test.py. */
  function TestRow(b: Block): (r: Result<Row<string>>)
    ensures r.Success? <==>
      && NameAndRepeatedDate(Fetch(b, "div", "display-name-date")).Success?
      && !(Fetch(b, "a", "title").Some? && Fetch(b, "div", "text").None?)
      && RawReactions(Fetch(b, "div", "actions")).Success?
    ensures r.Success? && UtilsRow(b).Success? ==>
      && r.value.userName == UtilsRow(b).value.userName
      && r.value.title == UtilsRow(b).value.title
      && r.value.text == UtilsRow(b).value.text
  {
    var rating := RawRating(Fetch(b, "div", "ipl-ratings-bar"));
    var nameDate :- NameAndRepeatedDate(Fetch(b, "div", "display-name-date"));
    var title := ReviewTitle(Fetch(b, "a", "title"));
    var text :- ReviewText(title, Fetch(b, "div", "text"));
    var reactions :- RawReactions(Fetch(b, "div", "actions"));
    Success(Row(rating, nameDate.0, nameDate.1, title, text, reactions.0, reactions.1))
  }

  // ---------------------------------------------------------------------
  // The page: all blocks, or the first exception
  // ---------------------------------------------------------------------

  /** The rows of a page: one per block, in block order, or the exception of
      the first block that raises, which ends the whole page. */
  function ScrapeRows<N>(blocks: seq<Block>, extract: Block -> Result<Row<N>>): (r: Result<seq<Row<N>>>)
    ensures r.Success? <==> forall k :: 0 <= k < |blocks| ==> extract(blocks[k]).Success?
    ensures r.Success? ==> |r.value| == |blocks|
    ensures r.Success? ==> forall k :: 0 <= k < |blocks| ==> r.value[k] == extract(blocks[k]).value
    ensures r.Failure? ==> exists k :: 0 <= k < |blocks| && extract(blocks[k]) == Failure(r.error)
                                       && forall j :: 0 <= j < k ==> extract(blocks[j]).Success?
    decreases |blocks|
  {
    if blocks == [] then Success([])
    else
      var n := |blocks| - 1;
      var init := ScrapeRows(blocks[..n], extract);
      assert forall k :: 0 <= k < n ==> blocks[..n][k] == blocks[k];
      if init.Failure? then init
      else
        match extract(blocks[n])
        case Failure(e) => Failure(e)
        case Success(row) => Success(init.value + [row])
  }

  /** `scrape_reviews_page`: seven column lists appended to once per block;
      the page's rows are those columns side by side. */
  method ScrapeReviewsPage<N>(blocks: seq<Block>, extract: Block -> Result<Row<N>>) returns (r: Result<seq<Row<N>>>)
    ensures r == ScrapeRows(blocks, extract)
  {
    var ratings: seq<Option<N>> := [];
    var userNames: seq<Option<string>> := [];
    var dates: seq<Option<string>> := [];
    var titles: seq<Option<string>> := [];
    var texts: seq<Option<string>> := [];
    var helpful: seq<Option<N>> := [];
    var total: seq<Option<N>> := [];
    for i := 0 to |blocks|
      invariant |ratings| == |userNames| == |dates| == |titles| == |texts| == |helpful| == |total| == i
      invariant forall k :: 0 <= k < i ==> extract(blocks[k]).Success?
      invariant forall k :: 0 <= k < i ==>
        extract(blocks[k]).value == Row(ratings[k], userNames[k], dates[k], titles[k], texts[k], helpful[k], total[k])
    {
      var row := extract(blocks[i]);
      if row.Failure? {
        ghost var whole := ScrapeRows(blocks, extract);
        assert whole.Failure?;
        ghost var k :| 0 <= k < |blocks| && extract(blocks[k]) == Failure(whole.error)
                       && forall j :: 0 <= j < k ==> extract(blocks[j]).Success?;
        assert k == i;
        return Failure(row.error);
      }
      ratings := ratings + [row.value.rating];
      userNames := userNames + [row.value.userName];
      dates := dates + [row.value.date];
      titles := titles + [row.value.title];
      texts := texts + [row.value.text];
      helpful := helpful + [row.value.helpful];
      total := total + [row.value.total];
    }
    var rows := seq(|blocks|, k requires 0 <= k < |blocks| =>
      Row(ratings[k], userNames[k], dates[k], titles[k], texts[k], helpful[k], total[k]));
    assert ScrapeRows(blocks, extract).value == rows;
    r := Success(rows);
  }

  // ---------------------------------------------------------------------
  // Properties of the fields
  // ---------------------------------------------------------------------

  /** The numerator is the newline-free rating text up to its first '/'. */
  lemma NumeratorBeforeSlash(text: string)
    ensures var u, p := NoNewlines(text), Numerator(text);
      && |p| <= |u| && u[..|p|] == p && '/' !in p && '\n' !in p
      && (|p| < |u| ==> u[|p|] == '/')
  {
    var u := NoNewlines(text);
    SplitFirst(u, '/');
    var p := Numerator(text);
    assert forall c :: c in p ==> c in u;
  }

  /** A rating bar reading "n/…" (newlines anywhere) yields rating n. */
  lemma RatingOfFraction(text: string, n: nat, rest: string)
    requires NoNewlines(text) == NatToString(n) + "/" + rest
    ensures ParsedRating(Some(text)) == Success(Some(n))
    ensures CrashingRating(Some(text)) == Success(Some(n))
    ensures RawRating(Some(text)) == Some(NatToString(n))
  {
    var d := NatToString(n);
    assert '/' !in d by {
      assert forall k :: 0 <= k < |d| ==> IsDigit(d[k]);
    }
    SplitAtFirst(d, '/', rest);
    assert NoNewlines(text) == d + ['/'] + rest;
    ParseNatToString(n);
  }

  /** A rating bar "7/10" gives rating 7. */
  lemma RatingSevenOfTen()
    ensures ParsedRating(Some("7/10")) == Success(Some(7))
  {
    RemoveAbsent("7/10", '\n');
    RatingOfFraction("7/10", 7, "10");
  }

  /** Reactions present: exactly as many tokens as spaces plus one, so fewer
      than three spaces in the stripped newline-free text is an IndexError,
      once token 0 has parsed. */
  lemma FewReactionTokensRaise(s: string, dropCommas: bool)
    requires Count(Strip(NoNewlines(s)), ' ') < 3
    requires ToNumber(CountText(ReactionTokens(s)[0], dropCommas)).Success?
    ensures ReactionCounts(Some(s), dropCommas) == Failure(IndexError)
    ensures RawReactions(Some(s)) == Failure(IndexError)
  {
    SplitCount(Strip(NoNewlines(s)), ' ');
  }

  /** Splitting on spaces cuts off three leading space-free words. */
  lemma SplitThreeWords(a: string, b: string, c: string, rest: string)
    requires ' ' !in a && ' ' !in b && ' ' !in c
    ensures Split(a + " " + b + " " + c + " " + rest, " ") == [a, b, c] + Split(rest, " ")
  {
    SplitAtFirst(c, ' ', rest);
    var tail := c + " " + rest;
    SplitAtFirst(b, ' ', tail);
    ConcatAssoc(b + " ", c, " ");
    ConcatAssoc(b + " ", c + " ", rest);
    var middle := b + " " + c + " " + rest;
    SplitAtFirst(a, ' ', middle);
    var open := a + " ";
    ConcatAssoc(open, b, " ");
    ConcatAssoc(open, b + " ", c);
    ConcatAssoc(open, b + " " + c, " ");
    ConcatAssoc(open, b + " " + c + " ", rest);
  }

  /** Reactions text "h out of rest" that needs no stripping and holds no
      newline yields tokens h, "out", "of" and the first word of rest. */
  lemma OutOfTokens(h: string, rest: string)
    requires ' ' !in h && '\n' !in h && '\n' !in rest
    requires h != [] && !IsSpace(h[0]) && rest != [] && !IsSpace(rest[|rest| - 1])
    ensures var tokens := ReactionTokens(h + " out of " + rest);
      |tokens| >= 4 && tokens[0] == h && tokens[3] == Split(rest, " ")[0]
  {
    var s := h + " out of " + rest;
    assert '\n' !in s by {
      assert forall c :: c in s ==> c in h || c in " out of " || c in rest;
    }
    assert s[0] == h[0] && s[|s| - 1] == rest[|rest| - 1];
    CleanReactionText(s);
    SplitOutOf(h, rest);
  }

  /** Splitting "h out of rest" on spaces. */
  lemma SplitOutOf(h: string, rest: string)
    requires ' ' !in h
    ensures var tokens := Split(h + " out of " + rest, " ");
      |tokens| >= 4 && tokens[0] == h && tokens[3] == Split(rest, " ")[0]
  {
    assert h + " out of " + rest == h + " " + "out" + " " + "of" + " " + rest;
    SplitThreeWords(h, "out", "of", rest);
  }

  /** A newline-free reactions text with no surrounding whitespace is split as it is. */
  lemma CleanReactionText(s: string)
    requires '\n' !in s && s != [] && !IsSpace(s[0]) && !IsSpace(s[|s| - 1])
    ensures ReactionTokens(s) == Split(s, " ")
  {
    RemoveAbsent(s, '\n');
    StripUnchanged(s);
  }

  /** The first piece of `w + " " + rest` split on spaces is the space-free word `w`. */
  lemma FirstWord(w: string, rest: string)
    requires ' ' !in w
    ensures Split(w + " " + rest, " ")[0] == w
  {
    SplitAtFirst(w, ' ', rest);
    assert w + " " + rest == w + [' '] + rest;
  }

  /** A numeral, possibly with thousands separators. */
  predicate Numeral(x: string) {
    x != [] && forall k :: 0 <= k < |x| ==> IsDigit(x[k]) || x[k] == ','
  }

  /** A numeral holding a comma is not a number to `float()`. */
  lemma SeparatedNumeralRaises(x: string)
    requires Numeral(x) && ',' in x
    ensures ToNumber(x) == Failure(ValueError)
  {
    StripUnchanged(x);
    var k :| 0 <= k < |x| && x[k] == ',';
    assert !IsDigit(x[k]);
  }

  /** The usual reactions text "x out of y found this helpful.", where the
      counts x and y may carry thousands separators: with commas removed it
      gives the pair (h, t); without, any comma raises ValueError. */
  lemma ReactionsOutOf(x: string, y: string, h: nat, t: nat)
    requires Numeral(x) && Numeral(y)
    requires Remove(x, ',') == NatToString(h) && Remove(y, ',') == NatToString(t)
    ensures var s := x + " out of " + y + " found this helpful.";
      && ReactionCounts(Some(s), true) == Success((Some(h), Some(t)))
      && ReactionCounts(Some(s), false) ==
           if ',' in x || ',' in y then Failure(ValueError) else Success((Some(h), Some(t)))
  {
    var s := x + " out of " + y + " found this helpful.";
    OutOfSentence(x, y);
    ParseNatToString(h);
    ParseNatToString(t);
    CountsOfTokens(s, true, h, t);
    if ',' in x {
      SeparatedNumeralRaises(x);
    } else {
      RemoveAbsent(x, ',');
      if ',' in y {
        SeparatedNumeralRaises(y);
      } else {
        RemoveAbsent(y, ',');
        CountsOfTokens(s, false, h, t);
      }
    }
  }

  /** The tokens of "x out of y found this helpful." for numerals x and y. */
  lemma OutOfSentence(x: string, y: string)
    requires Numeral(x) && Numeral(y)
    ensures var tokens := ReactionTokens(x + " out of " + y + " found this helpful.");
      |tokens| >= 4 && tokens[0] == x && tokens[3] == y
  {
    var rest := y + " " + "found this helpful.";
    var s := x + " out of " + y + " found this helpful.";
    assert s == x + " out of " + rest;
    assert ' ' !in x && '\n' !in x && !IsSpace(x[0]);
    assert ' ' !in y;
    assert '\n' !in rest && !IsSpace(rest[|rest| - 1]) by {
      assert forall c :: c in rest ==> c in y || c in " found this helpful.";
    }
    OutOfTokens(x, rest);
    FirstWord(y, "found this helpful.");
  }

  /** Reactions text "x of y found this helpful." (no "out") raises ValueError
      whether or not commas are removed: token 3 is "found", and if token 0
      does not parse either, that raises first. */
  lemma OfWithoutOutRaises(x: string, y: string, dropCommas: bool)
    requires Numeral(x) && Numeral(y)
    ensures ReactionCounts(Some(x + " of " + y + " found this helpful."), dropCommas) == Failure(ValueError)
  {
    var w, tail := "found", "this helpful.";
    assert " found this helpful." == " " + (w + " " + tail);
    ConcatAssoc(x + " of " + y, " ", w + " " + tail);
    assert w[0] == 'f' && w[|w| - 1] == 'd' && tail[|tail| - 1] == '.';
    assert ' ' !in w && '\n' !in w && ',' !in w && '\n' !in tail by {
      assert forall c :: c in tail ==> c in "this helpful.";
    }
    OfWordRaises(x, y, w, tail, dropCommas);
  }

  /** "x of y w tail" where the fourth word w is not a number raises ValueError. */
  lemma OfWordRaises(x: string, y: string, w: string, tail: string, dropCommas: bool)
    requires Numeral(x) && Numeral(y)
    requires w != [] && ' ' !in w && '\n' !in w && ',' !in w
    requires !IsSpace(w[0]) && !IsDigit(w[0]) && !IsSpace(w[|w| - 1])
    requires tail != [] && '\n' !in tail && !IsSpace(tail[|tail| - 1])
    ensures ReactionCounts(Some(x + " of " + y + " " + (w + " " + tail)), dropCommas) == Failure(ValueError)
  {
    OfWordTokens(x, y, w, tail);
    WordIsNoNumber(w, dropCommas);
  }

  /** The reaction tokens of "x of y w tail": token 3 is the word w. */
  lemma OfWordTokens(x: string, y: string, w: string, tail: string)
    requires Numeral(x) && Numeral(y)
    requires w != [] && ' ' !in w && '\n' !in w
    requires tail != [] && '\n' !in tail && !IsSpace(tail[|tail| - 1])
    ensures var tokens := ReactionTokens(x + " of " + y + " " + (w + " " + tail));
      |tokens| >= 4 && tokens[3] == w
  {
    var rest := w + " " + tail;
    var s := x + " of " + y + " " + rest;
    assert ' ' !in x && ' ' !in y;
    OfNoNewline(x, y, rest);
    assert s[0] == x[0] && s[|s| - 1] == tail[|tail| - 1];
    CleanReactionText(s);
    OfSplit(x, y, rest);
    FirstWord(w, tail);
    var pieces := Split(rest, " ");
    assert ([x, "of", y] + pieces)[3] == pieces[0];
  }

  /** "x of y rest" holds no newline when its numerals and rest hold none. */
  lemma OfNoNewline(x: string, y: string, rest: string)
    requires Numeral(x) && Numeral(y) && '\n' !in rest
    ensures '\n' !in x + " of " + y + " " + rest
  {
    assert '\n' !in x && '\n' !in y;
    var s := x + " of " + y + " " + rest;
    assert forall c :: c in s ==> c in x || c in " of " || c in y || c == ' ' || c in rest;
  }

  /** "x of y" and a tail, split on spaces: x, "of", y, then the tail's pieces. */
  lemma OfSplit(x: string, y: string, tail: string)
    requires ' ' !in x && ' ' !in y
    ensures Split(x + " of " + y + " " + tail, " ") == [x, "of", y] + Split(tail, " ")
  {
    assert " of " == " " + "of" + " ";
    ConcatAssoc(x, " ", "of");
    ConcatAssoc(x, " " + "of", " ");
    SplitThreeWords(x, "of", y, tail);
  }

  /** A comma-free word that starts with neither a space nor a digit and does
      not end in a space is not a number to `float()`, commas removed or not. */
  lemma WordIsNoNumber(w: string, dropCommas: bool)
    requires w != [] && ',' !in w && !IsSpace(w[0]) && !IsDigit(w[0]) && !IsSpace(w[|w| - 1])
    ensures ToNumber(CountText(w, dropCommas)) == Failure(ValueError)
  {
    RemoveAbsent(w, ',');
    assert CountText(w, dropCommas) == w;
    StripUnchanged(w);
    assert !AllDigits(Strip(w)) by { assert !IsDigit(Strip(w)[0]); }
  }

  /** Tokens 0 and 3 that both parse give the reaction pair. */
  lemma CountsOfTokens(s: string, dropCommas: bool, helpful: nat, total: nat)
    requires |ReactionTokens(s)| >= 4
    requires ToNumber(CountText(ReactionTokens(s)[0], dropCommas)) == Success(helpful)
    requires ToNumber(CountText(ReactionTokens(s)[3], dropCommas)) == Success(total)
    ensures ReactionCounts(Some(s), dropCommas) == Success((Some(helpful), Some(total)))
  {
  }

  // ---------------------------------------------------------------------
  // Properties of the rows
  // ---------------------------------------------------------------------

  /** The two reaction counts of scraping_utils.py are both present or both
      absent, and absent exactly when the block has no reactions element. */
  lemma UtilsReactionPair(b: Block)
    requires UtilsRow(b).Success?
    ensures UtilsRow(b).value.helpful.None? <==> UtilsRow(b).value.total.None?
    ensures UtilsRow(b).value.helpful.None? <==> Fetch(b, "div", "actions").None?
  {
    var t := Fetch(b, "div", "actions");
    assert ReactionCounts(t, true).Success?;
    assert UtilsRow(b).value.helpful == ReactionCounts(t, true).value.0;
    assert UtilsRow(b).value.total == ReactionCounts(t, true).value.1;
    ReactionCountsPaired(t, true);
  }

  /** The same pairing in the development script. */
  lemma SeriesReactionPair(b: Block)
    requires SeriesRow(b).Success?
    ensures SeriesRow(b).value.helpful.None? <==> SeriesRow(b).value.total.None?
    ensures SeriesRow(b).value.helpful.None? <==> Fetch(b, "div", "actions").None?
  {
    var t := Fetch(b, "div", "actions");
    assert ReactionCounts(t, false).Success?;
    assert SeriesRow(b).value.helpful == ReactionCounts(t, false).value.0;
    assert SeriesRow(b).value.total == ReactionCounts(t, false).value.1;
    ReactionCountsPaired(t, false);
  }

  /** Parsed reaction counts come in pairs, absent exactly when the element is. */
  lemma ReactionCountsPaired(t: Option<string>, dropCommas: bool)
    requires ReactionCounts(t, dropCommas).Success?
    ensures ReactionCounts(t, dropCommas).value.0.None? <==> ReactionCounts(t, dropCommas).value.1.None?
    ensures ReactionCounts(t, dropCommas).value.0.None? <==> t.None?
  {
    if t.Some? {
      var tokens := ReactionTokens(t.value);
      var helpful := ToNumber(CountText(tokens[0], dropCommas));
      assert helpful.Success? && |tokens| >= 4;
      var total := ToNumber(CountText(tokens[3], dropCommas));
      assert total.Success?;
      assert ReactionCounts(t, dropCommas) == Success((Some(helpful.value), Some(total.value)));
    }
  }

  /** The same pairing in test.py. */
  lemma TestReactionPair(b: Block)
    requires TestRow(b).Success?
    ensures TestRow(b).value.helpful.None? <==> TestRow(b).value.total.None?
    ensures TestRow(b).value.helpful.None? <==> Fetch(b, "div", "actions").None?
  {
  }

  /** test.py keeps the reaction tokens as text: wherever the development
      script's parse succeeds, test.py's tokens parse to the same counts. */
  lemma RawReactionsParse(t: Option<string>)
    requires ReactionCounts(t, false).Success?
    ensures RawReactions(t).Success?
    ensures t.Some? ==>
      && ToNumber(RawReactions(t).value.0.value) == Success(ReactionCounts(t, false).value.0.value)
      && ToNumber(RawReactions(t).value.1.value) == Success(ReactionCounts(t, false).value.1.value)
  {
    if t.Some? {
      var tokens := ReactionTokens(t.value);
      assert CountText(tokens[0], false) == tokens[0];
      assert |tokens| >= 4;
      assert CountText(tokens[3], false) == tokens[3];
      assert RawReactions(t) == Success((Some(tokens[0]), Some(tokens[3])));
    }
  }

  /** The text column is guarded by the title: a title without a text element
      raises AttributeError, and without a title the text keeps its newlines. */
  lemma TextGuardedByTitle(b: Block)
    ensures ParsedRating(Fetch(b, "div", "ipl-ratings-bar")).Success? && Fetch(b, "a", "title").Some? && Fetch(b, "div", "text").None?
      ==> UtilsRow(b) == Failure(AttributeError)
    ensures UtilsRow(b).Success? && Fetch(b, "a", "title").None? ==> UtilsRow(b).value.text == Fetch(b, "div", "text")
    ensures UtilsRow(b).Success? && Fetch(b, "a", "title").Some? ==>
      UtilsRow(b).value.text == Some(NoNewlines(Fetch(b, "div", "text").value))
  {
    var rating := Fetch(b, "div", "ipl-ratings-bar");
    var title := ReviewTitle(Fetch(b, "a", "title"));
    var text := Fetch(b, "div", "text");
    if ParsedRating(rating).Success? && title.Some? && text.None? {
      assert ReviewText(title, text) == Failure(AttributeError);
    }
    if UtilsRow(b).Success? {
      assert UtilsRow(b).value.text == ReviewText(title, text).value;
    }
  }

  /** The development script cannot scrape a block without a rating bar,
      and so no page that has one. */
  lemma UnratedBlockFailsSeries(blocks: seq<Block>, k: nat)
    requires k < |blocks| && Fetch(blocks[k], "div", "ipl-ratings-bar").None?
    ensures SeriesRow(blocks[k]) == Failure(TypeError)
    ensures ScrapeRows(blocks, SeriesRow).Failure?
  {
  }

  /** The user-name column: one word without spaces or newlines, None
      exactly when the display-name-date element is missing. */
  lemma UserNameShape(t: Option<string>)
    ensures UserName(t).None? <==> t.None?
    ensures UserName(t).Some? ==> ' ' !in UserName(t).value && '\n' !in UserName(t).value
  {
    if t.Some? {
      var u := NoNewlines(t.value);
      assert '\n' !in u;
      SplitFirst(u, ' ');
      var w := Split(u, " ")[0];
      SliceMembers(u, 0, |w|);
      assert w == u[0..|w|];
    }
  }

  /** The date column: no newline and no surrounding whitespace, None
      exactly when the review-date element is missing. */
  lemma ReviewDateShape(t: Option<string>)
    ensures ReviewDate(t).None? <==> t.None?
    ensures ReviewDate(t).Some? ==> '\n' !in ReviewDate(t).value
    ensures ReviewDate(t).Some? && ReviewDate(t).value != [] ==>
      !IsSpace(ReviewDate(t).value[0]) && !IsSpace(ReviewDate(t).value[|ReviewDate(t).value| - 1])
  {
    if t.Some? {
      var u := NoNewlines(t.value);
      assert '\n' !in u;
      var l := StripLeft(u);
      var d := StripRight(l);
      SliceMembers(u, |u| - |l|, |u|);
      assert '\n' !in l;
      SliceMembers(l, 0, |d|);
      assert d == l[0..|d|];
      if d != [] {
        assert d[0] == l[0];
      }
    }
  }

  /** The title column: no newline, None exactly when the title element is missing. */
  lemma ReviewTitleShape(t: Option<string>)
    ensures ReviewTitle(t).None? <==> t.None?
    ensures ReviewTitle(t).Some? ==> '\n' !in ReviewTitle(t).value
  {
  }

  /** The user name is the first word of the display-name-date text, with
      any newlines in the rest ignored. */
  lemma UserNameFirstWord(w: string, rest: string)
    requires ' ' !in w && '\n' !in w
    ensures UserName(Some(w + " " + rest)) == Some(w)
  {
    RemoveAppend(w + " ", rest, '\n');
    RemoveAppend(w, " ", '\n');
    RemoveAbsent(w, '\n');
    RemoveAbsent(" ", '\n');
    FirstWord(w, NoNewlines(rest));
  }

  /** test.py's date column is the second token written twice, and a
      display-name-date text without a space raises IndexError. */
  lemma RepeatedDate(b: Block)
    ensures TestRow(b).Success? && TestRow(b).value.date.Some? ==>
      var tokens := NameTokens(Fetch(b, "div", "display-name-date").value);
      TestRow(b).value.date.value == tokens[1] + " " + tokens[1]
    ensures Fetch(b, "div", "display-name-date").Some? && ' ' !in NoNewlines(Fetch(b, "div", "display-name-date").value)
      ==> TestRow(b) == Failure(IndexError)
  {
    var t := Fetch(b, "div", "display-name-date");
    if t.Some? && ' ' !in NoNewlines(t.value) {
      SplitNoSeparator(NoNewlines(t.value), " ");
    }
  }
}
