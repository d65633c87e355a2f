/** Harvest assembly: the `main` drivers that visit every episode's reviews
    page (and the show's), tag each page's rows and concatenate them.

    The browser is a parameter: `render(url)` is the list of review blocks of
    the fully expanded page at `url`, and `listing(url)` is the list of anchor
    hrefs of the page at `url`. */
module Harvest {
  import opened Common
  import opened Links
  import opened Extraction
  import PyText

  /** One row of the final frame: the scraped columns plus the tag columns
      the driver adds. `season` is None where the driver adds no season column. */
  datatype Record<N> = Record(row: Row<N>, episode: int, season: Option<int>)

  /** `df_temp["episode_number"] = e` (and `df_temp["season_number"] = s`):
      every row of the page, unchanged and in order, with the tags added. */
  function Tag<N>(rows: seq<Row<N>>, episode: int, season: Option<int>): (r: seq<Record<N>>)
    ensures |r| == |rows|
    ensures forall k :: 0 <= k < |rows| ==> r[k].row == rows[k] && r[k].episode == episode && r[k].season == season
  {
    seq(|rows|, k requires 0 <= k < |rows| => Record(rows[k], episode, season))
  }

  /** `pd.concat(re_dfs)`: the frames one after another. */
  function Flatten<T>(frames: seq<seq<T>>): seq<T>
    decreases |frames|
  {
    if frames == [] then [] else Flatten(frames[..|frames| - 1]) + frames[|frames| - 1]
  }

  /** The number of rows over all frames. */
  function RowCount<T>(frames: seq<seq<T>>): nat
    decreases |frames|
  {
    if frames == [] then 0 else RowCount(frames[..|frames| - 1]) + |frames[|frames| - 1]|
  }

  lemma FlattenSnoc<T>(frames: seq<seq<T>>, f: seq<T>)
    ensures Flatten(frames + [f]) == Flatten(frames) + f
  {
    assert (frames + [f])[..|frames|] == frames;
  }

  /** Concatenation is associative over the frame list. */
  lemma {:induction false} FlattenAppend<T>(a: seq<seq<T>>, b: seq<seq<T>>)
    ensures Flatten(a + b) == Flatten(a) + Flatten(b)
    decreases |b|
  {
    if b == [] {
      assert a + b == a;
    } else {
      var n := |b| - 1;
      assert a + b == (a + b[..n]) + [b[n]];
      FlattenSnoc(a + b[..n], b[n]);
      FlattenAppend(a, b[..n]);
      FlattenSnoc(b[..n], b[n]);
      assert b[..n] + [b[n]] == b;
    }
  }

  /** The concatenated frame has as many rows as the frames together. */
  lemma {:induction false} FlattenLength<T>(frames: seq<seq<T>>)
    ensures |Flatten(frames)| == RowCount(frames)
    decreases |frames|
  {
    if frames != [] {
      FlattenLength(frames[..|frames| - 1]);
    }
  }

  /** Row `k` of frame `i` sits in the concatenation after all rows of the
      earlier frames. */
  lemma {:induction false} FlattenAt<T>(frames: seq<seq<T>>, i: nat, k: nat)
    requires i < |frames| && k < |frames[i]|
    ensures RowCount(frames[..i]) + k < |Flatten(frames)|
    ensures Flatten(frames)[RowCount(frames[..i]) + k] == frames[i][k]
    decreases |frames|
  {
    var n := |frames| - 1;
    FlattenLength(frames);
    FlattenLength(frames[..n]);
    if i < n {
      assert frames[..n][..i] == frames[..i];
      FlattenAt(frames[..n], i, k);
    } else {
      assert frames[..i] == frames[..n];
    }
  }

  // ---------------------------------------------------------------------
  // One episode page, a list of episode pages
  // ---------------------------------------------------------------------

  /** One iteration of the episode loop: scrape the episode's reviews page,
      then tag its rows with `int(link.split("ep")[-1])` (and the season). */
  function EpisodeFrame<N>(link: string, render: string -> seq<Block>, extract: Block -> Result<Row<N>>,
                           season: Option<int>): Result<seq<Record<N>>>
  {
    var rows :- ScrapeRows(render(ReviewsPage(link)), extract);
    var episode :- EpisodeNumber(link);
    Success(Tag(rows, episode, season))
  }

  /** A loop that runs `f` on each element in order and stops at the first
      exception: every result in order, or that first exception. */
  function Collect<A, T>(xs: seq<A>, f: A -> Result<T>): (r: Result<seq<T>>)
    ensures r.Success? <==> forall k :: 0 <= k < |xs| ==> f(xs[k]).Success?
    ensures r.Success? ==> |r.value| == |xs|
    ensures r.Success? ==> forall k :: 0 <= k < |xs| ==> r.value[k] == f(xs[k]).value
    ensures r.Failure? ==> exists k :: 0 <= k < |xs| && f(xs[k]) == Failure(r.error)
                                       && forall j :: 0 <= j < k ==> f(xs[j]).Success?
    decreases |xs|
  {
    if xs == [] then Success([])
    else
      var n := |xs| - 1;
      var init := Collect(xs[..n], f);
      assert forall k :: 0 <= k < n ==> xs[..n][k] == xs[k];
      if init.Failure? then init
      else
        match f(xs[n])
        case Failure(e) => Failure(e)
        case Success(v) => Success(init.value + [v])
  }

  /** One more element that succeeds extends the collected results by its value. */
  lemma CollectSnoc<A, T>(xs: seq<A>, i: nat, f: A -> Result<T>, done: seq<T>)
    requires i < |xs| && Collect(xs[..i], f) == Success(done) && f(xs[i]).Success?
    ensures Collect(xs[..i + 1], f) == Success(done + [f(xs[i]).value])
  {
    assert xs[..i + 1][..i] == xs[..i];
  }

  /** An element that raises after elements that all succeeded ends the
      whole loop with its exception. */
  lemma CollectFail<A, T>(xs: seq<A>, i: nat, f: A -> Result<T>)
    requires i < |xs| && Collect(xs[..i], f).Success? && f(xs[i]).Failure?
    ensures Collect(xs, f) == Failure(f(xs[i]).error)
  {
    assert forall k :: 0 <= k < i ==> xs[..i][k] == xs[k];
    var all := Collect(xs, f);
    var k :| 0 <= k < |xs| && f(xs[k]) == Failure(all.error) && forall j :: 0 <= j < k ==> f(xs[j]).Success?;
    assert k == i;
  }

  /** The frames the episode loop appends to `re_dfs`: one per link, in link
      order, or the exception of the first link that raises. */
  function EpisodeFrames<N>(links: seq<string>, render: string -> seq<Block>, extract: Block -> Result<Row<N>>,
                            season: Option<int>): Result<seq<seq<Record<N>>>>
  {
    Collect(links, link => EpisodeFrame(link, render, extract, season))
  }

  /** The episode loop's frames, link by link: all of them when every page
      succeeds, otherwise the first exception. */
  lemma EpisodeFramesInOrder<N>(links: seq<string>, render: string -> seq<Block>,
                                extract: Block -> Result<Row<N>>, season: Option<int>)
    ensures var r := EpisodeFrames(links, render, extract, season);
      && (r.Success? <==> forall k :: 0 <= k < |links| ==> EpisodeFrame(links[k], render, extract, season).Success?)
      && (r.Success? ==> |r.value| == |links|)
      && (r.Success? ==> forall k :: 0 <= k < |links| ==> r.value[k] == EpisodeFrame(links[k], render, extract, season).value)
      && (r.Failure? ==> exists k :: 0 <= k < |links| && EpisodeFrame(links[k], render, extract, season) == Failure(r.error)
                                    && forall j :: 0 <= j < k ==> EpisodeFrame(links[j], render, extract, season).Success?)
  {
  }

  /** One more link that succeeds extends the loop's frames by its frame. */
  lemma EpisodeFramesSnoc<N>(links: seq<string>, i: nat, render: string -> seq<Block>,
                             extract: Block -> Result<Row<N>>, season: Option<int>, frames: seq<seq<Record<N>>>)
    requires i < |links|
    requires EpisodeFrames(links[..i], render, extract, season) == Success(frames)
    requires EpisodeFrame(links[i], render, extract, season).Success?
    ensures EpisodeFrames(links[..i + 1], render, extract, season)
      == Success(frames + [EpisodeFrame(links[i], render, extract, season).value])
  {
    CollectSnoc(links, i, link => EpisodeFrame(link, render, extract, season), frames);
  }

  /** A link that raises after links that all succeeded ends the whole loop with its exception. */
  lemma EpisodeFramesFail<N>(links: seq<string>, i: nat, render: string -> seq<Block>,
                             extract: Block -> Result<Row<N>>, season: Option<int>)
    requires i < |links|
    requires EpisodeFrames(links[..i], render, extract, season).Success?
    requires EpisodeFrame(links[i], render, extract, season).Failure?
    ensures EpisodeFrames(links, render, extract, season) == Failure(EpisodeFrame(links[i], render, extract, season).error)
  {
    CollectFail(links, i, link => EpisodeFrame(link, render, extract, season));
  }

  /** An episode frame is the page's rows, unchanged and in order, each
      tagged with the number after the link's last "ep" and the loop's season. */
  lemma EpisodeFrameRows<N>(link: string, render: string -> seq<Block>, extract: Block -> Result<Row<N>>,
                            season: Option<int>)
    requires EpisodeFrame(link, render, extract, season).Success?
    ensures var rows := ScrapeRows(render(ReviewsPage(link)), extract);
      var frame := EpisodeFrame(link, render, extract, season).value;
      && rows.Success? && EpisodeNumber(link).Success? && |frame| == |rows.value|
      && forall k :: 0 <= k < |frame| ==> frame[k] == Record(rows.value[k], EpisodeNumber(link).value, season)
  {
  }

  /** For a link that discovery produced, only the reviews page can make the
      frame fail, and its rows carry an episode number between 0 and 9. */
  lemma ListedEpisodeFrame<N>(hrefs: seq<string>, i: nat, render: string -> seq<Block>,
                              extract: Block -> Result<Row<N>>, season: Option<int>)
    requires i < |EpisodeLinks(hrefs)|
    ensures var link := EpisodeLinks(hrefs)[i];
      var frame := EpisodeFrame(link, render, extract, season);
      && (frame.Failure? <==> ScrapeRows(render(ReviewsPage(link)), extract).Failure?)
      && (frame.Success? ==> forall k :: 0 <= k < |frame.value| ==> 0 <= frame.value[k].episode <= 9)
  {
    var link := EpisodeLinks(hrefs)[i];
    EpisodeLinksNumbered(hrefs, i);
    var frame := EpisodeFrame(link, render, extract, season);
    if frame.Success? {
      EpisodeFrameRows(link, render, extract, season);
    }
  }

  /** Every row of an episode frame carries the loop's season tag. */
  lemma EpisodeFrameTagged<N>(link: string, render: string -> seq<Block>, extract: Block -> Result<Row<N>>,
                              season: Option<int>, k: nat)
    requires EpisodeFrame(link, render, extract, season).Success?
    requires k < |EpisodeFrame(link, render, extract, season).value|
    ensures EpisodeFrame(link, render, extract, season).value[k].season == season
  {
  }

  /** Every row the episode loop produces carries the loop's season tag. */
  lemma SeasonTagged<N>(links: seq<string>, render: string -> seq<Block>,
                        extract: Block -> Result<Row<N>>, season: Option<int>, k: nat)
    requires EpisodeFrames(links, render, extract, season).Success?
    requires k < |Flatten(EpisodeFrames(links, render, extract, season).value)|
    ensures Flatten(EpisodeFrames(links, render, extract, season).value)[k].season == season
  {
    var frames: seq<seq<Record<N>>> := EpisodeFrames(links, render, extract, season).value;
    forall i: int, j: int | 0 <= i < |frames| && 0 <= j < |frames[i]|
      ensures frames[i][j].season == season
    {
      EpisodeFrameAt(links, render, extract, season, i);
      EpisodeFrameTagged(links[i], render, extract, season, j);
    }
    FlattenKeepsSeason(frames, season, k);
  }

  /** A season tag every frame carries is carried by the concatenation. */
  lemma FlattenKeepsSeason<N>(frames: seq<seq<Record<N>>>, season: Option<int>, k: nat)
    requires forall i, j :: 0 <= i < |frames| && 0 <= j < |frames[i]| ==> frames[i][j].season == season
    requires k < |Flatten(frames)|
    ensures Flatten(frames)[k].season == season
  {
    var i, j := FrameOf(frames, k);
    FlattenAt(frames, i, j);
  }

  /** Frame `i` of a successful episode loop is link `i`'s frame. */
  lemma EpisodeFrameAt<N>(links: seq<string>, render: string -> seq<Block>,
                          extract: Block -> Result<Row<N>>, season: Option<int>, i: nat)
    requires EpisodeFrames(links, render, extract, season).Success?
    requires i < |EpisodeFrames(links, render, extract, season).value|
    ensures i < |links|
    ensures EpisodeFrame(links[i], render, extract, season).Success?
    ensures EpisodeFrames(links, render, extract, season).value[i] == EpisodeFrame(links[i], render, extract, season).value
  {
  }

  /** The frame and the row within it that row `k` of the concatenation comes from. */
  lemma {:induction false} FrameOf<T>(frames: seq<seq<T>>, k: nat) returns (i: nat, j: nat)
    requires k < |Flatten(frames)|
    ensures i < |frames| && j < |frames[i]| && k == RowCount(frames[..i]) + j
    decreases |frames|
  {
    var n := |frames| - 1;
    FlattenLength(frames);
    FlattenLength(frames[..n]);
    if k < |Flatten(frames[..n])| {
      i, j := FrameOf(frames[..n], k);
      assert frames[..n][..i] == frames[..i];
    } else {
      i, j := n, k - RowCount(frames[..n]);
    }
  }

  /** One episode frame in terms of the page's rows and the link's number. */
  lemma EpisodeFrameIs<N>(link: string, render: string -> seq<Block>, extract: Block -> Result<Row<N>>,
                          season: Option<int>, rows: Result<seq<Row<N>>>, episode: Result<int>)
    requires rows == ScrapeRows(render(ReviewsPage(link)), extract)
    requires episode == EpisodeNumber(link)
    ensures EpisodeFrame(link, render, extract, season) ==
      if rows.Failure? then Failure(rows.error)
      else if episode.Failure? then Failure(episode.error)
      else Success(Tag(rows.value, episode.value, season))
  {
  }

  /** The episode loop of every driver: for each link in order, scrape its
      reviews page, tag the rows with the episode number (and season) and
      append the frame to `re_dfs`; the first exception ends the loop. */
  method EpisodeLoop<N>(reDfs: seq<seq<Record<N>>>, links: seq<string>, render: string -> seq<Block>,
                        extract: Block -> Result<Row<N>>, season: Option<int>)
    returns (r: Result<seq<seq<Record<N>>>>)
    ensures r == match EpisodeFrames(links, render, extract, season)
                 case Success(frames) => Success(reDfs + frames)
                 case Failure(e) => Failure(e)
  {
    var frames := reDfs;
    ghost var added: seq<seq<Record<N>>> := [];
    for i := 0 to |links|
      invariant EpisodeFrames(links[..i], render, extract, season) == Success(added)
      invariant frames == reDfs + added
    {
      var frame := ScrapeEpisode(links[i], render, extract, season);
      if frame.Failure? {
        EpisodeFramesFail(links, i, render, extract, season);
        return Failure(frame.error);
      }
      EpisodeFramesSnoc(links, i, render, extract, season, added);
      PyText.ConcatAssoc(reDfs, added, [frame.value]);
      frames := frames + [frame.value];
      added := added + [frame.value];
    }
    assert links[..|links|] == links;
    r := Success(frames);
  }

  /** One pass of the episode loop's body: scrape the link's reviews page,
      then take the episode number from the link and tag the rows. */
  method ScrapeEpisode<N>(link: string, render: string -> seq<Block>, extract: Block -> Result<Row<N>>,
                          season: Option<int>)
    returns (r: Result<seq<Record<N>>>)
    ensures r == EpisodeFrame(link, render, extract, season)
  {
    var rows := ScrapeReviewsPage(render(ReviewsPage(link)), extract);
    var episode := EpisodeNumber(link);
    EpisodeFrameIs(link, render, extract, season, rows, episode);
    if rows.Failure? {
      return Failure(rows.error);
    }
    if episode.Failure? {
      return Failure(episode.error);
    }
    r := Success(Tag(rows.value, episode.value, season));
  }

  // ---------------------------------------------------------------------
  // scrape_reviews.py and the development script: episodes, then the show
  // ---------------------------------------------------------------------

  /** `main` of scrape_reviews.py (with `scrape_reviews_page` of
      scraping_utils.py as `extract`) and of the development script (with its
      own): the season's episode pages in link order, then the show's
      reviews tagged episode 0; no season column. */
  function EpisodesThenShow<N>(seasonLink: string, showLink: string, listing: string -> seq<string>,
                               render: string -> seq<Block>, extract: Block -> Result<Row<N>>): Result<seq<Record<N>>>
  {
    var frames :- EpisodeFrames(EpisodeLinks(listing(seasonLink)), render, extract, None);
    var show :- ScrapeRows(render(ReviewsPage(showLink)), extract);
    Success(Flatten(frames + [Tag(show, 0, None)]))
  }

  /** The driver: the episode loop fills `re_dfs`, the show's frame is
      appended, and the frames are concatenated. */
  method HarvestEpisodesThenShow<N>(seasonLink: string, showLink: string, listing: string -> seq<string>,
                                    render: string -> seq<Block>, extract: Block -> Result<Row<N>>)
    returns (r: Result<seq<Record<N>>>)
    ensures r == EpisodesThenShow(seasonLink, showLink, listing, render, extract)
  {
    var links := GetEpisodesLinks(listing(seasonLink));
    var reDfs := EpisodeLoop([], links, render, extract, None);
    ghost var frames := EpisodeFrames(links, render, extract, None);
    assert reDfs.Success? ==> frames.Success? && reDfs.value == [] + frames.value;
    if reDfs.Failure? {
      EpisodesThenShowIs(seasonLink, showLink, listing, render, extract, frames, Success([]));
      return Failure(reDfs.error);
    }
    var show := ScrapeReviewsPage(render(ReviewsPage(showLink)), extract);
    EpisodesThenShowIs(seasonLink, showLink, listing, render, extract, frames, show);
    if show.Failure? {
      return Failure(show.error);
    }
    assert [] + frames.value == frames.value;
    r := Success(Flatten(reDfs.value + [Tag(show.value, 0, None)]));
  }

  /** The episodes-then-show harvest in terms of the episode loop's frames
      and the show page's rows. */
  lemma EpisodesThenShowIs<N>(seasonLink: string, showLink: string, listing: string -> seq<string>,
                              render: string -> seq<Block>, extract: Block -> Result<Row<N>>,
                              frames: Result<seq<seq<Record<N>>>>, show: Result<seq<Row<N>>>)
    requires frames == EpisodeFrames(EpisodeLinks(listing(seasonLink)), render, extract, None)
    requires frames.Success? ==> show == ScrapeRows(render(ReviewsPage(showLink)), extract)
    ensures EpisodesThenShow(seasonLink, showLink, listing, render, extract) ==
      if frames.Failure? then Failure(frames.error)
      else if show.Failure? then Failure(show.error)
      else Success(Flatten(frames.value + [Tag(show.value, 0, None)]))
  {
  }

  /** The show's rows come last, tagged episode 0, unchanged and in page order;
      before them come the episode pages' rows, link by link; no row has a
      season tag. */
  lemma ShowRowsLast<N>(seasonLink: string, showLink: string, listing: string -> seq<string>,
                        render: string -> seq<Block>, extract: Block -> Result<Row<N>>)
    requires EpisodesThenShow(seasonLink, showLink, listing, render, extract).Success?
    ensures var all := EpisodesThenShow(seasonLink, showLink, listing, render, extract).value;
      var show := ScrapeRows(render(ReviewsPage(showLink)), extract).value;
      var frames := EpisodeFrames(EpisodeLinks(listing(seasonLink)), render, extract, None).value;
      && |show| <= |all|
      && all[..|all| - |show|] == Flatten(frames)
      && all[|all| - |show|..] == Tag(show, 0, None)
      && |all| == RowCount(frames) + |show|
      && forall k :: 0 <= k < |all| ==> all[k].season.None?
  {
    var links := EpisodeLinks(listing(seasonLink));
    var show := ScrapeRows(render(ReviewsPage(showLink)), extract).value;
    var frames := EpisodeFrames(links, render, extract, None).value;
    var all := EpisodesThenShow(seasonLink, showLink, listing, render, extract).value;
    FlattenSnoc(frames, Tag(show, 0, None));
    assert all == Flatten(frames) + Tag(show, 0, None);
    FlattenLength(frames);
    forall k | 0 <= k < |all|
      ensures all[k].season.None?
    {
      if k < |Flatten(frames)| {
        SeasonTagged(links, render, extract, None, k);
      }
    }
  }

  // ---------------------------------------------------------------------
  // scrape_imdb_reviews.py: the show first, then season by season
  // ---------------------------------------------------------------------

  /** One season of `main` in scrape_imdb_reviews.py: the season page's
      episode links, each page's rows tagged with the episode and the season. */
  function SeasonFrame<N>(titlePage: string, season: int, seasonPage: (string, int) -> string,
                          listing: string -> seq<string>, render: string -> seq<Block>,
                          extract: Block -> Result<Row<N>>): Result<seq<Record<N>>>
  {
    var frames :- EpisodeFrames(EpisodeLinks(listing(seasonPage(titlePage, season))), render, extract, Some(season));
    Success(Flatten(frames))
  }

  /** The season loop: one block of rows per season, in the order given, or
      the exception of the first season that raises. */
  function SeasonFrames<N>(titlePage: string, seasons: seq<int>, seasonPage: (string, int) -> string,
                           listing: string -> seq<string>, render: string -> seq<Block>,
                           extract: Block -> Result<Row<N>>): Result<seq<seq<Record<N>>>>
  {
    Collect(seasons, season => SeasonFrame(titlePage, season, seasonPage, listing, render, extract))
  }

  /** The season loop's blocks, season by season, in the order given. */
  lemma SeasonFramesInOrder<N>(titlePage: string, seasons: seq<int>, seasonPage: (string, int) -> string,
                               listing: string -> seq<string>, render: string -> seq<Block>,
                               extract: Block -> Result<Row<N>>)
    ensures var r := SeasonFrames(titlePage, seasons, seasonPage, listing, render, extract);
      && (r.Success? <==> forall k :: 0 <= k < |seasons| ==>
            SeasonFrame(titlePage, seasons[k], seasonPage, listing, render, extract).Success?)
      && (r.Success? ==> |r.value| == |seasons|)
      && (r.Success? ==> forall k :: 0 <= k < |seasons| ==>
            r.value[k] == SeasonFrame(titlePage, seasons[k], seasonPage, listing, render, extract).value)
  {
  }

  /** One more season that succeeds extends the season loop by its block. */
  lemma SeasonFramesSnoc<N>(titlePage: string, seasons: seq<int>, j: nat, seasonPage: (string, int) -> string,
                            listing: string -> seq<string>, render: string -> seq<Block>,
                            extract: Block -> Result<Row<N>>, blocks: seq<seq<Record<N>>>)
    requires j < |seasons|
    requires SeasonFrames(titlePage, seasons[..j], seasonPage, listing, render, extract) == Success(blocks)
    requires SeasonFrame(titlePage, seasons[j], seasonPage, listing, render, extract).Success?
    ensures SeasonFrames(titlePage, seasons[..j + 1], seasonPage, listing, render, extract)
      == Success(blocks + [SeasonFrame(titlePage, seasons[j], seasonPage, listing, render, extract).value])
  {
    CollectSnoc(seasons, j, season => SeasonFrame(titlePage, season, seasonPage, listing, render, extract), blocks);
  }

  /** A season that raises after seasons that all succeeded ends the whole
      loop with its exception. */
  lemma SeasonFramesFail<N>(titlePage: string, seasons: seq<int>, j: nat, seasonPage: (string, int) -> string,
                            listing: string -> seq<string>, render: string -> seq<Block>,
                            extract: Block -> Result<Row<N>>)
    requires j < |seasons|
    requires SeasonFrames(titlePage, seasons[..j], seasonPage, listing, render, extract).Success?
    requires SeasonFrame(titlePage, seasons[j], seasonPage, listing, render, extract).Failure?
    ensures SeasonFrames(titlePage, seasons, seasonPage, listing, render, extract)
      == Failure(SeasonFrame(titlePage, seasons[j], seasonPage, listing, render, extract).error)
  {
    CollectFail(seasons, j, season => SeasonFrame(titlePage, season, seasonPage, listing, render, extract));
  }

  /** `main` of scrape_imdb_reviews.py: the title page's reviews tagged
      episode 0 and season 0, then `max(seasons)` (ValueError when the show
      lists no season), then every season's episodes. */
  function ShowThenSeasons<N>(titlePage: string, seasons: seq<int>, seasonPage: (string, int) -> string,
                              listing: string -> seq<string>, render: string -> seq<Block>,
                              extract: Block -> Result<Row<N>>): Result<seq<Record<N>>>
  {
    var show :- ScrapeRows(render(ReviewsPage(titlePage)), extract);
    if seasons == [] then Failure(ValueError)
    else
      var blocks :- SeasonFrames(titlePage, seasons, seasonPage, listing, render, extract);
      Success(Flatten([Tag(show, 0, Some(0))] + blocks))
  }

  /** The driver's nested loops: `re_dfs` starts with the show's frame and
      the season loop extends it. */
  method HarvestShowThenSeasons<N>(titlePage: string, seasons: seq<int>, seasonPage: (string, int) -> string,
                                   listing: string -> seq<string>, render: string -> seq<Block>,
                                   extract: Block -> Result<Row<N>>)
    returns (r: Result<seq<Record<N>>>)
    ensures r == ShowThenSeasons(titlePage, seasons, seasonPage, listing, render, extract)
  {
    var show := ScrapeReviewsPage(render(ReviewsPage(titlePage)), extract);
    ghost var all := SeasonFrames(titlePage, seasons, seasonPage, listing, render, extract);
    ShowThenSeasonsIs(titlePage, seasons, seasonPage, listing, render, extract, show, all);
    if show.Failure? {
      return Failure(show.error);
    }
    var reDfs: seq<seq<Record<N>>> := [Tag(show.value, 0, Some(0))];
    if seasons == [] {
      return Failure(ValueError);
    }
    var filled := SeasonLoop(reDfs, titlePage, seasons, seasonPage, listing, render, extract);
    if filled.Failure? {
      return Failure(filled.error);
    }
    FlattenAppend([Tag(show.value, 0, Some(0))], all.value);
    r := Success(Flatten(filled.value));
  }

  /** The season loop: for each season in order, list its episode links and
      run the episode loop, which appends to `re_dfs`; the first exception
      ends the loop. */
  method SeasonLoop<N>(reDfs: seq<seq<Record<N>>>, titlePage: string, seasons: seq<int>,
                       seasonPage: (string, int) -> string, listing: string -> seq<string>,
                       render: string -> seq<Block>, extract: Block -> Result<Row<N>>)
    returns (r: Result<seq<seq<Record<N>>>>)
    ensures var all := SeasonFrames(titlePage, seasons, seasonPage, listing, render, extract);
      && (r.Success? <==> all.Success?)
      && (r.Failure? ==> r.error == all.error)
      && (r.Success? ==> Flatten(r.value) == Flatten(reDfs) + Flatten(all.value))
  {
    var frames := reDfs;
    ghost var blocks: seq<seq<Record<N>>> := [];
    for j := 0 to |seasons|
      invariant SeasonFrames(titlePage, seasons[..j], seasonPage, listing, render, extract) == Success(blocks)
      invariant Flatten(frames) == Flatten(reDfs) + Flatten(blocks)
    {
      var links := GetEpisodesLinks(listing(seasonPage(titlePage, seasons[j])));
      var next := EpisodeLoop(frames, links, render, extract, Some(seasons[j]));
      ghost var episodes := EpisodeFrames(links, render, extract, Some(seasons[j]));
      SeasonFrameIs(titlePage, seasons[j], seasonPage, listing, render, extract, episodes);
      if next.Failure? {
        SeasonFramesFail(titlePage, seasons, j, seasonPage, listing, render, extract);
        return Failure(next.error);
      }
      assert episodes.Success? && next.value == frames + episodes.value;
      ghost var block := Flatten(episodes.value);
      SeasonFramesSnoc(titlePage, seasons, j, seasonPage, listing, render, extract, blocks);
      AppendBlock(frames, episodes.value, reDfs, blocks);
      frames := next.value;
      blocks := blocks + [block];
    }
    assert seasons[..|seasons|] == seasons;
    r := Success(frames);
  }

  /** Appending a season's episode frames to `re_dfs` appends their
      concatenation, as one block, to the concatenated result. */
  lemma AppendBlock<T>(frames: seq<seq<T>>, episodes: seq<seq<T>>, reDfs: seq<seq<T>>, blocks: seq<seq<T>>)
    requires Flatten(frames) == Flatten(reDfs) + Flatten(blocks)
    ensures Flatten(frames + episodes) == Flatten(reDfs) + Flatten(blocks + [Flatten(episodes)])
  {
    var e := Flatten(episodes);
    FlattenAppend(frames, episodes);
    FlattenSnoc(blocks, e);
    PyText.ConcatAssoc(Flatten(reDfs), Flatten(blocks), e);
  }

  /** One season's block in terms of its episode loop's frames. */
  lemma SeasonFrameIs<N>(titlePage: string, season: int, seasonPage: (string, int) -> string,
                         listing: string -> seq<string>, render: string -> seq<Block>,
                         extract: Block -> Result<Row<N>>, frames: Result<seq<seq<Record<N>>>>)
    requires frames == EpisodeFrames(EpisodeLinks(listing(seasonPage(titlePage, season))), render, extract, Some(season))
    ensures SeasonFrame(titlePage, season, seasonPage, listing, render, extract) ==
      if frames.Failure? then Failure(frames.error) else Success(Flatten(frames.value))
  {
  }

  /** The show-then-seasons harvest in terms of the show page's rows and the
      season loop's blocks. */
  lemma ShowThenSeasonsIs<N>(titlePage: string, seasons: seq<int>, seasonPage: (string, int) -> string,
                             listing: string -> seq<string>, render: string -> seq<Block>,
                             extract: Block -> Result<Row<N>>, show: Result<seq<Row<N>>>,
                             blocks: Result<seq<seq<Record<N>>>>)
    requires show == ScrapeRows(render(ReviewsPage(titlePage)), extract)
    requires blocks == SeasonFrames(titlePage, seasons, seasonPage, listing, render, extract)
    ensures ShowThenSeasons(titlePage, seasons, seasonPage, listing, render, extract) ==
      if show.Failure? then Failure(show.error)
      else if seasons == [] then Failure(ValueError)
      else if blocks.Failure? then Failure(blocks.error)
      else Success(Flatten([Tag(show.value, 0, Some(0))] + blocks.value))
  {
  }

  /** The show's rows come first, tagged episode 0 and season 0, unchanged
      and in page order; then the seasons' blocks in the order given. A show
      that lists no season raises ValueError once its own page is scraped. */
  lemma ShowRowsFirst<N>(titlePage: string, seasons: seq<int>, seasonPage: (string, int) -> string,
                         listing: string -> seq<string>, render: string -> seq<Block>,
                         extract: Block -> Result<Row<N>>)
    ensures var all := ShowThenSeasons(titlePage, seasons, seasonPage, listing, render, extract);
      var show := ScrapeRows(render(ReviewsPage(titlePage)), extract);
      && (show.Success? && seasons == [] ==> all == Failure(ValueError))
      && (all.Success? ==>
            var blocks := SeasonFrames(titlePage, seasons, seasonPage, listing, render, extract).value;
            && |show.value| <= |all.value|
            && all.value[..|show.value|] == Tag(show.value, 0, Some(0))
            && all.value[|show.value|..] == Flatten(blocks)
            && |all.value| == |show.value| + RowCount(blocks))
  {
    var all := ShowThenSeasons(titlePage, seasons, seasonPage, listing, render, extract);
    if all.Success? {
      var show := ScrapeRows(render(ReviewsPage(titlePage)), extract).value;
      var blocks := SeasonFrames(titlePage, seasons, seasonPage, listing, render, extract).value;
      FlattenAppend([Tag(show, 0, Some(0))], blocks);
      FlattenSnoc([], Tag(show, 0, Some(0)));
      FlattenLength(blocks);
    }
  }

  /** Every row of a season's block is tagged with that season. */
  lemma SeasonBlockTagged<N>(titlePage: string, season: int, seasonPage: (string, int) -> string,
                             listing: string -> seq<string>, render: string -> seq<Block>,
                             extract: Block -> Result<Row<N>>, k: nat)
    requires SeasonFrame(titlePage, season, seasonPage, listing, render, extract).Success?
    requires k < |SeasonFrame(titlePage, season, seasonPage, listing, render, extract).value|
    ensures SeasonFrame(titlePage, season, seasonPage, listing, render, extract).value[k].season == Some(season)
  {
    var links := EpisodeLinks(listing(seasonPage(titlePage, season)));
    SeasonTagged(links, render, extract, Some(season), k);
  }
}
