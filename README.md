# IMDB review scraper — a verified model

This project models the string and list processing of an IMDB review
scraper written in Python. The scraper:

- finds a season's episode links on the season page;
- derives each episode's reviews and ratings page;
- turns every review block of a fully expanded reviews page into one row of seven
  columns (rating, user name, date, title, text, helpful count, total count);
- tags each page's rows with the episode (and season) number;
- concatenates the pages into one table.

The project also models the rating columns derived from that table and the
text each plotting helper puts on a chart.

The browser is not modelled. Two functions stand in for it:

- `render(url)`: the review blocks of the page at `url` once every "load more"
  click is done;
- `listing(url)`: the anchor hrefs of the page at `url`.

The driver that builds the season list gets two more parameters instead:

- `seasonPage(titlePage, season)`: the season page's URL;
- `seasons`: the season list it reads.

A Python exception is a `Failure` that carries the exception's class. A page whose
block raises loses all its rows, and a driver whose page raises produces
nothing.

Modules, one per concern of the program:

- `Common`: `Option`, `Result` and the exception classes.
- `PyText`: the Python `str` operations the program uses, on `seq<char>`:
  - `replace(c, "")`, `split(sep)`, `sep.join(...)`, `strip()`;
  - string ordering;
  - `float()`/`int()` on decimal digits;
  - `f"{n}"`.
- `Links`: the episode-link filter, the deduplicate-and-sort step, the
  reviews and ratings page URLs, and the episode number taken from a link.
  The four copies of `get_episodes_links` and of the page functions
  (scraping_utils.py, scrapers.py, the development script, test.py) are identical
  and share one model.
- `Extraction`: `fetch_el_if_available`, the field pipelines and the loop of
  `scrape_reviews_page`. The copies of that loop come in three behaviours:
  - scraping_utils.py and scrapers.py parse numbers after removing commas (`UtilsRow`);
  - the development script calls `float()` on an absent rating and keeps
    commas (`SeriesRow`);
  - test.py keeps raw strings and writes the date token twice (`TestRow`).
- `Harvest`: the `main` drivers:
  - scrape_reviews.py and the development script: episode pages in link order,
    then the show page tagged episode 0;
  - scrape_imdb_reviews.py: the show page tagged episode 0 and season 0, then
    every season's episode pages tagged with their episode and season.
- `Engineering`: `rating_to_cat`, `rating_to_5_scale` and the
  `review_sentiment` column.
- `Plotting`: the axis-label fallbacks and the title prefix
  "(show-Sx:Ey)" of the four `build_*` helpers.

Where the code and its documentation disagree, the model follows the code:

- A rating or reaction count that does not parse, or a reactions text with
  fewer than four tokens, raises in the code. A null is not written.
- "128 of 150 found this helpful." raises ValueError, because token 3 is "found"
  (`Extraction.OfWithoutOutRaises`). The code expects "x out of y …" (see
  `Extraction.ReactionsOutOf`).
- `=ttep_ep\d$` accepts exactly one digit after the marker, so an episode
  number is always 0..9 (the model reads `\d` as `[0-9]`, see "## Left out"). `$` also matches before a final newline.
- scrape_reviews.py puts the show's rows LAST. scrape_imdb_reviews.py puts them first.
- test.py's date column is the second token written twice.

## Model

| member | source | states |
|---|---|---|
| Links.IsEpisodeHref | src/dependencies/scraping_utils.py:92 | `regex.search('=ttep_ep\d$', h)` read as: the marker and one ASCII digit at the very end, or just before a final newline (definition; its shape is stated by `Links.EpisodeHrefForm`) |
| Links.EpisodeHrefForm | src/dependencies/scraping_utils.py:92 | a href ending in the marker and one character, with or without a final newline, matches exactly when that character is a digit `[0-9]` |
| Links.EpisodeHrefs | src/dependencies/scraping_utils.py:89-93 | the hrefs kept by the anchor loop are exactly the listing's hrefs that match `=ttep_ep[0-9]$` |
| Links.MarkerDigit | src/dependencies/scraping_utils.py:92 | the character the `\d` of the pattern matched is a decimal digit |
| Links.SortedDistinct | src/dependencies/scraping_utils.py:95-96 | `list(set(xs))` then `sort()` holds each distinct element of `xs` once, strictly ascending in Python string order |
| Links.Insert | src/dependencies/scraping_utils.py:95-96 | inserting into an ascending list keeps it ascending and adds exactly the new element |
| Links.SortedUnique | src/dependencies/scraping_utils.py:95-96 | two ascending lists with the same elements are equal, so the set's iteration order cannot change the sorted result |
| Links.WithSite | src/dependencies/scraping_utils.py:97 | each link is the site origin followed by the href at the same position |
| Links.WithSiteSorted | src/dependencies/scraping_utils.py:97 | prefixing the origin keeps ascending order |
| Links.EpisodeLinks | src/dependencies/scraping_utils.py:75-98 | every matching href appears as origin + href; every link is origin + a matching listed href; links are strictly ascending and duplicate-free |
| Links.GetEpisodesLinks | src/dependencies/scrapers.py:117-125 | the loop with appends, then dedupe, sort and prefix, returns exactly `EpisodeLinks` of the hrefs |
| Links.ParentPath | src/dependencies/scraping_utils.py:103 | `"/".join(p.split("/")[:-1])` is `p` before its last '/', or empty when `p` has no '/' |
| Links.ReviewsPage | src/dependencies/scraping_utils.py:106-107 | the reviews URL is `p` up to its last '/' followed by "/reviews?ref_=tt_urv", or just the suffix when `p` has no '/' |
| Links.RatingsPage | src/dependencies/scraping_utils.py:102-103 | the ratings URL is `p` up to its last '/' followed by "/ratings/?ref_=tt_ov_rt", or just the suffix when `p` has no '/' |
| Links.EpisodeNumber | src/scrape_reviews.py:65 | `int(link.split("ep")[-1])`: the only exception it raises is ValueError (its value on discovered links is stated by `Links.EpisodeNumberOfHref`) |
| Links.EpisodeNumberOfHref | src/scrape_reviews.py:65 | `int(link.split("ep")[-1])` on a discovered link is the digit the pattern matched |
| Links.EpisodeNumberOfTail | src/scrape_imdb_reviews.py:73 | a link ending in "ep" and one digit (and perhaps a newline) parses to that digit, whatever "ep"s come earlier |
| Links.EpisodeLinksNumbered | development_files/scrape_imdb_series.py:248 | every discovered link yields an episode number between 0 and 9 and never raises |
| Extraction.Fetch | src/dependencies/scraping_utils.py:34-49 | None exactly when no element has that tag and class; otherwise the text of the first such element |
| Extraction.ParsedRating | src/dependencies/scraping_utils.py:168-171 | an absent rating is None; a present one raises ValueError exactly when its numerator does not parse, and is otherwise the parsed numerator |
| Extraction.CrashingRating | development_files/scrape_imdb_series.py:172-175 | an absent rating raises TypeError (`float(None)`); a present one behaves as in scraping_utils.py |
| Extraction.RawRating | development_files/test.py:116-119 | None exactly when absent; otherwise text with no '/' and no newline, which parses exactly when scraping_utils.py's rating would |
| Extraction.UserName | src/dependencies/scraping_utils.py:174-179 | token 0 of the newline-free text split on spaces (definition; its shape is stated by `Extraction.UserNameShape` and `Extraction.UserNameFirstWord`) |
| Extraction.NameAndRepeatedDate | development_files/test.py:122-129 | absent gives (None, None); present raises IndexError exactly when the newline-free text has no space; the name is the same token 0 as elsewhere |
| Extraction.ReviewDate | src/dependencies/scraping_utils.py:182-185 | the newline-free text, stripped (definition; its shape is stated by `Extraction.ReviewDateShape`) |
| Extraction.ReviewTitle | src/dependencies/scraping_utils.py:188-191 | the newline-free title text (definition; its shape is stated by `Extraction.ReviewTitleShape`) |
| Extraction.ReviewText | src/dependencies/scraping_utils.py:194-197 | raises AttributeError exactly when a title is present and the text is absent; without a title the text is unchanged; with one it keeps every character except newlines |
| Extraction.ReactionCounts | src/dependencies/scraping_utils.py:200-207 | raises only when the element is present, and then only ValueError, or IndexError with fewer than four tokens; success on a present element means at least four tokens |
| Extraction.RawReactions | development_files/test.py:144-151 | raises exactly when the element is present with fewer than four tokens, and then IndexError |
| Extraction.RawReactionsParse | development_files/test.py:144-151 | wherever the development script's reaction parse succeeds, test.py's raw tokens parse to the same two counts |
| Extraction.UtilsRow | src/dependencies/scraping_utils.py:166-207 | a block succeeds exactly when its rating parses, it is not a title without text, and its reactions parse; an unparsable present rating raises ValueError |
| Extraction.SeriesRow | development_files/scrape_imdb_series.py:170-211 | a block without a rating bar raises TypeError; with a rating bar it succeeds exactly when the rating parses, there is no title without text, and the reactions parse WITHOUT comma removal; with a rating bar and no reactions it gives exactly the scraping_utils.py row |
| Extraction.TestRow | development_files/test.py:114-151 | a block succeeds exactly when its name-date text, title-text guard and reactions succeed; its name, title and text columns agree with scraping_utils.py's row |
| Extraction.ScrapeRows | src/dependencies/scraping_utils.py:166-207 | success exactly when every block succeeds, with one row per block in block order; otherwise the exception of the first failing block, all earlier blocks having succeeded |
| Extraction.ScrapeReviewsPage | src/dependencies/scrapers.py:190-241 | the loop appending to seven columns yields exactly `ScrapeRows` |
| Extraction.NumeratorBeforeSlash | src/dependencies/scraping_utils.py:170 | the rating text parsed is the newline-free text up to, not including, its first '/' |
| Extraction.RatingOfFraction | src/dependencies/scrapers.py:194-197 | a rating bar reading "n/…" gives rating n in the parsing variants and the raw text "n" in test.py |
| Extraction.RatingSevenOfTen | src/dependencies/scraping_utils.py:168-171 | the rating bar "7/10" gives rating 7 |
| Extraction.UnratedBlockFailsSeries | development_files/scrape_imdb_series.py:172-175 | in the development script a block without a rating bar raises TypeError, and so does every page holding one |
| Extraction.UserNameShape | src/dependencies/scraping_utils.py:174-179 | the user name is None exactly when the element is missing, and otherwise holds no space and no newline |
| Extraction.UserNameFirstWord | src/dependencies/scrapers.py:200-205 | for a text starting with a space-free word and a space, the user name is that word |
| Extraction.ReviewDateShape | src/dependencies/scrapers.py:208-211 | the date is None exactly when the element is missing, and otherwise has no newline and no leading or trailing whitespace |
| Extraction.ReviewTitleShape | src/dependencies/scrapers.py:214-217 | the title is None exactly when the element is missing, and otherwise has no newline |
| Extraction.TextGuardedByTitle | src/dependencies/scraping_utils.py:188-197 | once the rating has parsed (absent or numeric), a title with no text element makes the row raise AttributeError; without a title the text keeps its newlines; with one they are removed |
| Extraction.FewReactionTokensRaise | src/dependencies/scraping_utils.py:200-204 | fewer than three spaces in the stripped reactions text raises IndexError once token 0 has parsed, in the parsing and in the raw variants |
| Extraction.SplitThreeWords | src/dependencies/scraping_utils.py:202 | `split(" ")` cuts three space-free leading words off as the first three tokens |
| Extraction.OutOfTokens | src/dependencies/scraping_utils.py:202 | the tokens of a clean "h out of rest" are h, "out", "of", then the first word of rest |
| Extraction.SeparatedNumeralRaises | development_files/scrape_imdb_series.py:207-208 | a count written with a thousands separator is not a number to `float()` |
| Extraction.ReactionsOutOf | src/dependencies/scraping_utils.py:199-207 | "x out of y found this helpful." gives the counts (x, y) with commas removed; without comma removal any comma raises ValueError |
| Extraction.OfWithoutOutRaises | src/dependencies/scraping_utils.py:200-207 | "x of y found this helpful." (no "out") raises ValueError for any numerals x and y, with or without comma removal: token 3 is "found" |
| Extraction.OfWordRaises | src/dependencies/scraping_utils.py:200-207 | "x of y w …" raises ValueError whenever the fourth word w is not a number (it starts with neither a digit nor whitespace) |
| Extraction.CountsOfTokens | src/dependencies/scrapers.py:226-233 | when tokens 0 and 3 exist and parse, the reaction pair is those two numbers in that order |
| Extraction.ReactionCountsPaired | src/dependencies/scrapers.py:226-233 | parsed reaction counts are both present or both absent, absent exactly when the element is |
| Extraction.UtilsReactionPair | src/dependencies/scraping_utils.py:199-207 | in a scraped row both counts are present or both absent, absent exactly when the block has no reactions element |
| Extraction.SeriesReactionPair | development_files/scrape_imdb_series.py:204-211 | the same pairing for the development script's rows |
| Extraction.TestReactionPair | development_files/test.py:144-151 | the same pairing for test.py's raw-string rows |
| Extraction.RepeatedDate | development_files/test.py:122-129 | test.py's date is token 1 written twice with a space between, and a text with no space raises IndexError |
| Harvest.Flatten | src/scrape_reviews.py:76 | `pd.concat(re_dfs)`: the frames one after another (definition; stated by `Harvest.FlattenAppend`, `Harvest.FlattenLength` and `Harvest.FlattenAt`) |
| Harvest.EpisodeFrame | src/scrape_reviews.py:60-65 | one pass of the episode loop (definition; stated by `Harvest.EpisodeFrameIs` and `Harvest.EpisodeFrameRows`) |
| Harvest.EpisodeFrames | src/scrape_reviews.py:59-67 | the episode loop's frames (definition; stated by `Harvest.EpisodeFramesInOrder`) |
| Harvest.EpisodesThenShow | src/scrape_reviews.py:41-77 | the episodes-then-show harvest (definition; stated by `Harvest.EpisodesThenShowIs` and `Harvest.ShowRowsLast`) |
| Harvest.SeasonFrame | src/scrape_imdb_reviews.py:65-75 | one season of the nested loops (definition; stated by `Harvest.SeasonFrameIs` and `Harvest.SeasonBlockTagged`) |
| Harvest.SeasonFrames | src/scrape_imdb_reviews.py:60-76 | the season loop's blocks (definition; stated by `Harvest.SeasonFramesInOrder`) |
| Harvest.ShowThenSeasons | src/scrape_imdb_reviews.py:33-79 | the show-then-seasons harvest (definition; stated by `Harvest.ShowThenSeasonsIs` and `Harvest.ShowRowsFirst`) |
| Harvest.Tag | src/scrape_imdb_reviews.py:73-74 | tagging keeps every row unchanged and in order and sets the episode and season columns |
| Harvest.FlattenAppend | src/scrape_imdb_reviews.py:78 | concatenating two lists of frames is concatenating their concatenations |
| Harvest.FlattenLength | src/scrape_imdb_reviews.py:78 | the concatenation has as many rows as all frames together |
| Harvest.FlattenAt | src/scrape_reviews.py:76 | row k of frame i sits after all rows of the earlier frames |
| Harvest.Collect | src/scrape_reviews.py:59-67 | a loop that stops at the first exception: all results in order, or the first exception after only successes |
| Harvest.EpisodeFramesInOrder | src/scrape_reviews.py:59-67 | the episode loop's frames are one per link in link order, or the exception of the first link that raises |
| Harvest.EpisodeFramesSnoc | src/scrape_reviews.py:66 | one more successful link appends exactly its frame |
| Harvest.EpisodeFramesFail | src/scrape_reviews.py:59-67 | a link that raises after successful links ends the loop with its exception |
| Harvest.EpisodeFrameRows | src/scrape_reviews.py:60-66 | an episode frame is its reviews page's rows, unchanged and in order, each tagged with the number after the link's last "ep" |
| Harvest.ListedEpisodeFrame | src/scrape_imdb_reviews.py:69-75 | for a discovered link only its reviews page can make the frame fail, and its rows carry an episode number in 0..9 |
| Harvest.SeasonTagged | src/scrape_imdb_reviews.py:74 | every row of the episode loop carries the loop's season |
| Harvest.FrameOf | src/scrape_imdb_reviews.py:78 | every row of the concatenation comes from some frame at the matching offset |
| Harvest.EpisodeLoop | development_files/scrape_imdb_series.py:242-251 | the loop appending to `re_dfs` yields the earlier frames followed by exactly the episode loop's frames, or the first exception |
| Harvest.ScrapeEpisode | src/scrape_reviews.py:60-65 | one pass of the loop body gives exactly the link's tagged frame |
| Harvest.HarvestEpisodesThenShow | src/scrape_reviews.py:41-77 | the driver's result is exactly the episodes-then-show harvest |
| Harvest.EpisodesThenShowIs | development_files/scrape_imdb_series.py:236-260 | the harvest is the episode frames followed by the show frame tagged 0, or the first exception |
| Harvest.ShowRowsLast | src/scrape_reviews.py:59-76 | the show's rows come last, unchanged and tagged 0; before them come the episode frames in link order; the row count is the sum; no row has a season |
| Harvest.SeasonFramesInOrder | src/scrape_imdb_reviews.py:60-76 | the season loop holds one block per season, in the order given |
| Harvest.SeasonFramesSnoc | src/scrape_imdb_reviews.py:60-76 | one more successful season appends exactly its block |
| Harvest.SeasonFramesFail | src/scrape_imdb_reviews.py:60-76 | a season that raises after successful seasons ends the loop with its exception |
| Harvest.HarvestShowThenSeasons | src/scrape_imdb_reviews.py:33-79 | the driver's nested loops yield exactly the show-then-seasons harvest |
| Harvest.SeasonLoop | src/scrape_imdb_reviews.py:60-76 | the nested loops succeed exactly when every season does, and then add the seasons' blocks in order after the earlier frames |
| Harvest.SeasonFrameIs | src/scrape_imdb_reviews.py:65-75 | a season's block is the concatenation of its episode frames, or their first exception |
| Harvest.ShowThenSeasonsIs | src/scrape_imdb_reviews.py:47-78 | the harvest is the show frame tagged (0, 0), then the season blocks; `max` of an empty season list raises ValueError |
| Harvest.ShowRowsFirst | src/scrape_imdb_reviews.py:47-78 | the show's rows come first, unchanged and tagged (0, 0), then the seasons' blocks; the row count is the sum; no season raises ValueError |
| Harvest.SeasonBlockTagged | src/scrape_imdb_reviews.py:74 | every row of a season's block carries that season |
| Engineering.RatingToFiveScale | src/dependencies/engineering.py:67-85 | always 1..5; `(x+1)/2` on 1..8; 5 otherwise, so `(x+1)/2` over 1..10 |
| Engineering.RatingToCat | src/dependencies/engineering.py:46-64 | the category is the star count's entry of [abysmal, bad, average, good, amazing], and "amazing" exactly outside 1..8 |
| Engineering.Sentiment | src/dependencies/engineering.py:166 | 0 or 1, and 0 exactly for ratings up to 5 |
| Engineering.FiveScaleMonotone | src/dependencies/engineering.py:76-85 | on 1..10 a higher rating never gets fewer stars |
| Engineering.ZeroIsAmazing | src/dependencies/engineering.py:63-64 | rating 0 gets five stars and "amazing" |
| Engineering.DropMissing | src/dependencies/engineering.py:98 | `dropna` on the rating column keeps exactly the ratings that are present, and never adds a row (order and multiplicity: `Engineering.DropMissingInOrder`, `Engineering.DropMissingOne`) |
| Engineering.DropMissingInOrder | src/dependencies/engineering.py:98 | dropping is row by row and keeps order: dropping from `a + b` is dropping from `a`, then from `b` |
| Engineering.DropMissingOne | src/dependencies/engineering.py:98 | one row with a rating keeps exactly that rating; one without is removed (with `DropMissingInOrder` this fixes order and multiplicity) |
| Engineering.Enrich | src/dependencies/engineering.py:160-166 | for an integer rating the three derived columns agree: the category is the star count's entry, stars are `(x+1)/2` on 1..10, sentiment is 0 exactly up to 5 |
| Engineering.SentimentAgreesWithStars | src/dependencies/engineering.py:160-166 | on 1..10 a negative review has at most three stars and a positive one at least three |
| Plotting.TitleRoot | src/dependencies/plotting.py:67-75 | the title prefix (definition; stated by `Plotting.RootEmpty`, `Plotting.RootParenthesised`, `Plotting.EpisodeZeroIsMissing` and the two distinctness lemmas) |
| Plotting.Title | src/dependencies/plotting.py:77 | the root, a space, then the body (definition; stated by `Plotting.LeadingSpace`) |
| Plotting.LabelOr | src/dependencies/plotting.py:63-64 | a falsy label falls back to the column name |
| Plotting.LabelPair | src/dependencies/plotting.py:135-137 | unless both labels are truthy, both fall back to the column names |
| Plotting.XLabelChart | src/dependencies/plotting.py:63-77 | only the x label falls back to the column, the y label passes through, and the title is the root, a space, the heading and the x label shown |
| Plotting.HistogramText | src/dependencies/plotting.py:63-77 | x label with fallback; title is the root, a space and "Histogram of All" with the x label |
| Plotting.BoxPlotText | src/dependencies/plotting.py:135-150 | labels fall back as a pair; title is the root, a space and "Box Plot of y over x" |
| Plotting.PercentHistogramText | src/dependencies/plotting.py:207-222 | x label with fallback; title is the root, a space and "Distribution of" with the x label |
| Plotting.ViolinText | src/dependencies/plotting.py:285-301 | labels fall back as a pair; title is the root, a space and "Distribution of" with the x label |
| Plotting.RootEmpty | src/dependencies/plotting.py:67-75 | the title root is empty exactly when the show name is falsy |
| Plotting.RootParenthesised | src/dependencies/plotting.py:67-75 | with a show name the root is in parentheses and starts with the name; without a season it is "(show)" |
| Plotting.LeadingSpace | src/dependencies/plotting.py:77 | the title starts with a space exactly when there is no show name |
| Plotting.EpisodeZeroIsMissing | src/dependencies/plotting.py:68-71 | episode 0 gives the same root as no episode |
| Plotting.EpisodeRootsDistinct | src/dependencies/plotting.py:70-71 | with a show and a season, different non-zero episodes give different roots |
| Plotting.SeasonRootsDistinct | src/dependencies/plotting.py:68-69 | with a show and no episode, different non-zero seasons give different roots |
| Plotting.LoneLabelDropped | src/dependencies/plotting.py:135-137 | a lone x label is dropped by the box and violin plots and kept by the histograms |
| PyText.Join | src/dependencies/scraping_utils.py:103 | `sep.join(parts)` (definition; stated by `PyText.JoinSplit`) |
| PyText.Strip | src/dependencies/scraping_utils.py:184 | `strip()` as `rstrip` of `lstrip` (definition; stated by `PyText.StripLeft`, `PyText.StripRight` and `PyText.StripUnchanged`) |
| PyText.ParseNat | src/dependencies/scraping_utils.py:170 | `float()` on a string of decimal digits with surrounding whitespace, None for everything else (definition; stated by `PyText.ParseNatToString`) |
| PyText.IntToString | src/dependencies/plotting.py:69-71 | `f"{i}"` (definition; stated by `PyText.IntToStringInjective`) |
| PyText.LexLess | src/dependencies/scraping_utils.py:96 | Python's `<` on strings, by code point (definition; stated by the `PyText.Lex…` lemmas) |
| PyText.Remove | src/dependencies/scraping_utils.py:170 | `replace(c, "")` keeps exactly the characters other than `c` and deletes each occurrence |
| PyText.Split | src/dependencies/scraping_utils.py:176 | `split(sep)` always yields at least one piece |
| PyText.JoinSplit | src/dependencies/scraping_utils.py:103 | joining the pieces of a split with the same separator gives the string back |
| PyText.SplitCount | src/dependencies/scraping_utils.py:202 | a one-character split has one more piece than there are separators; empty pieces are kept |
| PyText.SplitFirst | src/dependencies/scraping_utils.py:176-177 | the first piece is the longest separator-free prefix |
| PyText.SplitEpLast | src/scrape_reviews.py:65 | `split("ep")[-1]` of a string ending in "ep" plus an 'e'-free tail is that tail |
| PyText.StripLeft | src/dependencies/scraping_utils.py:184 | the suffix left after dropping the leading whitespace, and no more |
| PyText.StripRight | src/dependencies/scraping_utils.py:184 | the prefix left after dropping the trailing whitespace, and no more |
| PyText.StripUnchanged | src/dependencies/scraping_utils.py:184 | `strip()` leaves a string without surrounding whitespace unchanged |
| PyText.ParseNatToString | src/dependencies/scraping_utils.py:170 | `float(str(n))` is n |
| PyText.IntToStringInjective | src/dependencies/plotting.py:69-71 | distinct integers print differently |
| PyText.LexTransitive | src/dependencies/scraping_utils.py:96 | Python string order is transitive |
| PyText.LexTotal | src/dependencies/scraping_utils.py:96 | of two distinct strings one is smaller |
| PyText.LexAsymmetric | src/dependencies/scraping_utils.py:96 | string order is asymmetric |
| PyText.LexCommonPrefix | src/dependencies/scraping_utils.py:97 | a common prefix does not change the order of two strings |

## Left out

- Selenium, ChromeDriver, requests and BeautifulSoup are left out, including the
  "load more" click loop of `scroll_reviews_and_cook_soup`. They are browser and
  network I/O. `render` and `listing` stand for them.
- `soup.find` is left out. The model takes a block as the list of its elements.
  `Fetch` takes the first element with the tag and a class of that name,
  in document order.
- `ImdbReviewScraper.get_season_page` and `get_number_of_seasons` are
  parameters (`seasonPage`, `seasons`). They are used but not defined in the repository.
- `sleep`, `tqdm` and `print` are left out. They are timing and console side
  effects. The one `print` that matters, `max(seasons)`, is kept for its
  ValueError on an empty list.
- pandas `DataFrame`, `concat` and `to_csv` are left out. A frame is a list of
  rows, and the CSV write is file I/O.
- ParseNat: `float()` and `int()` are modelled on decimal naturals only. A sign,
  a decimal point, an exponent, underscores and non-ASCII digits are rejected
  like any other malformed text. Ratings and counts on IMDB pages are plain
  naturals.
- Engineering.DropMissing: the model's ratings are naturals, so the
  `astype(int)` that follows `dropna` leaves them unchanged. Truncating a
  fractional float rating (7.5 becomes 7) is not modelled, because `ParseNat`
  never produces one.
- Links.EpisodeHrefs: the marker digit is ASCII `[0-9]` only. Python's `\d` on a
  `str` pattern accepts every Unicode decimal digit (and `int()` converts it),
  so a href ending in, say, "=ttep_ep" and ARABIC-INDIC DIGIT THREE is kept by
  the code and dropped by the model.
- Extraction.Fetch: matches a class by name in the element's class list. CSS
  selector semantics beyond that are not modelled.
- `clean_text`, the text, date and length columns of `clean_scraped_data`,
  `datetime.strptime` and the nltk downloads are left out. They are NLP and
  library calls.
- The ratio and rounding columns are left out. They are floating point.
- src/dependencies/language.py is left out. It is NLP code built on names it
  never defines.
- The `timing` decorators are left out. They measure wall-clock time.
- The development script's `main` carries `@timing`, which calls a `time()`
  that is never imported. The model follows the body of `main`.
- `argparse` setup is left out.
- The seaborn/matplotlib drawing calls and the percentage bar labels are left
  out. Only the text the helpers choose is modelled.
- The `chromedriver` field of `Scraper` is left out. It holds the browser
  service.
- test.py's module-level driver lines are left out. They only call the modelled
  functions on a fixed URL.
- Plotting: `show`, `season` and `episode` are modelled as an optional string
  and optional integers. Python truthiness of other types is not modelled.
