/** The text the four plotting helpers put on a chart: the axis labels they
    fall back to and the title with its "(show-Sx:Ey)" prefix. The drawing
    itself is not modelled. */
module Plotting {
  import opened Common
  import opened PyText

  /** Python truthiness of an optional string: present and not empty. */
  predicate TruthyText(s: Option<string>) {
    s.Some? && s.value != []
  }

  /** Python truthiness of an optional integer: present and not zero. */
  predicate TruthyInt(n: Option<int>) {
    n.Some? && n.value != 0
  }

  /** An axis label left out (None or empty) falls back to the column name. */
  function LabelOr(given: Option<string>, column: string): (shown: string)
    ensures TruthyText(given) ==> shown == given.value
    ensures !TruthyText(given) ==> shown == column
  {
    if TruthyText(given) then given.value else column
  }

  /** The box and violin plots keep the given labels only when both are
      given; otherwise both are reset to the column names. */
  function LabelPair(xlabel: Option<string>, ylabel: Option<string>, x: string, y: string): (shown: (string, string))
    ensures TruthyText(xlabel) && TruthyText(ylabel) ==> shown == (xlabel.value, ylabel.value)
    ensures !(TruthyText(xlabel) && TruthyText(ylabel)) ==> shown == (x, y)
  {
    if TruthyText(xlabel) && TruthyText(ylabel) then (xlabel.value, ylabel.value) else (x, y)
  }

  /** The "(show-Sx)" / "(show-Sx:Ey)" / "(show)" prefix shared by every
      plot title; empty when there is no show name. */
  function TitleRoot(show: Option<string>, season: Option<int>, episode: Option<int>): (root: string)
  {
    if TruthyText(show) && TruthyInt(season) then
      if episode.None? || episode.value == 0 then
        "(" + show.value + "-S" + IntToString(season.value) + ")"
      else
        "(" + show.value + "-S" + IntToString(season.value) + ":E" + IntToString(episode.value) + ")"
    else if TruthyText(show) then "(" + show.value + ")"
    else ""
  }

  /** The title a chart gets: the root, one space, then the body. */
  function Title(show: Option<string>, season: Option<int>, episode: Option<int>, body: string): string {
    TitleRoot(show, season, episode) + " " + body
  }

  /** What a chart shows as text. */
  datatype ChartText = ChartText(title: string, xlabel: string, ylabel: Option<string>)

  /** A chart whose x label alone falls back to the column and whose y label
      is passed through: the title is the root, a space, the heading and the
      x label shown. */
  function XLabelChart(x: string, xlabel: Option<string>, ylabel: Option<string>,
                       season: Option<int>, episode: Option<int>, show: Option<string>, heading: string): (t: ChartText)
    ensures t.xlabel == LabelOr(xlabel, x) && t.ylabel == ylabel
    ensures t.title == Title(show, season, episode, heading + t.xlabel)
  {
    var xl := LabelOr(xlabel, x);
    ChartText(Title(show, season, episode, heading + xl), xl, ylabel)
  }

  /** `build_histogram_of_rating_scores`. */
  function HistogramText(x: string, xlabel: Option<string>, ylabel: Option<string>,
                         season: Option<int>, episode: Option<int>, show: Option<string>): (t: ChartText)
    ensures t.xlabel == LabelOr(xlabel, x) && t.ylabel == ylabel
    ensures t.title == Title(show, season, episode, "Histogram of All " + t.xlabel)
  {
    XLabelChart(x, xlabel, ylabel, season, episode, show, "Histogram of All ")
  }

  /** `build_categorical_bot_plot`. */
  function BoxPlotText(x: string, y: string, xlabel: Option<string>, ylabel: Option<string>,
                       season: Option<int>, episode: Option<int>, show: Option<string>): (t: ChartText)
    ensures (t.xlabel, t.ylabel) == (LabelPair(xlabel, ylabel, x, y).0, Some(LabelPair(xlabel, ylabel, x, y).1))
    ensures t.title == Title(show, season, episode, "Box Plot of " + t.ylabel.value + " over " + t.xlabel)
  {
    var (xl, yl) := LabelPair(xlabel, ylabel, x, y);
    ChartText(Title(show, season, episode, "Box Plot of " + yl + " over " + xl), xl, Some(yl))
  }

  /** `build_percent_histogram`: only the x label falls back. */
  function PercentHistogramText(x: string, xlabel: Option<string>, ylabel: Option<string>,
                                season: Option<int>, episode: Option<int>, show: Option<string>): (t: ChartText)
    ensures t.xlabel == LabelOr(xlabel, x) && t.ylabel == ylabel
    ensures t.title == Title(show, season, episode, "Distribution of " + t.xlabel)
  {
    XLabelChart(x, xlabel, ylabel, season, episode, show, "Distribution of ")
  }

  /** `build_categorical_violin_plot`: labels fall back as a pair. */
  function ViolinText(x: string, y: string, xlabel: Option<string>, ylabel: Option<string>,
                      season: Option<int>, episode: Option<int>, show: Option<string>): (t: ChartText)
    ensures (t.xlabel, t.ylabel) == (LabelPair(xlabel, ylabel, x, y).0, Some(LabelPair(xlabel, ylabel, x, y).1))
    ensures t.title == Title(show, season, episode, "Distribution of " + t.xlabel)
  {
    var (xl, yl) := LabelPair(xlabel, ylabel, x, y);
    ChartText(Title(show, season, episode, "Distribution of " + xl), xl, Some(yl))
  }

  /** The root is empty exactly when there is no show name. */
  lemma RootEmpty(show: Option<string>, season: Option<int>, episode: Option<int>)
    ensures TitleRoot(show, season, episode) == [] <==> !TruthyText(show)
  {
  }

  /** With a show name the root is a parenthesised text starting with that
      name, and without a season it is just the name in parentheses. */
  lemma RootParenthesised(show: string, season: Option<int>, episode: Option<int>)
    requires show != []
    ensures var r := TitleRoot(Some(show), season, episode); |r| > |show| + 1 && r[0] == '(' && r[|r| - 1] == ')'
    ensures TitleRoot(Some(show), season, episode)[1..1 + |show|] == show
    ensures !TruthyInt(season) ==> TitleRoot(Some(show), season, episode) == "(" + show + ")"
  {
    var open := "(" + show;
    var middle: string;
    if !TruthyInt(season) {
      middle := "";
      assert open + middle == open;
    } else {
      var seasonText := IntToString(season.value);
      ConcatAssoc(open, "-S", seasonText);
      if episode.None? || episode.value == 0 {
        middle := "-S" + seasonText;
      } else {
        var episodeText := IntToString(episode.value);
        middle := "-S" + seasonText + ":E" + episodeText;
        ConcatAssoc(open, "-S" + seasonText, ":E");
        ConcatAssoc(open, "-S" + seasonText + ":E", episodeText);
      }
    }
    assert TitleRoot(Some(show), season, episode) == open + middle + ")";
    Parenthesised(show, middle);
  }

  /** An opening parenthesis, a name, a middle part and a closing parenthesis. */
  lemma Parenthesised(name: string, middle: string)
    ensures var r := "(" + name + middle + ")"; |r| > |name| + 1 && r[0] == '(' && r[|r| - 1] == ')' && r[1..1 + |name|] == name
  {
    var r := "(" + name + middle + ")";
    assert r[1..1 + |name|] == name;
  }

  /** Without a show name the title starts with the space that separated
      the (empty) root from the body; with one it starts with '('. */
  lemma LeadingSpace(show: Option<string>, season: Option<int>, episode: Option<int>, body: string)
    ensures Title(show, season, episode, body)[0] == ' ' <==> !TruthyText(show)
  {
    RootEmpty(show, season, episode);
    if TruthyText(show) {
      RootParenthesised(show.value, season, episode);
    }
  }

  /** Episode None and episode 0 give the same root. */
  lemma EpisodeZeroIsMissing(show: Option<string>, season: Option<int>)
    ensures TitleRoot(show, season, Some(0)) == TitleRoot(show, season, None)
  {
  }

  /** With a show and a season, different non-zero episodes give different
      roots. */
  lemma EpisodeRootsDistinct(show: string, season: int, e1: int, e2: int)
    requires show != [] && season != 0 && e1 != 0 && e2 != 0
    requires TitleRoot(Some(show), Some(season), Some(e1)) == TitleRoot(Some(show), Some(season), Some(e2))
    ensures e1 == e2
  {
    var prefix := "(" + show + "-S" + IntToString(season) + ":E";
    var r1 := TitleRoot(Some(show), Some(season), Some(e1));
    var r2 := TitleRoot(Some(show), Some(season), Some(e2));
    assert r1 == prefix + IntToString(e1) + ")";
    assert r2 == prefix + IntToString(e2) + ")";
    assert r1[|prefix|..|r1| - 1] == IntToString(e1);
    assert r2[|prefix|..|r2| - 1] == IntToString(e2);
    IntToStringInjective(e1, e2);
  }

  /** With a show and no episode, different non-zero seasons give
      different roots. */
  lemma SeasonRootsDistinct(show: string, s1: int, s2: int)
    requires show != [] && s1 != 0 && s2 != 0
    requires TitleRoot(Some(show), Some(s1), None) == TitleRoot(Some(show), Some(s2), None)
    ensures s1 == s2
  {
    var prefix := "(" + show + "-S";
    var r1 := TitleRoot(Some(show), Some(s1), None);
    var r2 := TitleRoot(Some(show), Some(s2), None);
    assert r1 == prefix + IntToString(s1) + ")";
    assert r2 == prefix + IntToString(s2) + ")";
    assert r1[|prefix|..|r1| - 1] == IntToString(s1);
    assert r2[|prefix|..|r2| - 1] == IntToString(s2);
    IntToStringInjective(s1, s2);
  }

  /** A lone custom label is dropped by the box and violin plots, while the
      histograms keep it. */
  lemma LoneLabelDropped(x: string, y: string, xlabel: string, season: Option<int>, episode: Option<int>, show: Option<string>)
    requires xlabel != []
    ensures BoxPlotText(x, y, Some(xlabel), None, season, episode, show).xlabel == x
    ensures ViolinText(x, y, Some(xlabel), None, season, episode, show).xlabel == x
    ensures HistogramText(x, Some(xlabel), None, season, episode, show).xlabel == xlabel
    ensures PercentHistogramText(x, Some(xlabel), None, season, episode, show).xlabel == xlabel
  {
  }
}
