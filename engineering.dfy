/** The rating columns `clean_scraped_data` derives from `review_rating`. */
module Engineering {
  import opened Common
  import opened PyText

  /** The five category names, from worst to best. */
  const Categories: seq<string> := ["abysmal", "bad", "average", "good", "amazing"]

  /** `rating_to_5_scale`: pairs of ratings share a star; everything that is
      not 1..8 (9, 10, 0, negatives, larger values) gets five stars. */
  function RatingToFiveScale(x: int): (stars: int)
    ensures 1 <= stars <= 5
    ensures stars == if 1 <= x <= 8 then (x + 1) / 2 else 5
    ensures 1 <= x <= 10 ==> stars == (x + 1) / 2
  {
    if x == 1 || x == 2 then 1
    else if x == 3 || x == 4 then 2
    else if x == 5 || x == 6 then 3
    else if x == 7 || x == 8 then 4
    else 5
  }

  /** `rating_to_cat`: the category name of a rating. */
  function RatingToCat(x: int): (cat: string)
    ensures cat in Categories
    ensures cat == Categories[RatingToFiveScale(x) - 1]
    ensures cat == "amazing" <==> !(1 <= x <= 8)
  {
    if x == 1 || x == 2 then "abysmal"
    else if x == 3 || x == 4 then "bad"
    else if x == 5 || x == 6 then "average"
    else if x == 7 || x == 8 then "good"
    else "amazing"
  }

  /** The `review_sentiment` lambda: 0 for ratings up to 5, 1 above. */
  function Sentiment(x: int): (s: int)
    ensures s == 0 || s == 1
    ensures s == 0 <==> x <= 5
  {
    if x <= 5 then 0 else 1
  }

  /** Over the documented range 1..10 the star scale never goes down as the rating goes up. */
  lemma FiveScaleMonotone(x: int, y: int)
    requires 1 <= x <= y <= 10
    ensures RatingToFiveScale(x) <= RatingToFiveScale(y)
  {
  }

  /** A zero rating (outside the documented range) is read as the best. */
  lemma ZeroIsAmazing()
    ensures RatingToFiveScale(0) == 5 && RatingToCat(0) == "amazing"
  {
  }

  /** `df.dropna(subset=["review_rating"])` seen on the rating column: the
      ratings that are present, in row order; rows without one are removed. */
  function DropMissing(ratings: seq<Option<nat>>): (kept: seq<nat>)
    ensures |kept| <= |ratings|
    ensures forall v :: v in kept <==> Some(v) in ratings
    decreases |ratings|
  {
    if ratings == [] then []
    else
      assert ratings == [ratings[0]] + ratings[1..];
      (if ratings[0].Some? then [ratings[0].value] else []) + DropMissing(ratings[1..])
  }

  /** `dropna` works row by row and keeps row order: dropping from two runs
      of rows is dropping from each run in turn. */
  lemma {:induction false} DropMissingInOrder(a: seq<Option<nat>>, b: seq<Option<nat>>)
    ensures DropMissing(a + b) == DropMissing(a) + DropMissing(b)
    decreases |a|
  {
    if a == [] {
      assert a + b == b;
    } else {
      var ab := a + b;
      assert ab[0] == a[0] && ab[1..] == a[1..] + b;
      DropMissingInOrder(a[1..], b);
      var head := if a[0].Some? then [a[0].value] else [];
      ConcatAssoc(head, DropMissing(a[1..]), DropMissing(b));
    }
  }

  /** One row on its own: a present rating is kept, a missing one removed. */
  lemma DropMissingOne(row: Option<nat>)
    ensures row.Some? ==> DropMissing([row]) == [row.value]
    ensures row.None? ==> DropMissing([row]) == []
  {
    assert [row][1..] == [];
  }

  /** The three derived columns of one row: category, stars and sentiment.
      Missing ratings were dropped and `astype(int)` made the rest integers
      before these columns are computed. */
  function Enrich(x: int): (cols: (string, int, int))
    ensures 1 <= cols.1 <= 5 && cols.0 == Categories[cols.1 - 1]
    ensures 1 <= x <= 10 ==> cols.1 == (x + 1) / 2
    ensures cols.2 == 0 || cols.2 == 1
    ensures cols.2 == 0 <==> x <= 5
  {
    (RatingToCat(x), RatingToFiveScale(x), Sentiment(x))
  }

  /** Within 1..10 a negative review (sentiment 0) has at most three stars
      and a positive one at least three. */
  lemma SentimentAgreesWithStars(x: int)
    requires 1 <= x <= 10
    ensures Sentiment(x) == 0 ==> RatingToFiveScale(x) <= 3
    ensures Sentiment(x) == 1 ==> RatingToFiveScale(x) >= 3
  {
  }
}
