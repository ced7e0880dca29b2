/**
 * The rating summary kept on each book: the number of its approved reviews
 * and their mean rating rounded half up to two decimals. It is a function of
 * the approved reviews alone.
 */
module Ratings {
  import opened Schema
  import Query

  /** The reviews that count for `bookId`: its approved ones. */
  function ApprovedOf(bookId: Id): Review -> bool {
    (r: Review) => r.bookId == bookId && r.isApproved
  }

  /** The `rating` column of some reviews, in order. */
  function RatingsOf(reviews: seq<Review>): (xs: seq<int>)
    ensures |xs| == |reviews|
    ensures forall i :: 0 <= i < |reviews| ==> xs[i] == reviews[i].rating
  {
    seq(|reviews|, i requires 0 <= i < |reviews| => reviews[i].rating)
  }

  /** The ratings of the approved reviews of `bookId`, in table order. */
  function ApprovedRatings(reviews: seq<Review>, bookId: Id): (rs: seq<int>)
    ensures |rs| <= |reviews|
  {
    if reviews == [] then []
    else
      var init := ApprovedRatings(reviews[..|reviews| - 1], bookId);
      var r := reviews[|reviews| - 1];
      if r.bookId == bookId && r.isApproved then init + [r.rating] else init
  }

  /**
   * The ratings summarised are exactly those of the reviews the SQL filter
   * `book_ID = ? AND isApproved = true` selects, one per review, in order.
   */
  lemma {:induction false} ApprovedRatingsAreSelected(reviews: seq<Review>, bookId: Id)
    ensures ApprovedRatings(reviews, bookId) == RatingsOf(Query.Where(reviews, ApprovedOf(bookId)))
    ensures |ApprovedRatings(reviews, bookId)| == |Query.Where(reviews, ApprovedOf(bookId))|
  {
    if reviews != [] {
      var prefix := reviews[..|reviews| - 1];
      var r := reviews[|reviews| - 1];
      ApprovedRatingsAreSelected(prefix, bookId);
      var w := Query.Where(prefix, ApprovedOf(bookId));
      assert RatingsOf(w + [r]) == RatingsOf(w) + [r.rating];
    }
  }

  function Sum(xs: seq<int>): int {
    if xs == [] then 0 else Sum(xs[..|xs| - 1]) + xs[|xs| - 1]
  }

  /** The arithmetic mean, as SQL `AVG` computes it. */
  function Mean(xs: seq<int>): real
    requires xs != []
  {
    Sum(xs) as real / |xs| as real
  }

  /** `Math.round(x * 100) / 100` over exact reals: `x` rounded half up to two decimals. */
  function Round2(x: real): (r: real)
    ensures x - 0.005 < r <= x + 0.005
    ensures (r * 100.0).Floor as real == r * 100.0
  {
    var k := (x * 100.0 + 0.5).Floor;
    assert (k as real / 100.0) * 100.0 == k as real;
    k as real / 100.0
  }

  /** The two fields `updateBookRating` writes onto a book. */
  datatype RatingSummary = RatingSummary(averageRating: real, totalReviews: nat)

  /**
   * The count and rounded mean of the approved ratings of `bookId`. With no
   * approved review SQL `AVG` is null, which `Math.round` turns into 0.
   */
  function Summary(reviews: seq<Review>, bookId: Id): (s: RatingSummary)
    ensures s.totalReviews == |ApprovedRatings(reviews, bookId)|
    ensures s.totalReviews == 0 ==> s.averageRating == 0.0
    ensures s.totalReviews > 0 ==>
      var m := Mean(ApprovedRatings(reviews, bookId));
      && m - 0.005 < s.averageRating <= m + 0.005
      && (s.averageRating * 100.0).Floor as real == s.averageRating * 100.0
  {
    var rs := ApprovedRatings(reviews, bookId);
    if rs == [] then RatingSummary(0.0, 0)
    else RatingSummary(Round2(Mean(rs)), |rs|)
  }

  /** The stored summary of `bookId` (when the book exists) is the one its approved reviews give. */
  predicate RatingUpToDate(books: map<Id, Book>, reviews: seq<Review>, bookId: Id) {
    bookId in books ==>
      var s := Summary(reviews, bookId);
      books[bookId].averageRating == s.averageRating && books[bookId].totalReviews == s.totalReviews
  }

  /** A review that is not approved, or is about another book, does not change the summary. */
  lemma IgnoredReview(reviews: seq<Review>, r: Review, bookId: Id)
    requires !r.isApproved || r.bookId != bookId
    ensures Summary(reviews + [r], bookId) == Summary(reviews, bookId)
  {
    assert (reviews + [r])[..|reviews|] == reviews;
  }

  lemma {:induction false} SumAppend(xs: seq<int>, ys: seq<int>)
    ensures Sum(xs + ys) == Sum(xs) + Sum(ys)
    decreases |ys|
  {
    if ys == [] {
      assert xs + ys == xs;
    } else {
      assert (xs + ys)[..|xs + ys| - 1] == xs + ys[..|ys| - 1];
      SumAppend(xs, ys[..|ys| - 1]);
    }
  }

  /** The sum of ratings depends on which ratings there are, not on their order. */
  lemma {:induction false} SumOfPermutation(xs: seq<int>, ys: seq<int>)
    requires multiset(xs) == multiset(ys)
    ensures Sum(xs) == Sum(ys)
    decreases |xs|
  {
    if xs != [] {
      var x := xs[|xs| - 1];
      assert xs == xs[..|xs| - 1] + [x];
      assert x in multiset(ys);
      var k :| 0 <= k < |ys| && ys[k] == x;
      var rest := ys[..k] + ys[k + 1..];
      assert ys == ys[..k] + [x] + ys[k + 1..];
      assert multiset(rest) == multiset(ys) - multiset{x};
      assert multiset(xs[..|xs| - 1]) == multiset(rest);
      SumOfPermutation(xs[..|xs| - 1], rest);
      SumAppend(ys[..k] + [x], ys[k + 1..]);
      SumAppend(ys[..k], [x]);
      SumAppend(ys[..k], ys[k + 1..]);
      assert [x][..0] == [];
    } else {
      assert |ys| == |multiset(ys)| == 0;
    }
  }

  /** Two review tables with the same approved ratings for a book give it the same summary. */
  lemma SummaryDependsOnlyOnApproved(r1: seq<Review>, r2: seq<Review>, bookId: Id)
    requires multiset(ApprovedRatings(r1, bookId)) == multiset(ApprovedRatings(r2, bookId))
    ensures Summary(r1, bookId) == Summary(r2, bookId)
  {
    var a, b := ApprovedRatings(r1, bookId), ApprovedRatings(r2, bookId);
    assert |a| == |multiset(a)| == |multiset(b)| == |b|;
    SumOfPermutation(a, b);
  }

  lemma {:induction false} SumBounds(xs: seq<int>, lo: int, hi: int)
    requires forall i :: 0 <= i < |xs| ==> lo <= xs[i] <= hi
    ensures lo * |xs| <= Sum(xs) <= hi * |xs|
  {
    if xs != [] {
      SumBounds(xs[..|xs| - 1], lo, hi);
    }
  }

  /** Every approved rating lies within bounds every rating of the table lies within. */
  lemma {:induction false} ApprovedRatingsBounded(reviews: seq<Review>, bookId: Id, lo: int, hi: int)
    requires forall i :: 0 <= i < |reviews| ==> lo <= reviews[i].rating <= hi
    ensures forall i :: 0 <= i < |ApprovedRatings(reviews, bookId)| ==> lo <= ApprovedRatings(reviews, bookId)[i] <= hi
  {
    if reviews != [] {
      ApprovedRatingsBounded(reviews[..|reviews| - 1], bookId, lo, hi);
    }
  }

  lemma MeanBounds(sum: real, n: real)
    requires n > 0.0 && n <= sum <= 5.0 * n
    ensures 1.0 <= sum / n <= 5.0
  {
    assert (sum / n) * n == sum;
  }

  lemma Round2Bounds(x: real)
    requires 1.0 <= x <= 5.0
    ensures 1.0 <= Round2(x) <= 5.0
  {
    var r := Round2(x);
    var m := (r * 100.0).Floor;
    assert 99.5 < m as real <= 500.5;
  }

  /** With every rating between 1 and 5, a reviewed book's average is between 1 and 5. */
  lemma AverageWithinScale(reviews: seq<Review>, bookId: Id)
    requires forall i :: 0 <= i < |reviews| ==> 1 <= reviews[i].rating <= 5
    ensures var s := Summary(reviews, bookId);
      s.totalReviews > 0 ==> 1.0 <= s.averageRating <= 5.0
  {
    var rs := ApprovedRatings(reviews, bookId);
    ApprovedRatingsBounded(reviews, bookId, 1, 5);
    if rs != [] {
      SumBounds(rs, 1, 5);
      MeanBounds(Sum(rs) as real, |rs| as real);
      Round2Bounds(Mean(rs));
    }
  }
}
