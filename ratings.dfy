/**
 * The rating table of backend/src/routes/stores.js: rows keyed by (userId, storeId),
 * the upsert that `POST /:id/rate` performs, and the average the routes report.
 * An average is kept in hundredths (`Number(avg.toFixed(2))` times 100).
 */
module Ratings {
  import opened Wrappers
  import Sorting

  datatype Rating = Rating(userId: int, storeId: int, score: int, createdAt: int)

  predicate HasKey(r: Rating, userId: int, storeId: int)
  {
    r.userId == userId && r.storeId == storeId
  }

  /** At most one row per (user, store): the table's composite unique key. */
  ghost predicate UniqueKeys(rs: seq<Rating>)
  {
    forall i, j :: 0 <= i < j < |rs| ==> !HasKey(rs[j], rs[i].userId, rs[i].storeId)
  }

  /** Every stored score is one of 1..5. */
  ghost predicate ValidScores(rs: seq<Rating>)
  {
    forall i :: 0 <= i < |rs| ==> 1 <= rs[i].score <= 5
  }

  /** `findUnique` on the composite key: the position of the row, if any. */
  function FindRating(rs: seq<Rating>, userId: int, storeId: int): (i: Option<nat>)
    ensures i.Some? ==> i.value < |rs| && HasKey(rs[i.value], userId, storeId)
    ensures i.Some? ==> forall k :: 0 <= k < i.value ==> !HasKey(rs[k], userId, storeId)
    ensures i.None? ==> forall k :: 0 <= k < |rs| ==> !HasKey(rs[k], userId, storeId)
    decreases |rs|
  {
    if rs == [] then None
    else if HasKey(rs[0], userId, storeId) then Some(0)
    else match FindRating(rs[1..], userId, storeId)
      case None => None
      case Some(i) => Some(i + 1)
  }

  /** The score a user gave a store, if any. */
  function ScoreOf(rs: seq<Rating>, userId: int, storeId: int): Option<int>
  {
    match FindRating(rs, userId, storeId)
    case None => None
    case Some(i) => Some(rs[i].score)
  }

  /** In a table with unique keys, the score found is the one on the user's row for that store. */
  lemma ScoreOfRow(rs: seq<Rating>, i: int)
    requires UniqueKeys(rs) && 0 <= i < |rs|
    ensures ScoreOf(rs, rs[i].userId, rs[i].storeId) == Some(rs[i].score)
  {
    var found := FindRating(rs, rs[i].userId, rs[i].storeId);
    assert found.Some?;
  }

  /** `prisma.rating.upsert`: replace the score on the existing row, or append a new row stamped `now`. */
  function Upsert(rs: seq<Rating>, userId: int, storeId: int, score: int, now: int): seq<Rating>
  {
    match FindRating(rs, userId, storeId)
    case Some(i) => rs[i := rs[i].(score := score)]
    case None => rs + [Rating(userId, storeId, score, now)]
  }

  /** The upsert keeps at most one row per (user, store). */
  lemma UpsertKeepsUnique(rs: seq<Rating>, userId: int, storeId: int, score: int, now: int)
    requires UniqueKeys(rs)
    ensures UniqueKeys(Upsert(rs, userId, storeId, score, now))
  {
    var r := Upsert(rs, userId, storeId, score, now);
    match FindRating(rs, userId, storeId)
    case Some(i) =>
      assert forall k :: 0 <= k < |rs| ==> r[k].userId == rs[k].userId && r[k].storeId == rs[k].storeId;
    case None =>
      assert forall k :: 0 <= k < |rs| ==> r[k] == rs[k];
  }

  /** The upsert keeps every score within 1..5 when the new score is. */
  lemma UpsertKeepsScoresValid(rs: seq<Rating>, userId: int, storeId: int, score: int, now: int)
    requires ValidScores(rs) && 1 <= score <= 5
    ensures ValidScores(Upsert(rs, userId, storeId, score, now))
  {
  }

  /**
   * What the upsert does to the table, row by row: the submitter's score for the store is the new
   * score; a first submission adds one row stamped `now`, a resubmission keeps the row count and the
   * row's creation time; every row with another key is kept, and no other row appears.
   */
  lemma UpsertEffect(rs: seq<Rating>, userId: int, storeId: int, score: int, now: int)
    requires UniqueKeys(rs)
    ensures var r := Upsert(rs, userId, storeId, score, now);
      && ScoreOf(r, userId, storeId) == Some(score)
      && (forall u, s :: !(u == userId && s == storeId) ==> ScoreOf(r, u, s) == ScoreOf(rs, u, s))
      && (forall x :: !HasKey(x, userId, storeId) ==> (x in r <==> x in rs))
      && (FindRating(rs, userId, storeId).None? ==> |r| == |rs| + 1 && Rating(userId, storeId, score, now) in r)
      && (FindRating(rs, userId, storeId).Some? ==>
            |r| == |rs| && Rating(userId, storeId, score, rs[FindRating(rs, userId, storeId).value].createdAt) in r)
  {
    var r := Upsert(rs, userId, storeId, score, now);
    UpsertKeepsUnique(rs, userId, storeId, score, now);
    match FindRating(rs, userId, storeId)
    case Some(i) =>
      assert r[i] == rs[i].(score := score);
      ScoreOfRow(r, i);
      forall u, s | !(u == userId && s == storeId)
        ensures ScoreOf(r, u, s) == ScoreOf(rs, u, s)
      {
        SameRowsSameScore(rs, r, u, s);
      }
      forall x | !HasKey(x, userId, storeId)
        ensures x in r <==> x in rs
      {
        if x in r {
          var k :| 0 <= k < |r| && r[k] == x;
          assert k != i;
        }
        if x in rs {
          var k :| 0 <= k < |rs| && rs[k] == x;
          assert k != i && r[k] == x;
        }
      }
    case None =>
      assert r[|rs|] == Rating(userId, storeId, score, now);
      ScoreOfRow(r, |rs|);
      forall u, s | !(u == userId && s == storeId)
        ensures ScoreOf(r, u, s) == ScoreOf(rs, u, s)
      {
        SameRowsSameScore(rs, r, u, s);
      }
  }

  /** Two unique-key tables that agree on the rows with key (u, s), by position, give (u, s) the same score. */
  lemma SameRowsSameScore(rs: seq<Rating>, r: seq<Rating>, u: int, s: int)
    requires UniqueKeys(rs) && UniqueKeys(r) && |rs| <= |r|
    requires forall k :: 0 <= k < |rs| ==> (HasKey(rs[k], u, s) <==> HasKey(r[k], u, s))
    requires forall k :: 0 <= k < |rs| && HasKey(rs[k], u, s) ==> r[k] == rs[k]
    requires forall k :: |rs| <= k < |r| ==> !HasKey(r[k], u, s)
    ensures ScoreOf(r, u, s) == ScoreOf(rs, u, s)
  {
    match FindRating(rs, u, s)
    case None =>
      assert FindRating(r, u, s).None?;
    case Some(j) =>
      ScoreOfRow(r, j);
      ScoreOfRow(rs, j);
  }

  // ---------------------------------------------------------------------------
  // Per-store rows and the average

  /** `findMany({ where: { storeId } })`: the store's rows in table order. */
  function RatingsOf(rs: seq<Rating>, storeId: int): (r: seq<Rating>)
    ensures forall x :: x in r <==> x in rs && x.storeId == storeId
    ensures forall x :: multiset(r)[x] == if x.storeId == storeId then multiset(rs)[x] else 0
    ensures |r| <= |rs|
  {
    if rs == [] then []
    else
      assert rs == [rs[0]] + rs[1..];
      (if rs[0].storeId == storeId then [rs[0]] else []) + RatingsOf(rs[1..], storeId)
  }

  /** A table whose rows all belong to one store is that store's rows. */
  lemma {:induction false} RatingsOfOneStore(rs: seq<Rating>, storeId: int)
    requires forall x :: x in rs ==> x.storeId == storeId
    ensures RatingsOf(rs, storeId) == rs
  {
    if rs != [] {
      RatingsOfOneStore(rs[1..], storeId);
      assert [rs[0]] + rs[1..] == rs;
    }
  }

  function SumScores(rows: seq<Rating>): int
  {
    if rows == [] then 0 else rows[0].score + SumScores(rows[1..])
  }

  lemma {:induction false} SumScoresBounds(rows: seq<Rating>)
    requires forall x :: x in rows ==> 1 <= x.score <= 5
    ensures |rows| <= SumScores(rows) <= 5 * |rows|
  {
    if rows != [] {
      SumScoresBounds(rows[1..]);
    }
  }

  /**
   * `Number(x.toFixed(2))` in hundredths, for the mean `total / count`: the nearest whole number of
   * hundredths, a tie going away from zero.
   */
  function RoundedMean(total: int, count: int): (v: int)
    requires count > 0
    ensures total >= 0 ==> 2 * count * v - count <= 200 * total < 2 * count * v + count
    ensures total < 0 ==> 2 * count * v - count < 200 * total <= 2 * count * v + count
  {
    if total >= 0 then
      var q := (200 * total + count) / (2 * count);
      DivBounds(200 * total + count, 2 * count);
      q
    else
      var q := (200 * -total + count) / (2 * count);
      DivBounds(200 * -total + count, 2 * count);
      -q
  }

  lemma DivBounds(a: int, b: int)
    requires b > 0
    ensures b * (a / b) <= a < b * (a / b) + b
  {
  }

  /**
   * The `avgRating` a route reports: `null` when the aggregate average is null (no rows) or falsy
   * (exactly 0), otherwise the average rounded to hundredths.
   */
  function AverageHundredths(rs: seq<Rating>, storeId: int): Option<int>
  {
    var rows := RatingsOf(rs, storeId);
    if |rows| == 0 then None
    else
      var total := SumScores(rows);
      if total == 0 then None else Some(RoundedMean(total, |rows|))
  }

  /** With scores in 1..5, the average is null exactly when the store has no rating. */
  lemma AverageNullIffUnrated(rs: seq<Rating>, storeId: int)
    requires ValidScores(rs)
    ensures AverageHundredths(rs, storeId).None? <==> forall x :: x in rs ==> x.storeId != storeId
  {
    var rows := RatingsOf(rs, storeId);
    SumScoresBounds(rows);
    if |rows| > 0 {
      assert rows[0] in rows;
    }
  }

  /** With scores in 1..5, a reported average lies between 1.00 and 5.00. */
  lemma AverageInRange(rs: seq<Rating>, storeId: int)
    requires ValidScores(rs)
    ensures AverageHundredths(rs, storeId).Some? ==> 100 <= AverageHundredths(rs, storeId).value <= 500
  {
    var rows := RatingsOf(rs, storeId);
    SumScoresBounds(rows);
    if |rows| > 0 {
      var n, total := |rows|, SumScores(rows);
      var v := RoundedMean(total, n);
      assert 200 * n <= 200 * total < 2 * n * v + n;
      assert 2 * n * v - n <= 200 * total <= 1000 * n;
      MeanBounds(n, v);
    }
  }

  lemma MeanBounds(n: int, v: int)
    requires n > 0
    requires 200 * n < 2 * n * v + n
    requires 2 * n * v - n <= 1000 * n
    ensures 100 <= v <= 500
  {
    assert n * (2 * v - 199) > 0;
    PositiveFactor(n, 2 * v - 199);
    assert n * (1001 - 2 * v) >= 0;
    NonNegativeFactor(n, 1001 - 2 * v);
  }

  lemma PositiveFactor(n: int, m: int)
    requires n > 0 && n * m > 0
    ensures m > 0
  {
  }

  lemma NonNegativeFactor(n: int, m: int)
    requires n > 0 && n * m >= 0
    ensures m >= 0
  {
  }

  /** Newest first, as `orderBy: { createdAt: 'desc' }`. */
  predicate NewerOrSame(a: Rating, b: Rating)
  {
    a.createdAt >= b.createdAt
  }

  /** The store's rows, newest first: the same rows, reordered. */
  function NewestFirst(rs: seq<Rating>, storeId: int): (r: seq<Rating>)
    ensures multiset(r) == multiset(RatingsOf(rs, storeId))
    ensures forall i, j :: 0 <= i < j < |r| ==> r[i].createdAt >= r[j].createdAt
  {
    var rows := ByNewest(RatingsOf(rs, storeId));
    SortedDescending(rows);
    rows
  }

  function ByNewest(rows: seq<Rating>): (r: seq<Rating>)
    ensures multiset(r) == multiset(rows)
    ensures Sorting.Sorted(r, NewerOrSame)
  {
    assert Sorting.Total(NewerOrSame);
    Sorting.SortBy(rows, NewerOrSame)
  }

  lemma {:induction false} SortedDescending(r: seq<Rating>)
    requires Sorting.Sorted(r, NewerOrSame)
    ensures forall i, j :: 0 <= i < j < |r| ==> r[i].createdAt >= r[j].createdAt
    decreases |r|
  {
    if |r| > 1 {
      SortedDescending(r[1..]);
      assert forall j :: 1 <= j < |r| ==> r[j] == r[1..][j - 1];
      assert forall j :: 1 < j < |r| ==> r[1].createdAt >= r[j].createdAt;
      assert NewerOrSame(r[0], r[1]);
    }
  }
}
