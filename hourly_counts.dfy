// `compute_hourly_counts_per_id` of src/preprocess.py: a zero-filled
// participants-by-24 array whose row i is filled with the number of
// responses of the i-th unique participant in each hour of the day.

module HourlyCounts {
  import opened Participants

  /** The number of rows of participant `id` answered in hour `h`. */
  function HourCount(rows: seq<Row>, id: int, h: int): (n: nat)
    ensures n <= CountId(rows, id)
    ensures !(0 <= h < 24) ==> n == 0
  {
    if rows == [] then 0
    else (if rows[0].id == id && rows[0].hour == h then 1 else 0) + HourCount(rows[1..], id, h)
  }

  /** `df.loc[df["ID"] == id_, "Time"].groupby(df["Time"].dt.hour).count()`:
      a map from each hour in which the participant answered to the number
      of answers; hours without answers are absent. */
  function HourHistogram(rows: seq<Row>, id: int): (counts: map<int, nat>)
    ensures forall h :: h in counts <==> 0 <= h < 24 && HourCount(rows, id, h) > 0
    ensures forall h :: h in counts <==> exists q :: 0 <= q < |rows| && rows[q].id == id && rows[q].hour == h
    ensures forall h :: h in counts ==> counts[h] == HourCount(rows, id, h)
  {
    HourCountPositiveIff(rows, id);
    map h | 0 <= h < 24 && HourCount(rows, id, h) > 0 :: HourCount(rows, id, h)
  }

  /** An answer of the participant in an hour makes that hour's count positive. */
  lemma {:induction false} HourCountOfPresentHour(rows: seq<Row>, id: int, q: nat)
    requires q < |rows| && rows[q].id == id
    ensures HourCount(rows, id, rows[q].hour) > 0
    decreases |rows|
  {
    if q > 0 {
      assert rows[1..][q - 1] == rows[q];
      HourCountOfPresentHour(rows[1..], id, q - 1);
    }
  }

  /** A positive count in an hour is witnessed by an answer of the
      participant in that hour. */
  lemma {:induction false} HourCountWitness(rows: seq<Row>, id: int, h: int)
    requires HourCount(rows, id, h) > 0
    ensures exists q :: 0 <= q < |rows| && rows[q].id == id && rows[q].hour == h
    decreases |rows|
  {
    if rows[0].id == id && rows[0].hour == h {
      assert rows[0].id == id && rows[0].hour == h;
    } else {
      HourCountWitness(rows[1..], id, h);
      var q :| 0 <= q < |rows[1..]| && rows[1..][q].id == id && rows[1..][q].hour == h;
      assert rows[q + 1] == rows[1..][q];
    }
  }

  /** The hours with a positive count are exactly the hours in which the
      participant answered. */
  lemma HourCountPositiveIff(rows: seq<Row>, id: int)
    ensures forall h :: 0 <= h < 24 && HourCount(rows, id, h) > 0 <==>
      exists q :: 0 <= q < |rows| && rows[q].id == id && rows[q].hour == h
  {
    forall h | 0 <= h < 24 && HourCount(rows, id, h) > 0
      ensures exists q :: 0 <= q < |rows| && rows[q].id == id && rows[q].hour == h
    {
      HourCountWitness(rows, id, h);
    }
    forall h | exists q :: 0 <= q < |rows| && rows[q].id == id && rows[q].hour == h
      ensures 0 <= h < 24 && HourCount(rows, id, h) > 0
    {
      var q :| 0 <= q < |rows| && rows[q].id == id && rows[q].hour == h;
      HourCountOfPresentHour(rows, id, q);
    }
  }

  /** The answers of a participant in the hours before `upTo`. */
  function HoursBelow(rows: seq<Row>, id: int, upTo: nat): nat
  {
    if upTo == 0 then 0 else HoursBelow(rows, id, upTo - 1) + HourCount(rows, id, upTo - 1)
  }

  /** The answers of a participant whose hour lies below `upTo`, counted
      row by row. */
  function AnswersBelow(rows: seq<Row>, id: int, upTo: nat): nat
  {
    if rows == [] then 0
    else (if rows[0].id == id && rows[0].hour < upTo then 1 else 0) + AnswersBelow(rows[1..], id, upTo)
  }

  lemma {:induction false} HoursBelowByRows(rows: seq<Row>, id: int, upTo: nat)
    ensures HoursBelow(rows, id, upTo) == AnswersBelow(rows, id, upTo)
    decreases |rows|, upTo
  {
    if rows == [] {
      HoursBelowEmpty(id, upTo);
    } else {
      HoursBelowStep(rows, id, upTo);
      HoursBelowByRows(rows[1..], id, upTo);
    }
  }

  lemma {:induction false} HoursBelowEmpty(id: int, upTo: nat)
    ensures HoursBelow([], id, upTo) == 0
  {
    if upTo > 0 { HoursBelowEmpty(id, upTo - 1); }
  }

  /** Peeling the first row off the hour sum. */
  lemma {:induction false} HoursBelowStep(rows: seq<Row>, id: int, upTo: nat)
    requires rows != []
    ensures HoursBelow(rows, id, upTo) ==
      (if rows[0].id == id && rows[0].hour < upTo then 1 else 0) + HoursBelow(rows[1..], id, upTo)
  {
    if upTo > 0 { HoursBelowStep(rows, id, upTo - 1); }
  }

  lemma {:induction false} AnswersBelowAllHours(rows: seq<Row>, id: int)
    ensures AnswersBelow(rows, id, 24) == CountId(rows, id)
  {
    if rows != [] { AnswersBelowAllHours(rows[1..], id); }
  }

  /** A participant's 24 hourly counts add up to their number of
      observations, the value of `n_obs_id` on each of their rows. */
  lemma HourlyCountsSumToObservations(rows: seq<Row>, id: int)
    ensures HoursBelow(rows, id, 24) == CountId(rows, id)
    ensures forall q :: 0 <= q < |rows| && rows[q].id == id ==>
      HoursBelow(rows, id, 24) == ObservationCounts(rows)[q]
  {
    HoursBelowByRows(rows, id, 24);
    AnswersBelowAllHours(rows, id);
  }

  /** A participant with no answer in an hour has count 0 there. */
  lemma {:induction false} HourCountOfAbsentHour(rows: seq<Row>, id: int, h: int)
    requires forall q :: 0 <= q < |rows| && rows[q].id == id ==> rows[q].hour != h
    ensures HourCount(rows, id, h) == 0
    ensures h !in HourHistogram(rows, id)
    decreases |rows|
  {
    if rows != [] {
      HourCountOfAbsentHour(rows[1..], id, h);
    }
  }

  /** The sum of the first `upTo` cells of row `i` of an array. */
  ghost function RowSum(a: array2<int>, i: nat, upTo: nat): int
    reads a
    requires i < a.Length0 && upTo <= a.Length1
  {
    if upTo == 0 then 0 else RowSum(a, i, upTo - 1) + a[i, upTo - 1]
  }

  lemma {:induction false} RowSumOfCounts(a: array2<int>, i: nat, rows: seq<Row>, id: int, upTo: nat)
    requires i < a.Length0 && upTo <= a.Length1
    requires forall h :: 0 <= h < upTo ==> a[i, h] == HourCount(rows, id, h)
    ensures RowSum(a, i, upTo) == HoursBelow(rows, id, upTo)
  {
    if upTo > 0 { RowSumOfCounts(a, i, rows, id, upTo - 1); }
  }

  /** `compute_hourly_counts_per_id`: row i of the result belongs to the
      i-th ID in order of first appearance, and cell (i, h) is the number
      of that participant's answers in hour h (0 where there are none). */
  method ComputeHourlyCountsPerId(rows: seq<Row>) returns (countsPerId: array2<int>)
    ensures fresh(countsPerId)
    ensures countsPerId.Length0 == |UniqueIds(rows)| && countsPerId.Length1 == 24
    ensures forall i, h :: 0 <= i < countsPerId.Length0 && 0 <= h < 24 ==>
      countsPerId[i, h] == HourCount(rows, UniqueIds(rows)[i], h)
    ensures forall i :: 0 <= i < countsPerId.Length0 ==>
      RowSum(countsPerId, i, 24) == CountId(rows, UniqueIds(rows)[i])
  {
    var uniqueIds := UniqueIds(rows);
    var numParticipants := |uniqueIds|;
    countsPerId := new int[numParticipants, 24]((i, j) => 0);
    var i := 0;
    while i < numParticipants
      invariant 0 <= i <= numParticipants
      invariant forall p, h :: 0 <= p < i && 0 <= h < 24 ==>
        countsPerId[p, h] == HourCount(rows, uniqueIds[p], h)
    {
      FillRow(countsPerId, i, rows, uniqueIds[i]);
      i := i + 1;
    }
    AllRowSums(countsPerId, rows, uniqueIds);
  }

  /** One pass of the loop of `compute_hourly_counts_per_id`: the
      participant's hour histogram, with 0 added for every hour without
      answers, copied into row `i`; no other row changes. */
  method FillRow(countsPerId: array2<int>, i: nat, rows: seq<Row>, id: int)
    requires i < countsPerId.Length0 && countsPerId.Length1 == 24
    modifies countsPerId
    ensures forall h :: 0 <= h < 24 ==> countsPerId[i, h] == HourCount(rows, id, h)
    ensures forall p, h :: 0 <= p < countsPerId.Length0 && p != i && 0 <= h < 24 ==>
      countsPerId[p, h] == old(countsPerId[p, h])
  {
    var counts := HourHistogram(rows, id);
    // fill the hours without answers with 0
    for j := 0 to 24
      invariant forall h :: 0 <= h < j ==> h in counts
      invariant forall h :: h in counts ==> 0 <= h < 24 && counts[h] == HourCount(rows, id, h)
      invariant forall h :: 0 <= h < 24 && h !in counts ==> HourCount(rows, id, h) == 0
    {
      if j !in counts {
        counts := counts[j := 0];
      }
    }
    // counts.sort_index(), then countsPerId[i] = counts
    for h := 0 to 24
      invariant forall p, g :: 0 <= p < countsPerId.Length0 && p != i && 0 <= g < 24 ==>
        countsPerId[p, g] == old(countsPerId[p, g])
      invariant forall g :: 0 <= g < h ==> countsPerId[i, g] == counts[g]
    {
      countsPerId[i, h] := counts[h];
    }
  }

  /** Rows filled with the hourly counts of their participants sum to
      those participants' numbers of observations. */
  lemma AllRowSums(a: array2<int>, rows: seq<Row>, ids: seq<int>)
    requires a.Length0 == |ids| && a.Length1 == 24
    requires forall i, h :: 0 <= i < a.Length0 && 0 <= h < 24 ==> a[i, h] == HourCount(rows, ids[i], h)
    ensures forall i :: 0 <= i < a.Length0 ==> RowSum(a, i, 24) == CountId(rows, ids[i])
  {
    forall i | 0 <= i < a.Length0 ensures RowSum(a, i, 24) == CountId(rows, ids[i]) {
      RowSumOfCounts(a, i, rows, ids[i], 24);
      HourlyCountsSumToObservations(rows, ids[i]);
    }
  }
}
