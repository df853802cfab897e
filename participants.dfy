// Participant-level row operations of src/preprocess.py: first-occurrence
// de-duplication (`make_distinct_df`), the order of `unique()`, the
// per-participant observation count (`n_obs_id`) and the ordering of rows
// by participant and age (`sort_by_age_preserve_order`). A data frame is
// a sequence of rows; only the columns these operations read are kept.

module Participants {

  /** An hour of the day, as `Series.dt.hour` yields it. */
  type Hour = h: int | 0 <= h < 24

  /** One questionnaire response: the participant's ID, their age and the
      hour of day at which the form was finished. */
  datatype Row = Row(id: int, age: int, hour: Hour)

  /** The IDs that occur in a frame. */
  function IdSet(rows: seq<Row>): set<int>
  {
    set r | r in rows :: r.id
  }

  lemma IdSetTail(rows: seq<Row>)
    requires |rows| > 0
    ensures IdSet(rows) == {rows[0].id} + IdSet(rows[1..])
  {
    assert forall r :: r in rows <==> r == rows[0] || r in rows[1..];
  }

  /** The position of the first row with a given ID. */
  function FirstIndex(rows: seq<Row>, id: int): (p: nat)
    requires id in IdSet(rows)
    ensures p < |rows| && rows[p].id == id
    ensures forall j :: 0 <= j < p ==> rows[j].id != id
  {
    IdSetTail(rows);
    if rows[0].id == id then 0 else 1 + FirstIndex(rows[1..], id)
  }

  /** No earlier row has the same ID: the negation of pandas'
      `index.duplicated(keep="first")` at position `p`. */
  predicate IsFirst(rows: seq<Row>, p: nat)
    requires p < |rows|
  {
    forall j :: 0 <= j < p ==> rows[j].id != rows[p].id
  }

  lemma IsFirstIsFirstIndex(rows: seq<Row>, p: nat)
    requires p < |rows|
    ensures rows[p].id in IdSet(rows)
    ensures IsFirst(rows, p) <==> FirstIndex(rows, rows[p].id) == p
  {
    assert rows[p] in rows;
  }

  /** The positions that survive `~duplicated(keep="first")` among the
      first `n` rows, in increasing order. */
  function FirstPositions(rows: seq<Row>, n: nat): (ix: seq<nat>)
    requires n <= |rows|
    ensures |ix| <= n
    ensures forall k :: 0 <= k < |ix| ==> ix[k] < n && IsFirst(rows, ix[k])
    ensures forall a, b :: 0 <= a < b < |ix| ==> ix[a] < ix[b]
    ensures forall p :: 0 <= p < n && IsFirst(rows, p) ==> p in ix
  {
    if n == 0 then []
    else FirstPositions(rows, n - 1) + (if IsFirst(rows, n - 1) then [n - 1] else [])
  }

  /** `make_distinct_df`: the rows whose ID has not been seen before, in
      their original order. */
  function Distinct(rows: seq<Row>): (kept: seq<Row>)
    ensures |kept| <= |rows|
    ensures forall k :: 0 <= k < |kept| ==> kept[k] in rows
  {
    var ix := FirstPositions(rows, |rows|);
    seq(|ix|, k requires 0 <= k < |ix| => rows[ix[k]])
  }

  /** Kept row `k` sits at the `k`-th surviving position, which is the
      first position of its ID. */
  lemma DistinctPositions(rows: seq<Row>)
    ensures |Distinct(rows)| == |FirstPositions(rows, |rows|)|
    ensures forall k :: 0 <= k < |Distinct(rows)| ==>
      Distinct(rows)[k] == rows[FirstPositions(rows, |rows|)[k]] &&
      Distinct(rows)[k].id in IdSet(rows) &&
      FirstIndex(rows, Distinct(rows)[k].id) == FirstPositions(rows, |rows|)[k]
  {
    var ix := FirstPositions(rows, |rows|);
    forall k | 0 <= k < |ix|
      ensures rows[ix[k]].id in IdSet(rows) && FirstIndex(rows, rows[ix[k]].id) == ix[k]
    {
      IsFirstIsFirstIndex(rows, ix[k]);
    }
  }

  /** `make_distinct_df` keeps exactly one row per ID: no two kept rows
      share an ID, every ID of the input is kept, each kept row is that
      ID's first row, and kept rows are in the order of their first
      appearance. */
  lemma DistinctFirstOccurrences(rows: seq<Row>)
    ensures forall i, j :: 0 <= i < j < |Distinct(rows)| ==> Distinct(rows)[i].id != Distinct(rows)[j].id
    ensures IdSet(Distinct(rows)) == IdSet(rows)
    ensures forall k :: 0 <= k < |Distinct(rows)| ==>
      Distinct(rows)[k].id in IdSet(rows) &&
      Distinct(rows)[k] == rows[FirstIndex(rows, Distinct(rows)[k].id)]
    ensures forall i, j :: 0 <= i < j < |Distinct(rows)| ==>
      Distinct(rows)[i].id in IdSet(rows) && Distinct(rows)[j].id in IdSet(rows) &&
      FirstIndex(rows, Distinct(rows)[i].id) < FirstIndex(rows, Distinct(rows)[j].id)
  {
    var ix := FirstPositions(rows, |rows|);
    var d := Distinct(rows);
    DistinctPositions(rows);
    forall i, j | 0 <= i < j < |d| ensures d[i].id != d[j].id {
      assert FirstIndex(rows, d[i].id) == ix[i] < ix[j] == FirstIndex(rows, d[j].id);
    }
    DistinctCoversIds(rows);
  }

  lemma DistinctCoversIds(rows: seq<Row>)
    ensures IdSet(Distinct(rows)) == IdSet(rows)
  {
    var ix := FirstPositions(rows, |rows|);
    var d := Distinct(rows);
    DistinctPositions(rows);
    forall x | x in IdSet(rows) ensures x in IdSet(d) {
      var p := FirstIndex(rows, x);
      assert IsFirst(rows, p);
      var k :| 0 <= k < |ix| && ix[k] == p;
      assert d[k] in d;
    }
    forall x | x in IdSet(d) ensures x in IdSet(rows) {
      var r :| r in d && r.id == x;
      var k :| 0 <= k < |d| && d[k] == r;
    }
  }

  /** `df["ID"].unique()`: the distinct IDs in order of first appearance. */
  function UniqueIds(rows: seq<Row>): (ids: seq<int>)
    ensures |ids| <= |rows|
    ensures forall k :: 0 <= k < |ids| ==> ids[k] in IdSet(rows)
  {
    var d := Distinct(rows);
    seq(|d|, k requires 0 <= k < |d| => d[k].id)
  }

  /** The unique IDs have no repetition, are exactly the IDs of the frame,
      and appear in the order of their first rows. */
  lemma UniqueIdsSpec(rows: seq<Row>)
    ensures forall i, j :: 0 <= i < j < |UniqueIds(rows)| ==> UniqueIds(rows)[i] != UniqueIds(rows)[j]
    ensures forall x :: x in UniqueIds(rows) <==> x in IdSet(rows)
    ensures forall i, j :: 0 <= i < j < |UniqueIds(rows)| ==>
      UniqueIds(rows)[i] in IdSet(rows) && UniqueIds(rows)[j] in IdSet(rows) &&
      FirstIndex(rows, UniqueIds(rows)[i]) < FirstIndex(rows, UniqueIds(rows)[j])
  {
    DistinctFirstOccurrences(rows);
    UniqueIdsCover(rows);
  }

  lemma UniqueIdsCover(rows: seq<Row>)
    ensures forall x :: x in UniqueIds(rows) <==> x in IdSet(rows)
  {
    DistinctCoversIds(rows);
    var d := Distinct(rows);
    var u := UniqueIds(rows);
    forall x | x in u ensures x in IdSet(d) {
      var k :| 0 <= k < |u| && u[k] == x;
      assert d[k] in d;
    }
    forall x | x in IdSet(d) ensures x in u {
      var r :| r in d && r.id == x;
      var k :| 0 <= k < |d| && d[k] == r;
      assert u[k] == x;
    }
  }

  /** The number of rows with a given ID. */
  function CountId(rows: seq<Row>, id: int): nat
  {
    if rows == [] then 0 else (if rows[0].id == id then 1 else 0) + CountId(rows[1..], id)
  }

  lemma {:induction false} CountIdPositive(rows: seq<Row>, id: int)
    requires id in IdSet(rows)
    ensures CountId(rows, id) >= 1
  {
    IdSetTail(rows);
    if rows[0].id != id {
      CountIdPositive(rows[1..], id);
    }
  }

  /** `df.groupby("ID")["ID"].transform("count")`: every row carries the
      number of rows of its participant. */
  function ObservationCounts(rows: seq<Row>): (n: seq<nat>)
    ensures |n| == |rows|
  {
    seq(|rows|, q requires 0 <= q < |rows| => CountId(rows, rows[q].id))
  }

  /** Each row's `n_obs_id` is at least one (the row itself), and rows of
      the same participant carry the same count. */
  lemma ObservationCountsSpec(rows: seq<Row>)
    ensures forall q :: 0 <= q < |rows| ==> ObservationCounts(rows)[q] >= 1
    ensures forall p, q :: 0 <= p < |rows| && 0 <= q < |rows| && rows[p].id == rows[q].id ==>
      ObservationCounts(rows)[p] == ObservationCounts(rows)[q]
  {
    forall q | 0 <= q < |rows| ensures ObservationCounts(rows)[q] >= 1 {
      assert rows[q] in rows;
      CountIdPositive(rows, rows[q].id);
    }
  }

  // ----- Sorting by a key (the sorts inside `sort_values`) -----

  ghost predicate SortedBy<T>(s: seq<T>, key: T -> int)
  {
    forall i, j :: 0 <= i < j < |s| ==> key(s[i]) <= key(s[j])
  }

  ghost predicate NoDuplicates<T>(s: seq<T>)
  {
    forall i, j :: 0 <= i < j < |s| ==> s[i] != s[j]
  }

  /** Insert `x` before the first element whose key is not smaller. */
  function InsertBy<T>(x: T, s: seq<T>, key: T -> int): (r: seq<T>)
    ensures |r| == |s| + 1
  {
    if s == [] || key(x) <= key(s[0]) then [x] + s
    else [s[0]] + InsertBy(x, s[1..], key)
  }

  /** Insertion sort on a key; elements with equal keys keep their order. */
  function SortBy<T>(s: seq<T>, key: T -> int): (r: seq<T>)
    ensures |r| == |s|
  {
    if s == [] then [] else InsertBy(s[0], SortBy(s[1..], key), key)
  }

  lemma {:induction false} InsertByMultiset<T>(x: T, s: seq<T>, key: T -> int)
    ensures multiset(InsertBy(x, s, key)) == multiset(s) + multiset{x}
  {
    if s != [] && key(x) > key(s[0]) {
      InsertByMultiset(x, s[1..], key);
      assert s == [s[0]] + s[1..];
    }
  }

  /** A lower bound on every key of `x` and `s` bounds every key of the
      insertion. */
  lemma {:induction false} InsertByLowerBound<T>(x: T, s: seq<T>, key: T -> int, b: int)
    requires b <= key(x)
    requires forall k :: 0 <= k < |s| ==> b <= key(s[k])
    ensures forall k :: 0 <= k < |InsertBy(x, s, key)| ==> b <= key(InsertBy(x, s, key)[k])
  {
    if s != [] && key(x) > key(s[0]) {
      InsertByLowerBound(x, s[1..], key, b);
      var tail := InsertBy(x, s[1..], key);
      forall k | 0 <= k < |[s[0]] + tail| ensures b <= key(([s[0]] + tail)[k]) {
        if k > 0 { assert ([s[0]] + tail)[k] == tail[k - 1]; }
      }
    }
  }

  /** A head whose key bounds a sorted tail gives a sorted sequence. */
  lemma ConsSorted<T>(h: T, t: seq<T>, key: T -> int)
    requires SortedBy(t, key)
    requires forall k :: 0 <= k < |t| ==> key(h) <= key(t[k])
    ensures SortedBy([h] + t, key)
  {
    var r := [h] + t;
    forall i, j | 0 <= i < j < |r| ensures key(r[i]) <= key(r[j]) {
      assert r[j] == t[j - 1];
      if i > 0 { assert r[i] == t[i - 1]; }
    }
  }

  lemma {:induction false} InsertBySorted<T>(x: T, s: seq<T>, key: T -> int)
    requires SortedBy(s, key)
    ensures SortedBy(InsertBy(x, s, key), key)
  {
    if s == [] || key(x) <= key(s[0]) {
      ConsSorted(x, s, key);
    } else {
      assert SortedBy(s[1..], key);
      InsertBySorted(x, s[1..], key);
      InsertByLowerBound(x, s[1..], key, key(s[0]));
      ConsSorted(s[0], InsertBy(x, s[1..], key), key);
    }
  }

  /** The sort returns a permutation of its input, ordered by the key. */
  lemma {:induction false} SortBySpec<T>(s: seq<T>, key: T -> int)
    ensures multiset(SortBy(s, key)) == multiset(s)
    ensures SortedBy(SortBy(s, key), key)
  {
    if s != [] {
      SortBySpec(s[1..], key);
      InsertByMultiset(s[0], SortBy(s[1..], key), key);
      InsertBySorted(s[0], SortBy(s[1..], key), key);
      assert s == [s[0]] + s[1..];
    }
  }

  lemma ConsNoDuplicates<T>(h: T, t: seq<T>)
    requires NoDuplicates(t) && h !in t
    ensures NoDuplicates([h] + t)
  {
    var r := [h] + t;
    forall i, j | 0 <= i < j < |r| ensures r[i] != r[j] {
      assert r[j] == t[j - 1];
      if i > 0 { assert r[i] == t[i - 1]; }
    }
  }

  lemma {:induction false} InsertByNoDuplicates<T>(x: T, s: seq<T>, key: T -> int)
    requires NoDuplicates(s) && x !in s
    ensures NoDuplicates(InsertBy(x, s, key))
    ensures multiset(InsertBy(x, s, key)) == multiset(s) + multiset{x}
  {
    InsertByMultiset(x, s, key);
    if s == [] || key(x) <= key(s[0]) {
      ConsNoDuplicates(x, s);
    } else {
      assert s == [s[0]] + s[1..];
      var tail := InsertBy(x, s[1..], key);
      assert NoDuplicates(s[1..]);
      InsertByNoDuplicates(x, s[1..], key);
      assert s[0] !in tail by {
        assert s[0] != x by { assert s[0] in s; }
        assert s[0] !in s[1..];
        assert s[0] !in multiset(s[1..]) + multiset{x};
        assert s[0] !in multiset(tail);
      }
      ConsNoDuplicates(s[0], tail);
    }
  }

  lemma {:induction false} SortByNoDuplicates<T>(s: seq<T>, key: T -> int)
    requires NoDuplicates(s)
    ensures NoDuplicates(SortBy(s, key))
    ensures multiset(SortBy(s, key)) == multiset(s)
  {
    if s != [] {
      assert s == [s[0]] + s[1..];
      SortByNoDuplicates(s[1..], key);
      assert s[0] !in SortBy(s[1..], key) by {
        assert s[0] !in multiset(s[1..]);
      }
      InsertByNoDuplicates(s[0], SortBy(s[1..], key), key);
    }
  }

  // ----- sort_by_age_preserve_order -----

  /** `df.groupby("ID")["Age"].first()` for one participant; IDs that do
      not occur get 0, which is never asked for. */
  function FirstAge(rows: seq<Row>, id: int): int
  {
    if id in IdSet(rows) then rows[FirstIndex(rows, id)].age else 0
  }

  /** The sort key of the rows inside a participant's block. */
  function AgeOf(r: Row): int { r.age }

  /** The rows of one participant, in their original order. */
  function RowsOf(rows: seq<Row>, id: int): (g: seq<Row>)
    ensures forall k :: 0 <= k < |g| ==> g[k].id == id
  {
    if rows == [] then []
    else (if rows[0].id == id then [rows[0]] else []) + RowsOf(rows[1..], id)
  }

  lemma {:induction false} RowsOfIn(rows: seq<Row>, id: int)
    ensures forall r :: r in RowsOf(rows, id) ==> r in rows
  {
    if rows != [] {
      RowsOfIn(rows[1..], id);
    }
  }

  /** The rows whose ID lies in `ids`, in their original order. */
  function RowsIn(rows: seq<Row>, ids: set<int>): seq<Row>
  {
    if rows == [] then []
    else (if rows[0].id in ids then [rows[0]] else []) + RowsIn(rows[1..], ids)
  }

  /** The participants' groups in the order given by `order`, each sorted
      by age. */
  function Groups(order: seq<int>, rows: seq<Row>): (g: seq<Row>)
    ensures forall k :: 0 <= k < |g| ==> g[k] in rows && g[k].id in order
  {
    if order == [] then []
    else
      var block := SortBy(RowsOf(rows, order[0]), AgeOf);
      SortBySpec(RowsOf(rows, order[0]), AgeOf);
      RowsOfIn(rows, order[0]);
      assert forall k :: 0 <= k < |block| ==> block[k] in multiset(RowsOf(rows, order[0]));
      block + Groups(order[1..], rows)
  }

  /** `sort_by_age_preserve_order`: participants ranked by the age on
      their first row (`sorted_ids`), then the frame sorted by that rank
      and by age. Participants with equal first ages are ranked here in
      order of first appearance; pandas leaves that order unspecified. */
  function SortByAgePreserveOrder(rows: seq<Row>): (sorted: seq<Row>)
    ensures |sorted| == |rows|
    ensures forall k :: 0 <= k < |sorted| ==> sorted[k] in rows
  {
    var sorted := Groups(SortBy(UniqueIds(rows), id => FirstAge(rows, id)), rows);
    SortByAgePreservesRows(rows);
    assert |sorted| == |multiset(sorted)| == |multiset(rows)| == |rows|;
    sorted
  }

  /** The groups laid out in rank order hold every row exactly once. */
  lemma SortByAgePreservesRows(rows: seq<Row>)
    ensures multiset(Groups(SortBy(UniqueIds(rows), id => FirstAge(rows, id)), rows)) == multiset(rows)
  {
    var key := id => FirstAge(rows, id);
    var ids := UniqueIds(rows);
    UniqueIdsSpec(rows);
    assert NoDuplicates(ids);
    var order := SortBy(ids, key);
    SortByNoDuplicates(ids, key);
    SortBySpec(ids, key);
    GroupsPermutation(order, rows);
    assert Elements(order) == IdSet(rows) by {
      forall x ensures x in order <==> x in ids {
        assert x in order <==> x in multiset(order);
        assert x in ids <==> x in multiset(ids);
      }
    }
    RowsInAll(rows, IdSet(rows));
  }

  /** Every participant's rows form one contiguous block. */
  ghost predicate Contiguous(s: seq<Row>)
  {
    forall i, j, k :: 0 <= i < j < k < |s| && s[i].id == s[k].id ==> s[j].id == s[i].id
  }

  lemma {:induction false} RowsOfAndRowsIn(rows: seq<Row>, x: int, ids: set<int>)
    requires x !in ids
    ensures multiset(RowsOf(rows, x)) + multiset(RowsIn(rows, ids)) == multiset(RowsIn(rows, ids + {x}))
  {
    if rows != [] {
      RowsOfAndRowsIn(rows[1..], x, ids);
    }
  }

  lemma {:induction false} RowsInAll(rows: seq<Row>, ids: set<int>)
    requires IdSet(rows) <= ids
    ensures RowsIn(rows, ids) == rows
  {
    if rows != [] {
      IdSetTail(rows);
      RowsInAll(rows[1..], ids);
      assert rows == [rows[0]] + rows[1..];
    }
  }

  /** The set of elements of a sequence. */
  function Elements(s: seq<int>): set<int>
  {
    set y | y in s
  }

  lemma ElementsHeadTail(s: seq<int>)
    requires |s| > 0
    ensures Elements(s) == Elements(s[1..]) + {s[0]}
  {
    assert forall y :: y in s <==> y == s[0] || y in s[1..];
  }

  /** The groups of distinct IDs hold exactly the rows of those IDs. */
  lemma {:induction false} GroupsPermutation(order: seq<int>, rows: seq<Row>)
    requires NoDuplicates(order)
    ensures multiset(Groups(order, rows)) == multiset(RowsIn(rows, Elements(order)))
  {
    if order == [] {
      assert Elements(order) == {};
      RowsInNone(rows);
    } else {
      var x := order[0];
      var rest := Elements(order[1..]);
      assert NoDuplicates(order[1..]);
      GroupsPermutation(order[1..], rows);
      SortBySpec(RowsOf(rows, x), AgeOf);
      assert x !in rest;
      RowsOfAndRowsIn(rows, x, rest);
      ElementsHeadTail(order);
    }
  }

  lemma {:induction false} RowsInNone(rows: seq<Row>)
    ensures RowsIn(rows, {}) == []
  {
    if rows != [] { RowsInNone(rows[1..]); }
  }

  /** Putting one participant's age-sorted block in front of blocks of
      participants who rank no earlier keeps every ordering property. */
  lemma GroupPrepend(g: seq<Row>, rest: seq<Row>, x: int, later: set<int>, key: int -> int)
    requires forall k :: 0 <= k < |g| ==> g[k].id == x
    requires SortedBy(g, AgeOf)
    requires x !in later
    requires forall y :: y in later ==> key(x) <= key(y)
    requires forall k :: 0 <= k < |rest| ==> rest[k].id in later
    requires Contiguous(rest)
    requires forall i, j :: 0 <= i < j < |rest| ==> key(rest[i].id) <= key(rest[j].id)
    requires forall i, j :: 0 <= i < j < |rest| && rest[i].id == rest[j].id ==> rest[i].age <= rest[j].age
    ensures Contiguous(g + rest)
    ensures forall i, j :: 0 <= i < j < |g + rest| ==> key((g + rest)[i].id) <= key((g + rest)[j].id)
    ensures forall i, j :: 0 <= i < j < |g + rest| && (g + rest)[i].id == (g + rest)[j].id ==>
      (g + rest)[i].age <= (g + rest)[j].age
  {
    var s := g + rest;
    var n := |g|;
    forall k | n <= k < |s| ensures s[k] == rest[k - n] && s[k].id in later && s[k].id != x { }
    forall k | 0 <= k < n ensures s[k] == g[k] && s[k].id == x { }
    forall i, j, k | 0 <= i < j < k < |s| && s[i].id == s[k].id ensures s[j].id == s[i].id {
      if i >= n {
        assert s[i] == rest[i - n] && s[j] == rest[j - n] && s[k] == rest[k - n];
      }
    }
    forall i, j | 0 <= i < j < |s| ensures key(s[i].id) <= key(s[j].id) {
      if i >= n {
        assert s[i] == rest[i - n] && s[j] == rest[j - n];
      } else if j >= n {
        assert s[j].id in later;
      }
    }
    forall i, j | 0 <= i < j < |s| && s[i].id == s[j].id ensures s[i].age <= s[j].age {
      if i >= n {
        assert s[i] == rest[i - n] && s[j] == rest[j - n];
      } else if j < n {
        assert s[i] == g[i] && s[j] == g[j];
      }
    }
  }

  /** Sorting a participant's rows keeps them that participant's. */
  lemma SortedGroupIds(rows: seq<Row>, x: int)
    ensures forall k :: 0 <= k < |SortBy(RowsOf(rows, x), AgeOf)| ==> SortBy(RowsOf(rows, x), AgeOf)[k].id == x
  {
    var members := RowsOf(rows, x);
    var g := SortBy(members, AgeOf);
    SortBySpec(members, AgeOf);
    forall k | 0 <= k < |g| ensures g[k].id == x {
      assert g[k] in multiset(members);
      var m :| 0 <= m < |members| && members[m] == g[k];
    }
  }

  /** In a key-sorted order without repetition, the head ranks no later
      than every other element, and is not among them. */
  lemma LaterRanks(order: seq<int>, key: int -> int)
    requires |order| > 0
    requires NoDuplicates(order)
    requires SortedBy(order, key)
    ensures forall y :: y in Elements(order[1..]) ==> key(order[0]) <= key(y)
    ensures order[0] !in Elements(order[1..])
  {
    var tail := order[1..];
    forall y | y in Elements(tail) ensures key(order[0]) <= key(y) && y != order[0] {
      var m :| 0 <= m < |tail| && tail[m] == y;
      assert order[m + 1] == y;
    }
  }

  /** Groups in an order sorted by `key` are contiguous, ordered by key,
      and sorted by age inside each participant. */
  lemma {:induction false} GroupsOrdered(order: seq<int>, rows: seq<Row>, key: int -> int)
    requires NoDuplicates(order)
    requires SortedBy(order, key)
    ensures forall k :: 0 <= k < |Groups(order, rows)| ==> Groups(order, rows)[k].id in order
    ensures Contiguous(Groups(order, rows))
    ensures forall i, j :: 0 <= i < j < |Groups(order, rows)| ==>
      key(Groups(order, rows)[i].id) <= key(Groups(order, rows)[j].id)
    ensures forall i, j ::
      (0 <= i < j < |Groups(order, rows)| && Groups(order, rows)[i].id == Groups(order, rows)[j].id) ==>
      Groups(order, rows)[i].age <= Groups(order, rows)[j].age
  {
    if order != [] {
      var x := order[0];
      var tail := order[1..];
      assert NoDuplicates(tail);
      assert SortedBy(tail, key);
      GroupsOrdered(tail, rows, key);
      var g := SortBy(RowsOf(rows, x), AgeOf);
      SortBySpec(RowsOf(rows, x), AgeOf);
      SortedGroupIds(rows, x);
      var later := Elements(tail);
      LaterRanks(order, key);
      assert x !in later;
      GroupPrepend(g, Groups(tail, rows), x, later, key);
    }
  }

  /** `sort_by_age_preserve_order` returns a permutation of its input in
      which every participant's rows are contiguous, participants appear
      in non-decreasing order of the age on their first input row, and
      ages are non-decreasing within a participant. */
  lemma SortByAgePreserveOrderSpec(rows: seq<Row>)
    ensures multiset(SortByAgePreserveOrder(rows)) == multiset(rows)
    ensures Contiguous(SortByAgePreserveOrder(rows))
    ensures forall i, j :: 0 <= i < j < |SortByAgePreserveOrder(rows)| ==>
      FirstAge(rows, SortByAgePreserveOrder(rows)[i].id) <= FirstAge(rows, SortByAgePreserveOrder(rows)[j].id)
    ensures forall i, j ::
      (0 <= i < j < |SortByAgePreserveOrder(rows)| &&
       SortByAgePreserveOrder(rows)[i].id == SortByAgePreserveOrder(rows)[j].id) ==>
      SortByAgePreserveOrder(rows)[i].age <= SortByAgePreserveOrder(rows)[j].age
  {
    var key := id => FirstAge(rows, id);
    var ids := UniqueIds(rows);
    UniqueIdsSpec(rows);
    assert NoDuplicates(ids);
    var order := SortBy(ids, key);
    SortByNoDuplicates(ids, key);
    SortBySpec(ids, key);
    SortByAgePreservesRows(rows);
    GroupsOrdered(order, rows, key);
  }
}
