// The `Common_location` column of `prepare_data` in src/preprocess.py:
// each participant's most frequent `Location8` value, stripped of its
// first two characters, with a space inserted by the regular-expression
// rewrite `(\w)([A-Z])` -> `\1 \2`.

module Location {
  import opened Text

  /** `\w`, restricted to ASCII: a letter, a digit or the underscore. */
  predicate IsWordChar(c: char)
  {
    IsUpper(c) || IsLower(c) || IsDigit(c) || c == '_'
  }

  /** `str[2:]`, which is empty for strings shorter than two characters. */
  function DropTwo(s: string): (r: string)
    ensures |s| >= 2 ==> r == s[2..]
    ensures |s| < 2 ==> r == ""
  {
    if |s| < 2 then "" else s[2..]
  }

  /** `re.sub(r"(\w)([A-Z])", r"\1 \2", s)`: scanning left to right, a word
      character followed by an upper-case letter is emitted with a space
      between them and both are consumed; any other character is emitted
      as it is. Each inserted space consumes two characters. */
  function InsertSpaces(s: string): (r: string)
    ensures |s| <= |r| && 2 * (|r| - |s|) <= |s|
    decreases |s|
  {
    if |s| < 2 then s
    else if IsWordChar(s[0]) && IsUpper(s[1]) then [s[0], ' ', s[1]] + InsertSpaces(s[2..])
    else [s[0]] + InsertSpaces(s[1..])
  }

  /** The rewrite of one participant's most frequent location. */
  function CommonLocation(location8: string): (pretty: string)
    ensures |DropTwo(location8)| <= |pretty|
    ensures RemoveSpaces(pretty) == RemoveSpaces(DropTwo(location8))
  {
    InsertSpacesErasable(DropTwo(location8));
    InsertSpaces(DropTwo(location8))
  }

  // ----- a reference definition: where the spaces go -----

  /** Whether a space goes between `s[k]` and `s[k + 1]`: the pair matches
      and `s[k]` was not already consumed as the second character of the
      match just before it. */
  function GapAt(s: string, k: nat): bool
    requires k + 1 < |s|
  {
    IsWordChar(s[k]) && IsUpper(s[k + 1]) && !(k > 0 && GapAt(s, k - 1))
  }

  /** `s[from..]` with a space after each position that has a gap. */
  function Weave(s: string, from: nat): string
    requires from <= |s|
    decreases |s| - from
  {
    if from == |s| then ""
    else [s[from]] + (if from + 1 < |s| && GapAt(s, from) then " " else "") + Weave(s, from + 1)
  }

  /** The number of gaps from position `from` on. */
  function GapCount(s: string, from: nat): nat
    requires from <= |s|
    decreases |s| - from
  {
    if from + 1 >= |s| then 0
    else (if GapAt(s, from) then 1 else 0) + GapCount(s, from + 1)
  }

  /** The scan produces exactly the string with one space per gap. */
  lemma {:induction false} InsertSpacesWeaves(s: string, from: nat)
    requires from <= |s|
    requires from > 0 && from < |s| ==> !GapAt(s, from - 1)
    ensures InsertSpaces(s[from..]) == Weave(s, from)
    decreases |s| - from
  {
    var t := s[from..];
    if |t| < 2 {
      if |t| == 1 {
        assert Weave(s, from + 1) == "";
      }
    } else if IsWordChar(t[0]) && IsUpper(t[1]) {
      assert GapAt(s, from);
      assert t[2..] == s[from + 2..];
      InsertSpacesWeaves(s, from + 2);
      WeaveGapStep(s, from);
      assert InsertSpaces(t) == [t[0], ' ', t[1]] + InsertSpaces(t[2..]);
    } else {
      assert !GapAt(s, from);
      assert t[1..] == s[from + 1..];
      InsertSpacesWeaves(s, from + 1);
      assert InsertSpaces(t) == [t[0]] + InsertSpaces(t[1..]);
    }
  }

  /** A gap after `s[k]` emits `s[k]`, the space and `s[k + 1]`, and no gap
      follows straight after. */
  lemma WeaveGapStep(s: string, k: nat)
    requires k + 1 < |s| && GapAt(s, k)
    ensures Weave(s, k) == [s[k], ' ', s[k + 1]] + Weave(s, k + 2)
  {
    if k + 2 < |s| {
      assert !GapAt(s, k + 1);
    }
    assert Weave(s, k + 1) == [s[k + 1]] + Weave(s, k + 2);
  }

  /** A gap is only ever placed after a word character that is followed by
      an upper-case letter, and never twice in a row (matches do not
      overlap). */
  lemma GapsSound(s: string)
    ensures forall k :: 0 <= k && k + 1 < |s| && GapAt(s, k) ==> IsWordChar(s[k]) && IsUpper(s[k + 1])
    ensures forall k :: 0 <= k && k + 2 < |s| && GapAt(s, k) ==> !GapAt(s, k + 1)
  {
  }

  /** A change from a non-capital word character to a capital always
      receives a space, and so does every matching pair not preceded by a
      gap. */
  lemma GapsComplete(s: string)
    ensures forall k :: 0 <= k && k + 1 < |s| && IsWordChar(s[k]) && !IsUpper(s[k]) && IsUpper(s[k + 1]) ==> GapAt(s, k)
    ensures forall k :: 0 < k && k + 1 < |s| && IsWordChar(s[k]) && IsUpper(s[k + 1]) && !GapAt(s, k - 1) ==> GapAt(s, k)
  {
  }

  /** Each gap adds one character. */
  lemma {:induction false} WeaveLength(s: string, from: nat)
    requires from <= |s|
    ensures |Weave(s, from)| == |s| - from + GapCount(s, from)
    decreases |s| - from
  {
    if from < |s| {
      WeaveLength(s, from + 1);
    }
  }

  // ----- removing the inserted spaces -----

  /** The string without its spaces. */
  function RemoveSpaces(s: string): (r: string)
    ensures ' ' !in r
    ensures |r| <= |s|
  {
    if s == [] then "" else (if s[0] == ' ' then "" else [s[0]]) + RemoveSpaces(s[1..])
  }

  lemma {:induction false} RemoveSpacesNone(s: string)
    requires ' ' !in s
    ensures RemoveSpaces(s) == s
  {
    if s != [] {
      assert ' ' !in s[1..];
      RemoveSpacesNone(s[1..]);
    }
  }

  /** The rewrite only adds spaces: deleting all spaces from its output
      gives the same as deleting them from its input. */
  lemma {:induction false} InsertSpacesErasable(s: string)
    ensures RemoveSpaces(InsertSpaces(s)) == RemoveSpaces(s)
    decreases |s|
  {
    if |s| >= 2 {
      if IsWordChar(s[0]) && IsUpper(s[1]) {
        InsertSpacesErasable(s[2..]);
        ErasableAtGap(s);
      } else {
        InsertSpacesErasable(s[1..]);
        ErasableElsewhere(s);
      }
    }
  }

  /** Deleting spaces from a string that starts with `c`. */
  lemma RemoveSpacesCons(c: char, t: string)
    ensures RemoveSpaces([c] + t) == (if c == ' ' then "" else [c]) + RemoveSpaces(t)
  {
    assert ([c] + t)[0] == c;
    assert ([c] + t)[1..] == t;
  }

  /** The step of the above where a space is inserted after `s[0]`. */
  lemma ErasableAtGap(s: string)
    requires |s| >= 2 && IsWordChar(s[0]) && IsUpper(s[1])
    requires RemoveSpaces(InsertSpaces(s[2..])) == RemoveSpaces(s[2..])
    ensures RemoveSpaces(InsertSpaces(s)) == RemoveSpaces(s)
  {
    InsertSpacesAtGap(s);
    HeadTwo(s);
    ErasablePair(s[0], s[1], s[2..], InsertSpaces(s[2..]), s, InsertSpaces(s));
  }

  /** Deleting the spaces of `a`, a space, `b` and `out` gives the same as
      deleting those of `a`, `b` and `rest`, when `out` and `rest` agree
      without spaces. */
  lemma ErasablePair(a: char, b: char, rest: string, out: string, whole: string, rewritten: string)
    requires a != ' ' && b != ' '
    requires whole == [a] + ([b] + rest)
    requires rewritten == [a] + ([' '] + ([b] + out))
    requires RemoveSpaces(out) == RemoveSpaces(rest)
    ensures RemoveSpaces(rewritten) == RemoveSpaces(whole)
  {
    RemoveSpacesPair(a, b, out);
    RemoveSpacesTwo(a, b, rest);
  }

  /** Deleting spaces from two non-space characters and a tail. */
  lemma RemoveSpacesTwo(a: char, b: char, t: string)
    requires a != ' ' && b != ' '
    ensures RemoveSpaces([a] + ([b] + t)) == [a] + ([b] + RemoveSpaces(t))
  {
    RemoveSpacesCons(b, t);
    RemoveSpacesCons(a, [b] + t);
  }

  lemma HeadTwo(s: string)
    requires |s| >= 2
    ensures s == [s[0]] + ([s[1]] + s[2..])
  {
    assert s[1..] == [s[1]] + s[2..];
  }

  /** The rewrite at a match: the two characters with a space between
      them, then the rewrite of the rest. */
  lemma InsertSpacesAtGap(s: string)
    requires |s| >= 2 && IsWordChar(s[0]) && IsUpper(s[1])
    ensures s[0] != ' ' && s[1] != ' '
    ensures InsertSpaces(s) == [s[0]] + ([' '] + ([s[1]] + InsertSpaces(s[2..])))
  {
  }

  /** Deleting spaces around one inserted space. */
  lemma RemoveSpacesPair(a: char, b: char, t: string)
    requires a != ' ' && b != ' '
    ensures RemoveSpaces([a] + ([' '] + ([b] + t))) == [a] + ([b] + RemoveSpaces(t))
  {
    RemoveSpacesCons(b, t);
    RemoveSpacesCons(' ', [b] + t);
    RemoveSpacesCons(a, [' '] + ([b] + t));
  }

  /** The step where `s[0]` is copied unchanged. */
  lemma ErasableElsewhere(s: string)
    requires |s| >= 2 && !(IsWordChar(s[0]) && IsUpper(s[1]))
    requires RemoveSpaces(InsertSpaces(s[1..])) == RemoveSpaces(s[1..])
    ensures RemoveSpaces(InsertSpaces(s)) == RemoveSpaces(s)
  {
    var a, rest := s[0], s[1..];
    assert InsertSpaces(s) == [a] + InsertSpaces(rest);
    RemoveSpacesCons(a, InsertSpaces(rest));
    assert s == [a] + rest;
    RemoveSpacesCons(a, rest);
  }

  /** The column value is the location after its first two characters
      with one space inserted per gap; for a location without spaces,
      removing the spaces gives that text back. */
  lemma CommonLocationSpec(location8: string)
    ensures var t := DropTwo(location8);
      CommonLocation(location8) == Weave(t, 0) &&
      |CommonLocation(location8)| == |t| + GapCount(t, 0)
    ensures ' ' !in location8 ==> RemoveSpaces(CommonLocation(location8)) == DropTwo(location8)
  {
    var t := DropTwo(location8);
    assert t[0..] == t;
    InsertSpacesWeaves(t, 0);
    WeaveLength(t, 0);
    if ' ' !in location8 {
      assert ' ' !in t by {
        if |location8| >= 2 {
          assert forall c :: c in t ==> c in location8;
        }
      }
      RemoveSpacesNone(t);
    }
  }

  // ----- the most frequent location of each participant -----

  /** A row's participant and its `Location8` answer. */
  datatype Visit = Visit(id: int, location8: string)

  /** The number of occurrences of `x` in `xs`. */
  function Count(xs: seq<string>, x: string): nat
  {
    if xs == [] then 0 else (if xs[0] == x then 1 else 0) + Count(xs[1..], x)
  }

  lemma {:induction false} CountPositive(xs: seq<string>, x: string)
    requires x in xs
    ensures Count(xs, x) > 0
  {
    if xs[0] != x {
      CountPositive(xs[1..], x);
    }
  }

  /** The candidate of `candidates` that occurs most often in `xs`, the
      earliest one on ties. */
  function MostFrequentOf(candidates: seq<string>, xs: seq<string>): (m: string)
    requires |candidates| > 0
    ensures m in candidates
    ensures forall y :: y in candidates ==> Count(xs, y) <= Count(xs, m)
  {
    if |candidates| == 1 then candidates[0]
    else
      var rest := MostFrequentOf(candidates[1..], xs);
      assert forall y :: y in candidates ==> y == candidates[0] || y in candidates[1..];
      if Count(xs, candidates[0]) >= Count(xs, rest) then candidates[0] else rest
  }

  /** `x.value_counts().index[0]`: a value of `xs` that occurs at least as
      often as any other. */
  function MostFrequent(xs: seq<string>): (m: string)
    requires |xs| > 0
    ensures m in xs && Count(xs, m) > 0
    ensures forall y :: Count(xs, y) <= Count(xs, m)
  {
    var m := MostFrequentOf(xs, xs);
    CountPositive(xs, m);
    assert forall y :: y !in xs ==> Count(xs, y) == 0 by {
      forall y | y !in xs ensures Count(xs, y) == 0 {
        CountAbsent(xs, y);
      }
    }
    m
  }

  lemma {:induction false} CountAbsent(xs: seq<string>, x: string)
    requires x !in xs
    ensures Count(xs, x) == 0
  {
    if xs != [] {
      assert x !in xs[1..];
      CountAbsent(xs[1..], x);
    }
  }

  /** The `Location8` answers of participant `id`, in row order. */
  function LocationsOf(visits: seq<Visit>, id: int): (ls: seq<string>)
    ensures |ls| <= |visits|
    ensures forall q :: 0 <= q < |visits| && visits[q].id == id ==> visits[q].location8 in ls
  {
    if visits == [] then []
    else (if visits[0].id == id then [visits[0].location8] else []) + LocationsOf(visits[1..], id)
  }

  /** `df.groupby("ID")["Location8"].transform(mode)` followed by the
      rewrite: every row receives the rewritten most frequent location of
      its participant. */
  function CommonLocationColumn(visits: seq<Visit>): (col: seq<string>)
    ensures |col| == |visits|
  {
    seq(|visits|, q requires 0 <= q < |visits| =>
      CommonLocation(MostFrequent(LocationsOf(visits, visits[q].id))))
  }

  /** Rows of the same participant get the same value, and that value is
      the rewrite of a location the participant gave at least as often as
      any other. */
  lemma CommonLocationColumnSpec(visits: seq<Visit>)
    ensures forall p, q :: 0 <= p < |visits| && 0 <= q < |visits| && visits[p].id == visits[q].id ==>
      CommonLocationColumn(visits)[p] == CommonLocationColumn(visits)[q]
    ensures forall q :: 0 <= q < |visits| ==>
      exists m :: (m in LocationsOf(visits, visits[q].id) &&
        (forall y :: Count(LocationsOf(visits, visits[q].id), y) <= Count(LocationsOf(visits, visits[q].id), m)) &&
        CommonLocationColumn(visits)[q] == CommonLocation(m))
  {
    var col := CommonLocationColumn(visits);
    forall q | 0 <= q < |visits|
      ensures exists m :: (m in LocationsOf(visits, visits[q].id) &&
        (forall y :: Count(LocationsOf(visits, visits[q].id), y) <= Count(LocationsOf(visits, visits[q].id), m)) &&
        col[q] == CommonLocation(m))
    {
      var m := MostFrequent(LocationsOf(visits, visits[q].id));
      assert col[q] == CommonLocation(m);
    }
  }

  /** A location as the dashboard shows it. */
  lemma CommonLocationExamples()
    ensures CommonLocation("1_AtHome") == "At Home"
  {
    assert DropTwo("1_AtHome") == "AtHome";
    InsertSpacesAtHome();
  }

  lemma InsertSpacesAtHome()
    ensures InsertSpaces("AtHome") == "At Home"
  {
    var home := "AtHome";
    assert home[1..] == "tHome" && "tHome"[2..] == "ome";
    assert InsertSpaces("ome") == "ome" by {
      assert "ome"[1..] == "me" && "me"[1..] == "e";
    }
    assert InsertSpaces("tHome") == "t Home";
  }

  /** A run of capitals, where matches do not overlap, and a location too
      short to keep anything. */
  lemma CommonLocationEdgeExamples()
    ensures CommonLocation("x_aBC") == "a BC"
    ensures CommonLocation("7") == ""
  {
    assert DropTwo("x_aBC") == "aBC";
    assert "aBC"[2..] == "C";
  }
}
