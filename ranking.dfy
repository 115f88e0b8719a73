/**
 * Python's `list.sort(reverse=True)`, which is stable: it orders by "not less
 * than" and keeps equal elements in their original order. `ge(a, b)` says
 * that `a` may come before `b`; with a score key it is `score(a) >= score(b)`.
 */
module Ranking {
  import opened Basics
  import opened Matching

  /** Insert `x` after every element of `s` that is not less than it. */
  function Insert<T>(x: T, s: seq<T>, ge: (T, T) -> bool): seq<T> {
    if s == [] then [x]
    else if ge(s[0], x) then [s[0]] + Insert(x, s[1..], ge)
    else [x] + s
  }

  /** The stable descending sort. */
  function SortDesc<T>(s: seq<T>, ge: (T, T) -> bool): seq<T> {
    if s == [] then [] else Insert(s[|s| - 1], SortDesc(s[..|s| - 1], ge), ge)
  }

  ghost predicate TotalPreorder<T(!new)>(ge: (T, T) -> bool) {
    && (forall a, b :: ge(a, b) || ge(b, a))
    && (forall a, b, c :: ge(a, b) && ge(b, c) ==> ge(a, c))
  }

  predicate SortedDesc<T>(s: seq<T>, ge: (T, T) -> bool) {
    forall i, j :: 0 <= i < j < |s| ==> ge(s[i], s[j])
  }

  /** The elements of `s` that tie with `z`, in their order in `s`. */
  function Ties<T>(s: seq<T>, ge: (T, T) -> bool, z: T): seq<T> {
    if s == [] then []
    else (if ge(s[0], z) && ge(z, s[0]) then [s[0]] else []) + Ties(s[1..], ge, z)
  }

  lemma {:induction false} TiesAppend<T>(a: seq<T>, b: seq<T>, ge: (T, T) -> bool, z: T)
    ensures Ties(a + b, ge, z) == Ties(a, ge, z) + Ties(b, ge, z)
  {
    if a != [] {
      TiesAppend(a[1..], b, ge, z);
      assert (a + b)[1..] == a[1..] + b;
    } else {
      assert a + b == b;
    }
  }

  lemma {:induction false} TiesNone<T>(s: seq<T>, ge: (T, T) -> bool, z: T)
    requires forall i :: 0 <= i < |s| ==> !(ge(s[i], z) && ge(z, s[i]))
    ensures Ties(s, ge, z) == []
  {
    if s != [] {
      TiesNone(s[1..], ge, z);
    }
  }

  lemma {:induction false} InsertMultiset<T>(x: T, s: seq<T>, ge: (T, T) -> bool)
    ensures multiset(Insert(x, s, ge)) == multiset(s) + multiset{x}
  {
    if s != [] && ge(s[0], x) {
      InsertMultiset(x, s[1..], ge);
      assert s == [s[0]] + s[1..];
    }
  }

  lemma {:induction false} InsertSorted<T(!new)>(x: T, s: seq<T>, ge: (T, T) -> bool)
    requires TotalPreorder(ge) && SortedDesc(s, ge)
    ensures SortedDesc(Insert(x, s, ge), ge)
  {
    if s == [] {
    } else if ge(s[0], x) {
      var rest := Insert(x, s[1..], ge);
      InsertSorted(x, s[1..], ge);
      InsertMultiset(x, s[1..], ge);
      forall i | 0 <= i < |rest| ensures ge(s[0], rest[i]) {
        assert rest[i] in multiset(rest);
        assert rest[i] == x || rest[i] in s[1..];
      }
    } else {
      assert ge(x, s[0]);
    }
  }

  lemma {:induction false} InsertTies<T(!new)>(x: T, s: seq<T>, ge: (T, T) -> bool, z: T)
    requires TotalPreorder(ge) && SortedDesc(s, ge)
    ensures Ties(Insert(x, s, ge), ge, z) == Ties(s, ge, z) + Ties([x], ge, z)
    decreases |s|, 1
  {
    if s != [] && ge(s[0], x) {
      InsertTiesBehind(x, s, ge, z);
    } else {
      InsertTiesFront(x, s, ge, z);
    }
  }

  /** `x` goes behind the head: the ties of the head come first on both sides. */
  lemma {:induction false} InsertTiesBehind<T(!new)>(x: T, s: seq<T>, ge: (T, T) -> bool, z: T)
    requires TotalPreorder(ge) && SortedDesc(s, ge) && s != [] && ge(s[0], x)
    ensures Ties(Insert(x, s, ge), ge, z) == Ties(s, ge, z) + Ties([x], ge, z)
    decreases |s|, 0
  {
    assert SortedDesc(s[1..], ge);
    InsertTies(x, s[1..], ge, z);
    assert Insert(x, s, ge) == [s[0]] + Insert(x, s[1..], ge);
    TiesAppend([s[0]], Insert(x, s[1..], ge), ge, z);
    TiesAppend([s[0]], s[1..], ge, z);
    assert s == [s[0]] + s[1..];
  }

  /**
   * `x` goes in front: it scores above every element of `s`, so when it ties
   * with `z` nothing in `s` does.
   */
  lemma InsertTiesFront<T(!new)>(x: T, s: seq<T>, ge: (T, T) -> bool, z: T)
    requires TotalPreorder(ge) && SortedDesc(s, ge) && (s == [] || !ge(s[0], x))
    ensures Ties(Insert(x, s, ge), ge, z) == Ties(s, ge, z) + Ties([x], ge, z)
  {
    assert Insert(x, s, ge) == [x] + s;
    TiesAppend([x], s, ge, z);
    if ge(x, z) && ge(z, x) {
      forall i | 0 <= i < |s| ensures !(ge(s[i], z) && ge(z, s[i])) {
        if i > 0 {
          assert ge(s[0], s[i]);
        }
      }
      TiesNone(s, ge, z);
    } else {
      assert Ties([x], ge, z) == [];
    }
  }

  /** The sort is a permutation, whatever the order. */
  lemma {:induction false} SortDescPermutes<T>(s: seq<T>, ge: (T, T) -> bool)
    ensures multiset(SortDesc(s, ge)) == multiset(s)
  {
    if s != [] {
      var init, x := s[..|s| - 1], s[|s| - 1];
      SortDescPermutes(init, ge);
      InsertMultiset(x, SortDesc(init, ge), ge);
      assert SortDesc(s, ge) == Insert(x, SortDesc(init, ge), ge);
      assert s == init + [x];
      assert multiset(s) == multiset(init) + multiset{x};
    }
  }

  /**
   * The sort orders by `ge`, is a permutation, and is stable: the elements
   * that tie with any `z` keep their relative order.
   */
  lemma SortDescSpec<T(!new)>(s: seq<T>, ge: (T, T) -> bool)
    requires TotalPreorder(ge)
    ensures SortedDesc(SortDesc(s, ge), ge)
    ensures multiset(SortDesc(s, ge)) == multiset(s)
    ensures forall z :: Ties(SortDesc(s, ge), ge, z) == Ties(s, ge, z)
  {
    SortDescSorted(s, ge);
    SortDescPermutes(s, ge);
    forall z ensures Ties(SortDesc(s, ge), ge, z) == Ties(s, ge, z) {
      SortDescTies(s, ge, z);
    }
  }

  lemma {:induction false} SortDescSorted<T(!new)>(s: seq<T>, ge: (T, T) -> bool)
    requires TotalPreorder(ge)
    ensures SortedDesc(SortDesc(s, ge), ge)
  {
    if s != [] {
      var init, x := s[..|s| - 1], s[|s| - 1];
      SortDescSorted(init, ge);
      InsertSorted(x, SortDesc(init, ge), ge);
    }
  }

  /** The sort keeps the order among the elements that tie with `z`. */
  lemma {:induction false} SortDescTies<T(!new)>(s: seq<T>, ge: (T, T) -> bool, z: T)
    requires TotalPreorder(ge)
    ensures Ties(SortDesc(s, ge), ge, z) == Ties(s, ge, z)
  {
    if s != [] {
      var init, x := s[..|s| - 1], s[|s| - 1];
      SortDescTies(init, ge, z);
      SortDescSorted(init, ge);
      InsertTies(x, SortDesc(init, ge), ge, z);
      assert s == init + [x];
      TiesAppend(init, [x], ge, z);
    }
  }


  /** "Not less than" by a score. */
  function ByScore<T>(score: T -> real): (T, T) -> bool {
    (a: T, b: T) => score(a) >= score(b)
  }

  lemma ByScoreIsPreorder<T(!new)>(score: T -> real)
    ensures TotalPreorder(ByScore(score))
    ensures forall a, b :: (ByScore(score)(a, b) && ByScore(score)(b, a)) <==> score(a) == score(b)
  {
  }

  /** The bonus `_score_candidate` gives for the first match's FC length. */
  function FcLengthBonus(l: int): real {
    if 8 <= l <= 16 then 20.0 else if 4 <= l <= 20 then 10.0 else 0.0
  }

  /** The bonus `_score_candidate` gives for the first match's CN length. */
  function CnLengthBonus(l: int): real {
    if 8 <= l <= 24 then 10.0 else if 4 <= l <= 32 then 5.0 else 0.0
  }

  /** Both length bonuses, taken from the first match; none for a candidate without matches. */
  function LengthBonus(c: FCCandidate): real {
    if c.matches == [] then 0.0
    else FcLengthBonus(c.matches[0].fcLength) + CnLengthBonus(c.matches[0].cnLength)
  }

  /** The penalty for an FC value outside 1..65535. */
  function RangePenalty(fc: int): real {
    if fc > 65535 || fc < 1 then 50.0 else 0.0
  }

  /** `[c for c in candidates if c.fc_value == known_fc]` when `known_fc` is set. */
  function KeepFc(cs: seq<FCCandidate>, knownFc: Option<int>): (r: seq<FCCandidate>)
    ensures forall c :: c in r <==> c in cs && (knownFc.None? || c.fcValue == knownFc.value)
    ensures knownFc.None? ==> r == cs
  {
    if cs == [] then []
    else
      var rest := KeepFc(cs[1..], knownFc);
      assert forall c :: c in cs <==> c == cs[0] || c in cs[1..];
      if knownFc.None? || cs[0].fcValue == knownFc.value then [cs[0]] + rest else rest
  }

  /** Restrict to `known_fc`, sort by score descending (stably), keep the first `limit`. */
  function TopCandidates(cs: seq<FCCandidate>, knownFc: Option<int>, score: FCCandidate -> real, limit: int): seq<FCCandidate> {
    PyPrefix(SortDesc(KeepFc(cs, knownFc), ByScore(score)), limit)
  }

  /**
   * The first `limit` of the stable descending sort: as many as there are up
   * to `limit`, drawn from `s`, in non-increasing score order, none scoring
   * below an element left out, and equal scores in their order in `s`.
   */
  lemma TopSpec<T(!new)>(s: seq<T>, score: T -> real, limit: int)
    ensures var r := PyPrefix(SortDesc(s, ByScore(score)), limit);
      && (limit >= 0 ==> |r| == Min(limit, |s|))
      && multiset(r) <= multiset(s)
      && (forall i, j :: 0 <= i < j < |r| ==> score(r[i]) >= score(r[j]))
      && (forall x, y :: x in multiset(s) - multiset(r) && y in r ==> score(y) >= score(x))
      && (forall z :: Ties(r, ByScore(score), z) <= Ties(s, ByScore(score), z))
  {
    ByScoreIsPreorder(score);
    SortDescSpec(s, ByScore(score));
    var sorted := SortDesc(s, ByScore(score));
    var r := PyPrefix(sorted, limit);
    var rest := sorted[|r|..];
    assert sorted == r + rest;
    TopSize(s, sorted, r, rest);
    TopAbove(s, score, sorted, r, rest);
    forall z ensures Ties(r, ByScore(score), z) <= Ties(s, ByScore(score), z) {
      TiesAppend(r, rest, ByScore(score), z);
    }
  }

  /** A prefix of a permutation of `s` is drawn from `s`. */
  lemma TopSize<T>(s: seq<T>, sorted: seq<T>, r: seq<T>, rest: seq<T>)
    requires multiset(sorted) == multiset(s) && sorted == r + rest
    ensures |sorted| == |s|
    ensures multiset(r) <= multiset(s) && multiset(s) - multiset(r) == multiset(rest)
  {
    assert |sorted| == |multiset(sorted)| == |multiset(s)| == |s|;
    assert multiset(sorted) == multiset(r) + multiset(rest);
  }

  /** In a sorted sequence cut in two, the first part scores no lower than the second. */
  lemma TopAbove<T>(s: seq<T>, score: T -> real, sorted: seq<T>, r: seq<T>, rest: seq<T>)
    requires SortedDesc(sorted, ByScore(score)) && sorted == r + rest
    requires multiset(s) - multiset(r) == multiset(rest)
    ensures forall x, y :: x in multiset(s) - multiset(r) && y in r ==> score(y) >= score(x)
  {
    forall x, y | x in multiset(s) - multiset(r) && y in r ensures score(y) >= score(x) {
      assert x in multiset(rest);
      var i :| 0 <= i < |rest| && rest[i] == x;
      var j :| 0 <= j < |r| && r[j] == y;
      assert sorted[j] == y && sorted[|r| + i] == x;
    }
  }

  /**
   * The ranking holds at most `limit` candidates (for `limit >= 0`), only ones with
   * the known FC when it is set, in non-increasing score order; none of the
   * kept candidates left out scores above one in the ranking, and candidates
   * of equal score keep their order.
   */
  lemma TopCandidatesSpec(cs: seq<FCCandidate>, knownFc: Option<int>, score: FCCandidate -> real, limit: int)
    ensures var r := TopCandidates(cs, knownFc, score, limit);
      && (limit >= 0 ==> |r| <= limit)
      && (forall c :: c in r ==> c in cs && (knownFc.None? || c.fcValue == knownFc.value))
      && (forall i, j :: 0 <= i < j < |r| ==> score(r[i]) >= score(r[j]))
      && multiset(r) <= multiset(KeepFc(cs, knownFc))
      && (limit >= |KeepFc(cs, knownFc)| ==> multiset(r) == multiset(KeepFc(cs, knownFc)))
      && (forall x, y :: x in multiset(KeepFc(cs, knownFc)) - multiset(r) && y in r ==> score(y) >= score(x))
      && (forall z :: Ties(r, ByScore(score), z) <= Ties(KeepFc(cs, knownFc), ByScore(score), z))
  {
    var kept := KeepFc(cs, knownFc);
    var r := TopCandidates(cs, knownFc, score, limit);
    assert r == PyPrefix(SortDesc(kept, ByScore(score)), limit);
    TopSpec(kept, score, limit);
    DrawnFrom(r, kept);
    if limit >= |kept| {
      TopAll(kept, score, limit);
    }
  }

  /** Elements of a sub-multiset are elements of the whole. */
  lemma DrawnFrom<T>(r: seq<T>, s: seq<T>)
    requires multiset(r) <= multiset(s)
    ensures forall x :: x in r ==> x in s
  {
    forall x | x in r ensures x in s {
      assert x in multiset(r);
    }
  }

  /** A limit of at least the length keeps the whole sort, a permutation of `s`. */
  lemma TopAll<T(!new)>(s: seq<T>, score: T -> real, limit: int)
    requires limit >= |s|
    ensures multiset(PyPrefix(SortDesc(s, ByScore(score)), limit)) == multiset(s)
  {
    SortDescPermutes(s, ByScore(score));
    var sorted := SortDesc(s, ByScore(score));
    assert |sorted| == |multiset(sorted)| == |multiset(s)| == |s|;
    assert PyPrefix(sorted, limit) == sorted;
  }
}
