/** The order in which the allocator serves areas: criticality tier first,
    then affected population, both descending; the table sort is stable, so
    areas that tie on both keep their table order. */
module AllocationOrder {
  import opened Entities

  /** Numeric tier of a criticality label: alta 2, média 1, baixa 0 and, for
      an area without a label, -1. */
  function TierRank(level: Option<Level>): (t: int)
    ensures -1 <= t <= 2
    ensures t == -1 <==> level.None?
  {
    match level
    case None => -1
    case Some(Low) => 0
    case Some(Medium) => 1
    case Some(High) => 2
  }

  /** `a` must be served before `b`: a higher tier, or the same tier and more
      people affected. */
  predicate Outranks(a: Area, b: Area)
  {
    TierRank(a.level) > TierRank(b.level) ||
    (TierRank(a.level) == TierRank(b.level) && a.population > b.population)
  }

  /** No area outranks an area placed before it. */
  predicate ByPriority(s: seq<Area>)
  {
    forall i, j :: 0 <= i < j < |s| ==> !Outranks(s[j], s[i])
  }

  /** Places `a` in front of the first area it is not outranked by. */
  function InsertByPriority(a: Area, s: seq<Area>): (r: seq<Area>)
    ensures |r| == |s| + 1
    ensures multiset(r) == multiset(s) + multiset{a}
    decreases |s|
  {
    if s == [] then [a]
    else if !Outranks(s[0], a) then
      assert [a] + s == [a] + [s[0]] + s[1..];
      [a] + s
    else
      assert s == [s[0]] + s[1..];
      [s[0]] + InsertByPriority(a, s[1..])
  }

  /** Not being outranked is transitive: ranks are compared lexicographically. */
  lemma NotOutrankedTransitive(x: Area, y: Area, z: Area)
    requires !Outranks(x, y) && !Outranks(y, z)
    ensures !Outranks(x, z)
  {
  }

  /** An area that no area of `t` outranks can go in front of `t`. */
  lemma ConsSorted(x: Area, t: seq<Area>)
    requires ByPriority(t)
    requires forall j :: 0 <= j < |t| ==> !Outranks(t[j], x)
    ensures ByPriority([x] + t)
  {
    var r := [x] + t;
    forall i, j | 0 <= i < j < |r| ensures !Outranks(r[j], r[i]) {
      assert r[j] == t[j - 1];
      if i > 0 {
        assert r[i] == t[i - 1];
      }
    }
  }

  /** Inserting into a table in priority order keeps it in priority order. */
  lemma {:induction false} InsertSorted(a: Area, s: seq<Area>)
    requires ByPriority(s)
    ensures ByPriority(InsertByPriority(a, s))
    decreases |s|
  {
    if s == [] {
    } else if !Outranks(s[0], a) {
      forall j | 0 <= j < |s| ensures !Outranks(s[j], a) {
        if j > 0 {
          NotOutrankedTransitive(s[j], s[0], a);
        }
      }
      ConsSorted(a, s);
    } else {
      var tail := s[1..];
      InsertSorted(a, tail);
      var rest := InsertByPriority(a, tail);
      forall j | 0 <= j < |rest| ensures !Outranks(rest[j], s[0]) {
        assert rest[j] in multiset(rest);
        if rest[j] != a {
          assert rest[j] in multiset(tail);
          var k :| 0 <= k < |tail| && tail[k] == rest[j];
          assert s[k + 1] == rest[j];
        }
      }
      ConsSorted(s[0], rest);
    }
  }

  /** The sorted table: every area once, by descending tier and population. */
  function SortByPriority(s: seq<Area>): (r: seq<Area>)
    ensures |r| == |s|
    ensures multiset(r) == multiset(s)
    ensures ByPriority(r)
    decreases |s|
  {
    if s == [] then []
    else
      assert s == [s[0]] + s[1..];
      var sorted := SortByPriority(s[1..]);
      InsertSorted(s[0], sorted);
      InsertByPriority(s[0], sorted)
  }

  /** The areas of `s` with tier rank `t` and population `p`, in order. */
  function WithRank(s: seq<Area>, t: int, p: int): seq<Area>
    decreases |s|
  {
    if s == [] then []
    else (if TierRank(s[0].level) == t && s[0].population == p then [s[0]] else []) + WithRank(s[1..], t, p)
  }

  lemma WithRankCons(x: Area, t: seq<Area>, tier: int, p: int)
    ensures WithRank([x] + t, tier, p) == (if TierRank(x.level) == tier && x.population == p then [x] else []) + WithRank(t, tier, p)
  {
    assert ([x] + t)[1..] == t;
  }

  lemma {:induction false} InsertKeepsTies(a: Area, s: seq<Area>, t: int, p: int)
    ensures WithRank(InsertByPriority(a, s), t, p) ==
      (if TierRank(a.level) == t && a.population == p then [a] else []) + WithRank(s, t, p)
    decreases |s|
  {
    if s == [] {
    } else if !Outranks(s[0], a) {
      WithRankCons(a, s, t, p);
    } else {
      InsertKeepsTies(a, s[1..], t, p);
      WithRankCons(s[0], InsertByPriority(a, s[1..]), t, p);
    }
  }

  /** Stability: areas that tie on both keys come out in their table order. */
  lemma {:induction false} SortKeepsTies(s: seq<Area>, t: int, p: int)
    ensures WithRank(SortByPriority(s), t, p) == WithRank(s, t, p)
    decreases |s|
  {
    if s != [] {
      SortKeepsTies(s[1..], t, p);
      InsertKeepsTies(s[0], SortByPriority(s[1..]), t, p);
    }
  }
}
