/**
 * The ranking broadcast on reveal (server/src/index.ts, the reveal handler):
 * participants in `Map` order, projected to their public fields and sorted
 * with `sort((a, b) => b.score - a.score)`. `Array.prototype.sort` is stable,
 * so equal scores keep their `Map` order; the sort is modelled as a stable
 * insertion sort.
 */
module Ranking {
  import opened Optional
  import opened OrderedMap
  import opened Types

  /** A participant as clients see it: no connection id. */
  datatype Standing = Standing(userId: string, name: string, score: int, avatarUrl: Option<string>)

  function Public(p: Participant): (s: Standing)
    ensures s.userId == p.userId && s.score == p.score
  {
    Standing(p.userId, p.name, p.score, p.avatarUrl)
  }

  /** The public view of a participants map, in insertion order (also the `room:update` roster). */
  function Roster(ps: OMap<string, Participant>): (r: seq<Standing>)
    requires ps.Valid()
    ensures |r| == ps.Size()
    ensures forall i :: 0 <= i < |r| ==> r[i] == Public(ps.vals[ps.keys[i]])
  {
    seq(|ps.keys|, i requires 0 <= i < |ps.keys| => Public(ps.vals[ps.keys[i]]))
  }

  /** Higher scores first. */
  ghost predicate SortedDesc(s: seq<Standing>) {
    forall i, j :: 0 <= i < j < |s| ==> s[i].score >= s[j].score
  }

  /** The entries of `s` with score `k`, in their order in `s`. */
  function WithScore(s: seq<Standing>, k: int): seq<Standing> {
    if s == [] then [] else (if s[0].score == k then [s[0]] else []) + WithScore(s[1..], k)
  }

  /** Puts `x` before the first entry that does not beat it. */
  function Insert(x: Standing, s: seq<Standing>): seq<Standing> {
    if s == [] then [x]
    else if x.score >= s[0].score then [x] + s
    else [s[0]] + Insert(x, s[1..])
  }

  /** The stable descending sort. */
  function SortByScore(s: seq<Standing>): seq<Standing> {
    if s == [] then [] else Insert(s[0], SortByScore(s[1..]))
  }

  lemma {:induction false} InsertPermutes(x: Standing, s: seq<Standing>)
    ensures multiset(Insert(x, s)) == multiset(s) + multiset{x}
  {
    if s != [] && x.score < s[0].score {
      InsertPermutes(x, s[1..]);
      assert s == [s[0]] + s[1..];
    }
  }

  /** WithScore of a sequence with a known first element. */
  lemma WithScoreCons(a: Standing, s: seq<Standing>, k: int)
    ensures WithScore([a] + s, k) == (if a.score == k then [a] else []) + WithScore(s, k)
  {
    assert ([a] + s)[1..] == s;
  }

  /** The tail of a descending sequence is descending. */
  lemma SortedTail(s: seq<Standing>)
    requires s != [] && SortedDesc(s)
    ensures SortedDesc(s[1..])
  {
    forall i, j | 0 <= i < j < |s| - 1 ensures s[1..][i].score >= s[1..][j].score {
      assert s[1..][i] == s[i + 1] && s[1..][j] == s[j + 1];
    }
  }

  lemma {:induction false} InsertKeepsTies(x: Standing, s: seq<Standing>, k: int)
    requires SortedDesc(s)
    ensures WithScore(Insert(x, s), k) == (if x.score == k then [x] else []) + WithScore(s, k)
  {
    if s == [] {
      WithScoreCons(x, [], k);
    } else if x.score >= s[0].score {
      WithScoreCons(x, s, k);
    } else {
      var t := s[1..];
      SortedTail(s);
      InsertKeepsTies(x, t, k);
      var rest := Insert(x, t);
      assert Insert(x, s) == [s[0]] + rest;
      WithScoreCons(s[0], rest, k);
      assert s == [s[0]] + t;
      WithScoreCons(s[0], t, k);
    }
  }

  lemma {:induction false} InsertSorted(x: Standing, s: seq<Standing>)
    requires SortedDesc(s)
    ensures SortedDesc(Insert(x, s))
  {
    if s != [] && x.score < s[0].score {
      var t := s[1..];
      assert SortedDesc(t);
      InsertSorted(x, t);
      InsertPermutes(x, t);
      var r := [s[0]] + Insert(x, t);
      forall j | 1 <= j < |r| ensures r[0].score >= r[j].score {
        var e := r[j];
        assert e in Insert(x, t);
        assert e in multiset(Insert(x, t));
        assert e == x || e in t;
      }
      forall i, j | 0 <= i < j < |r| ensures r[i].score >= r[j].score {
        if i > 0 {
          assert r[i] == Insert(x, t)[i - 1] && r[j] == Insert(x, t)[j - 1];
        }
      }
    }
  }

  /**
   * The ranking is sorted by descending score, is a permutation of its input,
   * and keeps the input order among equal scores: for every score, the
   * entries with that score appear in the ranking exactly as in the input.
   */
  lemma {:induction false} SortByScoreCorrect(s: seq<Standing>)
    ensures SortedDesc(SortByScore(s))
    ensures multiset(SortByScore(s)) == multiset(s)
    ensures forall k :: WithScore(SortByScore(s), k) == WithScore(s, k)
  {
    if s != [] {
      var t := s[1..];
      SortByScoreCorrect(t);
      InsertSorted(s[0], SortByScore(t));
      InsertPermutes(s[0], SortByScore(t));
      assert s == [s[0]] + t;
      forall k ensures WithScore(SortByScore(s), k) == WithScore(s, k) {
        InsertKeepsTies(s[0], SortByScore(t), k);
      }
    }
  }

  /** The ranking of a participants map. */
  function RankingOf(ps: OMap<string, Participant>): (r: seq<Standing>)
    requires ps.Valid()
    ensures SortedDesc(r)
    ensures multiset(r) == multiset(Roster(ps))
    ensures forall k :: WithScore(r, k) == WithScore(Roster(ps), k)
  {
    SortByScoreCorrect(Roster(ps));
    SortByScore(Roster(ps))
  }
}
