/**
  The host's scoreboard order (src/pages/PlayQuizHost.tsx, `players.sort((a, b) => b.score - a.score)`).
  `Array.prototype.sort` is stable, so the comparator ranks players by decreasing score and keeps
  players with equal scores in roster order. `Ranking` is that order as a function of the roster;
  `SortByScore` sorts an array in place into it.
*/
module Scoreboard {
  import opened QuizTypes

  /** Scores never increase from the top of the board to the bottom. */
  predicate RankedByScore(s: seq<Player>) {
    forall i, j :: 0 <= i < j < |s| ==> s[i].score >= s[j].score
  }

  /** The players of `s` with score `k`, in the order of `s`. */
  function WithScore(s: seq<Player>, k: int): seq<Player> {
    if s == [] then []
    else WithScore(s[..|s| - 1], k) + (if s[|s| - 1].score == k then [s[|s| - 1]] else [])
  }

  /** Places `p` after the players of `t` whose score is at least its own, scanning from the end of `t`. */
  function InsertByScore(t: seq<Player>, p: Player): (r: seq<Player>)
    ensures |r| == |t| + 1
  {
    if t == [] || t[|t| - 1].score >= p.score then t + [p]
    else InsertByScore(t[..|t| - 1], p) + [t[|t| - 1]]
  }

  /** The scoreboard order of a roster: each player in turn is inserted into the ranking of those before it. */
  function Ranking(s: seq<Player>): (r: seq<Player>)
    ensures |r| == |s|
  {
    if s == [] then [] else InsertByScore(Ranking(s[..|s| - 1]), s[|s| - 1])
  }

  /** Insertion keeps every player and adds `p`. */
  lemma {:induction false} InsertByScorePermutes(t: seq<Player>, p: Player)
    ensures multiset(InsertByScore(t, p)) == multiset(t) + multiset{p}
  {
    if t == [] || t[|t| - 1].score >= p.score {
    } else {
      var t' := t[..|t| - 1];
      InsertByScorePermutes(t', p);
      assert t == t' + [t[|t| - 1]];
    }
  }

  /** Insertion into a ranked list gives a ranked list. */
  lemma {:induction false} InsertByScoreRanked(t: seq<Player>, p: Player)
    requires RankedByScore(t)
    ensures RankedByScore(InsertByScore(t, p))
  {
    if t == [] || t[|t| - 1].score >= p.score {
    } else {
      var t' := t[..|t| - 1];
      var last := t[|t| - 1];
      var r' := InsertByScore(t', p);
      InsertByScoreRanked(t', p);
      InsertByScorePermutes(t', p);
      forall i | 0 <= i < |r'| ensures r'[i].score >= last.score {
        assert r'[i] in multiset(r');
        if r'[i] != p {
          assert r'[i] in multiset(t');
          var j :| 0 <= j < |t'| && t'[j] == r'[i];
          assert t[j] == t'[j];
        }
      }
    }
  }

  /** Insertion adds `p` after every player of its own score: among the players of any one score
      the order of `t` is kept, and `p` comes last. */
  lemma {:induction false} InsertByScoreStable(t: seq<Player>, p: Player, k: int)
    ensures WithScore(InsertByScore(t, p), k) == WithScore(t, k) + (if p.score == k then [p] else [])
  {
    if t == [] || t[|t| - 1].score >= p.score {
      assert (t + [p])[..|t|] == t;
    } else {
      var t' := t[..|t| - 1];
      var r' := InsertByScore(t', p);
      InsertByScoreStable(t', p, k);
      assert (r' + [t[|t| - 1]])[..|r'|] == r';
    }
  }

  /** The scoreboard lists every player of the roster exactly once. */
  lemma {:induction false} RankingPermutes(s: seq<Player>)
    ensures multiset(Ranking(s)) == multiset(s)
  {
    if s != [] {
      var s' := s[..|s| - 1];
      RankingPermutes(s');
      InsertByScorePermutes(Ranking(s'), s[|s| - 1]);
      assert s == s' + [s[|s| - 1]];
    }
  }

  /** The scoreboard is ordered by decreasing score. */
  lemma {:induction false} RankingRanked(s: seq<Player>)
    ensures RankedByScore(Ranking(s))
  {
    if s != [] {
      RankingRanked(s[..|s| - 1]);
      InsertByScoreRanked(Ranking(s[..|s| - 1]), s[|s| - 1]);
    }
  }

  /** The sort is stable: players with equal scores keep their roster order. */
  lemma {:induction false} RankingStable(s: seq<Player>, k: int)
    ensures WithScore(Ranking(s), k) == WithScore(s, k)
  {
    if s != [] {
      var s' := s[..|s| - 1];
      RankingStable(s', k);
      InsertByScoreStable(Ranking(s'), s[|s| - 1], k);
    }
  }

  /** A roster that is already ranked is left as it is, so sorting again on the next render of the
      scoreboard changes nothing. */
  lemma {:induction false} RankingOfRanked(s: seq<Player>)
    requires RankedByScore(s)
    ensures Ranking(s) == s
  {
    if s != [] {
      var s', p := s[..|s| - 1], s[|s| - 1];
      assert RankedByScore(s') by {
        forall i, j | 0 <= i < j < |s'| ensures s'[i].score >= s'[j].score {
          assert s'[i] == s[i] && s'[j] == s[j];
        }
      }
      RankingOfRanked(s');
      assert Ranking(s) == InsertByScore(s', p);
      assert s' == [] || s[|s'| - 1].score >= p.score;
      assert s' + [p] == s;
    }
  }

  /** Sorting twice is sorting once. */
  lemma RankingIdempotent(s: seq<Player>)
    ensures Ranking(Ranking(s)) == Ranking(s)
  {
    RankingRanked(s);
    RankingOfRanked(Ranking(s));
  }

  /** What one pass of the shifting loop builds: `p` goes in at the first position `j` after which every
      player of `t` scores less than `p`, and before which the last player scores at least as much. */
  lemma {:induction false} InsertByScoreAt(t: seq<Player>, p: Player, j: nat)
    requires j <= |t|
    requires j == 0 || t[j - 1].score >= p.score
    requires forall m :: j <= m < |t| ==> t[m].score < p.score
    ensures InsertByScore(t, p) == t[..j] + [p] + t[j..]
    decreases |t| - j
  {
    if j == |t| {
      assert t[..j] == t && t[j..] == [];
    } else {
      var t' := t[..|t| - 1];
      InsertByScoreAt(t', p, j);
      assert t'[..j] == t[..j];
      assert t'[j..] + [t[|t| - 1]] == t[j..];
    }
  }

  /** Sorts the roster in place into the scoreboard order, by insertion: each player in turn is moved
      left past the players scoring strictly less. */
  method SortByScore(a: array<Player>)
    modifies a
    ensures a[..] == Ranking(old(a[..]))
  {
    ghost var s := a[..];
    var i := 0;
    while i < a.Length
      invariant 0 <= i <= a.Length
      invariant a[..i] == Ranking(s[..i])
      invariant a[i..] == s[i..]
    {
      InsertLast(a, i);
      assert s[..i + 1][..i] == s[..i];
      i := i + 1;
    }
    assert a[..] == a[..a.Length] && s == s[..a.Length];
  }

  /** One step of `SortByScore`: moves `a[i]` left into the prefix `a[..i]`, past the players scoring
      strictly less, and leaves the rest of the array alone. */
  method InsertLast(a: array<Player>, i: nat)
    requires i < a.Length
    modifies a
    ensures a[..i + 1] == InsertByScore(old(a[..i]), old(a[i]))
    ensures a[i + 1..] == old(a[i + 1..])
  {
    var p := a[i];
    ghost var t := a[..i];
    var j := ShiftLower(a, i, p);
    a[j] := p;
    InsertByScoreAt(t, p, j);
    assert a[..i + 1] == t[..j] + [p] + t[j..];
  }

  /** The shifting loop of `InsertLast`: moves the players of `a[..i]` that score less than `p` one
      place to the right, from the end, and returns the gap it leaves at `j`. */
  method ShiftLower(a: array<Player>, i: nat, p: Player) returns (j: nat)
    requires i < a.Length
    modifies a
    ensures j <= i
    ensures j == 0 || a[j - 1].score >= p.score
    ensures forall m :: j <= m < i ==> old(a[m]).score < p.score
    ensures forall m :: 0 <= m < j ==> a[m] == old(a[m])
    ensures forall m :: j < m <= i ==> a[m] == old(a[m - 1])
    ensures forall m :: i < m < a.Length ==> a[m] == old(a[m])
  {
    j := i;
    while j > 0 && a[j - 1].score < p.score
      invariant j <= i
      invariant forall m :: 0 <= m < j ==> a[m] == old(a[m])
      invariant forall m :: j < m <= i ==> a[m] == old(a[m - 1])
      invariant forall m :: i < m < a.Length ==> a[m] == old(a[m])
      invariant forall m :: j <= m < i ==> old(a[m]).score < p.score
    {
      a[j] := a[j - 1];
      j := j - 1;
    }
  }
}
