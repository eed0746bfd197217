/**
 * The match server's leaderboard: a dictionary from player name to best
 * score, kept in the dictionary's insertion order, and its ranking
 * (`sort_leaderboard`): entries by score, highest first, with entries of
 * equal score left in dictionary order, as Python's stable `sorted(...,
 * reverse=True)` leaves them.
 */
module Leaderboard {
  import opened Options
  import opened OrderedMaps

  type Scores = OrderedMap<string, int>

  /** One ranked line, `{"name": ..., "score": ...}`. */
  datatype Entry = Entry(name: string, score: int)

  const DEFAULT_NAME := "noname"
  const DEFAULT_SCORE := 0

  /** The dictionary's items in iteration order, as entries. */
  function Entries(board: Scores): (r: seq<Entry>)
    requires board.Valid()
    ensures |r| == |board.keys|
    ensures forall i :: 0 <= i < |r| ==> r[i] == Entry(board.keys[i], board.values[board.keys[i]])
  {
    var items := board.Items();
    seq(|items|, i requires 0 <= i < |items| => Entry(items[i].0, items[i].1))
  }

  predicate NonIncreasing(s: seq<Entry>) {
    forall i, j :: 0 <= i < j < |s| ==> s[i].score >= s[j].score
  }

  /** The entries of `s` whose score is `v`, in their order in `s`. */
  function WithScore(s: seq<Entry>, v: int): (r: seq<Entry>)
    ensures forall e :: e in r ==> e in s && e.score == v
  {
    if s == [] then []
    else if s[0].score == v then [s[0]] + WithScore(s[1..], v)
    else WithScore(s[1..], v)
  }

  lemma {:induction false} WithScoreAppend(a: seq<Entry>, b: seq<Entry>, v: int)
    ensures WithScore(a + b, v) == WithScore(a, v) + WithScore(b, v)
  {
    if a == [] {
      assert a + b == b;
    } else {
      assert (a + b)[1..] == a[1..] + b;
      WithScoreAppend(a[1..], b, v);
    }
  }

  /**
   * Inserts `e` in front of the first entry whose score is not above its
   * own: `e` goes after every higher score and before every equal one.
   */
  function InsertDesc(e: Entry, s: seq<Entry>): (r: seq<Entry>)
    ensures multiset(r) == multiset(s) + multiset{e}
  {
    if s == [] || s[0].score <= e.score then [e] + s
    else
      assert s == [s[0]] + s[1..];
      [s[0]] + InsertDesc(e, s[1..])
  }

  /** Insertion keeps every score at or below a bound that all the inputs respect. */
  lemma {:induction false} InsertDescBounded(e: Entry, s: seq<Entry>, bound: int)
    requires e.score <= bound && forall k :: 0 <= k < |s| ==> s[k].score <= bound
    ensures forall k :: 0 <= k < |InsertDesc(e, s)| ==> InsertDesc(e, s)[k].score <= bound
  {
    if s != [] && s[0].score > e.score {
      InsertDescBounded(e, s[1..], bound);
      var rest := InsertDesc(e, s[1..]);
      assert InsertDesc(e, s) == [s[0]] + rest;
    }
  }

  lemma {:induction false} InsertDescSorted(e: Entry, s: seq<Entry>)
    requires NonIncreasing(s)
    ensures NonIncreasing(InsertDesc(e, s))
  {
    if s != [] && s[0].score > e.score {
      var tail := s[1..];
      assert NonIncreasing(tail) by {
        forall i, j | 0 <= i < j < |tail| ensures tail[i].score >= tail[j].score {
          assert tail[i] == s[i + 1] && tail[j] == s[j + 1];
        }
      }
      InsertDescSorted(e, tail);
      assert forall k :: 0 <= k < |tail| ==> tail[k].score <= s[0].score by {
        forall k | 0 <= k < |tail| ensures tail[k].score <= s[0].score {
          assert tail[k] == s[k + 1];
        }
      }
      InsertDescBounded(e, tail, s[0].score);
      var rest := InsertDesc(e, tail);
      var r := [s[0]] + rest;
      assert InsertDesc(e, s) == r;
      forall i, j | 0 <= i < j < |r| ensures r[i].score >= r[j].score {
        assert r[j] == rest[j - 1];
        if i > 0 {
          assert r[i] == rest[i - 1];
        }
      }
    }
  }

  /** A stable sort on score, highest first. */
  function SortDesc(s: seq<Entry>): (r: seq<Entry>)
    ensures multiset(r) == multiset(s)
    ensures NonIncreasing(r)
  {
    if s == [] then []
    else
      assert s == [s[0]] + s[1..];
      InsertDescSorted(s[0], SortDesc(s[1..]));
      InsertDesc(s[0], SortDesc(s[1..]))
  }

  lemma {:induction false} InsertDescStable(e: Entry, s: seq<Entry>, v: int)
    ensures WithScore(InsertDesc(e, s), v) == WithScore([e] + s, v)
  {
    if s != [] && s[0].score > e.score {
      var rest := s[1..];
      assert s == [s[0]] + rest;
      InsertDescStable(e, rest, v);
      WithScoreAppend([s[0]], InsertDesc(e, rest), v);
      WithScoreAppend([e], rest, v);
      WithScoreAppend([s[0]], rest, v);
      WithScoreAppend([e], s, v);
    }
  }

  /** `sort_leaderboard`: the ranked entries of the dictionary. */
  function SortLeaderboard(board: Scores): (r: seq<Entry>)
    requires board.Valid()
    ensures |r| == |board.keys|
    ensures multiset(r) == multiset(Entries(board))
    ensures NonIncreasing(r)
  {
    var r := SortDesc(Entries(board));
    assert |r| == |multiset(r)| == |multiset(Entries(board))|;
    r
  }

  /** Entries of equal score keep the order they had before sorting. */
  lemma {:induction false} SortDescStable(s: seq<Entry>, v: int)
    ensures WithScore(SortDesc(s), v) == WithScore(s, v)
  {
    if s != [] {
      SortDescStable(s[1..], v);
      InsertDescStable(s[0], SortDesc(s[1..]), v);
      WithScoreAppend([s[0]], SortDesc(s[1..]), v);
      WithScoreAppend([s[0]], s[1..], v);
      assert s == [s[0]] + s[1..];
    }
  }

  /**
   * The ranking lists every dictionary entry once, with its own score,
   * highest score first, and entries of equal score in dictionary order.
   */
  lemma SortLeaderboardRanks(board: Scores, v: int)
    requires board.Valid()
    ensures multiset(SortLeaderboard(board)) == multiset(Entries(board))
    ensures NonIncreasing(SortLeaderboard(board))
    ensures WithScore(SortLeaderboard(board), v) == WithScore(Entries(board), v)
    ensures forall e :: e in SortLeaderboard(board) <==> e.name in board.values && board.values[e.name] == e.score
  {
    SortDescStable(Entries(board), v);
    var es := Entries(board);
    forall e ensures e in SortLeaderboard(board) <==> e.name in board.values && board.values[e.name] == e.score {
      calc {
        e in SortLeaderboard(board);
        e in multiset(SortLeaderboard(board));
        e in multiset(es);
        e in es;
      }
      if e.name in board.values && board.values[e.name] == e.score {
        var i :| 0 <= i < |board.keys| && board.keys[i] == e.name;
        assert es[i] == e;
      }
    }
  }

  /**
   * The score update of `submit_score`: the name's score becomes `score`
   * when the name is new or its stored score is lower.
   */
  function KeepBest(board: Scores, name: string, score: int): (r: Scores)
    requires board.Valid()
    ensures r.Valid()
    ensures name !in board.values ==> r.Get(name) == Some(score)
    ensures name in board.values ==> r.Get(name) == Some(if board.values[name] < score then score else board.values[name])
    ensures forall other :: other != name ==> r.Get(other) == board.Get(other)
    ensures name in board.values ==> r.keys == board.keys
    ensures name !in board.values ==> r.keys == board.keys + [name]
  {
    if name !in board.values || board.values[name] < score then board.Put(name, score)
    else board
  }

  /** A stored score never goes down. */
  lemma KeepBestMonotone(board: Scores, name: string, score: int, n: string)
    requires board.Valid() && n in board.values
    ensures n in KeepBest(board, name, score).values
    ensures KeepBest(board, name, score).values[n] >= board.values[n]
  {
    assert KeepBest(board, name, score).Get(n).Some?;
  }

  /** Submitting a score twice is the same as submitting it once. */
  lemma KeepBestIdempotent(board: Scores, name: string, score: int)
    requires board.Valid()
    ensures KeepBest(KeepBest(board, name, score), name, score) == KeepBest(board, name, score)
  {
  }

  /** The leaderboard file's content, updated in place by `submit_score`. */
  class ScoreFile {
    var board: Scores

    ghost predicate Valid() reads this {
      board.Valid()
    }

    constructor ()
      ensures Valid() && board.keys == [] && board.values == map[]
    {
      board := OrderedMap([], map[]);
    }

    /**
     * `submit_score` without the file and HTTP layers: a missing name is
     * "noname", a missing score 0; the returned ranking is what is
     * broadcast as `leaderboard_updated`.
     */
    method SubmitScore(name: Option<string>, score: Option<int>) returns (ranking: seq<Entry>)
      requires Valid()
      modifies this
      ensures Valid()
      ensures board == KeepBest(old(board), name.GetOr(DEFAULT_NAME), score.GetOr(DEFAULT_SCORE))
      ensures ranking == SortLeaderboard(board)
    {
      var n := name.GetOr(DEFAULT_NAME);
      var s := score.GetOr(DEFAULT_SCORE);
      if n !in board.values || board.values[n] < s {
        board := board.Put(n, s);
      }
      ranking := SortLeaderboard(board);
    }
  }
}
