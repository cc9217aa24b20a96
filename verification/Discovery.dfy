/** Ranking for discovery (src/discovery.c): a bounded in-place insertion that keeps
    the best candidates, and the budgeted pick over them. */
module Discovery {
  /** A command that may be offered: place is its position in the listing. */
  datatype Candidate = Candidate(place: nat, score: int, cost: nat)

  const BEST := 64

  // ---- the reference: a stable descending sort ----------------------------------------------

  /** Behind every candidate with at least this score. */
  function Insert(s: seq<Candidate>, c: Candidate): (r: seq<Candidate>)
    ensures |r| == |s| + 1
  {
    if s != [] && c.score > s[|s| - 1].score then Insert(s[..|s| - 1], c) + [s[|s| - 1]] else s + [c]
  }

  function Sort(s: seq<Candidate>): seq<Candidate> {
    if s == [] then [] else Insert(Sort(s[..|s| - 1]), s[|s| - 1])
  }

  function Fitting(s: seq<Candidate>, budget: nat): seq<Candidate> {
    if s == [] then []
    else Fitting(s[..|s| - 1], budget) + if s[|s| - 1].cost <= budget then [s[|s| - 1]] else []
  }

  predicate Descending(s: seq<Candidate>) { forall i, j :: 0 <= i < j < |s| ==> s[i].score >= s[j].score }

  /** The candidates with one score, in order. */
  function Scored(s: seq<Candidate>, score: int): seq<Candidate> {
    if s == [] then []
    else Scored(s[..|s| - 1], score) + if s[|s| - 1].score == score then [s[|s| - 1]] else []
  }

  function First(s: seq<Candidate>): seq<Candidate> { if |s| <= BEST then s else s[..BEST] }

  lemma {:induction false} InsertDescends(s: seq<Candidate>, c: Candidate)
    requires Descending(s)
    ensures Descending(Insert(s, c))
    ensures forall i :: 0 <= i < |Insert(s, c)| ==> Insert(s, c)[i] == c || exists j :: 0 <= j < |s| && Insert(s, c)[i] == s[j]
  {
    if s != [] && c.score > s[|s| - 1].score {
      var init, last := s[..|s| - 1], s[|s| - 1];
      InsertDescends(init, c);
      var r := Insert(init, c);
      forall i | 0 <= i < |Insert(s, c)|
        ensures Insert(s, c)[i] == c || exists j :: 0 <= j < |s| && Insert(s, c)[i] == s[j]
        ensures Insert(s, c)[i].score >= last.score
      {
        if i < |r| && r[i] != c {
          var j :| 0 <= j < |init| && r[i] == init[j];
          assert s[j] == r[i];
        } else if i == |r| {
          assert Insert(s, c)[i] == s[|s| - 1];
        }
      }
    } else {
      assert forall i :: 0 <= i < |s| ==> s[i].score >= c.score;
    }
  }

  lemma {:induction false} SortDescends(s: seq<Candidate>)
    ensures Descending(Sort(s)) && |Sort(s)| == |s|
  {
    if s != [] {
      SortDescends(s[..|s| - 1]);
      InsertDescends(Sort(s[..|s| - 1]), s[|s| - 1]);
    }
  }

  lemma {:induction false} InsertStable(s: seq<Candidate>, c: Candidate, score: int)
    requires Descending(s)
    ensures Scored(Insert(s, c), score) == Scored(s, score) + if c.score == score then [c] else []
  {
    var r := Insert(s, c);
    if s != [] && c.score > s[|s| - 1].score {
      var init, last := s[..|s| - 1], s[|s| - 1];
      InsertStable(init, c, score);
      assert r[..|r| - 1] == Insert(init, c);
      if c.score == score {
        NoneScored(s, score);
      }
    } else {
      assert r[..|r| - 1] == s;
    }
  }

  /** Below the last element's score nothing can follow it in a descending list. */
  lemma {:induction false} NoneScored(s: seq<Candidate>, score: int)
    requires s != [] && score > s[|s| - 1].score
    ensures Scored(s, score) == Scored(s[..|s| - 1], score)
  {
  }

  /** Sorting keeps the order of candidates with equal scores. */
  lemma {:induction false} SortStable(s: seq<Candidate>, score: int)
    ensures Scored(Sort(s), score) == Scored(s, score)
  {
    if s != [] {
      SortDescends(s[..|s| - 1]);
      SortStable(s[..|s| - 1], score);
      InsertStable(Sort(s[..|s| - 1]), s[|s| - 1], score);
    }
  }

  ghost predicate Agree(a: seq<Candidate>, b: seq<Candidate>, score: int) { Scored(a, score) == Scored(b, score) }

  /** A descending list is determined by its candidates of each score: Sort is the
      stable descending sort, however it is computed. */
  lemma {:induction false} StableSortUnique(a: seq<Candidate>, b: seq<Candidate>)
    requires Descending(a) && Descending(b) && forall score :: Agree(a, b, score)
    ensures a == b
  {
    if a == [] {
      NoneLeft(b);
    } else {
      SameLast(a, b);
      var p, q := a[..|a| - 1], b[..|b| - 1];
      forall score
        ensures Agree(p, q, score)
      {
        assert Agree(a, b, score);
        assert a[|a| - 1] == b[|b| - 1];
        Unsnoc(a, b, score);
      }
      StableSortUnique(p, q);
      assert a == a[..|a| - 1] + [a[|a| - 1]] && b == b[..|b| - 1] + [b[|b| - 1]];
    }
  }

  lemma {:induction false} NoneLeft(b: seq<Candidate>)
    requires forall score :: Agree([], b, score)
    ensures b == []
  {
    assert b != [] ==> Agree([], b, b[|b| - 1].score);
  }

  lemma {:induction false} Unsnoc(a: seq<Candidate>, b: seq<Candidate>, score: int)
    requires a != [] && b != [] && a[|a| - 1] == b[|b| - 1] && Agree(a, b, score)
    ensures Agree(a[..|a| - 1], b[..|b| - 1], score)
  {
    var x, y := Scored(a[..|a| - 1], score), Scored(b[..|b| - 1], score);
    assert x + [] == x && y + [] == y;
    if a[|a| - 1].score == score {
      assert x == (x + [a[|a| - 1]])[..|x|] && y == (y + [a[|a| - 1]])[..|y|];
    }
  }

  lemma {:induction false} HasScored(s: seq<Candidate>, score: int)
    requires Scored(s, score) != []
    ensures exists i :: 0 <= i < |s| && s[i].score == score
  {
    if s[|s| - 1].score != score {
      HasScored(s[..|s| - 1], score);
      var i :| 0 <= i < |s| - 1 && s[..|s| - 1][i].score == score;
      assert s[i].score == score;
    }
  }

  lemma {:induction false} SameLast(a: seq<Candidate>, b: seq<Candidate>)
    requires Descending(a) && Descending(b) && a != [] && forall score :: Agree(a, b, score)
    ensures b != [] && a[|a| - 1] == b[|b| - 1]
  {
    var x := a[|a| - 1].score;
    assert Agree(a, b, x);
    LastScored(a);
    HasScored(b, x);
    var y := b[|b| - 1].score;
    assert Agree(a, b, y);
    LastScored(b);
    HasScored(a, y);
    hide Scored;
    assert x == y;
  }

  lemma {:induction false} LastScored(s: seq<Candidate>)
    requires s != []
    ensures var r := Scored(s, s[|s| - 1].score); r != [] && r[|r| - 1] == s[|s| - 1]
  {
  }

  // ---- the bounded insertion -----------------------------------------------------------------------

  /** Dropping the tail before or after an insertion gives the same head. */
  lemma {:induction false} InsertPrefix(s: seq<Candidate>, c: Candidate, n: nat)
    requires Descending(s) && n <= |s|
    ensures Insert(s[..n], c)[..n] == Insert(s, c)[..n]
    ensures n > 0 && c.score <= s[n - 1].score ==> Insert(s, c)[..n] == s[..n]
  {
    if n == |s| {
      assert s[..n] == s;
    } else {
      var init, last := s[..|s| - 1], s[|s| - 1];
      assert init[..n] == s[..n];
      InsertPrefix(init, c, n);
      if c.score > last.score {
        assert Insert(s, c)[..n] == Insert(init, c)[..n];
      } else {
        assert Insert(s, c) == s + [c];
        InsertWhere(init, c, n);
      }
    }
  }

  lemma {:induction false} InsertWhere(s: seq<Candidate>, c: Candidate, n: nat)
    requires n <= |s| && Descending(s) && (s != [] ==> c.score <= s[|s| - 1].score)
    ensures Insert(s, c) == s + [c]
  {
  }

  /** What the loop keeps after one more candidate. */
  function Keep(best: seq<Candidate>, c: Candidate, budget: nat): seq<Candidate> {
    if |best| == BEST && c.score <= best[BEST - 1].score then best
    else if c.cost > budget then best
    else if |best| == BEST then Insert(best[..BEST - 1], c)
    else Insert(best, c)
  }

  /** The kept candidates are the first of the stable sort of all that fit. */
  lemma {:induction false} KeepIsTop(s: seq<Candidate>, c: Candidate, budget: nat)
    ensures Keep(First(Sort(Fitting(s, budget))), c, budget) == First(Sort(Fitting(s + [c], budget)))
  {
    var t := Sort(Fitting(s, budget));
    SortDescends(Fitting(s, budget));
    assert (s + [c])[..|s|] == s;
    if c.cost <= budget {
      var f := Fitting(s, budget) + [c];
      assert f[..|f| - 1] == Fitting(s, budget);
      assert Sort(f) == Insert(t, c);
      if |t| >= BEST {
        InsertPrefix(t, c, BEST);
        if c.score > t[BEST - 1].score {
          FullKeep(t, c);
        }
      }
    } else {
      assert Fitting(s + [c], budget) == Fitting(s, budget);
    }
  }

  lemma {:induction false} FullKeep(t: seq<Candidate>, c: Candidate)
    requires Descending(t) && |t| >= BEST && c.score > t[BEST - 1].score
    ensures Insert(t[..BEST][..BEST - 1], c) == Insert(t, c)[..BEST]
  {
    var head := t[..BEST];
    InsertPrefix(t, c, BEST);
    assert Insert(head, c) == Insert(head[..BEST - 1], c) + [head[BEST - 1]];
    assert Insert(head, c)[..BEST] == Insert(head[..BEST - 1], c);
  }

  /** The insertion loop of astools_discover over the array of the best. */
  method Place(best: array<Candidate>, n: nat, c: Candidate)
    requires n < best.Length
    modifies best
    ensures best[..n + 1] == Insert(old(best[..n]), c)
  {
    var k := n;
    ghost var s := best[..n];
    while k > 0 && c.score > best[k - 1].score
      invariant 0 <= k <= n
      invariant best[..k] == s[..k]
      invariant forall i :: k <= i < n ==> best[i + 1] == s[i]
      invariant Insert(s, c) == Insert(s[..k], c) + s[k..]
    {
      best[k] := best[k - 1];
      k := k - 1;
      assert s[..k + 1][..k] == s[..k] && s[k..] == [s[k]] + s[k + 1..];
    }
    best[k] := c;
    assert Insert(s[..k], c) == s[..k] + [c];
    assert best[..n + 1] == s[..k] + [c] + s[k..];
  }

  /** One candidate offered to the kept ones. */
  method Offer(best: array<Candidate>, n: nat, c: Candidate, budget: nat) returns (m: nat)
    requires best.Length == BEST && n <= BEST
    modifies best
    ensures m <= BEST && best[..m] == Keep(old(best[..n]), c, budget)
  {
    hide Insert;
    if n == BEST && c.score <= best[n - 1].score {
      return n;
    }
    if c.cost > budget {
      return n;
    }
    if n == BEST {
      assert best[..n][..BEST - 1] == best[..BEST - 1];
      Place(best, BEST - 1, c);
      return n;
    }
    Place(best, n, c);
    return n + 1;
  }

  method Rank(candidates: seq<Candidate>, budget: nat, best: array<Candidate>) returns (n: nat)
    requires best.Length == BEST
    modifies best
    ensures n <= BEST && best[..n] == First(Sort(Fitting(candidates, budget)))
  {
    hide Keep, Insert;
    n := 0;
    for i := 0 to |candidates|
      invariant n <= BEST && best[..n] == First(Sort(Fitting(candidates[..i], budget)))
    {
      KeepIsTop(candidates[..i], candidates[i], budget);
      assert candidates[..i + 1] == candidates[..i] + [candidates[i]];
      n := Offer(best, n, candidates[i], budget);
    }
    assert candidates[..|candidates|] == candidates;
  }

  // ---- the pick ---------------------------------------------------------------------------------------

  function Total(s: seq<Candidate>): nat { if s == [] then 0 else Total(s[..|s| - 1]) + s[|s| - 1].cost }

  /** Greedy: in order, whatever still fits the budget and the limit. */
  function Pick(s: seq<Candidate>, limit: nat, budget: nat): seq<Candidate> {
    if s == [] then []
    else
      var picks, c := Pick(s[..|s| - 1], limit, budget), s[|s| - 1];
      if |picks| < limit && c.cost + Total(picks) <= budget then picks + [c] else picks
  }

  lemma {:induction false} PickFull(s: seq<Candidate>, i: nat, limit: nat, budget: nat)
    requires i <= |s| && |Pick(s[..i], limit, budget)| >= limit
    ensures Pick(s, limit, budget) == Pick(s[..i], limit, budget)
  {
    if i == |s| {
      assert s[..i] == s;
    } else {
      assert s[..|s| - 1][..i] == s[..i];
      PickFull(s[..|s| - 1], i, limit, budget);
    }
  }

  /** The loop of materialize; omitted is what the selection reports. */
  method Materialize(best: seq<Candidate>, candidates: nat, limit: nat, budget: nat) returns (picks: seq<Candidate>, omitted: int)
    ensures picks == Pick(best, limit, budget) && omitted == candidates - |picks|
  {
    picks := [];
    var left, i := budget, 0;
    while i < |best| && |picks| < limit
      invariant 0 <= i <= |best| && picks == Pick(best[..i], limit, budget)
      invariant left + Total(picks) == budget
    {
      assert best[..i + 1][..i] == best[..i];
      if best[i].cost <= left {
        left := left - best[i].cost;
        assert (picks + [best[i]])[..|picks|] == picks;
        picks := picks + [best[i]];
      }
      i := i + 1;
    }
    if i < |best| {
      PickFull(best, i, limit, budget);
    }
    assert best[..|best|] == best;
    omitted := candidates - |picks|;
  }

  /** The pick stays within budget and limit. */
  lemma {:induction false} PickWithin(s: seq<Candidate>, limit: nat, budget: nat)
    ensures Total(Pick(s, limit, budget)) <= budget && |Pick(s, limit, budget)| <= limit
    ensures |Pick(s, limit, budget)| <= |s|
  {
    if s != [] {
      PickWithin(s[..|s| - 1], limit, budget);
      var picks := Pick(s[..|s| - 1], limit, budget);
      assert (picks + [s[|s| - 1]])[..|picks|] == picks;
    }
  }

  /** A ranked candidate is left out only when the limit was reached before it or it
      did not fit what the earlier picks had left. */
  lemma {:induction false} PickExactly(s: seq<Candidate>, i: nat, limit: nat, budget: nat)
    requires i < |s|
    ensures var before := Pick(s[..i], limit, budget);
            var fits := |before| < limit && s[i].cost <= budget - Total(before);
            && Pick(s[..i + 1], limit, budget) == (if fits then before + [s[i]] else before)
            && Pick(s[..i + 1], limit, budget) <= Pick(s, limit, budget)
    decreases |s|
  {
    assert s[..i + 1][..i] == s[..i];
    if i + 1 == |s| {
      assert s[..i + 1] == s;
    } else {
      var init := s[..|s| - 1];
      assert init[..i] == s[..i] && init[..i + 1] == s[..i + 1];
      PickExactly(init, i, limit, budget);
    }
  }
}
