/** Duplicate detection over a list of names (src/types.c): pairwise for short
    lists, an open-addressed table of positions for long ones. */
module Duplicates {
  import opened Text

  /** Two places hold the same name; absent names count for nothing. */
  ghost predicate Repeats(names: seq<Option<string>>) {
    exists i, j :: 0 <= i < j < |names| && names[i].Some? && names[i] == names[j]
  }

  const PAIRWISE_MAX := 64

  /** The name at place m occurs again later. */
  ghost predicate Recurs(names: seq<Option<string>>, m: nat) {
    m < |names| && names[m].Some? && exists k :: m < k < |names| && names[k] == names[m]
  }

  /** The name at place j occurred before. */
  ghost predicate Recalls(names: seq<Option<string>>, j: nat) {
    j < |names| && names[j].Some? && exists i :: 0 <= i < j && names[i] == names[j]
  }

  /** r is the name at the smallest place whose name recurs, or None when no name does. */
  ghost predicate FirstRecurring(names: seq<Option<string>>, r: Option<string>) {
    if r.None? then !Repeats(names)
    else exists m: nat :: Recurs(names, m) && names[m] == r && forall l: nat :: l < m ==> !Recurs(names, l)
  }

  /** r is the name at the smallest place that repeats an earlier one, or None when none does. */
  ghost predicate FirstRecalling(names: seq<Option<string>>, r: Option<string>) {
    if r.None? then !Repeats(names)
    else exists j: nat :: Recalls(names, j) && names[j] == r && forall l: nat :: l < j ==> !Recalls(names, l)
  }

  /** dup_str_pairwise */
  method Pairwise(names: seq<Option<string>>) returns (r: Option<string>)
    ensures FirstRecurring(names, r)
  {
    for i := 0 to |names|
      invariant forall l: nat :: l < i ==> !Recurs(names, l)
    {
      if names[i].Some? {
        for j := i + 1 to |names|
          invariant forall k :: i < k < j ==> names[k] != names[i]
        {
          if names[i] == names[j] {
            assert Recurs(names, i);
            return names[i];
          }
        }
      }
      assert !Recurs(names, i);
    }
    if Repeats(names) {
      var i: nat, j: nat :| i < j < |names| && names[i].Some? && names[i] == names[j];
      assert Recurs(names, i);
    }
    return None;
  }

  // ---- the probe table ------------------------------------------------------------------

  /** The slot d steps after h, cyclically. */
  function At(h: nat, d: nat, cap: nat): (r: nat)
    requires h < cap && d < cap
    ensures r < cap
  {
    if h + d < cap then h + d else h + d - cap
  }

  /** How far z lies after h. */
  function Distance(h: nat, z: nat, cap: nat): (d: nat)
    requires h < cap && z < cap
    ensures d < cap && At(h, d, cap) == z
  {
    if h <= z then z - h else z + cap - h
  }

  function Home(hash: string -> nat, name: string, cap: nat): (h: nat)
    requires cap > 0
    ensures h < cap
  {
    hash(name) % cap
  }

  /** Name k stands dist[k] steps after its home, and no slot before it is empty. */
  ghost predicate Placed(slots: seq<nat>, names: seq<Option<string>>, hash: string -> nat, k: nat, d: nat)
    requires k < |names| && names[k].Some? && |slots| > 0
  {
    && d < |slots|
    && slots[At(Home(hash, names[k].value, |slots|), d, |slots|)] == k + 1
    && forall e :: 0 <= e <= d ==> slots[At(Home(hash, names[k].value, |slots|), e, |slots|)] != 0
  }

  /** Every taken slot marks one of the first n names, each name at most once. */
  ghost predicate Marked(slots: seq<nat>, names: seq<Option<string>>, n: nat) {
    && n <= |names|
    && (forall h :: 0 <= h < |slots| ==> slots[h] <= n && (slots[h] > 0 ==> names[slots[h] - 1].Some?))
    && (forall h, g :: 0 <= h < g < |slots| && slots[h] > 0 ==> slots[h] != slots[g])
  }

  /** Each of the first n names stands where a probe for it looks. */
  ghost predicate AllPlaced(slots: seq<nat>, names: seq<Option<string>>, hash: string -> nat, n: nat, dist: seq<nat>)
    requires |slots| > 0
  {
    n <= |names| && |dist| == n && forall k :: 0 <= k < n && names[k].Some? ==> Placed(slots, names, hash, k, dist[k])
  }

  ghost predicate Unrepeated(names: seq<Option<string>>, n: nat)
    requires n <= |names|
  {
    forall a, b :: 0 <= a < b < n && names[a].Some? ==> names[a] != names[b]
  }

  /** The table after the first n names, none of them repeated. */
  ghost predicate Table(slots: seq<nat>, names: seq<Option<string>>, hash: string -> nat, n: nat, dist: seq<nat>)
    requires |slots| > 0
  {
    Marked(slots, names, n) && AllPlaced(slots, names, hash, n, dist) && Unrepeated(names, n)
  }

  lemma {:induction false} DistinctFit(s: seq<nat>, n: nat)
    requires forall i :: 0 <= i < |s| ==> 0 < s[i] <= n
    requires forall i, j :: 0 <= i < j < |s| ==> s[i] != s[j]
    ensures |s| <= n
  {
    if s != [] {
      assert 0 < s[0] <= n;
      if i :| 0 <= i < |s| && s[i] == n {
        var t := s[..i] + s[i + 1..];
        assert forall k :: 0 <= k < |t| ==> t[k] == s[if k < i then k else k + 1];
        DistinctFit(t, n - 1);
      } else {
        DistinctFit(s, n - 1);
      }
    }
  }

  /** A table with fewer names than slots has an empty slot, so every probe ends. */
  lemma {:induction false} EmptySlot(slots: seq<nat>, names: seq<Option<string>>, hash: string -> nat, n: nat, dist: seq<nat>) returns (z: nat)
    requires |slots| > n && Table(slots, names, hash, n, dist)
    ensures z < |slots| && slots[z] == 0
  {
    if forall h :: 0 <= h < |slots| ==> slots[h] > 0 {
      DistinctFit(slots, n);
    }
    z :| 0 <= z < |slots| && slots[z] == 0;
  }

  /** A probe that met no equal name before an empty slot proves the name is new. */
  lemma {:induction false} NotThere(slots: seq<nat>, names: seq<Option<string>>, hash: string -> nat, n: nat, dist: seq<nat>, d: nat)
    requires |slots| > 0 && n < |names| && names[n].Some? && Table(slots, names, hash, n, dist) && d < |slots|
    requires var h := Home(hash, names[n].value, |slots|);
             && slots[At(h, d, |slots|)] == 0
             && forall e :: 0 <= e < d ==> Passed(slots, names, At(h, e, |slots|), names[n])
    ensures forall k :: 0 <= k < n ==> names[k] != names[n]
  {
    var h := Home(hash, names[n].value, |slots|);
    forall k | 0 <= k < n
      ensures names[k] != names[n]
    {
      if names[k].Some? && Home(hash, names[k].value, |slots|) == h {
        assert Placed(slots, names, hash, k, dist[k]);
        assert dist[k] < d;
        assert Passed(slots, names, At(h, dist[k], |slots|), names[n]);
      }
    }
  }

  /** Filling an empty slot breaks no probe chain. */
  lemma {:induction false} StillPlaced(slots: seq<nat>, names: seq<Option<string>>, hash: string -> nat, k: nat, d: nat, z: nat, v: nat)
    requires k < |names| && names[k].Some? && z < |slots| && Placed(slots, names, hash, k, d) && slots[z] == 0 && v > 0
    ensures Placed(slots[z := v], names, hash, k, d)
  {
    hide Home, At;
  }

  lemma {:induction false} NewlyPlaced(slots: seq<nat>, names: seq<Option<string>>, hash: string -> nat, n: nat, d: nat, z: nat)
    requires |slots| > 0 && n < |names| && names[n].Some? && d < |slots|
    requires var h := Home(hash, names[n].value, |slots|);
             z == At(h, d, |slots|) && slots[z] == 0 && forall e :: 0 <= e < d ==> Passed(slots, names, At(h, e, |slots|), names[n])
    ensures Placed(slots[z := n + 1], names, hash, n, d)
  {
    hide Home;
    var h := Home(hash, names[n].value, |slots|);
    assert forall e :: 0 <= e < d ==> At(h, e, |slots|) != z && slots[At(h, e, |slots|)] > 0;
  }

  lemma {:induction false} MarkedStays(slots: seq<nat>, names: seq<Option<string>>, n: nat, z: nat)
    requires Marked(slots, names, n) && n < |names| && names[n].Some? && z < |slots| && slots[z] == 0
    ensures Marked(slots[z := n + 1], names, n + 1)
  {
  }

  /** Taking an empty slot keeps the table. */
  lemma {:induction false} Insert(slots: seq<nat>, names: seq<Option<string>>, hash: string -> nat, n: nat, dist: seq<nat>, z: nat, d: nat)
    requires z < |slots| && slots[z] == 0 && n < |names| && names[n].Some?
    requires Table(slots, names, hash, n, dist) && Placed(slots[z := n + 1], names, hash, n, d)
    requires forall k :: 0 <= k < n ==> names[k] != names[n]
    ensures Table(slots[z := n + 1], names, hash, n + 1, dist + [d])
  {
    hide Placed, Marked, AllPlaced, Home, At;
    MarkedStays(slots, names, n, z);
    PlacedStays(slots, names, hash, n, dist, z, d);
  }

  lemma {:induction false} PlacedStays(slots: seq<nat>, names: seq<Option<string>>, hash: string -> nat, n: nat, dist: seq<nat>, z: nat, d: nat)
    requires z < |slots| && slots[z] == 0 && n < |names| && names[n].Some?
    requires AllPlaced(slots, names, hash, n, dist) && Placed(slots[z := n + 1], names, hash, n, d)
    ensures AllPlaced(slots[z := n + 1], names, hash, n + 1, dist + [d])
  {
    hide Placed;
    forall k | 0 <= k <= n && names[k].Some?
      ensures Placed(slots[z := n + 1], names, hash, k, (dist + [d])[k])
    {
      if k < n {
        StillPlaced(slots, names, hash, k, dist[k], z, n + 1);
      }
    }
  }

  /** Passing over an absent name keeps the table. */
  lemma {:induction false} Pass(slots: seq<nat>, names: seq<Option<string>>, hash: string -> nat, n: nat, dist: seq<nat>)
    requires |slots| > 0 && n < |names| && names[n].None? && Table(slots, names, hash, n, dist)
    ensures Table(slots, names, hash, n + 1, dist + [0])
  {
    hide Placed, Home, At;
    assert forall k :: 0 <= k < n ==> (dist + [0])[k] == dist[k];
  }

  /** Probing for name i: the distance of an empty slot, or a repetition. */
  method Probe(slots: array<nat>, names: seq<Option<string>>, hash: string -> nat, i: nat, ghost dist: seq<nat>)
    returns (free: nat, repeated: bool, ghost d: nat)
    requires i < |names| && names[i].Some? && slots.Length > i && Table(slots[..], names, hash, i, dist)
    ensures repeated ==> names[i] in names[..i]
    ensures !repeated ==>
              && d < slots.Length && free == At(Home(hash, names[i].value, slots.Length), d, slots.Length) && slots[free] == 0
              && forall e :: 0 <= e < d ==>
                   Passed(slots[..], names, At(Home(hash, names[i].value, slots.Length), e, slots.Length), names[i])
  {
    hide Table;
    var cap, name := slots.Length, names[i].value;
    ghost var home, table := Home(hash, name, cap), slots[..];
    SlotsHold(table, names, hash, i, dist);
    ghost var z := EmptySlot(table, names, hash, i, dist);
    ghost var end := Distance(home, z, cap);
    assert forall h :: 0 <= h < cap ==> slots[h] == table[h];
    free, repeated, d := Home(hash, name, cap), false, 0;
    while slots[free] != 0
      invariant d <= end < cap && free == At(home, d, cap)
      invariant forall e :: 0 <= e < d ==> Passed(table, names, At(home, e, cap), names[i])
      decreases end - d
    {
      if names[slots[free] - 1] == names[i] {
        assert names[..i][table[free] - 1] == Some(name);
        return free, true, d;
      }
      assert Passed(table, names, At(home, d, cap), names[i]);
      assert d != end;
      free := if free + 1 == cap then 0 else free + 1;
      d := d + 1;
    }
  }

  /** A slot the probe goes past: taken, by another name. */
  ghost predicate Passed(slots: seq<nat>, names: seq<Option<string>>, g: nat, name: Option<string>)
    requires g < |slots|
  {
    0 < slots[g] <= |names| && names[slots[g] - 1] != name
  }

  lemma {:induction false} SlotsHold(slots: seq<nat>, names: seq<Option<string>>, hash: string -> nat, n: nat, dist: seq<nat>)
    requires |slots| > 0 && Table(slots, names, hash, n, dist)
    ensures n <= |names| && forall h :: 0 <= h < |slots| ==> slots[h] <= n
  {
  }

  lemma {:induction false} EmptyTable(slots: seq<nat>, names: seq<Option<string>>, hash: string -> nat)
    requires |slots| > 0 && forall h :: 0 <= h < |slots| ==> slots[h] == 0
    ensures Table(slots, names, hash, 0, [])
  {
  }

  /** A table of all names has found none of them twice. */
  lemma {:induction false} FullTable(slots: seq<nat>, names: seq<Option<string>>, hash: string -> nat, dist: seq<nat>)
    requires |slots| > 0 && Table(slots, names, hash, |names|, dist)
    ensures !Repeats(names)
  {
    hide Marked, AllPlaced;
  }

  /** The hashed branch of dup_str. */
  method Hashed(names: seq<Option<string>>, hash: string -> nat) returns (r: Option<string>)
    ensures FirstRecalling(names, r)
  {
    var cap := 1;
    while cap < 2 * |names|
      invariant cap >= 1
    {
      cap := 2 * cap;
    }
    var slots := new nat[cap](_ => 0);
    ghost var dist := [];
    EmptyTable(slots[..], names, hash);
    hide Table, Placed, Passed, Home;
    for i := 0 to |names|
      invariant slots.Length == cap && cap >= 2 * |names|
      invariant Table(slots[..], names, hash, i, dist)
      invariant forall l: nat :: l < i ==> !Recalls(names, l)
    {
      if names[i].None? {
        Pass(slots[..], names, hash, i, dist);
        dist := dist + [0];
      } else {
        var free, repeated, d := Probe(slots, names, hash, i, dist);
        if repeated {
          assert Recalls(names, i);
          return names[i];
        }
        NotThere(slots[..], names, hash, i, dist, d);
        NewlyPlaced(slots[..], names, hash, i, d, free);
        Insert(slots[..], names, hash, i, dist, free, d);
        ghost var before := slots[..];
        slots[free] := i + 1;
        ghost var mark: nat := i + 1;
        assert slots[..] == before[free := mark];
        dist := dist + [d];
      }
    }
    FullTable(slots[..], names, hash, dist);
    return None;
  }

  /** dup_str: short lists, and lists for which no table can be allocated, are compared
      pairwise; the hash function has no influence. */
  method FindDuplicate(names: seq<Option<string>>, hash: string -> nat, memory: bool) returns (r: Option<string>)
    ensures if |names| <= PAIRWISE_MAX || !memory then FirstRecurring(names, r) else FirstRecalling(names, r)
    ensures r.Some? <==> Repeats(names)
  {
    if |names| < 2 {
      return None;
    }
    if |names| <= PAIRWISE_MAX || !memory {
      r := Pairwise(names);
    } else {
      r := Hashed(names, hash);
    }
  }

  // ---- which name is reported ----------------------------------------------------------------

  /** Between place m and the next occurrence of its name, some other name is repeated. */
  ghost predicate Encloses(names: seq<Option<string>>, m: nat, p: nat, q: nat) {
    && m < p < q < |names|
    && Recurs(names, m)
    && names[p].Some? && names[p] == names[q]
    && forall k :: m < k <= q ==> names[k] != names[m]
  }

  /** The two orders of search report different names exactly when the first recurring name
      encloses a repetition. */
  lemma {:induction false} ReportsDiffer(names: seq<Option<string>>, a: Option<string>, b: Option<string>)
    requires FirstRecurring(names, a) && FirstRecalling(names, b)
    ensures a != b <==> exists m: nat, p: nat, q: nat :: Encloses(names, m, p, q) && forall l: nat :: l < m ==> !Recurs(names, l)
  {
    if a.None? || b.None? {
      NoneRecurs(names, a, b);
    } else {
      var m: nat :| Recurs(names, m) && names[m] == a && forall l: nat :: l < m ==> !Recurs(names, l);
      var j: nat :| Recalls(names, j) && names[j] == b && forall l: nat :: l < j ==> !Recalls(names, l);
      if a != b {
        var i := EnclosedIfDifferent(names, m, j);
      }
      forall n: nat, p: nat, q: nat | Encloses(names, n, p, q) && forall l: nat :: l < n ==> !Recurs(names, l)
        ensures a != b
      {
        assert n == m;
        DifferentIfEnclosed(names, m, p, q, j);
      }
    }
  }

  lemma {:induction false} EnclosedIfDifferent(names: seq<Option<string>>, m: nat, j: nat) returns (i: nat)
    requires Recurs(names, m) && forall l: nat :: l < m ==> !Recurs(names, l)
    requires Recalls(names, j) && forall l: nat :: l < j ==> !Recalls(names, l)
    requires names[m] != names[j]
    ensures Encloses(names, m, i, j)
  {
    i :| 0 <= i < j && names[i] == names[j];
    assert Recurs(names, i);
    forall k: nat | m < k <= j
      ensures names[k] != names[m]
    {
      assert names[k] == names[m] ==> Recalls(names, k);
    }
  }

  lemma {:induction false} DifferentIfEnclosed(names: seq<Option<string>>, m: nat, p: nat, q: nat, j: nat)
    requires Encloses(names, m, p, q) && forall l: nat :: l < m ==> !Recurs(names, l)
    requires Recalls(names, j) && forall l: nat :: l < j ==> !Recalls(names, l)
    ensures names[m] != names[j]
  {
    assert Recalls(names, q);
    assert j <= q;
    if names[j] == names[m] {
      assert j < m ==> Recurs(names, j);
      var i: nat :| i < j && names[i] == names[j];
      assert Recurs(names, i);
    }
  }

  /** One search reports nothing exactly when no name recurs, and then so does the other. */
  lemma {:induction false} NoneRecurs(names: seq<Option<string>>, a: Option<string>, b: Option<string>)
    requires FirstRecurring(names, a) && FirstRecalling(names, b) && (a.None? || b.None?)
    ensures a == b == None && forall m: nat :: !Recurs(names, m)
  {
    forall m: nat | Recurs(names, m)
      ensures Repeats(names)
    {
    }
    forall j: nat | Recalls(names, j)
      ensures Repeats(names)
    {
    }
  }

  /** A long list whose first name encloses a repetition. */
  function Crossed(): (names: seq<Option<string>>)
    ensures |names| == PAIRWISE_MAX + 1
  {
    [Some("a"), Some("b"), Some("b"), Some("a")] + seq(PAIRWISE_MAX - 3, _ => Some("c"))
  }

  /** On it the table reports b, and the pairwise search (run when the table cannot be
      allocated, or on the first four names alone) reports a. */
  lemma {:induction false} CrossedDiffers()
    ensures forall r :: FirstRecurring(Crossed(), r) <==> r == Some("a")
    ensures forall r :: FirstRecalling(Crossed(), r) <==> r == Some("b")
  {
    var names := Crossed();
    assert names[0] == names[3] && names[1] == names[2];
    assert Recurs(names, 0);
    assert Recalls(names, 2) && !Recalls(names, 0) && !Recalls(names, 1);
    assert Repeats(names);
  }
}
