/** Sorting by a text key, as qsort with strcmp leaves a list: the order is total,
    so lists with the same elements sort alike. */
module Sorting {
  import opened Text
  import opened Semver
  import opened SemverOrder

  predicate Below(a: string, b: string) { Lex(a, b) <= 0 }

  function Insert<T>(x: T, s: seq<T>, key: T -> string): seq<T> {
    if s == [] then [x]
    else if Below(key(x), key(s[0])) then [x] + s
    else [s[0]] + Insert(x, s[1..], key)
  }

  function Sort<T>(s: seq<T>, key: T -> string): seq<T> {
    if s == [] then [] else Insert(s[0], Sort(s[1..], key), key)
  }

  predicate Sorted<T>(s: seq<T>, key: T -> string) {
    forall i, j :: 0 <= i < j < |s| ==> Below(key(s[i]), key(s[j]))
  }

  lemma {:induction false} BelowTransitive(a: string, b: string, c: string)
    requires Below(a, b) && Below(b, c)
    ensures Below(a, c)
  {
    LexTransitive(a, b, c);
  }

  lemma {:induction false} BelowTotal(a: string, b: string)
    ensures Below(a, b) || Below(b, a)
    ensures Below(a, b) && Below(b, a) ==> a == b
  {
    LexOrder(a, b);
  }

  lemma {:induction false} InsertSorted<T>(x: T, s: seq<T>, key: T -> string)
    requires Sorted(s, key)
    ensures Sorted(Insert(x, s, key), key) && multiset(Insert(x, s, key)) == multiset(s) + multiset{x}
  {
    hide Below;
    if s != [] {
      if Below(key(x), key(s[0])) {
        forall j | 0 <= j < |s|
          ensures Below(key(x), key(s[j]))
        {
          if j > 0 {
            BelowTransitive(key(x), key(s[0]), key(s[j]));
          }
        }
      } else {
        BelowTotal(key(x), key(s[0]));
        var rest := Insert(x, s[1..], key);
        InsertSorted(x, s[1..], key);
        assert s == [s[0]] + s[1..];
        forall j | 0 <= j < |rest|
          ensures Below(key(s[0]), key(rest[j]))
        {
          assert rest[j] in multiset(rest);
          assert rest[j] == x || rest[j] in multiset(s[1..]);
          if rest[j] != x {
            var k :| 0 <= k < |s[1..]| && s[1..][k] == rest[j];
            assert s[k + 1] == rest[j];
          }
        }
      }
    }
  }

  lemma {:induction false} SortSorts<T>(s: seq<T>, key: T -> string)
    ensures Sorted(Sort(s, key), key) && multiset(Sort(s, key)) == multiset(s)
  {
    if s != [] {
      SortSorts(s[1..], key);
      InsertSorted(s[0], Sort(s[1..], key), key);
      assert s == [s[0]] + s[1..];
    }
  }

  /** Keys tell the elements of both lists apart. */
  ghost predicate Distinguishes<T>(key: T -> string, a: seq<T>) {
    forall i, j :: 0 <= i < |a| && 0 <= j < |a| && key(a[i]) == key(a[j]) ==> a[i] == a[j]
  }

  /** The first element of a sorted list is the same whatever the list it came from. */
  lemma {:induction false} SameHead<T>(a: seq<T>, b: seq<T>, key: T -> string)
    requires Sorted(a, key) && Sorted(b, key) && multiset(a) == multiset(b) && Distinguishes(key, a) && a != [] && b != []
    ensures a[0] == b[0]
  {
    hide Below;
    assert a[0] in multiset(b) && b[0] in multiset(a);
    var i :| 0 <= i < |b| && b[i] == a[0];
    var j :| 0 <= j < |a| && a[j] == b[0];
    BelowTotal(key(a[0]), key(b[0]));
    BelowTotal(key(a[0]), key(a[0]));
  }

  lemma {:induction false} TailBag<T>(a: seq<T>)
    requires a != []
    ensures multiset(a[1..]) == multiset(a) - multiset{a[0]} && a == [a[0]] + a[1..]
  {
    assert a == [a[0]] + a[1..];
  }

  lemma {:induction false} SortedUnique<T>(a: seq<T>, b: seq<T>, key: T -> string)
    requires Sorted(a, key) && Sorted(b, key) && multiset(a) == multiset(b) && Distinguishes(key, a)
    ensures a == b
  {
    hide Below;
    assert |multiset(a)| == |a| && |multiset(b)| == |b|;
    if a != [] {
      SameHead(a, b, key);
      TailBag(a);
      TailBag(b);
      SortedUnique(a[1..], b[1..], key);
    }
  }

  /** Sorting forgets the order of arrival and nothing else. */
  lemma {:induction false} SortForgets<T>(a: seq<T>, b: seq<T>, key: T -> string)
    requires Distinguishes(key, a)
    ensures Sort(a, key) == Sort(b, key) <==> multiset(a) == multiset(b)
  {
    SortSorts(a, key);
    SortSorts(b, key);
    if multiset(a) == multiset(b) {
      var s := Sort(a, key);
      forall i, j | 0 <= i < |s| && 0 <= j < |s| && key(s[i]) == key(s[j])
        ensures s[i] == s[j]
      {
        assert s[i] in multiset(s) && s[j] in multiset(s);
        assert s[i] in a && s[j] in a;
      }
      SortedUnique(Sort(a, key), Sort(b, key), key);
    }
  }
}
