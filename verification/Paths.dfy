/** Path containment (src/path.c, POSIX branches). */
module Paths {
  // ---- containment ---------------------------------------------------------------------

  predicate Absolute(p: string) { p != "" && p[0] == '/' }

  /** Length of a prefix without its trailing slashes, keeping one character. */
  function Trim(prefix: string, n: nat): (r: nat)
    requires n <= |prefix|
    ensures r <= n && (n > 0 ==> r > 0)
    ensures r <= 1 || prefix[r - 1] != '/'
    ensures forall i :: r <= i < n ==> prefix[i] == '/'
  {
    if n > 1 && prefix[n - 1] == '/' then Trim(prefix, n - 1) else n
  }

  /** astools_path_under */
  predicate Under(path: string, prefix: string) {
    Absolute(path) && Absolute(prefix)
    && var n := Trim(prefix, |prefix|);
       n == 1 || (n <= |path| && path[..n] == prefix[..n] && (n == |path| || path[n] == '/'))
  }

  method CheckUnder(path: string, prefix: string) returns (r: bool)
    ensures r == Under(path, prefix)
  {
    if !Absolute(path) || !Absolute(prefix) {
      return false;
    }
    var n := |prefix|;
    while n > 1 && prefix[n - 1] == '/'
      invariant 0 < n <= |prefix| && Trim(prefix, |prefix|) == Trim(prefix, n)
    {
      n := n - 1;
    }
    if n == 1 {
      return true;
    }
    if n > |path| || path[..n] != prefix[..n] {
      return false;
    }
    return n == |path| || path[n] == '/';
  }

  lemma {:induction false} UnderSelf(p: string)
    requires Absolute(p)
    ensures Under(p, p)
  {
  }

  lemma {:induction false} UnderTransitive(p: string, q: string, r: string)
    requires Under(p, q) && Under(q, r)
    ensures Under(p, r)
  {
  }

  /** Two ancestors of one path are comparable. */
  lemma {:induction false} UnderComparable(p: string, q: string, r: string)
    requires Under(p, q) && Under(p, r)
    ensures Under(q, r) || Under(r, q)
  {
  }

  /** Paths without trailing slashes that lie under each other are the same. */
  lemma {:induction false} UnderAntisymmetric(p: string, q: string)
    requires Under(p, q) && Under(q, p) && Trim(p, |p|) == |p| && Trim(q, |q|) == |q|
    ensures p == q
  {
  }
}
