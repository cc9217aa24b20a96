/** The effective policy: what a manifest requests, met with what the host grants
    (src/policy.c). */
module Grants {
  import opened Text
  import opened Types
  import opened Paths

  datatype Perm = Perm(path: string, access: Access)

  /** Some entry with enough access has the path under it. */
  predicate Covers(perms: seq<Perm>, path: string, need: Access) {
    exists i :: 0 <= i < |perms| && CoveredBy(perms[i], path, need)
  }

  predicate CoveredBy(perm: Perm, path: string, need: Access) { need.Within(perm.access) && Under(path, perm.path) }

  /** A request met with a grant: the deeper path with the common access. */
  function Meet(r: Perm, g: Perm): Option<Perm> {
    var access := r.access.Meet(g.access);
    if access.Empty() then None
    else if Under(r.path, g.path) then Some(Perm(r.path, access))
    else if Under(g.path, r.path) then Some(Perm(g.path, access))
    else None
  }

  function AddMeet(eff: seq<Perm>, r: Perm, g: Perm): seq<Perm> {
    match Meet(r, g)
    case None => eff
    case Some(m) => if m in eff then eff else eff + [m]
  }

  /** The effective entries after meeting r with the first grants. */
  function Row(eff: seq<Perm>, r: Perm, grants: seq<Perm>): seq<Perm> {
    if grants == [] then eff else AddMeet(Row(eff, r, grants[..|grants| - 1]), r, grants[|grants| - 1])
  }

  function Effective(requests: seq<Perm>, grants: seq<Perm>): seq<Perm> {
    if requests == [] then []
    else Row(Effective(requests[..|requests| - 1], grants), requests[|requests| - 1], grants)
  }

  /** The intersection loops of astools_policy_effective. */
  method Intersect(requests: seq<Perm>, grants: seq<Perm>) returns (eff: seq<Perm>)
    ensures eff == Effective(requests, grants)
  {
    eff := [];
    for i := 0 to |requests|
      invariant eff == Effective(requests[..i], grants)
    {
      assert requests[..i + 1][..i] == requests[..i];
      var r := requests[i];
      ghost var before := eff;
      for j := 0 to |grants|
        invariant eff == Row(before, r, grants[..j])
      {
        assert grants[..j + 1][..j] == grants[..j];
        var m := Meet(r, grants[j]);
        if m.Some? {
          var known := Known(eff, m.value);
          if !known {
            eff := eff + [m.value];
          }
        }
      }
      assert grants[..|grants|] == grants;
    }
    assert requests[..|requests|] == requests;
  }

  method Known(eff: seq<Perm>, m: Perm) returns (r: bool)
    ensures r == (m in eff)
  {
    for k := 0 to |eff|
      invariant forall l :: 0 <= l < k ==> eff[l] != m
    {
      if eff[k].access == m.access && eff[k].path == m.path {
        return true;
      }
    }
    return false;
  }

  // ---- the meet ---------------------------------------------------------------------------

  lemma {:induction false} RowHas(eff: seq<Perm>, r: Perm, grants: seq<Perm>, m: Perm)
    ensures m in Row(eff, r, grants) <==> m in eff || exists j :: 0 <= j < |grants| && Meet(r, grants[j]) == Some(m)
  {
    hide Meet;
    if grants != [] {
      var init := grants[..|grants| - 1];
      RowHas(eff, r, init, m);
      if j :| 0 <= j < |init| && Meet(r, init[j]) == Some(m) {
        assert grants[j] == init[j];
      }
      if j :| 0 <= j < |grants| && Meet(r, grants[j]) == Some(m) {
        assert j < |init| ==> init[j] == grants[j];
      }
    }
  }

  lemma {:induction false} EffectiveHas(requests: seq<Perm>, grants: seq<Perm>, m: Perm)
    ensures m in Effective(requests, grants) <==>
            exists i, j :: 0 <= i < |requests| && 0 <= j < |grants| && Meet(requests[i], grants[j]) == Some(m)
  {
    hide Meet;
    if requests != [] {
      var init, r := requests[..|requests| - 1], requests[|requests| - 1];
      EffectiveHas(init, grants, m);
      RowHas(Effective(init, grants), r, grants, m);
      if i, j :| 0 <= i < |init| && 0 <= j < |grants| && Meet(init[i], grants[j]) == Some(m) {
        assert requests[i] == init[i];
      }
      if i, j :| 0 <= i < |requests| && 0 <= j < |grants| && Meet(requests[i], grants[j]) == Some(m) {
        assert i < |init| ==> init[i] == requests[i];
      }
    }
  }

  /** One pair: covered by the meet exactly when covered by both. */
  lemma {:induction false} MeetCovers(r: Perm, g: Perm, path: string, need: Access)
    requires !need.Empty()
    ensures (Meet(r, g).Some? && CoveredBy(Meet(r, g).value, path, need))
        <==> CoveredBy(r, path, need) && CoveredBy(g, path, need)
  {
    if Under(path, r.path) && Under(r.path, g.path) {
      UnderTransitive(path, r.path, g.path);
    }
    if Under(path, g.path) && Under(g.path, r.path) {
      UnderTransitive(path, g.path, r.path);
    }
    if Under(path, r.path) && Under(path, g.path) {
      UnderComparable(path, r.path, g.path);
    }
  }

  /** The effective policy is the meet of the two: it covers an access exactly when
      one request covers it and one grant covers it. */
  lemma {:induction false} EffectiveIsMeet(requests: seq<Perm>, grants: seq<Perm>, path: string, need: Access)
    requires !need.Empty()
    ensures Covers(Effective(requests, grants), path, need) <==> Covers(requests, path, need) && Covers(grants, path, need)
  {
    hide Meet, CoveredBy;
    var eff := Effective(requests, grants);
    if Covers(eff, path, need) {
      var k :| 0 <= k < |eff| && CoveredBy(eff[k], path, need);
      EffectiveHas(requests, grants, eff[k]);
      var i, j :| 0 <= i < |requests| && 0 <= j < |grants| && Meet(requests[i], grants[j]) == Some(eff[k]);
      MeetCovers(requests[i], grants[j], path, need);
    }
    if Covers(requests, path, need) && Covers(grants, path, need) {
      var i :| 0 <= i < |requests| && CoveredBy(requests[i], path, need);
      var j :| 0 <= j < |grants| && CoveredBy(grants[j], path, need);
      MeetCovers(requests[i], grants[j], path, need);
      var m := Meet(requests[i], grants[j]).value;
      EffectiveHas(requests, grants, m);
      var k :| 0 <= k < |eff| && eff[k] == m;
    }
  }

  // ---- the environment ------------------------------------------------------------------------

  function AddName(env: seq<string>, name: string): seq<string> { if name in env then env else env + [name] }

  /** Requested names that are granted, or every granted name when none is requested. */
  function Environment(requested: seq<string>, granted: seq<string>): seq<string> {
    if requested == [] then Granted(granted, granted) else Granted(requested, granted)
  }

  function Granted(names: seq<string>, granted: seq<string>): seq<string> {
    if names == [] then []
    else
      var env, name := Granted(names[..|names| - 1], granted), names[|names| - 1];
      if name in granted then AddName(env, name) else env
  }

  method PassedNames(requested: seq<string>, granted: seq<string>) returns (env: seq<string>)
    ensures env == Environment(requested, granted)
  {
    env := [];
    var names := if requested == [] then granted else requested;
    for i := 0 to |names|
      invariant env == Granted(names[..i], granted)
    {
      assert names[..i + 1][..i] == names[..i];
      if (requested == [] || names[i] in granted) && names[i] !in env {
        env := env + [names[i]];
      }
    }
    assert names[..|names|] == names;
  }

  lemma {:induction false} GrantedHas(names: seq<string>, granted: seq<string>, name: string)
    ensures name in Granted(names, granted) <==> name in names && name in granted
    ensures forall i, j :: 0 <= i < j < |Granted(names, granted)| ==> Granted(names, granted)[i] != Granted(names, granted)[j]
  {
    if names != [] {
      GrantedHas(names[..|names| - 1], granted, name);
      assert names == names[..|names| - 1] + [names[|names| - 1]];
    }
  }

  /** A tool sees exactly the granted names it may ask for, each once. */
  lemma {:induction false} EnvironmentExactly(requested: seq<string>, granted: seq<string>, name: string)
    ensures name in Environment(requested, granted) <==> name in granted && (requested == [] || name in requested)
    ensures var env := Environment(requested, granted); forall i, j :: 0 <= i < j < |env| ==> env[i] != env[j]
  {
    GrantedHas(granted, granted, name);
    GrantedHas(requested, granted, name);
  }
}
