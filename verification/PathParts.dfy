/** Containment of paths, read off their components. */
module PathParts {
  import opened Text
  import opened Types
  import opened Paths
  import opened Canonical
  import opened Grants
  import opened Args
  import opened ArgsLaws
  import opened PathWalk
  import opened PathWalkLaws

  /** The named components of a path, outermost first. */
  function Components(p: string): seq<string> { Named(Split(p)) }

  // ---- splitting and glueing --------------------------------------------------------------------

  function Glue(parts: seq<string>): string
    requires parts != []
  {
    if |parts| == 1 then parts[0] else Glue(parts[..|parts| - 1]) + "/" + parts[|parts| - 1]
  }

  lemma {:induction false} GlueSnoc(parts: seq<string>, last: string)
    requires parts != []
    ensures Glue(parts + [last]) == Glue(parts) + "/" + last
  {
    assert (parts + [last])[..|parts|] == parts;
  }

  lemma {:induction false} GlueSplit(s: string)
    ensures Glue(Split(s)) == s
  {
    var k := LastSlash(s);
    if k < |s| {
      GlueSplit(s[..k]);
      GlueSnoc(Split(s[..k]), s[k + 1..]);
      hide Glue, LastSlash;
      CutAt(s, k);
    }
  }

  lemma {:induction false} CutAt(s: string, k: nat)
    requires k < |s| && s[k] == '/'
    ensures s[..k] + "/" + s[k + 1..] == s
  {
  }

  lemma {:induction false} GlueConcat(a: seq<string>, b: seq<string>)
    requires a != [] && b != []
    ensures Glue(a + b) == Glue(a) + "/" + Glue(b)
  {
    var n := |b| - 1;
    var last := b[n];
    assert (a + b)[|a + b| - 1] == last;
    if n == 0 {
      assert (a + b)[..|a + b| - 1] == a;
    } else {
      GlueConcat(a, b[..n]);
      assert (a + b)[..|a + b| - 1] == a + b[..n];
      Associate(Glue(a) + "/", Glue(b[..n]), last);
    }
  }

  lemma {:induction false} SplitConcat(a: string, b: string)
    ensures Split(a + "/" + b) == Split(a) + Split(b)
  {
    var k := LastSlash(b);
    if k == |b| {
      SplitJoin(a, b);
    } else {
      var b1, b2 := b[..k], b[k + 1..];
      assert b == b1 + "/" + b2;
      SplitConcat(a, b1);
      SplitJoin(a + "/" + b1, b2);
      Associate(a + "/", b1, b2);
      assert Split(b) == Split(b1) + [b2];
    }
  }

  // ---- containment by parts --------------------------------------------------------------------------

  lemma {:induction false} PrefixParts(p: string, q: string)
    ensures Split(q) <= Split(p) <==> q == p || (|q| < |p| && p[..|q|] == q && p[|q|] == '/')
  {
    hide Split;
    if q != p && Split(q) <= Split(p) {
      PartsBelow(p, q);
    } else if |q| < |p| && p[..|q|] == q && p[|q|] == '/' {
      assert p == q + "/" + p[|q| + 1..];
      SplitConcat(q, p[|q| + 1..]);
    }
  }

  lemma {:induction false} PartsBelow(p: string, q: string)
    requires Split(q) <= Split(p) && q != p
    ensures |q| < |p| && p[..|q|] == q && p[|q|] == '/'
  {
    GlueSplit(p);
    GlueSplit(q);
    hide Split, Glue;
    var more := Split(p)[|Split(q)|..];
    assert Split(p) == Split(q) + more;
    assert Split(q) + [] == Split(q);
    GlueConcat(Split(q), more);
    assert p == q + "/" + Glue(more);
  }

  /** For all paths: one lies under another exactly when both are absolute and the other, its
      trailing slashes dropped, is the root or has a prefix of the parts, empty ones included. */
  lemma {:induction false} UnderParts(p: string, q: string)
    ensures Under(p, q) <==> Absolute(p) && Absolute(q) && var n := Trim(q, |q|); n == 1 || Split(q[..n]) <= Split(p)
  {
    if Absolute(p) && Absolute(q) {
      PrefixParts(p, q[..Trim(q, |q|)]);
    }
  }

  // ---- containment by components -----------------------------------------------------------------------

  lemma {:induction false} NamedConcat(a: seq<string>, b: seq<string>)
    ensures Named(a + b) == Named(a) + Named(b)
  {
    if b == [] {
      assert a + b == a;
    } else {
      NamedConcat(a, b[..|b| - 1]);
      assert (a + b)[..|a + b| - 1] == a + b[..|b| - 1];
    }
  }

  lemma {:induction false} NamedAll(a: seq<string>)
    requires forall i :: 0 <= i < |a| ==> a[i] != ""
    ensures Named(a) == a
  {
    if a != [] {
      NamedAll(a[..|a| - 1]);
    }
  }

  /** Trailing slashes name nothing. */
  lemma {:induction false} TrimNames(q: string, n: nat)
    requires n <= |q|
    ensures Components(q[..Trim(q, n)]) == Components(q[..n])
  {
    hide Split, Named;
    if n > 1 && q[n - 1] == '/' {
      TrimNames(q, n - 1);
      assert q[..n] == q[..n - 1] + "/";
      SplitSlash(q[..n - 1]);
      NamedSnoc(Split(q[..n - 1]), "");
    }
  }

  /** Whatever lies under a path has all its components, in order, as its first ones. */
  lemma {:induction false} UnderNames(p: string, q: string)
    requires Under(p, q)
    ensures Components(q) <= Components(p)
  {
    var n := Trim(q, |q|);
    assert q[..|q|] == q;
    TrimNames(q, |q|);
    UnderParts(p, q);
    if n == 1 {
      RootNames();
      assert q[..1] == "/";
    } else {
      var a := Split(q[..n]);
      assert Split(p) == a + Split(p)[|a|..];
      NamedConcat(a, Split(p)[|a|..]);
    }
  }

  lemma {:induction false} RootNames()
    ensures Split("/") == ["", ""] && Components("/") == []
  {
    SplitSlash("");
    assert "" + "/" == "/" && Split("") == [""];
    NamedSnoc([""], "");
    NamedSnoc([], "");
    assert [] + [""] == [""] && [""] + [""] == ["", ""];
  }

  lemma {:induction false} NoEmptyParts(t: string)
    requires t != "" && t[0] != '/' && !EndsWithSlash(t) && Single(t, 0)
    ensures forall i :: 0 <= i < |Split(t)| ==> Split(t)[i] != ""
  {
    var k := LastSlash(t);
    if k < |t| {
      var a := t[..k];
      assert k > 0 && t[k - 1] != '/';
      assert forall i :: 0 <= i < k ==> a[i] == t[i];
      NoEmptyParts(a);
    }
  }

  /** What follows the leading slashes of a squeezed path other than the root. */
  lemma {:induction false} SqueezedTail(p: string) returns (t: string)
    requires Absolute(p) && Squeezed(p) && p != "/"
    ensures p == (if DoubleHead(p) then "//" else "/") + t
    ensures t != "" && t[0] != '/' && !EndsWithSlash(t) && Single(t, 0)
  {
    var n := if DoubleHead(p) then 2 else 1;
    t := p[n..];
    assert forall i :: 0 <= i < |t| ==> t[i] == p[i + n];
  }

  /** How a squeezed path other than the root splits. */
  lemma {:induction false} SqueezedParts(p: string)
    requires Absolute(p) && Squeezed(p) && p != "/"
    ensures Components(p) != [] && (forall i :: 0 <= i < |Components(p)| ==> Components(p)[i] != "")
    ensures Split(p) == (if DoubleHead(p) then ["", ""] else [""]) + Components(p)
  {
    var t := SqueezedTail(p);
    hide Split, Named, Squeezed, Single, DoubleHead;
    NoEmptyParts(t);
    NamedAll(Split(t));
    HeadParts(t);
  }

  lemma {:induction false} HeadParts(t: string)
    ensures Split("/" + t) == [""] + Split(t) && Split("//" + t) == ["", ""] + Split(t)
    ensures Components("/" + t) == Components(t) == Components("//" + t)
  {
    OneHead(t);
    OneHead("/" + t);
    hide Split, Named;
    assert "/" + ("/" + t) == "//" + t;
    assert [""] + ([""] + Split(t)) == ["", ""] + Split(t);
  }

  lemma {:induction false} OneHead(t: string)
    ensures Split("/" + t) == [""] + Split(t) && Components("/" + t) == Components(t)
  {
    assert Split("") == [""];
    hide Split;
    SplitConcat("", t);
    assert "" + "/" + t == "/" + t;
    NamedConcat([""], Split(t));
    NamedSnoc([], "");
    assert [] + [""] == [""];
  }

  /** Squeezed paths: under means that the components are a prefix, unless exactly one of the
      two begins with a double slash. */
  lemma {:induction false} UnderComponents(p: string, q: string)
    requires Absolute(p) && Absolute(q) && Squeezed(p) && Squeezed(q)
    ensures Under(p, q) <==> q == "/" || (Components(q) <= Components(p) && DoubleHead(p) == DoubleHead(q))
  {
    hide Split, Named, Under, DoubleHead, Single;
    UnderParts(p, q);
    assert q[..|q|] == q;
    if q != "/" {
      SqueezedParts(q);
      if p == "/" {
        RootNames();
        RootBelow(Components(q), DoubleHead(q), Split(q));
      } else {
        SqueezedParts(p);
        HeadsApart(Components(p), Components(q), DoubleHead(p), DoubleHead(q), Split(p), Split(q));
      }
    }
  }

  lemma {:induction false} RootBelow(b: seq<string>, db: bool, q: seq<string>)
    requires b != [] && b[0] != "" && q == (if db then ["", ""] else [""]) + b
    ensures !(q <= ["", ""])
  {
    assert q[if db then 2 else 1] == b[0];
  }

  lemma {:induction false} HeadsApart(a: seq<string>, b: seq<string>, da: bool, db: bool, p: seq<string>, q: seq<string>)
    requires a != [] && b != [] && a[0] != "" && b[0] != ""
    requires q == (if db then ["", ""] else [""]) + b && p == (if da then ["", ""] else [""]) + a
    ensures q <= p <==> b <= a && da == db
  {
    var n, m := if db then 2 else 1, if da then 2 else 1;
    assert q[n..] == b && p[m..] == a;
    if q <= p {
      assert q[1] == p[1];
      assert n == m;
      assert b == q[n..] <= p[n..] == a;
    }
  }

  /** Clean paths, such as canonical ones: under means exactly that the components are a prefix. */
  lemma {:induction false} UnderClean(p: string, q: string)
    requires Clean(p) && Clean(q)
    ensures Under(p, q) <==> Components(q) <= Components(p)
  {
    CleanSqueezed(p);
    CleanSqueezed(q);
    CleanHead(p);
    CleanHead(q);
    hide Clean, Split, Named, Under;
    UnderComponents(p, q);
    if q == "/" {
      RootNames();
    }
  }

  lemma {:induction false} CleanHead(p: string)
    requires Clean(p)
    ensures !DoubleHead(p)
  {
    if p != "/" {
      SplitSingle(p[1..]);
    }
  }

  /** The exception is real: a double slash in front makes a different path. */
  lemma {:induction false} DoubleSlashApart()
    ensures Squeezed("//a") && Squeezed("/a") && Components("//a") == Components("/a") && !Under("//a", "/a")
  {
    HeadParts("a");
    assert "/" + "a" == "/a" && "//" + "a" == "//a";
    assert Trim("/a", 2) == 2;
  }

  // ---- granted arguments ---------------------------------------------------------------------------------

  /** Some entry allows the access and names a leading part of the path. */
  ghost predicate Inside(perms: seq<Perm>, path: string, need: Access) {
    exists i :: 0 <= i < |perms| && (need.read ==> perms[i].access.read) && (need.write ==> perms[i].access.write)
                && Absolute(perms[i].path) && Components(perms[i].path) <= Components(path)
  }

  lemma {:induction false} CoversInside(perms: seq<Perm>, path: string, need: Access)
    requires Covers(perms, path, need)
    ensures Inside(perms, path, need)
  {
    hide Under;
    var i :| 0 <= i < |perms| && CoveredBy(perms[i], path, need);
    UnderNames(path, perms[i].path);
    UnderAbsolute(path, perms[i].path);
  }

  /** Between clean paths an access is covered exactly when it is inside. */
  lemma {:induction false} CoversExactly(perms: seq<Perm>, path: string, need: Access)
    requires Clean(path) && forall i :: 0 <= i < |perms| ==> Clean(perms[i].path)
    ensures Covers(perms, path, need) <==> Inside(perms, path, need)
  {
    hide Under, Clean;
    forall i | 0 <= i < |perms|
      ensures Under(path, perms[i].path) <==> Absolute(perms[i].path) && Components(perms[i].path) <= Components(path)
    {
      UnderClean(path, perms[i].path);
      CleanAbsolute(perms[i].path);
    }
    if i :| 0 <= i < |perms| && CoveredBy(perms[i], path, need) {
      assert Components(perms[i].path) <= Components(path);
    }
    if i :| 0 <= i < |perms| && (need.read ==> perms[i].access.read) && (need.write ==> perms[i].access.write)
            && Absolute(perms[i].path) && Components(perms[i].path) <= Components(path) {
      assert CoveredBy(perms[i], path, need);
    }
  }

  lemma {:induction false} CleanAbsolute(p: string)
    requires Clean(p)
    ensures Absolute(p)
  {
  }

  /** The effective policy allows an access exactly where a request and a grant both do. */
  lemma {:induction false} EffectiveExactly(requests: seq<Perm>, grants: seq<Perm>, path: string, need: Access)
    requires Clean(path) && !need.Empty()
    requires (forall i :: 0 <= i < |requests| ==> Clean(requests[i].path)) && forall j :: 0 <= j < |grants| ==> Clean(grants[j].path)
    ensures Covers(Grants.Effective(requests, grants), path, need) <==> Inside(requests, path, need) && Inside(grants, path, need)
  {
    hide Clean, Inside, Covers;
    EffectiveIsMeet(requests, grants, path, need);
    CoversExactly(requests, path, need);
    CoversExactly(grants, path, need);
  }

  lemma {:induction false} UnderAbsolute(p: string, q: string)
    requires Under(p, q)
    ensures Absolute(p) && Absolute(q)
  {
  }

  /** An effective grant on a path is a request and a grant, each naming a leading part of it. */
  lemma {:induction false} EffectiveInside(requests: seq<Perm>, grants: seq<Perm>, path: string, need: Access)
    requires Covers(Grants.Effective(requests, grants), path, need)
    ensures Inside(requests, path, need) && Inside(grants, path, need)
  {
    var eff := Grants.Effective(requests, grants);
    var k :| 0 <= k < |eff| && CoveredBy(eff[k], path, need);
    EffectiveHas(requests, grants, eff[k]);
    var i, j :| 0 <= i < |requests| && 0 <= j < |grants| && Meet(requests[i], grants[j]) == Some(eff[k]);
    MeetBoth(requests[i], grants[j], path, need);
    CoversInside(requests, path, need);
    CoversInside(grants, path, need);
  }

  lemma {:induction false} MeetBoth(r: Perm, g: Perm, path: string, need: Access)
    requires Meet(r, g).Some? && CoveredBy(Meet(r, g).value, path, need)
    ensures CoveredBy(r, path, need) && CoveredBy(g, path, need)
  {
    if Under(r.path, g.path) {
      UnderTransitive(path, r.path, g.path);
    } else {
      UnderTransitive(path, g.path, r.path);
    }
  }

  /** Every path leaf of the tree, at every depth, is inside a request and inside a grant. */
  ghost predicate LeavesInside(requests: seq<Perm>, grants: seq<Perm>, ty: Type, node: Node)
    decreases ty
  {
    match ty
    case PathT(access, _) =>
      node.value.Str? && Inside(requests, node.value.text, access) && Inside(grants, node.value.text, access)
    case ArrayT(item, _, _) =>
      node.value.Arr? && forall i :: 0 <= i < |node.value.items| ==> LeavesInside(requests, grants, item, node.value.items[i])
    case MapT(value, _) =>
      node.value.Obj? && forall i :: 0 <= i < |node.value.entries| ==> LeavesInside(requests, grants, value, node.value.entries[i].node)
    case ObjectT(fields) =>
      node.value.Obj? && forall j, i :: 0 <= j < |fields| && 0 <= i < |node.value.entries| && node.value.entries[i].key == fields[j].name ==>
        LeavesInside(requests, grants, fields[j].ty, node.value.entries[i].node)
    case _ => true
  }

  lemma {:induction false} SettledInside(fmt: Formats, host: Host, requests: seq<Perm>, grants: seq<Perm>, ty: Type, node: Node)
    requires Settled(fmt, host, Grants.Effective(requests, grants), ty, node)
    ensures LeavesInside(requests, grants, ty, node)
    decreases ty
  {
    hide Covers, Inside, Find, NoDuplicates;
    match ty
    case PathT(access, _) => EffectiveInside(requests, grants, node.value.text, access);
    case ArrayT(item, _, _) =>
      forall i | 0 <= i < |node.value.items|
        ensures LeavesInside(requests, grants, item, node.value.items[i])
      {
        SettledInside(fmt, host, requests, grants, item, node.value.items[i]);
      }
    case MapT(value, _) =>
      forall i | 0 <= i < |node.value.entries|
        ensures LeavesInside(requests, grants, value, node.value.entries[i].node)
      {
        SettledInside(fmt, host, requests, grants, value, node.value.entries[i].node);
      }
    case ObjectT(fields) =>
      var eff, entries := Grants.Effective(requests, grants), node.value.entries;
      forall j, i | 0 <= j < |fields| && 0 <= i < |entries| && entries[i].key == fields[j].name
        ensures LeavesInside(requests, grants, fields[j].ty, entries[i].node)
      {
        FindFirst(entries, i);
        assert FieldSettled(fmt, host, eff, fields[j], entries);
        SettledInside(fmt, host, requests, grants, fields[j].ty, entries[i].node);
      }
    case _ =>
  }

  /** After validation and preflight under the effective policy of requests and grants, every
      path argument, at every depth and in every injected default, has the components of some
      request and of some grant as its first ones. */
  lemma {:induction false} GrantedInside(fmt: Formats, host: Host, cmd: Command, requests: seq<Perm>, grants: seq<Perm>, eff: Effective,
                                         wants: Requests, args: Node)
    requires CommandOk(fmt, cmd) && Args.Validate(fmt, cmd, args).Ok? && eff.fs == Grants.Effective(requests, grants)
    requires Preflight(host, cmd, eff, wants, Args.Validate(fmt, cmd, args).value).Ok?
    ensures LeavesInside(requests, grants, ObjectT(cmd.params),
                         Preflight(host, cmd, eff, wants, Args.Validate(fmt, cmd, args).value).value)
  {
    hide CommandOk, Args.Validate, Preflight, Settled;
    GrantedArguments(fmt, host, cmd, eff, wants, args);
    SettledInside(fmt, host, requests, grants, ObjectT(cmd.params), Preflight(host, cmd, eff, wants, Args.Validate(fmt, cmd, args).value).value);
  }
}
