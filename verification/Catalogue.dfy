/** The one order in which prompts, grammar and schemas present the tools
    (src/selection.c), and its agreement with the resolver. */
module Catalogue {
  import opened Text
  import opened Semver
  import opened SemverOrder
  import opened Sorting
  import opened Registry
  import opened RegistryRuns

  // ---- selecting ------------------------------------------------------------------------------

  /** matches_pin: a pinned id is listed only in the version that resolving it gives. */
  predicate MatchesPin(cfg: Config, t: Tool) {
    match PinFor(cfg.pins, t.id)
    case None => true
    case Some(text) => match Parse(text) case None => false case Some(v) => Compare(v, t.version) == 0
  }

  predicate Listed(cfg: Config, t: Tool) { Resolvable(cfg, t) && MatchesPin(cfg, t) }

  function IndexOf(sel: seq<Tool>, id: string): (r: Option<nat>)
    ensures r.Some? ==> r.value < |sel| && sel[r.value].id == id
    ensures r.None? <==> forall i :: 0 <= i < |sel| ==> sel[i].id != id
  {
    if sel == [] then None
    else if sel[0].id == id then Some(0)
    else match IndexOf(sel[1..], id) case None => None case Some(i) => Some(i + 1)
  }

  /** The best listed version of every id, in order of first appearance. */
  function Select(cfg: Config, table: seq<Tool>): seq<Tool> {
    if table == [] then []
    else
      var sel, t := Select(cfg, table[..|table| - 1]), table[|table| - 1];
      if !Listed(cfg, t) then sel
      else match IndexOf(sel, t.id)
        case None => sel + [t]
        case Some(j) => if Better(t, sel[j]) then sel[j := t] else sel
  }

  /** The selected tools with a configured priority, in that order, each once. */
  function Front(priority: seq<string>, sel: seq<Tool>): seq<Tool> {
    if priority == [] then []
    else
      var front := Front(priority[..|priority| - 1], sel);
      match IndexOf(sel, priority[|priority| - 1])
      case None => front
      case Some(j) => if sel[j] in front then front else front + [sel[j]]
  }

  function Rest(sel: seq<Tool>, front: seq<Tool>): seq<Tool> {
    if sel == [] then []
    else Rest(sel[..|sel| - 1], front) + if sel[|sel| - 1] in front then [] else [sel[|sel| - 1]]
  }

  const ID := (t: Tool) => t.id

  function Arrange(cfg: Config, sel: seq<Tool>): seq<Tool> {
    var front := Front(cfg.priority, sel);
    front + Sort(Rest(sel, front), ID)
  }

  /** astools_collect_tools */
  function Collect(cfg: Config, table: seq<Tool>): seq<Tool> { Arrange(cfg, Select(cfg, table)) }

  // ---- as it runs -----------------------------------------------------------------------------

  method Locate(sel: seq<Tool>, id: string) returns (j: nat)
    ensures match IndexOf(sel, id) case None => j == |sel| case Some(i) => j == i
  {
    j := 0;
    while j < |sel| && sel[j].id != id
      invariant 0 <= j <= |sel|
      invariant IndexOf(sel, id) == match IndexOf(sel[j..], id) case None => None case Some(k) => Some(k + j)
    {
      assert sel[j..][1..] == sel[j + 1..];
      j := j + 1;
    }
  }

  method SelectTools(cfg: Config, table: seq<Tool>) returns (sel: seq<Tool>)
    ensures sel == Select(cfg, table)
  {
    hide Better, Listed;
    sel := [];
    for i := 0 to |table|
      invariant sel == Select(cfg, table[..i])
    {
      assert table[..i + 1][..i] == table[..i];
      var t := table[i];
      if Listed(cfg, t) {
        var j := Locate(sel, t.id);
        if j == |sel| {
          sel := sel + [t];
        } else if Better(t, sel[j]) {
          sel := sel[j := t];
        }
      }
    }
    assert table[..|table|] == table;
  }

  /** Which selected tools stand in the front already. */
  ghost predicate Marks(sel: seq<Tool>, taken: seq<bool>, front: seq<Tool>) {
    |taken| == |sel| && forall j :: 0 <= j < |sel| ==> taken[j] == (sel[j] in front)
  }

  ghost predicate DistinctIds(sel: seq<Tool>) { forall i, j :: 0 <= i < j < |sel| ==> sel[i].id != sel[j].id }

  lemma {:induction false} SelectDistinct(cfg: Config, table: seq<Tool>)
    ensures DistinctIds(Select(cfg, table))
  {
    hide Better, Listed;
    if table != [] {
      SelectDistinct(cfg, table[..|table| - 1]);
    }
  }

  lemma {:induction false} FirstWithId(sel: seq<Tool>, j: nat)
    requires DistinctIds(sel) && j < |sel|
    ensures IndexOf(sel, sel[j].id) == Some(j)
  {
  }

  method TakePriority(cfg: Config, sel: seq<Tool>) returns (ordered: seq<Tool>, taken: seq<bool>)
    requires DistinctIds(sel)
    ensures ordered == Front(cfg.priority, sel) && Marks(sel, taken, ordered)
  {
    ordered, taken := [], seq(|sel|, _ => false);
    var priority := cfg.priority;
    for i := 0 to |priority|
      invariant ordered == Front(priority[..i], sel) && Marks(sel, taken, ordered)
    {
      assert priority[..i + 1][..i] == priority[..i];
      var j := 0;
      while j < |sel| && (taken[j] || sel[j].id != priority[i])
        invariant 0 <= j <= |sel|
        invariant forall k :: 0 <= k < j ==> taken[k] || sel[k].id != priority[i]
      {
        j := j + 1;
      }
      if j < |sel| {
        FirstWithId(sel, j);
        ordered, taken := ordered + [sel[j]], taken[j := true];
      }
    }
    assert priority[..|priority|] == priority;
  }

  method CollectTools(cfg: Config, table: seq<Tool>) returns (r: seq<Tool>)
    ensures r == Collect(cfg, table)
  {
    var sel := SelectTools(cfg, table);
    SelectDistinct(cfg, table);
    var ordered, taken := TakePriority(cfg, sel);
    var rest := [];
    for j := 0 to |sel|
      invariant rest == Rest(sel[..j], ordered)
    {
      assert sel[..j + 1][..j] == sel[..j];
      if !taken[j] {
        rest := rest + [sel[j]];
      }
    }
    assert sel[..|sel|] == sel;
    r := ordered + Sort(rest, ID);
  }

  // ---- agreement with the resolver ----------------------------------------------------------------

  /** The selection for an id is what searching that id with its config pin finds. */
  lemma {:induction false} SelectIsBest(cfg: Config, table: seq<Tool>, id: string, want: Option<Version>)
    requires match PinFor(cfg.pins, id) case None => want == None case Some(text) => want.Some? && Parse(text) == want
    requires want.Some? ==> Parsed(want.value)
    requires forall i :: 0 <= i < |table| ==> Parsed(table[i].version)
    ensures var j, best := IndexOf(Select(cfg, table), id), Best(cfg, table, id, want, true);
            j.Some? == best.Some? && (j.Some? ==> Select(cfg, table)[j.value] == best.value)
  {
    hide Better, Parsed, Parse, Compare;
    if table != [] {
      var init, t := table[..|table| - 1], table[|table| - 1];
      SelectIsBest(cfg, init, id, want);
      SelectDistinct(cfg, init);
      ListedPasses(cfg, t, id, want);
      SelectStep(cfg, table, id);
    }
  }

  lemma {:induction false} ListedPasses(cfg: Config, t: Tool, id: string, want: Option<Version>)
    requires match PinFor(cfg.pins, id) case None => want == None case Some(text) => want.Some? && Parse(text) == want
    requires (want.Some? ==> Parsed(want.value)) && Parsed(t.version)
    ensures Passes(cfg, t, id, want, true) <==> t.id == id && Listed(cfg, t)
  {
    hide Parsed, Parse, Compare;
    if want.Some? {
      CompareOrder(want.value, t.version);
    }
  }

  /** The effect of one more tool on the selection of an id. */
  lemma {:induction false} SelectStep(cfg: Config, table: seq<Tool>, id: string)
    requires table != []
    ensures var before, after, t := Select(cfg, table[..|table| - 1]), Select(cfg, table), table[|table| - 1];
            var i, j := IndexOf(before, id), IndexOf(after, id);
            && (!(t.id == id && Listed(cfg, t)) ==> i.Some? == j.Some? && (i.Some? ==> after[j.value] == before[i.value]))
            && (t.id == id && Listed(cfg, t) && i.None? ==> j.Some? && after[j.value] == t)
            && (t.id == id && Listed(cfg, t) && i.Some? ==>
                  j.Some? && after[j.value] == if Better(t, before[i.value]) then t else before[i.value])
  {
    hide Better, Listed;
    var before, t := Select(cfg, table[..|table| - 1]), table[|table| - 1];
    var after := Select(cfg, table);
    SelectDistinct(cfg, table);
    SelectDistinct(cfg, table[..|table| - 1]);
    var i := IndexOf(before, id);
    if i.Some? {
      FirstWithId(after, i.value);
    } else if t.id == id && Listed(cfg, t) {
      FirstWithId(after, |before|);
    }
  }

  lemma {:induction false} RestHas(sel: seq<Tool>, front: seq<Tool>, t: Tool)
    ensures t in Rest(sel, front) <==> t in sel && t !in front
  {
    if sel != [] {
      RestHas(sel[..|sel| - 1], front, t);
      assert sel == sel[..|sel| - 1] + [sel[|sel| - 1]];
    }
  }

  lemma {:induction false} FrontFrom(priority: seq<string>, sel: seq<Tool>, t: Tool)
    requires t in Front(priority, sel)
    ensures t in sel && t.id in priority
  {
    if t !in Front(priority[..|priority| - 1], sel) {
      var j := IndexOf(sel, priority[|priority| - 1]).value;
      assert t == sel[j];
    } else {
      FrontFrom(priority[..|priority| - 1], sel, t);
    }
  }

  lemma {:induction false} FrontHas(priority: seq<string>, sel: seq<Tool>, t: Tool)
    requires DistinctIds(sel) && t in sel && t.id in priority
    ensures t in Front(priority, sel)
  {
    var j :| 0 <= j < |sel| && sel[j] == t;
    FirstWithId(sel, j);
    if priority[|priority| - 1] != t.id {
      assert t.id in priority[..|priority| - 1];
      FrontHas(priority[..|priority| - 1], sel, t);
    }
  }

  /** Arranging keeps the selection. */
  lemma {:induction false} ArrangeHas(cfg: Config, sel: seq<Tool>, t: Tool)
    ensures t in Arrange(cfg, sel) <==> t in sel
  {
    var front := Front(cfg.priority, sel);
    SortSorts(Rest(sel, front), ID);
    RestHas(sel, front, t);
    assert t in Sort(Rest(sel, front), ID) <==> t in multiset(Sort(Rest(sel, front), ID));
    assert t in Rest(sel, front) <==> t in multiset(Rest(sel, front));
    if t in front {
      FrontFrom(cfg.priority, sel, t);
    }
  }

  /** Ids as manifests have them: not empty, and without '@'. */
  predicate Slug(id: string) { id != "" && !Contains(id, '@') }

  lemma {:induction false} NoAt(id: string)
    requires !Contains(id, '@')
    ensures UpTo(id, '@') == |id|
  {
    var n := UpTo(id, '@');
    assert forall i :: 0 <= i < |id| ==> id[i] != '@';
  }

  lemma {:induction false} BareReference(cfg: Config, id: string)
    requires Slug(id)
    ensures Reference(cfg, id) ==
            match PinFor(cfg.pins, id)
            case None => Wanted(id, None)
            case Some(text) => match Parse(text) case None => BadVersion case Some(v) => Wanted(id, Some(v))
  {
    NoAt(id);
    assert id[..|id|] == id;
  }

  /** A tool is listed exactly when resolving its bare id returns that very tool. */
  lemma {:induction false} CatalogueAgrees(cfg: Config, table: seq<Tool>, t: Tool)
    requires TableOk(cfg, table) && Slug(t.id)
    ensures t in Collect(cfg, table) <==>
            Reference(cfg, t.id).Wanted? && Find(cfg, table, t.id, Reference(cfg, t.id).version) == Hit(t)
  {
    hide Find, Better, Parse, Compare;
    AllParsed(cfg, table);
    ArrangeHas(cfg, Select(cfg, table), t);
    BareReference(cfg, t.id);
    SelectDistinct(cfg, table);
    SelectedByIndex(Select(cfg, table), t);
    FindsBest(cfg, table, t);
    if Reference(cfg, t.id).Wanted? {
      var want := Reference(cfg, t.id).version;
      assert want.Some? ==> Parsed(want.value);
      SelectIsBest(cfg, table, t.id, want);
    } else {
      NotListed(cfg, table, t.id);
    }
  }

  lemma {:induction false} FindsBest(cfg: Config, table: seq<Tool>, t: Tool)
    ensures forall id, want :: Find(cfg, table, id, want) == Hit(t) <==> Best(cfg, table, id, want, true) == Some(t)
  {
    hide Best;
  }

  lemma {:induction false} SelectedByIndex(sel: seq<Tool>, t: Tool)
    requires DistinctIds(sel)
    ensures t in sel <==> IndexOf(sel, t.id).Some? && sel[IndexOf(sel, t.id).value] == t
  {
    if t in sel {
      var j :| 0 <= j < |sel| && sel[j] == t;
      FirstWithId(sel, j);
    }
  }

  /** A pin that is not a version hides every version of its id. */
  lemma {:induction false} NotListed(cfg: Config, table: seq<Tool>, id: string)
    requires PinFor(cfg.pins, id).Some? && Parse(PinFor(cfg.pins, id).value).None?
    ensures IndexOf(Select(cfg, table), id).None?
  {
    hide Better, Parse;
    if table != [] {
      NotListed(cfg, table[..|table| - 1], id);
    }
  }

  // ---- the order --------------------------------------------------------------------------------------

  lemma {:induction false} RestDistinct(sel: seq<Tool>, front: seq<Tool>)
    requires forall i, j :: 0 <= i < j < |sel| ==> sel[i] != sel[j]
    ensures forall i, j :: 0 <= i < j < |Rest(sel, front)| ==> Rest(sel, front)[i] != Rest(sel, front)[j]
  {
    if sel != [] {
      var last := sel[|sel| - 1];
      RestDistinct(sel[..|sel| - 1], front);
      RestHas(sel[..|sel| - 1], front, last);
    }
  }

  /** Priority of a tool id: its first place in the configured list. */
  function Place(priority: seq<string>, id: string): nat {
    if priority == [] then 0 else if priority[0] == id then 0 else 1 + Place(priority[1..], id)
  }

  lemma {:induction false} PlaceSnoc(priority: seq<string>, id: string)
    requires priority != []
    ensures var init := priority[..|priority| - 1];
            && (id in init ==> Place(priority, id) == Place(init, id) < |init|)
            && (id !in init && priority[|priority| - 1] == id ==> Place(priority, id) == |init|)
  {
    var init := priority[..|priority| - 1];
    if |priority| > 1 {
      PlaceSnoc(priority[1..], id);
      assert priority[1..][..|priority| - 2] == init[1..];
      assert init == [init[0]] + init[1..];
    }
  }

  /** Priority tools come in the order of the list. */
  lemma {:induction false} FrontInPlace(priority: seq<string>, sel: seq<Tool>)
    requires DistinctIds(sel)
    ensures forall i, j :: 0 <= i < j < |Front(priority, sel)| ==>
              Place(priority, Front(priority, sel)[i].id) < Place(priority, Front(priority, sel)[j].id)
  {
    if priority != [] {
      var init, last := priority[..|priority| - 1], priority[|priority| - 1];
      var before, after := Front(init, sel), Front(priority, sel);
      FrontInPlace(init, sel);
      forall i | 0 <= i < |before|
        ensures Place(priority, before[i].id) == Place(init, before[i].id) < |init|
      {
        FrontFrom(init, sel, before[i]);
        PlaceSnoc(priority, before[i].id);
      }
      if after != before {
        var t := sel[IndexOf(sel, last).value];
        if last in init {
          FrontHas(init, sel, t);
        }
        PlaceSnoc(priority, last);
      }
    }
  }

  /** The first n tools are those with a configured priority, in its order; the
      others ascend strictly, so that every id stands once. */
  ghost predicate Ordered(priority: seq<string>, r: seq<Tool>, n: nat) {
    && n <= |r|
    && (forall i :: 0 <= i < |r| ==> (i < n <==> r[i].id in priority))
    && (forall i, j :: 0 <= i < j < n ==> Place(priority, r[i].id) < Place(priority, r[j].id))
    && (forall i, j :: n <= i < j < |r| ==> Lex(r[i].id, r[j].id) < 0)
  }

  lemma {:induction false} CollectOrder(cfg: Config, table: seq<Tool>)
    ensures exists n :: Ordered(cfg.priority, Collect(cfg, table), n)
  {
    var sel := Select(cfg, table);
    SelectDistinct(cfg, table);
    var front := Front(cfg.priority, sel);
    hide Select;
    FrontInPlace(cfg.priority, sel);
    var tail := Sort(Rest(sel, front), ID);
    TailAscends(sel, front, tail);
    InFront(cfg.priority, sel);
    OrderedParts(cfg.priority, front, tail);
    assert Collect(cfg, table) == front + tail;
  }

  lemma {:induction false} OrderedParts(priority: seq<string>, front: seq<Tool>, tail: seq<Tool>)
    requires forall i, j :: 0 <= i < j < |front| ==> Place(priority, front[i].id) < Place(priority, front[j].id)
    requires forall i, j :: 0 <= i < j < |tail| ==> Lex(tail[i].id, tail[j].id) < 0
    requires forall i :: 0 <= i < |front| ==> front[i].id in priority
    requires forall t :: t in tail ==> t.id !in priority
    ensures Ordered(priority, front + tail, |front|)
  {
    hide Place, Lex;
    var r := front + tail;
    assert forall i :: 0 <= i < |front| ==> r[i] == front[i];
    assert forall i :: |front| <= i < |r| ==> r[i] == tail[i - |front|] && tail[i - |front|] in tail;
  }

  lemma {:induction false} InFront(priority: seq<string>, sel: seq<Tool>)
    requires DistinctIds(sel)
    ensures var front := Front(priority, sel);
            && (forall i :: 0 <= i < |front| ==> front[i].id in priority)
            && (forall t :: t in Sort(Rest(sel, front), ID) ==> t.id !in priority)
  {
    var front := Front(priority, sel);
    forall i | 0 <= i < |front|
      ensures front[i].id in priority
    {
      FrontFrom(priority, sel, front[i]);
    }
    forall t | t in Sort(Rest(sel, front), ID)
      ensures t.id !in priority
    {
      TailNotFront(sel, front, t);
      if t.id in priority {
        FrontHas(priority, sel, t);
      }
    }
  }

  lemma {:induction false} TailNotFront(sel: seq<Tool>, front: seq<Tool>, t: Tool)
    requires t in Sort(Rest(sel, front), ID)
    ensures t in sel && t !in front
  {
    SortSorts(Rest(sel, front), ID);
    assert t in multiset(Sort(Rest(sel, front), ID));
    assert t in multiset(Rest(sel, front));
    RestHas(sel, front, t);
  }

  lemma {:induction false} TailAscends(sel: seq<Tool>, front: seq<Tool>, tail: seq<Tool>)
    requires DistinctIds(sel) && tail == Sort(Rest(sel, front), ID)
    ensures forall i, j :: 0 <= i < j < |tail| ==> Lex(tail[i].id, tail[j].id) < 0
  {
    var rest := Rest(sel, front);
    SortSorts(rest, ID);
    RestDistinct(sel, front);
    forall i, j | 0 <= i < j < |tail|
      ensures Lex(tail[i].id, tail[j].id) < 0
    {
      assert Below(ID(tail[i]), ID(tail[j]));
      TailNotFront(sel, front, tail[i]);
      TailNotFront(sel, front, tail[j]);
      TwoPlaces(rest, tail, i, j);
      var a :| 0 <= a < |sel| && sel[a] == tail[i];
      var b :| 0 <= b < |sel| && sel[b] == tail[j];
      LexOrder(tail[i].id, tail[j].id);
    }
  }

  /** A rearrangement of different elements has different elements. */
  lemma {:induction false} TwoPlaces(a: seq<Tool>, b: seq<Tool>, i: nat, j: nat)
    requires multiset(a) == multiset(b) && i < j < |b| && forall k, l :: 0 <= k < l < |a| ==> a[k] != a[l]
    ensures b[i] != b[j]
  {
    assert b == b[..i] + [b[i]] + b[i + 1..j] + [b[j]] + b[j + 1..];
    AtMostOnce(a, b[i]);
    assert multiset(b)[b[i]] <= 1;
  }

  lemma {:induction false} AtMostOnce(a: seq<Tool>, t: Tool)
    requires forall k, l :: 0 <= k < l < |a| ==> a[k] != a[l]
    ensures multiset(a)[t] <= 1
  {
    if a != [] {
      AtMostOnce(a[1..], t);
      assert a == [a[0]] + a[1..];
    }
  }

  // ---- independence of the table's order ----------------------------------------------------------------

  lemma {:induction false} BestSame(cfg: Config, a: seq<Tool>, b: seq<Tool>, id: string, want: Option<Version>)
    requires TableOk(cfg, a) && TableOk(cfg, b) && multiset(a) == multiset(b)
    ensures Best(cfg, a, id, want, true) == Best(cfg, b, id, want, true)
  {
    hide Better, Passes, TableOk;
    var p, q := Best(cfg, a, id, want, true), Best(cfg, b, id, want, true);
    AllParsed(cfg, a);
    AllParsed(cfg, b);
    assert forall t :: t in a <==> t in multiset(a);
    assert forall t :: t in b <==> t in multiset(b);
    assert p.Some? ==> p.value in b;
    assert q.Some? ==> q.value in a;
    if p.Some? && q.Some? {
      BestIsBest(cfg, a, id, want, true);
      BestIsBest(cfg, b, id, want, true);
      BetterNot(p.value, q.value);
      PassesId(cfg, p.value, id, want);
      PassesId(cfg, q.value, id, want);
      DistinctIn(cfg, b, p.value, q.value);
    }
  }

  lemma {:induction false} SelectSame(cfg: Config, a: seq<Tool>, b: seq<Tool>, id: string)
    requires TableOk(cfg, a) && TableOk(cfg, b) && multiset(a) == multiset(b)
    ensures var i, j := IndexOf(Select(cfg, a), id), IndexOf(Select(cfg, b), id);
            i.Some? == j.Some? && (i.Some? ==> Select(cfg, a)[i.value] == Select(cfg, b)[j.value])
  {
    hide Better, Parse, Best;
    AllParsed(cfg, a);
    AllParsed(cfg, b);
    var pin := PinFor(cfg.pins, id);
    if pin.Some? && Parse(pin.value).None? {
      NotListed(cfg, a, id);
      NotListed(cfg, b, id);
    } else {
      var want := if pin.Some? then Parse(pin.value) else None;
      assert want.Some? ==> Parsed(want.value);
      SelectIsBest(cfg, a, id, want);
      SelectIsBest(cfg, b, id, want);
      BestSame(cfg, a, b, id, want);
    }
  }

  ghost predicate SameSelection(s: seq<Tool>, t: seq<Tool>) {
    && DistinctIds(s) && DistinctIds(t)
    && forall id: string :: (var i, j := IndexOf(s, id), IndexOf(t, id); i.Some? == j.Some? && (i.Some? ==> s[i.value] == t[j.value]))
  }

  lemma {:induction false} FrontSame(priority: seq<string>, s: seq<Tool>, t: seq<Tool>)
    requires SameSelection(s, t)
    ensures Front(priority, s) == Front(priority, t)
  {
    if priority != [] {
      FrontSame(priority[..|priority| - 1], s, t);
    }
  }

  lemma {:induction false} SameBag(a: seq<Tool>, b: seq<Tool>)
    requires (forall k, l :: 0 <= k < l < |a| ==> a[k] != a[l]) && (forall k, l :: 0 <= k < l < |b| ==> b[k] != b[l])
    requires forall t :: t in a <==> t in b
    ensures multiset(a) == multiset(b)
  {
    forall t
      ensures multiset(a)[t] == multiset(b)[t]
    {
      AtMostOnce(a, t);
      AtMostOnce(b, t);
      assert t in multiset(a) <==> t in a;
      assert t in multiset(b) <==> t in b;
    }
  }

  /** The catalogue does not depend on the order of the table. */
  lemma {:induction false} CollectOrderFree(cfg: Config, a: seq<Tool>, b: seq<Tool>)
    requires TableOk(cfg, a) && TableOk(cfg, b) && multiset(a) == multiset(b)
    ensures Collect(cfg, a) == Collect(cfg, b)
  {
    hide Better, TableOk, Listed, Select;
    var s, t := Select(cfg, a), Select(cfg, b);
    SelectDistinct(cfg, a);
    SelectDistinct(cfg, b);
    forall id: string
      ensures var i, j := IndexOf(s, id), IndexOf(t, id); i.Some? == j.Some? && (i.Some? ==> s[i.value] == t[j.value])
    {
      SelectSame(cfg, a, b, id);
    }
    ArrangeSame(cfg, s, t);
  }

  lemma {:induction false} ArrangeSame(cfg: Config, s: seq<Tool>, t: seq<Tool>)
    requires SameSelection(s, t)
    ensures Arrange(cfg, s) == Arrange(cfg, t)
  {
    var front := Front(cfg.priority, s);
    FrontSame(cfg.priority, s, t);
    var x, y := Rest(s, front), Rest(t, front);
    RestDistinct(s, front);
    RestDistinct(t, front);
    forall u
      ensures u in x <==> u in y
    {
      RestHas(s, front, u);
      RestHas(t, front, u);
      SelectedByIndex(s, u);
      SelectedByIndex(t, u);
    }
    SameBag(x, y);
    forall i, j | 0 <= i < |x| && 0 <= j < |x| && ID(x[i]) == ID(x[j])
      ensures x[i] == x[j]
    {
      RestHas(s, front, x[i]);
      RestHas(s, front, x[j]);
      SelectedByIndex(s, x[i]);
      SelectedByIndex(s, x[j]);
    }
    SortForgets(x, y, ID);
  }
}
