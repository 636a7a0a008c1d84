/** Packages grouped by name for display, newest version first. */
module Grouping {
  import opened Sorting
  import opened Versions

  datatype Package = Package(name: string, version: string)

  datatype Group = Group(name: string, packages: seq<Package>)

  /** The packages of one name, in the order given. */
  function Named(packages: seq<Package>, name: string): seq<Package> {
    if packages == [] then []
    else
      var n := |packages| - 1;
      Named(packages[..n], name) + if packages[n].name == name then [packages[n]] else []
  }

  /** The comparator `(a, b) => -cmpVersion(a.version, b.version)` as an order. */
  function NewestFirst(locale: Locale): (Package, Package) -> bool {
    (a: Package, b: Package) => -CmpVersion(a.version, b.version, locale) <= 0
  }

  function ByName(locale: Locale): (Group, Group) -> bool {
    (a: Group, b: Group) => locale(a.name, b.name) <= 0
  }

  predicate HasName(packages: seq<Package>, name: string) {
    exists i :: 0 <= i < |packages| && packages[i].name == name
  }

  predicate HasGroup(out: seq<Group>, name: string) {
    exists i :: 0 <= i < |out| && out[i].name == name
  }

  /** The names in order of first appearance, each with all its packages. */
  ghost predicate GroupedSoFar(packages: seq<Package>, order: seq<string>, groups: map<string, seq<Package>>) {
    && (forall i, j | 0 <= i < j < |order| :: order[i] != order[j])
    && (forall name :: name in groups <==> name in order)
    && (forall name :: name in order <==> HasName(packages, name))
    && (forall name | name in groups :: groups[name] == Named(packages, name))
  }

  lemma NamedNone(packages: seq<Package>, name: string)
    requires !HasName(packages, name)
    ensures Named(packages, name) == []
  {
  }

  lemma HasNameSnoc(packages: seq<Package>, p: Package, name: string)
    ensures HasName(packages + [p], name) <==> HasName(packages, name) || name == p.name
  {
    var more := packages + [p];
    if HasName(packages, name) {
      var i :| 0 <= i < |packages| && packages[i].name == name;
      assert more[i].name == name;
    }
    assert more[|packages|].name == p.name;
  }

  lemma GroupOneMore(packages: seq<Package>, p: Package, order: seq<string>, groups: map<string, seq<Package>>,
                     order': seq<string>, groups': map<string, seq<Package>>)
    requires GroupedSoFar(packages, order, groups)
    requires order' == if p.name in groups then order else order + [p.name]
    requires groups' == groups[p.name := (if p.name in groups then groups[p.name] else []) + [p]]
    ensures GroupedSoFar(packages + [p], order', groups')
  {
    var more := packages + [p];
    assert more[..|packages|] == packages;
    forall name ensures name in order' <==> HasName(more, name) {
      HasNameSnoc(packages, p, name);
    }
    if p.name !in groups {
      NamedNone(packages, p.name);
    }
    forall name | name in groups' ensures groups'[name] == Named(more, name) {
    }
  }

  method Collect(packages: seq<Package>) returns (order: seq<string>, groups: map<string, seq<Package>>)
    ensures GroupedSoFar(packages, order, groups)
  {
    order := [];
    groups := map[];
    for i := 0 to |packages|
      invariant GroupedSoFar(packages[..i], order, groups)
    {
      ghost var order0, groups0 := order, groups;
      var p := packages[i];
      if p.name !in groups {
        groups := groups[p.name := []];
        order := order + [p.name];
      }
      groups := groups[p.name := groups[p.name] + [p]];
      GroupOneMore(packages[..i], p, order0, groups0, order, groups);
      assert packages[..i] + [p] == packages[..i + 1];
    }
    assert packages[..|packages|] == packages;
  }

  function NewestOf(list: seq<Package>, locale: Locale): seq<Package> { Sort(list, NewestFirst(locale)) }

  function GroupFor(packages: seq<Package>, name: string, locale: Locale): Group {
    Group(name, NewestOf(Named(packages, name), locale))
  }

  /** One group per name that occurs, holding the packages of that name sorted newest first. */
  ghost predicate IsGrouping(packages: seq<Package>, out: seq<Group>, locale: Locale) {
    && (forall i, j | 0 <= i < j < |out| :: out[i].name != out[j].name)
    && (forall name :: HasGroup(out, name) <==> HasName(packages, name))
    && (forall i | 0 <= i < |out| :: out[i] == GroupFor(packages, out[i].name, locale))
  }

  ghost predicate AreGroupsOf(packages: seq<Package>, names: seq<string>, out: seq<Group>, locale: Locale) {
    |out| == |names| && forall k | 0 <= k < |out| :: out[k] == GroupFor(packages, names[k], locale)
  }

  method SortGroups(packages: seq<Package>, order: seq<string>, groups: map<string, seq<Package>>, locale: Locale)
    returns (out: seq<Group>)
    requires GroupedSoFar(packages, order, groups)
    ensures IsGrouping(packages, out, locale)
  {
    out := [];
    for i := 0 to |order|
      invariant AreGroupsOf(packages, order[..i], out, locale)
    {
      assert order[..i + 1] == order[..i] + [order[i]];
      out := out + [Group(order[i], NewestOf(groups[order[i]], locale))];
    }
    assert order[..|order|] == order;
    GroupsOfNames(packages, order, out, locale);
  }

  lemma GroupsOfNames(packages: seq<Package>, order: seq<string>, out: seq<Group>, locale: Locale)
    requires forall i, j | 0 <= i < j < |order| :: order[i] != order[j]
    requires forall name :: name in order <==> HasName(packages, name)
    requires AreGroupsOf(packages, order, out, locale)
    ensures IsGrouping(packages, out, locale)
  {
    forall name ensures HasGroup(out, name) <==> name in order {
      if name in order {
        var i :| 0 <= i < |order| && order[i] == name;
        assert out[i].name == name;
      }
    }
  }

  /** Reordering a list without repeated names keeps it one, with the same groups. */
  lemma GroupingReordered(packages: seq<Package>, a: seq<Group>, b: seq<Group>, locale: Locale)
    requires IsGrouping(packages, a, locale) && multiset(a) == multiset(b)
    ensures IsGrouping(packages, b, locale)
  {
    SameElements(a, b);
    assert Distinct(a);
    ReorderedDistinct(a, b);
    forall name ensures HasGroup(b, name) <==> HasGroup(a, name) {
      if HasGroup(a, name) {
        var i :| 0 <= i < |a| && a[i].name == name;
        assert a[i] in b;
      }
      if HasGroup(b, name) {
        var i :| 0 <= i < |b| && b[i].name == name;
        assert b[i] in a;
      }
    }
    forall i | 0 <= i < |b|
      ensures b[i] == GroupFor(packages, b[i].name, locale)
    {
      assert b[i] in a;
    }
    forall i, j | 0 <= i < j < |b| ensures b[i].name != b[j].name {
      assert b[i] in a && b[j] in a && b[i] != b[j];
    }
  }

  /** The whole grouping, sorted by name wherever the locale orders names at all. */
  method GroupByName(packages: seq<Package>, locale: Locale) returns (out: seq<Group>)
    ensures IsGrouping(packages, out, locale)
    ensures LocaleOrder(locale) ==> forall i, j | 0 <= i < j < |out| :: locale(out[i].name, out[j].name) <= 0
  {
    var order, groups := Collect(packages);
    var unsorted := SortGroups(packages, order, groups, locale);
    out := Sort(unsorted, ByName(locale));
    GroupingReordered(packages, unsorted, out, locale);
    if LocaleOrder(locale) {
      SortSorted(unsorted, ByName(locale));
      assert forall i, j | 0 <= i < j < |out| :: ByName(locale)(out[i], out[j]);
    }
  }

  // ---------- what a grouping means ----------

  lemma {:induction false} NamedCounts(packages: seq<Package>, name: string, p: Package)
    ensures multiset(Named(packages, name))[p] == if p.name == name then multiset(packages)[p] else 0
  {
    if packages != [] {
      var n := |packages| - 1;
      NamedCounts(packages[..n], name, p);
      assert packages == packages[..n] + [packages[n]];
    }
  }

  /** Every package is in exactly one group, the one of its name, as often as it was given. */
  lemma EveryPackageInOneGroup(packages: seq<Package>, out: seq<Group>, locale: Locale, p: Package)
    requires IsGrouping(packages, out, locale)
    ensures forall i | 0 <= i < |out| ::
      multiset(out[i].packages)[p] == if out[i].name == p.name then multiset(packages)[p] else 0
    ensures p in packages ==> exists i :: 0 <= i < |out| && out[i].name == p.name && p in out[i].packages
  {
    forall i | 0 <= i < |out|
      ensures multiset(out[i].packages)[p] == if out[i].name == p.name then multiset(packages)[p] else 0
    {
      NamedCounts(packages, out[i].name, p);
    }
    if p in packages {
      assert HasName(packages, p.name);
      var i :| 0 <= i < |out| && out[i].name == p.name;
      assert p in multiset(packages);
      assert p in multiset(out[i].packages);
    }
  }

  function VersionsOf(packages: seq<Package>): set<seq<Token>> {
    set p | p in packages :: Tokens(p.version)
  }

  /** Where the versions of a group are uncrossed and unmasked, the group runs from the newest to
      the oldest. */
  lemma GroupsNewestFirst(packages: seq<Package>, out: seq<Group>, locale: Locale, g: nat)
    requires IsGrouping(packages, out, locale) && g < |out|
    requires forall p | p in Named(packages, out[g].name) :: Fair(Tokens(p.version), locale)
    requires !CrossedIn(VersionsOf(Named(packages, out[g].name)), locale)
    requires !MaskedIn(VersionsOf(Named(packages, out[g].name)), locale)
    ensures forall i, j | 0 <= i < j < |out[g].packages| ::
      CmpVersion(out[g].packages[i].version, out[g].packages[j].version, locale) >= 0
  {
    var named := Named(packages, out[g].name);
    var vs := VersionsOf(named);
    var le := NewestFirst(locale);
    PreorderIffUncrossed(vs, locale);
    forall x, y | x in named && y in named ensures le(x, y) || le(y, x) {
      CmpEqualIff(Tokens(x.version), Tokens(y.version), locale);
    }
    forall x, y, z | x in named && y in named && z in named && le(x, y) && le(y, z) ensures le(x, z) {
      FlipTransitive(x.version, y.version, z.version, vs, locale);
    }
    SortSorted(named, le);
    forall i, j | 0 <= i < j < |out[g].packages|
      ensures CmpVersion(out[g].packages[i].version, out[g].packages[j].version, locale) >= 0
    {
      assert le(out[g].packages[i], out[g].packages[j]);
    }
  }

  /** Under any locale at all, a group of numeric versions runs from the newest to the oldest. */
  lemma NumericGroupsNewestFirst(packages: seq<Package>, out: seq<Group>, locale: Locale, g: nat)
    requires IsGrouping(packages, out, locale) && g < |out|
    requires forall p | p in Named(packages, out[g].name) :: AllNumeric(Tokens(p.version))
    ensures forall i, j | 0 <= i < j < |out[g].packages| ::
      CmpVersion(out[g].packages[i].version, out[g].packages[j].version, locale) >= 0
  {
    NumericPreorder(VersionsOf(Named(packages, out[g].name)), locale);
    GroupsNewestFirst(packages, out, locale, g);
  }

  lemma FlipTransitive(a: string, b: string, c: string, vs: set<seq<Token>>, locale: Locale)
    requires Tokens(a) in vs && Tokens(b) in vs && Tokens(c) in vs && CmpTransitive(vs, locale)
    requires Fair(Tokens(a), locale) && Fair(Tokens(b), locale) && Fair(Tokens(c), locale)
    requires CmpVersion(a, b, locale) >= 0 && CmpVersion(b, c, locale) >= 0
    ensures CmpVersion(a, c, locale) >= 0
  {
    CmpEqualIff(Tokens(a), Tokens(b), locale);
    CmpEqualIff(Tokens(b), Tokens(c), locale);
    CmpEqualIff(Tokens(a), Tokens(c), locale);
    CmpEqualIff(Tokens(b), Tokens(a), locale);
    CmpEqualIff(Tokens(c), Tokens(b), locale);
    assert CmpTokens(Tokens(c), Tokens(b), locale) <= 0 && CmpTokens(Tokens(b), Tokens(a), locale) <= 0;
  }
}
