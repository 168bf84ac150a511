/**
 * The list logic of the application-management screen: the rows shown for
 * each installed application, their order, the radio-button filters, the
 * "unfreeze all" and "freeze others" selections, the freeze toggle and the
 * category label. Icons, views and the platform calls that hide packages are
 * not modelled.
 */
module AppManagement {

  import opened TextMatch
  import opened SeqFilter

  /** One row of the list (the icon is left out). */
  datatype AppDisplayInfo = AppDisplayInfo(
    name: string,
    packageName: string,
    isWhitelisted: bool,
    isSystem: bool,
    isHidden: bool,
    isAdmin: bool)

  /** What the package manager reports for an installed application. */
  datatype InstalledApp = InstalledApp(appLabel: string, packageName: string, isSystem: bool)

  function PackageNames(apps: seq<AppDisplayInfo>): (r: seq<string>)
    ensures |r| == |apps|
    ensures forall i | 0 <= i < |apps| :: r[i] == apps[i].packageName
  {
    Map(apps, (a: AppDisplayInfo) => a.packageName)
  }

  /** No two rows share a package name, as for the package manager's list. */
  predicate UniquePackages(apps: seq<AppDisplayInfo>) {
    forall i, j | 0 <= i < j < |apps| :: apps[i].packageName != apps[j].packageName
  }

  // ----- the two bulk selections -----

  /** "Unfreeze all": the package names of the hidden rows, in list order. */
  function UnfreezeSelection(apps: seq<AppDisplayInfo>): (r: seq<string>)
    ensures |r| == Count(apps, (a: AppDisplayInfo) => a.isHidden)
    ensures IsSubsequence(r, PackageNames(apps))
    ensures forall p | p in r :: exists i :: 0 <= i < |apps| && apps[i].isHidden && apps[i].packageName == p
    ensures forall i | 0 <= i < |apps| && apps[i].isHidden :: apps[i].packageName in r
    ensures r == PackageNames(Filter(apps, (a: AppDisplayInfo) => a.isHidden))
  {
    FilterMap(apps, (a: AppDisplayInfo) => a.isHidden, (a: AppDisplayInfo) => a.packageName)
  }

  /** Rows that "freeze others" hides: not whitelisted, not the own package, not already hidden. */
  predicate Freezable(a: AppDisplayInfo, ownPackage: string) {
    !a.isWhitelisted && a.packageName != ownPackage && !a.isHidden
  }

  /** "Freeze others": the package names of the freezable rows, in list order. */
  function FreezeSelection(apps: seq<AppDisplayInfo>, ownPackage: string): (r: seq<string>)
    ensures IsSubsequence(r, PackageNames(apps))
    ensures ownPackage !in r
    ensures forall p | p in r :: exists i :: 0 <= i < |apps| && apps[i].packageName == p
                                  && !apps[i].isWhitelisted && !apps[i].isHidden
    ensures forall i | 0 <= i < |apps| && Freezable(apps[i], ownPackage) :: apps[i].packageName in r
    ensures |r| == Count(apps, (a: AppDisplayInfo) => Freezable(a, ownPackage))
    ensures r == PackageNames(Filter(apps, (a: AppDisplayInfo) => Freezable(a, ownPackage)))
  {
    FilterMap(apps, (a: AppDisplayInfo) => Freezable(a, ownPackage), (a: AppDisplayInfo) => a.packageName)
  }

  /**
   * With unique package names, the freeze selection names no whitelisted or
   * hidden row, and the two selections share no package.
   */
  lemma SelectionsDisjoint(apps: seq<AppDisplayInfo>, ownPackage: string)
    requires UniquePackages(apps)
    ensures forall i | 0 <= i < |apps| && (apps[i].isWhitelisted || apps[i].isHidden) ::
              apps[i].packageName !in FreezeSelection(apps, ownPackage)
    ensures forall p | p in FreezeSelection(apps, ownPackage) :: p !in UnfreezeSelection(apps)
  {
    var fr := FreezeSelection(apps, ownPackage);
    var un := UnfreezeSelection(apps);
    forall i | 0 <= i < |apps| && (apps[i].isWhitelisted || apps[i].isHidden)
      ensures apps[i].packageName !in fr
    {
      forall j | 0 <= j < |apps| && apps[j].packageName == apps[i].packageName
        ensures apps[j].isWhitelisted || apps[j].isHidden
      {
        if i < j { } else if j < i { }
      }
    }
    forall p | p in fr
      ensures p !in un
    {
      var j :| 0 <= j < |apps| && apps[j].packageName == p && !apps[j].isWhitelisted && !apps[j].isHidden;
      forall i | 0 <= i < |apps| && apps[i].isHidden
        ensures apps[i].packageName != p
      {
        if i < j { } else if j < i { }
      }
    }
  }

  /** Without unique package names the selections can overlap. */
  lemma SelectionsOverlapWithDuplicateNames()
    ensures var apps := [AppDisplayInfo("A", "p", false, false, true, false),
                         AppDisplayInfo("B", "p", false, false, false, false)];
            "p" in FreezeSelection(apps, "own") && "p" in UnfreezeSelection(apps)
  {
    var apps := [AppDisplayInfo("A", "p", false, false, true, false),
                 AppDisplayInfo("B", "p", false, false, false, false)];
    assert Freezable(apps[1], "own");
    assert apps[0].isHidden;
  }

  // ----- the sort order -----

  /**
   * `compareBy({ !isWhitelisted }, { !isSystem }, { name })`: whitelisted
   * rows first, then system rows, then by name.
   */
  predicate KeyLeq(a: AppDisplayInfo, b: AppDisplayInfo) {
    if a.isWhitelisted != b.isWhitelisted then a.isWhitelisted
    else if a.isSystem != b.isSystem then a.isSystem
    else StrLeq(a.name, b.name)
  }

  lemma KeyLeqTotal(a: AppDisplayInfo, b: AppDisplayInfo)
    ensures KeyLeq(a, b) || KeyLeq(b, a)
  {
    StrLeqTotal(a.name, b.name);
  }

  lemma KeyLeqTransitive(a: AppDisplayInfo, b: AppDisplayInfo, c: AppDisplayInfo)
    requires KeyLeq(a, b) && KeyLeq(b, c)
    ensures KeyLeq(a, c)
  {
    if a.isWhitelisted == b.isWhitelisted == c.isWhitelisted && a.isSystem == b.isSystem == c.isSystem {
      StrLeqTransitive(a.name, b.name, c.name);
    }
  }

  predicate Sorted(s: seq<AppDisplayInfo>) {
    forall i, j | 0 <= i < j < |s| :: KeyLeq(s[i], s[j])
  }

  /** Inserts `x` before the first element it does not follow. */
  function Insert(x: AppDisplayInfo, s: seq<AppDisplayInfo>): (r: seq<AppDisplayInfo>)
    requires Sorted(s)
    ensures Sorted(r)
    ensures multiset(r) == multiset(s) + multiset{x}
  {
    if |s| == 0 then [x]
    else if KeyLeq(x, s[0]) then
      assert forall j | 0 <= j < |s| :: KeyLeq(x, s[j]) by {
        forall j | 0 < j < |s|
          ensures KeyLeq(x, s[j])
        {
          KeyLeqTransitive(x, s[0], s[j]);
        }
      }
      [x] + s
    else
      KeyLeqTotal(x, s[0]);
      var rest := Insert(x, s[1..]);
      assert s == [s[0]] + s[1..];
      assert forall j | 0 <= j < |rest| :: KeyLeq(s[0], rest[j]) by {
        forall j | 0 <= j < |rest|
          ensures KeyLeq(s[0], rest[j])
        {
          assert rest[j] in multiset(rest);
          if rest[j] != x {
            assert rest[j] in multiset(s[1..]);
            var k :| 0 <= k < |s[1..]| && s[1..][k] == rest[j];
            assert s[k + 1] == rest[j];
          }
        }
      }
      [s[0]] + rest
  }

  /**
   * The sorted list: a permutation of the input in which whitelisted rows
   * precede the others, system rows precede user rows within equal whitelist
   * status, and names are ordered within equal status.
   */
  function SortApps(apps: seq<AppDisplayInfo>): (r: seq<AppDisplayInfo>)
    ensures multiset(r) == multiset(apps) && |r| == |apps|
    ensures Sorted(r)
    ensures forall i, j | 0 <= i < j < |r| :: r[j].isWhitelisted ==> r[i].isWhitelisted
    ensures forall i, j | 0 <= i < j < |r| ::
              r[i].isWhitelisted == r[j].isWhitelisted && r[j].isSystem ==> r[i].isSystem
    ensures forall i, j | 0 <= i < j < |r| ::
              r[i].isWhitelisted == r[j].isWhitelisted && r[i].isSystem == r[j].isSystem
              ==> StrLeq(r[i].name, r[j].name)
  {
    if |apps| == 0 then []
    else
      assert apps == [apps[0]] + apps[1..];
      Insert(apps[0], SortApps(apps[1..]))
  }

  /** The row built for one installed application. */
  function Display(app: InstalledApp, whitelist: set<string>, hidden: set<string>, admins: seq<string>): (r: AppDisplayInfo)
  {
    AppDisplayInfo(app.appLabel, app.packageName, app.packageName in whitelist,
                   app.isSystem, app.packageName in hidden, app.packageName in admins)
  }

  /**
   * `loadApps`: one row per installed application, flags read from the
   * whitelist, the hidden set and the active administrators, then sorted.
   */
  function LoadApps(installed: seq<InstalledApp>, whitelist: set<string>, hidden: set<string>, admins: seq<string>)
    : (r: seq<AppDisplayInfo>)
    ensures |r| == |installed|
    ensures multiset(r) == multiset(Map(installed, (a: InstalledApp) => Display(a, whitelist, hidden, admins)))
    ensures Sorted(r)
    ensures forall a | a in r :: (a.isWhitelisted <==> a.packageName in whitelist)
                              && (a.isHidden <==> a.packageName in hidden)
                              && (a.isAdmin <==> a.packageName in admins)
    ensures forall a | a in r :: exists i :: 0 <= i < |installed| && installed[i].packageName == a.packageName
                                            && installed[i].appLabel == a.name && installed[i].isSystem == a.isSystem
  {
    var rows := Map(installed, (a: InstalledApp) => Display(a, whitelist, hidden, admins));
    var r := SortApps(rows);
    assert forall a | a in r :: a in multiset(rows);
    r
  }

  // ----- the radio filters -----

  /** The radio buttons; `AllApps` also stands for any other id (the `else` branch). */
  datatype AppFilter = AllApps | WhitelistOnly | SystemOnly | UserOnly | AdminOnly

  predicate Selects(f: AppFilter, a: AppDisplayInfo) {
    match f
    case AllApps => true
    case WhitelistOnly => a.isWhitelisted
    case SystemOnly => a.isSystem
    case UserOnly => !a.isSystem
    case AdminOnly => a.isAdmin
  }

  /** The filter as a function value, shared by the filtering and the counting. */
  function SelectFn(f: AppFilter): AppDisplayInfo -> bool {
    (a: AppDisplayInfo) => Selects(f, a)
  }

  /**
   * The order-preserving sub-list of the rows the filter selects, each row
   * as often as it occurs in the list.
   */
  function ApplyFilter(apps: seq<AppDisplayInfo>, f: AppFilter): (r: seq<AppDisplayInfo>)
    ensures IsSubsequence(r, apps)
    ensures |r| == Count(apps, SelectFn(f))
    ensures forall a | a in r :: Selects(f, a)
    ensures forall i | 0 <= i < |apps| && Selects(f, apps[i]) :: apps[i] in r
    ensures forall x | x in multiset(r) :: multiset(r)[x] == multiset(apps)[x]
    ensures f == AllApps ==> r == apps
  {
    var r := Filter(apps, SelectFn(f));
    FilterLength(apps, SelectFn(f));
    if f == AllApps then
      FilterAll(apps, SelectFn(f));
      apps
    else
      r
  }

  /** The system and user filters partition the list. */
  lemma SystemUserPartition(apps: seq<AppDisplayInfo>)
    ensures |ApplyFilter(apps, SystemOnly)| + |ApplyFilter(apps, UserOnly)| == |apps|
    ensures multiset(ApplyFilter(apps, SystemOnly)) + multiset(ApplyFilter(apps, UserOnly)) == multiset(apps)
  {
    FilterPartition(apps, SelectFn(SystemOnly), SelectFn(UserOnly));
  }

  // ----- the freeze toggle -----

  /** The per-row effect of toggling `pkg` to `hidden`. */
  function HideFn(pkg: string, hidden: bool): AppDisplayInfo -> AppDisplayInfo {
    (a: AppDisplayInfo) => if a.packageName == pkg then a.(isHidden := hidden) else a
  }

  /** The update of the full list after a toggle: every row of `pkg` takes the new state. */
  function SyncHidden(apps: seq<AppDisplayInfo>, pkg: string, hidden: bool): (r: seq<AppDisplayInfo>)
    ensures |r| == |apps|
    ensures forall i | 0 <= i < |apps| && apps[i].packageName == pkg :: r[i].isHidden == hidden
    ensures forall i | 0 <= i < |apps| && apps[i].packageName != pkg :: r[i] == apps[i]
    ensures forall i | 0 <= i < |apps| :: r[i].(isHidden := apps[i].isHidden) == apps[i]
  {
    Map(apps, HideFn(pkg, hidden))
  }

  /** The update of the displayed list after a toggle: only the row at `position` changes. */
  function SetHiddenAt(data: seq<AppDisplayInfo>, position: nat, hidden: bool): (r: seq<AppDisplayInfo>)
    requires position < |data|
    ensures |r| == |data| && r[position].isHidden == hidden
    ensures r[position].(isHidden := data[position].isHidden) == data[position]
    ensures forall i | 0 <= i < |data| && i != position :: r[i] == data[i]
  {
    data[position := data[position].(isHidden := hidden)]
  }

  /** With unique package names, the positional update and the by-name update agree. */
  lemma PositionalUpdateAgrees(data: seq<AppDisplayInfo>, position: nat, hidden: bool)
    requires position < |data| && UniquePackages(data)
    ensures SetHiddenAt(data, position, hidden) == SyncHidden(data, data[position].packageName, hidden)
  {
    var a := SetHiddenAt(data, position, hidden);
    var b := SyncHidden(data, data[position].packageName, hidden);
    forall i | 0 <= i < |data|
      ensures a[i] == b[i]
    {
      if i != position {
        assert data[i].packageName != data[position].packageName by {
          if i < position { } else { }
        }
      }
    }
  }

  lemma UniqueTail(apps: seq<AppDisplayInfo>)
    requires |apps| > 0 && UniquePackages(apps)
    ensures UniquePackages(apps[1..])
    ensures forall x | x in apps[1..] :: x.packageName != apps[0].packageName
  {
    var tail := apps[1..];
    forall i, j | 0 <= i < j < |tail|
      ensures tail[i].packageName != tail[j].packageName
    {
      assert tail[i] == apps[i + 1] && tail[j] == apps[j + 1];
    }
    forall x | x in tail
      ensures x.packageName != apps[0].packageName
    {
      var k :| 0 <= k < |tail| && tail[k] == x;
      assert apps[k + 1] == x;
    }
  }

  lemma UniqueCons(x: AppDisplayInfo, rest: seq<AppDisplayInfo>)
    requires UniquePackages(rest)
    requires forall y | y in rest :: y.packageName != x.packageName
    ensures UniquePackages([x] + rest)
  {
    var r := [x] + rest;
    forall i, j | 0 <= i < j < |r|
      ensures r[i].packageName != r[j].packageName
    {
      assert r[j] == rest[j - 1];
      if i > 0 {
        assert r[i] == rest[i - 1];
      } else {
        assert r[j] in rest;
      }
    }
  }

  /** A sub-list of a list with unique package names has unique package names. */
  lemma {:induction false} FilterKeepsUnique(apps: seq<AppDisplayInfo>, keep: AppDisplayInfo -> bool)
    requires UniquePackages(apps)
    ensures UniquePackages(Filter(apps, keep))
  {
    if |apps| > 0 {
      UniqueTail(apps);
      FilterKeepsUnique(apps[1..], keep);
      if keep(apps[0]) {
        UniqueCons(apps[0], Filter(apps[1..], keep));
      }
    }
  }

  /**
   * The toggle on a displayed (filtered) row: the positional update of the
   * displayed list equals filtering the full list after its by-name update.
   * No filter looks at the hidden flag, so the two stay in step.
   */
  lemma DisplayedToggleAgrees(all: seq<AppDisplayInfo>, f: AppFilter, position: nat, hidden: bool)
    requires UniquePackages(all) && position < |ApplyFilter(all, f)|
    ensures var shown := ApplyFilter(all, f);
            ApplyFilter(SyncHidden(all, shown[position].packageName, hidden), f)
              == SetHiddenAt(shown, position, hidden)
  {
    var shown := ApplyFilter(all, f);
    var pkg := shown[position].packageName;
    if f == AllApps {
      PositionalUpdateAgrees(all, position, hidden);
    } else {
      assert shown == Filter(all, SelectFn(f));
      FilterMapCommute(all, SelectFn(f), HideFn(pkg, hidden));
      assert ApplyFilter(SyncHidden(all, pkg, hidden), f) == Filter(Map(all, HideFn(pkg, hidden)), SelectFn(f));
      FilterKeepsUnique(all, SelectFn(f));
      PositionalUpdateAgrees(shown, position, hidden);
    }
  }

  /** Toggling a package back to the state all its rows had restores the list. */
  lemma ToggleRoundTrip(apps: seq<AppDisplayInfo>, pkg: string, hidden: bool)
    requires forall i | 0 <= i < |apps| && apps[i].packageName == pkg :: apps[i].isHidden == hidden
    ensures SyncHidden(SyncHidden(apps, pkg, !hidden), pkg, hidden) == apps
  {
    var r := SyncHidden(SyncHidden(apps, pkg, !hidden), pkg, hidden);
    forall i | 0 <= i < |apps|
      ensures r[i] == apps[i]
    {
    }
  }

  /** After a toggle, the package is in the unfreeze selection iff it was toggled to hidden. */
  lemma ToggleThenUnfreeze(apps: seq<AppDisplayInfo>, pkg: string, hidden: bool)
    requires pkg in PackageNames(apps)
    ensures pkg in UnfreezeSelection(SyncHidden(apps, pkg, hidden)) <==> hidden
  {
    var r := SyncHidden(apps, pkg, hidden);
    var i :| 0 <= i < |apps| && PackageNames(apps)[i] == pkg;
    if hidden {
      assert r[i].isHidden && r[i].packageName == pkg;
    } else {
      forall j | 0 <= j < |r| && r[j].packageName == pkg
        ensures !r[j].isHidden
      {
        assert apps[j].packageName == pkg;
      }
    }
  }

  // ----- the category label -----

  /** The label shown for a row. */
  datatype Category = DeviceAdministrator | WhitelistedApp | SystemApp | NormalApp

  /** Precedence: administrator, then whitelisted, then system, then normal. */
  function CategoryOf(a: AppDisplayInfo): (c: Category)
    ensures c == DeviceAdministrator <==> a.isAdmin
    ensures c == WhitelistedApp <==> !a.isAdmin && a.isWhitelisted
    ensures c == SystemApp <==> !a.isAdmin && !a.isWhitelisted && a.isSystem
    ensures c == NormalApp <==> !a.isAdmin && !a.isWhitelisted && !a.isSystem
  {
    if a.isAdmin then DeviceAdministrator
    else if a.isWhitelisted then WhitelistedApp
    else if a.isSystem then SystemApp
    else NormalApp
  }

  /**
   * The label agrees with the radio filters: exactly the administrator rows
   * are labelled as such, and each other label implies the filter of its flag.
   */
  lemma CategoryMatchesFilters(apps: seq<AppDisplayInfo>)
    ensures forall a :: CategoryOf(a) == DeviceAdministrator <==> Selects(AdminOnly, a)
    ensures forall a :: CategoryOf(a) == WhitelistedApp ==> Selects(WhitelistOnly, a)
    ensures forall a :: CategoryOf(a) == SystemApp ==> Selects(SystemOnly, a)
    ensures forall a :: CategoryOf(a) == NormalApp ==> Selects(UserOnly, a)
    ensures forall a | a in ApplyFilter(apps, UserOnly) :: CategoryOf(a) != SystemApp
    ensures forall a | a in ApplyFilter(apps, WhitelistOnly) ::
              CategoryOf(a) == DeviceAdministrator || CategoryOf(a) == WhitelistedApp
  {
  }
}
