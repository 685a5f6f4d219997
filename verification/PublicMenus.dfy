/** The public menu pages: the counting filter used for pagination and the full builder
    (app/modules/catalog/menu_service.py). */
module PublicMenus {

  import opened Common
  import opened Menus

  // ---------------------------------------------------------------- SELECT ... ORDER BY

  /** A three-column sort key. */
  datatype Key = Key(a: int, b: int, c: int)

  predicate Less(k: Key, l: Key) {
    k.a < l.a || (k.a == l.a && (k.b < l.b || (k.b == l.b && k.c < l.c)))
  }

  /** `rows` is the result of a query that selects `ids` ordered by `key`. */
  ghost predicate Selected(rows: seq<nat>, ids: set<nat>, key: nat -> Key) {
    && (forall x :: x in rows <==> x in ids)
    && (forall i, j :: 0 <= i < j < |rows| ==> Less(key(rows[i]), key(rows[j])))
  }

  lemma {:induction false} Least(ids: set<nat>, key: nat -> Key) returns (x: nat)
    requires ids != {} && forall y, z :: y in ids && z in ids && y != z ==> key(y) != key(z)
    ensures x in ids && forall y :: y in ids && y != x ==> Less(key(x), key(y))
    decreases ids
  {
    x :| x in ids;
    if ids != {x} {
      var rest := ids - {x};
      assert ids == rest + {x};
      var y := Least(rest, key);
      assert key(x) != key(y);
      if Less(key(y), key(x)) { x := y; }
    }
  }

  /** Such a result always exists when the key tells rows apart. */
  lemma {:induction false} SelectionExists(ids: set<nat>, key: nat -> Key) returns (rows: seq<nat>)
    requires forall y, z :: y in ids && z in ids && y != z ==> key(y) != key(z)
    ensures Selected(rows, ids, key)
    decreases ids
  {
    if ids == {} {
      rows := [];
    } else {
      var x := Least(ids, key);
      var rest := SelectionExists(ids - {x}, key);
      rows := [x] + rest;
      forall i, j | 0 <= i < j < |rows| ensures Less(key(rows[i]), key(rows[j])) {
        assert rows[j] == rest[j - 1];
        assert rest[j - 1] in ids - {x};
      }
    }
  }

  lemma SelectedDistinct(rows: seq<nat>, ids: set<nat>, key: nat -> Key)
    requires Selected(rows, ids, key)
    ensures forall i, j :: 0 <= i < j < |rows| ==> rows[i] != rows[j]
  {
    forall i, j | 0 <= i < j < |rows| ensures rows[i] != rows[j] {
      assert Less(key(rows[i]), key(rows[j]));
    }
  }

  /** Menus by display order, name in the database's collation, and id. */
  function MenuKey(st: State, collate: string -> int): nat -> Key {
    x => if x in st.menus then Key(st.menus[x].order, collate(st.menus[x].text), x) else Key(0, 0, x)
  }

  function GroupKey(st: State): nat -> Key {
    x => if x in st.groups then Key(st.groups[x].menu, st.groups[x].order, x) else Key(0, 0, x)
  }

  function ItemKey(st: State): nat -> Key {
    x => if x in st.items then Key(st.items[x].group, st.items[x].order, x) else Key(0, 0, x)
  }

  function GroupsIn(st: State, menus: seq<nat>): set<nat> {
    set g | g in st.groups && st.groups[g].menu in menus
  }

  function ItemsIn(st: State, groups: seq<nat>): set<nat> {
    set i | i in st.items && st.items[i].group in groups
  }

  // ---------------------------------------------------------------- which menus are public

  /** `_public_menu_filter` */
  predicate Visible(menu: Menu, now: int) {
    menu.active && (menu.from.None? || menu.from.value <= now) && (menu.until.None? || menu.until.value > now)
  }

  function VisibleIds(st: State, now: int): set<nat> {
    set m | m in st.menus && Visible(st.menus[m], now)
  }

  /** Enough active products in every group, and at least one group. */
  predicate Complete(st: State, m: nat) {
    GroupsOf(st, m) != {} && forall g :: g in GroupsOf(st, m) ==> |ActiveItems(st, g)| >= st.groups[g].min
  }

  function OnlyComplete(st: State, menus: seq<nat>): seq<nat> {
    if menus == [] then []
    else
      OnlyComplete(st, menus[..|menus| - 1])
      + if Complete(st, menus[|menus| - 1]) then [menus[|menus| - 1]] else []
  }

  // ---------------------------------------------------------------- the counting filter

  /** The aggregate query: groups with at least one active item, and how many. */
  function ActiveCounts(st: State, groups: seq<nat>): map<nat, nat> {
    map g | g in groups && ActiveItems(st, g) != {} :: |ActiveItems(st, g)|
  }

  /** `active_counts.get(group.id, 0)` */
  function CountOf(counts: map<nat, nat>, g: nat): nat {
    if g in counts then counts[g] else 0
  }

  /** Rows of one menu among the selected groups, in their order. */
  function RowsOf(st: State, groups: seq<nat>, m: nat): seq<nat> {
    if groups == [] then []
    else
      var last := groups[|groups| - 1];
      RowsOf(st, groups[..|groups| - 1], m) + if last in st.groups && st.groups[last].menu == m then [last] else []
  }

  lemma {:induction false} RowsOfMembers(st: State, groups: seq<nat>, m: nat, g: nat)
    ensures g in RowsOf(st, groups, m) <==> g in groups && g in GroupsOf(st, m)
  {
    if groups != [] {
      RowsOfMembers(st, groups[..|groups| - 1], m, g);
      assert groups == groups[..|groups| - 1] + [groups[|groups| - 1]];
    }
  }

  /** The dictionary `groups_by_menu`. */
  method GroupByMenu(st: State, menus: seq<nat>, groups: seq<nat>) returns (byMenu: map<nat, seq<nat>>)
    requires forall g :: g in groups ==> g in st.groups && st.groups[g].menu in menus
    ensures byMenu.Keys == set m | m in menus
    ensures forall m :: m in byMenu ==> byMenu[m] == RowsOf(st, groups, m)
  {
    byMenu := map m | m in menus :: [];
    for i := 0 to |groups|
      invariant byMenu.Keys == set m | m in menus
      invariant forall m :: m in byMenu ==> byMenu[m] == RowsOf(st, groups[..i], m)
    {
      var g := groups[i];
      assert groups[..i + 1][..i] == groups[..i];
      var m := st.groups[g].menu;
      byMenu := byMenu[m := byMenu[m] + [g]];
    }
    assert groups[..|groups|] == groups;
  }

  /** `_complete_public_menu_ids` */
  method CompletePublicMenuIds(st: State, menus: seq<nat>, groups: seq<nat>) returns (ids: set<nat>)
    requires forall g :: g in groups <==> g in GroupsIn(st, menus)
    ensures ids == set m | m in menus && Complete(st, m)
  {
    if menus == [] { return {}; }
    if groups == [] {
      forall g ensures g !in GroupsIn(st, menus) {
        assert g in groups <==> g in GroupsIn(st, menus);
      }
      forall m | m in menus ensures !Complete(st, m) {
        assert GroupsOf(st, m) <= GroupsIn(st, menus);
      }
      return {};
    }
    var counts := ActiveCounts(st, groups);
    var byMenu := GroupByMenu(st, menus, groups);
    ids := set m | m in byMenu && byMenu[m] != [] &&
                   forall g :: g in byMenu[m] ==> CountOf(counts, g) >= GroupAt(st, g).min;
    forall m | m in menus ensures m in ids <==> Complete(st, m) {
      CountedIffComplete(st, menus, groups, m);
    }
  }

  /** Looking the counts up, 0 when absent, decides completeness. */
  lemma CountedIffComplete(st: State, menus: seq<nat>, groups: seq<nat>, m: nat)
    requires forall g :: g in groups <==> g in GroupsIn(st, menus)
    requires m in menus
    ensures forall g :: g in RowsOf(st, groups, m) <==> g in GroupsOf(st, m)
    ensures Complete(st, m) <==>
              && RowsOf(st, groups, m) != []
              && forall g :: g in RowsOf(st, groups, m) ==> CountOf(ActiveCounts(st, groups), g) >= st.groups[g].min
  {
    var rows := RowsOf(st, groups, m);
    forall g ensures g in rows <==> g in GroupsOf(st, m) {
      RowsOfMembers(st, groups, m, g);
    }
    assert rows == [] <==> GroupsOf(st, m) == {} by {
      if rows != [] { assert rows[0] in GroupsOf(st, m); }
      if GroupsOf(st, m) != {} { var g :| g in GroupsOf(st, m); assert g in rows; }
    }
    forall g | g in rows
      ensures CountOf(ActiveCounts(st, groups), g) == |ActiveItems(st, g)|
    {
      RowsOfMembers(st, groups, m, g);
      if ActiveItems(st, g) == {} { assert |ActiveItems(st, g)| == 0; }
    }
  }

  // ---------------------------------------------------------------- the full builder

  datatype ProductOut = ProductOut(item: nat, product: nat, order: int, available: bool)

  datatype GroupOut = GroupOut(id: nat, group: Group, products: seq<ProductOut>, available: bool)

  /** `reasons` names the groups without enough available products. */
  datatype MenuOut = MenuOut(id: nat, menu: Menu, groups: seq<GroupOut>, available: bool, reasons: seq<nat>)

  /** Active items of one group among the selected rows, in their order. */
  function ActiveRows(st: State, items: seq<nat>, g: nat): seq<nat> {
    if items == [] then []
    else
      var last := items[|items| - 1];
      ActiveRows(st, items[..|items| - 1], g)
      + if ItemActive(st, last) && st.items[last].group == g then [last] else []
  }

  // Rows selected by a query are there; the other cases only make the functions total.

  function ItemAt(st: State, i: nat): Item {
    if i in st.items then st.items[i] else Item(0, 0, 0)
  }

  function GroupAt(st: State, g: nat): Group {
    if g in st.groups then st.groups[g] else Group(0, "", 1, 1, 0)
  }

  function MenuAt(st: State, m: nat): Menu {
    if m in st.menus then st.menus[m] else Menu("", 0, 0, false, None, None)
  }

  function ProductOuts(st: State, available: nat -> bool, items: seq<nat>): seq<ProductOut> {
    if items == [] then []
    else
      var last := items[|items| - 1];
      var it := ItemAt(st, last);
      ProductOuts(st, available, items[..|items| - 1]) + [ProductOut(last, it.product, it.order, available(it.product))]
  }

  function CountAvailable(products: seq<ProductOut>): nat {
    if products == [] then 0
    else CountAvailable(products[..|products| - 1]) + if products[|products| - 1].available then 1 else 0
  }

  /** What is shown of a group whose items were found. */
  function ShowGroup(st: State, available: nat -> bool, g: nat, items: seq<nat>): GroupOut {
    var products := ProductOuts(st, available, items);
    GroupOut(g, GroupAt(st, g), products, CountAvailable(products) >= GroupAt(st, g).min)
  }

  /** `rows` gives the items found for each group. */
  function ShowGroups(st: State, available: nat -> bool, groups: seq<nat>, rows: nat -> seq<nat>): seq<GroupOut> {
    if groups == [] then []
    else
      var last := groups[|groups| - 1];
      ShowGroups(st, available, groups[..|groups| - 1], rows) + [ShowGroup(st, available, last, rows(last))]
  }

  function Unavailable(shown: seq<GroupOut>): seq<nat> {
    if shown == [] then []
    else Unavailable(shown[..|shown| - 1]) + if shown[|shown| - 1].available then [] else [shown[|shown| - 1].id]
  }

  lemma UnavailableNext(shown: seq<GroupOut>, o: GroupOut)
    ensures Unavailable(shown + [o]) == Unavailable(shown) + if o.available then [] else [o.id]
  {
    assert (shown + [o])[..|shown|] == shown;
  }

  predicate EnoughRows(st: State, groups: seq<nat>, rows: nat -> seq<nat>) {
    forall k :: 0 <= k < |groups| ==> |rows(groups[k])| >= GroupAt(st, groups[k]).min
  }

  /** The menu's output, or nothing when it has no group or a group lacks active products. */
  function ShowMenu(st: State, available: nat -> bool, m: nat, groups: seq<nat>,
                    rows: nat -> seq<nat>): Option<MenuOut> {
    if groups == [] || !EnoughRows(st, groups, rows) then None
    else
      var shown := ShowGroups(st, available, groups, rows);
      Some(MenuOut(m, MenuAt(st, m), shown, Unavailable(shown) == [], Unavailable(shown)))
  }

  function ActiveRowsBy(st: State, items: seq<nat>): nat -> seq<nat> {
    g => ActiveRows(st, items, g)
  }

  function ShowMenus(st: State, available: nat -> bool, menus: seq<nat>, groups: seq<nat>,
                     rows: nat -> seq<nat>): seq<MenuOut> {
    if menus == [] then []
    else
      var last := menus[|menus| - 1];
      ShowMenus(st, available, menus[..|menus| - 1], groups, rows)
      + match ShowMenu(st, available, last, RowsOf(st, groups, last), rows)
        case None => []
        case Some(o) => [o]
  }

  /** What the builder emits for these menus, given the rows its two queries return. */
  function Outputs(st: State, available: nat -> bool, menus: seq<nat>, groups: seq<nat>,
                   items: seq<nat>): seq<MenuOut> {
    ShowMenus(st, available, menus, groups, ActiveRowsBy(st, items))
  }

  /** The dictionary `items_by_group`, active products only. */
  method ActiveItemsByGroup(st: State, groups: seq<nat>, items: seq<nat>) returns (byGroup: map<nat, seq<nat>>)
    requires forall i :: i in items ==> i in st.items && st.items[i].group in groups
    ensures byGroup.Keys == set g | g in groups
    ensures forall g :: g in byGroup ==> byGroup[g] == ActiveRows(st, items, g)
  {
    byGroup := map g | g in groups :: [];
    for k := 0 to |items|
      invariant byGroup.Keys == set g | g in groups
      invariant forall g :: g in byGroup ==> byGroup[g] == ActiveRows(st, items[..k], g)
    {
      var i := items[k];
      assert items[..k + 1][..k] == items[..k];
      if ItemActive(st, i) {
        var g := st.items[i].group;
        byGroup := byGroup[g := byGroup[g] + [i]];
      }
    }
    assert items[..|items|] == items;
  }

  method BuildGroup(st: State, available: nat -> bool, g: nat, items: seq<nat>) returns (o: GroupOut)
    ensures o == ShowGroup(st, available, g, items)
  {
    var products: seq<ProductOut> := [];
    var count := 0;
    for k := 0 to |items|
      invariant products == ProductOuts(st, available, items[..k]) && count == CountAvailable(products)
    {
      var it := ItemAt(st, items[k]);
      assert items[..k + 1][..k] == items[..k];
      if available(it.product) { count := count + 1; }
      var next := products + [ProductOut(items[k], it.product, it.order, available(it.product))];
      assert next[..|products|] == products;
      products := next;
    }
    assert items[..|items|] == items;
    o := GroupOut(g, GroupAt(st, g), products, count >= GroupAt(st, g).min);
  }

  lemma ShowGroupsNext(st: State, available: nat -> bool, groups: seq<nat>, rows: nat -> seq<nat>, k: nat)
    requires k < |groups|
    ensures ShowGroups(st, available, groups[..k + 1], rows) ==
              ShowGroups(st, available, groups[..k], rows) + [ShowGroup(st, available, groups[k], rows(groups[k]))]
  {
    assert groups[..k + 1][..k] == groups[..k];
  }

  lemma EnoughNext(st: State, groups: seq<nat>, rows: nat -> seq<nat>, k: nat)
    requires k < |groups| && EnoughRows(st, groups[..k], rows)
    ensures EnoughRows(st, groups[..k + 1], rows) <==> |rows(groups[k])| >= GroupAt(st, groups[k]).min
    ensures |rows(groups[k])| < GroupAt(st, groups[k]).min ==> !EnoughRows(st, groups, rows)
  {
    assert groups[..k + 1][k] == groups[k];
  }

  /** The groups of one menu; stops at the first incomplete one. */
  method BuildGroups(st: State, available: nat -> bool, groups: seq<nat>, byGroup: map<nat, seq<nat>>,
                     ghost rows: nat -> seq<nat>)
    returns (complete: bool, shown: seq<GroupOut>, reasons: seq<nat>)
    requires forall g :: g in groups ==> g in byGroup && byGroup[g] == rows(g)
    ensures complete == EnoughRows(st, groups, rows)
    ensures complete ==> shown == ShowGroups(st, available, groups, rows) && reasons == Unavailable(shown)
  {
    complete, shown, reasons := true, [], [];
    for k := 0 to |groups|
      invariant shown == ShowGroups(st, available, groups[..k], rows) && reasons == Unavailable(shown)
      invariant EnoughRows(st, groups[..k], rows)
    {
      var g := groups[k];
      EnoughNext(st, groups, rows, k);
      if |byGroup[g]| < GroupAt(st, g).min {
        complete := false;
        return;
      }
      var group := BuildGroup(st, available, g, byGroup[g]);
      ShowGroupsNext(st, available, groups, rows, k);
      UnavailableNext(shown, group);
      if !group.available { reasons := reasons + [g]; }
      shown := shown + [group];
    }
    assert groups[..|groups|] == groups;
  }

  /** One menu of `_build_public_menu_outputs`. */
  method BuildMenu(st: State, available: nat -> bool, m: nat, groups: seq<nat>, byGroup: map<nat, seq<nat>>,
                   ghost rows: nat -> seq<nat>) returns (o: Option<MenuOut>)
    requires forall g :: g in groups ==> g in byGroup && byGroup[g] == rows(g)
    ensures o == ShowMenu(st, available, m, groups, rows)
  {
    if groups == [] { return None; }
    var complete, shown, reasons := BuildGroups(st, available, groups, byGroup, rows);
    if !complete { return None; }
    o := Some(MenuOut(m, MenuAt(st, m), shown, reasons == [], reasons));
  }

  lemma ShowMenusNext(st: State, available: nat -> bool, menus: seq<nat>, groups: seq<nat>,
                      rows: nat -> seq<nat>, k: nat)
    requires k < |menus|
    ensures ShowMenus(st, available, menus[..k + 1], groups, rows) ==
              ShowMenus(st, available, menus[..k], groups, rows)
              + match ShowMenu(st, available, menus[k], RowsOf(st, groups, menus[k]), rows)
                case None => []
                case Some(o) => [o]
  {
    assert menus[..k + 1][..k] == menus[..k];
  }

  /** `_build_public_menu_outputs` */
  method BuildPublicMenuOutputs(st: State, available: nat -> bool, menus: seq<nat>, groups: seq<nat>, items: seq<nat>)
    returns (outs: seq<MenuOut>)
    requires forall g :: g in groups ==> g in st.groups && st.groups[g].menu in menus
    requires forall i :: i in items ==> i in st.items && st.items[i].group in groups
    ensures outs == Outputs(st, available, menus, groups, items)
  {
    var byGroup := ActiveItemsByGroup(st, groups, items);
    var byMenu := GroupByMenu(st, menus, groups);
    ghost var rows := ActiveRowsBy(st, items);
    outs := [];
    for k := 0 to |menus|
      invariant outs == ShowMenus(st, available, menus[..k], groups, rows)
    {
      var m := menus[k];
      ShowMenusNext(st, available, menus, groups, rows, k);
      forall g | g in RowsOf(st, groups, m) ensures g in groups {
        RowsOfMembers(st, groups, m, g);
      }
      var o := BuildMenu(st, available, m, byMenu[m], byGroup, rows);
      if o.Some? { outs := outs + [o.value]; }
    }
    assert menus[..|menus|] == menus;
  }

  // ---------------------------------------------------------------- filter and builder agree

  function Ids(outs: seq<MenuOut>): seq<nat> {
    if outs == [] then [] else Ids(outs[..|outs| - 1]) + [outs[|outs| - 1].id]
  }

  lemma {:induction false} ActiveRowsOf(st: State, items: seq<nat>, g: nat)
    requires forall i, j :: 0 <= i < j < |items| ==> items[i] != items[j]
    ensures forall x :: x in ActiveRows(st, items, g) <==> x in items && ItemActive(st, x) && st.items[x].group == g
    ensures forall i, j :: 0 <= i < j < |ActiveRows(st, items, g)| ==>
              ActiveRows(st, items, g)[i] != ActiveRows(st, items, g)[j]
  {
    if items != [] {
      var front, last := items[..|items| - 1], items[|items| - 1];
      ActiveRowsOf(st, front, g);
      assert items == front + [last];
      assert last !in front;
    }
  }

  /** The builder's list of a group is as long as the filter's count. */
  lemma SameCount(st: State, groups: seq<nat>, items: seq<nat>, g: nat)
    requires Selected(items, ItemsIn(st, groups), ItemKey(st)) && g in groups
    ensures |ActiveRows(st, items, g)| == |ActiveItems(st, g)|
  {
    SelectedDistinct(items, ItemsIn(st, groups), ItemKey(st));
    ActiveRowsOf(st, items, g);
    var rows := ActiveRows(st, items, g);
    DistinctCount(rows);
    assert Elements(rows) == ActiveItems(st, g);
  }

  /** The builder emits a menu exactly when the filter keeps it. */
  lemma ShownIffComplete(st: State, available: nat -> bool, menus: seq<nat>, groups: seq<nat>, items: seq<nat>, m: nat)
    requires Selected(groups, GroupsIn(st, menus), GroupKey(st)) && Selected(items, ItemsIn(st, groups), ItemKey(st))
    requires m in menus
    ensures var o := ShowMenu(st, available, m, RowsOf(st, groups, m), ActiveRowsBy(st, items));
            (o.Some? <==> Complete(st, m)) && (o.Some? ==> o.value.id == m)
  {
    var rows := RowsOf(st, groups, m);
    forall g ensures g in rows <==> g in GroupsOf(st, m) {
      RowsOfMembers(st, groups, m, g);
    }
    forall g | g in rows ensures |ActiveRows(st, items, g)| == |ActiveItems(st, g)| {
      RowsOfMembers(st, groups, m, g);
      SameCount(st, groups, items, g);
    }
    var found := ActiveRowsBy(st, items);
    assert |rows| > 0 ==> rows[0] in rows;
    assert EnoughRows(st, rows, found) <==> forall g :: g in GroupsOf(st, m) ==>
        |ActiveItems(st, g)| >= st.groups[g].min by {
      if EnoughRows(st, rows, found) {
        forall g | g in GroupsOf(st, m) ensures |ActiveItems(st, g)| >= st.groups[g].min {
          var k :| 0 <= k < |rows| && rows[k] == g;
          assert |found(rows[k])| >= GroupAt(st, rows[k]).min;
        }
      }
    }
    if GroupsOf(st, m) != {} {
      var g :| g in GroupsOf(st, m);
      assert g in rows;
    }
  }

  /** Emitting one more menu, or not, appends its id, or does not. */
  lemma IdsNext(outs: seq<MenuOut>, o: Option<MenuOut>)
    ensures Ids(outs + match o case None => [] case Some(x) => [x]) == Ids(outs) + if o.Some? then [o.value.id] else []
  {
    if o.Some? {
      assert (outs + [o.value])[..|outs|] == outs;
    } else {
      assert outs + [] == outs;
    }
  }

  lemma OnlyCompleteNext(st: State, menus: seq<nat>, n: nat)
    requires n < |menus|
    ensures OnlyComplete(st, menus[..n + 1]) ==
              OnlyComplete(st, menus[..n]) + if Complete(st, menus[n]) then [menus[n]] else []
  {
    assert menus[..n + 1][..n] == menus[..n];
  }

  lemma {:induction false} BuilderFollows(st: State, available: nat -> bool, menus: seq<nat>, groups: seq<nat>,
                                          rows: nat -> seq<nat>, n: nat)
    requires forall m :: m in menus ==>
               var o := ShowMenu(st, available, m, RowsOf(st, groups, m), rows);
               (o.Some? <==> Complete(st, m)) && (o.Some? ==> o.value.id == m)
    requires n <= |menus|
    ensures Ids(ShowMenus(st, available, menus[..n], groups, rows)) == OnlyComplete(st, menus[..n])
  {
    if n > 0 {
      var m := menus[n - 1];
      BuilderFollows(st, available, menus, groups, rows, n - 1);
      assert menus[..n][..n - 1] == menus[..n - 1];
      OnlyCompleteNext(st, menus, n - 1);
      IdsNext(ShowMenus(st, available, menus[..n - 1], groups, rows),
              ShowMenu(st, available, m, RowsOf(st, groups, m), rows));
    }
  }

  /** Main result: the builder emits exactly the menus that the counting filter keeps. */
  lemma BuilderMatchesFilter(st: State, available: nat -> bool, menus: seq<nat>, groups: seq<nat>, items: seq<nat>)
    requires Selected(groups, GroupsIn(st, menus), GroupKey(st)) && Selected(items, ItemsIn(st, groups), ItemKey(st))
    ensures Ids(Outputs(st, available, menus, groups, items)) == OnlyComplete(st, menus)
  {
    forall m | m in menus
      ensures var o := ShowMenu(st, available, m, RowsOf(st, groups, m), ActiveRowsBy(st, items));
              (o.Some? <==> Complete(st, m)) && (o.Some? ==> o.value.id == m)
    {
      ShownIffComplete(st, available, menus, groups, items, m);
    }
    BuilderFollows(st, available, menus, groups, ActiveRowsBy(st, items), |menus|);
    assert menus[..|menus|] == menus;
  }

  // ---------------------------------------------------------------- pages

  /** `list[offset : offset + size]` */
  function Slice(list: seq<nat>, offset: nat, size: nat): seq<nat> {
    if offset >= |list| then [] else if offset + size >= |list| then list[offset..] else list[offset..offset + size]
  }

  /** `complete_menus[offset : offset + page_size]` */
  function PageOf(list: seq<nat>, page: nat, size: nat): seq<nat>
    requires page >= 1 && size >= 1
  {
    Slice(list, (page - 1) * size, size)
  }

  function Pages(total: nat, size: nat): nat
    requires size >= 1
  {
    if total == 0 then 1 else (total + size - 1) / size
  }

  /** Pages 1 to n one after the other. */
  function FirstPages(list: seq<nat>, size: nat, n: nat): seq<nat>
    requires size >= 1
  {
    if n == 0 then [] else FirstPages(list, size, n - 1) + PageOf(list, n, size)
  }

  function Prefix(list: seq<nat>, n: nat): seq<nat> {
    if n >= |list| then list else list[..n]
  }

  /** One page after `offset` rows, the product already computed. */
  lemma PrefixNext(list: seq<nat>, offset: nat, size: nat)
    ensures Prefix(list, offset) + Slice(list, offset, size) == Prefix(list, offset + size)
  {
  }

  lemma {:induction false} PagesArePrefix(list: seq<nat>, size: nat, n: nat)
    requires size >= 1
    ensures FirstPages(list, size, n) == Prefix(list, n * size)
  {
    if n > 0 {
      PagesArePrefix(list, size, n - 1);
      PrefixNext(list, (n - 1) * size, size);
      assert n * size == (n - 1) * size + size;
    }
  }

  lemma CeilingCovers(total: nat, size: nat)
    requires size >= 1 && total >= 1
    ensures Pages(total, size) * size >= total
  {
    var q, r := (total + size - 1) / size, (total + size - 1) % size;
    assert total + size - 1 == q * size + r;
  }

  /** `[menu for menu in menus if menu.id in complete_ids]` */
  method CompleteMenus(st: State, menus: seq<nat>, groups: seq<nat>) returns (complete: seq<nat>)
    requires forall g :: g in groups <==> g in GroupsIn(st, menus)
    ensures complete == OnlyComplete(st, menus)
  {
    var ids := CompletePublicMenuIds(st, menus, groups);
    complete := [];
    for k := 0 to |menus|
      invariant complete == OnlyComplete(st, menus[..k])
    {
      assert menus[..k + 1][..k] == menus[..k];
      if menus[k] in ids { complete := complete + [menus[k]]; }
    }
    assert menus[..|menus|] == menus;
  }

  /** The part of `list_public_menus` before the build: the menus of the page and the total. */
  method PageMenus(st: State, menus: seq<nat>, groups: seq<nat>, page: nat, size: nat)
    returns (pageMenus: seq<nat>, total: nat)
    requires page >= 1 && size >= 1
    requires forall g :: g in groups <==> g in GroupsIn(st, menus)
    ensures pageMenus == PageOf(OnlyComplete(st, menus), page, size) && total == |OnlyComplete(st, menus)|
  {
    var complete := CompleteMenus(st, menus, groups);
    total := |complete|;
    pageMenus := PageOf(complete, page, size);
  }

  lemma {:induction false} OnlyCompleteMembers(st: State, menus: seq<nat>, m: nat)
    ensures m in OnlyComplete(st, menus) <==> m in menus && Complete(st, m)
  {
    if menus != [] {
      OnlyCompleteMembers(st, menus[..|menus| - 1], m);
      assert menus == menus[..|menus| - 1] + [menus[|menus| - 1]];
    }
  }

  lemma {:induction false} OnlyCompleteKeepsAll(st: State, menus: seq<nat>)
    requires forall m :: m in menus ==> Complete(st, m)
    ensures OnlyComplete(st, menus) == menus
  {
    if menus != [] {
      OnlyCompleteKeepsAll(st, menus[..|menus| - 1]);
      assert menus == menus[..|menus| - 1] + [menus[|menus| - 1]];
    }
  }

  lemma {:induction false} OnlyCompleteOrdered(st: State, menus: seq<nat>, key: nat -> Key)
    requires forall i, j :: 0 <= i < j < |menus| ==> Less(key(menus[i]), key(menus[j]))
    ensures var c := OnlyComplete(st, menus); forall i, j :: 0 <= i < j < |c| ==> Less(key(c[i]), key(c[j]))
  {
    if menus != [] {
      var front, last := menus[..|menus| - 1], menus[|menus| - 1];
      OnlyCompleteOrdered(st, front, key);
      var c := OnlyComplete(st, front);
      forall i | 0 <= i < |c| ensures Less(key(c[i]), key(last)) {
        OnlyCompleteMembers(st, front, c[i]);
        var k :| 0 <= k < |front| && front[k] == c[i];
        assert menus[k] == c[i];
      }
    }
  }

  /** Every menu of a page is built: the page shows exactly the menus counted for it. */
  lemma PageIsComplete(st: State, available: nat -> bool, menus: seq<nat>, page: nat, size: nat,
                       groups: seq<nat>, items: seq<nat>)
    requires page >= 1 && size >= 1
    requires var shown := PageOf(OnlyComplete(st, menus), page, size);
             && Selected(groups, GroupsIn(st, shown), GroupKey(st))
             && Selected(items, ItemsIn(st, groups), ItemKey(st))
    ensures var shown := PageOf(OnlyComplete(st, menus), page, size);
            Ids(Outputs(st, available, shown, groups, items)) == shown
  {
    var shown := PageOf(OnlyComplete(st, menus), page, size);
    forall m | m in shown ensures Complete(st, m) {
      assert m in OnlyComplete(st, menus);
      OnlyCompleteMembers(st, menus, m);
    }
    BuilderMatchesFilter(st, available, shown, groups, items);
    OnlyCompleteKeepsAll(st, shown);
  }

  function CompleteIds(st: State, now: int): set<nat> {
    set m | m in VisibleIds(st, now) && Complete(st, m)
  }

  /** `get_public_menu` finds the menu. */
  ghost predicate Gettable(st: State, available: nat -> bool, now: int, m: nat, groups: seq<nat>, items: seq<nat>) {
    m in st.menus && Visible(st.menus[m], now) && Outputs(st, available, [m], groups, items) != []
  }

  /** Main theorem: all pages together are the visible complete menus, each once, in order; the
      total is their number. */
  lemma PagesListEachMenuOnce(st: State, now: int, collate: string -> int, menus: seq<nat>, size: nat)
    requires size >= 1 && Selected(menus, VisibleIds(st, now), MenuKey(st, collate))
    ensures FirstPages(OnlyComplete(st, menus), size, Pages(|OnlyComplete(st, menus)|, size)) == OnlyComplete(st, menus)
    ensures Selected(OnlyComplete(st, menus), CompleteIds(st, now), MenuKey(st, collate))
  {
    var c := OnlyComplete(st, menus);
    PagesArePrefix(c, size, Pages(|c|, size));
    if |c| > 0 { CeilingCovers(|c|, size); }
    OnlyCompleteOrdered(st, menus, MenuKey(st, collate));
    forall m ensures m in c <==> m in VisibleIds(st, now) && Complete(st, m) {
      OnlyCompleteMembers(st, menus, m);
    }
  }

  lemma IdsEmpty(outs: seq<MenuOut>)
    ensures Ids(outs) == [] <==> outs == []
  {
  }

  lemma {:induction false} BuiltAloneIffComplete(st: State, available: nat -> bool, m: nat, groups: seq<nat>,
                                                 items: seq<nat>)
    requires Selected(groups, GroupsIn(st, [m]), GroupKey(st)) && Selected(items, ItemsIn(st, groups), ItemKey(st))
    ensures Outputs(st, available, [m], groups, items) != [] <==> Complete(st, m)
  {
    BuilderMatchesFilter(st, available, [m], groups, items);
    assert [m][..0] == [];
    IdsEmpty(Outputs(st, available, [m], groups, items));
  }

  /** Exactly which menus the pages list: active, begun and not ended, with a group, and with at least
      the minimum of items for an active product in every group. */
  lemma ListedIff(st: State, now: int, collate: string -> int, menus: seq<nat>, m: nat)
    requires Selected(menus, VisibleIds(st, now), MenuKey(st, collate))
    ensures m in OnlyComplete(st, menus) <==>
              && m in st.menus && st.menus[m].active
              && (st.menus[m].from.Some? ==> st.menus[m].from.value <= now)
              && (st.menus[m].until.Some? ==> now < st.menus[m].until.value)
              && (exists g :: g in st.groups && st.groups[g].menu == m)
              && forall g :: g in st.groups && st.groups[g].menu == m ==>
                   |set i | i in st.items && st.items[i].group == g && st.items[i].product in st.products
                            && st.products[st.items[i].product]| >= st.groups[g].min
  {
    OnlyCompleteMembers(st, menus, m);
    assert m in menus <==> m in VisibleIds(st, now);
    forall g ensures ActiveItems(st, g) == set i | i in st.items && st.items[i].group == g
                                              && st.items[i].product in st.products && st.products[st.items[i].product]
    {
    }
    assert GroupsOf(st, m) != {} <==> exists g :: g in st.groups && st.groups[g].menu == m by {
      if g :| g in st.groups && st.groups[g].menu == m { assert g in GroupsOf(st, m); }
      if g :| g in GroupsOf(st, m) { assert g in st.groups && st.groups[g].menu == m; }
    }
  }

  /** A single menu can be fetched exactly when the pages list it, and every active, in-window,
      publishable menu is listed. */
  lemma GettableIffListed(st: State, available: nat -> bool, now: int, collate: string -> int, menus: seq<nat>,
                          m: nat, groups: seq<nat>, items: seq<nat>)
    requires Selected(menus, VisibleIds(st, now), MenuKey(st, collate))
    requires Selected(groups, GroupsIn(st, [m]), GroupKey(st)) && Selected(items, ItemsIn(st, groups), ItemKey(st))
    ensures Gettable(st, available, now, m, groups, items) <==> m in OnlyComplete(st, menus)
    ensures m in st.menus && Visible(st.menus[m], now) && Publishable(st, m) ==> m in OnlyComplete(st, menus)
  {
    OnlyCompleteMembers(st, menus, m);
    assert m in menus <==> m in VisibleIds(st, now);
    BuiltAloneIffComplete(st, available, m, groups, items);
  }
}
