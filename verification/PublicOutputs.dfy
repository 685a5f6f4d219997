/** What the public menu pages show of a menu (app/modules/catalog/menu_service.py). */
module PublicOutputs {

  import opened Common
  import opened Menus
  import opened PublicMenus

  /** Strictly ordered by a key. */
  ghost predicate Ordered(rows: seq<nat>, key: nat -> Key) {
    forall i, j :: 0 <= i < j < |rows| ==> Less(key(rows[i]), key(rows[j]))
  }

  // ---------------------------------------------------------------- rows in order

  lemma OrderedSnoc(rows: seq<nat>, x: nat, key: nat -> Key)
    requires Ordered(rows, key) && forall y :: y in rows ==> Less(key(y), key(x))
    ensures Ordered(rows + [x], key)
  {
    forall i, j | 0 <= i < j < |rows + [x]| ensures Less(key((rows + [x])[i]), key((rows + [x])[j])) {
      if j == |rows| { assert rows[i] in rows; }
    }
  }

  /** All before the last are less than it. */
  lemma OrderedFront(rows: seq<nat>, key: nat -> Key, y: nat)
    requires rows != [] && Ordered(rows, key) && y in rows[..|rows| - 1]
    ensures Less(key(y), key(rows[|rows| - 1]))
  {
    var i :| 0 <= i < |rows| - 1 && rows[i] == y;
  }

  lemma {:induction false} RowsOfOrdered(st: State, groups: seq<nat>, m: nat, key: nat -> Key)
    requires Ordered(groups, key)
    ensures Ordered(RowsOf(st, groups, m), key)
  {
    if groups != [] {
      var front, last := groups[..|groups| - 1], groups[|groups| - 1];
      RowsOfOrdered(st, front, m, key);
      forall y | y in RowsOf(st, front, m) ensures Less(key(y), key(last)) {
        RowsOfMembers(st, front, m, y);
        OrderedFront(groups, key, y);
      }
      OrderedSnoc(RowsOf(st, front, m), last, key);
    }
  }

  lemma {:induction false} ActiveRowsMembers(st: State, items: seq<nat>, g: nat, i: nat)
    ensures i in ActiveRows(st, items, g) <==> i in items && ItemActive(st, i) && st.items[i].group == g
  {
    if items != [] {
      ActiveRowsMembers(st, items[..|items| - 1], g, i);
      assert items == items[..|items| - 1] + [items[|items| - 1]];
    }
  }

  lemma {:induction false} ActiveRowsOrdered(st: State, items: seq<nat>, g: nat, key: nat -> Key)
    requires Ordered(items, key)
    ensures Ordered(ActiveRows(st, items, g), key)
  {
    if items != [] {
      var front, last := items[..|items| - 1], items[|items| - 1];
      ActiveRowsOrdered(st, front, g, key);
      forall y | y in ActiveRows(st, front, g) ensures Less(key(y), key(last)) {
        ActiveRowsMembers(st, front, g, y);
        OrderedFront(items, key, y);
      }
      OrderedSnoc(ActiveRows(st, front, g), last, key);
    }
  }

  // ---------------------------------------------------------------- position by position

  lemma {:induction false} ProductOutsAt(st: State, available: nat -> bool, items: seq<nat>)
    ensures |ProductOuts(st, available, items)| == |items|
    ensures forall k :: 0 <= k < |items| ==>
              var it := ItemAt(st, items[k]);
              ProductOuts(st, available, items)[k] == ProductOut(items[k], it.product, it.order, available(it.product))
  {
    if items != [] { ProductOutsAt(st, available, items[..|items| - 1]); }
  }

  lemma {:induction false} ShowGroupsAt(st: State, available: nat -> bool, groups: seq<nat>, rows: nat -> seq<nat>)
    ensures |ShowGroups(st, available, groups, rows)| == |groups|
    ensures forall k :: 0 <= k < |groups| ==>
              ShowGroups(st, available, groups, rows)[k] == ShowGroup(st, available, groups[k], rows(groups[k]))
  {
    if groups != [] { ShowGroupsAt(st, available, groups[..|groups| - 1], rows); }
  }

  /** The positions of the available products. */
  ghost function AvailableAt(products: seq<ProductOut>): set<nat> {
    set k: nat | k < |products| && products[k].available
  }

  lemma {:induction false} CountIsAvailable(products: seq<ProductOut>)
    ensures CountAvailable(products) == |AvailableAt(products)|
  {
    if products == [] {
      assert AvailableAt(products) == {};
    } else {
      var n: nat := |products| - 1;
      var front := products[..n];
      CountIsAvailable(front);
      assert AvailableAt(products) == AvailableAt(front) + if products[n].available then {n} else {};
    }
  }

  lemma {:induction false} UnavailableAre(shown: seq<GroupOut>, g: nat)
    ensures g in Unavailable(shown) <==> exists k :: 0 <= k < |shown| && shown[k].id == g && !shown[k].available
    ensures Unavailable(shown) == [] <==> forall k :: 0 <= k < |shown| ==> shown[k].available
  {
    if shown != [] {
      var n := |shown| - 1;
      UnavailableAre(shown[..n], g);
      assert forall k :: 0 <= k < n ==> shown[..n][k] == shown[k];
    }
  }

  lemma {:induction false} ShownFrom(st: State, available: nat -> bool, menus: seq<nat>, groups: seq<nat>,
                                     rows: nat -> seq<nat>, o: MenuOut)
    requires o in ShowMenus(st, available, menus, groups, rows)
    ensures o.id in menus && ShowMenu(st, available, o.id, RowsOf(st, groups, o.id), rows) == Some(o)
  {
    var n := |menus| - 1;
    if o in ShowMenus(st, available, menus[..n], groups, rows) {
      ShownFrom(st, available, menus[..n], groups, rows, o);
    }
  }

  // ---------------------------------------------------------------- results

  /** A group as shown: its row; its active items and no others, in order, each with its product, its
      position and whether that is available; and available itself exactly when enough of them are. */
  ghost predicate ShowsGroup(st: State, available: nat -> bool, out: GroupOut) {
    && out.id in st.groups && out.group == st.groups[out.id]
    && (forall i :: i in ActiveItems(st, out.id) <==> exists k :: 0 <= k < |out.products| && out.products[k].item == i)
    && (forall k, l :: 0 <= k < l < |out.products| ==> Before(st, out.products[k].item, out.products[l].item))
    && (forall k :: 0 <= k < |out.products| ==>
          var p := out.products[k];
          && p.item in st.items && p.product == st.items[p.item].product && p.order == st.items[p.item].order
          && p.available == available(p.product))
    && (out.available <==> |AvailableAt(out.products)| >= st.groups[out.id].min)
  }

  /** Item a stands before item b. */
  ghost predicate Before(st: State, a: nat, b: nat) {
    && a in st.items && b in st.items
    && (st.items[a].order < st.items[b].order || (st.items[a].order == st.items[b].order && a < b))
  }

  /** The rows found for a group: its active items, in order. */
  lemma RowsShow(st: State, items: seq<nat>, g: nat)
    requires Ordered(items, ItemKey(st)) && forall i :: i in ItemsOf(st, g) ==> i in items
    ensures var rows := ActiveRows(st, items, g);
            && (forall i :: i in rows <==> i in ActiveItems(st, g))
            && (forall k, l :: 0 <= k < l < |rows| ==> Before(st, rows[k], rows[l]))
  {
    var rows := ActiveRows(st, items, g);
    ActiveRowsOrdered(st, items, g, ItemKey(st));
    forall i ensures i in ActiveItems(st, g) <==> i in rows { ActiveRowsMembers(st, items, g, i); }
    forall k, l | 0 <= k < l < |rows| ensures Before(st, rows[k], rows[l]) {
      assert rows[k] in ActiveItems(st, g) && rows[l] in ActiveItems(st, g);
      assert Less(ItemKey(st)(rows[k]), ItemKey(st)(rows[l]));
    }
  }

  lemma GroupShows(st: State, available: nat -> bool, items: seq<nat>, g: nat)
    requires g in st.groups && Ordered(items, ItemKey(st))
    requires forall i :: i in items ==> i in st.items
    requires forall i :: i in ItemsOf(st, g) ==> i in items
    ensures ShowsGroup(st, available, ShowGroup(st, available, g, ActiveRows(st, items, g)))
  {
    RowsShow(st, items, g);
    RowsToGroup(st, available, g, ActiveRows(st, items, g));
  }

  lemma RowsToGroup(st: State, available: nat -> bool, g: nat, rows: seq<nat>)
    requires g in st.groups && forall i :: i in rows <==> i in ActiveItems(st, g)
    requires forall k, l :: 0 <= k < l < |rows| ==> Before(st, rows[k], rows[l])
    ensures ShowsGroup(st, available, ShowGroup(st, available, g, rows))
  {
    var out := ShowGroup(st, available, g, rows);
    ProductOutsAt(st, available, rows);
    CountIsAvailable(out.products);
    forall k | 0 <= k < |rows| ensures rows[k] in st.items { assert rows[k] in ActiveItems(st, g); }
    forall i ensures i in ActiveItems(st, g) <==> exists k :: 0 <= k < |out.products| && out.products[k].item == i {
      if i in rows {
        var k :| 0 <= k < |rows| && rows[k] == i;
        assert out.products[k].item == i;
      }
    }
  }

  /** A menu as shown: its row; its groups and no others, in order; available exactly when they all
      are, and otherwise with those that are not. */
  ghost predicate ShowsMenu(st: State, available: nat -> bool, o: MenuOut) {
    && o.id in st.menus && o.menu == st.menus[o.id]
    && (forall g :: g in GroupsOf(st, o.id) <==> exists k :: 0 <= k < |o.groups| && o.groups[k].id == g)
    && (forall k, l :: 0 <= k < l < |o.groups| ==>
          var g, h := o.groups[k], o.groups[l];
          g.group.order < h.group.order || (g.group.order == h.group.order && g.id < h.id))
    && (forall k :: 0 <= k < |o.groups| ==> ShowsGroup(st, available, o.groups[k]))
    && (o.available <==> forall k :: 0 <= k < |o.groups| ==> o.groups[k].available)
    && (forall g :: g in o.reasons <==>
          exists k :: 0 <= k < |o.groups| && o.groups[k].id == g && !o.groups[k].available)
  }

  lemma GroupsShown(st: State, available: nat -> bool, own: seq<nat>, items: seq<nat>, shown: seq<GroupOut>)
    requires shown == ShowGroups(st, available, own, ActiveRowsBy(st, items)) && Ordered(items, ItemKey(st))
    requires forall g :: g in own ==> g in st.groups && forall i :: i in ItemsOf(st, g) ==> i in items
    requires forall i :: i in items ==> i in st.items
    ensures |shown| == |own|
    ensures forall k :: 0 <= k < |shown| ==> shown[k].id == own[k] && ShowsGroup(st, available, shown[k])
  {
    ShowGroupsAt(st, available, own, ActiveRowsBy(st, items));
    forall k | 0 <= k < |own| ensures shown[k].id == own[k] && ShowsGroup(st, available, shown[k]) {
      assert own[k] in own;
      GroupShows(st, available, items, own[k]);
    }
  }

  /** Every menu that a page shows is shown as it is. */
  lemma OutputsShowMenus(st: State, available: nat -> bool, menus: seq<nat>, groups: seq<nat>, items: seq<nat>,
                         o: MenuOut)
    requires Selected(groups, GroupsIn(st, menus), GroupKey(st)) && Selected(items, ItemsIn(st, groups), ItemKey(st))
    requires o in Outputs(st, available, menus, groups, items) && forall m :: m in menus ==> m in st.menus
    ensures ShowsMenu(st, available, o)
  {
    var rows, own := ActiveRowsBy(st, items), RowsOf(st, groups, o.id);
    ShownFrom(st, available, menus, groups, rows, o);
    OwnGroups(st, menus, groups, o.id);
    assert Ordered(items, ItemKey(st));
    forall g | g in own ensures g in st.groups && forall i :: i in ItemsOf(st, g) ==> i in items {
      assert g in groups;
      assert forall i :: i in ItemsOf(st, g) ==> i in ItemsIn(st, groups);
    }
    assert forall i :: i in items ==> i in ItemsIn(st, groups);
    GroupsShown(st, available, own, items, o.groups);
    MenuShows(st, available, own, o);
  }

  lemma OwnGroups(st: State, menus: seq<nat>, groups: seq<nat>, m: nat)
    requires Selected(groups, GroupsIn(st, menus), GroupKey(st)) && m in menus
    ensures Ordered(RowsOf(st, groups, m), GroupKey(st))
    ensures forall g :: g in RowsOf(st, groups, m) <==> g in GroupsOf(st, m)
    ensures forall g :: g in RowsOf(st, groups, m) ==> g in groups
  {
    RowsOfOrdered(st, groups, m, GroupKey(st));
    forall g ensures g in RowsOf(st, groups, m) <==> g in groups && g in GroupsOf(st, m) {
      RowsOfMembers(st, groups, m, g);
    }
    forall g | g in GroupsOf(st, m) ensures g in groups { assert g in GroupsIn(st, menus); }
  }

  lemma MenuShows(st: State, available: nat -> bool, own: seq<nat>, o: MenuOut)
    requires o.id in st.menus && o.menu == st.menus[o.id] && |o.groups| == |own|
    requires o.available == (Unavailable(o.groups) == []) && o.reasons == Unavailable(o.groups)
    requires Ordered(own, GroupKey(st)) && forall g :: g in own <==> g in GroupsOf(st, o.id)
    requires forall k :: 0 <= k < |own| ==> o.groups[k].id == own[k] && ShowsGroup(st, available, o.groups[k])
    ensures ShowsMenu(st, available, o)
  {
    forall g
      ensures g in o.reasons <==> exists k :: 0 <= k < |o.groups| && o.groups[k].id == g && !o.groups[k].available
    {
      UnavailableAre(o.groups, g);
    }
    UnavailableAre(o.groups, 0);
    forall k, l | 0 <= k < l < |own|
      ensures var g, h := o.groups[k], o.groups[l];
              g.group.order < h.group.order || (g.group.order == h.group.order && g.id < h.id)
    {
      assert own[k] in GroupsOf(st, o.id) && own[l] in GroupsOf(st, o.id);
      assert Less(GroupKey(st)(own[k]), GroupKey(st)(own[l]));
    }
    forall g ensures g in own <==> exists k :: 0 <= k < |o.groups| && o.groups[k].id == g {
      if g in own {
        var k :| 0 <= k < |own| && own[k] == g;
        assert o.groups[k].id == g;
      }
    }
  }

  /** The menus are listed by position, then by name in the database's collation, then by id. */
  lemma ListedInOrder(st: State, now: int, collate: string -> int, menus: seq<nat>, i: nat, j: nat)
    requires Selected(menus, VisibleIds(st, now), MenuKey(st, collate)) && i < j < |OnlyComplete(st, menus)|
    ensures var listed := OnlyComplete(st, menus);
            && listed[i] in st.menus && listed[j] in st.menus
            && var a, b := st.menus[listed[i]], st.menus[listed[j]];
            || a.order < b.order
            || (a.order == b.order && collate(a.text) < collate(b.text))
            || (a.order == b.order && collate(a.text) == collate(b.text) && listed[i] < listed[j])
  {
    OnlyCompleteOrdered(st, menus, MenuKey(st, collate));
    var listed := OnlyComplete(st, menus);
    OnlyCompleteMembers(st, menus, listed[i]);
    OnlyCompleteMembers(st, menus, listed[j]);
    assert listed[i] in VisibleIds(st, now) && listed[j] in VisibleIds(st, now);
    assert Less(MenuKey(st, collate)(listed[i]), MenuKey(st, collate)(listed[j]));
  }
}
