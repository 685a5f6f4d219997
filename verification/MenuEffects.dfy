/** What the menu operations write, field by field, and exactly when they succeed
    (app/modules/catalog/menu_service.py, app/modules/catalog/models.py). */
module MenuEffects {

  import opened Common
  import opened Menus

  // ---------------------------------------------------------------- menus

  /** Price and order are not negative, and a window that is closed on both sides is not empty. */
  predicate Constrained(m: Menu) {
    && m.price >= 0 && m.order >= 0
    && (m.from.None? || m.until.None? || m.from.value < m.until.value)
  }

  /** A menu is created exactly when it is a draft that meets the constraints; the row is the one given. */
  lemma CreateMenuExactly(st: State, id: nat, menu: Menu)
    requires st.nextMenu <= id && id !in st.menus
    ensures CreateMenu(st, id, menu).Ok? <==> !menu.active && Constrained(menu)
    ensures CreateMenu(st, id, menu) == Err(NotPublishable) <==> menu.active
    ensures CreateMenu(st, id, menu).Ok? ==>
              var next := CreateMenu(st, id, menu).value;
              && next.menus == st.menus[id := menu] && next.log == st.log + [Entry(Created, id)]
              && next.groups == st.groups && next.items == st.items && next.products == st.products
  {
  }

  lemma {:induction false} MergedExists(before: Menu, p: MenuPatch) returns (m: Menu)
    ensures Merged(m, before, p)
  {
    m := Patched(before, p);
  }

  /** An update writes the merged row, and succeeds exactly when nothing was nulled, the row meets the
      constraints and, if it is active, the menu is publishable; otherwise which error it gives. */
  lemma UpdateMenuExactly(st: State, id: nat, p: MenuPatch, m: Menu)
    requires id in st.menus && Merged(m, st.menus[id], p)
    ensures UpdateMenu(st, id, p).Ok? <==> !p.nulled && Constrained(m) && (m.active ==> Publishable(st, id))
    ensures UpdateMenu(st, id, p) == Err(NotPublishable) <==>
              !p.nulled && Constrained(m) && m.active && !Publishable(st, id)
    ensures UpdateMenu(st, id, p).Ok? ==>
              var next := UpdateMenu(st, id, p).value;
              && next.menus == st.menus[id := m]
              && next.groups == st.groups && next.items == st.items && next.products == st.products
  {
    assert m == Patched(st.menus[id], p);
    var next := st.(menus := st.menus[id := m]);
    assert GroupsOf(next, id) == GroupsOf(st, id);
    assert forall g :: ItemsOf(next, g) == ItemsOf(st, g) && ActiveItems(next, g) == ActiveItems(st, g);
  }

  /** The entries of an update. */
  ghost function Added(id: nat, before: Menu, m: Menu): seq<Entry> {
    if before == m then []
    else
      [Entry(Updated, id)] + (if before.price != m.price then [Entry(PriceChanged, id)] else [])
      + (if before.active != m.active then [Entry(if m.active then Published else Unpublished, id)] else [])
  }

  lemma UpdateLogAdds(log: seq<Entry>, id: nat, before: Menu, m: Menu)
    ensures UpdateLog(log, id, before, m) == log + Added(id, before, m)
  {
  }

  /** All about this menu; one for a change at all, one for a change of price, and last one for a
      change of publication. */
  ghost predicate Tells(entries: seq<Entry>, id: nat, before: Menu, m: Menu) {
    && (forall e :: e in entries ==> e.menu == id)
    && (Entry(Updated, id) in entries <==> m != before)
    && (Entry(PriceChanged, id) in entries <==> m.price != before.price)
    && (Entry(Published, id) in entries <==> m.active && !before.active)
    && (Entry(Unpublished, id) in entries <==> !m.active && before.active)
    && (m.active != before.active ==>
          |entries| > 0 && entries[|entries| - 1] == Entry(if m.active then Published else Unpublished, id))
  }

  lemma AddedTells(id: nat, before: Menu, m: Menu)
    ensures Tells(Added(id, before, m), id, before, m)
  {
  }

  /** The entries an update adds tell exactly what changed. */
  lemma UpdateMenuLogs(st: State, id: nat, p: MenuPatch, m: Menu)
    requires id in st.menus && Merged(m, st.menus[id], p) && UpdateMenu(st, id, p).Ok?
    ensures exists entries ::
              UpdateMenu(st, id, p).value.log == st.log + entries && Tells(entries, id, st.menus[id], m)
  {
    assert m == Patched(st.menus[id], p);
    UpdateLogAdds(st.log, id, st.menus[id], m);
    AddedTells(id, st.menus[id], m);
  }

  const PUBLISH := MenuPatch(None, None, None, Some(true), None, None, false)

  /** A draft is published exactly when it is publishable; then nothing but its flag has changed, and
      the log ends in the publication. */
  lemma PublishedIff(st: State, id: nat)
    requires Sound(st) && id in st.menus && !st.menus[id].active
    ensures UpdateMenu(st, id, PUBLISH).Ok? <==> Publishable(st, id)
    ensures UpdateMenu(st, id, PUBLISH).Ok? ==>
              var next := UpdateMenu(st, id, PUBLISH).value;
              && next.menus == st.menus[id := st.menus[id].(active := true)]
              && |next.log| > 0 && next.log[|next.log| - 1] == Entry(Published, id)
  {
    var m := st.menus[id].(active := true);
    assert MenuRowOk(st.menus[id]);
    assert Merged(m, st.menus[id], PUBLISH);
    UpdateMenuExactly(st, id, PUBLISH, m);
    if UpdateMenu(st, id, PUBLISH).Ok? {
      UpdateMenuLogs(st, id, PUBLISH, m);
      var log := UpdateMenu(st, id, PUBLISH).value.log;
      var entries :| log == st.log + entries && Tells(entries, id, st.menus[id], m);
      assert log[|log| - 1] == entries[|entries| - 1];
    }
  }

  /** A menu is deleted exactly when it is there. */
  lemma DeleteMenuExactly(st: State, id: nat)
    ensures DeleteMenu(st, id).Ok? <==> id in st.menus
    ensures DeleteMenu(st, id).Ok? ==>
              var next := DeleteMenu(st, id).value;
              && next.menus.Keys == st.menus.Keys - {id} && (forall m :: m in next.menus ==>
                  next.menus[m] == st.menus[m])
              && (forall g :: g in next.groups <==> g in st.groups && st.groups[g].menu != id)
              && (forall g :: g in next.groups ==> next.groups[g] == st.groups[g])
              && (forall i :: i in next.items <==>
                    && i in st.items
                    && !(st.items[i].group in st.groups && st.groups[st.items[i].group].menu == id))
              && (forall i :: i in next.items ==> next.items[i] == st.items[i])
              && next.products == st.products && next.log == st.log + [Entry(Deleted, id)]
  {
  }

  // ---------------------------------------------------------------- groups and items

  /** The menu after a change of composition, and the entries the change leaves: an active menu is
      switched off, with an entry of its own before that of the change. */
  ghost predicate Recomposed(st: State, next: State, m: nat) {
    && m in st.menus && next.menus == st.menus[m := st.menus[m].(active := false)] && next.products == st.products
    && next.log == st.log + if st.menus[m].active then [Entry(AutoUnpublished, m), Entry(CompositionChanged, m)]
                            else [Entry(CompositionChanged, m)]
  }

  lemma DeactivateRecomposes(st: State, m: nat)
    requires m in st.menus
    ensures var off := Deactivate(st, m);
            && off.menus == st.menus[m := st.menus[m].(active := false)] && off.products == st.products
            && off.groups == st.groups && off.items == st.items
            && off.log + [Entry(CompositionChanged, m)] ==
                 st.log + if st.menus[m].active then [Entry(AutoUnpublished, m), Entry(CompositionChanged, m)]
                          else [Entry(CompositionChanged, m)]
  {
    if st.menus[m].active {
      assert st.log + [Entry(AutoUnpublished, m)] + [Entry(CompositionChanged, m)] ==
             st.log + [Entry(AutoUnpublished, m), Entry(CompositionChanged, m)];
    } else {
      assert st.menus[m := st.menus[m].(active := false)] == st.menus;
    }
  }

  lemma CreateGroupExactly(st: State, m: nat, id: nat, g: Group)
    requires st.nextGroup <= id && id !in st.groups && g.menu == m
    ensures CreateGroup(st, m, id, g).Ok? <==> m in st.menus && 1 <= g.min <= g.max && g.order >= 0
    ensures CreateGroup(st, m, id, g) == Err(MenuNotFound) <==> m !in st.menus
    ensures CreateGroup(st, m, id, g).Ok? ==>
              var next := CreateGroup(st, m, id, g).value;
              Recomposed(st, next, m) && next.groups == st.groups[id := g] && next.items == st.items
  {
    if m in st.menus { DeactivateRecomposes(st, m); }
  }

  /** An update of a group writes the merged row; without a change it leaves everything alone. */
  lemma UpdateGroupExactly(st: State, m: nat, id: nat, p: GroupPatch, g: Group)
    requires id in st.groups && MergedGroup(g, st.groups[id], p) && !p.nulled
    ensures UpdateGroup(st, m, id, p).Ok? <==>
              && m in st.menus && st.groups[id].menu == m && g.min <= g.max
              && (g == st.groups[id] || (1 <= g.min && g.order >= 0))
    ensures UpdateGroup(st, m, id, p) == Err(InvalidRange) <==>
              m in st.menus && st.groups[id].menu == m && g.max < g.min
    ensures UpdateGroup(st, m, id, p).Ok? && g == st.groups[id] ==> UpdateGroup(st, m, id, p).value == st
    ensures UpdateGroup(st, m, id, p).Ok? && g != st.groups[id] ==>
              var next := UpdateGroup(st, m, id, p).value;
              Recomposed(st, next, m) && next.groups == st.groups[id := g] && next.items == st.items
  {
    assert g == PatchedGroup(st.groups[id], p);
    if m in st.menus { DeactivateRecomposes(st, m); }
  }

  lemma DeleteGroupExactly(st: State, m: nat, id: nat)
    ensures DeleteGroup(st, m, id).Ok? <==> m in st.menus && id in st.groups && st.groups[id].menu == m
    ensures DeleteGroup(st, m, id).Ok? ==>
              var next := DeleteGroup(st, m, id).value;
              && Recomposed(st, next, m) && next.groups.Keys == st.groups.Keys - {id}
              && (forall g :: g in next.groups ==> next.groups[g] == st.groups[g])
              && (forall i :: i in next.items <==> i in st.items && st.items[i].group != id)
              && (forall i :: i in next.items ==> next.items[i] == st.items[i])
  {
    if m in st.menus { DeactivateRecomposes(st, m); }
  }

  /** A product is offered in the group. */
  ghost predicate Offered(st: State, g: nat, product: nat) {
    exists i :: i in st.items && st.items[i].group == g && st.items[i].product == product
  }

  /** An item is added exactly when menu, group and an active product are there, the group does not
      offer the product yet, and the position is not negative; the errors come in this order. */
  lemma AddItemExactly(st: State, m: nat, g: nat, id: nat, product: nat, order: int)
    requires st.nextItem <= id && id !in st.items
    ensures var r := AddItem(st, m, g, id, product, order);
            var found := m in st.menus && g in st.groups && st.groups[g].menu == m;
            && (r == Err(MenuNotFound) <==> m !in st.menus)
            && (r == Err(GroupNotFound) <==> m in st.menus && !found)
            && (r == Err(ProductNotFound) <==> found && product !in st.products)
            && (r == Err(ProductInactive) <==> found && product in st.products && !st.products[product])
            && (r.Ok? <==>
                  found && product in st.products && st.products[product] && !Offered(st, g, product) && order >= 0)
    ensures AddItem(st, m, g, id, product, order).Ok? ==>
              var next := AddItem(st, m, g, id, product, order).value;
              && Recomposed(st, next, m) && next.groups == st.groups
              && next.items == st.items[id := Item(g, product, order)]
  {
    if m in st.menus { DeactivateRecomposes(st, m); }
    assert InGroup(st, g, product) == Offered(st, g, product);
  }

  /** An item is moved exactly when it is there under the group and the menu given and the position
      is not negative, or stays. */
  lemma UpdateItemExactly(st: State, m: nat, g: nat, id: nat, order: int)
    ensures UpdateItem(st, m, g, id, order).Ok? <==>
              && m in st.menus && g in st.groups && st.groups[g].menu == m && id in st.items && st.items[id].group == g
              && (order >= 0 || order == st.items[id].order)
    ensures UpdateItem(st, m, g, id, order).Ok? && order == st.items[id].order ==>
              UpdateItem(st, m, g, id, order).value == st
    ensures UpdateItem(st, m, g, id, order).Ok? && order != st.items[id].order ==>
              var next := UpdateItem(st, m, g, id, order).value;
              && Recomposed(st, next, m) && next.groups == st.groups
              && next.items == st.items[id := Item(g, st.items[id].product, order)]
  {
    if m in st.menus { DeactivateRecomposes(st, m); }
  }

  lemma DeleteItemExactly(st: State, m: nat, g: nat, id: nat)
    ensures DeleteItem(st, m, g, id).Ok? <==>
              m in st.menus && g in st.groups && st.groups[g].menu == m && id in st.items && st.items[id].group == g
    ensures DeleteItem(st, m, g, id).Ok? ==>
              var next := DeleteItem(st, m, g, id).value;
              && Recomposed(st, next, m) && next.groups == st.groups && next.items.Keys == st.items.Keys - {id}
              && (forall i :: i in next.items ==> next.items[i] == st.items[i])
  {
    if m in st.menus { DeactivateRecomposes(st, m); }
  }

  // ---------------------------------------------------------------- a menu that is published

  const DRAFT := Menu("lunch", 1200, 0, false, None, None)
  const GROUP := Group(0, "main", 1, 1, 0)

  /** The state with one product, one draft, one group and one item in it. */
  const COMPOSED := State(
    map[0 := DRAFT], map[0 := GROUP], map[0 := Item(0, 5, 0)], map[5 := true],
    [Entry(Created, 0), Entry(CompositionChanged, 0), Entry(CompositionChanged, 0)], 1, 1, 1)

  lemma ComposedReached()
    ensures COMPOSED == Run(
      INIT, [SetProduct(5, true), OpCreateMenu(0, DRAFT), OpCreateGroup(0, 0, GROUP), OpAddItem(0, 0, 0, 5, 0)])
  {
    var ops := [SetProduct(5, true), OpCreateMenu(0, DRAFT), OpCreateGroup(0, 0, GROUP), OpAddItem(0, 0, 0, 5, 0)];
    var s1 := Apply(INIT, ops[0]).value;
    var s2 := Apply(s1, ops[1]).value;
    var s3 := Apply(s2, ops[2]).value;
    var s4 := Apply(s3, ops[3]).value;
    assert s2.menus == COMPOSED.menus && s3.groups == COMPOSED.groups && s4.items == COMPOSED.items;
    assert s4.products == COMPOSED.products && s4.log == COMPOSED.log;
    assert ops[1..][1..] == ops[2..] && ops[2..][1..] == [ops[3]] && [ops[3]][1..] == [];
    assert Run(s3, [ops[3]]) == s4;
    assert Run(s2, ops[2..]) == s4;
    assert Run(s1, ops[1..]) == s4;
  }

  /** Menus do become active. */
  lemma PublicationReached()
    ensures UpdateMenu(COMPOSED, 0, PUBLISH).Ok? && UpdateMenu(COMPOSED, 0, PUBLISH).value.menus[0].active
  {
    assert GroupsOf(COMPOSED, 0) == {0};
    assert ItemsOf(COMPOSED, 0) == {0} && ActiveItems(COMPOSED, 0) == {0};
    assert Publishable(COMPOSED, 0);
    assert Merged(DRAFT.(active := true), DRAFT, PUBLISH);
    UpdateMenuExactly(COMPOSED, 0, PUBLISH, DRAFT.(active := true));
  }
}
