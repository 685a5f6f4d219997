/** The menu operations as the service runs them: rows changed in place inside a transaction,
    put back when the operation raises (app/modules/catalog/menu_service.py). */
module MenuService {

  import opened Common
  import opened Menus

  /** One sentence of `_publishability_errors`. */
  datatype Problem =
    | NoGroup
    | TooFewActive(group: nat, wanted: int, have: nat)
    | HasInactive(group: nat, inactive: set<nat>)

  predicate IsProblem(st: State, m: nat, p: Problem) {
    match p
    case NoGroup => GroupsOf(st, m) == {}
    case TooFewActive(g, wanted, have) =>
      g in GroupsOf(st, m) && wanted == st.groups[g].min && have == |ActiveItems(st, g)| && have < wanted
    case HasInactive(g, inactive) =>
      g in GroupsOf(st, m) && inactive == ItemsOf(st, g) - ActiveItems(st, g) && inactive != {}
  }

  /** No sentence at all is the same as being publishable. */
  lemma PublishableIffNoProblem(st: State, m: nat)
    ensures Publishable(st, m) <==> forall p :: !IsProblem(st, m, p)
  {
    if forall p :: !IsProblem(st, m, p) {
      assert !IsProblem(st, m, NoGroup);
      forall g | g in GroupsOf(st, m)
        ensures |ActiveItems(st, g)| >= st.groups[g].min && ActiveItems(st, g) == ItemsOf(st, g)
      {
        assert !IsProblem(st, m, TooFewActive(g, st.groups[g].min, |ActiveItems(st, g)|));
        assert !IsProblem(st, m, HasInactive(g, ItemsOf(st, g) - ActiveItems(st, g)));
        assert ItemsOf(st, g) == ActiveItems(st, g) + (ItemsOf(st, g) - ActiveItems(st, g));
      }
    }
  }

  /** The outcome of an operation: the new state, or the error and the state as it was. */
  ghost predicate Outcome(spec: Result<State, Error>, before: State, after: State, error: Option<Error>) {
    match spec
    case Ok(next) => error.None? && after == next
    case Err(e) => error == Some(e) && after == before
  }

  // ---------------------------------------------------------------- what a caller may rely on

  /** A failed operation changes nothing; a successful one keeps everything sound, and every other
      menu as it was. */
  lemma OutcomeIsSound(st: State, op: Op, after: State, error: Option<Error>)
    requires Sound(st) && Subject(op).Some? && Outcome(Apply(st, op), st, after, error)
    ensures Sound(after) && OthersKept(st, after, Subject(op).value)
    ensures error.Some? ==> after == st
  {
    if Apply(st, op).Ok? {
      ApplyKeepsSound(st, op);
      ApplyKeepsOthers(st, op);
    }
  }

  /** A new menu is a draft without any group. */
  lemma CreatedIsDraft(st: State, id: nat, menu: Menu)
    requires Sound(st) && Menus.CreateMenu(st, id, menu).Ok?
    ensures var next := Menus.CreateMenu(st, id, menu).value;
            && id !in st.menus && GroupsOf(next, id) == {}
            && Publication(next.menus) == Publication(st.menus)[id := false]
  {
    var next := Menus.CreateMenu(st, id, menu).value;
    PublicationPut(st.menus, id, menu);
    assert forall g :: g in next.groups ==> next.groups[g] == st.groups[g];
  }

  /** A menu left active has a group and enough active products in each; groups and items stay. */
  lemma UpdatedIsPublishable(st: State, id: nat, p: MenuPatch)
    requires Menus.UpdateMenu(st, id, p).Ok?
    ensures var next := Menus.UpdateMenu(st, id, p).value;
            && id in next.menus && next.groups == st.groups && next.items == st.items
            && (next.menus[id].active ==> Publishable(next, id))
            && id in st.menus && Merged(next.menus[id], st.menus[id], p)
  {
    var next := Menus.UpdateMenu(st, id, p).value;
    var checked := st.(menus := next.menus);
    if next.menus[id].active {
      assert Publishable(checked, id);
      assert GroupsOf(checked, id) == GroupsOf(next, id);
      assert forall g :: ItemsOf(checked, g) == ItemsOf(next, g) && ActiveItems(checked, g) == ActiveItems(next, g);
    }
  }

  /** Nothing of a deleted menu is left, neither in the tables nor in the replayed log. */
  lemma DeletedLeavesNothing(st: State, id: nat)
    requires Sound(st) && Menus.DeleteMenu(st, id).Ok?
    ensures var next := Menus.DeleteMenu(st, id).value;
            && id !in next.menus && id !in Replay(next.log) && GroupsOf(next, id) == {}
            && forall g :: g in GroupsOf(st, id) ==> ItemsOf(next, g) == {}
  {
    DeleteMenuReplay(st, id);
  }

  /** Whatever changes the composition of a menu leaves the menu, inactive. */
  lemma CompositionUnpublishes(st: State, op: Op)
    requires Apply(st, op).Ok? && Apply(st, op).value != st
    requires Subject(op).Some? && !op.OpCreateMenu? && !op.OpUpdateMenu? && !op.OpDeleteMenu?
    ensures op.m in Apply(st, op).value.menus && !Apply(st, op).value.menus[op.m].active
  {
  }

  lemma CreatedGroupIsEmpty(st: State, m: nat, id: nat, g: Group)
    requires Sound(st) && Menus.CreateGroup(st, m, id, g).Ok?
    ensures var next := Menus.CreateGroup(st, m, id, g).value;
            GroupsOf(next, m) == GroupsOf(st, m) + {id} && id !in GroupsOf(st, m) && ItemsOf(next, id) == {}
  {
    var next := Menus.CreateGroup(st, m, id, g).value;
    assert next.items == st.items && next.groups == st.groups[id := g];
  }

  lemma UpdatedGroupKeepsItems(st: State, m: nat, id: nat, p: GroupPatch)
    requires Menus.UpdateGroup(st, m, id, p).Ok?
    ensures var next := Menus.UpdateGroup(st, m, id, p).value;
            && GroupsOf(next, m) == GroupsOf(st, m) && next.items == st.items
            && id in GroupsOf(next, m) && id in st.groups && MergedGroup(next.groups[id], st.groups[id], p)
  {
  }

  lemma DeletedGroupIsGone(st: State, m: nat, id: nat)
    requires Menus.DeleteGroup(st, m, id).Ok?
    ensures var next := Menus.DeleteGroup(st, m, id).value;
            GroupsOf(next, m) == GroupsOf(st, m) - {id} && id !in next.groups && ItemsOf(next, id) == {}
  {
  }

  /** The group offers one product more, which it did not offer before. */
  lemma AddedItemOffersProduct(st: State, m: nat, g: nat, id: nat, product: nat, order: int)
    requires Menus.AddItem(st, m, g, id, product, order).Ok?
    ensures var next := Menus.AddItem(st, m, g, id, product, order).value;
            && product !in ProductsOf(st, g) && ProductsOf(next, g) == ProductsOf(st, g) + {product}
            && ItemActive(next, id)
  {
    var next := Menus.AddItem(st, m, g, id, product, order).value;
    assert next.items == st.items[id := Item(g, product, order)] && next.products == st.products;
    assert ItemsOf(next, g) == ItemsOf(st, g) + {id};
    forall x | x in ProductsOf(next, g) ensures x in ProductsOf(st, g) + {product} {
      var i :| i in ItemsOf(next, g) && next.items[i].product == x;
      assert i == id || i in ItemsOf(st, g);
    }
    forall x | x in ProductsOf(st, g) + {product} ensures x in ProductsOf(next, g) {
      if x == product {
        assert id in ItemsOf(next, g);
      } else {
        var i :| i in ItemsOf(st, g) && st.items[i].product == x;
        assert i in ItemsOf(next, g) && next.items[i].product == x;
      }
    }
  }

  lemma ReorderedItemKeepsProducts(st: State, m: nat, g: nat, id: nat, order: int)
    requires Menus.UpdateItem(st, m, g, id, order).Ok?
    ensures var next := Menus.UpdateItem(st, m, g, id, order).value;
            ItemsOf(next, g) == ItemsOf(st, g) && ProductsOf(next, g) == ProductsOf(st, g)
  {
    var next := Menus.UpdateItem(st, m, g, id, order).value;
    assert forall i :: i in st.items ==> i in next.items && next.items[i].(order := 0) == st.items[i].(order := 0);
    assert forall i :: i in st.items ==> next.items[i].product == st.items[i].product;
  }

  /** The group offers all its products but that of the item, which no other item offers. */
  lemma DeletedItemWithdrawsProduct(st: State, m: nat, g: nat, id: nat)
    requires Sound(st) && Menus.DeleteItem(st, m, g, id).Ok?
    ensures var next := Menus.DeleteItem(st, m, g, id).value;
            id !in next.items && ProductsOf(next, g) == ProductsOf(st, g) - {st.items[id].product}
  {
    var next := Menus.DeleteItem(st, m, g, id).value;
    assert next.items == st.items - {id};
    forall x | x in ProductsOf(st, g) && x != st.items[id].product ensures x in ProductsOf(next, g) {
      var i :| i in ItemsOf(st, g) && st.items[i].product == x;
      assert i in ItemsOf(next, g) && next.items[i].product == x;
    }
    forall x | x in ProductsOf(next, g) ensures x in ProductsOf(st, g) && x != st.items[id].product {
      var i :| i in ItemsOf(next, g) && next.items[i].product == x;
      assert i in ItemsOf(st, g) && i != id;
    }
  }

  // ---------------------------------------------------------------- the service

  class MenuStore {
    var menus: map<nat, Menu>
    var groups: map<nat, Group>
    var items: map<nat, Item>
    var products: map<nat, bool>
    var log: seq<Entry>
    var nextMenu: nat
    var nextGroup: nat
    var nextItem: nat

    ghost function View(): State
      reads this
    {
      State(menus, groups, items, products, log, nextMenu, nextGroup, nextItem)
    }

    /** The rows are well formed, every active menu offers enough, and the log replays to exactly
        the menus that exist and their publication. */
    ghost predicate Valid()
      reads this
    {
      Sound(View())
    }

    constructor ()
      ensures Valid() && View() == INIT
    {
      menus, groups, items, products, log := map[], map[], map[], map[], [];
      nextMenu, nextGroup, nextItem := 0, 0, 0;
    }

    method Audit(action: Action, m: nat)
      modifies this`log
      ensures log == old(log) + [Entry(action, m)]
    {
      log := log + [Entry(action, m)];
    }

    /** `_publishability_errors` */
    method PublishabilityErrors(m: nat) returns (errors: seq<Problem>)
      ensures forall p :: p in errors <==> IsProblem(View(), m, p)
    {
      var own := set g | g in groups && groups[g].menu == m;
      assert own == GroupsOf(View(), m);
      if own == {} { return [NoGroup]; }
      errors := [];
      var rest := own;
      while rest != {}
        invariant rest <= own
        invariant forall p :: p in errors <==> IsProblem(View(), m, p) && p.group in own - rest
      {
        var g :| g in rest;
        var all := set i | i in items && items[i].group == g;
        var active := set i | i in all && items[i].product in products && products[items[i].product];
        assert all == ItemsOf(View(), g) && active == ActiveItems(View(), g);
        rest := rest - {g};
        if |active| < groups[g].min { errors := errors + [TooFewActive(g, groups[g].min, |active|)]; }
        if all - active != {} { errors := errors + [HasInactive(g, all - active)]; }
      }
    }

    /** `is_publishable` */
    method IsPublishable(m: nat) returns (ok: bool)
      ensures ok == Publishable(View(), m)
    {
      PublishableIffNoProblem(View(), m);
      var errors := PublishabilityErrors(m);
      ok := errors == [];
      if !ok { assert IsProblem(View(), m, errors[0]); }
      assert ok ==> forall p :: p !in errors;
    }

    /** `_deactivate_for_composition_change` */
    method DeactivateForCompositionChange(m: nat) returns (unpublished: bool)
      requires m in menus
      modifies this`menus, this`log
      ensures View() == Deactivate(old(View()), m)
      ensures unpublished == old(menus)[m].active && m in menus && !menus[m].active
    {
      if !menus[m].active { return false; }
      menus := menus[m := menus[m].(active := false)];
      Audit(AutoUnpublished, m);
      unpublished := true;
    }

    /** A product appears or changes state elsewhere, without any regard to menus. */
    method SetProduct(product: nat, active: bool)
      requires Valid()
      modifies this`products
      ensures Valid() && products == old(products)[product := active]
    {
      products := products[product := active];
      ApplyKeepsSound(old(View()), Op.SetProduct(product, active));
    }

    method CreateMenu(id: nat, menu: Menu) returns (error: Option<Error>)
      requires Valid()
      modifies this
      ensures Valid() && OthersKept(old(View()), View(), id)
      ensures Outcome(Apply(old(View()), OpCreateMenu(id, menu)), old(View()), View(), error)
      ensures error.None? ==> id !in old(menus) && GroupsOf(View(), id) == {}
      ensures error.None? ==> Publication(menus) == Publication(old(menus))[id := false]
      ensures error.None? ==> id in menus && menus[id] == menu
    {
      if menu.active { return Some(NotPublishable); }
      if id < nextMenu || id in menus || !MenuRowOk(menu) { return Some(ConstraintViolated); }
      menus := menus[id := menu];
      nextMenu := id + 1;
      Audit(Created, id);
      error := None;
      OutcomeIsSound(old(View()), OpCreateMenu(id, menu), View(), error);
      CreatedIsDraft(old(View()), id, menu);
    }

    method UpdateMenu(id: nat, p: MenuPatch) returns (error: Option<Error>)
      requires Valid()
      modifies this
      ensures Valid() && OthersKept(old(View()), View(), id)
      ensures Outcome(Apply(old(View()), OpUpdateMenu(id, p)), old(View()), View(), error)
      ensures groups == old(groups) && items == old(items)
      ensures error.None? ==> id in menus && (menus[id].active ==> Publishable(View(), id))
      ensures error.None? ==> id in old(menus) && Merged(menus[id], old(menus)[id], p)
    {
      error := PatchMenu(id, p);
      OutcomeIsSound(old(View()), OpUpdateMenu(id, p), View(), error);
      if error.None? { UpdatedIsPublishable(old(View()), id, p); }
    }

    /** The row is patched in place, checked, and put back when a check fails. */
    method PatchMenu(id: nat, p: MenuPatch) returns (error: Option<Error>)
      modifies this`menus, this`log
      ensures Outcome(Menus.UpdateMenu(old(View()), id, p), old(View()), View(), error)
    {
      if id !in menus { return Some(MenuNotFound); }
      var before := menus[id];
      var from, until := Get(p.from, before.from), Get(p.until, before.until);
      if !WindowOk(from, until) { return Some(InvalidWindow); }
      var saved := menus;
      menus := menus[id := Patched(before, p)];
      if p.nulled || !MenuRowOk(menus[id]) {
        menus := saved;
        return Some(ConstraintViolated);
      }
      if menus[id].active {
        var publishable := IsPublishable(id);
        if !publishable {
          menus := saved;
          return Some(NotPublishable);
        }
      }
      if before != menus[id] {
        Audit(Updated, id);
        if before.price != menus[id].price { Audit(PriceChanged, id); }
        if before.active != menus[id].active { Audit(if menus[id].active then Published else Unpublished, id); }
      }
      error := None;
    }

    /** The row goes, and by the foreign keys its groups and their items with it. */
    method DeleteCascade(id: nat)
      modifies this`menus, this`groups, this`items
      ensures menus == old(menus) - {id}
      ensures groups == GroupsWithout(old(View()), id) && items == ItemsWithout(old(View()), id)
    {
      var own := set g | g in groups && groups[g].menu == id;
      assert own == GroupsOf(View(), id);
      menus := menus - {id};
      items := map i | i in items && items[i].group !in own :: items[i];
      groups := map g | g in groups && groups[g].menu != id :: groups[g];
    }

    method DeleteMenu(id: nat) returns (error: Option<Error>)
      requires Valid()
      modifies this
      ensures Valid() && OthersKept(old(View()), View(), id)
      ensures Outcome(Apply(old(View()), OpDeleteMenu(id)), old(View()), View(), error)
      ensures error.None? ==> id !in menus && id !in Replay(log) && GroupsOf(View(), id) == {}
      ensures error.None? ==> forall g :: g in GroupsOf(old(View()), id) ==> ItemsOf(View(), g) == {}
    {
      if id !in menus { return Some(MenuNotFound); }
      DeleteCascade(id);
      Audit(Deleted, id);
      error := None;
      assert Menus.DeleteMenu(old(View()), id) == Ok(View());
      OutcomeIsSound(old(View()), OpDeleteMenu(id), View(), error);
      DeletedLeavesNothing(old(View()), id);
    }

    method CreateGroup(m: nat, id: nat, g: Group) returns (error: Option<Error>)
      requires Valid()
      modifies this
      ensures Valid() && OthersKept(old(View()), View(), m)
      ensures Outcome(Apply(old(View()), OpCreateGroup(m, id, g)), old(View()), View(), error)
      ensures error.None? ==> m in menus && !menus[m].active && ItemsOf(View(), id) == {}
      ensures error.None? ==> id !in old(groups) && GroupsOf(View(), m) == GroupsOf(old(View()), m) + {id}
      ensures error.None? ==> id in groups && groups[id] == g
    {
      if m !in menus { return Some(MenuNotFound); }
      if id < nextGroup || id in groups || g.menu != m || !GroupRowOk(g) { return Some(ConstraintViolated); }
      var _ := DeactivateForCompositionChange(m);
      groups := groups[id := g];
      nextGroup := id + 1;
      Audit(CompositionChanged, m);
      error := None;
      OutcomeIsSound(old(View()), OpCreateGroup(m, id, g), View(), error);
      CompositionUnpublishes(old(View()), OpCreateGroup(m, id, g));
      CreatedGroupIsEmpty(old(View()), m, id, g);
    }

    method UpdateGroup(m: nat, id: nat, p: GroupPatch) returns (error: Option<Error>)
      requires Valid()
      modifies this
      ensures Valid() && OthersKept(old(View()), View(), m)
      ensures Outcome(Apply(old(View()), OpUpdateGroup(m, id, p)), old(View()), View(), error)
      ensures items == old(items) && GroupsOf(View(), m) == GroupsOf(old(View()), m)
      ensures error.None? && View() != old(View()) ==> m in menus && !menus[m].active
      ensures error.None? ==> id in groups && id in old(groups) && MergedGroup(groups[id], old(groups)[id], p)
    {
      if m !in menus { return Some(MenuNotFound); }
      if id !in groups || groups[id].menu != m { return Some(GroupNotFound); }
      var g := PatchedGroup(groups[id], p);
      if g.max < g.min { return Some(InvalidRange); }
      if p.nulled { return Some(ConstraintViolated); }
      if g == groups[id] { return None; }
      if !GroupRowOk(g) { return Some(ConstraintViolated); }
      var _ := DeactivateForCompositionChange(m);
      groups := groups[id := g];
      Audit(CompositionChanged, m);
      error := None;
      OutcomeIsSound(old(View()), OpUpdateGroup(m, id, p), View(), error);
      CompositionUnpublishes(old(View()), OpUpdateGroup(m, id, p));
      UpdatedGroupKeepsItems(old(View()), m, id, p);
    }

    method DeleteGroup(m: nat, id: nat) returns (error: Option<Error>)
      requires Valid()
      modifies this
      ensures Valid() && OthersKept(old(View()), View(), m)
      ensures Outcome(Apply(old(View()), OpDeleteGroup(m, id)), old(View()), View(), error)
      ensures error.None? ==> m in menus && !menus[m].active && ItemsOf(View(), id) == {}
      ensures error.None? ==> GroupsOf(View(), m) == GroupsOf(old(View()), m) - {id}
    {
      if m !in menus { return Some(MenuNotFound); }
      if id !in groups || groups[id].menu != m { return Some(GroupNotFound); }
      var _ := DeactivateForCompositionChange(m);
      groups := groups - {id};
      items := map i | i in items && items[i].group != id :: items[i];
      Audit(CompositionChanged, m);
      error := None;
      OutcomeIsSound(old(View()), OpDeleteGroup(m, id), View(), error);
      CompositionUnpublishes(old(View()), OpDeleteGroup(m, id));
      DeletedGroupIsGone(old(View()), m, id);
    }

    predicate ProductInGroup(g: nat, product: nat)
      reads this
      ensures ProductInGroup(g, product) == InGroup(View(), g, product)
    {
      exists i :: i in items && items[i].group == g && items[i].product == product
    }

    method AddGroupItem(m: nat, g: nat, id: nat, product: nat, order: int) returns (error: Option<Error>)
      requires Valid()
      modifies this
      ensures Valid() && OthersKept(old(View()), View(), m)
      ensures Outcome(Apply(old(View()), OpAddItem(m, g, id, product, order)), old(View()), View(), error)
      ensures error.None? ==> m in menus && !menus[m].active && ItemActive(View(), id)
      ensures error.None? ==> product !in ProductsOf(old(View()), g)
      ensures error.None? ==> ProductsOf(View(), g) == ProductsOf(old(View()), g) + {product}
    {
      error := InsertItem(m, g, id, product, order);
      OutcomeIsSound(old(View()), OpAddItem(m, g, id, product, order), View(), error);
      if error.None? {
        CompositionUnpublishes(old(View()), OpAddItem(m, g, id, product, order));
        AddedItemOffersProduct(old(View()), m, g, id, product, order);
      }
    }

    /** The checks in order, then the row. */
    method InsertItem(m: nat, g: nat, id: nat, product: nat, order: int) returns (error: Option<Error>)
      modifies this
      ensures Outcome(Menus.AddItem(old(View()), m, g, id, product, order), old(View()), View(), error)
    {
      if m !in menus { return Some(MenuNotFound); }
      if g !in groups || groups[g].menu != m { return Some(GroupNotFound); }
      if product !in products { return Some(ProductNotFound); }
      if !products[product] { return Some(ProductInactive); }
      if ProductInGroup(g, product) { return Some(DuplicateProduct); }
      if id < nextItem || id in items || order < 0 { return Some(DuplicateProduct); }
      var _ := DeactivateForCompositionChange(m);
      items := items[id := Item(g, product, order)];
      nextItem := id + 1;
      Audit(CompositionChanged, m);
      error := None;
    }

    method UpdateGroupItem(m: nat, g: nat, id: nat, order: int) returns (error: Option<Error>)
      requires Valid()
      modifies this
      ensures Valid() && OthersKept(old(View()), View(), m)
      ensures Outcome(Apply(old(View()), OpUpdateItem(m, g, id, order)), old(View()), View(), error)
      ensures error.None? && View() != old(View()) ==> m in menus && !menus[m].active
      ensures groups == old(groups) && ProductsOf(View(), g) == ProductsOf(old(View()), g)
    {
      if m !in menus { return Some(MenuNotFound); }
      if g !in groups || groups[g].menu != m { return Some(GroupNotFound); }
      if id !in items || items[id].group != g { return Some(ItemNotFound); }
      if items[id].order == order { return None; }
      if order < 0 { return Some(ConstraintViolated); }
      var _ := DeactivateForCompositionChange(m);
      items := items[id := items[id].(order := order)];
      Audit(CompositionChanged, m);
      error := None;
      OutcomeIsSound(old(View()), OpUpdateItem(m, g, id, order), View(), error);
      CompositionUnpublishes(old(View()), OpUpdateItem(m, g, id, order));
      ReorderedItemKeepsProducts(old(View()), m, g, id, order);
    }

    method DeleteGroupItem(m: nat, g: nat, id: nat) returns (error: Option<Error>)
      requires Valid()
      modifies this
      ensures Valid() && OthersKept(old(View()), View(), m)
      ensures Outcome(Apply(old(View()), OpDeleteItem(m, g, id)), old(View()), View(), error)
      ensures error.None? ==> m in menus && !menus[m].active && id !in items && id in old(items)
      ensures error.None? ==> ProductsOf(View(), g) == ProductsOf(old(View()), g) - {old(items)[id].product}
    {
      if m !in menus { return Some(MenuNotFound); }
      if g !in groups || groups[g].menu != m { return Some(GroupNotFound); }
      if id !in items || items[id].group != g { return Some(ItemNotFound); }
      var _ := DeactivateForCompositionChange(m);
      items := items - {id};
      Audit(CompositionChanged, m);
      error := None;
      OutcomeIsSound(old(View()), OpDeleteItem(m, g, id), View(), error);
      CompositionUnpublishes(old(View()), OpDeleteItem(m, g, id));
      DeletedItemWithdrawsProduct(old(View()), m, g, id);
    }
  }
}
