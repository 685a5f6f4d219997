/** Composition and publication of menus (app/modules/catalog/menu_service.py).

    Each operation is one transaction that takes the menu's row lock, so operations on a menu
    are serial; products change state at any time in between. */
module Menus {

  import opened Common

  // ---------------------------------------------------------------- data

  /** `text` stands for name, description and image; instants and cents are integers. */
  datatype Menu = Menu(text: string, price: int, order: int, active: bool, from: Option<int>, until: Option<int>)

  datatype Group = Group(menu: nat, name: string, min: int, max: int, order: int)

  datatype Item = Item(group: nat, product: nat, order: int)

  datatype Action =
    | Created | Updated | PriceChanged | Published | Unpublished | AutoUnpublished | CompositionChanged | Deleted

  datatype Entry = Entry(action: Action, menu: nat)

  /** The tables, the audit log and the next ids.  `products` maps a product to `is_active`. */
  datatype State = State(
    menus: map<nat, Menu>, groups: map<nat, Group>, items: map<nat, Item>, products: map<nat, bool>,
    log: seq<Entry>, nextMenu: nat, nextGroup: nat, nextItem: nat)

  /** Fields present in a PATCH body; `nulled`: a column that is NOT NULL was sent as null. */
  datatype MenuPatch = MenuPatch(
    text: Option<string>, price: Option<int>, order: Option<int>, active: Option<bool>,
    from: Option<Option<int>>, until: Option<Option<int>>, nulled: bool)

  datatype GroupPatch = GroupPatch(
    name: Option<string>, min: Option<int>, max: Option<int>, order: Option<int>, nulled: bool)

  datatype Error =
    | MenuNotFound | GroupNotFound | ItemNotFound | ProductNotFound | NotPublishable | InvalidWindow
    | InvalidRange | ProductInactive | DuplicateProduct | ConstraintViolated

  function Get<T>(o: Option<T>, default: T): T {
    if o.Some? then o.value else default
  }

  // ---------------------------------------------------------------- constraints and queries

  predicate WindowOk(from: Option<int>, until: Option<int>) {
    from.Some? && until.Some? ==> from.value < until.value
  }

  /** Check constraints of the `menus` and `menu_groups` tables. */
  predicate MenuRowOk(m: Menu) {
    m.price >= 0 && m.order >= 0 && WindowOk(m.from, m.until)
  }

  predicate GroupRowOk(g: Group) {
    1 <= g.min <= g.max && g.order >= 0
  }

  function GroupsOf(st: State, m: nat): set<nat> {
    set g | g in st.groups && st.groups[g].menu == m
  }

  function ItemsOf(st: State, g: nat): set<nat> {
    set i | i in st.items && st.items[i].group == g
  }

  predicate ItemActive(st: State, i: nat) {
    i in st.items && st.items[i].product in st.products && st.products[st.items[i].product]
  }

  function ActiveItems(st: State, g: nat): set<nat> {
    set i | i in ItemsOf(st, g) && ItemActive(st, i)
  }

  /** `_publishability_errors` finds nothing: there is a group, and every group has enough active
      products and no inactive one. */
  predicate Publishable(st: State, m: nat) {
    && GroupsOf(st, m) != {}
    && forall g :: g in GroupsOf(st, m) ==>
         |ActiveItems(st, g)| >= st.groups[g].min && ActiveItems(st, g) == ItemsOf(st, g)
  }

  // ---------------------------------------------------------------- operations

  function Log(st: State, action: Action, m: nat): State {
    st.(log := st.log + [Entry(action, m)])
  }

  /** `_deactivate_for_composition_change` */
  function Deactivate(st: State, m: nat): State {
    if m in st.menus && st.menus[m].active
    then Log(st.(menus := st.menus[m := st.menus[m].(active := false)]), AutoUnpublished, m)
    else st
  }

  function CreateMenu(st: State, id: nat, menu: Menu): Result<State, Error> {
    if menu.active then Err(NotPublishable)
    else if id < st.nextMenu || id in st.menus || !MenuRowOk(menu) then Err(ConstraintViolated)
    else Ok(Log(st.(menus := st.menus[id := menu], nextMenu := id + 1), Created, id))
  }

  function Patched(menu: Menu, p: MenuPatch): Menu {
    Menu(Get(p.text, menu.text), Get(p.price, menu.price), Get(p.order, menu.order), Get(p.active, menu.active),
         Get(p.from, menu.from), Get(p.until, menu.until))
  }

  /** A field takes the value given, or keeps the one it had. */
  ghost predicate Takes<T>(now: T, given: Option<T>, before: T) {
    (given.Some? ==> now == given.value) && (given.None? ==> now == before)
  }

  /** Field by field, m is what a patch makes of a menu. */
  ghost predicate Merged(m: Menu, before: Menu, p: MenuPatch) {
    && Takes(m.text, p.text, before.text) && Takes(m.price, p.price, before.price)
    && Takes(m.order, p.order, before.order) && Takes(m.active, p.active, before.active)
    && Takes(m.from, p.from, before.from) && Takes(m.until, p.until, before.until)
  }

  ghost predicate MergedGroup(g: Group, before: Group, p: GroupPatch) {
    && g.menu == before.menu && Takes(g.name, p.name, before.name) && Takes(g.min, p.min, before.min)
    && Takes(g.max, p.max, before.max) && Takes(g.order, p.order, before.order)
  }

  /** The log after an update: one entry if anything changed, more for price and publication. */
  function UpdateLog(log: seq<Entry>, id: nat, before: Menu, after: Menu): seq<Entry> {
    if before == after then log
    else
      var updated := log + [Entry(Updated, id)];
      var priced := if before.price != after.price then updated + [Entry(PriceChanged, id)] else updated;
      if before.active == after.active then priced
      else priced + [Entry(if after.active then Published else Unpublished, id)]
  }

  /** The queries of the publication check flush the changed row, so its constraints come first. */
  function UpdateMenu(st: State, id: nat, p: MenuPatch): Result<State, Error> {
    if id !in st.menus then Err(MenuNotFound)
    else
      var menu := Patched(st.menus[id], p);
      if !WindowOk(menu.from, menu.until) then Err(InvalidWindow)
      else
        var next := st.(menus := st.menus[id := menu]);
        if p.nulled || !MenuRowOk(menu) then Err(ConstraintViolated)
        else if menu.active && !Publishable(next, id) then Err(NotPublishable)
        else Ok(next.(log := UpdateLog(st.log, id, st.menus[id], menu)))
  }

  function GroupsWithout(st: State, m: nat): map<nat, Group> {
    map g | g in st.groups && st.groups[g].menu != m :: st.groups[g]
  }

  function ItemsWithout(st: State, m: nat): map<nat, Item> {
    map i | i in st.items && st.items[i].group !in GroupsOf(st, m) :: st.items[i]
  }

  /** Deleting a menu cascades to its groups and their items. */
  function DeleteMenu(st: State, id: nat): Result<State, Error> {
    if id !in st.menus then Err(MenuNotFound)
    else
      Ok(Log(st.(menus := st.menus - {id}, groups := GroupsWithout(st, id), items := ItemsWithout(st, id)),
             Deleted, id))
  }

  function CreateGroup(st: State, m: nat, id: nat, g: Group): Result<State, Error> {
    if m !in st.menus then Err(MenuNotFound)
    else if id < st.nextGroup || id in st.groups || g.menu != m || !GroupRowOk(g) then Err(ConstraintViolated)
    else
      var off := Deactivate(st, m);
      Ok(Log(off.(groups := off.groups[id := g], nextGroup := id + 1), CompositionChanged, m))
  }

  function PatchedGroup(g: Group, p: GroupPatch): Group {
    g.(name := Get(p.name, g.name), min := Get(p.min, g.min), max := Get(p.max, g.max), order := Get(p.order, g.order))
  }

  function UpdateGroup(st: State, m: nat, id: nat, p: GroupPatch): Result<State, Error> {
    if m !in st.menus then Err(MenuNotFound)
    else if id !in st.groups || st.groups[id].menu != m then Err(GroupNotFound)
    else
      var g := PatchedGroup(st.groups[id], p);
      if g.max < g.min then Err(InvalidRange)
      else if p.nulled then Err(ConstraintViolated)
      else if g == st.groups[id] then Ok(st)
      else if !GroupRowOk(g) then Err(ConstraintViolated)
      else
        var off := Deactivate(st, m);
        Ok(Log(off.(groups := off.groups[id := g]), CompositionChanged, m))
  }

  function DeleteGroup(st: State, m: nat, id: nat): Result<State, Error> {
    if m !in st.menus then Err(MenuNotFound)
    else if id !in st.groups || st.groups[id].menu != m then Err(GroupNotFound)
    else
      var off := Deactivate(st, m);
      Ok(Log(off.(groups := off.groups - {id},
                  items := map i | i in off.items && off.items[i].group != id :: off.items[i]),
             CompositionChanged, m))
  }

  predicate InGroup(st: State, g: nat, product: nat) {
    exists i :: i in st.items && st.items[i].group == g && st.items[i].product == product
  }

  /** Any constraint that the insertion violates is reported as a duplicate. */
  function AddItem(st: State, m: nat, g: nat, id: nat, product: nat, order: int): Result<State, Error> {
    if m !in st.menus then Err(MenuNotFound)
    else if g !in st.groups || st.groups[g].menu != m then Err(GroupNotFound)
    else if product !in st.products then Err(ProductNotFound)
    else if !st.products[product] then Err(ProductInactive)
    else if InGroup(st, g, product) then Err(DuplicateProduct)
    else if id < st.nextItem || id in st.items || order < 0 then Err(DuplicateProduct)
    else
      var off := Deactivate(st, m);
      Ok(Log(off.(items := off.items[id := Item(g, product, order)], nextItem := id + 1), CompositionChanged, m))
  }

  predicate HasItem(st: State, m: nat, g: nat, id: nat) {
    g in st.groups && st.groups[g].menu == m && id in st.items && st.items[id].group == g
  }

  function ItemError(st: State, m: nat, g: nat): Error {
    if m !in st.menus then MenuNotFound
    else if g !in st.groups || st.groups[g].menu != m then GroupNotFound else ItemNotFound
  }

  function UpdateItem(st: State, m: nat, g: nat, id: nat, order: int): Result<State, Error> {
    if m !in st.menus || !HasItem(st, m, g, id) then Err(ItemError(st, m, g))
    else if st.items[id].order == order then Ok(st)
    else if order < 0 then Err(ConstraintViolated)
    else
      var off := Deactivate(st, m);
      Ok(Log(off.(items := off.items[id := off.items[id].(order := order)]), CompositionChanged, m))
  }

  function DeleteItem(st: State, m: nat, g: nat, id: nat): Result<State, Error> {
    if m !in st.menus || !HasItem(st, m, g, id) then Err(ItemError(st, m, g))
    else
      var off := Deactivate(st, m);
      Ok(Log(off.(items := off.items - {id}), CompositionChanged, m))
  }

  datatype Op =
    | OpCreateMenu(id: nat, menu: Menu)
    | OpUpdateMenu(id: nat, patch: MenuPatch)
    | OpDeleteMenu(id: nat)
    | OpCreateGroup(m: nat, id: nat, group: Group)
    | OpUpdateGroup(m: nat, id: nat, groupPatch: GroupPatch)
    | OpDeleteGroup(m: nat, id: nat)
    | OpAddItem(m: nat, g: nat, id: nat, product: nat, order: int)
    | OpUpdateItem(m: nat, g: nat, id: nat, order: int)
    | OpDeleteItem(m: nat, g: nat, id: nat)
    | SetProduct(product: nat, active: bool)   // elsewhere: a product appears, or changes state
    | Crash                                    // an operation dies before its commit

  function Apply(st: State, op: Op): Result<State, Error> {
    match op
    case OpCreateMenu(id, menu) => CreateMenu(st, id, menu)
    case OpUpdateMenu(id, p) => UpdateMenu(st, id, p)
    case OpDeleteMenu(id) => DeleteMenu(st, id)
    case OpCreateGroup(m, id, g) => CreateGroup(st, m, id, g)
    case OpUpdateGroup(m, id, p) => UpdateGroup(st, m, id, p)
    case OpDeleteGroup(m, id) => DeleteGroup(st, m, id)
    case OpAddItem(m, g, id, product, order) => AddItem(st, m, g, id, product, order)
    case OpUpdateItem(m, g, id, order) => UpdateItem(st, m, g, id, order)
    case OpDeleteItem(m, g, id) => DeleteItem(st, m, g, id)
    case SetProduct(product, active) => Ok(st.(products := st.products[product := active]))
    case Crash => Err(ConstraintViolated)
  }

  /** A failed operation is rolled back. */
  function Run(st: State, ops: seq<Op>): State
    decreases |ops|
  {
    if ops == [] then st
    else
      match Apply(st, ops[0])
      case Ok(next) => Run(next, ops[1..])
      case Err(_) => Run(st, ops[1..])
  }

  const INIT := State(map[], map[], map[], map[], [], 0, 0, 0)

  // ---------------------------------------------------------------- the log tells the whole story

  /** What a reader of the audit log knows: the menus that exist and whether they are active. */
  function ReplayEntry(known: map<nat, bool>, e: Entry): map<nat, bool> {
    match e.action
    case Created => known[e.menu := false]
    case Published => known[e.menu := true]
    case Unpublished => known[e.menu := false]
    case AutoUnpublished => known[e.menu := false]
    case Deleted => known - {e.menu}
    case _ => known
  }

  function Replay(log: seq<Entry>): map<nat, bool> {
    if log == [] then map[] else ReplayEntry(Replay(log[..|log| - 1]), log[|log| - 1])
  }

  function Publication(menus: map<nat, Menu>): map<nat, bool> {
    map m | m in menus :: menus[m].active
  }

  lemma PublicationPut(menus: map<nat, Menu>, id: nat, menu: Menu)
    ensures Publication(menus[id := menu]) == Publication(menus)[id := menu.active]
  {
  }

  lemma PublicationRemove(menus: map<nat, Menu>, id: nat)
    ensures Publication(menus - {id}) == Publication(menus) - {id}
  {
  }

  lemma ReplayAppend(log: seq<Entry>, e: Entry)
    ensures Replay(log + [e]) == ReplayEntry(Replay(log), e)
  {
    assert (log + [e])[..|log|] == log;
  }

  lemma ReplayUpdate(log: seq<Entry>, id: nat, before: Menu, after: Menu)
    ensures Replay(UpdateLog(log, id, before, after)) ==
              if before.active == after.active then Replay(log) else Replay(log)[id := after.active]
  {
    var updated := log + [Entry(Updated, id)];
    var priced := if before.price != after.price then updated + [Entry(PriceChanged, id)] else updated;
    ReplayAppend(log, Entry(Updated, id));
    ReplayAppend(updated, Entry(PriceChanged, id));
    ReplayAppend(priced, Entry(if after.active then Published else Unpublished, id));
  }

  lemma ReplayDeactivate(st: State, m: nat)
    requires Replay(st.log) == Publication(st.menus)
    ensures Replay(Deactivate(st, m).log) == Publication(Deactivate(st, m).menus)
  {
    ReplayAppend(st.log, Entry(AutoUnpublished, m));
    if m in st.menus { PublicationPut(st.menus, m, st.menus[m].(active := false)); }
  }

  lemma ReplaySilent(log: seq<Entry>, m: nat)
    ensures Replay(log + [Entry(CompositionChanged, m)]) == Replay(log)
  {
    ReplayAppend(log, Entry(CompositionChanged, m));
  }

  /** Changing groups or items after the automatic unpublication keeps log and menus in step. */
  lemma ReplayComposition(st: State, m: nat, next: State)
    requires Replay(st.log) == Publication(st.menus)
    requires next.menus == Deactivate(st, m).menus && next.log == Deactivate(st, m).log + [Entry(CompositionChanged, m)]
    ensures Replay(next.log) == Publication(next.menus)
  {
    ReplayDeactivate(st, m);
    var off := Deactivate(st, m);
    ReplaySilent(off.log, m);
    assert next.log == off.log + [Entry(CompositionChanged, m)];
  }

  lemma CreateMenuReplay(st: State, id: nat, menu: Menu)
    requires Replay(st.log) == Publication(st.menus) && CreateMenu(st, id, menu).Ok?
    ensures Replay(CreateMenu(st, id, menu).value.log) == Publication(CreateMenu(st, id, menu).value.menus)
  {
    ReplayAppend(st.log, Entry(Created, id));
    PublicationPut(st.menus, id, menu);
  }

  lemma UpdateMenuReplay(st: State, id: nat, p: MenuPatch)
    requires Replay(st.log) == Publication(st.menus) && UpdateMenu(st, id, p).Ok?
    ensures Replay(UpdateMenu(st, id, p).value.log) == Publication(UpdateMenu(st, id, p).value.menus)
  {
    var menu := Patched(st.menus[id], p);
    ReplayUpdate(st.log, id, st.menus[id], menu);
    PublicationPut(st.menus, id, menu);
  }

  lemma DeleteMenuReplay(st: State, id: nat)
    requires Replay(st.log) == Publication(st.menus) && DeleteMenu(st, id).Ok?
    ensures Replay(DeleteMenu(st, id).value.log) == Publication(DeleteMenu(st, id).value.menus)
  {
    ReplayAppend(st.log, Entry(Deleted, id));
    PublicationRemove(st.menus, id);
  }

  lemma ApplyKeepsReplay(st: State, op: Op)
    requires Replay(st.log) == Publication(st.menus) && Apply(st, op).Ok?
    ensures Replay(Apply(st, op).value.log) == Publication(Apply(st, op).value.menus)
  {
    var next := Apply(st, op).value;
    if op.OpCreateMenu? {
      CreateMenuReplay(st, op.id, op.menu);
    } else if op.OpUpdateMenu? {
      UpdateMenuReplay(st, op.id, op.patch);
    } else if op.OpDeleteMenu? {
      DeleteMenuReplay(st, op.id);
    } else if op.SetProduct? {
      assert Publication(next.menus) == Publication(st.menus);
    } else if next != st {
      ReplayComposition(st, op.m, next);
    }
  }

  /** After any sequence of operations, failed ones included, replaying the audit log gives
      exactly the menus that exist and which of them are active. */
  lemma {:induction false} LogReconstructsMenus(st: State, ops: seq<Op>)
    requires Replay(st.log) == Publication(st.menus)
    ensures Replay(Run(st, ops).log) == Publication(Run(st, ops).menus)
    decreases |ops|
  {
    if ops != [] {
      if Apply(st, ops[0]).Ok? {
        ApplyKeepsReplay(st, ops[0]);
        LogReconstructsMenus(Apply(st, ops[0]).value, ops[1..]);
      } else {
        LogReconstructsMenus(st, ops[1..]);
      }
    }
  }

  // ---------------------------------------------------------------- structure of active menus

  /** Check constraints, foreign keys, choice ranges, and no product twice in a group. */
  ghost predicate WellFormed(st: State) {
    && (forall m :: m in st.menus ==> MenuRowOk(st.menus[m]))
    && (forall g :: g in st.groups ==> st.groups[g].menu in st.menus && GroupRowOk(st.groups[g]))
    && (forall i :: i in st.items ==> st.items[i].group in st.groups && st.items[i].product in st.products)
    && (forall i, j :: i in st.items && j in st.items && i != j && st.items[i].group == st.items[j].group ==>
          st.items[i].product != st.items[j].product)
  }

  function ProductsOf(st: State, g: nat): set<nat> {
    set i | i in ItemsOf(st, g) :: st.items[i].product
  }

  /** The menu has a group, and each of its groups holds at least `min` items. */
  ghost predicate Offerable(st: State, m: nat) {
    && GroupsOf(st, m) != {}
    && forall g :: g in GroupsOf(st, m) ==> |ItemsOf(st, g)| >= st.groups[g].min
  }

  ghost predicate ActiveOfferable(st: State) {
    forall m :: m in st.menus && st.menus[m].active ==> Offerable(st, m)
  }

  lemma PublishableIsOfferable(st: State, m: nat)
    requires Publishable(st, m)
    ensures Offerable(st, m)
  {
  }

  /** A menu whose groups and items are the same is as offerable as before. */
  lemma SameComposition(st: State, next: State, m: nat)
    requires Offerable(st, m) && GroupsOf(next, m) == GroupsOf(st, m)
    requires forall g :: g in GroupsOf(st, m) ==> next.groups[g] == st.groups[g] && ItemsOf(next, g) == ItemsOf(st, g)
    ensures Offerable(next, m)
  {
  }

  lemma DeleteMenuWellFormed(st: State, id: nat)
    requires WellFormed(st) && DeleteMenu(st, id).Ok?
    ensures WellFormed(DeleteMenu(st, id).value)
  {
  }

  lemma CreateGroupWellFormed(st: State, m: nat, id: nat, g: Group)
    requires WellFormed(st) && CreateGroup(st, m, id, g).Ok?
    ensures WellFormed(CreateGroup(st, m, id, g).value)
  {
  }

  lemma UpdateGroupWellFormed(st: State, m: nat, id: nat, p: GroupPatch)
    requires WellFormed(st) && UpdateGroup(st, m, id, p).Ok?
    ensures WellFormed(UpdateGroup(st, m, id, p).value)
  {
  }

  lemma DeleteGroupWellFormed(st: State, m: nat, id: nat)
    requires WellFormed(st) && DeleteGroup(st, m, id).Ok?
    ensures WellFormed(DeleteGroup(st, m, id).value)
  {
  }

  lemma AddItemWellFormed(st: State, m: nat, g: nat, id: nat, product: nat, order: int)
    requires WellFormed(st) && AddItem(st, m, g, id, product, order).Ok?
    ensures WellFormed(AddItem(st, m, g, id, product, order).value)
  {
  }

  lemma UpdateItemWellFormed(st: State, m: nat, g: nat, id: nat, order: int)
    requires WellFormed(st) && UpdateItem(st, m, g, id, order).Ok?
    ensures WellFormed(UpdateItem(st, m, g, id, order).value)
  {
  }

  lemma DeleteItemWellFormed(st: State, m: nat, g: nat, id: nat)
    requires WellFormed(st) && DeleteItem(st, m, g, id).Ok?
    ensures WellFormed(DeleteItem(st, m, g, id).value)
  {
  }

  lemma ApplyKeepsWellFormed(st: State, op: Op)
    requires WellFormed(st) && Apply(st, op).Ok?
    ensures WellFormed(Apply(st, op).value)
  {
    match op
    case OpCreateMenu(_, _) =>
    case OpUpdateMenu(_, _) =>
    case OpDeleteMenu(id) => DeleteMenuWellFormed(st, id);
    case OpCreateGroup(m, id, g) => CreateGroupWellFormed(st, m, id, g);
    case OpUpdateGroup(m, id, p) => UpdateGroupWellFormed(st, m, id, p);
    case OpDeleteGroup(m, id) => DeleteGroupWellFormed(st, m, id);
    case OpAddItem(m, g, id, product, order) => AddItemWellFormed(st, m, g, id, product, order);
    case OpUpdateItem(m, g, id, order) => UpdateItemWellFormed(st, m, g, id, order);
    case OpDeleteItem(m, g, id) => DeleteItemWellFormed(st, m, g, id);
    case SetProduct(_, _) =>
    case Crash =>
  }

  /** The operation is not about the composition or the existence of menu m. */
  predicate Elsewhere(op: Op, m: nat) {
    match op
    case SetProduct(_, _) => true
    case OpUpdateMenu(_, _) => true
    case OpCreateMenu(id, _) => id != m
    case OpDeleteMenu(id) => id != m
    case Crash => true
    case _ => op.m != m
  }

  /** The table of groups after an operation, where it differs at all. */
  lemma GroupsAfter(st: State, op: Op)
    requires Apply(st, op).Ok?
    ensures var next := Apply(st, op).value;
            match op
            case OpDeleteMenu(id) => next.groups == GroupsWithout(st, id)
            case OpCreateGroup(m, id, g) => next.groups == st.groups[id := g] && id !in st.groups && g.menu == m
            case OpUpdateGroup(m, id, p) =>
              && id in st.groups && st.groups[id].menu == m
              && next.groups == st.groups[id := PatchedGroup(st.groups[id], p)]
            case OpDeleteGroup(m, id) => id in st.groups && st.groups[id].menu == m && next.groups == st.groups - {id}
            case _ => next.groups == st.groups
  {
  }

  lemma OthersKeepGroups(st: State, op: Op, m: nat)
    requires WellFormed(st) && Apply(st, op).Ok? && m in st.menus && Elsewhere(op, m)
    ensures GroupsOf(Apply(st, op).value, m) == GroupsOf(st, m)
    ensures forall g :: g in GroupsOf(st, m) ==> Apply(st, op).value.groups[g] == st.groups[g]
  {
    GroupsAfter(st, op);
  }

  lemma OthersKeepItems(st: State, op: Op, m: nat, g: nat)
    requires WellFormed(st) && Apply(st, op).Ok? && m in st.menus && Elsewhere(op, m) && g in GroupsOf(st, m)
    ensures ItemsOf(Apply(st, op).value, g) == ItemsOf(st, g)
  {
  }

  /** An operation elsewhere leaves the menu as offerable as it was. */
  lemma ElsewhereKeepsOfferable(st: State, op: Op, m: nat)
    requires WellFormed(st) && Apply(st, op).Ok? && m in st.menus && Elsewhere(op, m) && Offerable(st, m)
    ensures Offerable(Apply(st, op).value, m)
  {
    OthersKeepGroups(st, op, m);
    forall g | g in GroupsOf(st, m) ensures ItemsOf(Apply(st, op).value, g) == ItemsOf(st, g) {
      OthersKeepItems(st, op, m, g);
    }
    SameComposition(st, Apply(st, op).value, m);
  }

  /** A menu that an update leaves active passed the publication check. */
  lemma UpdateChecksOfferable(st: State, id: nat, p: MenuPatch)
    requires UpdateMenu(st, id, p).Ok? && UpdateMenu(st, id, p).value.menus[id].active
    ensures Offerable(UpdateMenu(st, id, p).value, id)
  {
    var next := UpdateMenu(st, id, p).value;
    var checked := st.(menus := next.menus);
    assert Publishable(checked, id);
    PublishableIsOfferable(checked, id);
    assert forall g :: ItemsOf(checked, g) == ItemsOf(next, g);
    SameComposition(checked, next, id);
  }

  /** A menu still active after the operation was active before it, and not touched by it. */
  lemma ActiveIsElsewhere(st: State, op: Op, m: nat)
    requires Apply(st, op).Ok? && Apply(st, op).value != st && !(op.OpUpdateMenu? && op.id == m)
    requires m in Apply(st, op).value.menus && Apply(st, op).value.menus[m].active
    ensures m in st.menus && st.menus[m].active && Elsewhere(op, m)
  {
  }

  lemma ApplyKeepsActiveOfferable(st: State, op: Op)
    requires WellFormed(st) && ActiveOfferable(st) && Apply(st, op).Ok?
    ensures ActiveOfferable(Apply(st, op).value)
  {
    var next := Apply(st, op).value;
    forall m | m in next.menus && next.menus[m].active ensures Offerable(next, m) {
      if op.OpUpdateMenu? && op.id == m {
        UpdateChecksOfferable(st, op.id, op.patch);
      } else if next != st {
        ActiveIsElsewhere(st, op, m);
        ElsewhereKeepsOfferable(st, op, m);
      }
    }
  }

  // ---------------------------------------------------------------- what every operation keeps

  /** Rows are well formed, active menus offer enough, and the log tells exactly what is published. */
  ghost predicate Sound(st: State) {
    WellFormed(st) && ActiveOfferable(st) && Replay(st.log) == Publication(st.menus)
  }

  lemma ApplyKeepsSound(st: State, op: Op)
    requires Sound(st) && Apply(st, op).Ok?
    ensures Sound(Apply(st, op).value)
  {
    ApplyKeepsWellFormed(st, op);
    ApplyKeepsActiveOfferable(st, op);
    ApplyKeepsReplay(st, op);
  }

  /** Every menu but m, with its groups and their items, is as before. */
  ghost predicate OthersKept(st: State, next: State, m: nat) {
    forall k :: k in st.menus && k != m ==>
      && k in next.menus && next.menus[k] == st.menus[k]
      && GroupsOf(next, k) == GroupsOf(st, k)
      && forall g :: g in GroupsOf(st, k) ==> next.groups[g] == st.groups[g] && ItemsOf(next, g) == ItemsOf(st, g)
  }

  /** The menu an operation is about. */
  function Subject(op: Op): Option<nat> {
    match op
    case OpCreateMenu(id, _) => Some(id)
    case OpUpdateMenu(id, _) => Some(id)
    case OpDeleteMenu(id) => Some(id)
    case SetProduct(_, _) => None
    case Crash => None
    case _ => Some(op.m)
  }

  lemma ApplyKeepsOtherRow(st: State, op: Op, k: nat)
    requires Apply(st, op).Ok? && Subject(op).Some? && k in st.menus && k != Subject(op).value
    ensures k in Apply(st, op).value.menus && Apply(st, op).value.menus[k] == st.menus[k] && Elsewhere(op, k)
  {
  }

  /** An operation on one menu touches no other. */
  lemma ApplyKeepsOthers(st: State, op: Op)
    requires WellFormed(st) && Apply(st, op).Ok? && Subject(op).Some?
    ensures OthersKept(st, Apply(st, op).value, Subject(op).value)
  {
    var next := Apply(st, op).value;
    forall k | k in st.menus && k != Subject(op).value
      ensures k in next.menus && next.menus[k] == st.menus[k] && GroupsOf(next, k) == GroupsOf(st, k)
      ensures forall g :: g in GroupsOf(st, k) ==> next.groups[g] == st.groups[g] && ItemsOf(next, g) == ItemsOf(st, g)
    {
      ApplyKeepsOtherRow(st, op, k);
      OthersKeepGroups(st, op, k);
      forall g | g in GroupsOf(st, k) ensures ItemsOf(next, g) == ItemsOf(st, g) {
        OthersKeepItems(st, op, k, g);
      }
    }
  }

  lemma {:induction false} RunKeepsStructure(st: State, ops: seq<Op>)
    requires WellFormed(st) && ActiveOfferable(st)
    ensures WellFormed(Run(st, ops)) && ActiveOfferable(Run(st, ops))
    decreases |ops|
  {
    if ops != [] {
      if Apply(st, ops[0]).Ok? {
        ApplyKeepsWellFormed(st, ops[0]);
        ApplyKeepsActiveOfferable(st, ops[0]);
        RunKeepsStructure(Apply(st, ops[0]).value, ops[1..]);
      } else {
        RunKeepsStructure(st, ops[1..]);
      }
    }
  }

  /** Items of a group name distinct products. */
  lemma {:induction false} CountProducts(st: State, items: set<nat>, g: nat)
    requires WellFormed(st) && items <= ItemsOf(st, g)
    ensures |set i | i in items :: st.items[i].product| == |items|
    decreases items
  {
    if items != {} {
      var i :| i in items;
      var rest := items - {i};
      CountProducts(st, rest, g);
      var ps := set j | j in rest :: st.items[j].product;
      assert (set j | j in items :: st.items[j].product) == ps + {st.items[i].product};
    }
  }

  /** In every reachable state an active menu has a group, every group a valid range, and each
      group of an active menu at least `min` distinct products. */
  lemma ActiveMenusHoldChoices(ops: seq<Op>, m: nat)
    requires m in Run(INIT, ops).menus && Run(INIT, ops).menus[m].active
    ensures GroupsOf(Run(INIT, ops), m) != {}
    ensures forall g :: g in GroupsOf(Run(INIT, ops), m) ==>
              var st := Run(INIT, ops);
              1 <= st.groups[g].min <= st.groups[g].max && |ProductsOf(st, g)| >= st.groups[g].min
  {
    RunKeepsStructure(INIT, ops);
    var st := Run(INIT, ops);
    forall g | g in GroupsOf(st, m) ensures |ProductsOf(st, g)| >= st.groups[g].min {
      CountProducts(st, ItemsOf(st, g), g);
    }
  }
}
