/** Pruning of uploaded SVG trees (app/core/services/cloudinary.py, `sanitize_svg`). */
module SvgSanitize {

  import opened Common

  // ---------------------------------------------------------------- names and values

  /** `name.split("}")[-1]`: the part of a name after its namespace. */
  function Local(name: string): string {
    if name == [] || name[|name| - 1] == '}' then []
    else Local(name[..|name| - 1]) + [name[|name| - 1]]
  }

  /** The local name is all that follows the last brace. */
  lemma {:induction false} LocalFollowsBrace(name: string)
    ensures '}' !in Local(name)
    ensures Local(name) == name || exists space :: name == space + "}" + Local(name)
  {
    if name != [] && name[|name| - 1] != '}' {
      var init := name[..|name| - 1];
      LocalFollowsBrace(init);
      if Local(init) != init {
        var space :| init == space + "}" + Local(init);
        assert name == space + "}" + Local(name);
      }
    } else if name != [] {
      assert name == name[..|name| - 1] + "}" + [];
    }
  }

  /** What is refused: local names of elements, and attributes by name and value. */
  datatype Rules = Rules(blocked: set<string>, bad: (string, string) -> bool)

  /** Comments and processing instructions have no string for a tag, and are never blocked. */
  predicate Blocked(r: Rules, tag: Option<string>) {
    tag.Some? && Local(tag.value) in r.blocked
  }

  predicate IsSpace(c: char) {
    || 9 <= c as int <= 13 || 28 <= c as int <= 32 || c as int in {0x85, 0xA0, 0x1680}
    || 0x2000 <= c as int <= 0x200A || c as int in {0x2028, 0x2029, 0x202F, 0x205F, 0x3000}
  }

  function Strip(s: string): string {
    if s == [] then []
    else if IsSpace(s[0]) then Strip(s[1..])
    else if IsSpace(s[|s| - 1]) then Strip(s[..|s| - 1])
    else s
  }

  /** Only ASCII letters matter to the two prefixes. */
  function Lower(s: string): string {
    seq(|s|, i requires 0 <= i < |s| => if 'A' <= s[i] <= 'Z' then s[i] - 'A' + 'a' else s[i])
  }

  predicate DangerousLink(value: string) {
    var v := Lower(Strip(value));
    "javascript:" <= v || "data:text/html" <= v
  }

  predicate BadAttribute(name: string, value: string) {
    var local := Local(name);
    || "on" <= local
    || (local in {"href", "src"} && DangerousLink(value))
  }

  /** The rules of the source. */
  function SvgRules(): Rules {
    Rules({"script", "use", "foreignObject", "iframe", "object", "embed"}, BadAttribute)
  }

  type Attributes = map<string, string>

  // ---------------------------------------------------------------- trees

  /** An element as it hangs in the tree; `id` is its identity. */
  datatype Tree = Element(id: nat, tag: Option<string>, attrib: Attributes, kids: seq<Tree>)

  /** `iter()`: every element, in document order. */
  function Nodes(t: Tree): seq<Tree>
    decreases t
  {
    [t] + NodesOf(t.kids)
  }

  function NodesOf(ts: seq<Tree>): seq<Tree>
    decreases ts
  {
    if ts == [] then [] else Nodes(ts[0]) + NodesOf(ts[1..])
  }

  function Ids(ts: seq<Tree>): seq<nat> {
    seq(|ts|, i requires 0 <= i < |ts| => ts[i].id)
  }

  /** Reference for the removal: recursive pruning below the root. */
  function Prune(r: Rules, t: Tree): Tree
    decreases t
  {
    t.(kids := PruneAll(r, t.kids))
  }

  function PruneAll(r: Rules, ts: seq<Tree>): seq<Tree>
    decreases ts
  {
    if ts == [] then []
    else if Blocked(r, ts[0].tag) then PruneAll(r, ts[1..])
    else [Prune(r, ts[0])] + PruneAll(r, ts[1..])
  }

  function CleanAttributes(r: Rules, tag: Option<string>, attrib: Attributes): Attributes {
    if tag.None? then attrib
    else map a | a in attrib && !r.bad(a, attrib[a]) :: attrib[a]
  }

  function Scrub(r: Rules, t: Tree): Tree
    decreases t
  {
    Element(t.id, t.tag, CleanAttributes(r, t.tag, t.attrib), ScrubAll(r, t.kids))
  }

  function ScrubAll(r: Rules, ts: seq<Tree>): seq<Tree>
    decreases ts
  {
    if ts == [] then [] else [Scrub(r, ts[0])] + ScrubAll(r, ts[1..])
  }

  function Clean(r: Rules, t: Tree): Tree {
    Scrub(r, Prune(r, t))
  }

  // ---------------------------------------------------------------- facts about trees

  lemma {:induction false} KidsAreNodes(t: Tree, n: Tree, k: Tree)
    requires n in Nodes(t) && k in n.kids
    ensures k in Nodes(t)
    decreases t
  {
    if n == t { RootsAreNodes(t.kids, k); } else { KidsAreNodesOf(t.kids, n, k); }
  }

  lemma {:induction false} KidsAreNodesOf(ts: seq<Tree>, n: Tree, k: Tree)
    requires n in NodesOf(ts) && k in n.kids
    ensures k in NodesOf(ts)
    decreases ts
  {
    if n in Nodes(ts[0]) { KidsAreNodes(ts[0], n, k); } else { KidsAreNodesOf(ts[1..], n, k); }
  }

  lemma {:induction false} RootsAreNodes(ts: seq<Tree>, k: Tree)
    requires k in ts
    ensures k in NodesOf(ts)
  {
    if k == ts[0] {
      assert Nodes(k)[0] == k;
    } else {
      RootsAreNodes(ts[1..], k);
    }
  }

  /** A node of the pruned tree is a pruned node of the tree. */
  lemma {:induction false} PrunedNode(r: Rules, t: Tree, n: Tree) returns (m: Tree)
    requires n in Nodes(Prune(r, t))
    ensures m in Nodes(t) && n == Prune(r, m)
    decreases t
  {
    if n == Prune(r, t) { m := t; } else { m := PrunedNodeOf(r, t.kids, n); }
  }

  lemma {:induction false} PrunedNodeOf(r: Rules, ts: seq<Tree>, n: Tree) returns (m: Tree)
    requires n in NodesOf(PruneAll(r, ts))
    ensures m in NodesOf(ts) && n == Prune(r, m) && !Blocked(r, m.tag)
    decreases ts
  {
    if !Blocked(r, ts[0].tag) {
      assert PruneAll(r, ts)[1..] == PruneAll(r, ts[1..]);
      if n in Nodes(Prune(r, ts[0])) {
        if n == Prune(r, ts[0]) { m := ts[0]; } else { m := PrunedNodeOf(r, ts[0].kids, n); }
        return;
      }
    }
    m := PrunedNodeOf(r, ts[1..], n);
  }

  lemma {:induction false} ScrubbedNode(r: Rules, t: Tree, n: Tree) returns (m: Tree)
    requires n in Nodes(Scrub(r, t))
    ensures m in Nodes(t) && n == Scrub(r, m)
    decreases t
  {
    if n == Scrub(r, t) { m := t; } else { m := ScrubbedNodeOf(r, t.kids, n); }
  }

  lemma {:induction false} ScrubbedNodeOf(r: Rules, ts: seq<Tree>, n: Tree) returns (m: Tree)
    requires n in NodesOf(ScrubAll(r, ts))
    ensures m in NodesOf(ts) && n == Scrub(r, m)
    decreases ts
  {
    assert ScrubAll(r, ts)[1..] == ScrubAll(r, ts[1..]);
    if n in Nodes(Scrub(r, ts[0])) { m := ScrubbedNode(r, ts[0], n); } else { m := ScrubbedNodeOf(r, ts[1..], n); }
  }

  lemma {:induction false} ScrubKeepsIds(r: Rules, ts: seq<Tree>)
    ensures Ids(ScrubAll(r, ts)) == Ids(ts)
  {
    if ts != [] {
      ScrubKeepsIds(r, ts[1..]);
      assert Ids(ts) == [ts[0].id] + Ids(ts[1..]);
      assert Ids(ScrubAll(r, ts)) == [ts[0].id] + Ids(ScrubAll(r, ts[1..]));
    }
  }

  // ---------------------------------------------------------------- the mutable document

  function Without(cs: seq<nat>, drop: set<nat>): seq<nat> {
    if cs == [] then []
    else if cs[0] in drop then Without(cs[1..], drop)
    else [cs[0]] + Without(cs[1..], drop)
  }

  /** `list.remove`: the first occurrence goes. */
  function RemoveFirst(cs: seq<nat>, c: nat): seq<nat>
    requires c in cs
  {
    if cs[0] == c then cs[1..] else [cs[0]] + RemoveFirst(cs[1..], c)
  }

  ghost predicate Distinct(cs: seq<nat>) {
    forall i, j :: 0 <= i < j < |cs| ==> cs[i] != cs[j]
  }

  type Children = map<nat, seq<nat>>

  datatype Removal = Removal(parent: nat, elem: nat)

  ghost predicate Justified(r: Rules, tags: map<nat, Option<string>>, parents: map<nat, nat>, x: Removal) {
    x.elem in parents && x.parent == parents[x.elem] && x.elem in tags && Blocked(r, tags[x.elem])
  }

  ghost function Doomed(removals: seq<Removal>): set<nat> {
    set x | x in removals :: x.elem
  }

  lemma DoomedNext(removals: seq<Removal>, i: nat)
    requires i < |removals|
    ensures Doomed(removals[..i + 1]) == Doomed(removals[..i]) + {removals[i].elem}
  {
    assert removals[..i + 1] == removals[..i] + [removals[i]];
  }

  /** Every element but the root hangs in one place; the root hangs nowhere. */
  ghost predicate OneParent(ch: Children, root: nat) {
    && (forall p, q, c :: p in ch && q in ch && c in ch[p] && c in ch[q] ==> p == q)
    && (forall p :: p in ch ==> Distinct(ch[p]) && root !in ch[p])
  }

  /** The lists of children spell out the tree. */
  ghost predicate Links(ch: Children, t: Tree) {
    forall n :: n in Nodes(t) ==> n.id in ch && ch[n.id] == Ids(n.kids)
  }

  ghost predicate Labels(tags: map<nat, Option<string>>, attribs: map<nat, Attributes>, t: Tree) {
    forall n :: n in Nodes(t) ==> n.id in tags && tags[n.id] == n.tag && n.id in attribs && attribs[n.id] == n.attrib
  }

  lemma {:induction false} WithoutMember(cs: seq<nat>, drop: set<nat>, c: nat)
    ensures c in Without(cs, drop) <==> c in cs && c !in drop
  {
    if cs != [] { WithoutMember(cs[1..], drop, c); }
  }

  lemma {:induction false} WithoutOther(cs: seq<nat>, drop: set<nat>, c: nat)
    requires c !in cs
    ensures Without(cs, drop + {c}) == Without(cs, drop)
  {
    if cs != [] { WithoutOther(cs[1..], drop, c); }
  }

  lemma {:induction false} WithoutNothing(cs: seq<nat>)
    ensures Without(cs, {}) == cs
  {
    if cs != [] { WithoutNothing(cs[1..]); }
  }

  /** Removing the one occurrence of an element is filtering it out. */
  lemma {:induction false} RemoveIsWithout(cs: seq<nat>, drop: set<nat>, c: nat)
    requires Distinct(cs) && c in Without(cs, drop)
    ensures RemoveFirst(Without(cs, drop), c) == Without(cs, drop + {c})
  {
    WithoutMember(cs, drop, c);
    if cs[0] == c {
      assert c !in cs[1..];
      WithoutOther(cs[1..], drop, c);
    } else {
      WithoutMember(cs[1..], drop, c);
      RemoveIsWithout(cs[1..], drop, c);
      if cs[0] !in drop { assert ([cs[0]] + Without(cs[1..], drop))[1..] == Without(cs[1..], drop); }
    }
  }

  lemma {:induction false} WithoutDistinct(cs: seq<nat>, drop: set<nat>)
    requires Distinct(cs)
    ensures Distinct(Without(cs, drop))
  {
    if cs != [] {
      WithoutDistinct(cs[1..], drop);
      WithoutMember(cs[1..], drop, cs[0]);
    }
  }

  lemma {:induction false} PruneIsWithout(r: Rules, ts: seq<Tree>, drop: set<nat>)
    requires forall k :: k in ts ==> (k.id in drop <==> Blocked(r, k.tag))
    ensures Ids(PruneAll(r, ts)) == Without(Ids(ts), drop)
  {
    if ts != [] {
      PruneIsWithout(r, ts[1..], drop);
      assert Ids(ts)[1..] == Ids(ts[1..]);
      assert ts[0] in ts;
      if !Blocked(r, ts[0].tag) {
        assert Ids(PruneAll(r, ts)) == [ts[0].id] + Ids(PruneAll(r, ts[1..]));
      }
    }
  }

  /** Filtering every list of children by a set that holds exactly the blocked ones prunes the tree. */
  lemma FilteredLinks(r: Rules, before: Children, after: Children, t: Tree, drop: set<nat>)
    requires Links(before, t) && after.Keys == before.Keys
    requires forall p :: p in before ==> after[p] == Without(before[p], drop)
    requires forall n, k :: n in Nodes(t) && k in n.kids ==> (k.id in drop <==> Blocked(r, k.tag))
    ensures Links(after, Prune(r, t))
  {
    forall n | n in Nodes(Prune(r, t)) ensures n.id in after && after[n.id] == Ids(n.kids) {
      var m := PrunedNode(r, t, n);
      PruneIsWithout(r, m.kids, drop);
    }
  }

  lemma FilteredOneParent(before: Children, after: Children, root: nat, drop: set<nat>)
    requires OneParent(before, root) && after.Keys == before.Keys
    requires forall p :: p in before ==> after[p] == Without(before[p], drop)
    ensures OneParent(after, root)
  {
    forall p, c | p in before ensures Distinct(after[p]) && (c in after[p] ==> c in before[p]) {
      WithoutDistinct(before[p], drop);
      WithoutMember(before[p], drop, c);
    }
  }

  lemma PrunedLabels(r: Rules, tags: map<nat, Option<string>>, attribs: map<nat, Attributes>, t: Tree)
    requires Labels(tags, attribs, t)
    ensures Labels(tags, attribs, Prune(r, t))
  {
    forall n | n in Nodes(Prune(r, t))
      ensures n.id in tags && tags[n.id] == n.tag && n.id in attribs && attribs[n.id] == n.attrib
    {
      var m := PrunedNode(r, t, n);
    }
  }

  lemma ScrubbedLinks(r: Rules, ch: Children, t: Tree)
    requires Links(ch, t)
    ensures Links(ch, Scrub(r, t))
  {
    forall n | n in Nodes(Scrub(r, t)) ensures n.id in ch && ch[n.id] == Ids(n.kids) {
      var m := ScrubbedNode(r, t, n);
      ScrubKeepsIds(r, m.kids);
    }
  }

  lemma ScrubbedLabels(r: Rules, tags: map<nat, Option<string>>, attribs: map<nat, Attributes>,
                       after: map<nat, Attributes>, t: Tree)
    requires Labels(tags, attribs, t)
    requires forall n :: n in Nodes(t) ==> n.id in after && after[n.id] == CleanAttributes(r, n.tag, n.attrib)
    ensures Labels(tags, after, Scrub(r, t))
  {
    forall n | n in Nodes(Scrub(r, t))
      ensures n.id in tags && tags[n.id] == n.tag && n.id in after && after[n.id] == n.attrib
    {
      var m := ScrubbedNode(r, t, n);
    }
  }

  lemma IdsConcat(a: seq<Tree>, b: seq<Tree>)
    ensures Ids(a + b) == Ids(a) + Ids(b)
  {
  }

  lemma {:induction false} NodesOfSnoc(ts: seq<Tree>, t: Tree)
    ensures NodesOf(ts + [t]) == NodesOf(ts) + Nodes(t)
  {
    if ts == [] {
      assert (ts + [t])[1..] == [];
    } else {
      assert (ts + [t])[1..] == ts[1..] + [t];
      NodesOfSnoc(ts[1..], t);
    }
  }

  /** The parsed document.  `shape` is the tree the fields spell out. */
  class Document {
    const root: nat
    const tags: map<nat, Option<string>>
    var attribs: map<nat, Attributes>
    var children: Children
    ghost var shape: Tree

    ghost predicate Valid()
      reads this
    {
      && shape.id == root
      && OneParent(children, root)
      && Links(children, shape)
      && Labels(tags, attribs, shape)
    }

    constructor (top: nat, tag: map<nat, Option<string>>, attrib: map<nat, Attributes>, ch: Children, ghost t: Tree)
      requires t.id == top && OneParent(ch, top) && Links(ch, t) && Labels(tag, attrib, t)
      ensures Valid() && shape == t
      ensures root == top && tags == tag && attribs == attrib && children == ch
    {
      root, tags, attribs, children, shape := top, tag, attrib, ch, t;
    }

    /** `iter()` from an element that stands for the subtree t. */
    method Iter(e: nat, ghost t: Tree) returns (order: seq<nat>)
      requires Links(children, t) && e == t.id
      ensures order == Ids(Nodes(t))
      decreases t
    {
      order := [e];
      assert t in Nodes(t);
      var kids := children[e];
      ghost var done: seq<Tree> := [t];
      for i := 0 to |kids|
        invariant done == [t] + NodesOf(t.kids[..i])
        invariant order == Ids(done)
      {
        ghost var k := t.kids[i];
        forall n | n in Nodes(k) ensures n in Nodes(t) { NodesInside(t, k, n); }
        var below := Iter(kids[i], k);
        IdsConcat(done, Nodes(k));
        assert t.kids[..i + 1] == t.kids[..i] + [k];
        NodesOfSnoc(t.kids[..i], k);
        order := order + below;
        done := done + Nodes(k);
      }
      assert t.kids[..|kids|] == t.kids;
    }

    /** `parent_map` */
    method ParentMap(order: seq<nat>) returns (parents: map<nat, nat>)
      requires forall p :: p in order ==> p in children
      ensures forall c :: c in parents ==> parents[c] in order && c in children[parents[c]]
      ensures forall p, c :: p in order && c in children[p] ==> c in parents
    {
      parents := map[];
      for i := 0 to |order|
        invariant forall c :: c in parents ==> parents[c] in order && c in children[parents[c]]
        invariant forall p, c :: p in order[..i] && c in children[p] ==> c in parents
      {
        var kids := children[order[i]];
        for j := 0 to |kids|
          invariant forall c :: c in parents ==> parents[c] in order && c in children[parents[c]]
          invariant forall p, c :: p in order[..i] && c in children[p] ==> c in parents
          invariant forall c :: c in kids[..j] ==> c in parents
        {
          parents := parents[kids[j] := order[i]];
        }
      }
    }

    /** `to_remove` */
    method BlockedElements(r: Rules, order: seq<nat>, parents: map<nat, nat>) returns (removals: seq<Removal>)
      requires forall e :: e in order ==> e in tags
      ensures forall x :: x in removals ==> Justified(r, tags, parents, x)
      ensures forall e :: e in order && e in parents && Blocked(r, tags[e]) ==> Removal(parents[e], e) in removals
    {
      removals := [];
      for i := 0 to |order|
        invariant forall x :: x in removals ==> Justified(r, tags, parents, x)
        invariant forall e :: e in order[..i] && e in parents && Blocked(r, tags[e]) ==>
            Removal(parents[e], e) in removals
      {
        var e := order[i];
        if Blocked(r, tags[e]) {
          if e in parents {
            removals := removals + [Removal(parents[e], e)];
          }
        }
      }
    }

    /** `parent.remove(elem)` for each pair; a missing child is skipped. */
    method RemoveAll(removals: seq<Removal>)
      requires OneParent(children, root)
      requires forall x :: x in removals ==> x.parent in children && x.elem in children[x.parent]
      modifies this`children
      ensures children.Keys == old(children).Keys
      ensures forall p :: p in children ==> children[p] == Without(old(children)[p], Doomed(removals))
    {
      assert Doomed(removals[..0]) == {};
      forall p | p in children ensures children[p] == Without(children[p], {}) { WithoutNothing(children[p]); }
      for i := 0 to |removals|
        invariant children.Keys == old(children).Keys
        invariant forall p :: p in children ==> children[p] == Without(old(children)[p], Doomed(removals[..i]))
      {
        var Removal(parent, e) := removals[i];
        assert removals[i] in removals;
        DoomedNext(removals, i);
        RemovalStep(old(children), children, root, Doomed(removals[..i]), parent, e);
        if e in children[parent] {
          children := children[parent := RemoveFirst(children[parent], e)];
        }
      }
      assert removals[..|removals|] == removals;
    }

    /** `attrs_to_delete` */
    method AttributesToDelete(r: Rules, attrib: Attributes) returns (names: seq<string>)
      ensures forall a :: a in names <==> a in attrib && r.bad(a, attrib[a])
    {
      names := [];
      var todo := attrib.Keys;
      while todo != {}
        invariant todo <= attrib.Keys
        invariant forall a :: a in names <==> a in attrib && a !in todo && r.bad(a, attrib[a])
        decreases |todo|
      {
        var a :| a in todo;
        if r.bad(a, attrib[a]) { names := names + [a]; }
        todo := todo - {a};
      }
    }

    method DeleteAttributes(e: nat, names: seq<string>)
      requires e in attribs
      modifies this`attribs
      ensures attribs == old(attribs)[e := old(attribs)[e] - (set a | a in names)]
    {
      assert names[..0] == [];
      for i := 0 to |names|
        invariant attribs.Keys == old(attribs).Keys
        invariant forall p :: p in attribs && p != e ==> attribs[p] == old(attribs)[p]
        invariant attribs[e] == old(attribs)[e] - (set a | a in names[..i])
      {
        attribs := attribs[e := attribs[e] - {names[i]}];
        assert names[..i + 1] == names[..i] + [names[i]];
      }
      assert names[..|names|] == names;
    }

    /** The dangerous attributes of one element are found first and deleted after. */
    method CleanElement(r: Rules, e: nat)
      requires e in tags && e in attribs
      modifies this`attribs
      ensures attribs == old(attribs)[e := CleanAttributes(r, tags[e], old(attribs)[e])]
    {
      if tags[e].None? { return; }
      var names := AttributesToDelete(r, attribs[e]);
      assert CleanAttributes(r, tags[e], attribs[e]) == attribs[e] - (set a | a in names);
      DeleteAttributes(e, names);
    }

    method CleanElements(r: Rules, order: seq<nat>)
      requires forall e :: e in order ==> e in tags && e in attribs
      modifies this`attribs
      ensures forall e :: e in order ==> e in attribs && attribs[e] == CleanAttributes(r, tags[e], old(attribs)[e])
    {
      for i := 0 to |order|
        invariant attribs.Keys == old(attribs).Keys
        invariant forall e :: e in order[..i] ==> attribs[e] == CleanAttributes(r, tags[e], old(attribs)[e])
        invariant forall e :: e in attribs && e !in order[..i] ==> attribs[e] == old(attribs)[e]
      {
        if order[i] in order[..i] { CleanTwice(r, tags[order[i]], old(attribs)[order[i]]); }
        CleanElement(r, order[i]);
      }
    }

    /** The removal part of `sanitize_svg`. */
    method RemoveBlocked(r: Rules)
      requires Valid()
      modifies this`children, this`shape
      ensures Valid() && shape == Prune(r, old(shape))
    {
      var order := Iter(root, shape);
      OrderHoldsNodes(shape);
      var parents := ParentMap(order);
      var removals := BlockedElements(r, order, parents);
      RemovalsAreBlockedKids(r, children, tags, attribs, shape, parents, removals);
      ghost var drop := Doomed(removals);
      RemoveAll(removals);
      FilteredLinks(r, old(children), children, shape, drop);
      FilteredOneParent(old(children), children, root, drop);
      PrunedLabels(r, tags, attribs, shape);
      shape := Prune(r, shape);
    }

    /** The attribute part of `sanitize_svg`. */
    method RemoveAttributes(r: Rules)
      requires Valid()
      modifies this`attribs, this`shape
      ensures Valid() && shape == Scrub(r, old(shape))
    {
      var order := Iter(root, shape);
      OrderHoldsNodes(shape);
      CleanElements(r, order);
      ScrubbedLinks(r, children, shape);
      ScrubbedLabels(r, tags, old(attribs), attribs, shape);
      shape := Scrub(r, shape);
    }

    /** `sanitize_svg` between parsing and printing. */
    method SanitizeSvg()
      requires Valid()
      modifies this
      ensures Valid() && shape == Clean(SvgRules(), old(shape))
    {
      RemoveBlocked(SvgRules());
      RemoveAttributes(SvgRules());
    }
  }

  lemma {:induction false} NodesInside(t: Tree, k: Tree, n: Tree)
    requires k in t.kids && n in Nodes(k)
    ensures n in Nodes(t)
  {
    NodesInsideOf(t.kids, k, n);
  }

  lemma {:induction false} NodesInsideOf(ts: seq<Tree>, k: Tree, n: Tree)
    requires k in ts && n in Nodes(k)
    ensures n in NodesOf(ts)
  {
    if k != ts[0] { NodesInsideOf(ts[1..], k, n); }
  }

  lemma OrderHoldsNodes(t: Tree)
    ensures forall n :: n in Nodes(t) ==> n.id in Ids(Nodes(t))
    ensures forall e :: e in Ids(Nodes(t)) ==> exists n :: n in Nodes(t) && n.id == e
  {
    forall n | n in Nodes(t) ensures n.id in Ids(Nodes(t)) {
      var i :| 0 <= i < |Nodes(t)| && Nodes(t)[i] == n;
      assert Ids(Nodes(t))[i] == n.id;
    }
  }

  lemma CleanTwice(r: Rules, tag: Option<string>, attrib: Attributes)
    ensures CleanAttributes(r, tag, CleanAttributes(r, tag, attrib)) == CleanAttributes(r, tag, attrib)
  {
  }

  /** Among the children of the tree's elements exactly the blocked ones are to be removed. */
  lemma RemovalsAreBlockedKids(r: Rules, ch: Children, tags: map<nat, Option<string>>,
                               attribs: map<nat, Attributes>, t: Tree,
                               parents: map<nat, nat>, removals: seq<Removal>)
    requires Links(ch, t) && Labels(tags, attribs, t)
    requires forall n :: n in Nodes(t) ==> forall c :: c in ch[n.id] ==> c in parents
    requires forall x :: x in removals ==> Justified(r, tags, parents, x)
    requires forall n :: n in Nodes(t) && n.id in parents && Blocked(r, n.tag) ==>
               Removal(parents[n.id], n.id) in removals
    ensures forall n, k :: n in Nodes(t) && k in n.kids ==> (k.id in Doomed(removals) <==> Blocked(r, k.tag))
  {
    forall n, k | n in Nodes(t) && k in n.kids ensures k.id in Doomed(removals) <==> Blocked(r, k.tag) {
      KidsAreNodes(t, n, k);
      var i :| 0 <= i < |n.kids| && n.kids[i] == k;
      assert ch[n.id][i] == k.id;
      if Blocked(r, k.tag) { assert Removal(parents[k.id], k.id).elem in Doomed(removals); }
    }
  }

  lemma RemovalStep(start: Children, now: Children, root: nat, drop: set<nat>, parent: nat, e: nat)
    requires OneParent(start, root) && now.Keys == start.Keys
    requires forall p :: p in now ==> now[p] == Without(start[p], drop)
    requires parent in start && e in start[parent]
    ensures forall p :: p in now && p != parent ==> now[p] == Without(start[p], drop + {e})
    ensures e in now[parent] ==> RemoveFirst(now[parent], e) == Without(start[parent], drop + {e})
    ensures e !in now[parent] ==> drop + {e} == drop
  {
    forall p | p in now && p != parent ensures now[p] == Without(start[p], drop + {e}) {
      WithoutOther(start[p], drop, e);
    }
    WithoutMember(start[parent], drop, e);
    if e in now[parent] { RemoveIsWithout(start[parent], drop, e); }
  }

  // ---------------------------------------------------------------- results

  /** An element with the tags on the way down to it from below the root, its own included. */
  datatype Place = Place(id: nat, tag: Option<string>, attrib: Attributes, path: seq<Option<string>>)

  /** The places of a tree in document order. */
  function Places(t: Tree, path: seq<Option<string>>): seq<Place>
    decreases t
  {
    [Place(t.id, t.tag, t.attrib, path)] + PlacesOf(t.kids, path)
  }

  function PlacesOf(ts: seq<Tree>, path: seq<Option<string>>): seq<Place>
    decreases ts
  {
    if ts == [] then [] else Places(ts[0], path + [ts[0].tag]) + PlacesOf(ts[1..], path)
  }

  ghost predicate Allowed(r: Rules, path: seq<Option<string>>) {
    forall tag :: tag in path ==> !Blocked(r, tag)
  }

  /** The places with no blocked element on their path, their attributes cleaned. */
  ghost function Survivors(r: Rules, ps: seq<Place>): seq<Place> {
    if ps == [] then []
    else if !Allowed(r, ps[0].path) then Survivors(r, ps[1..])
    else [ps[0].(attrib := CleanAttributes(r, ps[0].tag, ps[0].attrib))] + Survivors(r, ps[1..])
  }

  lemma {:induction false} SurvivorsConcat(r: Rules, a: seq<Place>, b: seq<Place>)
    ensures Survivors(r, a + b) == Survivors(r, a) + Survivors(r, b)
  {
    if a == [] {
      assert a + b == b;
    } else {
      assert (a + b)[1..] == a[1..] + b;
      SurvivorsConcat(r, a[1..], b);
    }
  }

  /** Below a blocked element nothing survives. */
  lemma {:induction false} NoneSurvive(r: Rules, t: Tree, path: seq<Option<string>>)
    requires !Allowed(r, path)
    ensures Survivors(r, Places(t, path)) == []
    decreases t
  {
    NoneSurviveOf(r, t.kids, path);
  }

  lemma {:induction false} NoneSurviveOf(r: Rules, ts: seq<Tree>, path: seq<Option<string>>)
    requires !Allowed(r, path)
    ensures Survivors(r, PlacesOf(ts, path)) == []
    decreases ts
  {
    if ts != [] {
      var tag :| tag in path && Blocked(r, tag);
      assert tag in path + [ts[0].tag];
      NoneSurvive(r, ts[0], path + [ts[0].tag]);
      NoneSurviveOf(r, ts[1..], path);
      SurvivorsConcat(r, Places(ts[0], path + [ts[0].tag]), PlacesOf(ts[1..], path));
    }
  }

  /** What the sanitised tree holds, in document order: exactly the elements with no blocked
      element between the root and themselves, each in its old place, without its dangerous
      attributes and with all the others. */
  lemma {:induction false} CleanKeepsSurvivors(r: Rules, t: Tree)
    ensures Places(Clean(r, t), []) == Survivors(r, Places(t, []))
  {
    PlacesOfClean(r, t, []);
  }

  lemma {:induction false} PlacesOfClean(r: Rules, t: Tree, path: seq<Option<string>>)
    requires Allowed(r, path)
    ensures Places(Clean(r, t), path) == Survivors(r, Places(t, path))
    decreases t
  {
    PlacesOfCleanAll(r, t.kids, path);
  }

  lemma {:induction false} PlacesOfCleanAll(r: Rules, ts: seq<Tree>, path: seq<Option<string>>)
    requires Allowed(r, path)
    ensures PlacesOf(ScrubAll(r, PruneAll(r, ts)), path) == Survivors(r, PlacesOf(ts, path))
    decreases ts
  {
    if ts != [] {
      var below := path + [ts[0].tag];
      PlacesOfCleanAll(r, ts[1..], path);
      SurvivorsConcat(r, Places(ts[0], below), PlacesOf(ts[1..], path));
      if Blocked(r, ts[0].tag) {
        assert ts[0].tag in below;
        NoneSurvive(r, ts[0], below);
      } else {
        PlacesOfClean(r, ts[0], below);
        assert PruneAll(r, ts)[1..] == PruneAll(r, ts[1..]);
        assert ScrubAll(r, PruneAll(r, ts)) == [Clean(r, ts[0])] + ScrubAll(r, PruneAll(r, ts[1..]));
      }
    }
  }

  /** Nothing blocked is left below the root, and no dangerous attribute anywhere. */
  lemma CleanIsSafe(r: Rules, t: Tree)
    ensures forall n :: n in NodesOf(Clean(r, t).kids) ==> !Blocked(r, n.tag)
    ensures forall n, a :: n in Nodes(Clean(r, t)) && n.tag.Some? && a in n.attrib ==> !r.bad(a, n.attrib[a])
  {
    forall n | n in NodesOf(Clean(r, t).kids) ensures !Blocked(r, n.tag) {
      var m := ScrubbedNodeOf(r, PruneAll(r, t.kids), n);
      var l := PrunedNodeOf(r, t.kids, m);
    }
    forall n, a | n in Nodes(Clean(r, t)) && n.tag.Some? && a in n.attrib ensures !r.bad(a, n.attrib[a]) {
      var m := ScrubbedNode(r, Prune(r, t), n);
    }
  }

  // ---------------------------------------------------------------- the rules of the source, spelled out

  /** The character is the lower-case letter or sign, in either case. */
  predicate InEitherCase(c: char, l: char) {
    c == l || ('A' <= c <= 'Z' && c as int + 32 == l as int)
  }

  /** The text begins with the prefix, in any case. */
  ghost predicate BeginsWith(s: string, p: string) {
    |p| <= |s| && forall i :: 0 <= i < |p| ==> InEitherCase(s[i], p[i])
  }

  /** After some white space the text begins with the prefix. */
  ghost predicate BeginsAfterSpace(s: string, p: string) {
    exists k :: 0 <= k <= |s| && (forall i :: 0 <= i < k ==> IsSpace(s[i])) && BeginsWith(s[k..], p)
  }

  /** A prefix in lower case and without white space. */
  ghost predicate PlainPrefix(p: string) {
    p != [] && forall i :: 0 <= i < |p| ==> !IsSpace(p[i]) && !('A' <= p[i] <= 'Z')
  }

  lemma LowerBegins(s: string, p: string)
    requires PlainPrefix(p)
    ensures p <= Lower(s) <==> BeginsWith(s, p)
  {
    if BeginsWith(s, p) {
      forall i | 0 <= i < |p| ensures p[i] == Lower(s)[i] { assert InEitherCase(s[i], p[i]); }
    } else if |p| <= |s| {
      var i :| 0 <= i < |p| && !InEitherCase(s[i], p[i]);
      assert Lower(s)[i] != p[i];
    }
  }

  lemma SpaceMismatch(s: string, p: string, i: nat)
    requires PlainPrefix(p) && i < |s| && i < |p| && IsSpace(s[i])
    ensures !BeginsWith(s, p)
  {
    assert !InEitherCase(s[i], p[i]);
  }

  /** A space at either end does not matter. */
  lemma SpaceFirst(s: string, p: string)
    requires PlainPrefix(p) && s != [] && IsSpace(s[0])
    ensures BeginsAfterSpace(s, p) <==> BeginsAfterSpace(s[1..], p)
  {
    if BeginsAfterSpace(s, p) { SpaceDropped(s, p); }
    if BeginsAfterSpace(s[1..], p) { SpaceAdded(s, p); }
  }

  lemma SpaceDropped(s: string, p: string)
    requires PlainPrefix(p) && s != [] && IsSpace(s[0]) && BeginsAfterSpace(s, p)
    ensures BeginsAfterSpace(s[1..], p)
  {
    var k :| 0 <= k <= |s| && (forall i :: 0 <= i < k ==> IsSpace(s[i])) && BeginsWith(s[k..], p);
    SpaceMismatch(s, p, 0);
    assert s[0..] == s;
    assert k > 0;
    var rest := s[1..];
    assert rest[k - 1..] == s[k..];
    assert forall i :: 0 <= i < k - 1 ==> rest[i] == s[i + 1];
  }

  lemma SpaceAdded(s: string, p: string)
    requires s != [] && IsSpace(s[0]) && BeginsAfterSpace(s[1..], p)
    ensures BeginsAfterSpace(s, p)
  {
    var rest := s[1..];
    var k :| 0 <= k <= |rest| && (forall i :: 0 <= i < k ==> IsSpace(rest[i])) && BeginsWith(rest[k..], p);
    assert rest[k..] == s[k + 1..];
    forall i | 0 <= i < k + 1 ensures IsSpace(s[i]) {
      if i > 0 { assert s[i] == rest[i - 1]; }
    }
  }

  lemma NoSpaceFirst(s: string, p: string)
    requires s == [] || !IsSpace(s[0])
    ensures BeginsAfterSpace(s, p) <==> BeginsWith(s, p)
  {
    assert s[0..] == s;
    if k :| 0 <= k <= |s| && (forall i :: 0 <= i < k ==> IsSpace(s[i])) && BeginsWith(s[k..], p) {
      assert k == 0;
    }
  }

  lemma SpaceLast(s: string, p: string)
    requires PlainPrefix(p) && s != [] && IsSpace(s[|s| - 1])
    ensures BeginsWith(s, p) <==> BeginsWith(s[..|s| - 1], p)
  {
    if |p| == |s| { SpaceMismatch(s, p, |s| - 1); }
  }

  /** Stripping and lower-casing finds a prefix exactly where it stands after white space in any case. */
  lemma {:induction false} StrippedBegins(s: string, p: string)
    requires PlainPrefix(p)
    ensures p <= Lower(Strip(s)) <==> BeginsAfterSpace(s, p)
    decreases |s|
  {
    if s == [] {
      NoSpaceFirst(s, p);
      LowerBegins(s, p);
    } else if IsSpace(s[0]) {
      SpaceFirst(s, p);
      StrippedBegins(s[1..], p);
    } else {
      NoSpaceFirst(s, p);
      if IsSpace(s[|s| - 1]) {
        var front := s[..|s| - 1];
        SpaceLast(s, p);
        NoSpaceFirst(front, p);
        StrippedBegins(front, p);
      } else {
        LowerBegins(s, p);
      }
    }
  }

  /** A link with one of the two schemes, after any white space and in any case. */
  ghost predicate ScriptLink(value: string) {
    BeginsAfterSpace(value, "javascript:") || BeginsAfterSpace(value, "data:text/html")
  }

  lemma DangerousIsScriptLink(value: string)
    ensures DangerousLink(value) <==> ScriptLink(value)
  {
    StrippedBegins(value, "javascript:");
    StrippedBegins(value, "data:text/html");
  }

  /** Exactly which attributes an element keeps: all but event handlers and script links. */
  lemma AttributesKept(tag: Option<string>, attrib: Attributes, a: string)
    ensures tag.None? ==> CleanAttributes(SvgRules(), tag, attrib) == attrib
    ensures tag.Some? ==>
              (a in CleanAttributes(SvgRules(), tag, attrib) <==>
                 a in attrib && !("on" <= Local(a)) && !(Local(a) in {"href", "src"} && ScriptLink(attrib[a])))
    ensures a in CleanAttributes(SvgRules(), tag, attrib) ==> CleanAttributes(SvgRules(), tag, attrib)[a] == attrib[a]
  {
    if a in attrib { DangerousIsScriptLink(attrib[a]); }
  }

  /** Exactly which elements are refused. */
  lemma ElementsBlocked(tag: Option<string>)
    ensures Blocked(SvgRules(), tag) <==>
              tag.Some? && Local(tag.value) in {"script", "use", "foreignObject", "iframe", "object", "embed"}
  {
  }

  /** The same under the rules of the source, spelled out. */
  lemma SanitizedSvgIsSafe(t: Tree)
    ensures forall n :: n in NodesOf(Clean(SvgRules(), t).kids) && n.tag.Some? ==>
              Local(n.tag.value) !in {"script", "use", "foreignObject", "iframe", "object", "embed"}
    ensures forall n, a :: n in Nodes(Clean(SvgRules(), t)) && n.tag.Some? && a in n.attrib ==>
              !("on" <= Local(a)) && !(Local(a) in {"href", "src"} && ScriptLink(n.attrib[a]))
  {
    CleanIsSafe(SvgRules(), t);
    forall n, a | n in Nodes(Clean(SvgRules(), t)) && n.tag.Some? && a in n.attrib
      ensures !("on" <= Local(a)) && !(Local(a) in {"href", "src"} && ScriptLink(n.attrib[a]))
    {
      DangerousIsScriptLink(n.attrib[a]);
      assert !SvgRules().bad(a, n.attrib[a]);
      assert !BadAttribute(a, n.attrib[a]);
    }
  }

  /** The root is never removed: no blocked element at all is left exactly when the root is not one. */
  lemma FreeOfBlockedIffRootAllowed(r: Rules, t: Tree)
    ensures (forall n :: n in Nodes(Clean(r, t)) ==> !Blocked(r, n.tag)) <==> !Blocked(r, t.tag)
  {
    CleanIsSafe(r, t);
    assert Clean(r, t) in Nodes(Clean(r, t));
  }

  /** Sanitising twice changes nothing more. */
  lemma {:induction false} CleanIdempotent(r: Rules, t: Tree)
    ensures Clean(r, Clean(r, t)) == Clean(r, t)
    decreases t
  {
    CleanIdempotentAll(r, t.kids);
    CleanTwice(r, t.tag, t.attrib);
  }

  lemma {:induction false} CleanIdempotentAll(r: Rules, ts: seq<Tree>)
    ensures var once := ScrubAll(r, PruneAll(r, ts)); ScrubAll(r, PruneAll(r, once)) == once
    decreases ts
  {
    if ts != [] {
      CleanIdempotentAll(r, ts[1..]);
      if !Blocked(r, ts[0].tag) {
        CleanIdempotent(r, ts[0]);
        var once := ScrubAll(r, PruneAll(r, ts));
        assert PruneAll(r, ts)[1..] == PruneAll(r, ts[1..]);
        assert once == [Clean(r, ts[0])] + ScrubAll(r, PruneAll(r, ts[1..]));
        assert once[1..] == ScrubAll(r, PruneAll(r, ts[1..]));
        assert PruneAll(r, once) == [Prune(r, once[0])] + PruneAll(r, once[1..]);
      }
    }
  }
}
