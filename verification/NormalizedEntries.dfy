/** What the entries of a normalised catalogue hold, read off the hub's payload
    (app/modules/catalog/normalize.py). */
module NormalizedEntries {

  import opened Common
  import opened Normalize

  // ---------------------------------------------------------------- reading the payload

  /** The values that Python takes for false. */
  predicate Falsy(j: Json) {
    || j == Null || j == Bool(false) || j == Int(0) || j == Num(0.0)
    || j == Str("") || j == Arr([]) || j == Obj(map[])
  }

  /** The field is there and holds this value; or it is absent or null. */
  ghost predicate HoldsText(fields: map<string, Json>, key: string, text: Option<string>) {
    match text
    case Some(s) => key in fields && fields[key] == Str(s)
    case None => key !in fields || fields[key] == Null
  }

  /** The value converts to this number. */
  ghost predicate IsNumber(c: Coercions, j: Json, x: real) {
    match j
    case Int(i) => c.fits(i) && x == i as real
    case Num(n) => x == n
    case Bool(b) => x == (if b then 1.0 else 0.0)
    case Str(s) => c.number(s) == Some(x)
    case _ => false
  }

  /** A product with at least one SKU. */
  predicate HasSkus(raw: Json) {
    raw.Obj? && "skus" in raw.fields && !Falsy(raw.fields["skus"])
  }

  /** A number, or a rate for each channel of which the first that is not null counts. */
  ghost predicate HoldsTax(c: Coercions, fields: map<string, Json>, tax: Option<real>) {
    var rate := if "tax_rate" in fields then fields["tax_rate"] else Null;
    && !rate.Str? && !rate.Arr?
    && match tax
       case None => ChosenRate(rate) == Null
       case Some(x) => IsNumber(c, ChosenRate(rate), x)
  }

  /** The flag in the SKU's restrictions, or the flag true where they do not hold one. */
  ghost predicate HoldsFlag(c: Coercions, sku: map<string, Json>, active: bool) {
    var limits := if "restrictions" in sku then sku["restrictions"] else Null;
    && (limits.Obj? || Falsy(limits))
    && c.flag(if limits.Obj? && "enabled" in limits.fields then limits.fields["enabled"]
              else Bool(true)) == Some(active)
  }

  /** A category with this id. */
  ghost predicate IsCategory(c: Coercions, j: Json, id: string) {
    j.Obj? && "id" in j.fields && c.show(j.fields["id"]) == id
  }

  /** The last category with this id is at i. */
  ghost predicate LastCategory(c: Coercions, cs: seq<Json>, id: string, i: nat) {
    i < |cs| && IsCategory(c, cs[i], id) && forall j :: i < j < |cs| ==> !IsCategory(c, cs[j], id)
  }

  /** The name of the product's category: that of the last one with its id, if it has one. */
  ghost predicate HoldsCategory(c: Coercions, cs: seq<Json>, fields: map<string, Json>, name: Option<string>) {
    if "category_id" !in fields || Falsy(fields["category_id"]) then name.None?
    else
      var id := c.show(fields["category_id"]);
      if exists i :: 0 <= i < |cs| && IsCategory(c, cs[i], id)
      then exists i: nat :: LastCategory(c, cs, id, i) && HoldsText(cs[i].fields, "name", name)
      else name.None?
  }

  /** The first SKU of a product. */
  ghost predicate IsFirstSku(raw: Json, sku: map<string, Json>) {
    raw.Obj? && "skus" in raw.fields && raw.fields["skus"].Arr? && |raw.fields["skus"].items| > 0
    && raw.fields["skus"].items[0] == Obj(sku)
  }

  /** The entry is what the product says, given the payload's categories. */
  ghost predicate Describes(c: Coercions, cs: seq<Json>, raw: Json, sku: map<string, Json>, entry: Entry) {
    && IsFirstSku(raw, sku)
    && "id" in raw.fields && entry.item.ext == c.show(raw.fields["id"])
    && "name" in raw.fields && raw.fields["name"] == Str(entry.item.name)
    && HoldsText(raw.fields, "description", entry.item.description)
    && "price" in sku && IsNumber(c, sku["price"], entry.item.price)
    && HoldsTax(c, raw.fields, entry.item.tax)
    && HoldsFlag(c, sku, entry.item.active)
    && entry.item.image == None
    && HoldsCategory(c, cs, raw.fields, entry.category)
  }

  ghost predicate Described(c: Coercions, cs: seq<Json>, raw: Json, entry: Entry) {
    exists sku :: Describes(c, cs, raw, sku, entry)
  }

  // ---------------------------------------------------------------- field by field

  lemma FalsyIsNotTruthy(j: Json)
    ensures Falsy(j) <==> !Truthy(j)
  {
  }

  lemma FloatIsNumber(c: Coercions, j: Json, x: real)
    ensures Float(c, j) == Ok(x) <==> IsNumber(c, j, x)
  {
  }

  lemma TextHolds(fields: map<string, Json>, key: string, text: Option<string>)
    ensures Text(Get(Obj(fields), key)) == Ok(text) <==> HoldsText(fields, key, text)
  {
  }

  lemma TaxHolds(c: Coercions, fields: map<string, Json>, tax: Option<real>)
    ensures ResolveTaxRate(c, Get(Obj(fields), "tax_rate")) == Ok(tax) <==> HoldsTax(c, fields, tax)
  {
    var rate := Get(Obj(fields), "tax_rate");
    if rate.Obj? { ChannelPriority(c, rate); }
    if tax.Some? { FloatIsNumber(c, ChosenRate(rate), tax.value); }
  }

  lemma FlagHolds(c: Coercions, sku: map<string, Json>, active: bool)
    ensures (Enabled(Obj(sku)).Ok? && c.flag(Enabled(Obj(sku)).value) == Some(active)) <==> HoldsFlag(c, sku, active)
  {
    FalsyIsNotTruthy(Get(Obj(sku), "restrictions"));
  }

  /** Looking an id up in `categories_by_id` finds the last category with it. */
  lemma {:induction false} CategoryFound(c: Coercions, cs: seq<Json>, id: string)
    ensures id in CategoriesById(c, cs) <==> exists i :: 0 <= i < |cs| && IsCategory(c, cs[i], id)
    ensures id in CategoriesById(c, cs) ==>
              exists i: nat :: LastCategory(c, cs, id, i) && CategoriesById(c, cs)[id] == Get(cs[i], "name")
  {
    if cs != [] {
      var front, last := cs[..|cs| - 1], cs[|cs| - 1];
      CategoryFound(c, front, id);
      if IsCategory(c, last, id) {
        assert LastCategory(c, cs, id, |cs| - 1);
      } else {
        assert forall i :: 0 <= i < |front| ==> cs[i] == front[i];
        if id in CategoriesById(c, front) {
          var i: nat :| LastCategory(c, front, id, i) && CategoriesById(c, front)[id] == Get(front[i], "name");
          assert LastCategory(c, cs, id, i);
        } else {
          assert forall i :: 0 <= i < |cs| ==> i == |front| || cs[i] == front[i];
        }
      }
    }
  }

  lemma LastCategoryOnce(c: Coercions, cs: seq<Json>, id: string, i: nat, j: nat)
    requires LastCategory(c, cs, id, i) && LastCategory(c, cs, id, j)
    ensures i == j
  {
  }

  lemma CategoryHolds(c: Coercions, cs: seq<Json>, fields: map<string, Json>, name: Option<string>)
    ensures Category(c, CategoriesById(c, cs), Obj(fields)) == Ok(name) <==> HoldsCategory(c, cs, fields, name)
  {
    FalsyIsNotTruthy(Get(Obj(fields), "category_id"));
    if "category_id" in fields && !Falsy(fields["category_id"]) {
      var id := c.show(fields["category_id"]);
      CategoryFound(c, cs, id);
      if id in CategoriesById(c, cs) {
        var i: nat :| LastCategory(c, cs, id, i) && CategoriesById(c, cs)[id] == Get(cs[i], "name");
        TextHolds(cs[i].fields, "name", name);
        forall j: nat | LastCategory(c, cs, id, j) ensures j == i { LastCategoryOnce(c, cs, id, i, j); }
      }
    }
  }

  // ---------------------------------------------------------------- results

  /** A product is passed over exactly when it is an object without SKUs. */
  lemma PassedOverIff(c: Coercions, cats: Categories, raw: Json)
    ensures MapProduct(c, cats, raw) == Ok(None) <==> raw.Obj? && !HasSkus(raw)
  {
    if raw.Obj? { FalsyIsNotTruthy(Get(raw, "skus")); }
  }

  /** What is computed from an SKU that is an object. */
  lemma ArgumentsHold(c: Coercions, raw: Json, sku: map<string, Json>, price: real, tax: Option<real>, active: bool)
    requires raw.Obj?
    ensures (&& ComputeArguments(c, raw, Obj(sku)).Ok?
             && var a := ComputeArguments(c, raw, Obj(sku)).value;
             a.price == price && a.tax == tax && c.flag(a.enabled) == Some(active)) <==>
            (&& "id" in raw.fields && "name" in raw.fields && "price" in sku && IsNumber(c, sku["price"], price)
             && HoldsTax(c, raw.fields, tax) && HoldsFlag(c, sku, active))
  {
    if "price" in sku { FloatIsNumber(c, sku["price"], price); }
    TaxHolds(c, raw.fields, tax);
    FlagHolds(c, sku, active);
    assert Obj(raw.fields) == raw;
  }

  /** What maps a product with this first SKU. */
  lemma MappedFromSku(c: Coercions, cs: seq<Json>, raw: Json, sku: map<string, Json>, entry: Entry)
    requires IsFirstSku(raw, sku)
    ensures MapProduct(c, CategoriesById(c, cs), raw) == Ok(Some(entry)) <==> Describes(c, cs, raw, sku, entry)
  {
    assert Truthy(raw.fields["skus"]) && First(Get(raw, "skus")) == Ok(Obj(sku));
    assert Obj(raw.fields) == raw;
    var it := entry.item;
    ArgumentsHold(c, raw, sku, it.price, it.tax, it.active);
    TextHolds(raw.fields, "description", it.description);
    CategoryHolds(c, cs, raw.fields, entry.category);
  }

  /** A product that maps to an entry has an object for its first SKU. */
  lemma MappedHasSku(c: Coercions, cats: Categories, raw: Json) returns (sku: map<string, Json>)
    requires MapProduct(c, cats, raw).Ok? && MapProduct(c, cats, raw).value.Some?
    ensures IsFirstSku(raw, sku)
  {
    var skus := Get(raw, "skus");
    assert skus.Arr? && skus.items[0].Obj?;
    sku := skus.items[0].fields;
  }

  /** A product maps to an entry if and only if the entry is what the product says. */
  lemma MappedIffDescribed(c: Coercions, cs: seq<Json>, raw: Json, entry: Entry)
    ensures MapProduct(c, CategoriesById(c, cs), raw) == Ok(Some(entry)) <==>
              Described(c, cs, raw, entry)
  {
    if MapProduct(c, CategoriesById(c, cs), raw) == Ok(Some(entry)) {
      var sku := MappedHasSku(c, CategoriesById(c, cs), raw);
      MappedFromSku(c, cs, raw, sku, entry);
    } else if sku :| Describes(c, cs, raw, sku, entry) {
      MappedFromSku(c, cs, raw, sku, entry);
    }
  }

  /** The positions of the products with SKUs, in order. */
  ghost predicate PricedAt(products: seq<Json>, idx: seq<nat>) {
    && (forall k, l :: 0 <= k < l < |idx| ==> idx[k] < idx[l])
    && (forall k :: 0 <= k < |idx| ==> idx[k] < |products|)
    && (forall i :: 0 <= i < |products| ==> (i in idx <==> HasSkus(products[i])))
  }

  lemma PricedAtNext(products: seq<Json>, n: nat, before: seq<nat>)
    requires n + 1 == |products| && PricedAt(products[..n], before)
    ensures PricedAt(products, if HasSkus(products[n]) then before + [n] else before)
  {
    var idx := if HasSkus(products[n]) then before + [n] else before;
    assert n !in before;
    forall i | 0 <= i < |products| ensures i in idx <==> HasSkus(products[i]) {
      if i < n { assert products[..n][i] == products[i]; }
    }
  }

  lemma PricedNextIs(products: seq<Json>, n: nat)
    requires n + 1 == |products|
    ensures PricedProducts(products) ==
              PricedProducts(products[..n]) + if HasSkus(products[n]) then [products[n]] else []
  {
    if products[n].Obj? { FalsyIsNotTruthy(Get(products[n], "skus")); }
  }

  lemma {:induction false} PricedPositions(products: seq<Json>) returns (idx: seq<nat>)
    ensures PricedAt(products, idx) && |PricedProducts(products)| == |idx|
    ensures forall k :: 0 <= k < |idx| ==> PricedProducts(products)[k] == products[idx[k]]
  {
    if products == [] {
      idx := [];
    } else {
      var n: nat := |products| - 1;
      var before := PricedPositions(products[..n]);
      PricedAtNext(products, n, before);
      PricedNextIs(products, n);
      idx := if HasSkus(products[n]) then before + [n] else before;
    }
  }

  /** The whole catalogue: one entry for each product with SKUs, in order, and each entry is what its
      product says. */
  lemma EntriesDescribeProducts(c: Coercions, payload: Json, entries: seq<Entry>)
    returns (cs: seq<Json>, products: seq<Json>, idx: seq<nat>)
    requires NormalizesTo(c, payload, Ok(entries))
    ensures payload.Obj? && "data" in payload.fields && payload.fields["data"].Obj?
    ensures var data := payload.fields["data"].fields;
            "products" in data && data["products"] == Arr(products) && CategoryList(payload.fields["data"]) == Some(cs)
    ensures var data := payload.fields["data"].fields;
            cs == if "categories" in data && data["categories"].Arr? then data["categories"].items else []
    ensures PricedAt(products, idx) && |entries| == |idx|
    ensures forall k :: 0 <= k < |idx| ==> Described(c, cs, products[idx[k]], entries[k])
  {
    var data := Get(payload, "data");
    cs, products := CategoryList(data).value, Get(data, "products").items;
    idx := PricedPositions(products);
    assert Normalized(c, CategoriesById(c, cs), products, entries);
    AllDescribed(c, cs, products, entries, idx);
  }

  lemma AllDescribed(c: Coercions, cs: seq<Json>, products: seq<Json>, entries: seq<Entry>, idx: seq<nat>)
    requires Normalized(c, CategoriesById(c, cs), products, entries) && |PricedProducts(products)| == |idx|
    requires forall k :: 0 <= k < |idx| ==> idx[k] < |products| && PricedProducts(products)[k] == products[idx[k]]
    ensures |entries| == |idx|
    ensures forall k :: 0 <= k < |idx| ==> Described(c, cs, products[idx[k]], entries[k])
  {
    forall k | 0 <= k < |idx| ensures Described(c, cs, products[idx[k]], entries[k]) {
      MappedIffDescribed(c, cs, PricedProducts(products)[k], entries[k]);
    }
  }

  /** A payload normalises if and only if every one of its products either has no SKUs or says what
      an entry needs. */
  lemma NormalizesIff(c: Coercions, payload: Json, r: Result<seq<Entry>, Failure>, cs: seq<Json>, products: seq<Json>)
    requires NormalizesTo(c, payload, r) && payload.Obj? && Shaped(payload)
    requires CategoryList(Get(payload, "data")) == Some(cs) && Get(Get(payload, "data"), "products") == Arr(products)
    ensures r.Ok? <==>
              forall i :: 0 <= i < |products| ==>
                (products[i].Obj? && !HasSkus(products[i])) || exists entry :: Described(c, cs, products[i], entry)
  {
    var cats := CategoriesById(c, cs);
    forall i | 0 <= i < |products|
      ensures MapProduct(c, cats, products[i]).Ok? <==>
                (products[i].Obj? && !HasSkus(products[i])) || exists entry :: Described(c, cs, products[i], entry)
    {
      MapsIff(c, cs, products[i]);
    }
    if r.Err? {
      var i: nat :| FirstBad(c, cats, products, i) && r.error == Translate(MapProduct(c, cats, products[i]).error, i);
      assert MapProduct(c, cats, products[i]).Err?;
    }
  }

  lemma MapsIff(c: Coercions, cs: seq<Json>, raw: Json)
    ensures MapProduct(c, CategoriesById(c, cs), raw).Ok? <==>
              (raw.Obj? && !HasSkus(raw)) || exists entry :: Described(c, cs, raw, entry)
  {
    var cats := CategoriesById(c, cs);
    PassedOverIff(c, cats, raw);
    if MapProduct(c, cats, raw).Ok? && MapProduct(c, cats, raw).value.Some? {
      MappedIffDescribed(c, cs, raw, MapProduct(c, cats, raw).value.value);
    }
    if entry :| Described(c, cs, raw, entry) {
      MappedIffDescribed(c, cs, raw, entry);
    }
  }
}
