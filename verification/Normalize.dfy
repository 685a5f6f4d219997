/** From the hub's payload to catalogue entries (app/modules/catalog/normalize.py). */
module Normalize {

  import opened Common
  import CatalogSync

  /** A parsed payload; Python keeps integers, which are unbounded, apart from floats. */
  datatype Json =
    | Null | Bool(b: bool) | Int(i: int) | Num(n: real) | Str(s: string)
    | Arr(items: seq<Json>) | Obj(fields: map<string, Json>)

  /** What Python raises on the way. */
  datatype Raised = KeyError | TypeError | ValueError | AttributeError | OverflowError

  /** How `normalize_catalog` fails: with its own error, for the payload or for the product at an
      index, or with an error of Python that it lets through. */
  datatype Failure = MalformedPayload | MalformedProduct(index: nat) | Escaped(error: Raised)

  /** `str(x)`, `float(s)` of a string, the integers within the range of floats, and the schema's
      reading of a flag. */
  datatype Coercions = Coercions(
    show: Json -> string, number: string -> Option<real>, fits: int -> bool, flag: Json -> Option<bool>)

  /** A `NormalizedCatalogProduct`. */
  datatype Entry = Entry(item: CatalogSync.Item, category: Option<string>)

  predicate Truthy(j: Json) {
    match j
    case Null => false
    case Bool(b) => b
    case Int(i) => i != 0
    case Num(n) => n != 0.0
    case Str(s) => s != []
    case Arr(items) => items != []
    case Obj(fields) => fields != map[]
  }

  /** `j.get(key)` on an object */
  function Get(j: Json, key: string): Json
    requires j.Obj?
  {
    if key in j.fields then j.fields[key] else Null
  }

  /** `j[key]` */
  function Index(j: Json, key: string): Result<Json, Raised> {
    if !j.Obj? then Err(TypeError) else if key in j.fields then Ok(j.fields[key]) else Err(KeyError)
  }

  /** `j[0]` of something truthy */
  function First(j: Json): Result<Json, Raised>
    requires Truthy(j)
  {
    match j
    case Arr(items) => Ok(items[0])
    case Str(s) => Ok(Str([s[0]]))
    case Obj(_) => Err(KeyError)
    case _ => Err(TypeError)
  }

  function Float(c: Coercions, j: Json): Result<real, Raised> {
    match j
    case Int(i) => if c.fits(i) then Ok(i as real) else Err(OverflowError)
    case Num(n) => Ok(n)
    case Bool(b) => Ok(if b then 1.0 else 0.0)
    case Str(s) => (match c.number(s) case Some(n) => Ok(n) case None => Err(ValueError))
    case _ => Err(TypeError)
  }

  // ---------------------------------------------------------------- tax rate

  /** The channels tried in turn. */
  function FirstChannel(c: Coercions, rates: Json, channels: seq<string>): Result<Option<real>, Raised>
    requires rates.Obj?
  {
    if channels == [] then Ok(None)
    else Chosen(c, Get(rates, channels[0]), FirstChannel(c, rates, channels[1..]))
  }

  function Chosen(c: Coercions, rate: Json, otherwise: Result<Option<real>, Raised>): Result<Option<real>, Raised> {
    if rate == Null then otherwise
    else match Float(c, rate) case Ok(n) => Ok(Some(n)) case Err(e) => Err(e)
  }

  const CHANNELS: seq<string> := ["eat_in", "delivery", "collection"]

  /** `_resolve_tax_rate` */
  function ResolveTaxRate(c: Coercions, rate: Json): Result<Option<real>, Raised> {
    match rate
    case Obj(_) => FirstChannel(c, rate, CHANNELS)
    case Str(_) => Err(TypeError)
    case Arr(_) => Err(TypeError)
    case _ => Chosen(c, rate, Ok(None))
  }

  /** The rate eaten in counts first, then delivery, then collection; a channel that is absent or
      null is passed over, and one that counts hides those after it. */
  lemma ChannelPriority(c: Coercions, rate: Json)
    requires rate.Obj?
    ensures var eatIn, delivery, collection := Get(rate, "eat_in"), Get(rate, "delivery"), Get(rate, "collection");
            var chosen := if eatIn != Null then eatIn else if delivery != Null then delivery else collection;
            && (ResolveTaxRate(c, rate) == Ok(None) <==> chosen == Null)
            && (chosen != Null ==> ResolveTaxRate(c, rate) == Chosen(c, chosen, Ok(None)))
  {
    var second, third := CHANNELS[1..], CHANNELS[2..];
    assert second[1..] == third && third[1..] == [];
    assert CHANNELS[0] == "eat_in" && second[0] == "delivery" && third[0] == "collection";
    assert FirstChannel(c, rate, third) == Chosen(c, Get(rate, "collection"), FirstChannel(c, rate, []));
    assert FirstChannel(c, rate, second) == Chosen(c, Get(rate, "delivery"), FirstChannel(c, rate, third));
    assert FirstChannel(c, rate, CHANNELS) == Chosen(c, Get(rate, "eat_in"), FirstChannel(c, rate, second));
  }

  // ---------------------------------------------------------------- one product

  type Categories = map<string, Json>

  /** `categories_by_id`; a later category of the same id wins. */
  function CategoriesById(c: Coercions, cs: seq<Json>): Categories {
    if cs == [] then map[]
    else
      var before, last := CategoriesById(c, cs[..|cs| - 1]), cs[|cs| - 1];
      if last.Obj? && "id" in last.fields then before[c.show(last.fields["id"]) := Get(last, "name")] else before
  }

  predicate Priced(raw: Json)
    requires raw.Obj?
  {
    Truthy(Get(raw, "skus"))
  }

  /** The constructor's arguments that Python computes before the schema sees them. */
  datatype Arguments = Arguments(price: real, tax: Option<real>, enabled: Json)

  /** `(first_sku.get("restrictions") or {}).get("enabled", True)` */
  function Enabled(sku: Json): Result<Json, Raised>
    requires sku.Obj?
  {
    var limits := Get(sku, "restrictions");
    if !Truthy(limits) then Ok(Bool(true))
    else if !limits.Obj? then Err(AttributeError)
    else if "enabled" in limits.fields then Ok(limits.fields["enabled"])
    else Ok(Bool(true))
  }

  function ComputeArguments(c: Coercions, raw: Json, sku: Json): Result<Arguments, Raised>
    requires raw.Obj?
  {
    if "id" !in raw.fields || "name" !in raw.fields then Err(KeyError)
    else
      match Index(sku, "price")
      case Err(e) => Err(e)
      case Ok(price) =>
        match (Float(c, price), ResolveTaxRate(c, Get(raw, "tax_rate")))
        case (Err(e), _) => Err(e)
        case (_, Err(e)) => Err(e)
        case (Ok(p), Ok(t)) => (match Enabled(sku) case Err(e) => Err(e) case Ok(on) => Ok(Arguments(p, t, on)))
  }

  /** A field that holds a string or null. */
  function Text(j: Json): Result<Option<string>, Raised> {
    match j
    case Null => Ok(None)
    case Str(s) => Ok(Some(s))
    case _ => Err(ValueError)
  }

  function Category(c: Coercions, cats: Categories, raw: Json): Result<Option<string>, Raised>
    requires raw.Obj?
  {
    var id := Get(raw, "category_id");
    if Truthy(id) && c.show(id) in cats then Text(cats[c.show(id)]) else Ok(None)
  }

  /** The schema's own validation. */
  function Validate(c: Coercions, cats: Categories, raw: Json, a: Arguments): Result<Entry, Raised>
    requires raw.Obj? && "id" in raw.fields && "name" in raw.fields
  {
    var description, category := Text(Get(raw, "description")), Category(c, cats, raw);
    if !raw.fields["name"].Str? || description.Err? || category.Err? || c.flag(a.enabled).None? then Err(ValueError)
    else
      Ok(Entry(
           CatalogSync.Item(c.show(raw.fields["id"]), raw.fields["name"].s, description.value, a.price, a.tax, None,
                            c.flag(a.enabled).value),
           category.value))
  }

  /** One turn of the loop: nothing for a product without SKUs, else its entry. */
  function MapProduct(c: Coercions, cats: Categories, raw: Json): Result<Option<Entry>, Raised> {
    if !raw.Obj? then Err(AttributeError)
    else if !Priced(raw) then Ok(None)
    else
      match First(Get(raw, "skus"))
      case Err(e) => Err(e)
      case Ok(sku) =>
        match ComputeArguments(c, raw, sku)
        case Err(e) => Err(e)
        case Ok(a) => (match Validate(c, cats, raw, a) case Err(e) => Err(e) case Ok(entry) => Ok(Some(entry)))
  }

  // ---------------------------------------------------------------- the loop

  ghost predicate AllMapped(c: Coercions, cats: Categories, products: seq<Json>) {
    forall i :: 0 <= i < |products| ==> MapProduct(c, cats, products[i]).Ok?
  }

  /** The products that have a SKU, in order. */
  function PricedProducts(products: seq<Json>): seq<Json> {
    if products == [] then []
    else
      var last := products[|products| - 1];
      PricedProducts(products[..|products| - 1]) + if last.Obj? && Priced(last) then [last] else []
  }

  /** `entries` are those of the products with a SKU, one for one. */
  ghost predicate Normalized(c: Coercions, cats: Categories, products: seq<Json>, entries: seq<Entry>) {
    var priced := PricedProducts(products);
    && |entries| == |priced|
    && forall k :: 0 <= k < |priced| ==> MapProduct(c, cats, priced[k]) == Ok(Some(entries[k]))
  }

  /** The index of the first product that cannot be mapped. */
  ghost predicate FirstBad(c: Coercions, cats: Categories, products: seq<Json>, i: nat) {
    i < |products| && AllMapped(c, cats, products[..i]) && MapProduct(c, cats, products[i]).Err?
  }

  /** The `except` clause turns three kinds of error into its own, and lets the other two through. */
  function Translate(e: Raised, index: nat): Failure {
    if e in {KeyError, TypeError, ValueError} then MalformedProduct(index) else Escaped(e)
  }

  lemma PricedNext(c: Coercions, cats: Categories, products: seq<Json>, i: nat, more: Option<Entry>)
    requires i < |products| && MapProduct(c, cats, products[i]) == Ok(more)
    ensures PricedProducts(products[..i + 1]) ==
              PricedProducts(products[..i]) + if more.Some? then [products[i]] else []
  {
    assert products[..i + 1][..i] == products[..i];
  }

  lemma AllMappedNext(c: Coercions, cats: Categories, products: seq<Json>, i: nat)
    requires i < |products| && AllMapped(c, cats, products[..i]) && MapProduct(c, cats, products[i]).Ok?
    ensures AllMapped(c, cats, products[..i + 1])
  {
  }

  lemma NormalizedNext(c: Coercions, cats: Categories, products: seq<Json>, i: nat, entries: seq<Entry>,
                       more: Option<Entry>)
    requires i < |products| && Normalized(c, cats, products[..i], entries)
    requires MapProduct(c, cats, products[i]) == Ok(more)
    ensures Normalized(c, cats, products[..i + 1], if more.Some? then entries + [more.value] else entries)
  {
    PricedNext(c, cats, products, i, more);
  }

  /** All products map, and the entries are theirs; or the first bad one decides the error. */
  ghost predicate MappedTo(c: Coercions, cats: Categories, products: seq<Json>, r: Result<seq<Entry>, Failure>) {
    match r
    case Ok(entries) => AllMapped(c, cats, products) && Normalized(c, cats, products, entries)
    case Err(e) =>
      exists i: nat :: FirstBad(c, cats, products, i) && e == Translate(MapProduct(c, cats, products[i]).error, i)
  }

  /** The loop over the products. */
  method MapProducts(c: Coercions, cats: Categories, products: seq<Json>) returns (r: Result<seq<Entry>, Failure>)
    ensures MappedTo(c, cats, products, r)
  {
    var entries: seq<Entry> := [];
    for i := 0 to |products|
      invariant AllMapped(c, cats, products[..i]) && Normalized(c, cats, products[..i], entries)
    {
      var mapped := MapProduct(c, cats, products[i]);
      if mapped.Err? {
        assert FirstBad(c, cats, products, i);
        return Err(Translate(mapped.error, i));
      }
      AllMappedNext(c, cats, products, i);
      NormalizedNext(c, cats, products, i, entries, mapped.value);
      if mapped.value.Some? { entries := entries + [mapped.value.value]; }
    }
    assert products[..|products|] == products;
    r := Ok(entries);
  }

  /** What iterating over `data.get("categories", [])` yields; a string or an object yields
      strings, none of which is an object, and a number or null cannot be iterated over. */
  function CategoryList(data: Json): Option<seq<Json>>
    requires data.Obj?
  {
    if "categories" !in data.fields then Some([])
    else
      match data.fields["categories"]
      case Arr(items) => Some(items)
      case Str(_) => Some([])
      case Obj(_) => Some([])
      case _ => None
  }

  /** `data` and `data.products` have the shapes asked for. */
  predicate Shaped(payload: Json)
    requires payload.Obj?
  {
    var data := Get(payload, "data");
    data.Obj? && Get(data, "products").Arr?
  }

  /** What a payload normalises to: an error of its outer shape, or what its products map to. */
  ghost predicate NormalizesTo(c: Coercions, payload: Json, r: Result<seq<Entry>, Failure>) {
    if !payload.Obj? then r == Err(Escaped(AttributeError))
    else if !Shaped(payload) then r == Err(MalformedPayload)
    else
      var data := Get(payload, "data");
      match CategoryList(data)
      case None => r == Err(Escaped(TypeError))
      case Some(list) => MappedTo(c, CategoriesById(c, list), Get(data, "products").items, r)
  }

  lemma MappedToOne(c: Coercions, cats: Categories, products: seq<Json>, q: Result<seq<Entry>, Failure>,
                    r: Result<seq<Entry>, Failure>)
    requires MappedTo(c, cats, products, q) && MappedTo(c, cats, products, r)
    ensures q == r
  {
    if q.Err? && r.Err? {
      var i: nat :| FirstBad(c, cats, products, i) && q.error == Translate(MapProduct(c, cats, products[i]).error, i);
      var j: nat :| FirstBad(c, cats, products, j) && r.error == Translate(MapProduct(c, cats, products[j]).error, j);
      FirstBadOnce(c, cats, products, i, j);
    } else if q.Ok? && r.Ok? {
      forall k | 0 <= k < |q.value| ensures q.value[k] == r.value[k] {
        assert MapProduct(c, cats, PricedProducts(products)[k]) == Ok(Some(q.value[k]));
      }
      assert q.value == r.value;
    }
  }

  lemma MapsBefore(c: Coercions, cats: Categories, products: seq<Json>, i: nat, j: nat)
    requires i < j && FirstBad(c, cats, products, j)
    ensures MapProduct(c, cats, products[i]).Ok?
  {
    assert products[..j][i] == products[i];
  }

  lemma FirstBadOnce(c: Coercions, cats: Categories, products: seq<Json>, i: nat, j: nat)
    requires FirstBad(c, cats, products, i) && FirstBad(c, cats, products, j)
    ensures i == j
  {
    if i < j { MapsBefore(c, cats, products, i, j); }
    if j < i { MapsBefore(c, cats, products, j, i); }
  }

  /** ... which is one thing only. */
  lemma NormalizesToOne(c: Coercions, payload: Json, q: Result<seq<Entry>, Failure>, r: Result<seq<Entry>, Failure>)
    requires NormalizesTo(c, payload, q) && NormalizesTo(c, payload, r)
    ensures q == r
  {
    if payload.Obj? && Shaped(payload) && CategoryList(Get(payload, "data")).Some? {
      var list := CategoryList(Get(payload, "data")).value;
      MappedToOne(c, CategoriesById(c, list), Get(Get(payload, "data"), "products").items, q, r);
    }
  }

  /** `normalize_catalog` */
  method NormalizeCatalog(c: Coercions, payload: Json) returns (r: Result<seq<Entry>, Failure>)
    ensures NormalizesTo(c, payload, r)
  {
    if !payload.Obj? { return Err(Escaped(AttributeError)); }
    var data := Get(payload, "data");
    if !data.Obj? { return Err(MalformedPayload); }
    var products := Get(data, "products");
    if !products.Arr? { return Err(MalformedPayload); }
    var categories := CategoryList(data);
    if categories.None? { return Err(Escaped(TypeError)); }
    r := MapProducts(c, CategoriesById(c, categories.value), products.items);
  }

  // ---------------------------------------------------------------- which errors get through

  /** A SKU whose `restrictions` is neither falsy nor an object. */
  predicate OddRestrictions(sku: Json) {
    sku.Obj? && Truthy(Get(sku, "restrictions")) && !Get(sku, "restrictions").Obj?
  }

  /** Everything Python evaluates before `restrictions` is in order. */
  predicate EvaluatesUpToRestrictions(c: Coercions, raw: Json, sku: Json)
    requires raw.Obj?
  {
    && HasFields(raw, sku) && Float(c, sku.fields["price"]).Ok?
    && ResolveTaxRate(c, Get(raw, "tax_rate")).Ok?
  }

  /** An integer beyond the range of floats. */
  predicate TooBig(c: Coercions, j: Json) {
    j.Int? && !c.fits(j.i)
  }

  /** The value `_resolve_tax_rate` converts. */
  function ChosenRate(rate: Json): Json {
    if !rate.Obj? then rate
    else if Get(rate, "eat_in") != Null then Get(rate, "eat_in")
    else if Get(rate, "delivery") != Null then Get(rate, "delivery")
    else Get(rate, "collection")
  }

  lemma TaxErrors(c: Coercions, rate: Json)
    ensures ResolveTaxRate(c, rate) == Err(OverflowError) <==> TooBig(c, ChosenRate(rate))
    ensures ResolveTaxRate(c, rate) != Err(AttributeError)
  {
    if rate.Obj? { ChannelPriority(c, rate); }
  }

  /** The price of the SKU is there, and the product's id and name are. */
  predicate HasFields(raw: Json, sku: Json)
    requires raw.Obj?
  {
    "id" in raw.fields && "name" in raw.fields && sku.Obj? && "price" in sku.fields
  }

  /** Not an object, or its first SKU's restrictions are not one and nothing before them failed. */
  predicate RaisesAttributeError(c: Coercions, raw: Json) {
    || !raw.Obj?
    || (&& Priced(raw) && First(Get(raw, "skus")).Ok?
        && EvaluatesUpToRestrictions(c, raw, First(Get(raw, "skus")).value)
        && OddRestrictions(First(Get(raw, "skus")).value))
  }

  /** The price is an integer too big for a float, or it is converted and the tax rate is one. */
  predicate RaisesOverflowError(c: Coercions, raw: Json) {
    && raw.Obj? && Priced(raw) && First(Get(raw, "skus")).Ok?
    && var sku := First(Get(raw, "skus")).value;
    && HasFields(raw, sku)
    && (|| TooBig(c, sku.fields["price"])
        || (Float(c, sku.fields["price"]).Ok? && TooBig(c, ChosenRate(Get(raw, "tax_rate")))))
  }

  /** The two errors that a product lets through, and exactly when. */
  lemma ProductEscapesIff(c: Coercions, cats: Categories, raw: Json)
    ensures MapProduct(c, cats, raw) == Err(AttributeError) <==> RaisesAttributeError(c, raw)
    ensures MapProduct(c, cats, raw) == Err(OverflowError) <==> RaisesOverflowError(c, raw)
  {
    if raw.Obj? {
      TaxErrors(c, Get(raw, "tax_rate"));
    }
  }

  /** The products of a payload are reached, under these categories. */
  ghost predicate Reaches(c: Coercions, payload: Json, cats: Categories, products: seq<Json>) {
    && payload.Obj? && Shaped(payload) && products == Get(Get(payload, "data"), "products").items
    && CategoryList(Get(payload, "data")).Some?
    && cats == CategoriesById(c, CategoryList(Get(payload, "data")).value)
  }

  /** The first product that cannot be mapped raises an AttributeError. */
  ghost predicate FirstBadAttribute(c: Coercions, payload: Json) {
    exists cats, products, i: nat ::
      Reaches(c, payload, cats, products) && FirstBad(c, cats, products, i) && RaisesAttributeError(c, products[i])
  }

  ghost predicate FirstBadOverflow(c: Coercions, payload: Json) {
    exists cats, products, i: nat ::
      Reaches(c, payload, cats, products) && FirstBad(c, cats, products, i) && RaisesOverflowError(c, products[i])
  }

  /** The categories cannot be iterated over. */
  predicate BadCategories(payload: Json) {
    payload.Obj? && Shaped(payload) && CategoryList(Get(payload, "data")).None?
  }

  /** Where the products are reached, what gets through is what the first bad product raises. */
  lemma ReachedEscapesIff(c: Coercions, payload: Json, r: Result<seq<Entry>, Failure>, cats: Categories,
                          products: seq<Json>)
    requires NormalizesTo(c, payload, r) && Reaches(c, payload, cats, products)
    ensures r == Err(Escaped(AttributeError)) <==> FirstBadAttribute(c, payload)
    ensures r == Err(Escaped(OverflowError)) <==> FirstBadOverflow(c, payload)
    ensures r.Err? && r.error.Escaped? ==> r.error.error == AttributeError || r.error.error == OverflowError
  {
    assert MappedTo(c, cats, products, r);
    forall i: nat | FirstBad(c, cats, products, i)
      ensures r == Err(Translate(MapProduct(c, cats, products[i]).error, i))
      ensures MapProduct(c, cats, products[i]) == Err(AttributeError) <==> RaisesAttributeError(c, products[i])
      ensures MapProduct(c, cats, products[i]) == Err(OverflowError) <==> RaisesOverflowError(c, products[i])
    {
      MappedToOne(c, cats, products, r, Err(Translate(MapProduct(c, cats, products[i]).error, i)));
      ProductEscapesIff(c, cats, products[i]);
    }
  }

  /** The documented error is not always the one raised.  An error of Python gets through exactly
      when the payload is no object or its first bad product raises an AttributeError, when its
      categories cannot be iterated over, or when its first bad product raises an OverflowError. */
  lemma PayloadEscapesIff(c: Coercions, payload: Json, r: Result<seq<Entry>, Failure>)
    requires NormalizesTo(c, payload, r)
    ensures r == Err(Escaped(AttributeError)) <==> !payload.Obj? || FirstBadAttribute(c, payload)
    ensures r == Err(Escaped(TypeError)) <==> BadCategories(payload)
    ensures r == Err(Escaped(OverflowError)) <==> FirstBadOverflow(c, payload)
    ensures r.Err? && r.error.Escaped? <==>
              !payload.Obj? || BadCategories(payload) || FirstBadAttribute(c, payload) || FirstBadOverflow(c, payload)
  {
    if payload.Obj? && Shaped(payload) && CategoryList(Get(payload, "data")).Some? {
      var data := Get(payload, "data");
      ReachedEscapesIff(c, payload, r, CategoriesById(c, CategoryList(data).value), Get(data, "products").items);
    }
  }

  // ---------------------------------------------------------------- such payloads

  /** A payload that holds these products and no categories. */
  function PayloadOf(products: seq<Json>): Json {
    Obj(map["data" := Obj(map["products" := Arr(products)])])
  }

  lemma PayloadReaches(c: Coercions, products: seq<Json>)
    ensures Reaches(c, PayloadOf(products), CategoriesById(c, []), products)
  {
    var data := Obj(map["products" := Arr(products)]);
    assert Get(PayloadOf(products), "data") == data && Get(data, "products") == Arr(products);
    assert CategoryList(data) == Some([]) by { assert "categories"[0] != "products"[0]; }
  }

  /** A null among the products. */
  lemma NullProductEscapes(c: Coercions)
    ensures NormalizesTo(c, PayloadOf([Null]), Err(Escaped(AttributeError)))
  {
    var products := [Null];
    PayloadReaches(c, products);
    assert products[..0] == [];
    assert FirstBad(c, CategoriesById(c, []), products, 0);
  }

  /** A price of four hundred digits, say: any integer that no float can hold. */
  lemma BigPriceEscapes(c: Coercions, n: int)
    requires !c.fits(n)
    ensures var sku := Obj(map["price" := Int(n)]);
            var raw := Obj(map["id" := Str("1"), "name" := Str("Tea"), "skus" := Arr([sku])]);
            NormalizesTo(c, PayloadOf([raw]), Err(Escaped(OverflowError)))
  {
    var sku := Obj(map["price" := Int(n)]);
    var raw := Obj(map["id" := Str("1"), "name" := Str("Tea"), "skus" := Arr([sku])]);
    var cats, products := CategoriesById(c, []), [raw];
    assert raw.fields["skus"] == Arr([sku]) && "id" in raw.fields && "name" in raw.fields;
    assert Priced(raw) && First(Get(raw, "skus")) == Ok(sku);
    ProductEscapesIff(c, cats, raw);
    PayloadReaches(c, products);
    assert products[..0] == [];
    assert FirstBad(c, cats, products, 0);
  }

  /** `"categories": null`, even without any product. */
  lemma NullCategoriesEscape(c: Coercions)
    ensures var payload := Obj(map["data" := Obj(map["products" := Arr([]), "categories" := Null])]);
            NormalizesTo(c, payload, Err(Escaped(TypeError)))
  {
    var data := Obj(map["products" := Arr([]), "categories" := Null]);
    assert "categories"[0] != "products"[0];
    assert Get(data, "products") == Arr([]) && CategoryList(data) == None;
  }
}
