/** Tenant slugs and the schema names built from them (app/core/database/session.py,
    tools/audit_tenant_schemas.py). */
module Slugs {

  import opened Common

  const PREFIX := "tenant_"
  const MAX_IDENTIFIER: nat := 63
  const MAX_NEW_SLUG: nat := MAX_IDENTIFIER - |PREFIX|

  predicate Alnum(c: char) {
    'a' <= c <= 'z' || '0' <= c <= '9'
  }

  predicate Inner(c: char) {
    Alnum(c) || c == '_' || c == '-'
  }

  /** Full match of `[a-z0-9][a-z0-9_-]{0,max-2}[a-z0-9]|[a-z0-9]`. */
  predicate SlugUpTo(s: string, max: nat) {
    && 1 <= |s| && (|s| == 1 || |s| <= max)
    && Alnum(s[0]) && Alnum(s[|s| - 1])
    && forall i :: 0 <= i < |s| ==> Inner(s[i])
  }

  /** `TENANT_SLUG_RE`: slugs for which an existing tenant may be looked up. */
  predicate LookupSlug(s: string) {
    SlugUpTo(s, 64)
  }

  /** `NEW_TENANT_SLUG_RE`: slugs under which a tenant may be created. */
  predicate CreationSlug(s: string) {
    SlugUpTo(s, MAX_NEW_SLUG)
  }

  datatype SlugError = InvalidSlug

  /** `tenant_schema_name` */
  function TenantSchemaName(slug: string): Result<string, SlugError> {
    if LookupSlug(slug) then Ok(PREFIX + slug) else Err(InvalidSlug)
  }

  /** The path `get_tenant_session` deposits in `session.info`: the quoted schema. */
  function TenantPath(slug: string): Result<string, SlugError> {
    match TenantSchemaName(slug)
    case Err(e) => Err(e)
    case Ok(schema) => Ok("\"" + schema + "\"")
  }

  // ---------------------------------------------------------------- 63-byte truncation

  /** Number of bytes of a character in UTF-8. */
  function Width(c: char): (w: nat)
    ensures 1 <= w <= 4
  {
    if c as int < 0x80 then 1 else if c as int < 0x800 then 2 else if c as int < 0x10000 then 3 else 4
  }

  function ByteLength(s: string): nat {
    if s == "" then 0 else Width(s[0]) + ByteLength(s[1..])
  }

  /** Encode to UTF-8, keep the first `budget` bytes, decode with errors="replace": a character
      cut in two becomes one replacement character. */
  function ClipUtf8(s: string, budget: nat): string {
    if s == "" || budget == 0 then ""
    else if Width(s[0]) <= budget then [s[0]] + ClipUtf8(s[1..], budget - Width(s[0]))
    else "\U{FFFD}"
  }

  /** `TenantRow.expected_physical_schema` */
  function ExpectedPhysicalSchema(slug: string): string {
    ClipUtf8(PREFIX + slug, MAX_IDENTIFIER)
  }

  predicate Ascii(s: string) {
    forall i :: 0 <= i < |s| ==> s[i] as int < 0x80
  }

  lemma {:induction false} ClipKeepsShort(s: string, budget: nat)
    requires ByteLength(s) <= budget
    ensures ClipUtf8(s, budget) == s
  {
    if s != "" {
      ClipKeepsShort(s[1..], budget - Width(s[0]));
    }
  }

  lemma {:induction false} ClipAscii(s: string, budget: nat)
    requires Ascii(s)
    ensures ByteLength(s) == |s|
    ensures ClipUtf8(s, budget) == if |s| <= budget then s else s[..budget]
  {
    if s != "" {
      ClipAscii(s[1..], if budget == 0 then 0 else budget - 1);
      if budget != 0 && |s| > budget {
        assert s[..budget] == [s[0]] + s[1..][..budget - 1];
      }
    }
  }

  /** Once the bytes of a prefix exhaust the budget, what follows does not matter. */
  lemma {:induction false} ClipDropsRest(s: string, t: string)
    ensures ClipUtf8(s + t, ByteLength(s)) == s
  {
    if s == "" {
      assert s + t == t;
    } else {
      assert (s + t)[1..] == s[1..] + t;
      ClipDropsRest(s[1..], t);
    }
  }

  lemma {:induction false} ByteLengthOfSum(s: string, t: string)
    ensures ByteLength(s + t) == ByteLength(s) + ByteLength(t)
  {
    if s == "" {
      assert s + t == t;
    } else {
      assert (s + t)[1..] == s[1..] + t;
      ByteLengthOfSum(s[1..], t);
    }
  }

  lemma PrefixAscii()
    ensures Ascii(PREFIX) && ByteLength(PREFIX) == 7
  {
    ClipAscii(PREFIX, 0);
  }

  lemma AsciiSum(slug: string)
    requires Ascii(slug)
    ensures Ascii(PREFIX + slug)
  {
    forall i | 0 <= i < |PREFIX + slug| ensures (PREFIX + slug)[i] as int < 0x80 {
      if i >= |PREFIX| { assert (PREFIX + slug)[i] == slug[i - |PREFIX|]; }
    }
  }

  lemma SlugIsAscii(slug: string)
    requires LookupSlug(slug)
    ensures Ascii(slug)
  {
    forall i | 0 <= i < |slug| ensures slug[i] as int < 0x80 {
      assert Inner(slug[i]);
    }
  }

  // ---------------------------------------------------------------- results

  /** Which slugs may be looked up and which created: characters and lengths. */
  lemma SlugRules(s: string)
    ensures LookupSlug(s) <==>
              && 1 <= |s| <= 64
              && (forall i :: 0 <= i < |s| ==> 'a' <= s[i] <= 'z' || '0' <= s[i] <= '9' || s[i] in {'_', '-'})
              && s[0] !in {'_', '-'} && s[|s| - 1] !in {'_', '-'}
    ensures CreationSlug(s) <==> LookupSlug(s) && |s| <= 56
  {
    if |s| >= 1 && forall i :: 0 <= i < |s| ==> 'a' <= s[i] <= 'z' || '0' <= s[i] <= '9' || s[i] in {'_', '-'} {
      assert forall i :: 0 <= i < |s| ==> Inner(s[i]);
    }
    if LookupSlug(s) {
      assert forall i :: 0 <= i < |s| ==> Inner(s[i]);
    }
  }

  /** Slugs valid for creation can be looked up and their schema names are never truncated. */
  lemma CreationSlugsResolve(slug: string)
    requires CreationSlug(slug)
    ensures LookupSlug(slug)
    ensures TenantSchemaName(slug) == Ok(ExpectedPhysicalSchema(slug))
    ensures |ExpectedPhysicalSchema(slug)| <= MAX_IDENTIFIER
  {
    SlugIsAscii(slug);
    AsciiSum(slug);
    ClipAscii(PREFIX + slug, MAX_IDENTIFIER);
  }

  /** The schema PostgreSQL finds under a quoted path: the name cut to 63 bytes. */
  function SchemaReached(path: string): string {
    if |path| < 2 then path else ClipUtf8(path[1..|path| - 1], MAX_IDENTIFIER)
  }

  lemma PathReachesSchema(slug: string)
    requires TenantPath(slug).Ok?
    ensures SchemaReached(TenantPath(slug).value) == ExpectedPhysicalSchema(slug)
  {
    var path := "\"" + (PREFIX + slug) + "\"";
    assert path[1..|path| - 1] == PREFIX + slug;
  }

  /** Distinct tenants get distinct paths, and the paths reach distinct schemas if and only if the
      slugs differ within their first 56 characters. */
  lemma TenantPathsDiffer(a: string, b: string)
    requires TenantPath(a).Ok? && TenantPath(b).Ok?
    ensures TenantPath(a) == TenantPath(b) <==> a == b
    ensures SchemaReached(TenantPath(a).value) == SchemaReached(TenantPath(b).value) <==>
              Take(a, MAX_NEW_SLUG) == Take(b, MAX_NEW_SLUG)
  {
    var pa, pb := "\"" + (PREFIX + a) + "\"", "\"" + (PREFIX + b) + "\"";
    assert pa[8..|pa| - 1] == a && pb[8..|pb| - 1] == b;
    PathReachesSchema(a);
    PathReachesSchema(b);
    SlugIsAscii(a);
    SlugIsAscii(b);
    AsciiCollisions(a, b);
  }

  /** Two distinct slugs collide only if one of them is longer than 56 bytes. */
  lemma CollisionNeedsManyBytes(a: string, b: string)
    requires a != b && ExpectedPhysicalSchema(a) == ExpectedPhysicalSchema(b)
    ensures ByteLength(a) > MAX_NEW_SLUG || ByteLength(b) > MAX_NEW_SLUG
  {
    PrefixAscii();
    ByteLengthOfSum(PREFIX, a);
    ByteLengthOfSum(PREFIX, b);
    assert (PREFIX + a)[|PREFIX|..] == a && (PREFIX + b)[|PREFIX|..] == b;
    if ByteLength(a) <= MAX_NEW_SLUG { ClipKeepsShort(PREFIX + a, MAX_IDENTIFIER); }
    if ByteLength(b) <= MAX_NEW_SLUG { ClipKeepsShort(PREFIX + b, MAX_IDENTIFIER); }
  }

  function Take(s: string, n: nat): string {
    if |s| <= n then s else s[..n]
  }

  /** For ASCII slugs: they collide exactly when their first 56 characters agree, and then, if
      they differ at all, one is longer than 56 characters. */
  lemma AsciiCollisions(a: string, b: string)
    requires Ascii(a) && Ascii(b)
    ensures ExpectedPhysicalSchema(a) == ExpectedPhysicalSchema(b) <==> Take(a, MAX_NEW_SLUG) == Take(b, MAX_NEW_SLUG)
    ensures a != b && ExpectedPhysicalSchema(a) == ExpectedPhysicalSchema(b) ==>
              |a| > MAX_NEW_SLUG || |b| > MAX_NEW_SLUG
  {
    AsciiSchema(a);
    AsciiSchema(b);
    var pa, pb := PREFIX + Take(a, MAX_NEW_SLUG), PREFIX + Take(b, MAX_NEW_SLUG);
    assert pa[|PREFIX|..] == Take(a, MAX_NEW_SLUG) && pb[|PREFIX|..] == Take(b, MAX_NEW_SLUG);
  }

  lemma AsciiSchema(a: string)
    requires Ascii(a)
    ensures ExpectedPhysicalSchema(a) == PREFIX + Take(a, MAX_NEW_SLUG)
  {
    AsciiSum(a);
    ClipAscii(PREFIX + a, MAX_IDENTIFIER);
    if |a| > MAX_NEW_SLUG {
      assert (PREFIX + a)[..MAX_IDENTIFIER] == PREFIX + a[..MAX_NEW_SLUG];
    }
  }

  function Repeat(c: char, n: nat): string {
    if n == 0 then "" else [c] + Repeat(c, n - 1)
  }

  lemma {:induction false} RepeatBytes(c: char, n: nat)
    ensures |Repeat(c, n)| == n && ByteLength(Repeat(c, n)) == n * Width(c)
  {
    if n != 0 {
      RepeatBytes(c, n - 1);
      assert Repeat(c, n)[1..] == Repeat(c, n - 1);
    }
  }

  lemma {:induction false} RepeatIs(c: char, n: nat)
    ensures |Repeat(c, n)| == n && forall i :: 0 <= i < n ==> Repeat(c, n)[i] == c
  {
    if n > 0 { RepeatIs(c, n - 1); }
  }

  /** Two slugs that may be looked up and share their first 56 characters. */
  lemma SharingSlugs() returns (a: string, b: string)
    ensures a != b && LookupSlug(a) && LookupSlug(b) && ExpectedPhysicalSchema(a) == ExpectedPhysicalSchema(b)
  {
    var base := Repeat('a', MAX_NEW_SLUG);
    RepeatIs('a', MAX_NEW_SLUG);
    a, b := base + "a", base + "b";
    assert a[MAX_NEW_SLUG] != b[MAX_NEW_SLUG];
    assert LookupSlug(a) && LookupSlug(b);
    assert Take(a, MAX_NEW_SLUG) == base == Take(b, MAX_NEW_SLUG);
    SlugIsAscii(a);
    SlugIsAscii(b);
    AsciiCollisions(a, b);
  }

  /** The 56-character limit counts characters, not bytes: outside ASCII two slugs of 29
      characters already share a physical schema. */
  lemma ShortNonAsciiCollision()
    ensures exists a, b ::
      a != b && |a| <= MAX_NEW_SLUG && |b| <= MAX_NEW_SLUG && ExpectedPhysicalSchema(a) == ExpectedPhysicalSchema(b)
  {
    var e := '\U{00E9}';
    var base := Repeat(e, 28);
    RepeatBytes(e, 28);
    PrefixAscii();
    ByteLengthOfSum(PREFIX, base);
    var a, b := base + "a", base + "b";
    assert PREFIX + a == (PREFIX + base) + "a" && PREFIX + b == (PREFIX + base) + "b";
    ClipDropsRest(PREFIX + base, "a");
    ClipDropsRest(PREFIX + base, "b");
    assert a[28] != b[28];
    assert |a| <= MAX_NEW_SLUG && |b| <= MAX_NEW_SLUG && ExpectedPhysicalSchema(a) == ExpectedPhysicalSchema(b);
  }

  ghost predicate InjectiveUpToBytes(n: nat) {
    forall a, b ::
      ByteLength(a) <= n && ByteLength(b) <= n && ExpectedPhysicalSchema(a) == ExpectedPhysicalSchema(b) ==> a == b
  }

  ghost predicate InjectiveUpToChars(n: nat) {
    forall a, b :: |a| <= n && |b| <= n && ExpectedPhysicalSchema(a) == ExpectedPhysicalSchema(b) ==> a == b
  }

  /** A slug of exactly 56 bytes hides whatever follows it. */
  lemma LongerCollides(base: string, c: char)
    requires ByteLength(base) == MAX_NEW_SLUG
    ensures base != base + [c] && ExpectedPhysicalSchema(base) == ExpectedPhysicalSchema(base + [c])
  {
    PrefixAscii();
    ByteLengthOfSum(PREFIX, base);
    assert PREFIX + (base + [c]) == (PREFIX + base) + [c];
    ClipDropsRest(PREFIX + base, [c]);
    ClipKeepsShort(PREFIX + base, MAX_IDENTIFIER);
    assert |base| != |base + [c]|;
  }

  lemma {:induction false} BytesAtMostFourfold(s: string)
    ensures |s| <= ByteLength(s) <= 4 * |s|
  {
    if s != "" { BytesAtMostFourfold(s[1..]); }
  }

  /** Schema names tell slugs of at most n bytes apart exactly up to n = 56. */
  lemma InjectiveBytesIff(n: nat)
    ensures InjectiveUpToBytes(n) <==> n <= MAX_NEW_SLUG
  {
    if n <= MAX_NEW_SLUG {
      forall a, b | ByteLength(a) <= n && ByteLength(b) <= n && ExpectedPhysicalSchema(a) == ExpectedPhysicalSchema(b)
        ensures a == b
      {
        if a != b { CollisionNeedsManyBytes(a, b); }
      }
    } else {
      var base := Repeat('a', MAX_NEW_SLUG);
      RepeatBytes('a', MAX_NEW_SLUG);
      LongerCollides(base, 'a');
      ByteLengthOfSum(base, "a");
      assert ByteLength("a") == 1 by { assert "a"[1..] == ""; }
      assert ByteLength(base + "a") <= n && ByteLength(base) <= n;
    }
  }

  /** ... and slugs of at most n characters exactly up to n = 14, since a character takes up to four
      bytes. */
  lemma InjectiveCharsIff(n: nat)
    ensures InjectiveUpToChars(n) <==> n <= MAX_NEW_SLUG / 4
  {
    if n <= MAX_NEW_SLUG / 4 {
      forall a, b | |a| <= n && |b| <= n && ExpectedPhysicalSchema(a) == ExpectedPhysicalSchema(b)
        ensures a == b
      {
        BytesAtMostFourfold(a);
        BytesAtMostFourfold(b);
        if a != b { CollisionNeedsManyBytes(a, b); }
      }
    } else {
      var c := '\U{1F600}';
      var base := Repeat(c, MAX_NEW_SLUG / 4);
      RepeatBytes(c, MAX_NEW_SLUG / 4);
      LongerCollides(base, c);
      assert |base + [c]| <= n && |base| <= n;
    }
  }
}
