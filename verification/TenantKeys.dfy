/** Tenant scoping of cache keys (src/caching/caching.service.ts, src/caching/cache-key.builder.ts). */
module TenantKeys {
  import opened Prelude
  import StringHash

  // ---- Scoping -----------------------------------------------------------

  /** The characters `trim` removes. */
  predicate IsJsSpace(c: char) {
    '\U{0009}' <= c <= '\U{000D}' || c == ' ' || c == '\U{00A0}' || c == '\U{1680}' ||
    '\U{2000}' <= c <= '\U{200A}' || c == '\U{2028}' || c == '\U{2029}' || c == '\U{202F}' ||
    c == '\U{205F}' || c == '\U{3000}' || c == '\U{FEFF}'
  }

  predicate Blank(s: string) { forall i :: 0 <= i < |s| ==> IsJsSpace(s[i]) }

  /** Nothing but white space is blank; one other character is enough. */
  lemma BlankExactly(s: string)
    ensures Blank("") && Blank(" \t\r\n") && Blank("\U{00A0}\U{FEFF}")
    ensures (exists c :: c in s && '!' <= c <= '~') ==> !Blank(s)
  {}

  /** `resolveTenantId`: an explicit id first, then the isolation service's. */
  function ResolveTenant(explicitId: Option<string>, fromIsolation: Option<string>): Option<string> {
    if explicitId.Some? && !Blank(explicitId.value) then explicitId
    else if fromIsolation.Some? && !Blank(fromIsolation.value) then fromIsolation
    else None
  }

  /** The resolved tenant is never blank, and there is none only when neither source names one. */
  lemma ResolvesExactly(explicitId: Option<string>, fromIsolation: Option<string>)
    ensures var t := ResolveTenant(explicitId, fromIsolation);
            (t.Some? ==> !Blank(t.value) && (t == explicitId || t == fromIsolation)) &&
            (t.None? <==> (explicitId.Some? ==> Blank(explicitId.value)) &&
                          (fromIsolation.Some? ==> Blank(fromIsolation.value)))
  {}

  /** `cache:<tenant>:` */
  function Namespace(tenant: string): string { "cache:" + tenant + ":" }

  function ScopedTo(key: string, tenant: string): string {
    if Namespace(tenant) <= key then key
    else Namespace(tenant) + (if "cache:" <= key then key[|"cache:"|..] else key)
  }

  function BuildTenantScopedKey(key: string, tenant: Option<string>): string {
    if tenant.None? then key else ScopedTo(key, tenant.value)
  }

  lemma ScopedIsInNamespace(key: string, tenant: string)
    ensures Namespace(tenant) <= ScopedTo(key, tenant)
    ensures ScopedTo(ScopedTo(key, tenant), tenant) == ScopedTo(key, tenant)
    ensures ScopedTo(key, tenant) == key <==> Namespace(tenant) <= key
  {}

  // ---- When two keys of one tenant meet ----------------------------------

  /** What a key names inside the tenant's namespace: the key without that prefix, or without `cache:`. */
  function NameIn(key: string, tenant: string): string {
    if Namespace(tenant) <= key then key[|Namespace(tenant)|..]
    else if "cache:" <= key then key[|"cache:"|..]
    else key
  }

  lemma ScopedName(key: string, tenant: string)
    ensures ScopedTo(key, tenant) == Namespace(tenant) + NameIn(key, tenant)
  {}

  /** Two keys of one tenant land on one entry exactly when they name the same thing. */
  lemma KeysShareExactly(j: string, k: string, tenant: string)
    ensures ScopedTo(j, tenant) == ScopedTo(k, tenant) <==> NameIn(j, tenant) == NameIn(k, tenant)
  {
    ScopedName(j, tenant);
    ScopedName(k, tenant);
    var n := Namespace(tenant);
    assert (n + NameIn(j, tenant))[|n|..] == NameIn(j, tenant) && (n + NameIn(k, tenant))[|n|..] == NameIn(k, tenant);
  }

  /** Plain keys share an entry only with themselves; `cache:k` shares that of k, unless it is scoped already. */
  lemma PlainKeysShareExactly(j: string, k: string, tenant: string)
    requires !("cache:" <= j) && !("cache:" <= k)
    ensures ScopedTo(j, tenant) == ScopedTo(k, tenant) <==> j == k
    ensures ScopedTo("cache:" + k, tenant) == ScopedTo(k, tenant) <==> !(tenant + ":" <= k)
  {
    KeysShareExactly(j, k, tenant);
    KeysShareExactly("cache:" + k, k, tenant);
    PlainName(j, tenant);
    PlainName(k, tenant);
    PrefixedName(k, tenant);
  }

  lemma PlainName(k: string, tenant: string)
    requires !("cache:" <= k)
    ensures NameIn(k, tenant) == k
  {
    PrefixJoins("cache:", tenant + ":", k);
  }

  lemma PrefixJoins(p: string, a: string, k: string)
    ensures p + a <= k ==> p <= k
    ensures p + a <= p + k <==> a <= k
  {
    assert forall i :: 0 <= i < |a| ==> (p + a)[|p| + i] == a[i];
    assert forall i :: 0 <= i < |k| ==> (p + k)[|p| + i] == k[i];
    assert p + a <= p + k ==> a == (p + a)[|p|..] == (p + k)[|p|..|p + a|] == k[..|a|];
  }

  lemma PrefixedName(k: string, tenant: string)
    ensures NameIn("cache:" + k, tenant) == k <==> !(tenant + ":" <= k)
  {
    assert Namespace(tenant) == "cache:" + (tenant + ":");
    assert ("cache:" + k)[|"cache:"|..] == k;
    PrefixJoins("cache:", tenant + ":", k);
    assert tenant + ":" <= k ==> |NameIn("cache:" + k, tenant)| < |k|;
  }

  // ---- Key builders ------------------------------------------------------

  datatype KeyError = TenantRequired

  datatype Scope = PublishedOnly | All

  function Digits(n: nat): string {
    if n < 10 then [('0' as int + n) as char] else Digits(n / 10) + [('0' as int + n % 10) as char]
  }

  function Decimal(n: int): string { if n < 0 then "-" + Digits(-n) else Digits(n) }

  datatype KeyRequest =
    | CourseList(scope: Scope)
    | PopularCourses
    | CourseKey(courseId: string)
    | UserProfile(userId: string)
    | Search(str: JsString)                      // the query, filters, sort and page already joined
    | Computation(kind: string, identifier: string)

  function Suffix(r: KeyRequest): string {
    match r
    case CourseList(scope) => "courses:list:" + (if scope == All then "all" else "published")
    case PopularCourses => "popular:courses"
    case CourseKey(courseId) => "course:" + courseId
    case UserProfile(userId) => "user:profile:" + userId
    case Search(str) => "search:" + Decimal(StringHash.Hash(str))
    case Computation(kind, identifier) => "computation:" + kind + ":" + identifier
  }

  function BuildKey(tenant: string, r: KeyRequest): Result<string, KeyError> {
    if Blank(tenant) then Err(TenantRequired) else Ok(Namespace(tenant) + Suffix(r))
  }

  /** A builder refuses exactly a blank tenant; what it makes lies in the tenant's namespace. */
  lemma BuildsExactly(tenant: string, r: KeyRequest)
    ensures BuildKey(tenant, r).Err? <==> Blank(tenant)
    ensures BuildKey(tenant, r).Ok? ==>
              var key, head := BuildKey(tenant, r).value, "cache:" + tenant + ":";
              Namespace(tenant) == head &&
              match r
              case CourseList(scope) => key == head + "courses:list:" + (if scope.All? then "all" else "published")
              case PopularCourses => key == head + "popular:courses"
              case CourseKey(courseId) => key == head + "course:" + courseId
              case UserProfile(userId) => key == head + "user:profile:" + userId
              case Search(str) => key == head + "search:" + Decimal(StringHash.Hash(str))
              case Computation(kind, identifier) => key == head + "computation:" + kind + ":" + identifier
  {
    var head := "cache:" + tenant + ":";
    match r
    case CourseList(_) =>
    case PopularCourses =>
    case CourseKey(courseId) => Joined(head, "course:", courseId);
    case UserProfile(userId) => Joined(head, "user:profile:", userId);
    case Search(str) => Joined(head, "search:", Decimal(StringHash.Hash(str)));
    case Computation(kind, identifier) =>
      Joined(head, "computation:" + kind + ":", identifier);
      Joined(head, "computation:" + kind, ":");
      Joined(head, "computation:", kind);
  }

  lemma Joined(a: string, b: string, c: string)
    ensures a + b + c == a + (b + c)
  {}

  /** Scoping changes no key that a builder made for the same tenant. */
  lemma BuiltKeysAreScoped(tenant: string, r: KeyRequest)
    ensures BuildKey(tenant, r).Ok? ==> ScopedTo(BuildKey(tenant, r).value, tenant) == BuildKey(tenant, r).value
  {}

  /** What a builder keeps of its arguments. */
  predicate SameKey(r: KeyRequest, s: KeyRequest) {
    match r
    case CourseList(scope) => s.CourseList? && s.scope == scope
    case PopularCourses => s.PopularCourses?
    case CourseKey(courseId) => s.CourseKey? && s.courseId == courseId
    case UserProfile(userId) => s.UserProfile? && s.userId == userId
    case Search(str) => s.Search? && StringHash.Hash(s.str) == StringHash.Hash(str)
    case Computation(kind, identifier) => s.Computation? && s.kind + ":" + s.identifier == kind + ":" + identifier
  }

  /**
   * Two requests of one tenant share a cache key exactly when they come from one builder with the same
   * arguments, where a search counts by its hash and a computation by its two parts joined.
   */
  lemma KeysMeetExactly(tenant: string, r: KeyRequest, s: KeyRequest)
    requires !Blank(tenant)
    ensures BuildKey(tenant, r) == BuildKey(tenant, s) <==> SameKey(r, s)
  {
    var n := Namespace(tenant);
    assert (n + Suffix(r))[|n|..] == Suffix(r) && (n + Suffix(s))[|n|..] == Suffix(s);
    if Suffix(r) == Suffix(s) { SuffixDecides(r, s); } else { SuffixOfSame(r, s); }
  }

  lemma SuffixOfSame(r: KeyRequest, s: KeyRequest)
    requires Suffix(r) != Suffix(s)
    ensures !SameKey(r, s)
  {
    if r.Computation? && s.Computation? {
      assert Suffix(r) == "computation:" + (r.kind + ":" + r.identifier);
      assert Suffix(s) == "computation:" + (s.kind + ":" + s.identifier);
    }
  }

  lemma SuffixDecides(r: KeyRequest, s: KeyRequest)
    requires Suffix(r) == Suffix(s)
    ensures SameKey(r, s)
  {
    SuffixHead(r);
    SuffixHead(s);
    match r
    case CourseList(_) => assert Suffix(r)[13] != Suffix(s)[13] || r == s;
    case PopularCourses =>
    case CourseKey(courseId) => assert courseId == Suffix(r)[7..] == Suffix(s)[7..] == s.courseId;
    case UserProfile(userId) => assert userId == Suffix(r)[13..] == Suffix(s)[13..] == s.userId;
    case Search(str) => SearchSuffix(str, s.str);
    case Computation(kind, identifier) => ComputationSuffix(kind, identifier, s.kind, s.identifier);
  }

  lemma SearchSuffix(str: JsString, other: JsString)
    requires Suffix(Search(str)) == Suffix(Search(other))
    ensures StringHash.Hash(str) == StringHash.Hash(other)
  {
    assert Decimal(StringHash.Hash(str)) == Suffix(Search(str))[7..];
    assert Decimal(StringHash.Hash(other)) == Suffix(Search(other))[7..];
    DecimalInjective(StringHash.Hash(str), StringHash.Hash(other));
  }

  lemma ComputationSuffix(kind: string, identifier: string, k: string, i: string)
    requires Suffix(Computation(kind, identifier)) == Suffix(Computation(k, i))
    ensures kind + ":" + identifier == k + ":" + i
  {
    assert Suffix(Computation(kind, identifier)) == "computation:" + (kind + ":" + identifier);
    assert Suffix(Computation(k, i)) == "computation:" + (k + ":" + i);
    assert kind + ":" + identifier == Suffix(Computation(kind, identifier))[12..];
    assert k + ":" + i == Suffix(Computation(k, i))[12..];
  }

  lemma {:induction false} DigitsInjective(m: nat, n: nat)
    requires Digits(m) == Digits(n)
    ensures m == n
  {
    DigitsEnd(m);
    DigitsEnd(n);
    if m >= 10 && n >= 10 {
      assert Digits(m / 10) == Digits(m)[..|Digits(m)| - 1] == Digits(n / 10);
      DigitsInjective(m / 10, n / 10);
    }
  }

  lemma {:induction false} DigitsEnd(n: nat)
    ensures |Digits(n)| >= 1 && Digits(n)[|Digits(n)| - 1] == ('0' as int + n % 10) as char
    ensures |Digits(n)| > 1 <==> n >= 10
    ensures Digits(n)[0] != '-'
  {
    if n >= 10 { DigitsEnd(n / 10); }
  }

  lemma DecimalInjective(m: int, n: int)
    requires Decimal(m) == Decimal(n)
    ensures m == n
  {
    if m < 0 && n < 0 {
      assert Digits(-m) == Decimal(m)[1..] == Decimal(n)[1..] == Digits(-n);
      DigitsInjective(-m, -n);
    } else if m >= 0 && n >= 0 {
      DigitsInjective(m, n);
    } else {
      DigitsEnd(if m >= 0 then m else n);
    }
  }

  /** What tells the builders' suffixes apart. */
  lemma SuffixHead(r: KeyRequest)
    ensures var x := Suffix(r);
            |x| > 6 && x[0] == (match r case CourseList(_) => 'c' case PopularCourses => 'p' case CourseKey(_) => 'c'
                                case UserProfile(_) => 'u' case Search(_) => 's' case Computation(_, _) => 'c') &&
            (x[2] == 'm' <==> r.Computation?) && (r.CourseList? ==> |x| > 13 && x[6] == 's') &&
            (r.CourseKey? ==> x[6] == ':') &&
            (r.CourseList? ==> x[13] == if r.scope == All then 'a' else 'p')
  {
    match r
    case CourseList(scope) => assert Suffix(r)[..13] == "courses:list:";
    case PopularCourses =>
    case CourseKey(courseId) => assert Suffix(r)[..7] == "course:";
    case UserProfile(userId) => assert Suffix(r)[..13] == "user:profile:";
    case Search(str) => assert Suffix(r)[..7] == "search:";
    case Computation(kind, identifier) => assert Suffix(r)[..12] == "computation:";
  }

  // ---- When two tenants' keys meet ---------------------------------------

  predicate Meet(t: string, u: string) { t + ":" <= u + ":" || u + ":" <= t + ":" }

  lemma {:induction false} ColonFreeApart(t: string, u: string)
    requires ':' !in t && ':' !in u && t != u
    ensures !Meet(t, u)
  {
    if t + ":" <= u + ":" { PrefixEqual(t, u); }
    if u + ":" <= t + ":" { PrefixEqual(u, t); }
  }

  lemma PrefixEqual(t: string, u: string)
    requires t + ":" <= u + ":" && ':' !in u
    ensures t == u
  {
    assert (u + ":")[|t|] == (t + ":")[|t|] == ':';
    assert forall i :: 0 <= i < |u| ==> u[i] in u && u[i] != ':';
    assert (u + ":")[..|t|] == t;
  }

  /** Some key of one tenant and some key of the other land on the same cache entry, exactly when. */
  lemma NamespacesMeetExactly(t: string, u: string)
    ensures (exists j, k :: ScopedTo(j, t) == ScopedTo(k, u)) <==> Meet(t, u)
  {
    if Meet(t, u) {
      if t + ":" <= u + ":" { SharedEntry(t, u); } else { SharedEntry(u, t); }
    }
    forall j, k | ScopedTo(j, t) == ScopedTo(k, u) ensures Meet(t, u) {
      ScopedIsInNamespace(j, t);
      ScopedIsInNamespace(k, u);
      CommonExtension(t, u, ScopedTo(j, t));
    }
  }

  lemma SharedEntry(t: string, u: string)
    requires t + ":" <= u + ":"
    ensures ScopedTo(Namespace(u), t) == ScopedTo(Namespace(u), u)
  {
    assert Namespace(u) == "cache:" + (u + ":") && Namespace(t) == "cache:" + (t + ":");
  }

  lemma CommonExtension(t: string, u: string, key: string)
    requires Namespace(t) <= key && Namespace(u) <= key
    ensures Meet(t, u)
  {
    var rest := key[|"cache:"|..];
    assert Namespace(t) == "cache:" + (t + ":") && Namespace(u) == "cache:" + (u + ":");
    assert t + ":" <= rest && u + ":" <= rest;
    if |t| <= |u| { assert t + ":" == rest[..|t| + 1] <= rest[..|u| + 1]; }
    else { assert u + ":" == rest[..|u| + 1] <= rest[..|t| + 1]; }
  }
}
