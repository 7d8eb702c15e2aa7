/** backbone.fetch-cache.js: a keyed in-memory cache, mirrored to localStorage, that is read
    until expiry, cleared on writes and evicted when the mirror does not fit. */
module FetchCache {
  import opened Text
  import opened Wrappers
  import opened WebStorage

  /** `false`, or a time in milliseconds. */
  datatype Expiry = Never | At(time: int) {
    /** JavaScript's truth value: the time 0 is false too. */
    predicate Truthy() { At? && time != 0 }
  }

  /** Attributes. Responses such as null, 0 or an empty text are falsy. */
  datatype Body = Falsy(text: string) | Body(text: string)

  /** An entry of `_cache`; eviction leaves nulls behind. */
  datatype Slot = Null | Entry(expires: Expiry, value: Body)

  type Cache = map<string, Slot>

  /** Reading a key: a null entry and a missing one are both a miss. */
  function Lookup(c: Cache, key: string): Slot {
    if key in c then c[key] else Null
  }

  // ---- eviction ------------------------------------------------------------

  /** The comparator; None where it returns its first argument instead of a number. */
  function PriorityFn(a: Slot, b: Slot): Option<int> {
    if a.Null? || !a.expires.Truthy() || b.Null? || !b.expires.Truthy() then None
    else Some(a.expires.time - b.expires.time)
  }

  predicate Consistent(c: Cache) {
    forall k, k' :: k in c && k' in c ==> PriorityFn(c[k], c[k']).Some?
  }

  /** All entries can be compared exactly when each has a numeric expiry other than 0. */
  lemma ConsistentIff(c: Cache)
    ensures Consistent(c) <==> forall k :: k in c ==> c[k].Entry? && c[k].expires.At? && c[k].expires.time != 0
  {
    forall k | k in c && Consistent(c) ensures c[k].Entry? && c[k].expires.At? && c[k].expires.time != 0 {
      assert PriorityFn(c[k], c[k]).Some?;
    }
  }

  /** What `_prioritize` may return. With a consistent comparator the first key of the sorted
      entries has the earliest expiry; otherwise the order is implementation-defined (section
      15.4.4.11 of ECMA-262 5.1) and it may be any key. An empty cache has none. */
  predicate Prioritized(c: Cache, key: Option<string>) {
    match key
    case None => c == map[]
    case Some(k) =>
      k in c && (Consistent(c) ==> forall k' | k' in c :: PriorityFn(c[k], c[k']).value <= 0)
  }

  /** A property name: a missing key is the name "undefined". */
  function Name(key: Option<string>): string {
    match key
    case None => "undefined"
    case Some(k) => k
  }

  /** `_deleteCacheWithPriority` before it writes the mirror: one key is set to null, then one,
      chosen again, is deleted. */
  ghost predicate EvictRound(c: Cache, c': Cache) {
    exists k1, k2 :: Prioritized(c, k1) && Prioritized(c[Name(k1) := Null], k2)
                     && c' == c[Name(k1) := Null] - {Name(k2)}
  }

  /** Rounds until the cache fits, and no more. */
  ghost predicate EvictRun(fits: Cache -> bool, c: Cache, c': Cache)
    decreases |c|
  {
    if fits(c) then c' == c
    else exists mid :: EvictRound(c, mid) && |mid| < |c| && EvictRun(fits, mid, c')
  }

  /** c' has no key and no entry that c does not have. */
  ghost predicate Weaker(c': Cache, c: Cache) {
    forall k :: k in c' ==> k in c && (c'[k] == c[k] || c'[k] == Null)
  }

  /** Every round removes exactly one key, whatever the sort returns. The reader loses at most
      two entries, one of them the earliest to expire when all entries can be compared. */
  lemma RoundEffect(c: Cache, c': Cache) returns (k1: string, k2: string)
    requires EvictRound(c, c') && c != map[]
    ensures k1 in c && k2 in c && c'.Keys == c.Keys - {k2} && |c'| == |c| - 1
    ensures forall k :: Lookup(c', k) == if k == k1 || k == k2 then Null else Lookup(c, k)
    ensures Consistent(c) ==> forall k | k in c :: c[k1].expires.time <= c[k].expires.time
    ensures Weaker(c', c)
  {
    var o1, o2 :| Prioritized(c, o1) && Prioritized(c[Name(o1) := Null], o2)
                  && c' == c[Name(o1) := Null] - {Name(o2)};
    k1, k2 := Name(o1), Name(o2);
    PrioritizedIn(c, o1);
    PrioritizedIn(c[k1 := Null], o2);
    RoundShape(c, k1, k2);
  }

  /** The entries a reader can see, and those it loses. */
  function Entries(c: Cache): set<string> { set k | k in c && c[k].Entry? }

  function Lost(c: Cache, c': Cache): set<string> { Entries(c) - Entries(c') }

  /** A round costs the reader at most one entry, whatever the sort returns, exactly when there
      is no second entry to lose. */
  lemma RoundLosesOneIff(c: Cache)
    ensures (forall c' | EvictRound(c, c') :: |Lost(c, c')| <= 1) <==> |Entries(c)| <= 1
  {
    if |Entries(c)| <= 1 {
      forall c' | EvictRound(c, c') ensures |Lost(c, c')| <= 1 {
        Fewer(Lost(c, c'), Entries(c));
      }
    } else {
      var k1, k2, c' := LosesTwo(c);
      assert {k1, k2} <= Lost(c, c');
      Fewer({k1, k2}, Lost(c, c'));
    }
  }

  lemma Fewer(a: set<string>, b: set<string>)
    requires a <= b
    ensures |a| <= |b|
  {
    assert b == a + (b - a);
  }

  // Once the first choice is null, the second may be any other entry.
  lemma LosesTwo(c: Cache) returns (k1: string, k2: string, c': Cache)
    requires |Entries(c)| > 1
    ensures k1 != k2 && k1 in Lost(c, c') && k2 in Lost(c, c') && EvictRound(c, c')
  {
    k1 := FirstEntry(c);
    assert |Entries(c) - {k1}| == |Entries(c)| - 1;
    k2 :| k2 in Entries(c) - {k1};
    var nulled := c[k1 := Null];
    assert PriorityFn(nulled[k1], nulled[k1]).None?;
    c' := nulled - {k2};
    RoundIs(c, Some(k1), Some(k2));
  }

  lemma FirstEntry(c: Cache) returns (k: string)
    requires Entries(c) != {}
    ensures k in Entries(c) && Prioritized(c, Some(k))
  {
    if Consistent(c) {
      k := Earliest(c, c.Keys);
      assert PriorityFn(c[k], c[k]).Some?;
    } else {
      k :| k in Entries(c);
    }
  }

  lemma {:induction false} Earliest(c: Cache, keys: set<string>) returns (k: string)
    requires Consistent(c) && keys <= c.Keys && keys != {}
    ensures k in keys && forall k' | k' in keys :: PriorityFn(c[k], c[k']).value <= 0
  {
    k :| k in keys;
    if keys != {k} {
      var rest := Earliest(c, keys - {k});
      if PriorityFn(c[rest], c[k]).value < 0 {
        k := rest;
      }
    }
  }

  lemma RoundIs(c: Cache, k1: Option<string>, k2: Option<string>)
    requires Prioritized(c, k1) && Prioritized(c[Name(k1) := Null], k2)
    ensures EvictRound(c, c[Name(k1) := Null] - {Name(k2)})
  {}

  lemma RoundShrinks(c: Cache, c': Cache)
    requires EvictRound(c, c')
    ensures c == map[] ==> c' == map[]
    ensures c != map[] ==> |c'| == |c| - 1
    ensures Weaker(c', c)
  {
    if c == map[] { EmptyRound(c'); } else { var _, _ := RoundEffect(c, c'); }
  }

  lemma PrioritizedIn(c: Cache, key: Option<string>)
    requires Prioritized(c, key) && c != map[]
    ensures Name(key) in c
    ensures Consistent(c) ==> forall k | k in c :: c[Name(key)].expires.time <= c[k].expires.time
  {}

  lemma RoundShape(c: Cache, k1: string, k2: string)
    requires k1 in c && k2 in c
    ensures var c' := c[k1 := Null] - {k2};
      && c'.Keys == c.Keys - {k2} && |c'| == |c| - 1 && Weaker(c', c)
      && forall k :: Lookup(c', k) == if k == k1 || k == k2 then Null else Lookup(c, k)
  {
    var c' := c[k1 := Null] - {k2};
    assert c'.Keys == c.Keys - {k2};
  }

  lemma UndefinedFirst()
    ensures Prioritized(map["undefined" := Null], Some("undefined"))
  {
    var u: Cache := map["undefined" := Null];
    assert PriorityFn(u["undefined"], u["undefined"]).None?;
  }

  /** A round on the empty cache changes nothing: the key "undefined" comes and goes. */
  lemma EmptyRound(c': Cache)
    ensures EvictRound(map[], c') <==> c' == map[]
  {
    hide Consistent;
    var c: Cache := map[];
    var u: Cache := c["undefined" := Null];
    assert Prioritized(c, None) && Name(None) == "undefined";
    assert Prioritized(u, Some("undefined")) by { UndefinedFirst(); }
    assert u - {"undefined"} == c;
    if c' == c {
      assert Prioritized(c[Name(None) := Null], Some("undefined"));
      assert c' == c[Name(None) := Null] - {Name(Some("undefined"))};
    }
    if EvictRound(c, c') {
      var o1, o2 :| Prioritized(c, o1) && Prioritized(c[Name(o1) := Null], o2)
                    && c' == c[Name(o1) := Null] - {Name(o2)};
      assert o1 == None && c[Name(o1) := Null] == u;
      assert o2.Some? && o2.value in u;
      assert c' == u - {"undefined"};
    }
  }

  /** Eviction from c returns for every possible sort result. */
  ghost predicate AlwaysReturns(fits: Cache -> bool, c: Cache)
    decreases |c|
  {
    fits(c)
    || (c != map[] && forall mid :: EvictRound(c, mid) ==> |mid| < |c| && AlwaysReturns(fits, mid))
  }

  /** Eviction terminates from every cache exactly when the empty cache fits. */
  lemma EvictionTerminatesIff(fits: Cache -> bool)
    ensures (forall c :: AlwaysReturns(fits, c)) <==> fits(map[])
  {
    if fits(map[]) {
      forall c ensures AlwaysReturns(fits, c) {
        Returns(fits, c);
      }
    } else {
      assert !AlwaysReturns(fits, map[]);
    }
  }

  lemma {:induction false} Returns(fits: Cache -> bool, c: Cache)
    requires fits(map[])
    ensures AlwaysReturns(fits, c)
    decreases |c|
  {
    if c != map[] {
      forall mid | EvictRound(c, mid) ensures |mid| < |c| && AlwaysReturns(fits, mid) {
        var _, _ := RoundEffect(c, mid);
        Returns(fits, mid);
      }
    }
  }

  lemma FirstRound(fits: Cache -> bool, c: Cache, mid: Cache, c': Cache)
    requires !fits(c) && c != map[] && EvictRound(c, mid) && EvictRun(fits, mid, c')
    ensures EvictRun(fits, c, c')
  {
    var _, _ := RoundEffect(c, mid);
  }

  lemma {:induction false} RunWeakens(fits: Cache -> bool, c: Cache, c': Cache)
    requires EvictRun(fits, c, c')
    ensures Weaker(c', c) && fits(c')
    decreases |c|
  {
    if !fits(c) {
      var mid :| EvictRound(c, mid) && |mid| < |c| && EvictRun(fits, mid, c');
      if c == map[] { EmptyRound(mid); }
      var _, _ := RoundEffect(c, mid);
      RunWeakens(fits, mid, c');
    }
  }

  // ---- the operations, as relations on caches ------------------------------

  /** How writes to the mirror behave: switched off or unsupported, failing with a code that is
      not the quota's, or limited by the quota. */
  datatype Mode = Off | Broken(code: int) | Quota(fits: Cache -> bool)

  ghost predicate Persist(mode: Mode, c: Cache, c': Cache) {
    if mode.Quota? then EvictRun(mode.fits, c, c') else c' == c
  }

  /** The mirror is off, or every text fits. */
  ghost predicate Ample(mode: Mode) { mode.Off? || (mode.Quota? && forall c :: mode.fits(c)) }

  lemma AmplePersists(mode: Mode, c: Cache, c': Cache)
    requires Ample(mode)
    ensures Persist(mode, c, c') <==> c' == c
  {}

  /** A cache that fits, or a mirror that is off or refuses every write, costs no entry; and what
      eviction leaves always fits. */
  lemma EvictsOnlyWhenFull(mode: Mode, c: Cache, c': Cache)
    ensures !mode.Quota? || mode.fits(c) ==> (Persist(mode, c, c') <==> c' == c)
    ensures mode.Quota? && Persist(mode, c, c') ==> mode.fits(c')
  {
    if mode.Quota? && Persist(mode, c, c') {
      RunWeakens(mode.fits, c, c');
    }
  }

  lemma PersistWeakens(mode: Mode, c: Cache, c': Cache)
    requires Persist(mode, c, c')
    ensures Weaker(c', c)
  {
    if mode.Quota? { RunWeakens(mode.fits, c, c'); }
  }

  datatype Lifetime = Default | Forever | Seconds(n: int)

  /** The options of fetch that matter: `cache`, `prefill` and `expires`. */
  datatype Opts = Opts(cache: Option<bool>, prefill: bool, expires: Lifetime) {
    predicate Wanted() { cache == Some(true) || prefill }
  }

  /** `getCacheKey`: None when there is no url. */
  function GetCacheKey(instanceUrl: Option<string>, optsUrl: Option<string>, data: Option<string>): Option<string> {
    var url := if optsUrl.Some? && optsUrl.value != "" then optsUrl else instanceUrl;
    if url.None? || url.value == "" then None
    else if data.Some? then Some(url.value + "?" + data.value)
    else url
  }

  /** The options' url goes before the instance's; an empty one counts as none; parameters follow a
      question mark; without a url there is no key. */
  lemma CacheKeyCases(instanceUrl: Option<string>, optsUrl: Option<string>, url: string, data: string)
    requires url != ""
    ensures GetCacheKey(instanceUrl, Some(url), None) == Some(url)
    ensures GetCacheKey(instanceUrl, Some(url), Some(data)) == Some(url + "?" + data)
    ensures optsUrl in {None, Some("")} ==> GetCacheKey(Some(url), optsUrl, None) == Some(url)
    ensures optsUrl in {None, Some("")} ==> GetCacheKey(Some(url), optsUrl, Some(data)) == Some(url + "?" + data)
    ensures optsUrl in {None, Some("")} && instanceUrl in {None, Some("")} ==>
      GetCacheKey(instanceUrl, optsUrl, None) == None && GetCacheKey(instanceUrl, optsUrl, Some(data)) == None
  {}

  predicate Stores(key: Option<string>, o: Opts) {
    key.Some? && key.value != "" && o.cache != Some(false) && o.Wanted()
  }

  function NewEntry(o: Opts, attrs: Body, now: int): Slot {
    Entry(if o.expires.Forever? then Never
          else At(now + 1000 * if o.expires.Seconds? && o.expires.n != 0 then o.expires.n else 5 * 60), attrs)
  }

  ghost predicate StoreStep(mode: Mode, key: Option<string>, o: Opts, attrs: Body, now: int, c: Cache, c': Cache) {
    if Stores(key, o) then Persist(mode, c[key.value := NewEntry(o, attrs, now)], c') else c' == c
  }

  /** What a store leaves under its key when nothing is evicted: the value, five minutes to live by
      default or for 0 seconds, the given seconds, or no end; every other key reads as before. */
  lemma StoredIs(mode: Mode, key: string, o: Opts, attrs: Body, now: int, c: Cache, c': Cache)
    requires Ample(mode) || mode.Broken?
    requires key != "" && o.cache != Some(false) && (o.cache == Some(true) || o.prefill)
    requires StoreStep(mode, Some(key), o, attrs, now, c, c')
    ensures Lookup(c', key).Entry? && Lookup(c', key).value == attrs
    ensures o.expires in {Default, Seconds(0)} ==> Lookup(c', key).expires == At(now + 300000)
    ensures o.expires.Seconds? && o.expires.n != 0 ==> Lookup(c', key).expires == At(now + 1000 * o.expires.n)
    ensures o.expires.Forever? ==> Lookup(c', key).expires == Never
    ensures forall k :: k != key ==> Lookup(c', k) == Lookup(c, k)
  {
    if !mode.Broken? {
      AmplePersists(mode, c[key := NewEntry(o, attrs, now)], c');
    }
  }

  /** Nothing is stored without a key, when caching is refused, or when nobody asked for it. */
  lemma NotStored(mode: Mode, key: Option<string>, o: Opts, attrs: Body, now: int, c: Cache, c': Cache)
    requires StoreStep(mode, key, o, attrs, now, c, c')
    requires key in {None, Some("")} || o.cache == Some(false) || (o.cache == None && !o.prefill)
    ensures c' == c
  {}

  /** How long the value is served: until its time has passed, and for ever when it has none. */
  lemma ServedUntil(mode: Mode, key: string, o: Opts, attrs: Body, now: int, c: Cache, c': Cache, later: int)
    requires Ample(mode) || mode.Broken?
    requires key != "" && o.cache != Some(false) && (o.cache == Some(true) || o.prefill)
    requires StoreStep(mode, Some(key), o, attrs, now, c, c') && attrs.Body? && now >= 0
    ensures o.expires.Default? ==> (Served(c', Some(key), o, later) == Some(attrs) <==> later <= now + 300000)
    ensures o.expires.Seconds? && o.expires.n > 0 ==>
      (Served(c', Some(key), o, later) == Some(attrs) <==> later <= now + 1000 * o.expires.n)
    ensures o.expires.Forever? ==> Served(c', Some(key), o, later) == Some(attrs)
  {
    StoredIs(mode, key, o, attrs, now, c, c');
  }

  /** Keys cleared one after another, the mirror written each time. */
  ghost predicate ClearRun(mode: Mode, keys: seq<string>, c: Cache, c': Cache) {
    if keys == [] then c' == c
    else
      var n := |keys| - 1;
      var (rest, last) := (keys[..n], keys[n]);
      exists mid :: ClearRun(mode, rest, c, mid) && ClearStep(mode, last, mid, c')
  }

  /** `clearItem` */
  ghost predicate ClearStep(mode: Mode, key: string, c: Cache, c': Cache) {
    Persist(mode, c - {key}, c')
  }

  /** The keys a write is taken to touch: the model's, its collection's, and every key that
      contains the collection's key and a question mark. */
  predicate Touched(modelKey: Option<string>, collectionKey: Option<Option<string>>, k: string) {
    k == Name(modelKey)
    || (collectionKey.Some?
        && (k == Name(collectionKey.value) || Contains(k, Name(collectionKey.value) + "?")))
  }

  /** Without a collection a write touches the model's key alone; with one, its key too, and what
      holds its key followed by a question mark, and no other key. */
  lemma TouchedIff(mk: Option<string>, url: string, k: string)
    ensures Touched(mk, None, k) <==> Some(k) == mk || (mk == None && k == "undefined")
    ensures Touched(mk, Some(Some(url)), k) <==>
      Some(k) == mk || (mk == None && k == "undefined") || k == url || exists a, b :: k == a + (url + "?") + b
  {
    ContainsIff(k, url + "?");
  }

  /** The keys `sync` collects for clearing. */
  ghost predicate Collected(keys: seq<string>, modelKey: Option<string>, collectionKey: Option<Option<string>>,
                            c: Cache) {
    (forall k :: k in keys ==> Touched(modelKey, collectionKey, k))
    && (forall k :: k in c && Touched(modelKey, collectionKey, k) ==> k in keys)
  }

  /** A write's effect on the cache. When the mirror cannot be written at all, the first
      clearing throws and the request is never sent. */
  ghost predicate WriteStep(mode: Mode, modelKey: Option<string>, collectionKey: Option<Option<string>>,
                            c: Cache, c': Cache, sent: bool) {
    sent == !mode.Broken?
    && if sent then exists keys :: Collected(keys, modelKey, collectionKey, c) && ClearRun(mode, keys, c, c')
       else c' == c - {Name(modelKey)}
  }

  lemma ClearRunSnoc(mode: Mode, keys: seq<string>, key: string, c: Cache, mid: Cache, c': Cache)
    requires ClearRun(mode, keys, c, mid) && ClearStep(mode, key, mid, c')
    ensures ClearRun(mode, keys + [key], c, c')
  {
    var ks := keys + [key];
    var (rest, last) := (ks[..|ks| - 1], ks[|ks| - 1]);
    assert rest == keys;
    assert ClearRun(mode, rest, c, mid) && ClearStep(mode, last, mid, c');
  }

  lemma WeakerItself(c: Cache)
    ensures Weaker(c, c)
  {}

  lemma StillWeaker(mid: Cache, key: string, c: Cache, c': Cache)
    requires Weaker(mid, c) && Weaker(c', mid - {key})
    ensures Weaker(c', c) && key !in c' && forall k :: k !in mid ==> k !in c'
  {}

  lemma {:induction false} ClearRunClears(mode: Mode, keys: seq<string>, c: Cache, c': Cache)
    requires ClearRun(mode, keys, c, c')
    ensures Weaker(c', c) && forall k :: k in keys ==> k !in c'
  {
    hide Persist, Weaker;
    if keys == [] {
      WeakerItself(c);
    } else {
      var n := |keys| - 1;
      var mid :| ClearRun(mode, keys[..n], c, mid) && ClearStep(mode, keys[n], mid, c');
      ClearRunClears(mode, keys[..n], c, mid);
      PersistWeakens(mode, mid - {keys[n]}, c');
      StillWeaker(mid, keys[n], c, c');
      assert keys == keys[..n] + [keys[n]];
    }
  }

  /** After a write that is sent nothing it touches is left in the cache, and nothing new is. */
  lemma WriteClears(mode: Mode, mk: Option<string>, ck: Option<Option<string>>, c: Cache, c': Cache)
    requires WriteStep(mode, mk, ck, c, c', true)
    ensures Weaker(c', c) && forall k :: k in c' ==> !Touched(mk, ck, k)
  {
    var keys :| Collected(keys, mk, ck, c) && ClearRun(mode, keys, c, c');
    ClearRunClears(mode, keys, c, c');
  }

  /** No text that the write makes the mirror hold exceeds the quota. */
  ghost predicate Roomy(mode: Mode, mk: Option<string>, ck: Option<Option<string>>, c: Cache) {
    mode.Off?
    || (mode.Quota?
        && forall gone: set<string> | (forall k :: k in gone ==> Touched(mk, ck, k)) :: mode.fits(c - gone))
  }

  /** The cache without what a write touches. */
  function Untouched(mk: Option<string>, ck: Option<Option<string>>, c: Cache): Cache {
    map k | k in c && !Touched(mk, ck, k) :: c[k]
  }

  lemma {:induction false} SeqOf(s: set<string>) returns (keys: seq<string>)
    ensures forall k :: k in keys <==> k in s
  {
    if s == {} {
      keys := [];
    } else {
      var k :| k in s;
      var rest := SeqOf(s - {k});
      keys := [k] + rest;
    }
  }

  lemma NeverEvicts(mode: Mode, mk: Option<string>, ck: Option<Option<string>>, c: Cache, gone: set<string>)
    requires Roomy(mode, mk, ck, c) && forall k :: k in gone ==> Touched(mk, ck, k)
    ensures Persist(mode, c - gone, c - gone)
  {}

  lemma OneMoreGone(c: Cache, rest: seq<string>, last: string)
    ensures (c - set k | k in rest) - {last} == c - set k | k in rest + [last]
  {
    assert (set k | k in rest + [last]) == (set k | k in rest) + {last};
  }

  lemma {:induction false} ClearRunAll(mode: Mode, mk: Option<string>, ck: Option<Option<string>>, c: Cache,
                                       keys: seq<string>)
    requires Roomy(mode, mk, ck, c) && forall k :: k in keys ==> Touched(mk, ck, k)
    ensures ClearRun(mode, keys, c, c - set k | k in keys)
  {
    if keys == [] {
      assert c - (set k | k in keys) == c;
    } else {
      hide Persist, Touched, Roomy;
      var n := |keys| - 1;
      var (rest, last) := (keys[..n], keys[n]);
      assert keys == rest + [last];
      ClearRunAll(mode, mk, ck, c, rest);
      var mid := c - set k | k in rest;
      OneMoreGone(c, rest, last);
      NeverEvicts(mode, mk, ck, c, set k | k in keys);
      assert ClearStep(mode, last, mid, mid - {last});
    }
  }

  /** With room, a write may leave everything it does not touch. */
  lemma WriteMayLeave(mode: Mode, mk: Option<string>, ck: Option<Option<string>>, c: Cache)
    requires Roomy(mode, mk, ck, c)
    ensures WriteStep(mode, mk, ck, c, Untouched(mk, ck, c), true)
  {
    hide Touched, Roomy, ClearRun;
    var gone := set k | k in c && Touched(mk, ck, k);
    var keys := SeqOf(gone);
    ClearRunAll(mode, mk, ck, c, keys);
    assert c - (set k | k in keys) == Untouched(mk, ck, c);
    assert Collected(keys, mk, ck, c);
    RoomyWrites(mode, mk, ck, c);
  }

  lemma RoomyWrites(mode: Mode, mk: Option<string>, ck: Option<Option<string>>, c: Cache)
    requires Roomy(mode, mk, ck, c)
    ensures !mode.Broken?
  {}

  /** Every page of a collection fetched from the collection's own url is among the keys that a
      write to one of its models touches. */
  lemma PagesAreTouched(url: Option<string>, data: Option<string>, mk: Option<string>)
    requires GetCacheKey(url, None, data).Some?
    ensures Touched(mk, Some(GetCacheKey(url, None, None)), GetCacheKey(url, None, data).value)
  {
    var u := url.value;
    assert data.Some? ==> u + "?" <= u + "?" + data.value;
  }

  /** What fetch serves without a network call. */
  function Served(c: Cache, key: Option<string>, o: Opts, now: int): Option<Body> {
    var data := Lookup(c, Name(key));
    if data.Entry? && !(data.expires.Truthy() && data.expires.time < now) && o.Wanted() && data.value.Body?
    then Some(data.value) else None
  }

  // ---- coherence with the server -------------------------------------------

  /** The cache, and what the server answers for each key. */
  datatype World = World(cache: Cache, server: string -> Body)

  ghost predicate Coherent(w: World) {
    forall k :: Lookup(w.cache, k).Entry? ==> Lookup(w.cache, k).value == w.server(k)
  }

  /** One call, finished before the next starts: a fetch answered by the cache or by the
      server (which may fail), a create/update/patch/delete, a clearing, an eviction. */
  datatype Action =
    | Fetch(key: Option<string>, opts: Opts, now: int, succeeds: bool, later: int)
    | Write(modelKey: Option<string>, collectionKey: Option<Option<string>>)
    | Clear(key: Option<string>)
    | Evict

  ghost predicate SameServer(w: World, w': World) {
    forall k :: w'.server(k) == w.server(k)
  }

  ghost predicate Step(mode: Mode, w: World, a: Action, w': World) {
    match a
    case Fetch(key, o, now, succeeds, later) =>
      SameServer(w, w')
      && (if (Served(w.cache, key, o, now).None? || o.prefill) && succeeds
          then StoreStep(mode, key, o, w.server(Name(key)), later, w.cache, w'.cache)
          else w'.cache == w.cache)
    case Write(mk, ck) =>
      (WriteStep(mode, mk, ck, w.cache, w'.cache, true)
       && forall k :: !Touched(mk, ck, k) ==> w'.server(k) == w.server(k))
      || (WriteStep(mode, mk, ck, w.cache, w'.cache, false) && SameServer(w, w'))
    case Clear(key) => SameServer(w, w') && ClearStep(mode, Name(key), w.cache, w'.cache)
    case Evict => SameServer(w, w') && exists mid :: EvictRound(w.cache, mid) && Persist(mode, mid, w'.cache)
  }

  lemma StoredValue(o: Opts, attrs: Body, now: int)
    ensures NewEntry(o, attrs, now).Entry? && NewEntry(o, attrs, now).value == attrs
  {}

  lemma StepCoherent(mode: Mode, w: World, a: Action, w': World)
    requires Coherent(w) && Step(mode, w, a, w')
    ensures Coherent(w')
  {
    hide EvictRun, EvictRound, Touched, ClearRun, NewEntry;
    match a
    case Fetch(key, o, now, succeeds, later) =>
      if w'.cache != w.cache {
        StoredValue(o, w.server(Name(key)), later);
        PersistWeakens(mode, w.cache[key.value := NewEntry(o, w.server(Name(key)), later)], w'.cache);
      }
    case Write(mk, ck) =>
      if WriteStep(mode, mk, ck, w.cache, w'.cache, true) {
        WriteClears(mode, mk, ck, w.cache, w'.cache);
      }
    case Clear(key) => PersistWeakens(mode, w.cache - {Name(key)}, w'.cache);
    case Evict =>
      var mid :| EvictRound(w.cache, mid) && Persist(mode, mid, w'.cache);
      RoundShrinks(w.cache, mid);
      PersistWeakens(mode, mid, w'.cache);
  }

  ghost predicate Run(mode: Mode, worlds: seq<World>, actions: seq<Action>) {
    |worlds| == |actions| + 1
    && forall i | 0 <= i < |actions| :: Step(mode, worlds[i], actions[i], worlds[i + 1])
  }

  /** Over every sequential run whose writes change the server only at the keys they touch,
      every readable entry equals what the server answers. */
  lemma {:induction false} RunCoherent(mode: Mode, worlds: seq<World>, actions: seq<Action>, n: nat)
    requires Run(mode, worlds, actions) && Coherent(worlds[0]) && n < |worlds|
    ensures Coherent(worlds[n])
  {
    if n > 0 {
      RunCoherent(mode, worlds, actions, n - 1);
      StepCoherent(mode, worlds[n - 1], actions[n - 1], worlds[n]);
    }
  }

  /** What the cache holds and the write does not touch, the server answers as before. */
  ghost predicate UntouchedKept(mk: Option<string>, ck: Option<Option<string>>, c: Cache,
                                before: string -> Body, after: string -> Body) {
    forall k :: Lookup(c, k).Entry? && !Touched(mk, ck, k) ==> after(k) == before(k)
  }

  /** With no assumption on what a write changes: it leaves a coherent cache, however the mirror
      evicts, if the server changes nothing that is cached and not touched; and, when nothing
      need be evicted, only if. */
  lemma WriteCoherentIff(mode: Mode, mk: Option<string>, ck: Option<Option<string>>, c: Cache,
                         before: string -> Body, after: string -> Body)
    requires Coherent(World(c, before))
    ensures UntouchedKept(mk, ck, c, before, after) ==>
      forall c' | WriteStep(mode, mk, ck, c, c', true) :: Coherent(World(c', after))
    ensures Roomy(mode, mk, ck, c) ==>
      ((forall c' | WriteStep(mode, mk, ck, c, c', true) :: Coherent(World(c', after)))
       <==> UntouchedKept(mk, ck, c, before, after))
  {
    hide Touched, ClearRun, EvictRun, Roomy, WriteStep;
    forall c' | WriteStep(mode, mk, ck, c, c', true) && UntouchedKept(mk, ck, c, before, after)
      ensures Coherent(World(c', after))
    {
      WriteClears(mode, mk, ck, c, c');
      forall k | Lookup(c', k).Entry? ensures Lookup(c', k).value == after(k) {
        assert Lookup(World(c, before).cache, k) == Lookup(c', k);
      }
    }
    if Roomy(mode, mk, ck, c) {
      WriteMayLeave(mode, mk, ck, c);
      var left := Untouched(mk, ck, c);
      if Coherent(World(left, after)) {
        forall k | Lookup(c, k).Entry? && !Touched(mk, ck, k) ensures after(k) == before(k) {
          assert Lookup(World(left, after).cache, k) == Lookup(World(c, before).cache, k);
        }
      }
    }
  }

  // ---- served values, over any interleaving --------------------------------

  /** What happened to the entries, in order. */
  datatype Event = Put(key: string, slot: Slot) | Drop(key: string) | Nullify(key: string)

  function Apply(c: Cache, e: Event): Cache {
    match e
    case Put(k, s) => c[k := s]
    case Drop(k) => c - {k}
    case Nullify(k) => c[k := Null]
  }

  function Replay(log: seq<Event>): Cache {
    if log == [] then map[] else Apply(Replay(log[..|log| - 1]), log[|log| - 1])
  }

  lemma ReplaySnoc(log: seq<Event>, e: Event)
    ensures Replay(log + [e]) == Apply(Replay(log), e)
  {
    assert (log + [e])[..|log|] == log;
  }

  lemma ReplayTwice(log: seq<Event>, e1: Event, e2: Event)
    ensures Replay(log + [e1]) == Apply(Replay(log), e1)
    ensures Replay(log + [e1] + [e2]) == Apply(Replay(log + [e1]), e2)
    ensures !e1.Put? && !e2.Put? ==> Quiet(log, log + [e1] + [e2])
  {
    assert (log + [e1])[..|log|] == log;
    assert (log + [e1] + [e2])[..|log| + 1] == log + [e1];
  }

  /** Every cache has a history. */
  lemma {:induction false} HistoryOf(c: Cache) returns (log: seq<Event>)
    ensures Replay(log) == c
  {
    if c == map[] {
      log := [];
    } else {
      var k :| k in c;
      var rest := HistoryOf(c - {k});
      log := rest + [Put(k, c[k])];
      assert log[..|log| - 1] == rest;
      assert (c - {k})[k := c[k]] == c;
    }
  }

  /** The log grew without storing anything. */
  ghost predicate Quiet(log: seq<Event>, log': seq<Event>) {
    log <= log' && forall i | |log| <= i < |log'| :: !log'[i].Put?
  }

  lemma QuietTransitive(a: seq<Event>, b: seq<Event>, c: seq<Event>)
    requires Quiet(a, b) && Quiet(b, c)
    ensures Quiet(a, c)
  {}

  /** The last thing stored for k, with no clearing or eviction of k since. */
  ghost predicate LastStored(log: seq<Event>, k: string, s: Slot) {
    exists i :: 0 <= i < |log| && log[i] == Put(k, s) && forall j | i < j < |log| :: log[j].key != k
  }

  lemma {:induction false} LookupIsLastStored(log: seq<Event>, k: string, s: Slot)
    requires s.Entry?
    ensures Lookup(Replay(log), k) == s <==> LastStored(log, k, s)
  {
    if log != [] {
      LookupIsLastStored(log[..|log| - 1], k, s);
      LastStoredStep(log, k, s);
    }
  }

  lemma LastStoredStep(log: seq<Event>, k: string, s: Slot)
    requires log != []
    ensures LastStored(log, k, s) <==>
            if log[|log| - 1].key == k then log[|log| - 1] == Put(k, s) else LastStored(log[..|log| - 1], k, s)
  {
    var n := |log| - 1;
    assert log == log[..n] + [log[n]];
    hide LastStored;
    LastStoredSnoc(log[..n], log[n], k, s);
  }

  lemma LastStoredSnoc(log: seq<Event>, e: Event, k: string, s: Slot)
    ensures LastStored(log + [e], k, s) <==> if e.key == k then e == Put(k, s) else LastStored(log, k, s)
  {
    var all := log + [e];
    if LastStored(all, k, s) {
      var i :| 0 <= i < |all| && all[i] == Put(k, s) && forall j | i < j < |all| :: all[j].key != k;
      assert i < |log| ==> all[|log|].key != k && log[i] == Put(k, s);
      assert forall j | 0 <= j < |log| :: log[j] == all[j];
    }
    if e == Put(k, s) {
      assert all[|log|] == Put(k, s);
    }
    if e.key != k && LastStored(log, k, s) {
      var i :| 0 <= i < |log| && log[i] == Put(k, s) && forall j | i < j < |log| :: log[j].key != k;
      assert all[i] == Put(k, s);
    }
  }

  /** A value is served without a network call exactly when caching is wanted and it is the
      last one stored under the key, not cleared or evicted since, and not expired. */
  lemma ServedIff(log: seq<Event>, key: Option<string>, o: Opts, now: int, b: Body)
    ensures Served(Replay(log), key, o, now) == Some(b)
       <==> (o.cache == Some(true) || o.prefill) && b.Body?
            && exists x: Expiry :: LastStored(log, Name(key), Entry(x, b))
                                   && (x == Never || x.time == 0 || now <= x.time)
  {
    var data := Lookup(Replay(log), Name(key));
    if data.Entry? {
      LookupIsLastStored(log, Name(key), data);
    }
    forall x: Expiry ensures LastStored(log, Name(key), Entry(x, b)) <==> data == Entry(x, b) {
      LookupIsLastStored(log, Name(key), Entry(x, b));
    }
  }

  // ---- the cache object ----------------------------------------------------

  const STORAGE_KEY := "backboneCache"

  /** JSON.stringify and JSON.parse on caches. */
  datatype Codec = Codec(stringify: Cache -> string, parse: string -> Cache) {
    ghost predicate Sound() {
      (forall c :: stringify(c) != "" && parse(stringify(c)) == c) && parse("{}") == map[]
    }
  }

  class FetchCache {
    var cache: Cache
    const local: LocalStorage
    const codec: Codec
    const enabled: bool
    ghost var log: seq<Event>

    function WriteMode(): Mode {
      if !enabled then Off
      else if local.failure.Some? then Broken(local.failure.value)
      else Quota((c: Cache) => local.fits(codec.stringify(c)))
    }

    /** The storage can hold the empty cache, and its only other write error is not the quota's. */
    ghost predicate Usable() {
      codec.Sound() && local.failure != Some(QUOTA_EXCEEDED) && local.fits(codec.stringify(map[]))
    }

    /** The text in storage decodes to the in-memory cache. */
    ghost predicate Mirrored()
      reads this, local
    {
      Persisted() == cache
    }

    function Persisted(): Cache
      reads local
    {
      if STORAGE_KEY in local.items && local.items[STORAGE_KEY] != "" then codec.parse(local.items[STORAGE_KEY])
      else map[]
    }

    /** Every reachable state: the cache is what its history makes it, and the mirror agrees. */
    ghost predicate Valid()
      reads this, local
    {
      Usable() && cache == Replay(log) && (WriteMode().Quota? ==> Mirrored())
    }

    /** Loading the script: the cache is primed from the mirror. What an earlier page left there
        counts as stored. */
    constructor (local: LocalStorage, codec: Codec, enabled: bool)
      requires codec.Sound() && local.failure != Some(QUOTA_EXCEEDED) && local.fits(codec.stringify(map[]))
      ensures Valid() && cache == if enabled then Persisted() else map[]
      ensures this.local == local && this.codec == codec && this.enabled == enabled
    {
      var primed: Cache := map[];
      if enabled && STORAGE_KEY in local.items && local.items[STORAGE_KEY] != "" {
        primed := codec.parse(local.items[STORAGE_KEY]);
      }
      ghost var history := HistoryOf(primed);
      cache := primed;
      this.local := local;
      this.codec := codec;
      this.enabled := enabled;
      log := history;
    }

    method Prioritize() returns (key: Option<string>)
      ensures Prioritized(cache, key)
    {
      if cache == map[] {
        return None;
      }
      var first :| first in cache;
      if Consistent(cache) {
        var rest := cache.Keys - {first};
        while rest != {}
          invariant first in cache && rest <= cache.Keys
          invariant forall k | k in cache && k !in rest :: PriorityFn(cache[first], cache[k]).value <= 0
        {
          var k :| k in rest;
          if PriorityFn(cache[k], cache[first]).value < 0 {
            first := k;
          }
          rest := rest - {k};
        }
      }
      return Some(first);
    }

    /** The two statements of `_deleteCacheWithPriority` that change the cache. */
    method RemoveOne()
      requires cache == Replay(log)
      modifies this`cache, this`log
      ensures EvictRound(old(cache), cache)
      ensures |cache| == if old(cache) == map[] then 0 else |old(cache)| - 1
      ensures cache == Replay(log) && Quiet(old(log), log)
    {
      hide Consistent, PriorityFn, Prioritized, Lookup, EvictRound, Replay;
      ghost var before := cache;
      var key1 := Prioritize();
      cache := cache[Name(key1) := Null];
      log := log + [Nullify(Name(key1))];
      var key2 := Prioritize();
      cache := cache - {Name(key2)};
      log := log + [Drop(Name(key2))];
      ReplayTwice(old(log), Nullify(Name(key1)), Drop(Name(key2)));
      RoundIs(before, key1, key2);
      RoundShrinks(before, cache);
    }

    method DeleteCacheWithPriority() returns (error: Option<int>)
      requires Usable() && cache == Replay(log)
      modifies this`cache, this`log, local
      ensures Valid() && (WriteMode().Broken? <==> error.Some?)
      ensures exists mid :: EvictRound(old(cache), mid) && Persist(WriteMode(), mid, cache)
      ensures Quiet(old(log), log)
      ensures local.items - {STORAGE_KEY} == old(local.items) - {STORAGE_KEY}
      ensures !WriteMode().Quota? ==> local.items == old(local.items)
      decreases |cache|, 2
    {
      hide EvictRound, EvictRun, Replay;
      RemoveOne();
      ghost var mid, logged := cache, log;
      error := SetLocalStorage();
      QuietTransitive(old(log), logged, log);
      assert EvictRound(old(cache), mid) && Persist(WriteMode(), mid, cache);
    }

    method SetLocalStorage() returns (error: Option<int>)
      requires Usable() && cache == Replay(log)
      modifies this`cache, this`log, local
      ensures Valid() && Persist(WriteMode(), old(cache), cache)
      ensures WriteMode().Broken? <==> error.Some?
      ensures Quiet(old(log), log)
      ensures local.items - {STORAGE_KEY} == old(local.items) - {STORAGE_KEY}
      ensures !WriteMode().Quota? ==> local.items == old(local.items)
      decreases if WriteMode().Quota? && !WriteMode().fits(cache) then |cache| else 0,
                if WriteMode().Quota? && !WriteMode().fits(cache) then 3 else 0
    {
      hide EvictRound, Replay;
      if !enabled {
        return None;
      }
      error := local.SetItem(STORAGE_KEY, codec.stringify(cache));
      if error == Some(QUOTA_EXCEEDED) {
        assert !WriteMode().fits(cache);
        ghost var before := cache;
        hide EvictRun;
        error := DeleteCacheWithPriority();
        ghost var mid :| EvictRound(before, mid) && Persist(WriteMode(), mid, cache);
        FirstRound(WriteMode().fits, before, mid, cache);
      }
    }

    /** An entry stored, and the mirror written. */
    method StoreEntry(key: string, slot: Slot) returns (error: Option<int>)
      requires Valid()
      modifies this`cache, this`log, local
      ensures Valid() && Persist(WriteMode(), old(cache)[key := slot], cache)
      ensures error.Some? <==> WriteMode().Broken?
      ensures Quiet(old(log) + [Put(key, slot)], log)
    {
      hide Persist, Replay;
      cache := cache[key := slot];
      log := log + [Put(key, slot)];
      ReplaySnoc(old(log), Put(key, slot));
      error := SetLocalStorage();
    }

    method SetCache(key: Option<string>, o: Opts, attrs: Body, now: int) returns (error: Option<int>)
      requires Valid()
      modifies this`cache, this`log, local
      ensures Valid() && StoreStep(WriteMode(), key, o, attrs, now, old(cache), cache)
      ensures error.Some? <==> Stores(key, o) && WriteMode().Broken?
      ensures if Stores(key, o)
              then Quiet(old(log) + [Put(key.value, NewEntry(o, attrs, now))], log)
              else log == old(log)
      ensures key in {None, Some("")} || o.cache == Some(false) || (o.cache == None && !o.prefill) ==>
        cache == old(cache) && log == old(log) && error == None
    {
      error := None;
      if key.None? || key.value == "" {
        return;
      }
      if o.cache == Some(false) {
        return;
      }
      if !(o.cache == Some(true) || o.prefill) {
        return;
      }
      var expires := Never;
      if !o.expires.Forever? {
        expires := At(now + (if o.expires.Seconds? && o.expires.n != 0 then o.expires.n else 5 * 60) * 1000);
      }
      hide Persist;
      error := StoreEntry(key.value, Entry(expires, attrs));
    }

    method ClearItem(key: string) returns (error: Option<int>)
      requires Valid()
      modifies this`cache, this`log, local
      ensures Valid() && ClearStep(WriteMode(), key, old(cache), cache)
      ensures WriteMode().Broken? <==> error.Some?
      ensures Quiet(old(log), log)
    {
      cache := cache - {key};
      log := log + [Drop(key)];
      assert log[..|log| - 1] == old(log);
      error := SetLocalStorage();
    }

    /** The keys that a write to a model clears. */
    method CollectKeys(modelKey: Option<string>, collectionKey: Option<Option<string>>) returns (keys: seq<string>)
      ensures Collected(keys, modelKey, collectionKey, cache) && keys != [] && keys[0] == Name(modelKey)
    {
      keys := [Name(modelKey)];
      if collectionKey.Some? {
        var name := Name(collectionKey.value);
        keys := keys + [name];
        var rest := cache.Keys;
        while rest != {}
          invariant keys != [] && keys[0] == Name(modelKey) && name in keys
          invariant rest <= cache.Keys && forall k :: k in keys ==> Touched(modelKey, collectionKey, k)
          invariant forall k | k in cache && k !in rest && Contains(k, name + "?") :: k in keys
        {
          var k :| k in rest;
          if Contains(k, name + "?") {
            keys := keys + [k];
          }
          rest := rest - {k};
        }
      }
    }

    /** `Model.sync`: a read leaves the cache alone; any other method clears first, and is sent
        only if no clearing throws. */
    method Sync(read: bool, modelKey: Option<string>, collectionKey: Option<Option<string>>) returns (sent: bool)
      requires Valid()
      modifies this`cache, this`log, local
      ensures Valid() && Quiet(old(log), log)
      ensures read ==> sent && cache == old(cache) && log == old(log)
      ensures !read ==> WriteStep(WriteMode(), modelKey, collectionKey, old(cache), cache, sent)
      ensures !read && !sent ==> WriteMode().Broken? && cache == old(cache) - {Name(modelKey)}
    {
      if read {
        return true;
      }
      hide EvictRun, Touched, Contains, Replay;
      var keys := CollectKeys(modelKey, collectionKey);
      for i := 0 to |keys|
        invariant Valid() && Quiet(old(log), log)
        invariant i > 0 ==> !WriteMode().Broken?
        invariant ClearRun(WriteMode(), keys[..i], old(cache), cache)
        invariant i == 0 ==> cache == old(cache)
      {
        ghost var before, logged := cache, log;
        var error := ClearItem(keys[i]);
        QuietTransitive(old(log), logged, log);
        if error.Some? {
          return false;
        }
        ClearRunSnoc(WriteMode(), keys[..i], keys[i], old(cache), before, cache);
        assert keys[..i + 1] == keys[..i] + [keys[i]];
      }
      assert keys[..|keys|] == keys;
      return true;
    }

    /** The decision that Model.fetch and Collection.fetch make: what is served from the cache,
        and whether the network is asked (whose response goes to SetCache whenever it arrives). */
    method Fetch(key: Option<string>, o: Opts, now: int) returns (served: Option<Body>, network: bool)
      requires Valid()
      ensures network <==> served.None? || o.prefill
      ensures served == Served(cache, key, o, now)
      ensures served.Some? ==> o.cache == Some(true) || o.prefill
      ensures served.Some? ==> exists x: Expiry ::
        LastStored(log, Name(key), Entry(x, served.value)) && (x == Never || x.time == 0 || now <= x.time)
    {
      var data := Lookup(cache, Name(key));
      var expired, attributes := false, Falsy("false");
      if data.Entry? {
        expired := data.expires.Truthy() && data.expires.time < now;
        attributes := data.value;
      }
      served := None;
      if !expired && o.Wanted() && attributes.Body? {
        served := Some(attributes);
        ServedIff(log, key, o, now, attributes);
        if !o.prefill {
          return served, false;
        }
      }
      return served, true;
    }

    /** `getLocalStorage` on a page load: the cache comes back as it was, unless it could not be
        written. */
    method GetLocalStorage()
      requires Valid()
      modifies this`cache
      ensures cache == if enabled then Persisted() else old(cache)
      ensures !WriteMode().Broken? ==> Valid() && cache == old(cache)
    {
      if !enabled {
        return;
      }
      cache := Persisted();
    }
  }
}
