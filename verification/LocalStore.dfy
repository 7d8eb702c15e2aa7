/** backbone.localStorage.js: an id index, stored comma-joined under the store's name, beside
    one item per id. */
module LocalStore {
  import opened Text
  import opened Wrappers
  import opened WebStorage

  /** A model as JSON.stringify sees it; a missing id is taken as the empty one. */
  datatype Doc = Doc(id: string, body: string)

  /** JSON.stringify and JSON.parse on models: parsing undoes stringifying and no model
      stringifies to the empty text. */
  datatype Codec = Codec(stringify: Doc -> string, parse: string -> Doc) {
    ghost predicate Sound() {
      forall d :: stringify(d) != "" && parse(stringify(d)) == d
    }
  }

  /** What a store is made of: all of localStorage, and the in-memory index. */
  datatype Shelf = Shelf(items: map<string, string>, records: seq<string>)

  // ---- the operations on values --------------------------------------------

  function ItemKey(name: string, id: string): string { name + "-" + id }

  /** The constructor's reading of the index. */
  function LoadIndex(name: string, items: map<string, string>): seq<string> {
    if name in items && items[name] != "" then Split(items[name], ',') else []
  }

  /** Writing the index; false when storage refuses its text. */
  function Saved(name: string, ok: string -> bool, sh: Shelf): (Shelf, bool) {
    var index := Join(sh.records, ',');
    if ok(index) then (sh.(items := sh.items[name := index]), true) else (sh, false)
  }

  /** Writing an item, then the index; a refused text ends it there. */
  function Put(name: string, ok: string -> bool, sh: Shelf, key: string, text: string, records: seq<string>)
    : (Shelf, bool)
  {
    if ok(text) then Saved(name, ok, Shelf(sh.items[key := text], records)) else (sh, false)
  }

  function Created(name: string, codec: Codec, ok: string -> bool, sh: Shelf, doc: Doc): (Shelf, bool) {
    Put(name, ok, sh, ItemKey(name, doc.id), codec.stringify(doc), sh.records + [doc.id])
  }

  function Updated(name: string, codec: Codec, ok: string -> bool, sh: Shelf, doc: Doc): (Shelf, bool) {
    Put(name, ok, sh, ItemKey(name, doc.id), codec.stringify(doc),
        if doc.id in sh.records then sh.records else sh.records + [doc.id])
  }

  /** An update of a model without an id throws, but only after it has written an item. */
  function Strayed(name: string, codec: Codec, ok: string -> bool, sh: Shelf, body: string): Shelf {
    var text := codec.stringify(Doc("", body));
    if ok(text) then sh.(items := sh.items[ItemKey(name, "undefined") := text]) else sh
  }

  function Reject(records: seq<string>, id: string): seq<string> {
    if records == [] then []
    else (if records[0] == id then [] else [records[0]]) + Reject(records[1..], id)
  }

  function Destroyed(name: string, ok: string -> bool, sh: Shelf, id: string): (Shelf, bool) {
    Saved(name, ok, Shelf(sh.items - {ItemKey(name, id)}, Reject(sh.records, id)))
  }

  function Reloaded(name: string, sh: Shelf): Shelf {
    sh.(records := LoadIndex(name, sh.items))
  }

  function Cleared(name: string, sh: Shelf): Shelf {
    Shelf(map k | k in sh.items && k != name && !(name + "-" <= k) :: sh.items[k], [])
  }

  function Find(name: string, codec: Codec, sh: Shelf, id: string): Option<Doc> {
    var key := ItemKey(name, id);
    if key in sh.items && sh.items[key] != "" then Some(codec.parse(sh.items[key])) else None
  }

  /** Every indexed model, absent items compacted away. */
  function FindAll(name: string, codec: Codec, sh: Shelf, ids: seq<string>): seq<Doc> {
    if ids == [] then []
    else
      (match Find(name, codec, sh, ids[0]) case Some(d) => [d] case None => [])
      + FindAll(name, codec, sh, ids[1..])
  }

  /** Whatever the index lists, in its order: a missing item leaves no gap. */
  lemma {:induction false} FindAllConcat(name: string, codec: Codec, sh: Shelf, xs: seq<string>, id: string,
                                         ys: seq<string>)
    ensures FindAll(name, codec, sh, xs + [id] + ys) ==
            FindAll(name, codec, sh, xs)
            + (if Find(name, codec, sh, id).Some? then [Find(name, codec, sh, id).value] else [])
            + FindAll(name, codec, sh, ys)
  {
    hide Find;
    var all := xs + [id] + ys;
    if xs == [] {
      assert all[1..] == ys;
    } else {
      assert all[1..] == xs[1..] + [id] + ys;
      FindAllConcat(name, codec, sh, xs[1..], id, ys);
    }
  }

  // One turn of the loop over the index.
  lemma FindNext(name: string, codec: Codec, sh: Shelf, ids: seq<string>, i: nat, docs: seq<Doc>)
    requires i < |ids|
    ensures var (rest, found) := (FindAll(name, codec, sh, ids[i + 1..]), Find(name, codec, sh, ids[i]));
      docs + FindAll(name, codec, sh, ids[i..]) == (if found.Some? then docs + [found.value] else docs) + rest
  {
    hide Find;
    assert ids[i..][0] == ids[i] && ids[i..][1..] == ids[i + 1..];
    var found := Find(name, codec, sh, ids[i]);
    Assoc(docs, match found case Some(d) => [d] case None => [], FindAll(name, codec, sh, ids[i + 1..]));
  }

  // ---- refinement of a plain map -------------------------------------------

  predicate ValidId(id: string) { id != "" && ',' !in id }

  ghost predicate NoDuplicates(records: seq<string>) {
    forall i, j | 0 <= i < j < |records| :: records[i] != records[j]
  }

  /** The shelf stands for the map m: the index lists m's ids once each, in memory and in
      storage; every id of m has its item, and no other id has one. */
  ghost predicate Refines(name: string, codec: Codec, sh: Shelf, m: map<string, Doc>) {
    && IndexMatches(sh.records, m)
    && ItemsMatch(name, codec, sh.items, m)
    && LoadIndex(name, sh.items) == sh.records
  }

  ghost predicate IndexMatches(records: seq<string>, m: map<string, Doc>) {
    && NoDuplicates(records)
    && (forall id :: id in records <==> id in m)
    && (forall id :: id in m ==> ValidId(id))
  }

  ghost predicate ItemsMatch(name: string, codec: Codec, items: map<string, string>, m: map<string, Doc>) {
    forall id :: if id in m then ItemKey(name, id) in items && items[ItemKey(name, id)] == codec.stringify(m[id])
                 else ItemKey(name, id) !in items
  }

  lemma ItemKeysDistinct(name: string, id: string, id': string)
    ensures ItemKey(name, id) == ItemKey(name, id') ==> id == id'
    ensures ItemKey(name, id) != name
    ensures name + "-" <= ItemKey(name, id)
  {
    assert ItemKey(name, id)[|name| + 1..] == id;
    assert ItemKey(name, id')[|name| + 1..] == id';
  }

  lemma KeysOf(name: string, id: string)
    ensures forall x :: ItemKey(name, x) != name && (ItemKey(name, x) == ItemKey(name, id) ==> x == id)
  {
    forall x ensures ItemKey(name, x) != name && (ItemKey(name, x) == ItemKey(name, id) ==> x == id) {
      ItemKeysDistinct(name, x, id);
    }
  }

  /** Reading the index back gives the same index exactly when no id holds a comma and the
      index is not one empty id. */
  lemma IndexRoundTrip(name: string, items: map<string, string>, records: seq<string>)
    ensures LoadIndex(name, items[name := Join(records, ',')]) == records
       <==> AllFree(records, ',') && records != [""]
  {
    if records != [] {
      SplitJoinIff(records, ',');
      if |records| > 1 {
        assert |Join(records, ',')| >= 1;
      }
    }
  }

  lemma ValidIndex(name: string, items: map<string, string>, records: seq<string>)
    requires forall id :: id in records ==> ValidId(id)
    ensures LoadIndex(name, items[name := Join(records, ',')]) == records
  {
    forall i | 0 <= i < |records| ensures ',' !in records[i] {
      assert records[i] in records;
    }
    if records != [] {
      assert records[0] in records;
    }
    IndexRoundTrip(name, items, records);
  }

  lemma {:induction false} RejectRejects(records: seq<string>, id: string)
    ensures forall x :: x in Reject(records, id) <==> x in records && x != id
    ensures NoDuplicates(records) ==> NoDuplicates(Reject(records, id))
  {
    if records != [] {
      RejectRejects(records[1..], id);
      assert records == [records[0]] + records[1..];
      if NoDuplicates(records) {
        assert NoDuplicates(records[1..]);
        assert records[0] !in records[1..];
      }
    }
  }

  // What create and update leave when nothing is refused.
  function Filed(name: string, codec: Codec, sh: Shelf, doc: Doc, records: seq<string>): Shelf {
    Shelf(sh.items[ItemKey(name, doc.id) := codec.stringify(doc)][name := Join(records, ',')], records)
  }

  lemma PutRefines(name: string, codec: Codec, sh: Shelf, m: map<string, Doc>, doc: Doc, records: seq<string>)
    requires codec.Sound() && Refines(name, codec, sh, m) && ValidId(doc.id)
    requires records == if doc.id in m then sh.records else sh.records + [doc.id]
    ensures Refines(name, codec, Filed(name, codec, sh, doc, records), m[doc.id := doc])
  {
    PutIndex(m, doc, sh.records);
    PutItems(name, codec, sh, m, doc, records);
    ValidIndex(name, sh.items[ItemKey(name, doc.id) := codec.stringify(doc)], records);
  }

  // The index need not be written again when its id was there.
  lemma ItemRefines(name: string, codec: Codec, sh: Shelf, m: map<string, Doc>, key: string, doc: Doc)
    requires Refines(name, codec, sh, m) && key in m
    ensures Refines(name, codec, sh.(items := sh.items[ItemKey(name, key) := codec.stringify(doc)]), m[key := doc])
  {
    hide ItemKey, Split, NoDuplicates;
    KeysOf(name, key);
  }

  lemma PutIndex(m: map<string, Doc>, doc: Doc, records: seq<string>)
    requires IndexMatches(records, m) && ValidId(doc.id)
    ensures IndexMatches(if doc.id in m then records else records + [doc.id], m[doc.id := doc])
  {
    assert forall id :: id in records + [doc.id] <==> id in records || id == doc.id;
  }

  lemma PutItems(name: string, codec: Codec, sh: Shelf, m: map<string, Doc>, doc: Doc, records: seq<string>)
    requires ItemsMatch(name, codec, sh.items, m)
    ensures ItemsMatch(name, codec, Filed(name, codec, sh, doc, records).items, m[doc.id := doc])
  {
    hide ItemKey, Join;
    KeysOf(name, doc.id);
  }

  // What destroy leaves when nothing is refused.
  function Removed(name: string, sh: Shelf, id: string): Shelf {
    var records := Reject(sh.records, id);
    Shelf((sh.items - {ItemKey(name, id)})[name := Join(records, ',')], records)
  }

  lemma DestroyRefines(name: string, codec: Codec, sh: Shelf, m: map<string, Doc>, id: string)
    requires Refines(name, codec, sh, m)
    ensures Refines(name, codec, Removed(name, sh, id), m - {id})
  {
    RejectRejects(sh.records, id);
    DestroyItems(name, codec, sh, m, id);
    assert IndexMatches(Reject(sh.records, id), m - {id});
    ValidIndex(name, sh.items - {ItemKey(name, id)}, Reject(sh.records, id));
  }

  lemma DestroyItems(name: string, codec: Codec, sh: Shelf, m: map<string, Doc>, id: string)
    requires ItemsMatch(name, codec, sh.items, m)
    ensures ItemsMatch(name, codec, Removed(name, sh, id).items, m - {id})
  {
    hide ItemKey, Reject, Join;
    KeysOf(name, id);
  }

  /** What is left keeps its order. */
  lemma {:induction false} RejectConcat(xs: seq<string>, ys: seq<string>, id: string)
    ensures Reject(xs + ys, id) == Reject(xs, id) + Reject(ys, id)
  {
    if xs == [] {
      assert xs + ys == ys;
    } else {
      assert (xs + ys)[1..] == xs[1..] + ys;
      RejectConcat(xs[1..], ys, id);
      Assoc(if xs[0] == id then [] else [xs[0]], Reject(xs[1..], id), Reject(ys, id));
    }
  }

  lemma {:induction false} RejectNothing(records: seq<string>, id: string)
    requires id !in records
    ensures Reject(records, id) == records
  {
    if records != [] {
      RejectNothing(records[1..], id);
      assert records == [records[0]] + records[1..];
    }
  }

  lemma NothingToDestroy(name: string, codec: Codec, ok: string -> bool, sh: Shelf, m: map<string, Doc>, id: string)
    requires Refines(name, codec, sh, m) && id !in m
    ensures !ok(Join(sh.records, ',')) ==> Destroyed(name, ok, sh, id).0 == sh
  {
    hide Split, Join;
    RejectNothing(sh.records, id);
    assert ItemKey(name, id) !in sh.items;
    assert sh.items - {ItemKey(name, id)} == sh.items;
  }

  lemma ClearRefines(name: string, codec: Codec, sh: Shelf)
    ensures Refines(name, codec, Cleared(name, sh), map[])
  {
    forall id ensures name + "-" <= ItemKey(name, id) {
      ItemKeysDistinct(name, id, id);
    }
  }

  /** One call on the store, or a new store object over the same storage. */
  datatype Op =
    | Create(doc: Doc) | Update(doc: Doc) | UpdateUnsaved(body: string) | Destroy(id: string) | Reload | Clear

  /** The calls after which the store still stands for a map: usable ids, an unused one on
      create, and storage that takes a changed index if it took the item. An update of a model
      without an id writes to the id "undefined". */
  predicate Allowed(codec: Codec, ok: string -> bool, records: seq<string>, op: Op) {
    match op
    case Create(doc) =>
      !ok(codec.stringify(doc))
      || (ValidId(doc.id) && doc.id !in records && ok(Join(records + [doc.id], ',')))
    case Update(doc) =>
      !ok(codec.stringify(doc)) || doc.id in records
      || (ValidId(doc.id) && ok(Join(records + [doc.id], ',')))
    case UpdateUnsaved(body) => !ok(codec.stringify(Doc("", body))) || "undefined" in records
    case Destroy(id) => id !in records || ok(Join(Reject(records, id), ','))
    case _ => true
  }

  function Step(name: string, codec: Codec, ok: string -> bool, sh: Shelf, op: Op): Shelf {
    match op
    case Create(doc) => Created(name, codec, ok, sh, doc).0
    case Update(doc) => Updated(name, codec, ok, sh, doc).0
    case UpdateUnsaved(body) => Strayed(name, codec, ok, sh, body)
    case Destroy(id) => Destroyed(name, ok, sh, id).0
    case Reload => Reloaded(name, sh)
    case Clear => Cleared(name, sh)
  }

  /** The same call on the map; one whose item is refused does nothing. */
  function MapStep(codec: Codec, ok: string -> bool, m: map<string, Doc>, op: Op): map<string, Doc> {
    match op
    case Create(doc) => if ok(codec.stringify(doc)) then m[doc.id := doc] else m
    case Update(doc) => if ok(codec.stringify(doc)) then m[doc.id := doc] else m
    case UpdateUnsaved(body) =>
      if ok(codec.stringify(Doc("", body))) then m["undefined" := Doc("", body)] else m
    case Destroy(id) => m - {id}
    case Reload => m
    case Clear => map[]
  }

  function Run(name: string, codec: Codec, ok: string -> bool, sh: Shelf, ops: seq<Op>): Shelf
    decreases |ops|
  {
    if ops == [] then sh else Run(name, codec, ok, Step(name, codec, ok, sh, ops[0]), ops[1..])
  }

  function MapRun(codec: Codec, ok: string -> bool, m: map<string, Doc>, ops: seq<Op>): map<string, Doc>
    decreases |ops|
  {
    if ops == [] then m else MapRun(codec, ok, MapStep(codec, ok, m, ops[0]), ops[1..])
  }

  predicate AllowedRun(name: string, codec: Codec, ok: string -> bool, sh: Shelf, ops: seq<Op>)
    decreases |ops|
  {
    ops == []
    || (Allowed(codec, ok, sh.records, ops[0])
        && AllowedRun(name, codec, ok, Step(name, codec, ok, sh, ops[0]), ops[1..]))
  }

  lemma StepRefines(name: string, codec: Codec, ok: string -> bool, sh: Shelf, m: map<string, Doc>, op: Op)
    requires codec.Sound() && Refines(name, codec, sh, m) && Allowed(codec, ok, sh.records, op)
    ensures Refines(name, codec, Step(name, codec, ok, sh, op), MapStep(codec, ok, m, op))
  {
    hide Split, Join, ItemsMatch, LoadIndex, Reject;
    match op
    case Create(doc) =>
      if ok(codec.stringify(doc)) {
        PutRefines(name, codec, sh, m, doc, sh.records + [doc.id]);
      }
    case Update(doc) =>
      if ok(codec.stringify(doc)) {
        PutRefines(name, codec, sh, m, doc, if doc.id in m then sh.records else sh.records + [doc.id]);
        if doc.id in m {
          ItemRefines(name, codec, sh, m, doc.id, doc);
        }
      }
    case UpdateUnsaved(body) =>
      if ok(codec.stringify(Doc("", body))) {
        ItemRefines(name, codec, sh, m, "undefined", Doc("", body));
      }
    case Destroy(id) =>
      DestroyRefines(name, codec, sh, m, id);
      if id !in m {
        NothingToDestroy(name, codec, ok, sh, m, id);
        RejectNothing(sh.records, id);
        assert m - {id} == m;
      }
    case Reload => ReloadSame(name, codec, sh, m);
    case Clear => ClearRefines(name, codec, sh);
  }

  lemma ReloadSame(name: string, codec: Codec, sh: Shelf, m: map<string, Doc>)
    requires Refines(name, codec, sh, m)
    ensures Reloaded(name, sh) == sh
  {}

  /** Any other call leaves a store that stands for no map at all. */
  lemma StepBreaks(name: string, codec: Codec, ok: string -> bool, sh: Shelf, m: map<string, Doc>, op: Op,
                   m': map<string, Doc>)
    requires Refines(name, codec, sh, m) && !Allowed(codec, ok, sh.records, op)
    ensures !Refines(name, codec, Step(name, codec, ok, sh, op), m')
  {
    hide Split, Join, Refines, Put, Destroyed, ValidId;
    match op
    case Create(doc) => PutBreaks(name, codec, ok, sh, m, doc, m');
    case Update(doc) => PutBreaks(name, codec, ok, sh, m, doc, m');
    case UpdateUnsaved(body) => StrayBreaks(name, codec, sh, codec.stringify(Doc("", body)), m');
    case Destroy(id) => DestroyBreaks(name, codec, ok, sh, m, id, m');
  }

  lemma PutBreaks(name: string, codec: Codec, ok: string -> bool, sh: Shelf, m: map<string, Doc>, doc: Doc,
                  m': map<string, Doc>)
    requires Refines(name, codec, sh, m) && ok(codec.stringify(doc))
    requires !ValidId(doc.id) || doc.id in sh.records || !ok(Join(sh.records + [doc.id], ','))
    ensures var text := codec.stringify(doc);
      !Refines(name, codec, Put(name, ok, sh, ItemKey(name, doc.id), text, sh.records + [doc.id]).0, m')
  {
    hide Split, Join, Refines, ItemKey, ValidId;
    ItemKeysDistinct(name, doc.id, doc.id);
    NewRecord(name, codec, sh, Put(name, ok, sh, ItemKey(name, doc.id), codec.stringify(doc), sh.records + [doc.id]).0,
              m, m', doc.id);
  }

  // An item that no index lists.
  lemma StrayBreaks(name: string, codec: Codec, sh: Shelf, text: string, m': map<string, Doc>)
    requires "undefined" !in sh.records
    ensures !Refines(name, codec, sh.(items := sh.items[ItemKey(name, "undefined") := text]), m')
  {
    hide Split, ItemKey, NoDuplicates;
  }

  // The stored index still lists what memory does not.
  lemma DestroyBreaks(name: string, codec: Codec, ok: string -> bool, sh: Shelf, m: map<string, Doc>, id: string,
                      m': map<string, Doc>)
    requires Refines(name, codec, sh, m) && id in sh.records && !ok(Join(Reject(sh.records, id), ','))
    ensures !Refines(name, codec, Destroyed(name, ok, sh, id).0, m')
  {
    hide Split, Join, ItemKey, ItemsMatch, IndexMatches;
    ItemKeysDistinct(name, id, id);
    RejectRejects(sh.records, id);
    assert id in LoadIndex(name, Destroyed(name, ok, sh, id).0.items);
  }

  // An id that is new to the index in memory, unusable, used twice, or not in the stored index.
  lemma NewRecord(name: string, codec: Codec, sh: Shelf, sh': Shelf, m: map<string, Doc>, m': map<string, Doc>,
                  id: string)
    requires Refines(name, codec, sh, m) && sh'.records == sh.records + [id]
    requires !ValidId(id) || id in sh.records || LoadIndex(name, sh'.items) == LoadIndex(name, sh.items)
    ensures !Refines(name, codec, sh', m')
  {
    hide LoadIndex, ItemsMatch;
    var n := |sh.records|;
    assert sh'.records[n] == id && id in sh'.records;
    if id in sh.records {
      var i :| 0 <= i < n && sh.records[i] == id;
      assert sh'.records[i] == sh'.records[n];
    }
  }

  /** A call leaves a store that stands for a map exactly when it is one of those above. */
  lemma StepRefinesIff(name: string, codec: Codec, ok: string -> bool, sh: Shelf, m: map<string, Doc>, op: Op)
    requires codec.Sound() && Refines(name, codec, sh, m)
    ensures (exists m' :: Refines(name, codec, Step(name, codec, ok, sh, op), m'))
       <==> Allowed(codec, ok, sh.records, op)
  {
    hide Refines, Allowed, Step;
    if Allowed(codec, ok, sh.records, op) {
      StepRefines(name, codec, ok, sh, m, op);
    } else {
      forall m' ensures !Refines(name, codec, Step(name, codec, ok, sh, op), m') {
        StepBreaks(name, codec, ok, sh, m, op, m');
      }
    }
  }

  /** After any sequence of such calls and reloads, on storage that may refuse texts, the store
      stands for the map that the same calls build. */
  lemma {:induction false} RunRefines(name: string, codec: Codec, ok: string -> bool, sh: Shelf, m: map<string, Doc>,
                                      ops: seq<Op>)
    requires codec.Sound() && Refines(name, codec, sh, m) && AllowedRun(name, codec, ok, sh, ops)
    ensures Refines(name, codec, Run(name, codec, ok, sh, ops), MapRun(codec, ok, m, ops))
    decreases |ops|
  {
    if ops != [] {
      StepRefines(name, codec, ok, sh, m, ops[0]);
      RunRefines(name, codec, ok, Step(name, codec, ok, sh, ops[0]), MapStep(codec, ok, m, ops[0]), ops[1..]);
    }
  }

  /** `find` is map lookup and `findAll` lists every value of the map, once, in index order. */
  lemma ReadsAgree(name: string, codec: Codec, sh: Shelf, m: map<string, Doc>)
    requires codec.Sound() && Refines(name, codec, sh, m)
    ensures forall id :: Find(name, codec, sh, id) == if id in m then Some(m[id]) else None
    ensures |FindAll(name, codec, sh, sh.records)| == |sh.records| == |m|
    ensures forall i | 0 <= i < |sh.records| ::
      sh.records[i] in m && FindAll(name, codec, sh, sh.records)[i] == m[sh.records[i]]
  {
    FindAgrees(name, codec, sh, m);
    hide NoDuplicates, FindAll, Find, ItemsMatch, LoadIndex;
    forall i | 0 <= i < |sh.records| ensures sh.records[i] in m {
      assert sh.records[i] in sh.records;
    }
    FindAllLists(name, codec, sh, m, sh.records);
    RecordsCount(sh.records, m.Keys);
  }

  lemma FindAgrees(name: string, codec: Codec, sh: Shelf, m: map<string, Doc>)
    requires codec.Sound() && ItemsMatch(name, codec, sh.items, m)
    ensures forall id :: Find(name, codec, sh, id) == if id in m then Some(m[id]) else None
  {
    hide ItemKey;
  }

  lemma {:induction false} FindAllLists(name: string, codec: Codec, sh: Shelf, m: map<string, Doc>, ids: seq<string>)
    requires codec.Sound() && Refines(name, codec, sh, m)
    requires forall i | 0 <= i < |ids| :: ids[i] in m
    ensures |FindAll(name, codec, sh, ids)| == |ids|
    ensures forall i | 0 <= i < |ids| :: FindAll(name, codec, sh, ids)[i] == m[ids[i]]
  {
    if ids != [] {
      FindAllLists(name, codec, sh, m, ids[1..]);
      assert ids[0] in m;
    }
  }

  lemma {:induction false} RecordsCount(records: seq<string>, keys: set<string>)
    requires NoDuplicates(records) && forall id :: id in records <==> id in keys
    ensures |records| == |keys|
  {
    if records == [] {
      assert keys == {};
    } else {
      var rest := records[1..];
      assert records == [records[0]] + rest;
      assert records[0] !in rest;
      assert NoDuplicates(rest);
      RecordsCount(rest, keys - {records[0]});
    }
  }

  /** Creating keeps the index free of duplicates exactly when the id is not indexed yet (or its
      item is refused); updating always does. */
  lemma CreateNeedsFreshId(name: string, codec: Codec, ok: string -> bool, sh: Shelf, doc: Doc)
    requires NoDuplicates(sh.records)
    ensures NoDuplicates(Created(name, codec, ok, sh, doc).0.records)
       <==> doc.id !in sh.records || !ok(codec.stringify(doc))
    ensures NoDuplicates(Updated(name, codec, ok, sh, doc).0.records)
  {
    var records := sh.records + [doc.id];
    if doc.id in sh.records {
      var i :| 0 <= i < |sh.records| && sh.records[i] == doc.id;
      assert records[i] == records[|sh.records|];
    }
  }

  // ---- two stores over one storage -----------------------------------------

  /** The items of the store named a: its index and everything that begins with its name and a dash. */
  predicate Owns(a: string, key: string) { key == a || a + "-" <= key }

  /** Neither name is the other, nor the other followed by a dash and more. */
  predicate Apart(a: string, b: string) { !Owns(a, b) && !Owns(b, a) }

  lemma SharedItem(a: string, b: string, key: string)
    requires Owns(a, key) && Owns(b, key)
    ensures !Apart(a, b)
  {
    if a + "-" <= key && b + "-" <= key {
      assert a == key[..|a|] && b == key[..|b|];
      if |a| < |b| {
        assert a + "-" == key[..|a| + 1] == b[..|a| + 1];
      } else if |b| < |a| {
        assert b + "-" == key[..|b| + 1] == a[..|b| + 1];
      }
    }
  }

  /** A call on the store a leaves all other items alone. */
  lemma StepFrame(a: string, codec: Codec, ok: string -> bool, sh: Shelf, op: Op, key: string)
    requires !Owns(a, key)
    ensures var items := Step(a, codec, ok, sh, op).items;
      (key in items <==> key in sh.items) && (key in items ==> items[key] == sh.items[key])
  {
    hide Join, Reject, Split, ItemKey;
    forall id ensures ItemKey(a, id) != key && a + "-" <= ItemKey(a, id) {
      ItemKeysDistinct(a, id, id);
    }
  }

  // What a store stands for depends on its own items only.
  lemma OwnItems(b: string, codec: Codec, items: map<string, string>, items': map<string, string>, records: seq<string>,
                 m: map<string, Doc>)
    requires Refines(b, codec, Shelf(items, records), m)
    requires forall key | Owns(b, key) ::
      (key in items' <==> key in items) && (key in items ==> items'[key] == items[key])
    ensures Refines(b, codec, Shelf(items', records), m)
  {
    hide Split, ItemKey, NoDuplicates;
    assert Owns(b, b);
    forall id ensures Owns(b, ItemKey(b, id)) {
      ItemKeysDistinct(b, id, id);
    }
  }

  /** With names apart, no call on the one store changes what the other stands for. */
  lemma OtherKept(a: string, b: string, codec: Codec, ok: string -> bool, sh: Shelf, op: Op, records: seq<string>,
                  m: map<string, Doc>)
    requires Apart(a, b) && Refines(b, codec, Shelf(sh.items, records), m)
    ensures Refines(b, codec, Shelf(Step(a, codec, ok, sh, op).items, records), m)
  {
    hide Step, Refines, Owns;
    var items := Step(a, codec, ok, sh, op).items;
    forall key | Owns(b, key)
      ensures (key in items <==> key in sh.items) && (key in sh.items ==> items[key] == sh.items[key])
    {
      if Owns(a, key) {
        SharedItem(a, b, key);
      } else {
        StepFrame(a, codec, ok, sh, op, key);
      }
    }
    OwnItems(b, codec, sh.items, items, records, m);
  }

  ghost predicate KeepsOther(a: string, b: string, codec: Codec, ok: string -> bool) {
    forall sh: Shelf, op, records, m :: Refines(b, codec, Shelf(sh.items, records), m) ==>
      Refines(b, codec, Shelf(Step(a, codec, ok, sh, op).items, records), m)
  }

  function TakesAll(): string -> bool { (text: string) => true }

  /** Exactly for such names the two stores can share a localStorage: any other name for b lets the
      first model created in store a damage an empty store b. */
  lemma KeepsOtherIff(a: string, b: string, codec: Codec)
    requires codec.Sound()
    ensures KeepsOther(a, b, codec, TakesAll()) <==> Apart(a, b)
  {
    if Apart(a, b) {
      forall sh: Shelf, op, records, m | Refines(b, codec, Shelf(sh.items, records), m)
        ensures Refines(b, codec, Shelf(Step(a, codec, TakesAll(), sh, op).items, records), m)
      {
        OtherKept(a, b, codec, TakesAll(), sh, op, records, m);
      }
    } else {
      var doc := Doc(if a + "-" <= b then b[|a| + 1..] else "x", "");
      Damages(a, b, codec, doc);
    }
  }

  lemma Damages(a: string, b: string, codec: Codec, doc: Doc)
    requires codec.Sound() && !Apart(a, b) && doc.id == if a + "-" <= b then b[|a| + 1..] else "x"
    ensures !KeepsOther(a, b, codec, TakesAll())
  {
    var empty := Shelf(map[], []);
    var items := Step(a, codec, TakesAll(), empty, Create(doc)).items;
    EmptyRefines(b, codec);
    CreateInEmpty(a, codec, doc);
    hide Step, Refines, ItemKey;
    if a + "-" <= b || a == b {
      TakesName(a, b, codec, doc, items);
    } else {
      TakesItem(a, b, codec, items, a[|b| + 1..]);
    }
    assert !Refines(b, codec, Shelf(items, []), map[]);
  }

  lemma EmptyRefines(b: string, codec: Codec)
    ensures Refines(b, codec, Shelf(map[], []), map[])
  {}

  // An item of a's, or its index, under the name of b: b has an index that it did not write.
  lemma TakesName(a: string, b: string, codec: Codec, doc: Doc, items: map<string, string>)
    requires codec.Sound() && (if a + "-" <= b then doc.id == b[|a| + 1..] else a == b && doc.id == "x")
    requires items == map[ItemKey(a, doc.id) := codec.stringify(doc)][a := doc.id]
    ensures !Refines(b, codec, Shelf(items, []), map[])
  {
    ItemKeysDistinct(a, doc.id, doc.id);
    assert a + "-" <= b ==> ItemKey(a, doc.id) == b;
    assert items[b] != "";
  }

  // The index of a is an item of b, for a model that b does not have.
  lemma TakesItem(a: string, b: string, codec: Codec, items: map<string, string>, id: string)
    requires b + "-" <= a && a in items && id == a[|b| + 1..]
    ensures !Refines(b, codec, Shelf(items, []), map[])
  {
    assert ItemKey(b, id) == a;
  }

  lemma CreateInEmpty(a: string, codec: Codec, doc: Doc)
    ensures Step(a, codec, TakesAll(), Shelf(map[], []), Create(doc)).items ==
            map[ItemKey(a, doc.id) := codec.stringify(doc)][a := doc.id]
  {
    assert Join([] + [doc.id], ',') == doc.id;
  }

  // ---- the store object ----------------------------------------------------

  class Model {
    var id: Option<string>
    var body: string

    constructor (id: Option<string>, body: string)
      ensures this.id == id && this.body == body
    {
      this.id := id;
      this.body := body;
    }
  }

  datatype Method = Read | CreateModel | UpdateModel | Delete

  /** What sync hands to its success callback, or, in the last two cases, to its error callback. */
  datatype Response = One(doc: Doc) | Many(docs: seq<Doc>) | Gone | NotFound | Thrown

  class Store {
    const name: string
    const codec: Codec
    const local: LocalStorage
    var records: seq<string>

    ghost predicate Valid() { codec.Sound() }

    ghost function State(): Shelf
      reads this, local
    {
      Shelf(local.items, records)
    }

    /** The texts that storage takes. */
    ghost function Accepts(): string -> bool {
      (text: string) => local.WriteError(text).None?
    }

    /** The item under the name, a dash and the id, the joined index under the name, the rest as it was. */
    ghost predicate Holds(items: map<string, string>, before: map<string, string>, id: string, text: string,
                          index: seq<string>) {
      items == before[name + "-" + id := text][name := Join(index, ',')]
    }

    constructor (name: string, codec: Codec, local: LocalStorage)
      requires codec.Sound()
      ensures Valid() && this.name == name && this.codec == codec && this.local == local
      ensures records == LoadIndex(name, local.items)
    {
      this.name := name;
      this.codec := codec;
      this.local := local;
      records := if name in local.items && local.items[name] != "" then Split(local.items[name], ',') else [];
    }

    /** False when it throws, here and below. */
    method Save() returns (done: bool)
      modifies local
      ensures (State(), done) == Saved(name, Accepts(), old(State()))
    {
      var error := local.SetItem(name, Join(records, ','));
      done := error.None?;
    }

    /** A model without an id gets the fresh guid. */
    method Create(model: Model, guid: string) returns (doc: Option<Doc>)
      requires Valid() && guid != ""
      modifies this`records, local, model`id
      ensures model.id == Some(if old(model.id) in {None, Some("")} then guid else old(model.id).value)
      ensures (State(), doc.Some?) == Created(name, codec, Accepts(), old(State()), Doc(model.id.value, model.body))
      ensures doc.Some? ==> records == old(records) + [model.id.value]
      ensures doc.Some? ==> Holds(local.items, old(local.items), model.id.value, codec.stringify(doc.value), records)
      ensures doc.Some? ==> doc == Some(Doc(model.id.value, model.body))
    {
      if model.id.None? || model.id.value == "" {
        model.id := Some(guid);
      }
      var it := Doc(model.id.value, model.body);
      var error := local.SetItem(ItemKey(name, it.id), codec.stringify(it));
      if error.Some? {
        return None;
      }
      records := records + [it.id];
      var done := Save();
      if !done {
        return None;
      }
      ItemKeysDistinct(name, it.id, it.id);
      doc := FindById(it.id);
    }

    method Update(model: Model) returns (doc: Option<Doc>)
      requires Valid()
      modifies this`records, local
      ensures model.id.Some? ==>
        (State(), doc.Some?) == Updated(name, codec, Accepts(), old(State()), Doc(model.id.value, model.body))
      ensures model.id.None? ==> State() == Strayed(name, codec, Accepts(), old(State()), model.body) && doc == None
      ensures doc.Some? ==>
        model.id.Some? && records == old(records) + if model.id.value in old(records) then [] else [model.id.value]
      ensures doc.Some? ==> Holds(local.items, old(local.items), model.id.value, codec.stringify(doc.value), records)
      ensures doc.Some? ==> doc == Some(Doc(model.id.value, model.body))
    {
      if model.id.None? {
        var _ := local.SetItem(ItemKey(name, "undefined"), codec.stringify(Doc("", model.body)));
        return None;
      }
      var it := Doc(model.id.value, model.body);
      var error := local.SetItem(ItemKey(name, it.id), codec.stringify(it));
      if error.Some? {
        return None;
      }
      if it.id !in records {
        records := records + [it.id];
      }
      var done := Save();
      if !done {
        return None;
      }
      ItemKeysDistinct(name, it.id, it.id);
      doc := FindById(it.id);
    }

    method FindById(id: string) returns (doc: Option<Doc>)
      ensures doc == Find(name, codec, State(), id)
    {
      var key := ItemKey(name, id);
      doc := if key in local.items && local.items[key] != "" then Some(codec.parse(local.items[key])) else None;
    }

    method FindEvery() returns (docs: seq<Doc>)
      ensures docs == FindAll(name, codec, State(), records)
    {
      docs := [];
      for i := 0 to |records|
        invariant docs + FindAll(name, codec, State(), records[i..]) == FindAll(name, codec, State(), records)
      {
        FindNext(name, codec, State(), records, i, docs);
        var doc := FindById(records[i]);
        if doc.Some? {
          docs := docs + [doc.value];
        }
      }
      assert docs + [] == docs;
    }

    /** A model that was never saved is refused. */
    method Destroy(model: Model) returns (resp: Response)
      modifies this`records, local
      ensures model.id.None? ==> resp == NotFound && State() == old(State())
      ensures model.id.Some? ==> resp in {Gone, Thrown}
      ensures model.id.Some? ==>
        (State(), resp.Gone?) == Destroyed(name, Accepts(), old(State()), model.id.value)
    {
      if model.id.None? {
        return NotFound;
      }
      local.items := local.items - {ItemKey(name, model.id.value)};
      records := Reject(records, model.id.value);
      var done := Save();
      resp := if done then Gone else Thrown;
    }

    method ClearAll()
      modifies this`records, local
      ensures State() == Cleared(name, old(State()))
    {
      local.items := local.items - {name};
      local.items := map k | k in local.items && !(name + "-" <= k) :: local.items[k];
      records := [];
    }

    /** `Backbone.localSync`: dispatch, then success unless the response is falsy. */
    method Sync(method_: Method, model: Model, guid: string) returns (resp: Response)
      requires Valid() && guid != ""
      modifies this`records, local, model`id
      ensures method_.Read? ==> State() == old(State()) && model.id == old(model.id)
      ensures method_.Read? && model.id.Some? ==>
        resp == match Find(name, codec, State(), model.id.value) { case Some(d) => One(d) case None => NotFound }
      ensures method_.Read? && model.id.None? ==> resp == Many(FindAll(name, codec, State(), records))
      ensures method_.CreateModel? ==>
        model.id == Some(if old(model.id) in {None, Some("")} then guid else old(model.id).value)
      ensures method_.CreateModel? ==>
        (State(), resp.One?) == Created(name, codec, Accepts(), old(State()), Doc(model.id.value, model.body))
      ensures method_.UpdateModel? && model.id.Some? ==>
        (State(), resp.One?) == Updated(name, codec, Accepts(), old(State()), Doc(model.id.value, model.body))
      ensures method_.UpdateModel? && model.id.None? ==>
        State() == Strayed(name, codec, Accepts(), old(State()), model.body) && resp == Thrown
      ensures method_.CreateModel? || method_.UpdateModel? ==>
        resp == Thrown || (model.id.Some? && resp == One(Doc(model.id.value, model.body)))
      ensures method_.Delete? && model.id.Some? ==> resp in {Gone, Thrown}
      ensures method_.Delete? && model.id.Some? ==>
        (State(), resp.Gone?) == Destroyed(name, Accepts(), old(State()), model.id.value)
      ensures method_.Delete? && model.id.None? ==> resp == NotFound && State() == old(State())
      ensures !method_.CreateModel? ==> model.id == old(model.id)
    {
      match method_
      case Read =>
        if model.id.Some? {
          var doc := FindById(model.id.value);
          resp := if doc.Some? then One(doc.value) else NotFound;
        } else {
          var docs := FindEvery();
          resp := Many(docs);
        }
      case CreateModel =>
        var doc := Create(model, guid);
        resp := if doc.Some? then One(doc.value) else Thrown;
      case UpdateModel =>
        var doc := Update(model);
        resp := if doc.Some? then One(doc.value) else Thrown;
      case Delete =>
        resp := Destroy(model);
    }
  }
}
