/** db_setup.py: schema patches, checked against, applied to and recorded in one history table,
    by runs that may die at any step and be repeated. */
module Patches {
  import opened Text

  /** SQL patches, audit patches and Java patches share the history table. */
  datatype Stream = Sql | Audit | Java

  /** How far a run gets with a patch that is not recorded yet. */
  datatype Fate = Succeeds | DiesBeforeApply | ApplyFails | DiesBeforeRecord | DiesAfterRecord

  /** The rows of x_db_version_h, the patches whose script has run, in order, and, for
      reference, the applications whose run died before recording them. */
  datatype Ledger = Ledger(history: seq<string>, applied: seq<(Stream, string)>, lost: seq<(Stream, string)>)

  const EMPTY := Ledger([], [], [])

  /** `import_db_patches` on one version: the new ledger, and whether the run goes on. */
  function Import(l: Ledger, s: Stream, key: string, fate: Fate): (Ledger, bool) {
    if fate.DiesBeforeApply? then (l, false)
    else if key in l.history then (l, true)
    else if fate.ApplyFails? then (l, false)
    else
      var l1 := l.(applied := l.applied + [(s, key)]);
      if fate.DiesBeforeRecord? then (l1.(lost := l.lost + [(s, key)]), false)
      else (l1.(history := l.history + [key]), fate.Succeeds?)
  }

  function RunPatches(l: Ledger, s: Stream, keys: seq<string>, fates: string -> Fate): (Ledger, bool)
    decreases |keys|
  {
    if keys == [] then (l, true)
    else
      var (l1, alive) := Import(l, s, keys[0], fates(keys[0]));
      if alive then RunPatches(l1, s, keys[1..], fates) else (l1, false)
  }

  /** The history keys of the three streams, in the order the runs take them. */
  datatype Setup = Setup(sql: seq<string>, audit: seq<string>, java: seq<string>) {
    function Keys(s: Stream): seq<string> {
      match s case Sql => sql case Audit => audit case Java => java
    }

    /** No key occurs twice in a stream. */
    ghost predicate Distinct() {
      forall s, i, j | 0 <= i < j < |Keys(s)| :: Keys(s)[i] != Keys(s)[j]
    }

    /** No key occurs in two streams. */
    ghost predicate Disjoint() {
      forall s, t, k | k in Keys(s) && k in Keys(t) :: s == t
    }
  }

  /** One run over one stream: what happens to each patch it comes to. */
  datatype Run = Run(stream: Stream, fates: string -> Fate)

  function RunAll(setup: Setup, runs: seq<Run>): Ledger {
    if runs == [] then EMPTY
    else
      var run := runs[|runs| - 1];
      RunPatches(RunAll(setup, runs[..|runs| - 1]), run.stream, setup.Keys(run.stream), run.fates).0
  }

  ghost function Count(xs: seq<(Stream, string)>, s: Stream, key: string): nat { multiset(xs)[(s, key)] }

  /** A patch has been applied once for each run that died between its application and its
      record, and once more if it is recorded. */
  ghost predicate Accounted(setup: Setup, l: Ledger, s: Stream, key: string) {
    Count(l.applied, s, key) == Count(l.lost, s, key) + if key in setup.Keys(s) && key in l.history then 1 else 0
  }

  /** What holds between any two steps of any runs. */
  ghost predicate Sound(setup: Setup, l: Ledger) {
    && (forall i, j | 0 <= i < j < |l.history| :: l.history[i] != l.history[j])
    && (forall s :: RecordsPrefix(setup.Keys(s), l))
    && (forall s, key :: Accounted(setup, l, s, key))
  }

  /** The recorded keys of a stream are a prefix of its order. */
  ghost predicate RecordsPrefix(keys: seq<string>, l: Ledger) {
    forall i, j | 0 <= i < j < |keys| :: keys[j] in l.history ==> keys[i] in l.history
  }

  lemma ImportSound(setup: Setup, l: Ledger, s: Stream, i: nat, fate: Fate)
    requires setup.Distinct() && setup.Disjoint() && Sound(setup, l)
    requires i < |setup.Keys(s)| && forall j | 0 <= j < i :: setup.Keys(s)[j] in l.history
    ensures Sound(setup, Import(l, s, setup.Keys(s)[i], fate).0)
    ensures Import(l, s, setup.Keys(s)[i], fate).1 ==>
      setup.Keys(s)[i] in Import(l, s, setup.Keys(s)[i], fate).0.history
    ensures l.history <= Import(l, s, setup.Keys(s)[i], fate).0.history
  {
    hide Accounted, RecordsPrefix;
    var key := setup.Keys(s)[i];
    forall t, k ensures Accounted(setup, Import(l, s, key, fate).0, t, k) {
      assert Accounted(setup, l, t, k);
      ImportAccounted(setup, l, s, key, fate, t, k);
    }
    forall t ensures RecordsPrefix(setup.Keys(t), Import(l, s, key, fate).0) {
      assert RecordsPrefix(setup.Keys(t), l);
      ImportPrefix(setup, l, s, i, fate, t);
    }
  }

  lemma ImportAccounted(setup: Setup, l: Ledger, s: Stream, key: string, fate: Fate, t: Stream, k: string)
    requires setup.Disjoint() && key in setup.Keys(s) && Accounted(setup, l, t, k)
    ensures Accounted(setup, Import(l, s, key, fate).0, t, k)
  {
    CountSnoc(l.applied, s, key, t, k);
    CountSnoc(l.lost, s, key, t, k);
    InConcat(k, l.history, [key]);
  }

  lemma ImportPrefix(setup: Setup, l: Ledger, s: Stream, i: nat, fate: Fate, t: Stream)
    requires setup.Distinct() && setup.Disjoint() && i < |setup.Keys(s)|
    requires forall j | 0 <= j < i :: setup.Keys(s)[j] in l.history
    requires RecordsPrefix(setup.Keys(t), l)
    ensures RecordsPrefix(setup.Keys(t), Import(l, s, setup.Keys(s)[i], fate).0)
  {
    var key := setup.Keys(s)[i];
    var l' := Import(l, s, key, fate).0;
    var keys := setup.Keys(t);
    forall a, b | 0 <= a < b < |keys| && keys[b] in l'.history ensures keys[a] in l'.history {
      InConcat(keys[b], l.history, [key]);
      if keys[b] !in l.history {
        assert keys[b] == key && key in keys && key in setup.Keys(s);
        assert t == s && b == i;
      }
    }
  }

  lemma CountSnoc(xs: seq<(Stream, string)>, s: Stream, key: string, t: Stream, k: string)
    ensures Count(xs + [(s, key)], t, k) == Count(xs, t, k) + if (s, key) == (t, k) then 1 else 0
  {
    assert multiset(xs + [(s, key)]) == multiset(xs) + multiset{(s, key)};
  }

  lemma {:induction false} RunSound(setup: Setup, l: Ledger, s: Stream, i: nat, fates: string -> Fate)
    requires setup.Distinct() && setup.Disjoint() && Sound(setup, l)
    requires i <= |setup.Keys(s)| && forall j | 0 <= j < i :: setup.Keys(s)[j] in l.history
    ensures var (l', alive) := RunPatches(l, s, setup.Keys(s)[i..], fates);
      Sound(setup, l') && (alive ==> forall key :: key in setup.Keys(s) ==> key in l'.history)
    decreases |setup.Keys(s)| - i
  {
    hide Sound, Import, Setup.Distinct, Setup.Disjoint;
    var keys := setup.Keys(s);
    if i < |keys| {
      ImportSound(setup, l, s, i, fates(keys[i]));
      assert keys[i..][0] == keys[i] && keys[i..][1..] == keys[i + 1..];
      var (l1, alive) := Import(l, s, keys[i], fates(keys[i]));
      if alive {
        forall j | 0 <= j < i + 1 ensures keys[j] in l1.history {
          if j < i { assert keys[j] in l.history; }
        }
        RunSound(setup, l1, s, i + 1, fates);
      }
    }
  }

  /** Any number of runs over the three streams, in any order, each dying wherever it may, from
      an empty history: recorded patches were applied, form a prefix of their stream's order,
      and the number of times a patch was applied is exactly accounted for. */
  lemma {:induction false} AllRunsSound(setup: Setup, runs: seq<Run>)
    requires setup.Distinct() && setup.Disjoint()
    ensures Sound(setup, RunAll(setup, runs))
  {
    if runs != [] {
      var run := runs[|runs| - 1];
      AllRunsSound(setup, runs[..|runs| - 1]);
      var l := RunAll(setup, runs[..|runs| - 1]);
      RunSound(setup, l, run.stream, 0, run.fates);
      assert setup.Keys(run.stream)[0..] == setup.Keys(run.stream);
    }
  }

  /** The runs over s that were to die between applying the patch and recording it. */
  ghost function Deaths(runs: seq<Run>, s: Stream, key: string): nat {
    if runs == [] then 0
    else
      var run := runs[|runs| - 1];
      Deaths(runs[..|runs| - 1], s, key) + if run.stream == s && run.fates(key) == DiesBeforeRecord then 1 else 0
  }

  lemma {:induction false} LostOnce(l: Ledger, s: Stream, keys: seq<string>, fates: string -> Fate,
                                    t: Stream, key: string)
    ensures Count(RunPatches(l, s, keys, fates).0.lost, t, key) <=
            Count(l.lost, t, key) + if s == t && fates(key) == DiesBeforeRecord then 1 else 0
    decreases |keys|
  {
    if keys != [] {
      var (l1, alive) := Import(l, s, keys[0], fates(keys[0]));
      CountSnoc(l.lost, s, keys[0], t, key);
      if alive {
        LostOnce(l1, s, keys[1..], fates, t, key);
      }
    }
  }

  lemma {:induction false} LostByDeaths(setup: Setup, runs: seq<Run>, s: Stream, key: string)
    ensures Count(RunAll(setup, runs).lost, s, key) <= Deaths(runs, s, key)
  {
    if runs != [] {
      var run := runs[|runs| - 1];
      LostByDeaths(setup, runs[..|runs| - 1], s, key);
      LostOnce(RunAll(setup, runs[..|runs| - 1]), run.stream, setup.Keys(run.stream), run.fates, s, key);
    }
  }

  /** A patch is applied at most once more than there were runs that died between its application
      and its record. */
  lemma AppliedAtMost(setup: Setup, runs: seq<Run>, s: Stream, key: string)
    requires setup.Distinct() && setup.Disjoint()
    ensures Count(RunAll(setup, runs).applied, s, key) <= 1 + Deaths(runs, s, key)
  {
    AllRunsSound(setup, runs);
    LostByDeaths(setup, runs, s, key);
    assert Accounted(setup, RunAll(setup, runs), s, key);
  }

  /** A run that ends normally has recorded every patch of its stream. */
  lemma NormalEndRecordsAll(setup: Setup, runs: seq<Run>, s: Stream, fates: string -> Fate)
    requires setup.Distinct() && setup.Disjoint()
    ensures var (l, alive) := RunPatches(RunAll(setup, runs), s, setup.Keys(s), fates);
      alive ==> forall key :: key in setup.Keys(s) ==>
        key in l.history && Count(l.applied, s, key) == Count(l.lost, s, key) + 1
  {
    hide Import, RunPatches, RecordsPrefix, Setup.Distinct, Setup.Disjoint, RunAll;
    AllRunsSound(setup, runs);
    RunSound(setup, RunAll(setup, runs), s, 0, fates);
    assert setup.Keys(s)[0..] == setup.Keys(s);
    var (l, alive) := RunPatches(RunAll(setup, runs), s, setup.Keys(s), fates);
    if alive {
      forall key | key in setup.Keys(s) ensures Count(l.applied, s, key) == Count(l.lost, s, key) + 1 {
        assert Accounted(setup, l, s, key);
      }
    }
  }

  /** A recorded patch is never applied again, by any run of any stream. */
  lemma {:induction false} RecordedNeverReapplied(l: Ledger, s: Stream, keys: seq<string>, fates: string -> Fate,
                                                  key: string)
    requires key in l.history
    ensures var l' := RunPatches(l, s, keys, fates).0;
      key in l'.history && forall t :: Count(l'.applied, t, key) == Count(l.applied, t, key)
    decreases |keys|
  {
    if keys != [] {
      var (l1, alive) := Import(l, s, keys[0], fates(keys[0]));
      forall t ensures Count(l1.applied, t, key) == Count(l.applied, t, key) {
        CountSnoc(l.applied, s, keys[0], t, key);
      }
      if alive {
        RecordedNeverReapplied(l1, s, keys[1..], fates, key);
      }
    }
  }

  // ---- one history table, three streams ------------------------------------

  /** No run ever skips a patch because another stream recorded its key. */
  ghost predicate NeverSkipsWrongly(setup: Setup) {
    forall runs, s, key :: key in setup.Keys(s) && key in RunAll(setup, runs).history ==>
      (s, key) in RunAll(setup, runs).applied
  }

  lemma {:induction false} RecordedByOwner(l: Ledger, s: Stream, keys: seq<string>, fates: string -> Fate)
    ensures var l' := RunPatches(l, s, keys, fates).0;
      && (forall k :: k in l'.history ==> k in l.history || (k in keys && (s, k) in l'.applied))
      && (forall p :: p in l'.applied ==> p in l.applied || (p.0 == s && p.1 in keys))
      && (forall p :: p in l.applied ==> p in l'.applied)
    decreases |keys|
  {
    if keys != [] {
      var (l1, alive) := Import(l, s, keys[0], fates(keys[0]));
      if alive {
        RecordedByOwner(l1, s, keys[1..], fates);
      }
    }
  }

  lemma {:induction false} HistoryHasOwners(setup: Setup, runs: seq<Run>)
    ensures forall k :: k in RunAll(setup, runs).history ==>
      exists s :: k in setup.Keys(s) && (s, k) in RunAll(setup, runs).applied
  {
    if runs != [] {
      var run := runs[|runs| - 1];
      HistoryHasOwners(setup, runs[..|runs| - 1]);
      RecordedByOwner(RunAll(setup, runs[..|runs| - 1]), run.stream, setup.Keys(run.stream), run.fates);
    }
  }

  /** The keys that are not recorded yet, in order. */
  function Missing(history: seq<string>, keys: seq<string>): seq<string> {
    if keys == [] then []
    else (if keys[0] in history then [] else [keys[0]]) + Missing(history, keys[1..])
  }

  lemma {:induction false} MissingIff(history: seq<string>, keys: seq<string>)
    ensures forall k :: k in Missing(history, keys) <==> k in keys && k !in history
  {
    if keys != [] {
      MissingIff(history, keys[1..]);
      assert keys == [keys[0]] + keys[1..];
    }
  }

  function Tagged(s: Stream, keys: seq<string>): seq<(Stream, string)> {
    seq(|keys|, i requires 0 <= i < |keys| => (s, keys[i]))
  }

  /** A run in which nothing fails goes to the end: it applies and records exactly the patches that
      are missing, in their order. */
  lemma {:induction false} CleanRun(l: Ledger, s: Stream, keys: seq<string>, fates: string -> Fate)
    requires forall i, j | 0 <= i < j < |keys| :: keys[i] != keys[j]
    requires forall k :: k in keys ==> fates(k) == Succeeds
    ensures var missing := Missing(l.history, keys);
      RunPatches(l, s, keys, fates)
      == (Ledger(l.history + missing, l.applied + Tagged(s, missing), l.lost), true)
    decreases |keys|
  {
    if keys != [] {
      var (k, rest) := (keys[0], keys[1..]);
      assert keys == [k] + rest && k !in rest;
      var (l1, alive) := Import(l, s, k, Succeeds);
      CleanRun(l1, s, rest, fates);
      if k !in l.history {
        MissingElsewhere(l.history, k, rest);
        TaggedCons(s, k, Missing(l.history, rest));
        Assoc(l.history, [k], Missing(l.history, rest));
        Assoc(l.applied, [(s, k)], Tagged(s, Missing(l.history, rest)));
      } else {
        assert [] + Missing(l.history, rest) == Missing(l.history, rest);
      }
    } else {
      assert Tagged(s, []) == [];
      assert l.history + [] == l.history && l.applied + [] == l.applied;
    }
  }

  lemma {:induction false} MissingElsewhere(history: seq<string>, k: string, keys: seq<string>)
    requires k !in keys
    ensures Missing(history + [k], keys) == Missing(history, keys)
  {
    if keys != [] {
      InConcat(keys[0], history, [k]);
      MissingElsewhere(history, k, keys[1..]);
    }
  }

  lemma TaggedCons(s: Stream, k: string, keys: seq<string>)
    ensures Tagged(s, [k] + keys) == [(s, k)] + Tagged(s, keys)
  {}

  function Succeeding(): string -> Fate { _ => Succeeds }

  lemma {:induction false} SuccessRecords(l: Ledger, s: Stream, keys: seq<string>)
    ensures forall k :: k in keys || k in l.history ==> k in RunPatches(l, s, keys, Succeeding()).0.history
    decreases |keys|
  {
    if keys != [] {
      SuccessRecords(Import(l, s, keys[0], Succeeds).0, s, keys[1..]);
    }
  }

  /** The streams never make each other skip a patch exactly when their keys are disjoint. */
  lemma NeverSkipsWronglyIff(setup: Setup)
    ensures NeverSkipsWrongly(setup) <==> setup.Disjoint()
  {
    if setup.Disjoint() {
      forall runs, s, key | key in setup.Keys(s) && key in RunAll(setup, runs).history
        ensures (s, key) in RunAll(setup, runs).applied
      {
        HistoryHasOwners(setup, runs);
      }
    } else {
      var s, t, k :| k in setup.Keys(s) && k in setup.Keys(t) && s != t;
      var runs := [Run(s, Succeeding())];
      assert runs[..0] == [];
      SuccessRecords(EMPTY, s, setup.Keys(s));
      RecordedByOwner(EMPTY, s, setup.Keys(s), Succeeding());
      assert k in RunAll(setup, runs).history && (t, k) !in RunAll(setup, runs).applied;
    }
  }

  // ---- where the keys come from --------------------------------------------

  /** A directory entry; the audit patches' directory lies among the SQL patches. */
  datatype Entry = Entry(name: string, isFile: bool)

  function Stem(name: string): string { Split(name, '.')[0] }

  function Version(name: string): string { Split(name, '-')[0] }

  function ByStem(): (Entry, Entry) -> bool {
    (a: Entry, b: Entry) => StringLe(Stem(a.name), Stem(b.name))
  }

  function SortedFiles(listing: seq<Entry>): seq<Entry> { Sort(listing, ByStem()) }

  /** The versions of the files among the entries. */
  function Versions(entries: seq<Entry>): seq<string> {
    if entries == [] then []
    else (if entries[0].isFile then [Version(entries[0].name)] else []) + Versions(entries[1..])
  }

  /** Patches are taken in the order of their names without extension, none lost, none twice. */
  lemma FilesInOrder(listing: seq<Entry>)
    ensures SortedBy(SortedFiles(listing), ByStem()) && multiset(SortedFiles(listing)) == multiset(listing)
  {
    hide StringLe, Split;
    forall a: Entry, b: Entry ensures ByStem()(a, b) || ByStem()(b, a) {
      StringLeTotal(Stem(a.name), Stem(b.name));
    }
    forall a: Entry, b: Entry, c: Entry | ByStem()(a, b) && ByStem()(b, c) ensures ByStem()(a, c) {
      StringLeTransitive(Stem(a.name), Stem(b.name), Stem(c.name));
    }
    SortSorts(listing, ByStem());
  }

  /** p is what stands before the first dot of the name. */
  predicate HasStem(name: string, p: string) { '.' !in p && (name == p || p + "." <= name) }

  /** u is what stands before the first dash. */
  predicate HasVersion(name: string, u: string) { '-' !in u && (name == u || u + "-" <= name) }

  lemma FirstPart(name: string, p: string, c: char)
    requires c !in p && (name == p || p + [c] <= name)
    ensures Split(name, c)[0] == p
  {
    if name == p {
      SplitFree(p, c);
    } else {
      assert name == p + [c] + name[|p| + 1..];
      SplitFirst(p, name[|p| + 1..], c);
    }
  }

  /** Of two names in the directory the one whose part before the first dot comes first is taken
      first, in the order of the characters where they first differ. */
  lemma NamesInOrder(listing: seq<Entry>, p: string, r: string, i: nat, j: nat)
    requires i < |SortedFiles(listing)| && j < |SortedFiles(listing)|
    requires HasStem(SortedFiles(listing)[i].name, p) && HasStem(SortedFiles(listing)[j].name, r)
    requires p != r && Precedes(p, r)
    ensures i < j
  {
    hide StringLe, SortedFiles;
    var files := SortedFiles(listing);
    FilesInOrder(listing);
    FirstPart(files[i].name, p, '.');
    FirstPart(files[j].name, r, '.');
    StringLeIff(p, r);
    StringLeIff(r, p);
    NotBoth(p, r);
    assert !ByStem()(files[j], files[i]);
    assert i == j ==> p == r;
  }

  lemma NotBoth(p: string, r: string)
    requires Precedes(p, r)
    ensures !Precedes(r, p)
  {
    if !(p < r) {
      var i :| 0 <= i < |p| && i < |r| && p[..i] == r[..i] && p[i] < r[i];
      forall k | 0 <= k < |p| && k < |r| ensures !(r[..k] == p[..k] && r[k] < p[k]) {
        if i < k { assert p[..k][i] == p[i] && r[..k][i] == r[i]; }
        if k < i { assert p[..i][k] == p[k] && r[..i][k] == r[k]; }
      }
    } else {
      forall k | 0 <= k < |p| ensures r[k] == p[k] {}
    }
  }

  lemma {:induction false} VersionsConcat(xs: seq<Entry>, ys: seq<Entry>)
    ensures Versions(xs + ys) == Versions(xs) + Versions(ys)
  {
    hide Version;
    if xs == [] {
      assert xs + ys == ys;
    } else {
      assert (xs + ys)[1..] == xs[1..] + ys;
      VersionsConcat(xs[1..], ys);
      Assoc(if xs[0].isFile then [Version(xs[0].name)] else [], Versions(xs[1..]), Versions(ys));
    }
  }

  /** A file gives its version, in its place; anything else in the directory gives nothing. */
  lemma VersionsOf(before: seq<Entry>, e: Entry, after: seq<Entry>, u: string)
    requires HasVersion(e.name, u)
    ensures Versions(before + [e] + after) == Versions(before) + (if e.isFile then [u] else []) + Versions(after)
  {
    FirstPart(e.name, u, '-');
    VersionsConcat(before + [e], after);
    VersionsConcat(before, [e]);
    assert [e][1..] == [];
  }

  lemma PlaceOf(listing: seq<Entry>, e: Entry) returns (i: nat)
    requires e in listing
    ensures i < |SortedFiles(listing)| && SortedFiles(listing)[i] == e
  {
    FilesInOrder(listing);
    hide SortedFiles, SortedBy;
    assert e in multiset(listing);
    assert e in multiset(SortedFiles(listing));
    i :| 0 <= i < |SortedFiles(listing)| && SortedFiles(listing)[i] == e;
  }

  /** So the script runs them in that order. */
  lemma PatchesInOrder(listing: seq<Entry>, a: Entry, b: Entry, p: string, r: string, u: string, w: string)
    requires a in listing && b in listing && a.isFile && b.isFile
    requires HasStem(a.name, p) && HasStem(b.name, r) && p != r && Precedes(p, r)
    requires HasVersion(a.name, u) && HasVersion(b.name, w)
    ensures var keys := Versions(SortedFiles(listing));
      exists m, n :: 0 <= m < n < |keys| && keys[m] == u && keys[n] == w
  {
    hide SortedFiles, Versions, Precedes, HasStem, HasVersion;
    var files := SortedFiles(listing);
    var i := PlaceOf(listing, a);
    var j := PlaceOf(listing, b);
    NamesInOrder(listing, p, r, i, j);
    var (x, y, z) := (files[..i], files[i + 1..j], files[j + 1..]);
    assert files == x + [a] + (y + [b] + z);
    TwoVersions(x, a, y, b, z, u, w);
  }

  lemma TwoVersions(x: seq<Entry>, a: Entry, y: seq<Entry>, b: Entry, z: seq<Entry>, u: string, w: string)
    requires a.isFile && b.isFile && HasVersion(a.name, u) && HasVersion(b.name, w)
    ensures var keys := Versions(x + [a] + (y + [b] + z));
      exists m, n :: 0 <= m < n < |keys| && keys[m] == u && keys[n] == w
  {
    hide Versions, HasVersion;
    VersionsOf(x, a, y + [b] + z, u);
    VersionsOf(y, b, z, w);
    var keys := Versions(x) + [u] + (Versions(y) + [w] + Versions(z));
    var (m, n) := (|Versions(x)|, |Versions(x)| + 1 + |Versions(y)|);
    assert keys[m] == u && keys[n] == w;
  }

  /** A Java patch class file: the number in its name, and the name. */
  datatype JavaFile = JavaFile(number: int, name: string)

  /** The keys of `my_dict`, in the order they were first set. */
  function Numbers(files: seq<JavaFile>): (numbers: seq<int>)
    ensures forall n :: n in numbers <==> exists f :: f in files && f.number == n
    ensures forall i, j | 0 <= i < j < |numbers| :: numbers[i] != numbers[j]
  {
    if files == [] then []
    else
      var (rest, n) := (files[..|files| - 1], files[|files| - 1].number);
      assert files == rest + [files[|files| - 1]];
      assert forall f :: f in files <==> f in rest || f == files[|files| - 1];
      if n in Numbers(rest) then Numbers(rest) else Numbers(rest) + [n]
  }

  function IntLe(): (int, int) -> bool { (a: int, b: int) => a <= b }

  function SortedNumbers(files: seq<JavaFile>): seq<int> {
    Sort(Numbers(files), IntLe())
  }

  function JavaKey(n: int): string { "J" + Str(n) }

  /** The key of a Java patch is a J and the number's decimal numeral. */
  lemma JavaKeyIs(n: int)
    ensures JavaKey(n)[0] == 'J'
    ensures n >= 0 ==> Numeral(JavaKey(n)[1..]) == n && forall c | c in JavaKey(n)[1..] :: '0' <= c <= '9'
  {
    StrDenotes(n);
    assert JavaKey(n)[1..] == Str(n);
  }

  function JavaKeys(numbers: seq<int>): (keys: seq<string>)
    ensures |keys| == |numbers| && forall i | 0 <= i < |keys| :: keys[i] == JavaKey(numbers[i])
  {
    seq(|numbers|, i requires 0 <= i < |numbers| => JavaKey(numbers[i]))
  }

  /** Java patches run in increasing numeric order, one for each number among the files. */
  lemma JavaInOrder(files: seq<JavaFile>)
    ensures forall i, j | 0 <= i < j < |SortedNumbers(files)| :: SortedNumbers(files)[i] < SortedNumbers(files)[j]
    ensures forall n :: n in SortedNumbers(files) <==> exists f :: f in files && f.number == n
  {
    SortedDistinct(Numbers(files));
    assert SortedNumbers(files) == Sort(Numbers(files), IntLe());
  }

  lemma SortedDistinct(numbers: seq<int>)
    requires forall i, j | 0 <= i < j < |numbers| :: numbers[i] != numbers[j]
    ensures var sorted := Sort(numbers, IntLe());
      && (forall i, j | 0 <= i < j < |sorted| :: sorted[i] < sorted[j])
      && (forall n :: n in sorted <==> n in numbers)
  {
    hide Sort;
    var le := IntLe();
    var sorted := Sort(numbers, le);
    SortSorts(numbers, le);
    assert forall n :: n in sorted <==> n in multiset(sorted);
    assert forall n :: n in numbers <==> n in multiset(numbers);
    forall i, j | 0 <= i < j < |sorted| ensures sorted[i] < sorted[j] {
      assert le(sorted[i], sorted[j]);
      if sorted[i] == sorted[j] {
        Repeated(sorted, i, j);
        Once(numbers, sorted[i]);
      }
    }
  }

  lemma Repeated(xs: seq<int>, i: nat, j: nat)
    requires i < j < |xs| && xs[i] == xs[j]
    ensures multiset(xs)[xs[i]] >= 2
  {
    assert xs == xs[..i] + [xs[i]] + xs[i + 1..j] + [xs[j]] + xs[j + 1..];
  }

  lemma {:induction false} Once(xs: seq<int>, x: int)
    requires forall i, j | 0 <= i < j < |xs| :: xs[i] != xs[j]
    ensures multiset(xs)[x] <= 1
  {
    if xs != [] {
      Once(xs[1..], x);
      assert xs == [xs[0]] + xs[1..];
      assert xs[0] == x ==> x !in xs[1..];
    }
  }

  function SetupOf(sql: seq<Entry>, audit: seq<Entry>, java: seq<JavaFile>): Setup {
    Setup(Versions(SortedFiles(sql)), Versions(SortedFiles(audit)), JavaKeys(SortedNumbers(java)))
  }

  /** The names the guarantees ask for: version prefixes differ, and none starts with a J. */
  ghost predicate GoodNames(sql: seq<string>, audit: seq<string>) {
    && (forall i, j | 0 <= i < j < |sql| :: sql[i] != sql[j])
    && (forall i, j | 0 <= i < j < |audit| :: audit[i] != audit[j])
    && (forall k :: k in sql ==> k !in audit)
    && (forall k :: k in sql || k in audit ==> k == "" || k[0] != 'J')
  }

  lemma GoodNamesGoodSetup(sql: seq<Entry>, audit: seq<Entry>, java: seq<JavaFile>)
    requires GoodNames(Versions(SortedFiles(sql)), Versions(SortedFiles(audit)))
    ensures SetupOf(sql, audit, java).Distinct() && SetupOf(sql, audit, java).Disjoint()
  {
    hide SortedFiles, Versions, SortedNumbers, Str;
    var setup := SetupOf(sql, audit, java);
    var numbers := SortedNumbers(java);
    JavaInOrder(java);
    forall i, j | 0 <= i < j < |setup.java| ensures setup.java[i] != setup.java[j] {
      if setup.java[i] == setup.java[j] {
        assert setup.java[i][1..] == Str(numbers[i]) && setup.java[j][1..] == Str(numbers[j]);
        StrInjective(numbers[i], numbers[j]);
      }
    }
    forall s, i, j | 0 <= i < j < |setup.Keys(s)| ensures setup.Keys(s)[i] != setup.Keys(s)[j] {
      match s case Sql => case Audit => case Java =>
    }
    forall s, t, k | k in setup.Keys(s) && k in setup.Keys(t) ensures s == t {
      assert k in setup.java ==> k[0] == 'J';
      match s case Sql => case Audit => case Java =>
    }
  }

  // ---- the script ----------------------------------------------------------

  class DbSetup {
    var history: seq<string>
    var applied: seq<(Stream, string)>
    ghost var lost: seq<(Stream, string)>

    constructor ()
      ensures State() == EMPTY
    {
      history, applied, lost := [], [], [];
    }

    ghost function State(): Ledger
      reads this
    {
      Ledger(history, applied, lost)
    }

    /** One patch: skip what is recorded, else run the script, then record it. `fate` says
        which call fails, or where the run is killed. */
    method ImportPatch(s: Stream, version: string, fate: Fate) returns (alive: bool)
      modifies this
      ensures (State(), alive) == Import(old(State()), s, version, fate)
      ensures version in old(history) || fate in {DiesBeforeApply, ApplyFails} ==>
        State() == old(State()) && alive == (version in old(history) && fate != DiesBeforeApply)
      ensures version !in old(history) && fate in {Succeeds, DiesBeforeRecord, DiesAfterRecord} ==>
        applied == old(applied) + [(s, version)]
      ensures version !in old(history) && fate in {Succeeds, DiesAfterRecord} ==>
        history == old(history) + [version] && lost == old(lost) && alive == (fate == Succeeds)
      ensures version !in old(history) && fate == DiesBeforeRecord ==>
        history == old(history) && lost == old(lost) + [(s, version)] && !alive
    {
      if fate.DiesBeforeApply? {
        return false;
      }
      if version in history {
        return true;
      }
      if fate.ApplyFails? {
        return false;
      }
      applied := applied + [(s, version)];
      if fate.DiesBeforeRecord? {
        lost := lost + [(s, version)];
        return false;
      }
      history := history + [version];
      return fate.Succeeds?;
    }

    /** `apply_patches` and `apply_auditdb_patches`: every file of the directory, sorted. */
    method ApplyPatches(s: Stream, listing: seq<Entry>, fates: string -> Fate) returns (alive: bool)
      modifies this
      ensures (State(), alive) == RunPatches(old(State()), s, Versions(SortedFiles(listing)), fates)
    {
      hide Import, SortedFiles;
      var files := SortedFiles(listing);
      for i := 0 to |files|
        invariant RunPatches(old(State()), s, Versions(files), fates)
               == RunPatches(State(), s, Versions(files[i..]), fates)
      {
        assert files[i..][0] == files[i] && files[i..][1..] == files[i + 1..];
        if files[i].isFile {
          var version := Version(files[i].name);
          var rest := Versions(files[i + 1..]);
          assert Versions(files[i..]) == [version] + rest && ([version] + rest)[1..] == rest;
          alive := ImportPatch(s, version, fates(version));
          if !alive {
            return;
          }
        } else {
          assert Versions(files[i..]) == Versions(files[i + 1..]);
        }
      }
      return true;
    }

    /** `execute_java_patches`: number the files, then run the numbers in order. */
    method ExecuteJavaPatches(files: seq<JavaFile>, fates: string -> Fate) returns (alive: bool)
      modifies this
      ensures (State(), alive) == RunPatches(old(State()), Java, JavaKeys(SortedNumbers(files)), fates)
    {
      hide Import, JavaKeys, Sort, Str;
      var dict: map<int, string> := map[];
      var keylist: seq<int> := [];
      for i := 0 to |files|
        invariant keylist == Numbers(files[..i]) && dict.Keys == set n | n in keylist
        invariant State() == old(State())
      {
        assert files[..i + 1][..i] == files[..i];
        if files[i].number !in dict {
          keylist := keylist + [files[i].number];
        }
        dict := dict[files[i].number := files[i].name];
      }
      assert files[..|files|] == files;
      keylist := Sort(keylist, IntLe());
      var keys := JavaKeys(keylist);
      for i := 0 to |keylist|
        invariant RunPatches(old(State()), Java, keys, fates) == RunPatches(State(), Java, keys[i..], fates)
      {
        assert keys[i..][0] == keys[i] && keys[i..][1..] == keys[i + 1..];
        var version := "J" + Str(keylist[i]);
        alive := ImportPatch(Java, version, fates(version));
        if !alive {
          return;
        }
      }
      return true;
    }
  }
}
