/** The fetch cache when calls overlap: requests, answers, responses, clearings and the server's
    changes in any order. */
module Interleaving {
  import opened Wrappers
  import opened FetchCache

  /** One thing that happens. A request is sent, the server answers it, and the response arrives,
      possibly much later or never; `sync` clears at once what a write touches, and the server
      carries the write out some time after. Later moves name earlier ones by their position. */
  datatype Move =
    | Ask(key: Option<string>, opts: Opts, now: int)
    | Answer(ask: nat)
    | Arrive(answer: nat, later: int)
    | ClearOne(key: Option<string>)
    | Clearing(modelKey: Option<string>, collectionKey: Option<Option<string>>)
    | Change(clearing: nat)

  /** Every move has what it follows from. */
  predicate Scheduled(s: seq<Move>) {
    forall i | 0 <= i < |s| ::
      match s[i]
      case Answer(a) => a < i && s[a].Ask?
      case Arrive(a, _) => a < i && s[a].Answer? && s[a].ask < a && s[s[a].ask].Ask?
      case Change(c) => c < i && s[c].Clearing?
      case _ => true
  }

  /** The request whose response arrives at i. */
  function Request(s: seq<Move>, i: nat): Move
    requires Scheduled(s) && i < |s| && s[i].Arrive?
  {
    s[s[s[i].answer].ask]
  }

  /** The response at i is stored under k. */
  predicate StoresAt(s: seq<Move>, i: nat, k: string)
    requires Scheduled(s)
  {
    i < |s| && s[i].Arrive? && Stores(Request(s, i).key, Request(s, i).opts) && Request(s, i).key == Some(k)
  }

  predicate ClearsAt(s: seq<Move>, i: nat, k: string) {
    i < |s| && ((s[i].ClearOne? && k == Name(s[i].key))
                || (s[i].Clearing? && Touched(s[i].modelKey, s[i].collectionKey, k)))
  }

  /** The write that the server carries out at i touches k. */
  predicate ChangesAt(s: seq<Move>, i: nat, k: string)
    requires Scheduled(s)
  {
    i < |s| && s[i].Change? && Touched(s[s[i].clearing].modelKey, s[s[i].clearing].collectionKey, k)
  }

  /** What a move does to the cache and the server. */
  ghost predicate Moves(mode: Mode, s: seq<Move>, ws: seq<World>, i: nat)
    requires Scheduled(s) && i < |s| && |ws| == |s| + 1
  {
    var (w, w') := (ws[i], ws[i + 1]);
    match s[i]
    case Ask(_, _, _) => w' == w
    case Answer(_) => w' == w
    case Arrive(a, later) =>
      var Ask(key, o, _) := Request(s, i);
      w'.server == w.server && StoreStep(mode, key, o, ws[a].server(Name(key)), later, w.cache, w'.cache)
    case ClearOne(key) => w'.server == w.server && ClearStep(mode, Name(key), w.cache, w'.cache)
    case Clearing(mk, ck) => w'.server == w.server && WriteStep(mode, mk, ck, w.cache, w'.cache, !mode.Broken?)
    // a write whose clearing threw was never sent
    case Change(_) =>
      !mode.Broken? && w'.cache == w.cache && forall k :: !ChangesAt(s, i, k) ==> w'.server(k) == w.server(k)
  }

  ghost predicate AllMove(mode: Mode, s: seq<Move>, ws: seq<World>)
    requires Scheduled(s)
  {
    |ws| == |s| + 1 && forall i: nat | i < |s| :: Moves(mode, s, ws, i)
  }

  /** fetch asks only for what the cache does not serve, unless a prefill is wanted. */
  predicate Sends(w: World, move: Move) {
    move.Ask? ==> Served(w.cache, move.key, move.opts, move.now).None? || move.opts.prefill
  }

  ghost predicate Interleaved(mode: Mode, s: seq<Move>, ws: seq<World>)
    requires Scheduled(s)
  {
    AllMove(mode, s, ws) && forall i: nat | i < |s| :: Sends(ws[i], s[i])
  }

  /** The schedule keeps the cache coherent: whatever the server answers and changes, however the
      mirror evicts, every readable entry is what the server answers. */
  ghost predicate KeepsCoherent(mode: Mode, s: seq<Move>)
    requires Scheduled(s)
  {
    forall ws: seq<World>, n: nat | Interleaved(mode, s, ws) && Coherent(ws[0]) && n < |ws| :: Coherent(ws[n])
  }

  /** Whatever fetch serves from the cache is what the server answers. Entries that are falsy or
      expired are never served, so this asks less. */
  ghost predicate ServesRight(w: World) {
    forall key, o, now :: var b := Served(w.cache, key, o, now); b.Some? ==> b.value == w.server(Name(key))
  }

  ghost predicate KeepsServing(mode: Mode, s: seq<Move>)
    requires Scheduled(s)
  {
    forall ws: seq<World>, n: nat | Interleaved(mode, s, ws) && Coherent(ws[0]) && n < |ws| :: ServesRight(ws[n])
  }

  lemma ServesRightIff(w: World)
    ensures ServesRight(w) <==>
      forall k :: Lookup(w.cache, k).Entry? && Lookup(w.cache, k).value.Body? ==>
        Lookup(w.cache, k).value == w.server(k)
  {
    forall k | ServesRight(w) && Lookup(w.cache, k).Entry? && Lookup(w.cache, k).value.Body?
      ensures Lookup(w.cache, k).value == w.server(k)
    {
      var x := Lookup(w.cache, k).expires;
      var b := Served(w.cache, Some(k), WANTED, if x.At? then x.time else 0);
      assert b == Some(Lookup(w.cache, k).value);
    }
  }

  /** Coherence is enough for it. */
  lemma CoherentServes(mode: Mode, s: seq<Move>)
    requires Scheduled(s) && KeepsCoherent(mode, s)
    ensures KeepsServing(mode, s)
  {
    hide Moves;
    forall ws: seq<World>, n: nat | Interleaved(mode, s, ws) && Coherent(ws[0]) && n < |ws|
      ensures ServesRight(ws[n])
    {
      ServesRightIff(ws[n]);
    }
  }

  const WANTED := Opts(Some(true), false, Default)

  // ---- what a schedule says about the cache ----------------------------------

  /** k was stored at p and not cleared since, before n. */
  predicate Standing(s: seq<Move>, p: nat, k: string, n: nat)
    requires Scheduled(s)
  {
    p < n && StoresAt(s, p, k) && forall q | p < q < n :: !ClearsAt(s, q, k)
  }

  /** ... nor stored again. */
  predicate Latest(s: seq<Move>, p: nat, k: string, n: nat)
    requires Scheduled(s)
  {
    Standing(s, p, k, n) && forall q | p < q < n :: !StoresAt(s, q, k)
  }

  /** The response of p is what the cache has for k at n, and the server has changed k since it
      was answered. */
  predicate StaleAt(s: seq<Move>, p: nat, k: string, n: nat)
    requires Scheduled(s)
  {
    n <= |s| && Latest(s, p, k, n) && exists c :: s[p].answer < c < n && ChangesAt(s, c, k)
  }

  /** No response that was answered before a change arrives after it. */
  ghost predicate NoneLate(s: seq<Move>)
    requires Scheduled(s)
  {
    forall i: nat, c, k | StoresAt(s, i, k) && s[i].answer < c < i :: !ChangesAt(s, c, k)
  }

  /** No response is stored between a write's clearing and its change and still stands then. */
  ghost predicate NoneBetween(s: seq<Move>)
    requires Scheduled(s)
  {
    forall p: nat, c: nat, k | ChangesAt(s, c, k) :: !Standing(s, p, k, c)
  }

  lemma {:induction false} LatestOf(s: seq<Move>, p: nat, k: string, n: nat) returns (q: nat)
    requires Scheduled(s) && Standing(s, p, k, n)
    ensures Latest(s, q, k, n)
    decreases n - p
  {
    hide Touched;
    if r :| p < r < n && StoresAt(s, r, k) {
      q := LatestOf(s, r, k, n);
    } else {
      q := p;
    }
  }

  /** There is a stale entry at some time exactly when a response is late or comes in between. */
  lemma StaleIff(s: seq<Move>)
    requires Scheduled(s)
    ensures (exists p: nat, k, n: nat :: StaleAt(s, p, k, n)) <==> !(NoneLate(s) && NoneBetween(s))
  {
    if p: nat, k, n: nat :| StaleAt(s, p, k, n) {
      StaleLateOrBetween(s, p, k, n);
    }
    hide Touched, ChangesAt, StoresAt, ClearsAt, StaleAt, Standing;
    if !NoneLate(s) {
      LateIsStale(s);
    } else if !NoneBetween(s) {
      BetweenIsStale(s);
    }
  }

  lemma StaleLateOrBetween(s: seq<Move>, p: nat, k: string, n: nat)
    requires Scheduled(s) && StaleAt(s, p, k, n)
    ensures !(NoneLate(s) && NoneBetween(s))
  {
    hide Touched;
    var c :| s[p].answer < c < n && ChangesAt(s, c, k);
    assert c > p ==> Standing(s, p, k, c);
  }

  lemma LateIsStale(s: seq<Move>)
    requires Scheduled(s) && !NoneLate(s)
    ensures exists p: nat, k, n: nat :: StaleAt(s, p, k, n)
  {
    hide Touched;
    var i: nat, c, k :| StoresAt(s, i, k) && s[i].answer < c < i && ChangesAt(s, c, k);
    assert StaleAt(s, i, k, i + 1);
  }

  lemma BetweenIsStale(s: seq<Move>)
    requires Scheduled(s) && !NoneBetween(s)
    ensures exists p: nat, k, n: nat :: StaleAt(s, p, k, n)
  {
    hide Touched;
    var p: nat, c: nat, k :| ChangesAt(s, c, k) && Standing(s, p, k, c);
    var q := LatestOf(s, p, k, c);
    assert StaleAt(s, q, k, c + 1);
  }

  // ---- where entries come from -----------------------------------------------

  lemma {:induction false} ServerSame(mode: Mode, s: seq<Move>, ws: seq<World>, k: string, a: nat, b: nat)
    requires Scheduled(s) && AllMove(mode, s, ws) && a <= b < |ws|
    requires forall c | a <= c < b :: !ChangesAt(s, c, k)
    ensures ws[b].server(k) == ws[a].server(k)
  {
    if a < b {
      ServerSame(mode, s, ws, k, a, b - 1);
      assert Moves(mode, s, ws, b - 1);
    }
  }

  lemma OneMove(mode: Mode, s: seq<Move>, ws: seq<World>, i: nat, k: string)
    requires Scheduled(s) && AllMove(mode, s, ws) && i < |s|
    requires Lookup(ws[i + 1].cache, k).Entry?
    ensures !StoresAt(s, i, k) ==>
      Lookup(ws[i].cache, k) == Lookup(ws[i + 1].cache, k) && (ClearsAt(s, i, k) ==> mode.Broken?)
    ensures StoresAt(s, i, k) ==> Lookup(ws[i + 1].cache, k).value == ws[s[i].answer].server(k)
  {
    hide EvictRun, Touched, ClearRun, Collected, NewEntry;
    assert Moves(mode, s, ws, i);
    var (c, c') := (ws[i].cache, ws[i + 1].cache);
    match s[i]
    case Arrive(a, later) =>
      var Ask(key, o, _) := Request(s, i);
      if Stores(key, o) {
        var attrs := ws[a].server(Name(key));
        StoredValue(o, attrs, later);
        PersistWeakens(mode, c[key.value := NewEntry(o, attrs, later)], c');
      }
    case ClearOne(key) => PersistWeakens(mode, c - {Name(key)}, c');
    case Clearing(mk, ck) =>
      if !mode.Broken? {
        WriteClears(mode, mk, ck, c, c');
      }
    case _ =>
  }

  /** The entry was there at the start and nothing has happened to it. */
  ghost predicate FromStart(s: seq<Move>, ws: seq<World>, k: string, n: nat)
    requires Scheduled(s) && n < |ws|
  {
    Lookup(ws[n].cache, k) == Lookup(ws[0].cache, k)
    && forall q | 0 <= q < n :: !ClearsAt(s, q, k) && !StoresAt(s, q, k)
  }

  /** Every readable entry was there at the start or is the latest response, as it was answered. */
  lemma {:induction false} Provenance(mode: Mode, s: seq<Move>, ws: seq<World>, n: nat, k: string) returns (p: nat)
    requires Scheduled(s) && AllMove(mode, s, ws) && !mode.Broken? && n < |ws|
    requires Lookup(ws[n].cache, k).Entry?
    ensures FromStart(s, ws, k, n)
            || (Latest(s, p, k, n) && Lookup(ws[n].cache, k).value == ws[s[p].answer].server(k))
  {
    hide Touched, Moves;
    p := 0;
    if n > 0 {
      OneMove(mode, s, ws, n - 1, k);
      if StoresAt(s, n - 1, k) {
        p := n - 1;
      } else {
        p := Provenance(mode, s, ws, n - 1, k);
      }
    }
  }

  /** A readable entry is what the server answers, or the schedule says that it is stale. */
  lemma RightOrStale(mode: Mode, s: seq<Move>, ws: seq<World>, n: nat, k: string) returns (p: nat)
    requires Scheduled(s) && AllMove(mode, s, ws) && !mode.Broken? && Coherent(ws[0]) && n < |ws|
    requires Lookup(ws[n].cache, k).Entry?
    ensures Lookup(ws[n].cache, k).value == ws[n].server(k)
            || (StaleAt(s, p, k, n) && Lookup(ws[n].cache, k).value == ws[s[p].answer].server(k))
  {
    hide Touched, Moves;
    p := Provenance(mode, s, ws, n, k);
    if FromStart(s, ws, k, n) {
      forall c | 0 <= c < n ensures !ChangesAt(s, c, k) {
        assert s[c].Change? ==> (ChangesAt(s, c, k) <==> ClearsAt(s, s[c].clearing, k));
      }
      ServerSame(mode, s, ws, k, 0, n);
    } else if !StaleAt(s, p, k, n) {
      ServerSame(mode, s, ws, k, s[p].answer, n);
    }
  }

  // A mirror that refuses every write: nothing is sent, so the server stays as it is.
  lemma {:induction false} BrokenCoherent(s: seq<Move>, ws: seq<World>, mode: Mode, n: nat)
    requires Scheduled(s) && AllMove(mode, s, ws) && mode.Broken? && Coherent(ws[0]) && n < |ws|
    ensures Coherent(ws[n]) && forall k :: ws[n].server(k) == ws[0].server(k)
    decreases n
  {
    if n > 0 {
      hide Touched;
      BrokenCoherent(s, ws, mode, n - 1);
      assert Moves(mode, s, ws, n - 1);
      forall k | Lookup(ws[n].cache, k).Entry? ensures Lookup(ws[n].cache, k).value == ws[n].server(k) {
        OneMove(mode, s, ws, n - 1, k);
        if StoresAt(s, n - 1, k) {
          BrokenCoherent(s, ws, mode, s[n - 1].answer);
        }
      }
    }
  }

  /** In every mode: when no response is late and none comes in between, the cache is coherent
      after every move, for every server. */
  lemma OrderedKeepsCoherent(mode: Mode, s: seq<Move>)
    requires Scheduled(s) && NoneLate(s) && NoneBetween(s)
    ensures KeepsCoherent(mode, s)
  {
    hide Moves, NoneLate, NoneBetween, StaleAt;
    StaleIff(s);
    forall ws: seq<World>, n: nat | Interleaved(mode, s, ws) && Coherent(ws[0]) && n < |ws| ensures Coherent(ws[n]) {
      if mode.Broken? {
        BrokenCoherent(s, ws, mode, n);
      } else {
        forall k | Lookup(ws[n].cache, k).Entry? ensures Lookup(ws[n].cache, k).value == ws[n].server(k) {
          var p := RightOrStale(mode, s, ws, n, k);
        }
      }
    }
  }

  // ---- modes in which nothing is evicted -------------------------------------

  lemma {:induction false} AmpleClears(mode: Mode, keys: seq<string>, c: Cache, c': Cache)
    requires Ample(mode) && ClearRun(mode, keys, c, c')
    ensures forall k :: k !in keys ==> Lookup(c', k) == Lookup(c, k)
  {
    hide Ample, Persist;
    if keys != [] {
      var n := |keys| - 1;
      var mid :| ClearRun(mode, keys[..n], c, mid) && ClearStep(mode, keys[n], mid, c');
      AmpleClears(mode, keys[..n], c, mid);
      AmplePersists(mode, mid - {keys[n]}, c');
      assert keys == keys[..n] + [keys[n]];
    }
  }

  lemma AmpleWrite(mode: Mode, mk: Option<string>, ck: Option<Option<string>>, c: Cache, c': Cache, k: string)
    requires Ample(mode) && WriteStep(mode, mk, ck, c, c', true) && !Touched(mk, ck, k)
    ensures Lookup(c', k) == Lookup(c, k)
  {
    hide Touched, ClearRun;
    var keys :| Collected(keys, mk, ck, c) && ClearRun(mode, keys, c, c');
    AmpleClears(mode, keys, c, c');
  }

  /** The entry that the response of p makes. */
  function Stored(s: seq<Move>, p: nat, attrs: Body): Slot
    requires Scheduled(s) && p < |s| && s[p].Arrive?
  {
    NewEntry(Request(s, p).opts, attrs, s[p].later)
  }

  lemma MoveKeeps(mode: Mode, s: seq<Move>, ws: seq<World>, i: nat, k: string)
    requires Scheduled(s) && Ample(mode) && AllMove(mode, s, ws) && i < |s| && !ClearsAt(s, i, k)
    ensures StoresAt(s, i, k) ==> Lookup(ws[i + 1].cache, k) == Stored(s, i, ws[s[i].answer].server(k))
    ensures !StoresAt(s, i, k) ==> Lookup(ws[i + 1].cache, k) == Lookup(ws[i].cache, k)
  {
    hide Touched, ClearRun, NewEntry, Persist, WriteStep;
    assert Moves(mode, s, ws, i);
    var (c, c') := (ws[i].cache, ws[i + 1].cache);
    match s[i]
    case Arrive(a, later) =>
      var Ask(key, o, _) := Request(s, i);
      if Stores(key, o) {
        AmplePersists(mode, c[key.value := NewEntry(o, ws[a].server(Name(key)), later)], c');
      }
    case ClearOne(key) => AmplePersists(mode, c - {Name(key)}, c');
    case Clearing(mk, ck) => AmpleWrite(mode, mk, ck, c, c', k);
    case _ =>
  }

  /** Then the latest response is what the cache holds. */
  lemma {:induction false} LatestIsHeld(mode: Mode, s: seq<Move>, ws: seq<World>, p: nat, k: string, n: nat)
    requires Scheduled(s) && Ample(mode) && AllMove(mode, s, ws) && Latest(s, p, k, n) && n <= |s|
    ensures Lookup(ws[n].cache, k) == Stored(s, p, ws[s[p].answer].server(k))
  {
    hide Touched, Moves, Ample, NewEntry;
    MoveKeeps(mode, s, ws, n - 1, k);
    if p < n - 1 {
      assert Latest(s, p, k, n - 1);
      LatestIsHeld(mode, s, ws, p, k, n - 1);
    }
  }

  // ---- requests that were sent -----------------------------------------------

  predicate Expired(slot: Slot, now: int)
    requires slot.Entry?
  {
    slot.expires.Truthy() && slot.expires.time < now
  }

  /** The request at i comes upon the response of p, which has not expired. That it is sent all the
      same means that the response was falsy. */
  predicate ComesUpon(s: seq<Move>, i: nat, p: nat, k: string)
    requires Scheduled(s)
  {
    && i < |s| && s[i].Ask? && Name(s[i].key) == k && s[i].opts.Wanted() && !s[i].opts.prefill
    && Latest(s, p, k, i) && !Expired(Stored(s, p, Falsy("")), s[i].now)
  }

  /** No request comes upon a response that could be served. */
  ghost predicate Sent(s: seq<Move>)
    requires Scheduled(s)
  {
    forall i: nat, p: nat, k :: !ComesUpon(s, i, p, k)
  }

  /** The server does not change k from one time to the other. */
  predicate Unchanged(s: seq<Move>, k: string, a: nat, b: nat)
    requires Scheduled(s)
  {
    (forall c | a <= c < b :: !ChangesAt(s, c, k)) && (forall c | b <= c < a :: !ChangesAt(s, c, k))
  }

  /** When the response that arrives at p was answered. */
  function AnswerOf(s: seq<Move>, p: nat): nat {
    if p < |s| && s[p].Arrive? then s[p].answer else 0
  }

  /** What the server answered for k at a must have been falsy, or a request would not have been
      sent. */
  ghost predicate Falsified(s: seq<Move>, k: string, a: nat)
    requires Scheduled(s)
  {
    exists i: nat, p: nat :: ComesUpon(s, i, p, k) && Unchanged(s, k, a, AnswerOf(s, p))
  }

  lemma Upon(mode: Mode, s: seq<Move>, ws: seq<World>, i: nat, p: nat, k: string)
    requires Scheduled(s) && Ample(mode) && AllMove(mode, s, ws) && ComesUpon(s, i, p, k)
    ensures Sends(ws[i], s[i]) <==> ws[s[p].answer].server(k).Falsy?
  {
    hide Moves, Touched, Ample;
    LatestIsHeld(mode, s, ws, p, k, i);
  }

  /** What was falsified is not served. */
  lemma FalsifiedIsFalsy(mode: Mode, s: seq<Move>, ws: seq<World>, k: string, a: nat)
    requires Scheduled(s) && Ample(mode) && Interleaved(mode, s, ws) && Falsified(s, k, a) && a < |ws|
    ensures ws[a].server(k).Falsy?
  {
    hide Moves, Touched, Ample, ComesUpon;
    var i: nat, p: nat :| ComesUpon(s, i, p, k) && Unchanged(s, k, a, AnswerOf(s, p));
    AnswerBefore(s, i, p, k);
    var b := s[p].answer;
    Upon(mode, s, ws, i, p, k);
    if a <= b { ServerSame(mode, s, ws, k, a, b); } else { ServerSame(mode, s, ws, k, b, a); }
  }

  lemma AnswerBefore(s: seq<Move>, i: nat, p: nat, k: string)
    requires Scheduled(s) && ComesUpon(s, i, p, k)
    ensures i < |s| && p < i && s[p].Arrive? && s[p].answer < p
  {}

  // ---- runs that end up stale ------------------------------------------------

  /** A server that answers one way for k from one change of it to the next, around the time of
      the answer, and another way at all other times. */
  datatype Plan = Plan(k: string, answer: nat, inside: Body, outside: Body)

  function Value(s: seq<Move>, plan: Plan, n: nat): Body
    requires Scheduled(s)
  {
    if Unchanged(s, plan.k, plan.answer, n) then plan.inside else plan.outside
  }

  function Server(k: string, value: Body): string -> Body {
    x => if x == k then value else Falsy("0")
  }

  function CacheAt(s: seq<Move>, plan: Plan, n: nat): Cache
    requires Scheduled(s) && n <= |s|
  {
    if n == 0 then map[]
    else
      var before := CacheAt(s, plan, n - 1);
      match s[n - 1]
      case Arrive(a, later) =>
        var Ask(key, o, _) := Request(s, n - 1);
        if Stores(key, o) then before[key.value := NewEntry(o, Server(plan.k, Value(s, plan, a))(key.value), later)]
        else before
      case ClearOne(key) => before - {Name(key)}
      case Clearing(mk, ck) => Untouched(mk, ck, before)
      case _ => before
  }

  function WorldAt(s: seq<Move>, plan: Plan, n: nat): World
    requires Scheduled(s) && n <= |s|
  {
    World(CacheAt(s, plan, n), Server(plan.k, Value(s, plan, n)))
  }

  function Worlds(s: seq<Move>, plan: Plan): (ws: seq<World>)
    requires Scheduled(s)
    ensures |ws| == |s| + 1 && forall n | 0 <= n <= |s| :: ws[n] == WorldAt(s, plan, n)
  {
    seq(|s| + 1, n requires 0 <= n <= |s| => WorldAt(s, plan, n))
  }

  lemma ValueMoves(s: seq<Move>, plan: Plan, i: nat)
    requires Scheduled(s) && i < |s| && !ChangesAt(s, i, plan.k)
    ensures Value(s, plan, i + 1) == Value(s, plan, i)
  {
    hide Touched;
  }

  lemma WorldsMove(mode: Mode, s: seq<Move>, plan: Plan, i: nat)
    requires Scheduled(s) && Ample(mode) && i < |s|
    ensures Moves(mode, s, Worlds(s, plan), i)
  {
    hide Touched, NewEntry, Value, Persist;
    var ws := Worlds(s, plan);
    assert ws[i] == WorldAt(s, plan, i) && ws[i + 1] == WorldAt(s, plan, i + 1);
    if !ChangesAt(s, i, plan.k) {
      ValueMoves(s, plan, i);
    }
    AmplePersists(mode, ws[i + 1].cache, ws[i + 1].cache);
    match s[i]
    case Clearing(mk, ck) => AmpleRoom(mode, mk, ck, ws[i].cache); WriteMayLeave(mode, mk, ck, ws[i].cache);
    case Arrive(a, later) => assert ws[a] == WorldAt(s, plan, a);
    case Change(_) => AmpleRoom(mode, None, None, map[]);
    case _ =>
  }

  lemma AmpleRoom(mode: Mode, mk: Option<string>, ck: Option<Option<string>>, c: Cache)
    requires Ample(mode)
    ensures Roomy(mode, mk, ck, c) && !mode.Broken?
  {}

  /** No request comes upon an answer of this server that could be served. */
  ghost predicate Passes(s: seq<Move>, plan: Plan)
    requires Scheduled(s)
  {
    forall i: nat, p: nat | ComesUpon(s, i, p, plan.k) :: Value(s, plan, AnswerOf(s, p)).Falsy?
  }

  lemma WorldsSend(mode: Mode, s: seq<Move>, plan: Plan, i: nat)
    requires Scheduled(s) && Ample(mode) && AllMove(mode, s, Worlds(s, plan)) && Passes(s, plan) && i < |s|
    ensures Sends(Worlds(s, plan)[i], s[i])
  {
    hide Touched, Moves, CacheAt, Value, NewEntry, ComesUpon;
    var ws := Worlds(s, plan);
    if s[i].Ask? && Lookup(ws[i].cache, Name(s[i].key)).Entry? {
      var k := Name(s[i].key);
      assert ws[0] == WorldAt(s, plan, 0);
      StartsEmpty(s, plan);
      var p := Provenance(mode, s, ws, i, k);
      assert ws[s[p].answer] == WorldAt(s, plan, s[p].answer);
      LatestIsHeld(mode, s, ws, p, k, i);
      SameExpiry(s, p, ws[s[p].answer].server(k));
      if Served(ws[i].cache, s[i].key, s[i].opts, s[i].now).Some? && !s[i].opts.prefill {
        ServedComesUpon(s, ws[i], i, p, k, ws[s[p].answer].server(k));
      }
    }
  }

  lemma ServedComesUpon(s: seq<Move>, w: World, i: nat, p: nat, k: string, attrs: Body)
    requires Scheduled(s) && i < |s| && s[i].Ask? && Name(s[i].key) == k && Latest(s, p, k, i)
    requires Lookup(w.cache, k) == Stored(s, p, attrs) && !Sends(w, s[i])
    ensures ComesUpon(s, i, p, k) && attrs.Body?
  {}

  lemma StartsEmpty(s: seq<Move>, plan: Plan)
    requires Scheduled(s)
    ensures CacheAt(s, plan, 0) == map[]
  {}

  lemma SameExpiry(s: seq<Move>, p: nat, attrs: Body)
    requires Scheduled(s) && p < |s| && s[p].Arrive?
    ensures Stored(s, p, attrs).Entry? && Stored(s, p, attrs).value == attrs
    ensures Stored(s, p, attrs).expires == Stored(s, p, Falsy("")).expires
  {}

  /** Where the schedule says that k is stale, a run from an empty cache, whose requests are all
      ones that fetch sends, has the one answer in the cache and the other on the server. */
  lemma StaleRun(mode: Mode, s: seq<Move>, p: nat, k: string, n: nat, inside: Body, outside: Body)
    returns (ws: seq<World>)
    requires Scheduled(s) && Ample(mode) && StaleAt(s, p, k, n)
    requires Passes(s, Plan(k, s[p].answer, inside, outside))
    ensures Interleaved(mode, s, ws) && ws[0].cache == map[]
    ensures Lookup(ws[n].cache, k).Entry? && Lookup(ws[n].cache, k).value == inside && ws[n].server(k) == outside
  {
    var plan := Plan(k, s[p].answer, inside, outside);
    ws := Worlds(s, plan);
    hide Moves, Touched, NewEntry, CacheAt, Ample, Passes;
    forall i: nat | i < |s| ensures Moves(mode, s, ws, i) {
      WorldsMove(mode, s, plan, i);
    }
    forall i: nat | i < |s| ensures Sends(ws[i], s[i]) {
      WorldsSend(mode, s, plan, i);
    }
    StartsEmpty(s, plan);
    LatestIsHeld(mode, s, ws, p, k, n);
    SameExpiry(s, p, ws[s[p].answer].server(k));
    StaleValues(s, p, k, n, inside, outside);
    assert ws[n] == WorldAt(s, plan, n) && ws[s[p].answer] == WorldAt(s, plan, s[p].answer);
  }

  lemma StaleValues(s: seq<Move>, p: nat, k: string, n: nat, inside: Body, outside: Body)
    requires Scheduled(s) && StaleAt(s, p, k, n)
    ensures var plan := Plan(k, s[p].answer, inside, outside);
      Value(s, plan, s[p].answer) == inside && Value(s, plan, n) == outside
  {
    hide Touched;
  }

  /** When nothing is evicted, a schedule keeps the cache coherent for every server exactly when no
      response answered before a change arrives after it, and none is stored between a write's
      clearing and its change. The witness may hold only entries that fetch does not serve. */
  lemma KeepsCoherentIff(mode: Mode, s: seq<Move>)
    requires Scheduled(s) && Ample(mode)
    ensures KeepsCoherent(mode, s) <==> NoneLate(s) && NoneBetween(s)
  {
    hide Moves, Touched, Ample, NoneLate, NoneBetween, Value, StaleAt, Latest;
    StaleIff(s);
    if NoneLate(s) && NoneBetween(s) {
      OrderedKeepsCoherent(mode, s);
    } else {
      var p: nat, k, n: nat :| StaleAt(s, p, k, n);
      StaleAnswer(s, p, k, n);
      FalsyPasses(s, k, s[p].answer);
      var ws := StaleRun(mode, s, p, k, n, Falsy("0"), Falsy("1"));
      assert Coherent(ws[0]);
      assert !Coherent(ws[n]);
    }
  }

  lemma StaleAnswer(s: seq<Move>, p: nat, k: string, n: nat)
    requires Scheduled(s) && StaleAt(s, p, k, n)
    ensures p < |s| && s[p].Arrive? && n <= |s|
  {}

  lemma FalsyPasses(s: seq<Move>, k: string, a: nat)
    requires Scheduled(s)
    ensures Passes(s, Plan(k, a, Falsy("0"), Falsy("1")))
  {}

  /** When nothing is evicted, fetch serves what the server answers, in every run of a schedule and
      for every server, exactly when each response that goes stale was falsy by the schedule's own
      requests. */
  lemma KeepsServingIff(mode: Mode, s: seq<Move>)
    requires Scheduled(s) && Ample(mode)
    ensures KeepsServing(mode, s) <==>
      forall p: nat, k, n: nat | StaleAt(s, p, k, n) :: Falsified(s, k, AnswerOf(s, p))
  {
    hide Moves, Touched, Ample, StaleAt, Latest, Falsified, Served, Value;
    if forall p: nat, k, n: nat | StaleAt(s, p, k, n) :: Falsified(s, k, AnswerOf(s, p)) {
      forall ws: seq<World>, n: nat | Interleaved(mode, s, ws) && Coherent(ws[0]) && n < |ws|
        ensures ServesRight(ws[n])
      {
        AllServedRight(mode, s, ws, n);
      }
    } else {
      var p: nat, k, n: nat :| StaleAt(s, p, k, n) && !Falsified(s, k, AnswerOf(s, p));
      StaleAnswer(s, p, k, n);
      UnfalsifiedPasses(s, k, s[p].answer);
      var ws := StaleRun(mode, s, p, k, n, Body("0"), Falsy("1"));
      assert Coherent(ws[0]);
      ServesRightIff(ws[n]);
    }
  }

  lemma UnfalsifiedPasses(s: seq<Move>, k: string, a: nat)
    requires Scheduled(s) && !Falsified(s, k, a)
    ensures Passes(s, Plan(k, a, Body("0"), Falsy("1")))
  {
    hide ComesUpon;
  }

  lemma AllServedRight(mode: Mode, s: seq<Move>, ws: seq<World>, n: nat)
    requires Scheduled(s) && Ample(mode) && Interleaved(mode, s, ws) && Coherent(ws[0]) && n < |ws|
    requires forall p: nat, k, m: nat | StaleAt(s, p, k, m) :: Falsified(s, k, AnswerOf(s, p))
    ensures ServesRight(ws[n])
  {
    AmpleRoom(mode, None, None, map[]);
    hide Moves, Touched, Ample, Latest, Falsified, Served;
    forall k | Lookup(ws[n].cache, k).Entry? && Lookup(ws[n].cache, k).value.Body?
      ensures Lookup(ws[n].cache, k).value == ws[n].server(k)
    {
      var p := RightOrStale(mode, s, ws, n, k);
      if StaleAt(s, p, k, n) && Lookup(ws[n].cache, k).value == ws[s[p].answer].server(k) {
        StaleAnswer(s, p, k, n);
        FalsifiedIsFalsy(mode, s, ws, k, s[p].answer);
      }
    }
    ServesRightIff(ws[n]);
  }

  /** A schedule whose requests come upon nothing that could be served: fetch serves what the
      server answers exactly under the two conditions on responses. */
  lemma SentServingIff(mode: Mode, s: seq<Move>)
    requires Scheduled(s) && Ample(mode) && Sent(s)
    ensures KeepsServing(mode, s) <==> NoneLate(s) && NoneBetween(s)
  {
    hide Ample, NoneLate, NoneBetween, StaleAt, ComesUpon;
    KeepsServingIff(mode, s);
    StaleIff(s);
  }

  /** Otherwise it has a run from an empty cache in which fetch serves one answer when the server
      gives another. */
  lemma StaleServed(mode: Mode, s: seq<Move>) returns (ws: seq<World>, n: nat, k: string, now: int)
    requires Scheduled(s) && Ample(mode) && Sent(s) && !(NoneLate(s) && NoneBetween(s))
    ensures Interleaved(mode, s, ws) && ws[0].cache == map[] && n < |ws|
    ensures Served(ws[n].cache, Some(k), WANTED, now) == Some(Body("0")) && ws[n].server(k) == Body("1")
  {
    hide Moves, Touched, Ample, NoneLate, NoneBetween, StaleAt, ComesUpon;
    StaleIff(s);
    var p: nat, k0, n0: nat :| StaleAt(s, p, k0, n0);
    StaleAnswer(s, p, k0, n0);
    k, n := k0, n0;
    ws := StaleRun(mode, s, p, k, n, Body("0"), Body("1"));
    var x := Lookup(ws[n].cache, k).expires;
    now := if x.At? then x.time else 0;
  }

  /** A response that arrives after a write it was answered before. */
  function Overtaken(key: string, o: Opts, now: int, later: int): seq<Move> {
    [Ask(Some(key), o, now), Answer(0), Clearing(Some(key), None), Change(2), Arrive(1, later)]
  }

  /** A fetch that runs wholly between a write's clearing and its change. */
  function Between(key: string, o: Opts, now: int, later: int): seq<Move> {
    [Clearing(Some(key), None), Ask(Some(key), o, now), Answer(1), Arrive(2, later), Change(0)]
  }

  lemma OvertakenIsLate(key: string, o: Opts, now: int, later: int)
    requires Stores(Some(key), o)
    ensures var s := Overtaken(key, o, now, later); Scheduled(s) && Sent(s) && !NoneLate(s)
  {
    var s := Overtaken(key, o, now, later);
    hide Touched;
    TouchesItself(key);
    assert StoresAt(s, 4, key) && ChangesAt(s, 3, key);
  }

  lemma BetweenIsBetween(key: string, o: Opts, now: int, later: int)
    requires Stores(Some(key), o)
    ensures var s := Between(key, o, now, later); Scheduled(s) && Sent(s) && !NoneBetween(s)
  {
    var s := Between(key, o, now, later);
    hide Touched;
    TouchesItself(key);
    assert Standing(s, 3, key, 4) && ChangesAt(s, 4, key);
  }

  lemma TouchesItself(key: string)
    ensures forall k :: Touched(Some(key), None, k) <==> k == key
  {}

  /** The two ways to go wrong, for any key that a fetch stores and a write touches: with each of
      them fetch may serve what the server no longer answers. */
  lemma StaleSchedules(mode: Mode, key: string, o: Opts, now: int, later: int)
    requires Stores(Some(key), o) && Ample(mode)
    ensures Scheduled(Overtaken(key, o, now, later)) && !KeepsServing(mode, Overtaken(key, o, now, later))
    ensures Scheduled(Between(key, o, now, later)) && !KeepsServing(mode, Between(key, o, now, later))
  {
    OvertakenIsLate(key, o, now, later);
    BetweenIsBetween(key, o, now, later);
    hide Overtaken, Between, Scheduled, Sent, NoneLate, NoneBetween, Ample, KeepsServing;
    SentServingIff(mode, Overtaken(key, o, now, later));
    SentServingIff(mode, Between(key, o, now, later));
  }

  /** Coherence asks for more than right serving: here the second request is sent although the
      response to the first has not expired, so that answer was falsy, and so is the late one. */
  function Harmless(key: string): seq<Move> {
    [Ask(Some(key), WANTED, 0), Answer(0), Arrive(1, 0), Ask(Some(key), WANTED, 1), Answer(3),
     Clearing(Some(key), None), Change(5), Arrive(4, 2)]
  }

  lemma HarmlessIsLate(key: string)
    requires key != ""
    ensures Scheduled(Harmless(key)) && !NoneLate(Harmless(key))
  {
    var s := Harmless(key);
    hide Touched;
    TouchesItself(key);
    assert StoresAt(s, 7, key) && ChangesAt(s, 6, key);
  }

  // Only the late response goes stale, and its answer is the one the second request came upon.
  lemma HarmlessIsFalsified(key: string, p: nat, k: string, n: nat)
    requires key != "" && Scheduled(Harmless(key)) && StaleAt(Harmless(key), p, k, n)
    ensures Falsified(Harmless(key), k, AnswerOf(Harmless(key), p))
  {
    var s := Harmless(key);
    hide Touched;
    TouchesItself(key);
    assert ClearsAt(s, 5, key);
    assert p == 7 && k == key;
    assert Latest(s, 2, key, 3);
    assert ComesUpon(s, 3, 2, key) && Unchanged(s, key, 4, 1);
  }

  lemma ServingAsksLess(mode: Mode, key: string)
    requires key != "" && Ample(mode)
    ensures Scheduled(Harmless(key)) && !KeepsCoherent(mode, Harmless(key)) && KeepsServing(mode, Harmless(key))
  {
    HarmlessIsLate(key);
    hide Harmless, Scheduled, NoneLate, Ample, StaleAt, Falsified, KeepsCoherent, KeepsServing, AnswerOf;
    KeepsCoherentIff(mode, Harmless(key));
    forall p: nat, k, n: nat | StaleAt(Harmless(key), p, k, n)
      ensures Falsified(Harmless(key), k, AnswerOf(Harmless(key), p))
    {
      HarmlessIsFalsified(key, p, k, n);
    }
    KeepsServingIff(mode, Harmless(key));
  }
}
