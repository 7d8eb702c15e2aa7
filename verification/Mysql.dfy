/** The MySQL server as the install scripts see it: accounts with their privileges, databases,
    SQL statements that work or fail, and the scripts' steps built from them. */
module Mysql {
  import opened Wrappers
  import opened Text

  datatype Account = Account(user: string, host: string)

  datatype Privilege = AllOn(db: string) | InsertOn(db: string, table: string) | Other(name: string)

  /** The accounts' privileges and passwords; tables are named by database and name. */
  datatype Db = Db(accounts: map<Account, set<Privilege>>, passwords: map<Account, string>,
                   databases: set<string>, tables: set<(string, string)>)

  datatype Stmt =
    | CreateUser(account: Account, password: string)
    | CreateDatabase(name: string)
    | GrantAll(db: string, account: Account)
    | GrantInsert(db: string, table: string, account: Account)
    | RevokeAll(account: Account)
    | Flush

  /** The hosts every script loops over. */
  const HOSTS := ["%", "localhost"]

  /** A statement's effect; None when the server refuses it. */
  function Exec(d: Db, s: Stmt): Option<Db> {
    match s
    case CreateUser(a, pw) =>
      if a in d.accounts then None
      else Some(d.(accounts := d.accounts[a := {}], passwords := d.passwords[a := pw]))
    case CreateDatabase(n) => if n in d.databases then None else Some(d.(databases := d.databases + {n}))
    case GrantAll(db, a) => Give(d, a, AllOn(db))
    case GrantInsert(db, t, a) => if (db, t) in d.tables then Give(d, a, InsertOn(db, t)) else None
    case RevokeAll(a) => if a in d.accounts then Some(d.(accounts := d.accounts[a := {}])) else None
    case Flush => Some(d)
  }

  function Give(d: Db, a: Account, p: Privilege): Option<Db> {
    if a in d.accounts then Some(d.(accounts := d.accounts[a := d.accounts[a] + {p}])) else None
  }

  /** A script's statements one after another; the first refused one stops it. */
  function Replay(d: Db, stmts: seq<Stmt>): Option<Db>
    decreases |stmts|
  {
    if stmts == [] then Some(d)
    else
      match Exec(d, stmts[0])
      case None => None
      case Some(d1) => Replay(d1, stmts[1..])
  }

  lemma {:induction false} ReplayConcat(d: Db, a: seq<Stmt>, b: seq<Stmt>)
    ensures Replay(d, a + b) == match Replay(d, a) { case None => None case Some(d1) => Replay(d1, b) }
    decreases |a|
  {
    if a == [] {
      assert a + b == b;
    } else {
      assert (a + b)[1..] == a[1..] + b;
      if Exec(d, a[0]).Some? {
        ReplayConcat(Exec(d, a[0]).value, a[1..], b);
      }
    }
  }

  /** `show databases like '...'`: `_` stands for any character and `%` for any text. */
  predicate Like(pattern: string, s: string)
    decreases |pattern| + |s|
  {
    if pattern == "" then s == ""
    else if pattern[0] == '%' then Like(pattern[1..], s) || (s != "" && Like(pattern, s[1..]))
    else s != "" && (pattern[0] == '_' || pattern[0] == s[0]) && Like(pattern[1..], s[1..])
  }

  /** No wildcard in a name. */
  predicate Plain(s: string) { '_' !in s && '%' !in s }

  /** Text without wildcards stands for itself, `_` for exactly one character, `%` for any text. */
  lemma {:induction false} LikePrefix(a: string, p: string, s: string)
    requires Plain(a)
    ensures Like(a + p, s) <==> a <= s && Like(p, s[|a|..])
  {
    if a == "" {
      assert a + p == p && s[0..] == s;
    } else {
      assert (a + p)[0] == a[0] && (a + p)[1..] == a[1..] + p;
      assert a == [a[0]] + a[1..];
      if s != "" {
        LikePrefix(a[1..], p, s[1..]);
        assert a <= s <==> a[0] == s[0] && a[1..] <= s[1..];
        if a <= s { assert s[1..][|a| - 1..] == s[|a|..]; }
      }
    }
  }

  lemma LikeOne(p: string, s: string)
    ensures Like("_" + p, s) <==> s != "" && Like(p, s[1..])
  {
    assert ("_" + p)[1..] == p;
  }

  lemma {:induction false} LikeMany(p: string, s: string)
    ensures Like("%" + p, s) <==> exists k :: 0 <= k <= |s| && Like(p, s[k..])
  {
    assert ("%" + p)[1..] == p && s[0..] == s;
    if s != "" {
      LikeMany(p, s[1..]);
      forall k | 0 <= k <= |s[1..]| ensures s[1..][k..] == s[k + 1..] {}
      if k :| 0 <= k <= |s| && Like(p, s[k..]) {
        if k > 0 { assert s[1..][k - 1..] == s[k..]; }
      }
      if k :| 0 <= k <= |s[1..]| && Like(p, s[1..][k..]) {
        assert Like(p, s[k + 1..]);
      }
    }
  }

  /** A name without wildcards matches itself and nothing else. */
  lemma LikePlain(p: string, s: string)
    requires Plain(p)
    ensures Like(p, s) <==> p == s
  {
    assert p + "" == p;
    LikePrefix(p, "", s);
    assert p <= s && s[|p|..] == "" ==> p == s;
  }

  /** Between names without wildcards, `_` stands for one character and `%` for any text. */
  lemma LikeGap(a: string, b: string, s: string)
    requires Plain(a) && Plain(b)
    ensures Like(a + "_" + b, s) <==> exists c: char :: s == a + ([c] + b)
  {
    hide *;
    Assoc(a, "_", b);
    LikePrefix(a, "_" + b, s);
    if a <= s {
      var t := s[|a|..];
      LikeOne(b, t);
      if t != "" {
        LikePlain(b, t[1..]);
        assert t == [t[0]] + t[1..] && s == a + t;
      }
    }
    forall c: char | s == a + ([c] + b) ensures a <= s && s[|a|..] == [c] + b && ([c] + b)[1..] == b {}
  }

  lemma LikeAround(a: string, b: string, s: string)
    requires Plain(a) && Plain(b)
    ensures Like(a + "%" + b, s) <==> exists m :: s == a + (m + b)
  {
    hide *;
    Assoc(a, "%", b);
    LikePrefix(a, "%" + b, s);
    if a <= s {
      LikeEnd(b, s[|a|..]);
      forall m | s[|a|..] == m + b ensures s == a + (m + b) {}
    }
    forall m | s == a + (m + b) ensures a <= s && s[|a|..] == m + b {}
  }

  lemma LikeEnd(b: string, t: string)
    requires Plain(b)
    ensures Like("%" + b, t) <==> exists m :: t == m + b
  {
    LikeMany(b, t);
    hide *;
    forall k | 0 <= k <= |t| ensures Like(b, t[k..]) <==> t[k..] == b {
      LikePlain(b, t[k..]);
    }
    if k :| 0 <= k <= |t| && Like(b, t[k..]) {
      assert t == t[..k] + b;
    }
    if m :| t == m + b {
      assert t[|m|..] == b;
      assert Like(b, t[|m|..]);
    }
  }

  lemma {:induction false} LikeItself(s: string)
    ensures Like(s, s)
  {
    if s != "" {
      LikeItself(s[1..]);
    }
  }

  /** `verify_db` */
  predicate HasDatabase(d: Db, name: string) { exists n :: n in d.databases && Like(name, n) }

  lemma HasDatabaseIff(d: Db, name: string)
    requires Plain(name)
    ensures HasDatabase(d, name) <==> name in d.databases
  {
    forall n ensures Like(name, n) <==> name == n {
      LikePlain(name, n);
    }
  }

  // ---- calls that may fail -------------------------------------------------

  /** What becomes of one call to the server besides the statement itself: it goes through, it
      fails before any effect, or it takes effect and still reports failure. */
  datatype Fate = Works | FailsClean | FailsDirty

  /** The server, and the fates of the calls to come; calls beyond them work. */
  datatype Machine = Machine(db: Db, fates: seq<Fate>)

  function Call(m: Machine, s: Stmt): (Machine, bool) {
    var fate := if m.fates == [] then Works else m.fates[0];
    var rest := if m.fates == [] then [] else m.fates[1..];
    var effect := Exec(m.db, s);
    (Machine(if effect.Some? && !fate.FailsClean? then effect.value else m.db, rest), fate.Works? && effect.Some?)
  }

  /** One step of a script. One of the scripts logs the flush after a grant, the other does
      not. The insert grant runs under the grantor's own account. */
  datatype Step =
    | EnsureUser(account: Account, password: string)
    | EnsureDatabase(name: string)
    | Grant(db: string, account: Account, logsFlush: bool)
    | Revoke(account: Account)
    | GrantInsertAs(grantor: string, db: string, table: string, account: Account)

  /** MySQL lets an account grant what it holds with grant option. */
  predicate MayGrant(d: Db, user: string, db: string) {
    exists h :: h in HOSTS && Account(user, h) in d.accounts && AllOn(db) in d.accounts[Account(user, h)]
  }

  function ThenFlush(m: Machine, s: Stmt): (Machine, bool) {
    var (m1, ok) := Call(m, s);
    if ok then Call(m1, Flush) else (m1, false)
  }

  /** A step of a real run, and whether the script goes on. A user whose password is empty is
      created without a check that the call worked. */
  function Perform(m: Machine, step: Step): (Machine, bool) {
    match step
    case EnsureUser(a, password) =>
      if a in m.db.accounts then (m, true)
      else
        var (m1, ok) := Call(m, CreateUser(a, password));
        (m1, if ok then a in m1.db.accounts else password == "")
    case EnsureDatabase(n) =>
      if HasDatabase(m.db, n) then (m, true)
      else
        var (m1, ok) := Call(m, CreateDatabase(n));
        (m1, ok && HasDatabase(m1.db, n))
    case Grant(db, a, _) => ThenFlush(m, GrantAll(db, a))
    case Revoke(a) => ThenFlush(m, RevokeAll(a))
    case GrantInsertAs(u, db, t, a) =>
      if MayGrant(m.db, u, db) then Call(m, GrantInsert(db, t, a)) else (m, false)
  }

  function PerformAll(m: Machine, steps: seq<Step>): (Machine, bool)
    decreases |steps|
  {
    if steps == [] then (m, true)
    else
      var (m1, alive) := Perform(m, steps[0]);
      if alive then PerformAll(m1, steps[1..]) else (m1, false)
  }

  lemma {:induction false} PerformConcat(m: Machine, a: seq<Step>, b: seq<Step>)
    ensures PerformAll(m, a + b) ==
            var (m1, alive) := PerformAll(m, a); if alive then PerformAll(m1, b) else (m1, false)
    decreases |a|
  {
    hide Perform;
    if a == [] {
      assert a + b == b;
    } else {
      assert (a + b)[1..] == a[1..] + b;
      var (m1, alive) := Perform(m, a[0]);
      if alive {
        PerformConcat(m1, a[1..], b);
      }
    }
  }

  /** What a step is for: its effect when nothing fails. */
  function Effect(d: Db, step: Step): Db {
    match step
    case EnsureUser(a, pw) =>
      if a in d.accounts then d
      else d.(accounts := d.accounts[a := {}], passwords := d.passwords[a := pw])
    case EnsureDatabase(n) => if HasDatabase(d, n) then d else d.(databases := d.databases + {n})
    case Grant(db, a, _) => if a in d.accounts then Give(d, a, AllOn(db)).value else d
    case Revoke(a) => if a in d.accounts then d.(accounts := d.accounts[a := {}]) else d
    case GrantInsertAs(u, db, t, a) => if a in d.accounts then Give(d, a, InsertOn(db, t)).value else d
  }

  function Effects(d: Db, steps: seq<Step>): Db {
    if steps == [] then d else Effect(Effects(d, steps[..|steps| - 1]), steps[|steps| - 1])
  }

  /** The step's account is there, and for an insert grant the table, and the grantor may grant. */
  predicate Possible(d: Db, step: Step) {
    match step
    case EnsureUser(_, _) => true
    case EnsureDatabase(_) => true
    case Grant(_, a, _) => a in d.accounts
    case Revoke(a) => a in d.accounts
    case GrantInsertAs(u, db, t, a) => a in d.accounts && (db, t) in d.tables && MayGrant(d, u, db)
  }

  /** Whatever fails, a step has its whole effect or none; if the script goes on it has it, or a
      user without a password was not created. */
  lemma PerformOutcome(m: Machine, step: Step)
    ensures var (m1, alive) := Perform(m, step);
      && (m1.db == m.db || (Possible(m.db, step) && m1.db == Effect(m.db, step)))
      && (alive ==> (Possible(m.db, step) && m1.db == Effect(m.db, step))
                    || (step.EnsureUser? && step.password == "" && m.fates != []))
      && (m.fates == [] ==> m1.fates == [] && alive == Possible(m.db, step))
  {
    if step.EnsureDatabase? {
      LikeItself(step.name);
    }
  }

  /** Which calls a step makes, and what it does when they fail: a grant and a revoke are followed
      by a flush that must work too; an insert grant and a creation are one call. A call that fails
      dirtily has its effect, one that fails cleanly has none. */
  lemma CallsMade(d: Db, step: Step, f: Fate, g: Fate)
    requires Possible(d, step)
    requires step.EnsureUser? ==> step.account !in d.accounts && step.password != ""
    requires step.EnsureDatabase? ==> !HasDatabase(d, step.name)
    ensures var (m, alive) := Perform(Machine(d, [f, g]), step);
      && m.db == (if f == FailsClean then d else Effect(d, step))
      && (step.Grant? || step.Revoke? ==> (alive <==> f == Works && g == Works))
      && (!step.Grant? && !step.Revoke? ==> (alive <==> f == Works) && m.fates == [g])
  {
    assert [f, g][1..] == [g] && [g][1..] == [];
    if step.EnsureDatabase? {
      LikeItself(step.name);
    }
  }

  /** With an empty password the failure is swallowed: the script goes on without the user. */
  lemma EmptyPasswordSwallows(m: Machine, a: Account)
    requires a !in m.db.accounts && m.fates != [] && m.fates[0] == FailsClean
    ensures Perform(m, EnsureUser(a, "")) == (Machine(m.db, m.fates[1..]), true)
  {}

  predicate Checked(steps: seq<Step>) {
    forall i | 0 <= i < |steps| :: steps[i].EnsureUser? ==> steps[i].password != ""
  }

  lemma {:induction false} EffectsSnoc(d: Db, steps: seq<Step>, i: nat)
    requires i < |steps|
    ensures Effects(d, steps[..i + 1]) == Effect(Effects(d, steps[..i]), steps[i])
  {
    assert steps[..i + 1][..i] == steps[..i];
  }

  /** A run stops after some number of whole steps, each of them possible; it goes to the end
      exactly when that is all of them, and without failing calls when all are possible. */
  lemma {:induction false} RunOutcome(d: Db, m: Machine, steps: seq<Step>, i: nat) returns (k: nat)
    requires (Checked(steps) || m.fates == []) && i <= |steps| && m.db == Effects(d, steps[..i])
    ensures var (m1, alive) := PerformAll(m, steps[i..]);
      && i <= k <= |steps| && m1.db == Effects(d, steps[..k])
      && (forall j | i <= j < k :: Possible(Effects(d, steps[..j]), steps[j]))
      && (alive ==> k == |steps|)
      && (m.fates == [] ==> m1.fates == [])
      && (m.fates == [] ==> (alive <==> forall j | i <= j < |steps| :: Possible(Effects(d, steps[..j]), steps[j])))
    decreases |steps| - i
  {
    hide Perform, Possible, Effect, Effects;
    if i == |steps| {
      k := i;
    } else {
      PerformOutcome(m, steps[i]);
      EffectsSnoc(d, steps, i);
      assert steps[i..][0] == steps[i] && steps[i..][1..] == steps[i + 1..];
      var (m1, alive) := Perform(m, steps[i]);
      if alive {
        k := RunOutcome(d, m1, steps, i + 1);
      } else {
        k := if m1.db == m.db then i else i + 1;
      }
    }
  }

  // ---- dry runs ------------------------------------------------------------

  /** What the dry run logs for a step, looking at a server that it does not change. */
  function Logged(d: Db, step: Step): seq<Stmt> {
    match step
    case EnsureUser(a, password) => if a in d.accounts then [] else [CreateUser(a, password)]
    case EnsureDatabase(n) => if HasDatabase(d, n) then [] else [CreateDatabase(n)]
    case Grant(db, a, flush) => [GrantAll(db, a)] + if flush then [Flush] else []
    case Revoke(a) => [RevokeAll(a), Flush]
    case GrantInsertAs(_, db, t, a) => [GrantInsert(db, t, a), Flush]
  }

  function LogAll(d: Db, steps: seq<Step>): seq<Stmt>
    decreases |steps|
  {
    if steps == [] then [] else Logged(d, steps[0]) + LogAll(d, steps[1..])
  }

  lemma {:induction false} LogConcat(d: Db, a: seq<Step>, b: seq<Step>)
    ensures LogAll(d, a + b) == LogAll(d, a) + LogAll(d, b)
    decreases |a|
  {
    hide Logged;
    if a == [] {
      assert a + b == b;
    } else {
      assert (a + b)[1..] == a[1..] + b;
      LogConcat(d, a[1..], b);
      Assoc(Logged(d, a[0]), LogAll(d, a[1..]), LogAll(d, b));
    }
  }

  lemma LogTwo(d: Db, s: Step, t: Step)
    ensures LogAll(d, [s, t]) == Logged(d, s) + Logged(d, t)
    ensures LogAll(d, [s]) == Logged(d, s)
  {
    hide Logged;
    assert [s, t][1..] == [t] && [t][1..] == [] && [s][1..] == [];
    assert Logged(d, t) + [] == Logged(d, t) && Logged(d, s) + [] == Logged(d, s);
    assert LogAll(d, [t]) == Logged(d, t) + LogAll(d, []);
  }

  /** The dry run decides as the real run does, though it looks at the untouched server. */
  predicate SameDecision(d: Db, now: Db, step: Step) {
    match step
    case EnsureUser(a, _) => a in d.accounts <==> a in now.accounts
    case EnsureDatabase(n) => HasDatabase(d, n) <==> HasDatabase(now, n)
    case GrantInsertAs(u, db, t, a) => a in now.accounts && (db, t) in now.tables ==> MayGrant(now, u, db)
    case _ => true
  }

  /** Replaying what the dry run logged for a step does what the real step does exactly when
      the two decide alike. (The dry run is made before; what was there then is there now.) */
  lemma LoggedStep(d: Db, now: Db, step: Step)
    requires d.accounts.Keys <= now.accounts.Keys && d.databases <= now.databases
    ensures Replay(now, Logged(d, step)) == (if Possible(now, step) then Some(Effect(now, step)) else None)
       <==> SameDecision(d, now, step)
    ensures step.EnsureDatabase? && !SameDecision(d, now, step) ==>
      HasDatabase(now, step.name)
      && (Replay(now, Logged(d, step)) == None
          || (step.name !in now.databases
              && Replay(now, Logged(d, step)) == Some(now.(databases := now.databases + {step.name}))))
    ensures step.EnsureUser? && !SameDecision(d, now, step) ==> Replay(now, Logged(d, step)) == None
  {
    forall s ensures Replay(now, [s]) == Replay(now, [s, Flush]) == Exec(now, s) { ReplayOne(now, s); }
    match step
    case EnsureDatabase(n) =>
      LikeItself(n);
      assert HasDatabase(d, n) ==> HasDatabase(now, n);
      assert n !in now.databases ==> now.(databases := now.databases + {n}).databases != now.databases;
    case Grant(db, a, flush) =>
      assert Logged(d, step) == if flush then [GrantAll(db, a), Flush] else [GrantAll(db, a)];
    case _ =>
  }

  lemma ReplayOne(d: Db, s: Stmt)
    ensures Replay(d, [s]) == Exec(d, s)
    ensures Replay(d, [s, Flush]) == Exec(d, s)
  {
    assert [s][1..] == [] && [Flush][1..] == [];
    assert [s, Flush][1..] == [Flush];
  }

  lemma NoEffects(d: Db, steps: seq<Step>)
    ensures Effects(d, steps[..0]) == d
  {
    assert steps[..0] == [];
  }

  /** What was there when the dry run was made is still there at every step. */
  predicate Keeps(d: Db, steps: seq<Step>) {
    forall i | 0 <= i <= |steps| ::
      d.accounts.Keys <= Effects(d, steps[..i]).accounts.Keys && d.databases <= Effects(d, steps[..i]).databases
  }

  // The log's first part replays to where the real run is.
  lemma {:induction false} ReplayTo(d: Db, steps: seq<Step>, i: nat)
    requires Keeps(d, steps) && i <= |steps|
    requires forall j | 0 <= j < i ::
      Possible(Effects(d, steps[..j]), steps[j]) && SameDecision(d, Effects(d, steps[..j]), steps[j])
    ensures Replay(d, LogAll(d, steps[..i])) == Some(Effects(d, steps[..i]))
  {
    hide Possible, SameDecision, Logged, Effect, Exec, Keeps;
    if i == 0 {
      assert steps[..0] == [];
    } else {
      ReplayTo(d, steps, i - 1);
      LoggedNext(d, steps, i - 1);
      EffectsSnoc(d, steps, i - 1);
    }
  }

  // From there, the rest of the log begins with what was logged for the next step.
  lemma LoggedNext(d: Db, steps: seq<Step>, i: nat)
    requires Keeps(d, steps) && i < |steps|
    requires Replay(d, LogAll(d, steps[..i])) == Some(Effects(d, steps[..i]))
    ensures var now := Effects(d, steps[..i]);
      && d.accounts.Keys <= now.accounts.Keys && d.databases <= now.databases
      && Replay(d, LogAll(d, steps[..i + 1])) == Replay(now, Logged(d, steps[i]))
      && (Replay(now, Logged(d, steps[i])) == (if Possible(now, steps[i]) then Some(Effect(now, steps[i])) else None)
          <==> SameDecision(d, now, steps[i]))
  {
    hide Possible, SameDecision, Logged, Effect, Effects, Exec, Replay, LogAll;
    var now := Effects(d, steps[..i]);
    LoggedStep(d, now, steps[i]);
    assert steps[..i + 1] == steps[..i] + [steps[i]];
    LogConcat(d, steps[..i], [steps[i]]);
    LogTwo(d, steps[i], steps[i]);
    ReplayConcat(d, LogAll(d, steps[..i]), LogAll(d, [steps[i]]));
  }

  lemma SplitLog(d: Db, steps: seq<Step>, i: nat)
    requires i <= |steps|
    ensures Replay(d, LogAll(d, steps)) ==
            match Replay(d, LogAll(d, steps[..i])) case None => None case Some(p) => Replay(p, LogAll(d, steps[i..]))
  {
    assert steps == steps[..i] + steps[i..];
    LogConcat(d, steps[..i], steps[i..]);
    ReplayConcat(d, LogAll(d, steps[..i]), LogAll(d, steps[i..]));
  }

  /** The server after a number of runs, each with its own failures. */
  function AfterRuns(d: Db, steps: seq<Step>, runs: seq<seq<Fate>>): Db {
    if runs == [] then d
    else PerformAll(Machine(AfterRuns(d, steps, runs[..|runs| - 1]), runs[|runs| - 1]), steps).0.db
  }

  // ---- the server object ---------------------------------------------------

  /** The server a script talks to, and the file its dry run appends to. */
  class Server {
    var db: Db
    var fates: seq<Fate>
    var log: seq<Stmt>

    constructor (db: Db, fates: seq<Fate>)
      ensures State() == Machine(db, fates) && log == []
    {
      this.db := db;
      this.fates := fates;
      log := [];
    }

    ghost function State(): Machine
      reads this
    {
      Machine(db, fates)
    }

    method Execute(s: Stmt) returns (ok: bool)
      modifies this
      ensures (State(), ok) == Call(old(State()), s) && log == old(log)
    {
      var (m, done) := Call(Machine(db, fates), s);
      db, fates := m.db, m.fates;
      ok := done;
    }

    /** `logFile` */
    method LogFile(s: Stmt)
      modifies this
      ensures State() == old(State()) && log == old(log) + [s]
    {
      log := log + [s];
    }
  }

  /** What a script's method has done that stands for the given steps: performed them, or, in
      dry mode, only logged them. */
  ghost predicate Did(m: Machine, log: seq<Stmt>, steps: seq<Step>, dry: bool, m': Machine, log': seq<Stmt>,
                      alive: bool) {
    if dry then alive && m' == m && log' == log + LogAll(m.db, steps)
    else (m', alive) == PerformAll(m, steps) && log' == log
  }

  /** How far a script is: what is left to do from here makes up the whole. */
  ghost predicate Doing(m: Machine, log: seq<Stmt>, steps: seq<Step>, dry: bool, m': Machine, log': seq<Stmt>,
                        left: seq<Step>) {
    if dry then m' == m && log' + LogAll(m.db, left) == log + LogAll(m.db, steps)
    else PerformAll(m', left) == PerformAll(m, steps) && log' == log
  }

  // One step, performed or logged.
  lemma DoingStep(m: Machine, log: seq<Stmt>, steps: seq<Step>, dry: bool, m1: Machine, log1: seq<Stmt>, i: nat,
                  m': Machine, log': seq<Stmt>, alive: bool)
    requires i < |steps| && Doing(m, log, steps, dry, m1, log1, steps[i..])
    requires if dry then alive && m' == m1 && log' == log1 + Logged(m1.db, steps[i])
             else (m', alive) == Perform(m1, steps[i]) && log' == log1
    ensures if alive then Doing(m, log, steps, dry, m', log', steps[i + 1..])
            else Did(m, log, steps, dry, m', log', false)
  {
    hide Perform, Logged;
    assert steps[i..][0] == steps[i] && steps[i..][1..] == steps[i + 1..];
    Assoc(log1, Logged(m1.db, steps[i]), LogAll(m1.db, steps[i + 1..]));
  }

  lemma DoingEnds(m: Machine, log: seq<Stmt>, steps: seq<Step>, dry: bool, m': Machine, log': seq<Stmt>)
    requires Doing(m, log, steps, dry, m', log', [])
    ensures Did(m, log, steps, dry, m', log', true)
  {
    assert log' + [] == log';
  }

  /** One method after another; the second is not reached when the first gives up. */
  lemma DidThen(m: Machine, log: seq<Stmt>, a: seq<Step>, b: seq<Step>, dry: bool,
                m1: Machine, log1: seq<Stmt>, alive1: bool, m': Machine, log': seq<Stmt>, alive: bool)
    requires Did(m, log, a, dry, m1, log1, alive1)
    requires if alive1 then Did(m1, log1, b, dry, m', log', alive) else m' == m1 && log' == log1 && !alive
    ensures Did(m, log, a + b, dry, m', log', alive)
  {
    hide Perform, Logged;
    PerformConcat(m, a, b);
    LogConcat(m.db, a, b);
    Assoc(log, LogAll(m.db, a), LogAll(m.db, b));
  }
}
