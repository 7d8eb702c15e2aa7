/** dba_script.py for MySQL: create users and databases where they are missing and grant the
    privileges, or, in dry mode, log the statements that would do so. */
module Provisioning {
  import opened Wrappers
  import opened Mysql
  import opened Text

  /** The names and passwords the script asks for. */
  datatype Config = Config(dbName: string, dbUser: string, dbPassword: string,
                           auditDbName: string, auditDbUser: string, auditDbPassword: string)

  function UserSteps(user: string, password: string): seq<Step> {
    [EnsureUser(Account(user, "%"), password), EnsureUser(Account(user, "localhost"), password)]
  }

  function GrantSteps(db: string, user: string): seq<Step> {
    [Grant(db, Account(user, "%"), false), Grant(db, Account(user, "localhost"), false)]
  }

  function AuditSteps(c: Config): seq<Step> {
    UserSteps(c.auditDbUser, c.auditDbPassword)
    + ([EnsureDatabase(c.auditDbName)] + GrantSteps(c.auditDbName, c.dbUser))
  }

  /** Everything `main` does, in order. */
  function AllSteps(c: Config): seq<Step> {
    UserSteps(c.dbUser, c.dbPassword) + ([EnsureDatabase(c.dbName)] + (GrantSteps(c.dbName, c.dbUser) + AuditSteps(c)))
  }

  // ---- the script ----------------------------------------------------------

  /** One turn of `create_rangerdb_user`: create the user on a host unless it is there. */
  method CreateUserOnHost(server: Server, account: Account, password: string, dryMode: bool) returns (alive: bool)
    modifies server
    ensures if dryMode
            then alive && server.State() == old(server.State())
                 && server.log == old(server.log) + Logged(server.db, EnsureUser(account, password))
            else (server.State(), alive) == Perform(old(server.State()), EnsureUser(account, password))
                 && server.log == old(server.log)
  {
    if account in server.db.accounts {
      return true;
    }
    if dryMode {
      server.LogFile(CreateUser(account, password));
      return true;
    }
    var ok := server.Execute(CreateUser(account, password));
    if password == "" {
      return ok ==> account in server.db.accounts;
    }
    return ok && account in server.db.accounts;
  }

  method CreateRangerdbUser(server: Server, user: string, password: string, dryMode: bool) returns (alive: bool)
    modifies server
    ensures Did(old(server.State()), old(server.log), UserSteps(user, password), dryMode,
                server.State(), server.log, alive)
  {
    hide Perform, Logged;
    ghost var steps := UserSteps(user, password);
    assert steps[0..] == steps;
    for i := 0 to 2
      invariant Doing(old(server.State()), old(server.log), steps, dryMode, server.State(), server.log, steps[i..])
    {
      ghost var m, log := server.State(), server.log;
      alive := CreateUserOnHost(server, Account(user, HOSTS[i]), password, dryMode);
      DoingStep(old(server.State()), old(server.log), steps, dryMode, m, log, i, server.State(), server.log, alive);
      if !alive {
        return;
      }
    }
    DoingEnds(old(server.State()), old(server.log), steps, dryMode, server.State(), server.log);
    return true;
  }

  method CreateDb(server: Server, name: string, dryMode: bool) returns (alive: bool)
    modifies server
    ensures Did(old(server.State()), old(server.log), [EnsureDatabase(name)], dryMode,
                server.State(), server.log, alive)
  {
    ghost var steps := [EnsureDatabase(name)];
    assert steps[0..] == steps && steps[1..] == [];
    ghost var m, log := server.State(), server.log;
    alive := true;
    if !HasDatabase(server.db, name) {
      if dryMode {
        server.LogFile(CreateDatabase(name));
      } else {
        var ok := server.Execute(CreateDatabase(name));
        alive := ok && HasDatabase(server.db, name);
      }
    }
    assert if dryMode then server.log == log + Logged(m.db, steps[0])
           else (server.State(), alive) == Perform(m, steps[0]);
    hide Perform, Logged;
    DoingStep(m, log, steps, dryMode, m, log, 0, server.State(), server.log, alive);
    if alive {
      DoingEnds(m, log, steps, dryMode, server.State(), server.log);
    }
  }

  /** One turn of `grant_xa_db_user`: grant, then flush. */
  method GrantOnHost(server: Server, db: string, account: Account, dryMode: bool) returns (alive: bool)
    modifies server
    ensures if dryMode
            then alive && server.State() == old(server.State())
                 && server.log == old(server.log) + Logged(server.db, Grant(db, account, false))
            else (server.State(), alive) == Perform(old(server.State()), Grant(db, account, false))
                 && server.log == old(server.log)
  {
    if dryMode {
      server.LogFile(GrantAll(db, account));
      return true;
    }
    alive := server.Execute(GrantAll(db, account));
    if alive {
      alive := server.Execute(Flush);
    }
  }

  method GrantXaDbUser(server: Server, db: string, user: string, dryMode: bool) returns (alive: bool)
    modifies server
    ensures Did(old(server.State()), old(server.log), GrantSteps(db, user), dryMode, server.State(), server.log, alive)
  {
    hide Perform, Logged;
    ghost var steps := GrantSteps(db, user);
    assert steps[0..] == steps;
    for i := 0 to 2
      invariant Doing(old(server.State()), old(server.log), steps, dryMode, server.State(), server.log, steps[i..])
    {
      ghost var m, log := server.State(), server.log;
      alive := GrantOnHost(server, db, Account(user, HOSTS[i]), dryMode);
      DoingStep(old(server.State()), old(server.log), steps, dryMode, m, log, i, server.State(), server.log, alive);
      if !alive {
        return;
      }
    }
    DoingEnds(old(server.State()), old(server.log), steps, dryMode, server.State(), server.log);
    return true;
  }

  /** Create a database and grant the main user everything on it. */
  method CreateAndGrant(server: Server, db: string, user: string, dryMode: bool) returns (alive: bool)
    modifies server
    ensures Did(old(server.State()), old(server.log), [EnsureDatabase(db)] + GrantSteps(db, user), dryMode,
                server.State(), server.log, alive)
  {
    hide Did;
    alive := CreateDb(server, db, dryMode);
    ghost var m, log, went := server.State(), server.log, alive;
    if alive {
      alive := GrantXaDbUser(server, db, user, dryMode);
    }
    DidThen(old(server.State()), old(server.log), [EnsureDatabase(db)], GrantSteps(db, user), dryMode, m, log, went,
            server.State(), server.log, alive);
  }

  method CreateAuditdbUser(server: Server, c: Config, dryMode: bool) returns (alive: bool)
    modifies server
    ensures Did(old(server.State()), old(server.log), AuditSteps(c), dryMode, server.State(), server.log, alive)
  {
    hide Did;
    alive := CreateRangerdbUser(server, c.auditDbUser, c.auditDbPassword, dryMode);
    ghost var m, log, went := server.State(), server.log, alive;
    if alive {
      alive := CreateAndGrant(server, c.auditDbName, c.dbUser, dryMode);
    }
    DidThen(old(server.State()), old(server.log), UserSteps(c.auditDbUser, c.auditDbPassword),
            [EnsureDatabase(c.auditDbName)] + GrantSteps(c.auditDbName, c.dbUser), dryMode, m, log, went,
            server.State(), server.log, alive);
  }

  /** The part of `main` below "Methods Begin", in either mode. */
  method Setup(server: Server, c: Config, dryMode: bool) returns (alive: bool)
    modifies server
    ensures Did(old(server.State()), old(server.log), AllSteps(c), dryMode, server.State(), server.log, alive)
  {
    hide Did;
    alive := CreateRangerdbUser(server, c.dbUser, c.dbPassword, dryMode);
    ghost var m1, log1, went1 := server.State(), server.log, alive;
    if alive {
      alive := CreateDb(server, c.dbName, dryMode);
    }
    ghost var m2, log2, went2 := server.State(), server.log, alive;
    if alive {
      alive := GrantXaDbUser(server, c.dbName, c.dbUser, dryMode);
    }
    ghost var m3, log3, went3 := server.State(), server.log, alive;
    if alive {
      alive := CreateAuditdbUser(server, c, dryMode);
    }
    if went2 {
      DidThen(m2, log2, GrantSteps(c.dbName, c.dbUser), AuditSteps(c), dryMode, m3, log3, went3,
              server.State(), server.log, alive);
    }
    if went1 {
      DidThen(m1, log1, [EnsureDatabase(c.dbName)], GrantSteps(c.dbName, c.dbUser) + AuditSteps(c), dryMode,
              m2, log2, went2, server.State(), server.log, alive);
    }
    DidThen(old(server.State()), old(server.log), UserSteps(c.dbUser, c.dbPassword),
            [EnsureDatabase(c.dbName)] + (GrantSteps(c.dbName, c.dbUser) + AuditSteps(c)), dryMode, m1, log1, went1,
            server.State(), server.log, alive);
  }

  // ---- what the dry run writes -----------------------------------------------

  function UserLine(d: Db, a: Account, password: string): seq<Stmt> {
    if a in d.accounts then [] else [CreateUser(a, password)]
  }

  function UserLines(d: Db, user: string, password: string): seq<Stmt> {
    UserLine(d, Account(user, "%"), password) + UserLine(d, Account(user, "localhost"), password)
  }

  function DatabaseLine(d: Db, name: string): seq<Stmt> {
    if HasDatabase(d, name) then [] else [CreateDatabase(name)]
  }

  function GrantLines(db: string, user: string): seq<Stmt> {
    [GrantAll(db, Account(user, "%")), GrantAll(db, Account(user, "localhost"))]
  }

  /** The log, line by line: what is missing is created, with its password, and everything is
      granted. */
  lemma SetupLog(c: Config, d: Db)
    ensures LogAll(d, AllSteps(c)) ==
            UserLines(d, c.dbUser, c.dbPassword) + (DatabaseLine(d, c.dbName) + (GrantLines(c.dbName, c.dbUser)
            + (UserLines(d, c.auditDbUser, c.auditDbPassword) + (DatabaseLine(d, c.auditDbName)
               + GrantLines(c.auditDbName, c.dbUser)))))
  {
    hide LogAll;
    UserLog(d, c.dbUser, c.dbPassword);
    UserLog(d, c.auditDbUser, c.auditDbPassword);
    OtherLog(d, c.dbName, c.dbUser);
    OtherLog(d, c.auditDbName, c.dbUser);
    hide Logged, HasDatabase, UserLines, DatabaseLine, GrantLines, UserSteps, GrantSteps;
    var (u, v) := (UserSteps(c.dbUser, c.dbPassword), UserSteps(c.auditDbUser, c.auditDbPassword));
    var (g, h) := (GrantSteps(c.dbName, c.dbUser), GrantSteps(c.auditDbName, c.dbUser));
    LogConcat(d, u, [EnsureDatabase(c.dbName)] + (g + AuditSteps(c)));
    LogConcat(d, [EnsureDatabase(c.dbName)], g + AuditSteps(c));
    LogConcat(d, g, AuditSteps(c));
    LogConcat(d, v, [EnsureDatabase(c.auditDbName)] + h);
    LogConcat(d, [EnsureDatabase(c.auditDbName)], h);
  }

  lemma UserLog(d: Db, user: string, password: string)
    ensures LogAll(d, UserSteps(user, password)) == UserLines(d, user, password)
  {
    hide LogAll;
    LogTwo(d, EnsureUser(Account(user, "%"), password), EnsureUser(Account(user, "localhost"), password));
  }

  lemma OtherLog(d: Db, db: string, user: string)
    ensures LogAll(d, [EnsureDatabase(db)]) == DatabaseLine(d, db)
    ensures LogAll(d, GrantSteps(db, user)) == GrantLines(db, user)
  {
    hide LogAll, HasDatabase;
    var (s, t) := (Grant(db, Account(user, "%"), false), Grant(db, Account(user, "localhost"), false));
    LogTwo(d, EnsureDatabase(db), s);
    LogTwo(d, s, t);
    assert Logged(d, s) == [GrantAll(db, s.account)] && Logged(d, t) == [GrantAll(db, t.account)];
  }

  // ---- what a run amounts to -----------------------------------------------

  lemma StepsSpelledOut(c: Config)
    ensures AllSteps(c) == [
      EnsureUser(Account(c.dbUser, "%"), c.dbPassword), EnsureUser(Account(c.dbUser, "localhost"), c.dbPassword),
      EnsureDatabase(c.dbName),
      Grant(c.dbName, Account(c.dbUser, "%"), false), Grant(c.dbName, Account(c.dbUser, "localhost"), false),
      EnsureUser(Account(c.auditDbUser, "%"), c.auditDbPassword),
      EnsureUser(Account(c.auditDbUser, "localhost"), c.auditDbPassword),
      EnsureDatabase(c.auditDbName),
      Grant(c.auditDbName, Account(c.dbUser, "%"), false), Grant(c.auditDbName, Account(c.dbUser, "localhost"), false)]
  {}

  /** The accounts a step sees to. */
  function Ensured(steps: seq<Step>): set<Account> {
    set i | 0 <= i < |steps| && steps[i].EnsureUser? :: steps[i].account
  }

  predicate Provisions(steps: seq<Step>) {
    forall i | 0 <= i < |steps| :: steps[i].EnsureUser? || steps[i].EnsureDatabase? || steps[i].Grant?
  }

  /** Provisioning adds the users its steps name, and databases only by its database steps. */
  lemma {:induction false} EffectsGrow(d: Db, steps: seq<Step>)
    requires Provisions(steps)
    ensures Effects(d, steps).accounts.Keys == d.accounts.Keys + Ensured(steps)
    ensures d.databases <= Effects(d, steps).databases
    ensures (forall i | 0 <= i < |steps| :: !steps[i].EnsureDatabase?) ==> Effects(d, steps).databases == d.databases
  {
    if steps != [] {
      var n := |steps| - 1;
      var (rest, last) := (steps[..n], steps[n]);
      EffectsGrow(d, rest);
      assert steps == rest + [last];
      assert Ensured(steps) == Ensured(rest) + if last.EnsureUser? then {last.account} else {};
    }
  }

  lemma {:induction false} DatabasesKept(d: Db, steps: seq<Step>, i: nat, j: nat)
    requires Provisions(steps) && i <= j <= |steps| && forall k | i <= k < j :: !steps[k].EnsureDatabase?
    ensures Effects(d, steps[..j]).databases == Effects(d, steps[..i]).databases
  {
    if i < j {
      DatabasesKept(d, steps, i, j - 1);
      EffectsSnoc(d, steps, j - 1);
    }
  }

  lemma StepPossible(c: Config, d: Db, j: nat)
    requires j < |AllSteps(c)|
    ensures Possible(Effects(d, AllSteps(c)[..j]), AllSteps(c)[j])
  {
    StepsSpelledOut(c);
    var steps := AllSteps(c);
    EffectsGrow(d, steps[..j]);
    if steps[j].Grant? {
      var i := if steps[j].account.host == "%" then 0 else 1;
      assert steps[..j][i].EnsureUser? && steps[..j][i].account == steps[j].account;
      assert steps[j].account in Ensured(steps[..j]);
    }
  }

  /** Without failing calls the real run goes to the end and has every effect. */
  lemma RealRunCompletes(c: Config, d: Db)
    ensures PerformAll(Machine(d, []), AllSteps(c)) == (Machine(Effects(d, AllSteps(c)), []), true)
  {
    var steps := AllSteps(c);
    StepsSpelledOut(c);
    forall j | 0 <= j < |steps| ensures Possible(Effects(d, steps[..j]), steps[j]) {
      StepPossible(c, d, j);
    }
    hide Possible, Effects, PerformAll;
    NoEffects(d, steps);
    assert steps[0..] == steps && steps[..|steps|] == steps;
    var _ := RunOutcome(d, Machine(d, []), steps, 0);
  }

  // ---- the dry run ---------------------------------------------------------

  /** Names for which the dry run, which looks only at the server as it is, is right: the two
      users differ unless they exist, and the second database's name, read as a LIKE pattern,
      does not match the first database that the run is about to create. */
  predicate DryRunSafe(c: Config, d: Db) {
    && (c.dbUser != c.auditDbUser || forall h | h in HOSTS :: Account(c.dbUser, h) in d.accounts)
    && (HasDatabase(d, c.dbName) || HasDatabase(d, c.auditDbName) || !Like(c.auditDbName, c.dbName))
  }

  // Which steps the dry run may decide differently, and when.
  predicate Decided(c: Config, d: Db, j: nat) {
    && (j == 5 ==> c.dbUser != c.auditDbUser || Account(c.dbUser, "%") in d.accounts)
    && (j == 6 ==> c.dbUser != c.auditDbUser || Account(c.dbUser, "localhost") in d.accounts)
    && (j == 7 ==> HasDatabase(d, c.dbName) || HasDatabase(d, c.auditDbName) || !Like(c.auditDbName, c.dbName))
  }

  lemma UserDecision(c: Config, d: Db, j: nat)
    requires j in {0, 1, 5, 6}
    ensures j < |AllSteps(c)| && (SameDecision(d, Effects(d, AllSteps(c)[..j]), AllSteps(c)[j]) <==> Decided(c, d, j))
  {
    StepsSpelledOut(c);
    var steps := AllSteps(c);
    EffectsGrow(d, steps[..j]);
    var a := steps[j].account;
    assert a in Ensured(steps[..j]) <==> j >= 5 && c.dbUser == c.auditDbUser by {
      if j >= 5 && c.dbUser == c.auditDbUser {
        assert steps[..j][j - 5].EnsureUser? && steps[..j][j - 5].account == a;
      }
    }
  }

  lemma DatabaseDecision(c: Config, d: Db, j: nat)
    requires j in {2, 7}
    ensures j < |AllSteps(c)| && (SameDecision(d, Effects(d, AllSteps(c)[..j]), AllSteps(c)[j]) <==> Decided(c, d, j))
  {
    StepsSpelledOut(c);
    var steps := AllSteps(c);
    hide Effect, Effects, Like, HasDatabase;
    NoEffects(d, steps);
    DatabasesKept(d, steps, 0, 2);
    var now := Effects(d, steps[..2]);
    SameDatabases(d, now);
    if j == 7 {
      EffectsSnoc(d, steps, 2);
      DatabasesKept(d, steps, 3, 7);
      var after := Effects(d, steps[..7]);
      DatabaseAdded(now, c.dbName, c.auditDbName);
      SameDatabases(Effects(d, steps[..3]), after);
    }
  }

  lemma SameDatabases(d: Db, e: Db)
    requires d.databases == e.databases
    ensures forall n :: HasDatabase(d, n) == HasDatabase(e, n)
  {}

  lemma DatabaseAdded(d: Db, name: string, other: string)
    ensures var e := Effect(d, EnsureDatabase(name));
      HasDatabase(e, other) <==> HasDatabase(d, other) || (!HasDatabase(d, name) && Like(other, name))
  {
    var e := Effect(d, EnsureDatabase(name));
    if HasDatabase(d, other) {
      var n :| n in d.databases && Like(other, n);
      assert n in e.databases;
    }
    if !HasDatabase(d, name) {
      assert name in e.databases;
    }
  }

  lemma StepDecision(c: Config, d: Db, j: nat)
    requires j < |AllSteps(c)|
    ensures SameDecision(d, Effects(d, AllSteps(c)[..j]), AllSteps(c)[j]) <==> Decided(c, d, j)
  {
    StepsSpelledOut(c);
    if j in {0, 1, 5, 6} {
      UserDecision(c, d, j);
    } else if j in {2, 7} {
      DatabaseDecision(c, d, j);
    }
  }

  lemma ProvisioningKeeps(d: Db, steps: seq<Step>)
    requires Provisions(steps)
    ensures Keeps(d, steps)
  {
    forall i | 0 <= i <= |steps|
      ensures d.accounts.Keys <= Effects(d, steps[..i]).accounts.Keys && d.databases <= Effects(d, steps[..i]).databases
    {
      EffectsGrow(d, steps[..i]);
    }
  }

  // Replaying keeps every database, and adds one only by a statement that says so.
  lemma {:induction false} ReplayDatabases(d: Db, stmts: seq<Stmt>)
    requires forall i | 0 <= i < |stmts| :: !stmts[i].CreateDatabase?
    ensures Replay(d, stmts).Some? ==> Replay(d, stmts).value.databases == d.databases
    decreases |stmts|
  {
    if stmts != [] && Exec(d, stmts[0]).Some? {
      ReplayDatabases(Exec(d, stmts[0]).value, stmts[1..]);
    }
  }

  lemma {:induction false} GrantsLogged(d: Db, steps: seq<Step>)
    requires forall i | 0 <= i < |steps| :: steps[i].Grant?
    ensures forall i | 0 <= i < |LogAll(d, steps)| :: !LogAll(d, steps)[i].CreateDatabase?
    decreases |steps|
  {
    if steps != [] {
      GrantsLogged(d, steps[1..]);
    }
  }

  // As long as every decision is the same, the log is right.
  lemma RightSoFar(c: Config, d: Db, f: nat)
    requires f <= |AllSteps(c)| && forall j | 0 <= j < f :: Decided(c, d, j)
    ensures Replay(d, LogAll(d, AllSteps(c)[..f])) == Some(Effects(d, AllSteps(c)[..f]))
  {
    var steps := AllSteps(c);
    StepsSpelledOut(c);
    forall j | 0 <= j < f
      ensures Possible(Effects(d, steps[..j]), steps[j]) && SameDecision(d, Effects(d, steps[..j]), steps[j])
    {
      StepPossible(c, d, j);
      StepDecision(c, d, j);
    }
    ProvisioningKeeps(d, steps);
    ReplayTo(d, steps, f);
  }

  /** The log stops being right at the first step that is decided differently. */
  lemma WrongDecision(c: Config, d: Db, f: nat)
    requires f in {5, 6, 7} && forall j | 0 <= j < f :: Decided(c, d, j)
    requires !Decided(c, d, f)
    ensures Replay(d, LogAll(d, AllSteps(c))) != Some(Effects(d, AllSteps(c)))
  {
    var steps := AllSteps(c);
    StepsSpelledOut(c);
    hide AllSteps, Possible, SameDecision, Effect, Effects, Decided, Exec, LogAll, Replay;
    RightSoFar(c, d, f);
    StepDecision(c, d, f);
    ProvisioningKeeps(d, steps);
    SplitLog(d, steps, f + 1);
    var now := Effects(d, steps[..f]);
    LoggedNext(d, steps, f);
    LoggedStep(d, now, steps[f]);
    if f == 5 || f == 6 {
      assert steps[f].EnsureUser?;
    } else {
      var logged := Replay(now, Logged(d, steps[7]));
      if logged.Some? {
        TooManyDatabases(c, d, now, logged.value);
      }
    }
  }

  lemma TooManyDatabases(c: Config, d: Db, now: Db, logged: Db)
    requires 7 < |AllSteps(c)| && now == Effects(d, AllSteps(c)[..7]) && HasDatabase(now, c.auditDbName)
    requires c.auditDbName !in now.databases && c.auditDbName in logged.databases
    ensures Replay(logged, LogAll(d, AllSteps(c)[8..])) != Some(Effects(d, AllSteps(c)))
  {
    var steps := AllSteps(c);
    StepsSpelledOut(c);
    var rest := LogAll(d, steps[8..]);
    GrantsLogged(d, steps[8..]);
    ReplayDatabases(logged, rest);
    EffectsSnoc(d, steps, 7);
    DatabasesKept(d, steps, 8, 10);
    assert steps[..10] == steps;
  }

  /** The dry run refines the real run: replaying its log from the same start gives what a real
      run without failing calls gives, exactly for the names above. */
  lemma DryRunIff(c: Config, d: Db)
    ensures Replay(d, LogAll(d, AllSteps(c))) == Some(PerformAll(Machine(d, []), AllSteps(c)).0.db)
       <==> DryRunSafe(c, d)
  {
    RealRunCompletes(c, d);
    var steps := AllSteps(c);
    StepsSpelledOut(c);
    assert DryRunSafe(c, d) <==> Decided(c, d, 5) && Decided(c, d, 6) && Decided(c, d, 7);
    if DryRunSafe(c, d) {
      RightSoFar(c, d, |steps|);
      assert steps[..|steps|] == steps;
    } else {
      WrongDecision(c, d, if !Decided(c, d, 5) then 5 else if !Decided(c, d, 6) then 6 else 7);
    }
  }

  // ---- what a finished run leaves ------------------------------------------

  /** What the grants among the steps give to an account. */
  function Given(steps: seq<Step>, a: Account): set<Privilege> {
    set i | 0 <= i < |steps| && steps[i].Grant? && steps[i].account == a :: AllOn(steps[i].db)
  }

  function Held(d: Db, a: Account): set<Privilege> {
    if a in d.accounts then d.accounts[a] else {}
  }

  lemma {:induction false} PrivilegesAfter(d: Db, steps: seq<Step>, a: Account, i: nat)
    requires Provisions(steps) && i <= |steps|
    requires forall j | 0 <= j < |steps| :: Possible(Effects(d, steps[..j]), steps[j])
    ensures Held(Effects(d, steps[..i]), a) == Held(d, a) + Given(steps[..i], a)
  {
    hide Effect, Effects, Held, Possible, Given;
    if i == 0 {
      NoEffects(d, steps);
      NothingGiven(steps, a);
    } else {
      PrivilegesAfter(d, steps, a, i - 1);
      EffectsSnoc(d, steps, i - 1);
      HeldStep(Effects(d, steps[..i - 1]), steps[i - 1], a);
      GivenSnoc(steps[..i - 1], steps[i - 1], a);
      assert steps[..i] == steps[..i - 1] + [steps[i - 1]];
    }
  }

  lemma NothingGiven(steps: seq<Step>, a: Account)
    ensures Given(steps[..0], a) == {}
  {}

  lemma HeldStep(d: Db, step: Step, a: Account)
    requires Possible(d, step) && (step.EnsureUser? || step.EnsureDatabase? || step.Grant?)
    ensures Held(Effect(d, step), a) == Held(d, a) + if step.Grant? && step.account == a then {AllOn(step.db)} else {}
  {}

  lemma GivenSnoc(steps: seq<Step>, last: Step, a: Account)
    ensures Given(steps + [last], a) ==
            Given(steps, a) + if last.Grant? && last.account == a then {AllOn(last.db)} else {}
  {
    var all := steps + [last];
    forall p | p in Given(steps, a) ensures p in Given(all, a) {
      var i :| 0 <= i < |steps| && steps[i].Grant? && steps[i].account == a && AllOn(steps[i].db) == p;
      assert all[i] == steps[i];
    }
    assert last.Grant? && last.account == a ==> all[|steps|] == last;
  }

  /** A finished run leaves both users on both hosts, the main user with all privileges on both
      databases on top of what it held, every other privilege as it was, and both databases. */
  lemma FinalMeaning(c: Config, d: Db)
    ensures var e := Effects(d, AllSteps(c));
      && (forall a :: a in e.accounts <==> a in d.accounts || (a.host in HOSTS && a.user in {c.dbUser, c.auditDbUser}))
      && (forall a :: Held(e, a) == Held(d, a) +
            if a.user == c.dbUser && a.host in HOSTS then {AllOn(c.dbName), AllOn(c.auditDbName)} else {})
      && d.databases <= e.databases <= d.databases + {c.dbName, c.auditDbName}
      && HasDatabase(e, c.dbName) && HasDatabase(e, c.auditDbName)
      && (Plain(c.dbName) ==> c.dbName in e.databases) && (Plain(c.auditDbName) ==> c.auditDbName in e.databases)
  {
    FinalNames(c, d);
    hide Effects, Effect, Possible, Held, HasDatabase, Given, Ensured;
    var steps := AllSteps(c);
    StepsSpelledOut(c);
    forall j | 0 <= j < |steps| ensures Possible(Effects(d, steps[..j]), steps[j]) {
      StepPossible(c, d, j);
    }
    assert steps[..|steps|] == steps;
    FinalDatabases(c, d);
    EffectsGrow(d, steps);
    EnsuredByAll(c);
    forall a ensures Held(Effects(d, steps), a) == Held(d, a) +
        if a.user == c.dbUser && a.host in HOSTS then {AllOn(c.dbName), AllOn(c.auditDbName)} else {} {
      PrivilegesAfter(d, steps, a, |steps|);
      GivenByAll(c, a);
    }
  }

  // A name without wildcards is found only as itself.
  lemma FinalNames(c: Config, d: Db)
    ensures var e := Effects(d, AllSteps(c));
      && (Plain(c.dbName) ==> c.dbName in e.databases) && (Plain(c.auditDbName) ==> c.auditDbName in e.databases)
  {
    FinalDatabases(c, d);
    hide Effects, HasDatabase, AllSteps;
    if Plain(c.dbName) { HasDatabaseIff(Effects(d, AllSteps(c)), c.dbName); }
    if Plain(c.auditDbName) { HasDatabaseIff(Effects(d, AllSteps(c)), c.auditDbName); }
  }

  lemma EnsuredByAll(c: Config)
    ensures forall a :: a in Ensured(AllSteps(c)) <==> a.host in HOSTS && a.user in {c.dbUser, c.auditDbUser}
  {
    StepsSpelledOut(c);
    var steps := AllSteps(c);
    assert steps[0].EnsureUser? && steps[1].EnsureUser? && steps[5].EnsureUser? && steps[6].EnsureUser?;
    forall a: Account ensures a.host in HOSTS <==> a.host == HOSTS[0] || a.host == HOSTS[1] {}
  }

  lemma GivenByAll(c: Config, a: Account)
    ensures Given(AllSteps(c), a) ==
            if a.user == c.dbUser && a.host in HOSTS then {AllOn(c.dbName), AllOn(c.auditDbName)} else {}
  {
    StepsSpelledOut(c);
    var steps := AllSteps(c);
    assert steps[3].Grant? && steps[4].Grant? && steps[8].Grant? && steps[9].Grant?;
    assert a.host in HOSTS <==> a.host == HOSTS[0] || a.host == HOSTS[1];
  }

  lemma FinalDatabases(c: Config, d: Db)
    ensures var e := Effects(d, AllSteps(c));
      d.databases <= e.databases <= d.databases + {c.dbName, c.auditDbName}
      && HasDatabase(e, c.dbName) && HasDatabase(e, c.auditDbName)
  {
    hide Effects, Effect;
    var steps := AllSteps(c);
    StepsSpelledOut(c);
    NoEffects(d, steps);
    assert steps[..10] == steps;
    DatabasesKept(d, steps, 0, 2);
    EffectsSnoc(d, steps, 2);
    DatabasesKept(d, steps, 3, 7);
    EffectsSnoc(d, steps, 7);
    DatabasesKept(d, steps, 8, 10);
    DatabaseEnsured(Effects(d, steps[..2]), c.dbName);
    DatabaseEnsured(Effects(d, steps[..7]), c.auditDbName);
    assert Effects(d, steps[..3]).databases <= Effects(d, steps).databases;
  }

  lemma DatabaseEnsured(d: Db, name: string)
    ensures var e := Effect(d, EnsureDatabase(name)).databases;
      && d.databases <= e <= d.databases + {name}
      && exists n :: n in e && Like(name, n)
  {
    LikeItself(name);
  }

  // ---- failures and reruns -------------------------------------------------

  /** There is nothing left to do for the step. */
  predicate Settled(d: Db, step: Step) {
    match step
    case EnsureUser(a, _) => a in d.accounts
    case EnsureDatabase(n) => HasDatabase(d, n)
    case Grant(db, a, _) => a in d.accounts && AllOn(db) in d.accounts[a]
    case _ => false
  }

  lemma SettledStays(d: Db, step: Step, next: Step)
    requires Provisions([step]) && Provisions([next])
    ensures Settled(d, step) ==> Effect(d, step) == d && Settled(Effect(d, next), step)
    ensures Possible(d, step) ==> Settled(Effect(d, step), step)
  {
    assert [step][0] == step && [next][0] == next;
    if step.EnsureDatabase? {
      LikeItself(step.name);
      assert d.databases <= Effect(d, next).databases;
    }
    if step.Grant? && Settled(d, step) {
      assert d.accounts[step.account] + {AllOn(step.db)} == d.accounts[step.account];
      assert d.accounts[step.account := d.accounts[step.account]] == d.accounts;
    }
  }

  lemma {:induction false} SettledAfter(d: Db, steps: seq<Step>, k: nat, i: nat)
    requires Provisions(steps) && i < k <= |steps| && Possible(Effects(d, steps[..i]), steps[i])
    ensures Settled(Effects(d, steps[..k]), steps[i])
  {
    hide Settled, Possible, Effect, Effects;
    EffectsSnoc(d, steps, k - 1);
    if i == k - 1 {
      SettledStays(Effects(d, steps[..i]), steps[i], steps[i]);
    } else {
      SettledAfter(d, steps, k - 1, i);
      SettledStays(Effects(d, steps[..k - 1]), steps[i], steps[k - 1]);
    }
  }

  /** Doing some steps again after the first k is doing the longer stretch once. */
  lemma {:induction false} Redoing(d: Db, steps: seq<Step>, k: nat, j: nat)
    requires Provisions(steps) && k <= |steps| && j <= |steps|
    requires forall i | 0 <= i < k :: Possible(Effects(d, steps[..i]), steps[i])
    ensures Effects(Effects(d, steps[..k]), steps[..j]) == Effects(d, steps[..if k < j then j else k])
  {
    hide Settled, Possible, Effect, Effects;
    var e := Effects(d, steps[..k]);
    if j == 0 {
      NoEffects(e, steps);
    } else {
      Redoing(d, steps, k, j - 1);
      EffectsSnoc(e, steps, j - 1);
      if j <= k {
        RedoneIsIdle(d, steps, k, j - 1);
      } else {
        EffectsSnoc(d, steps, j - 1);
      }
    }
  }

  lemma RedoneIsIdle(d: Db, steps: seq<Step>, k: nat, i: nat)
    requires Provisions(steps) && i < k <= |steps| && Possible(Effects(d, steps[..i]), steps[i])
    ensures Effect(Effects(d, steps[..k]), steps[i]) == Effects(d, steps[..k])
  {
    SettledAfter(d, steps, k, i);
    hide Settled, Possible, Effect, Effects;
    SettledStays(Effects(d, steps[..k]), steps[i], steps[i]);
  }

  lemma {:induction false} RunsReach(d: Db, steps: seq<Step>, runs: seq<seq<Fate>>) returns (k: nat)
    requires Provisions(steps) && Checked(steps)
    ensures k <= |steps| && AfterRuns(d, steps, runs) == Effects(d, steps[..k])
    ensures forall i | 0 <= i < k :: Possible(Effects(d, steps[..i]), steps[i])
  {
    hide Perform, PerformAll, Possible, Effect, Effects;
    if runs == [] {
      k := 0;
      NoEffects(d, steps);
    } else {
      var n := |runs| - 1;
      var k1 := RunsReach(d, steps, runs[..n]);
      var e := AfterRuns(d, steps, runs[..n]);
      NoEffects(e, steps);
      assert steps[0..] == steps;
      var k2 := RunOutcome(e, Machine(e, runs[n]), steps, 0);
      Redoing(d, steps, k1, k2);
      k := if k1 < k2 then k2 else k1;
      forall i | k1 <= i < k ensures Possible(Effects(d, steps[..i]), steps[i]) {
        Redoing(d, steps, k1, i);
      }
    }
  }

  // ---- users without a password ----------------------------------------------

  /** What a database step makes of the databases. */
  function WithDatabase(databases: set<string>, name: string): set<string> {
    if exists n :: n in databases && Like(name, n) then databases else databases + {name}
  }

  /** The databases once the first step for one has been taken, and once both have. */
  function FirstDatabases(c: Config, d: Db): set<string> { WithDatabase(d.databases, c.dbName) }

  function BothDatabases(c: Config, d: Db): set<string> { WithDatabase(FirstDatabases(c, d), c.auditDbName) }

  /** A server that runs from d may have left: nothing is there that a finished run would not
      leave, and nothing of d is gone. */
  ghost predicate Between(c: Config, d: Db, e: Db) {
    var f := Effects(d, AllSteps(c));
    && d.accounts.Keys <= e.accounts.Keys <= f.accounts.Keys
    && (forall a :: Held(d, a) <= Held(e, a) <= Held(f, a))
    && e.databases in {d.databases, FirstDatabases(c, d), BothDatabases(c, d)}
    && e.tables == d.tables
    && PasswordsAsMeant(c, d, e)
  }

  /** Accounts that are new have the password that was asked for; the main user's, if the two users
      are one. Nothing else has a different password. */
  ghost predicate PasswordsAsMeant(c: Config, d: Db, e: Db) {
    forall a ::
      if a in e.accounts && a !in d.accounts
      then a in e.passwords && e.passwords[a] == Meant(c, a.user)
      else (a in e.passwords <==> a in d.passwords) && (a in d.passwords ==> e.passwords[a] == d.passwords[a])
  }

  function Meant(c: Config, user: string): string {
    if user == c.dbUser then c.dbPassword else c.auditDbPassword
  }

  /** ... by a run that has come to step j. */
  predicate Reached(c: Config, d: Db, e: Db, j: nat) {
    && (j >= 3 ==> e.databases in {FirstDatabases(c, d), BothDatabases(c, d)})
    && (j >= 8 ==> e.databases == BothDatabases(c, d))
    && (j >= 4 ==> Account(c.dbUser, "%") in e.accounts)
    && (j >= 5 ==> Account(c.dbUser, "localhost") in e.accounts)
  }

  lemma DatabaseStep(e: Db, name: string)
    ensures Effect(e, EnsureDatabase(name)).databases == WithDatabase(e.databases, name)
  {}

  // What was ensured once stays, however many databases are added.
  lemma EnsuredStays(databases: set<string>, name: string, more: set<string>)
    requires WithDatabase(databases, name) <= more
    ensures WithDatabase(more, name) == more && databases <= WithDatabase(databases, name)
  {
    LikeItself(name);
  }

  lemma DatabasesGrow(c: Config, d: Db)
    ensures var (one, two) := (FirstDatabases(c, d), BothDatabases(c, d));
      && WithDatabase(d.databases, c.dbName) == WithDatabase(one, c.dbName) == one
      && WithDatabase(one, c.auditDbName) == WithDatabase(two, c.auditDbName) == two
      && WithDatabase(two, c.dbName) == two
      && d.databases <= one <= two
  {
    hide WithDatabase;
    var (one, two) := (FirstDatabases(c, d), BothDatabases(c, d));
    EnsuredStays(d.databases, c.dbName, one);
    EnsuredStays(one, c.auditDbName, two);
    EnsuredStays(d.databases, c.dbName, two);
  }

  lemma FinishedDatabases(c: Config, d: Db)
    ensures Effects(d, AllSteps(c)).databases == BothDatabases(c, d)
    ensures Effects(d, AllSteps(c)).tables == d.tables
  {
    var steps := AllSteps(c);
    StepsSpelledOut(c);
    hide AllSteps, Effects, Effect, WithDatabase;
    TablesKept(d, steps);
    NoEffects(d, steps);
    assert steps[..10] == steps;
    DatabasesKept(d, steps, 0, 2);
    EffectsSnoc(d, steps, 2);
    DatabaseStep(Effects(d, steps[..2]), c.dbName);
    DatabasesKept(d, steps, 3, 7);
    EffectsSnoc(d, steps, 7);
    DatabaseStep(Effects(d, steps[..7]), c.auditDbName);
    DatabasesKept(d, steps, 8, 10);
  }

  lemma {:induction false} TablesKept(d: Db, steps: seq<Step>)
    ensures Effects(d, steps).tables == d.tables
  {
    if steps != [] {
      TablesKept(d, steps[..|steps| - 1]);
    }
  }

  lemma StepBetween(c: Config, d: Db, e: Db, j: nat)
    requires j < |AllSteps(c)| && Between(c, d, e) && Reached(c, d, e, j) && Possible(e, AllSteps(c)[j])
    ensures Between(c, d, Effect(e, AllSteps(c)[j])) && Reached(c, d, Effect(e, AllSteps(c)[j]), j + 1)
  {
    var step := AllSteps(c)[j];
    StepKinds(c, j);
    EffectShape(e, step);
    StepAccounts(c, j);
    StepPasswords(c, d, e, j);
    hide AllSteps, Effects, Effect, Held, WithDatabase, PasswordsAsMeant;
    StepPrivileges(c, d, e, j);
    if step.EnsureDatabase? {
      DatabaseStep(e, step.name);
      DatabasesGrow(c, d);
    }
  }

  // Which step is which.
  lemma StepKinds(c: Config, j: nat)
    requires j < |AllSteps(c)|
    ensures var step := AllSteps(c)[j];
      && (step.EnsureUser? || step.EnsureDatabase? || step.Grant?)
      && (step.EnsureDatabase? <==> j == 2 || j == 7)
      && (j == 2 ==> step.name == c.dbName) && (j == 7 ==> step.name == c.auditDbName)
  {
    StepsSpelledOut(c);
  }

  lemma StepAccounts(c: Config, j: nat)
    requires j < |AllSteps(c)|
    ensures var step := AllSteps(c)[j];
      && (j == 3 ==> step.Grant? && step.account == Account(c.dbUser, "%"))
      && (j == 4 ==> step.Grant? && step.account == Account(c.dbUser, "localhost"))
      && (step.EnsureUser? ==> if j < 5 then step.account.user == c.dbUser && step.password == c.dbPassword
                               else step.account.user == c.auditDbUser && step.password == c.auditDbPassword)
      && (step.EnsureUser? ==> step.account.host in {"%", "localhost"})
  {
    StepsSpelledOut(c);
  }

  lemma StepPasswords(c: Config, d: Db, e: Db, j: nat)
    requires j < |AllSteps(c)| && Between(c, d, e) && Reached(c, d, e, j) && Possible(e, AllSteps(c)[j])
    ensures PasswordsAsMeant(c, d, Effect(e, AllSteps(c)[j]))
  {
    StepAccounts(c, j);
    StepKinds(c, j);
    hide AllSteps, Effects, Effect, Held, FirstDatabases, BothDatabases, PasswordsAsMeant;
    var step := AllSteps(c)[j];
    if step.EnsureUser? {
      CreatedAsMeant(c, d, e, step);
    } else {
      OthersKeepPasswords(c, d, e, step);
    }
  }

  lemma CreatedAsMeant(c: Config, d: Db, e: Db, step: Step)
    requires PasswordsAsMeant(c, d, e) && d.accounts.Keys <= e.accounts.Keys && step.EnsureUser?
    requires step.account in e.accounts || step.password == Meant(c, step.account.user)
    ensures PasswordsAsMeant(c, d, Effect(e, step))
  {}

  lemma OthersKeepPasswords(c: Config, d: Db, e: Db, step: Step)
    requires PasswordsAsMeant(c, d, e) && (step.EnsureDatabase? || step.Grant?) && Possible(e, step)
    ensures PasswordsAsMeant(c, d, Effect(e, step))
  {
    assert Effect(e, step).passwords == e.passwords && Effect(e, step).accounts.Keys == e.accounts.Keys;
  }

  // The step gives nothing that a finished run would not.
  lemma StepPrivileges(c: Config, d: Db, e: Db, j: nat)
    requires j < |AllSteps(c)| && Between(c, d, e) && Possible(e, AllSteps(c)[j])
    ensures var (f, e') := (Effects(d, AllSteps(c)), Effect(e, AllSteps(c)[j]));
      && d.accounts.Keys <= e'.accounts.Keys <= f.accounts.Keys
      && forall a :: Held(d, a) <= Held(e', a) <= Held(f, a)
  {
    var (f, step) := (Effects(d, AllSteps(c)), AllSteps(c)[j]);
    StepIsMeant(c, j);
    StepKinds(c, j);
    EffectShape(e, step);
    FinalMeaning(c, d);
    hide AllSteps, Effects, Effect, Held, HasDatabase, Possible;
    forall a ensures Held(d, a) <= Held(Effect(e, step), a) <= Held(f, a) {
      HeldStep(e, step, a);
    }
  }

  lemma StepIsMeant(c: Config, j: nat)
    requires j < |AllSteps(c)|
    ensures var step := AllSteps(c)[j];
      && (step.EnsureUser? ==> step.account.host in HOSTS && step.account.user in {c.dbUser, c.auditDbUser})
      && (step.Grant? ==> step.account.host in HOSTS && step.account.user == c.dbUser
                          && step.db in {c.dbName, c.auditDbName})
  {
    StepsSpelledOut(c);
    assert "%" in HOSTS && "localhost" in HOSTS by { assert HOSTS[0] == "%" && HOSTS[1] == "localhost"; }
  }

  lemma EffectShape(e: Db, step: Step)
    requires Possible(e, step) && (step.EnsureUser? || step.EnsureDatabase? || step.Grant?)
    ensures Effect(e, step).accounts.Keys == e.accounts.Keys + if step.EnsureUser? then {step.account} else {}
    ensures Effect(e, step).tables == e.tables
    ensures !step.EnsureDatabase? ==> Effect(e, step).databases == e.databases
  {}

  /** A run that may fail anywhere, and swallow the creation of users without a password, stays
      in between; when it goes to the end there is nothing left to do but such a user. */
  lemma {:induction false} RunBetween(c: Config, d: Db, m: Machine, j: nat)
    requires j <= |AllSteps(c)| && Between(c, d, m.db) && Reached(c, d, m.db, j)
    ensures var (m1, alive) := PerformAll(m, AllSteps(c)[j..]);
      && Between(c, d, m1.db)
      && (alive ==> Reached(c, d, m1.db, |AllSteps(c)|))
      && (alive ==> forall i | j <= i < |AllSteps(c)| :: Done(m1.db, AllSteps(c)[i]))
    decreases |AllSteps(c)| - j
  {
    var steps := AllSteps(c);
    hide AllSteps, Perform, Possible, Effect, Between, Reached, Done;
    if j < |steps| {
      assert steps[j..][0] == steps[j] && steps[j..][1..] == steps[j + 1..];
      OneStepBetween(c, d, m, j);
      var (m1, alive) := Perform(m, steps[j]);
      if alive {
        RunBetween(c, d, m1, j + 1);
        AllProvisions(c);
        StaysDone(m1, steps, j + 1, steps[j]);
      }
    }
  }

  /** Nothing is left to do for the step, or it was to create a user without a password. */
  predicate Done(d: Db, step: Step) {
    Settled(d, step) || (step.EnsureUser? && step.password == "")
  }

  lemma AllProvisions(c: Config)
    ensures Provisions(AllSteps(c))
  {
    StepsSpelledOut(c);
  }

  lemma OneStepBetween(c: Config, d: Db, m: Machine, j: nat)
    requires j < |AllSteps(c)| && Between(c, d, m.db) && Reached(c, d, m.db, j)
    ensures var (m1, alive) := Perform(m, AllSteps(c)[j]);
      && Between(c, d, m1.db)
      && (alive ==> Reached(c, d, m1.db, j + 1) && Done(m1.db, AllSteps(c)[j]))
  {
    var step := AllSteps(c)[j];
    PerformOutcome(m, step);
    StepKinds(c, j);
    if Possible(m.db, step) {
      StepBetween(c, d, m.db, j);
      StepSettles(m.db, step);
    }
    hide AllSteps, Perform, Possible, Effect, Between, Settled;
  }

  lemma StepSettles(d: Db, step: Step)
    requires Possible(d, step) && (step.EnsureUser? || step.EnsureDatabase? || step.Grant?)
    ensures Settled(Effect(d, step), step)
  {
    assert [step][0] == step;
    SettledStays(d, step, step);
  }

  lemma {:induction false} StaysDone(m: Machine, steps: seq<Step>, j: nat, step: Step)
    requires Provisions(steps) && Provisions([step]) && j <= |steps| && Done(m.db, step)
    ensures Done(PerformAll(m, steps[j..]).0.db, step)
    decreases |steps| - j
  {
    hide Perform, Possible, Effect, Settled;
    if j < |steps| {
      assert steps[j..][0] == steps[j] && steps[j..][1..] == steps[j + 1..];
      PerformOutcome(m, steps[j]);
      assert [steps[j]][0] == steps[j];
      SettledStays(m.db, step, steps[j]);
      StaysDone(Perform(m, steps[j]).0, steps, j + 1, step);
    }
  }

  lemma BetweenItself(c: Config, d: Db)
    ensures Between(c, d, d)
  {
    hide Effects, AllSteps, Held, HasDatabase;
    FinalMeaning(c, d);
  }

  lemma {:induction false} RunsBetween(c: Config, d: Db, runs: seq<seq<Fate>>)
    ensures Between(c, d, AfterRuns(d, AllSteps(c), runs))
  {
    hide AllSteps, PerformAll, Between;
    if runs == [] {
      BetweenItself(c, d);
    } else {
      var n := |runs| - 1;
      RunsBetween(c, d, runs[..n]);
      RunBetween(c, d, Machine(AfterRuns(d, AllSteps(c), runs[..n]), runs[n]), 0);
      assert AllSteps(c)[0..] == AllSteps(c);
    }
  }

  /** The audit user is sure to be there after a run that goes to the end: it has a password, or
      is the main user, or is there already. */
  predicate AuditUserSure(c: Config, d: Db) {
    c.auditDbPassword != "" || c.auditDbUser == c.dbUser
    || forall h | h in HOSTS :: Account(c.auditDbUser, h) in d.accounts
  }

  // Each account that a finished run has is there.
  lemma AccountThere(c: Config, d: Db, e: Db, a: Account)
    requires AuditUserSure(c, d) && d.accounts.Keys <= e.accounts.Keys
    requires forall i | 0 <= i < |AllSteps(c)| :: Done(e, AllSteps(c)[i])
    requires a.host in HOSTS && a.user in {c.dbUser, c.auditDbUser}
    ensures a in e.accounts
    ensures a.user == c.dbUser ==> {AllOn(c.dbName), AllOn(c.auditDbName)} <= Held(e, a)
  {
    StepsSpelledOut(c);
    var steps := AllSteps(c);
    assert HOSTS[0] == "%" && HOSTS[1] == "localhost" && (a.host == HOSTS[0] || a.host == HOSTS[1]);
    var i := if a.host == "%" then 0 else 1;
    assert Done(e, steps[3 + i]) && Done(e, steps[8 + i]) && Done(e, steps[5 + i]);
  }

  lemma NothingLeft(c: Config, d: Db, e: Db)
    requires AuditUserSure(c, d) && Between(c, d, e) && Reached(c, d, e, |AllSteps(c)|)
    requires forall i | 0 <= i < |AllSteps(c)| :: Done(e, AllSteps(c)[i])
    ensures e == Effects(d, AllSteps(c))
  {
    assert |AllSteps(c)| == 10;
    FinishedDatabases(c, d);
    FinalPasswords(c, d);
    hide Effects, AllSteps, Done, Held, AuditUserSure, FirstDatabases, BothDatabases;
    forall a ensures (a in Effects(d, AllSteps(c)).accounts ==> a in e.accounts)
                     && Held(e, a) == Held(Effects(d, AllSteps(c)), a) {
      NothingLeftFor(c, d, e, a);
    }
    SameAccounts(e, Effects(d, AllSteps(c)));
    SamePasswords(c, d, e, Effects(d, AllSteps(c)));
  }

  /** A finished run gives the new accounts the passwords that were asked for, and no other. */
  lemma FinalPasswords(c: Config, d: Db)
    ensures PasswordsAsMeant(c, d, Effects(d, AllSteps(c)))
  {
    hide AllSteps, PerformAll, Effects, PasswordsAsMeant;
    RealRunCompletes(c, d);
    BetweenItself(c, d);
    RunBetween(c, d, Machine(d, []), 0);
    assert AllSteps(c)[0..] == AllSteps(c);
  }

  lemma SamePasswords(c: Config, d: Db, e: Db, f: Db)
    requires PasswordsAsMeant(c, d, e) && PasswordsAsMeant(c, d, f) && e.accounts.Keys == f.accounts.Keys
    ensures e.passwords == f.passwords
  {
    forall a
      ensures (a in e.passwords <==> a in f.passwords) && (a in e.passwords ==> e.passwords[a] == f.passwords[a])
    {
      assert a in e.accounts <==> a in f.accounts;
    }
  }

  lemma NothingLeftFor(c: Config, d: Db, e: Db, a: Account)
    requires AuditUserSure(c, d) && Between(c, d, e)
    requires forall i | 0 <= i < |AllSteps(c)| :: Done(e, AllSteps(c)[i])
    ensures a in Effects(d, AllSteps(c)).accounts ==> a in e.accounts
    ensures Held(e, a) == Held(Effects(d, AllSteps(c)), a)
  {
    FinalMeaning(c, d);
    if a.host in HOSTS && a.user in {c.dbUser, c.auditDbUser} {
      AccountThere(c, d, e, a);
    }
    hide Effects, AllSteps, Done, Held, HasDatabase, AuditUserSure, FirstDatabases, BothDatabases;
  }

  lemma SameAccounts(e: Db, f: Db)
    requires e.accounts.Keys == f.accounts.Keys && forall a :: Held(e, a) == Held(f, a)
    ensures e.accounts == f.accounts
  {
    forall a | a in f.accounts ensures e.accounts[a] == f.accounts[a] {
      assert Held(e, a) == Held(f, a);
    }
  }

  /** Reruns converge: after any number of runs that failed wherever they may, a run that goes to
      the end leaves exactly what one run without failures leaves. An empty password of the main
      user does no harm, since the grants that follow need the user. */
  lemma RerunsConverge(c: Config, d: Db, runs: seq<seq<Fate>>, fates: seq<Fate>)
    requires AuditUserSure(c, d)
    ensures var (m, alive) := PerformAll(Machine(AfterRuns(d, AllSteps(c), runs), fates), AllSteps(c));
      alive ==> m.db == Effects(d, AllSteps(c))
  {
    hide AllSteps, PerformAll, Effects, Between, AuditUserSure, AfterRuns, Done;
    var m := Machine(AfterRuns(d, AllSteps(c), runs), fates);
    RunsBetween(c, d, runs);
    RunBetween(c, d, m, 0);
    assert AllSteps(c)[0..] == AllSteps(c);
    if PerformAll(m, AllSteps(c)).1 {
      NothingLeft(c, d, PerformAll(m, AllSteps(c)).0.db);
    }
  }

  // ---- and when they do not --------------------------------------------------

  // Fates under which a step works, before those to come.
  lemma StepWorks(d: Db, step: Step, rest: seq<Fate>) returns (fates: seq<Fate>)
    requires Possible(d, step) && (step.EnsureUser? || step.EnsureDatabase? || step.Grant?)
    ensures Perform(Machine(d, fates), step) == (Machine(Effect(d, step), rest), true)
  {
    if Settled(d, step) && !step.Grant? {
      fates := rest;
    } else if step.Grant? {
      fates := [Works, Works] + rest;
      assert fates[1..] == [Works] + rest && ([Works] + rest)[1..] == rest;
    } else {
      fates := [Works] + rest;
      assert fates[1..] == rest;
      if step.EnsureDatabase? { LikeItself(step.name); }
    }
  }

  lemma {:induction false} StepsWork(c: Config, d: Db, j: nat, rest: seq<Fate>) returns (fates: seq<Fate>)
    requires j <= |AllSteps(c)|
    ensures PerformAll(Machine(d, fates), AllSteps(c)[..j]) == (Machine(Effects(d, AllSteps(c)[..j]), rest), true)
  {
    var steps := AllSteps(c);
    hide AllSteps, Perform, Effect;
    if j == 0 {
      fates := rest;
    } else {
      StepPossible(c, d, j - 1);
      StepKinds(c, j - 1);
      var last := StepWorks(Effects(d, steps[..j - 1]), steps[j - 1], rest);
      fates := StepsWork(c, d, j - 1, last);
      assert steps[..j] == steps[..j - 1] + [steps[j - 1]];
      PerformConcat(Machine(d, fates), steps[..j - 1], [steps[j - 1]]);
      assert [steps[j - 1]][1..] == [];
      EffectsSnoc(d, steps, j - 1);
    }
  }

  /** A run whose one failing call is the creation of an audit user without a password goes to
      the end without that user. */
  lemma SwallowedRun(c: Config, d: Db, host: string) returns (fates: seq<Fate>)
    requires c.auditDbPassword == "" && c.auditDbUser != c.dbUser && host in HOSTS
    requires Account(c.auditDbUser, host) !in d.accounts
    ensures var (m, alive) := PerformAll(Machine(d, fates), AllSteps(c));
      alive && Account(c.auditDbUser, host) !in m.db.accounts
  {
    var (a, steps) := (Account(c.auditDbUser, host), AllSteps(c));
    var j := AuditStep(c, host);
    fates := StepsWork(c, d, j, [FailsClean]);
    var e := Effects(d, steps[..j]);
    AllProvisions(c);
    EffectsGrow(d, steps[..j]);
    hide AllSteps, PerformAll, Effects, Ensured;
    PassedOver(d, fates, steps, j, e, a);
    TailPossible(c, e, j);
    CleanRun(e, steps[j + 1..]);
  }

  // The creation fails, nobody notices, and the rest follows.
  lemma PassedOver(d: Db, fates: seq<Fate>, steps: seq<Step>, j: nat, e: Db, a: Account)
    requires j < |steps| && steps[j] == EnsureUser(a, "") && a !in e.accounts
    requires PerformAll(Machine(d, fates), steps[..j]) == (Machine(e, [FailsClean]), true)
    ensures PerformAll(Machine(d, fates), steps) == PerformAll(Machine(e, []), steps[j + 1..])
  {
    EmptyPasswordSwallows(Machine(e, [FailsClean]), a);
    hide Perform;
    assert [FailsClean][1..] == [];
    assert steps[j..][0] == steps[j] && steps[j..][1..] == steps[j + 1..];
    assert steps == steps[..j] + steps[j..];
    PerformConcat(Machine(d, fates), steps[..j], steps[j..]);
  }

  lemma CleanRun(d: Db, steps: seq<Step>)
    requires Provisions(steps) && Feasible(d, steps)
    ensures PerformAll(Machine(d, []), steps).1
    ensures PerformAll(Machine(d, []), steps).0.db.accounts.Keys == d.accounts.Keys + Ensured(steps)
  {
    EffectsGrow(d, steps);
    hide Possible, Perform, PerformAll, Effects, Ensured;
    NoEffects(d, steps);
    assert steps[0..] == steps && steps[..|steps|] == steps;
    var _ := RunOutcome(d, Machine(d, []), steps, 0);
  }

  // The step for the audit user on a host: none before or after it is for the same account.
  lemma AuditStep(c: Config, host: string) returns (j: nat)
    requires c.auditDbUser != c.dbUser && host in HOSTS
    ensures j in {5, 6} && j < |AllSteps(c)|
    ensures AllSteps(c)[j] == EnsureUser(Account(c.auditDbUser, host), c.auditDbPassword)
    ensures Account(c.auditDbUser, host) !in Ensured(AllSteps(c)[..j])
    ensures Account(c.auditDbUser, host) !in Ensured(AllSteps(c)[j + 1..])
  {
    StepsSpelledOut(c);
    assert HOSTS[0] == "%" && HOSTS[1] == "localhost" && (host == HOSTS[0] || host == HOSTS[1]);
    j := if host == "%" then 5 else 6;
  }

  predicate Feasible(d: Db, steps: seq<Step>) {
    forall i | 0 <= i < |steps| :: Possible(Effects(d, steps[..i]), steps[i])
  }

  // What is left after it can be done: the main user is there.
  lemma TailPossible(c: Config, e: Db, j: nat)
    requires j in {5, 6} && j < |AllSteps(c)|
    requires Ensured(AllSteps(c)[..j]) <= e.accounts.Keys
    ensures Feasible(e, AllSteps(c)[j + 1..]) && Provisions(AllSteps(c)[j + 1..])
  {
    StepsSpelledOut(c);
    var tail := AllSteps(c)[j + 1..];
    var first := AllSteps(c)[..j];
    assert first[0].EnsureUser? && first[1].EnsureUser?;
    forall i | 0 <= i < |tail| ensures Possible(Effects(e, tail[..i]), tail[i]) {
      EffectsGrow(e, tail[..i]);
    }
  }

  /** After any failed runs, only one outcome of a run that goes to the end. */
  ghost predicate Converges(c: Config, d: Db) {
    forall runs, fates :: var (m, alive) := PerformAll(Machine(AfterRuns(d, AllSteps(c), runs), fates), AllSteps(c));
      alive ==> m.db == Effects(d, AllSteps(c))
  }

  /** Reruns converge exactly when the audit user has a password, is the main user, or was there
      from the start. */
  lemma RerunsConvergeIff(c: Config, d: Db)
    ensures Converges(c, d) <==> AuditUserSure(c, d)
  {
    hide AllSteps, PerformAll, Effects;
    if AuditUserSure(c, d) {
      forall runs, fates
        ensures var (m, alive) := PerformAll(Machine(AfterRuns(d, AllSteps(c), runs), fates), AllSteps(c));
          alive ==> m.db == Effects(d, AllSteps(c))
      {
        RerunsConverge(c, d, runs, fates);
      }
    } else {
      var host :| host in HOSTS && Account(c.auditDbUser, host) !in d.accounts;
      var fates := SwallowedRun(c, d, host);
      assert AfterRuns(d, AllSteps(c), []) == d;
      FinalMeaning(c, d);
      assert Account(c.auditDbUser, host) in Effects(d, AllSteps(c)).accounts;
    }
  }
}
