/** restrict_permissions.py: revoke everything from the two users on both hosts, then grant
    exactly what they need. */
module Privileges {
  import opened Wrappers
  import opened Mysql
  import opened Text

  const TABLE := "xa_access_audit"

  datatype Config = Config(dbName: string, dbUser: string, auditDbName: string, auditDbUser: string)

  function RevokeSteps(user: string): seq<Step> {
    [Revoke(Account(user, "%")), Revoke(Account(user, "localhost"))]
  }

  function GrantSteps(db: string, user: string): seq<Step> {
    [Grant(db, Account(user, "%"), true), Grant(db, Account(user, "localhost"), true)]
  }

  /** The audit user's grants run under the main user's account. */
  function InsertSteps(grantor: string, db: string, user: string): seq<Step> {
    [GrantInsertAs(grantor, db, TABLE, Account(user, "%")),
     GrantInsertAs(grantor, db, TABLE, Account(user, "localhost"))]
  }

  /** What `auditdb_operation` does only when the two users differ. */
  function SeparateSteps(c: Config): seq<Step> {
    if c.dbUser != c.auditDbUser then RevokeSteps(c.auditDbUser) + GrantSteps(c.auditDbName, c.dbUser) else []
  }

  function AuditSteps(c: Config): seq<Step> {
    SeparateSteps(c) + InsertSteps(c.dbUser, c.auditDbName, c.auditDbUser)
  }

  /** Everything `main` does, in order. */
  function ResetSteps(c: Config): seq<Step> {
    RevokeSteps(c.dbUser) + (GrantSteps(c.dbName, c.dbUser) + AuditSteps(c))
  }

  // ---- the script ----------------------------------------------------------

  /** One turn of a loop over the hosts: a statement, then a flush, or, in dry mode, two log
      lines. A real insert grant is not followed by a flush. */
  method OnHost(server: Server, step: Step, dryMode: bool) returns (alive: bool)
    requires step.Revoke? || (step.Grant? && step.logsFlush) || step.GrantInsertAs?
    modifies server
    ensures if dryMode
            then alive && server.State() == old(server.State())
                 && server.log == old(server.log) + Logged(server.db, step)
            else (server.State(), alive) == Perform(old(server.State()), step) && server.log == old(server.log)
  {
    var stmt := match step
      case Revoke(a) => RevokeAll(a)
      case Grant(db, a, _) => GrantAll(db, a)
      case GrantInsertAs(_, db, table, a) => GrantInsert(db, table, a);
    if dryMode {
      server.LogFile(stmt);
      server.LogFile(Flush);
      assert server.log == old(server.log) + [stmt, Flush];
      assert [stmt] + [Flush] == [stmt, Flush];
      return true;
    }
    if step.GrantInsertAs? && !MayGrant(server.db, step.grantor, step.db) {
      return false;
    }
    alive := server.Execute(stmt);
    if alive && !step.GrantInsertAs? {
      alive := server.Execute(Flush);
    }
  }

  /** The loops over the hosts of `revoke_permissions`, `grant_xa_db_user` and
      `grant_audit_db_user`: the same step on each. */
  method OnBothHosts(server: Server, steps: seq<Step>, dryMode: bool) returns (alive: bool)
    requires |steps| == |HOSTS|
    requires forall i | 0 <= i < |steps| ::
      steps[i].Revoke? || (steps[i].Grant? && steps[i].logsFlush) || steps[i].GrantInsertAs?
    modifies server
    ensures Did(old(server.State()), old(server.log), steps, dryMode, server.State(), server.log, alive)
  {
    hide Perform, Logged;
    assert steps[0..] == steps;
    for i := 0 to |HOSTS|
      invariant Doing(old(server.State()), old(server.log), steps, dryMode, server.State(), server.log, steps[i..])
    {
      ghost var m, log := server.State(), server.log;
      alive := OnHost(server, steps[i], dryMode);
      DoingStep(old(server.State()), old(server.log), steps, dryMode, m, log, i, server.State(), server.log, alive);
      if !alive {
        return;
      }
    }
    DoingEnds(old(server.State()), old(server.log), steps, dryMode, server.State(), server.log);
    return true;
  }

  method AuditdbOperation(server: Server, c: Config, dryMode: bool) returns (alive: bool)
    modifies server
    ensures Did(old(server.State()), old(server.log), AuditSteps(c), dryMode, server.State(), server.log, alive)
  {
    var inserts := InsertSteps(c.dbUser, c.auditDbName, c.auditDbUser);
    if c.dbUser == c.auditDbUser {
      alive := OnBothHosts(server, inserts, dryMode);
      assert [] + inserts == inserts;
      return;
    }
    hide Did;
    alive := OnBothHosts(server, RevokeSteps(c.auditDbUser), dryMode);
    ghost var m1, log1, went1 := server.State(), server.log, alive;
    if alive {
      alive := OnBothHosts(server, GrantSteps(c.auditDbName, c.dbUser), dryMode);
    }
    ghost var m2, log2, went2 := server.State(), server.log, alive;
    DidThen(old(server.State()), old(server.log), RevokeSteps(c.auditDbUser), GrantSteps(c.auditDbName, c.dbUser),
            dryMode, m1, log1, went1, m2, log2, went2);
    if alive {
      alive := OnBothHosts(server, inserts, dryMode);
    }
    DidThen(old(server.State()), old(server.log), SeparateSteps(c), inserts, dryMode, m2, log2, went2,
            server.State(), server.log, alive);
  }

  /** The part of `main` below "Methods Begin", in either mode. */
  method Reset(server: Server, c: Config, dryMode: bool) returns (alive: bool)
    modifies server
    ensures Did(old(server.State()), old(server.log), ResetSteps(c), dryMode, server.State(), server.log, alive)
  {
    hide Did;
    alive := OnBothHosts(server, RevokeSteps(c.dbUser), dryMode);
    ghost var m1, log1, went1 := server.State(), server.log, alive;
    if alive {
      alive := OnBothHosts(server, GrantSteps(c.dbName, c.dbUser), dryMode);
    }
    ghost var m2, log2, went2 := server.State(), server.log, alive;
    if alive {
      alive := AuditdbOperation(server, c, dryMode);
    }
    if went1 {
      DidThen(m1, log1, GrantSteps(c.dbName, c.dbUser), AuditSteps(c), dryMode, m2, log2, went2,
              server.State(), server.log, alive);
    }
    DidThen(old(server.State()), old(server.log), RevokeSteps(c.dbUser), GrantSteps(c.dbName, c.dbUser) + AuditSteps(c),
            dryMode, m1, log1, went1, server.State(), server.log, alive);
  }

  // ---- what the dry run writes -----------------------------------------------

  function RevokeLines(user: string): seq<Stmt> {
    [RevokeAll(Account(user, "%")), Flush, RevokeAll(Account(user, "localhost")), Flush]
  }

  function GrantLines(db: string, user: string): seq<Stmt> {
    [GrantAll(db, Account(user, "%")), Flush, GrantAll(db, Account(user, "localhost")), Flush]
  }

  function InsertLines(db: string, user: string): seq<Stmt> {
    [GrantInsert(db, TABLE, Account(user, "%")), Flush, GrantInsert(db, TABLE, Account(user, "localhost")), Flush]
  }

  /** The log, line by line; it does not depend on the server. */
  lemma ResetLog(c: Config, d: Db)
    ensures LogAll(d, ResetSteps(c)) ==
            RevokeLines(c.dbUser) + (GrantLines(c.dbName, c.dbUser)
            + ((if c.dbUser == c.auditDbUser then []
                else RevokeLines(c.auditDbUser) + GrantLines(c.auditDbName, c.dbUser))
               + InsertLines(c.auditDbName, c.auditDbUser)))
  {
    hide LogAll;
    PairLogs(d, c.dbUser, c.dbUser, c.dbName);
    PairLogs(d, c.auditDbUser, c.dbUser, c.auditDbName);
    hide Logged, RevokeLines, GrantLines, InsertLines, RevokeSteps, GrantSteps, InsertSteps;
    LogConcat(d, RevokeSteps(c.dbUser), GrantSteps(c.dbName, c.dbUser) + AuditSteps(c));
    LogConcat(d, GrantSteps(c.dbName, c.dbUser), AuditSteps(c));
    LogConcat(d, SeparateSteps(c), InsertSteps(c.dbUser, c.auditDbName, c.auditDbUser));
    LogConcat(d, RevokeSteps(c.auditDbUser), GrantSteps(c.auditDbName, c.dbUser));
    NoLog(d);
  }

  lemma NoLog(d: Db)
    ensures LogAll(d, []) == []
  {}

  lemma PairLogs(d: Db, user: string, grantor: string, db: string)
    ensures LogAll(d, RevokeSteps(user)) == RevokeLines(user)
    ensures LogAll(d, GrantSteps(db, grantor)) == GrantLines(db, grantor)
    ensures LogAll(d, InsertSteps(grantor, db, user)) == InsertLines(db, user)
  {
    hide LogAll;
    var (p, q) := (RevokeSteps(user), GrantSteps(db, grantor));
    var r := InsertSteps(grantor, db, user);
    LogTwo(d, p[0], p[1]);
    LogTwo(d, q[0], q[1]);
    LogTwo(d, r[0], r[1]);
    assert forall a :: Logged(d, Grant(db, a, true)) == [GrantAll(db, a), Flush];
  }

  // ---- one account ---------------------------------------------------------

  /** The privileges a step leaves to account a, who held p. */
  function PrivStep(step: Step, a: Account, p: set<Privilege>): set<Privilege> {
    match step
    case Revoke(b) => if a == b then {} else p
    case Grant(db, b, _) => if a == b then p + {AllOn(db)} else p
    case GrantInsertAs(_, db, t, b) => if a == b then p + {InsertOn(db, t)} else p
    case _ => p
  }

  function PrivAfter(steps: seq<Step>, a: Account, p: set<Privilege>): set<Privilege> {
    if steps == [] then p else PrivAfter(steps[1..], a, PrivStep(steps[0], a, p))
  }

  predicate Resets(steps: seq<Step>) {
    forall i | 0 <= i < |steps| :: steps[i].Revoke? || steps[i].Grant? || steps[i].GrantInsertAs?
  }

  lemma ResetStep(d: Db, step: Step)
    requires Resets([step])
    ensures var e := Effect(d, step);
      && e.databases == d.databases && e.tables == d.tables && e.passwords == d.passwords
      && e.accounts.Keys == d.accounts.Keys
      && forall a :: a in d.accounts ==> e.accounts[a] == PrivStep(step, a, d.accounts[a])
  {
    assert [step][0] == step;
  }

  /** Account by account, resetting does nothing else and touches no database. */
  lemma {:induction false} ResetEffects(d: Db, steps: seq<Step>, i: nat)
    requires Resets(steps) && i <= |steps|
    ensures var e := Effects(d, steps[..i]);
      && e.databases == d.databases && e.tables == d.tables && e.passwords == d.passwords
      && e.accounts.Keys == d.accounts.Keys
      && forall a :: a in d.accounts ==> e.accounts[a] == PrivAfter(steps[..i], a, d.accounts[a])
  {
    hide Effect, Effects, PrivStep;
    if i == 0 {
      NoEffects(d, steps);
    } else {
      ResetEffects(d, steps, i - 1);
      EffectsSnoc(d, steps, i - 1);
      ResetStep(Effects(d, steps[..i - 1]), steps[i - 1]);
      assert steps[..i] == steps[..i - 1] + [steps[i - 1]];
      forall a | a in d.accounts
        ensures PrivAfter(steps[..i], a, d.accounts[a]) ==
                PrivStep(steps[i - 1], a, PrivAfter(steps[..i - 1], a, d.accounts[a]))
      {
        PrivSnoc(steps[..i - 1], steps[i - 1], a, d.accounts[a]);
      }
    }
  }

  lemma {:induction false} PrivSnoc(steps: seq<Step>, step: Step, a: Account, p: set<Privilege>)
    ensures PrivAfter(steps + [step], a, p) == PrivStep(step, a, PrivAfter(steps, a, p))
  {
    hide PrivStep;
    if steps == [] {
      assert ([] + [step])[1..] == [];
    } else {
      assert (steps + [step])[1..] == steps[1..] + [step];
      PrivSnoc(steps[1..], step, a, PrivStep(steps[0], a, p));
    }
  }

  /** The two users' accounts. */
  predicate Managed(c: Config, a: Account) {
    a.host in HOSTS && a.user in {c.dbUser, c.auditDbUser}
  }

  /** Exactly what each account is meant to hold. One user in both roles is granted nothing but
      the insert privilege on the audit database. */
  function Wanted(c: Config, a: Account, p: set<Privilege>): set<Privilege> {
    if !Managed(c, a) then p
    else if c.dbUser == c.auditDbUser then {AllOn(c.dbName), InsertOn(c.auditDbName, TABLE)}
    else if a.user == c.dbUser then {AllOn(c.dbName), AllOn(c.auditDbName)}
    else {InsertOn(c.auditDbName, TABLE)}
  }

  function Target(c: Config, d: Db): Db {
    d.(accounts := map a | a in d.accounts :: Wanted(c, a, d.accounts[a]))
  }

  lemma StepsSpelledOut(c: Config)
    requires c.dbUser != c.auditDbUser
    ensures ResetSteps(c) == [
      Revoke(Account(c.dbUser, "%")), Revoke(Account(c.dbUser, "localhost")),
      Grant(c.dbName, Account(c.dbUser, "%"), true), Grant(c.dbName, Account(c.dbUser, "localhost"), true),
      Revoke(Account(c.auditDbUser, "%")), Revoke(Account(c.auditDbUser, "localhost")),
      Grant(c.auditDbName, Account(c.dbUser, "%"), true), Grant(c.auditDbName, Account(c.dbUser, "localhost"), true),
      GrantInsertAs(c.dbUser, c.auditDbName, TABLE, Account(c.auditDbUser, "%")),
      GrantInsertAs(c.dbUser, c.auditDbName, TABLE, Account(c.auditDbUser, "localhost"))]
  {}

  lemma PrivTwo(s: Step, t: Step, rest: seq<Step>, a: Account, p: set<Privilege>)
    ensures PrivAfter([s, t] + rest, a, p) == PrivAfter(rest, a, PrivStep(t, a, PrivStep(s, a, p)))
  {
    assert ([s, t] + rest)[1..] == [t] + rest && ([t] + rest)[1..] == rest;
  }

  lemma WantedAfter(c: Config, a: Account, p: set<Privilege>)
    ensures PrivAfter(ResetSteps(c), a, p) == Wanted(c, a, p)
  {
    if c.dbUser != c.auditDbUser {
      WantedSeparately(c, a, p);
    } else {
      var (u, v) := (RevokeSteps(c.dbUser), GrantSteps(c.dbName, c.dbUser));
      var y := InsertSteps(c.dbUser, c.auditDbName, c.auditDbUser);
      assert ResetSteps(c) == u + (v + y);
      WantedOfOne(c, a, p);
      hide PrivAfter, PrivStep, Wanted, ResetSteps;
      PrivTwo(u[0], u[1], v + y, a, p);
      PrivTwo(v[0], v[1], y, a, Both(u, a, p));
      assert y + [] == y;
      PrivTwo(y[0], y[1], [], a, Both(v, a, Both(u, a, p)));
      NoPriv(a, Both(y, a, Both(v, a, Both(u, a, p))));
    }
  }

  lemma WantedOfOne(c: Config, a: Account, p: set<Privilege>)
    requires c.dbUser == c.auditDbUser
    ensures var granted := Both(GrantSteps(c.dbName, c.dbUser), a, Both(RevokeSteps(c.dbUser), a, p));
      Both(InsertSteps(c.dbUser, c.auditDbName, c.auditDbUser), a, granted) == Wanted(c, a, p)
  {
    HostsAre(a);
    if a.host in HOSTS && a.user == c.dbUser {
      BothRevokes(c.dbUser, a, p);
      BothGives(c.dbName, c.dbUser, a, {});
    }
  }

  lemma WantedSeparately(c: Config, a: Account, p: set<Privilege>)
    requires c.dbUser != c.auditDbUser
    ensures PrivAfter(ResetSteps(c), a, p) == Wanted(c, a, p)
  {
    var (u, v) := (RevokeSteps(c.dbUser), GrantSteps(c.dbName, c.dbUser));
    var (w, x) := (RevokeSteps(c.auditDbUser), GrantSteps(c.auditDbName, c.dbUser));
    var y := InsertSteps(c.dbUser, c.auditDbName, c.auditDbUser);
    ResetShape(c);
    hide PrivAfter, PrivStep, Wanted, ResetSteps;
    var p1 := Both(u, a, p);
    PrivTwo(u[0], u[1], v + (w + (x + y)), a, p);
    var p2 := Both(v, a, p1);
    PrivTwo(v[0], v[1], w + (x + y), a, p1);
    var p3 := Both(w, a, p2);
    PrivTwo(w[0], w[1], x + y, a, p2);
    var p4 := Both(x, a, p3);
    PrivTwo(x[0], x[1], y, a, p3);
    assert y + [] == y;
    PrivTwo(y[0], y[1], [], a, p4);
    BothMeaning(c, a, p);
    assert PrivAfter([], a, Both(y, a, p4)) == Both(y, a, p4) by { NoPriv(a, Both(y, a, p4)); }
  }

  lemma ResetShape(c: Config)
    requires c.dbUser != c.auditDbUser
    ensures ResetSteps(c) == RevokeSteps(c.dbUser) + (GrantSteps(c.dbName, c.dbUser) + (RevokeSteps(c.auditDbUser)
                             + (GrantSteps(c.auditDbName, c.dbUser)
                                + InsertSteps(c.dbUser, c.auditDbName, c.auditDbUser))))
  {
    Assoc(RevokeSteps(c.auditDbUser), GrantSteps(c.auditDbName, c.dbUser),
          InsertSteps(c.dbUser, c.auditDbName, c.auditDbUser));
  }

  lemma NoPriv(a: Account, p: set<Privilege>)
    ensures PrivAfter([], a, p) == p
  {}

  function Both(steps: seq<Step>, a: Account, p: set<Privilege>): set<Privilege>
    requires |steps| == 2
  {
    PrivStep(steps[1], a, PrivStep(steps[0], a, p))
  }

  lemma BothMeaning(c: Config, a: Account, p: set<Privilege>)
    requires c.dbUser != c.auditDbUser
    ensures var granted := Both(GrantSteps(c.dbName, c.dbUser), a, Both(RevokeSteps(c.dbUser), a, p));
      var separate := Both(GrantSteps(c.auditDbName, c.dbUser), a, Both(RevokeSteps(c.auditDbUser), a, granted));
      Both(InsertSteps(c.dbUser, c.auditDbName, c.auditDbUser), a, separate) == Wanted(c, a, p)
  {
    HostsAre(a);
    if a.host in HOSTS && a.user == c.dbUser {
      assert Both(GrantSteps(c.dbName, c.dbUser), a, Both(RevokeSteps(c.dbUser), a, p)) == {AllOn(c.dbName)};
    } else if a.host in HOSTS && a.user == c.auditDbUser {
      assert Both(RevokeSteps(c.auditDbUser), a, p) == {};
    }
  }

  lemma HostsAre(a: Account)
    ensures a.host in HOSTS <==> a.host == "%" || a.host == "localhost"
  {
    assert a.host in HOSTS <==> a.host == HOSTS[0] || a.host == HOSTS[1];
  }

  lemma ResetMeaning(c: Config, d: Db)
    ensures Effects(d, ResetSteps(c)) == Target(c, d)
  {
    var steps := ResetSteps(c);
    ResetManages(c);
    assert steps[..|steps|] == steps;
    ResetEffects(d, steps, |steps|);
    hide Effects, ResetSteps, Wanted, PrivAfter;
    forall a | a in d.accounts ensures Effects(d, steps).accounts[a] == Wanted(c, a, d.accounts[a]) {
      WantedAfter(c, a, d.accounts[a]);
    }
    assert Effects(d, steps).accounts == Target(c, d).accounts;
  }

  // ---- failures and reruns -------------------------------------------------

  /** Two servers that differ at most in what the two users hold. */
  ghost predicate SameElsewhere(c: Config, d: Db, e: Db) {
    && e.databases == d.databases && e.tables == d.tables && e.passwords == d.passwords
    && e.accounts.Keys == d.accounts.Keys
    && forall a :: a in d.accounts && !Managed(c, a) ==> e.accounts[a] == d.accounts[a]
  }

  predicate Manages(c: Config, steps: seq<Step>) {
    forall i | 0 <= i < |steps| ::
      (steps[i].Revoke? || steps[i].Grant? || steps[i].GrantInsertAs?) && Managed(c, steps[i].account)
  }

  lemma ResetManages(c: Config)
    ensures Manages(c, ResetSteps(c)) && Resets(ResetSteps(c)) && Checked(ResetSteps(c))
  {
    assert "%" in HOSTS && "localhost" in HOSTS by { assert HOSTS[0] == "%" && HOSTS[1] == "localhost"; }
  }

  lemma {:induction false} PartElsewhere(c: Config, d: Db, steps: seq<Step>, i: nat)
    requires Manages(c, steps) && i <= |steps|
    ensures SameElsewhere(c, d, Effects(d, steps[..i]))
  {
    hide Effect, Effects;
    if i == 0 {
      NoEffects(d, steps);
    } else {
      PartElsewhere(c, d, steps, i - 1);
      EffectsSnoc(d, steps, i - 1);
      ResetStep(Effects(d, steps[..i - 1]), steps[i - 1]);
    }
  }

  lemma {:induction false} RunsElsewhere(c: Config, d: Db, runs: seq<seq<Fate>>)
    ensures SameElsewhere(c, d, AfterRuns(d, ResetSteps(c), runs))
  {
    hide ResetSteps, PerformAll, Effects;
    if runs != [] {
      var n := |runs| - 1;
      var steps := ResetSteps(c);
      RunsElsewhere(c, d, runs[..n]);
      var e := AfterRuns(d, steps, runs[..n]);
      ResetManages(c);
      NoEffects(e, steps);
      assert steps[0..] == steps;
      var k := RunOutcome(e, Machine(e, runs[n]), steps, 0);
      PartElsewhere(c, e, steps, k);
    }
  }

  /** The privilege reset converges: from any privileges, after any number of runs that failed
      wherever they may, a run that goes to the end leaves the audit user exactly INSERT on the
      audit table and the main user exactly ALL on both databases, on both hosts (one user in both
      roles: ALL on its database and the insert privilege), and every other account, all passwords,
      the databases and the tables as they were at the very start. */
  lemma ResetConverges(c: Config, d: Db, runs: seq<seq<Fate>>, fates: seq<Fate>)
    ensures var (m, alive) := PerformAll(Machine(AfterRuns(d, ResetSteps(c), runs), fates), ResetSteps(c));
      && SameElsewhere(c, d, m.db)
      && (alive ==> m.db == Target(c, d))
  {
    hide PerformAll, Effects, ResetSteps, AfterRuns, Wanted;
    var steps := ResetSteps(c);
    var e := AfterRuns(d, steps, runs);
    RunsElsewhere(c, d, runs);
    ResetManages(c);
    NoEffects(e, steps);
    assert steps[0..] == steps && steps[..|steps|] == steps;
    var k := RunOutcome(e, Machine(e, fates), steps, 0);
    PartElsewhere(c, e, steps, k);
    ResetMeaning(c, e);
    TargetsAgree(c, d, e);
  }

  lemma TargetsAgree(c: Config, d: Db, e: Db)
    requires SameElsewhere(c, d, e)
    ensures Target(c, d) == Target(c, e)
  {
    assert Target(c, d).accounts == Target(c, e).accounts;
  }

  // ---- which configurations can finish -------------------------------------

  /** The accounts the reset works on exist. */
  predicate AccountsExist(c: Config, d: Db) {
    forall h | h in HOSTS :: Account(c.dbUser, h) in d.accounts && Account(c.auditDbUser, h) in d.accounts
  }

  /** At an insert grant: the main user was just given the audit database, or it is its own. */
  lemma GrantorReady(c: Config, d: Db, j: nat)
    requires j < |ResetSteps(c)| && ResetSteps(c)[j].GrantInsertAs?
    requires Account(c.dbUser, "%") in d.accounts
    ensures var now := Effects(d, ResetSteps(c)[..j]);
      MayGrant(now, c.dbUser, c.auditDbName) <==> c.dbUser != c.auditDbUser || c.dbName == c.auditDbName
  {
    var steps := ResetSteps(c);
    ResetManages(c);
    ResetEffects(d, steps, j);
    var now := Effects(d, steps[..j]);
    forall h | h in HOSTS && Account(c.dbUser, h) in d.accounts
      ensures AllOn(c.auditDbName) in now.accounts[Account(c.dbUser, h)]
         <==> c.dbUser != c.auditDbUser || c.dbName == c.auditDbName
    {
      GrantorHolds(c, Account(c.dbUser, h), d.accounts[Account(c.dbUser, h)], j);
    }
    assert HOSTS[0] == "%" && HOSTS[0] in HOSTS;
  }

  lemma GrantorHolds(c: Config, a: Account, p: set<Privilege>, j: nat)
    requires j < |ResetSteps(c)| && ResetSteps(c)[j].GrantInsertAs? && a.user == c.dbUser && a.host in HOSTS
    ensures AllOn(c.auditDbName) in PrivAfter(ResetSteps(c)[..j], a, p)
       <==> c.dbUser != c.auditDbUser || c.dbName == c.auditDbName
  {
    var (u, v) := (RevokeSteps(c.dbUser), GrantSteps(c.dbName, c.dbUser));
    var (w, x) := (RevokeSteps(c.auditDbUser), GrantSteps(c.auditDbName, c.dbUser));
    var y := InsertSteps(c.dbUser, c.auditDbName, c.auditDbUser);
    var n := if c.dbUser != c.auditDbUser then 8 else 4;
    BeforeInsert(c, j);
    var part := y[..j - n];
    hide PrivAfter, PrivStep, ResetSteps;
    var granted := Both(v, a, Both(u, a, p));
    if c.dbUser != c.auditDbUser {
      var separate := Both(x, a, Both(w, a, granted));
      BeforeInsert(c, j);
      PrivTwo(u[0], u[1], v + (w + (x + part)), a, p);
      PrivTwo(v[0], v[1], w + (x + part), a, Both(u, a, p));
      PrivTwo(w[0], w[1], x + part, a, granted);
      PrivTwo(x[0], x[1], part, a, Both(w, a, granted));
      InsertsKeep(part, a, separate, c.auditDbName);
      BothGives(c.auditDbName, c.dbUser, a, Both(w, a, granted));
    } else {
      BeforeInsert(c, j);
      PrivTwo(u[0], u[1], v + part, a, p);
      PrivTwo(v[0], v[1], part, a, Both(u, a, p));
      InsertsKeep(part, a, granted, c.auditDbName);
      BothRevokes(c.dbUser, a, p);
      BothGives(c.dbName, c.dbUser, a, {});
    }
  }

  // The steps before an insert grant.
  lemma BeforeInsert(c: Config, j: nat)
    requires j < |ResetSteps(c)| && ResetSteps(c)[j].GrantInsertAs?
    ensures var (u, v) := (RevokeSteps(c.dbUser), GrantSteps(c.dbName, c.dbUser));
      var (w, x) := (RevokeSteps(c.auditDbUser), GrantSteps(c.auditDbName, c.dbUser));
      var y := InsertSteps(c.dbUser, c.auditDbName, c.auditDbUser);
      if c.dbUser != c.auditDbUser then 8 <= j < 10 && ResetSteps(c)[..j] == u + (v + (w + (x + y[..j - 8])))
      else 4 <= j < 6 && ResetSteps(c)[..j] == u + (v + y[..j - 4])
  {
    if c.dbUser != c.auditDbUser {
      StepsSpelledOut(c);
    }
  }

  lemma BothRevokes(user: string, a: Account, p: set<Privilege>)
    requires a.user == user && a.host in HOSTS
    ensures Both(RevokeSteps(user), a, p) == {}
  {
    HostsAre(a);
  }

  lemma BothGives(db: string, user: string, a: Account, p: set<Privilege>)
    requires a.user == user && a.host in HOSTS
    ensures Both(GrantSteps(db, user), a, p) == p + {AllOn(db)}
  {
    HostsAre(a);
  }

  lemma {:induction false} InsertsKeep(steps: seq<Step>, a: Account, p: set<Privilege>, db: string)
    requires forall i | 0 <= i < |steps| :: steps[i].GrantInsertAs?
    ensures AllOn(db) in PrivAfter(steps, a, p) <==> AllOn(db) in p
  {
    if steps != [] {
      InsertsKeep(steps[1..], a, PrivStep(steps[0], a, p), db);
    }
  }

  /** What a run needs to go to the end: the accounts and the audit table, and two users or one
      database. With one user and two databases the insert grant is refused: the main user holds
      nothing on the audit database any more. */
  predicate Finishable(c: Config, d: Db) {
    AccountsExist(c, d) && (c.auditDbName, TABLE) in d.tables
    && (c.dbUser != c.auditDbUser || c.dbName == c.auditDbName)
  }

  predicate Feasible(d: Db, steps: seq<Step>) {
    forall j | 0 <= j < |steps| :: Possible(Effects(d, steps[..j]), steps[j])
  }

  lemma FeasibleIff(c: Config, d: Db)
    ensures Feasible(d, ResetSteps(c)) <==> Finishable(c, d)
  {
    var steps := ResetSteps(c);
    ResetManages(c);
    AccountsOfSteps(c, d);
    InsertsLast(c);
    hide ResetSteps, Effects, MayGrant;
    forall j | 0 <= j < |steps|
      ensures Possible(Effects(d, steps[..j]), steps[j]) <==>
              steps[j].account in d.accounts
              && (steps[j].GrantInsertAs? ==>
                    (c.auditDbName, TABLE) in d.tables && MayGrant(Effects(d, steps[..j]), c.dbUser, c.auditDbName))
    {
      ResetEffects(d, steps, j);
    }
    if AccountsExist(c, d) {
      assert HOSTS[0] == "%" && HOSTS[0] in HOSTS;
      forall j | 0 <= j < |steps| && steps[j].GrantInsertAs?
        ensures MayGrant(Effects(d, steps[..j]), c.dbUser, c.auditDbName)
           <==> c.dbUser != c.auditDbUser || c.dbName == c.auditDbName
      {
        GrantorReady(c, d, j);
      }
    }
  }

  lemma InsertsLast(c: Config)
    ensures var steps := ResetSteps(c);
      && |steps| > 0 && steps[|steps| - 1].GrantInsertAs?
      && forall j | 0 <= j < |steps| && steps[j].GrantInsertAs? ::
           steps[j].grantor == c.dbUser && steps[j].db == c.auditDbName && steps[j].table == TABLE
  {}

  /** Without failing calls a run goes to the end exactly then. */
  lemma CleanRunFinishesIff(c: Config, d: Db)
    ensures PerformAll(Machine(d, []), ResetSteps(c)).1 <==> Finishable(c, d)
    ensures PerformAll(Machine(d, []), ResetSteps(c)).1 ==>
            PerformAll(Machine(d, []), ResetSteps(c)).0.db == Effects(d, ResetSteps(c))
  {
    var steps := ResetSteps(c);
    FeasibleIff(c, d);
    ResetManages(c);
    hide ResetSteps, PerformAll, Effects, Possible, Finishable;
    NoEffects(d, steps);
    assert steps[0..] == steps && steps[..|steps|] == steps;
    var k := RunOutcome(d, Machine(d, []), steps, 0);
  }

  /** No run at all goes to the end otherwise, whatever its calls do: with one user and two
      databases the reset can never finish. */
  lemma CanFinishIff(c: Config, d: Db)
    ensures (exists fates :: PerformAll(Machine(d, fates), ResetSteps(c)).1) <==> Finishable(c, d)
  {
    var steps := ResetSteps(c);
    CleanRunFinishesIff(c, d);
    FeasibleIff(c, d);
    ResetManages(c);
    hide ResetSteps, PerformAll, Effects, Possible, Finishable;
    NoEffects(d, steps);
    assert steps[0..] == steps;
    forall fates | PerformAll(Machine(d, fates), steps).1 ensures Finishable(c, d) {
      var k := RunOutcome(d, Machine(d, fates), steps, 0);
    }
  }

  lemma AccountsOfSteps(c: Config, d: Db)
    ensures (forall j | 0 <= j < |ResetSteps(c)| :: ResetSteps(c)[j].account in d.accounts) <==> AccountsExist(c, d)
  {
    var steps := ResetSteps(c);
    var n := |steps|;
    assert steps[0].account == Account(c.dbUser, "%") && steps[1].account == Account(c.dbUser, "localhost");
    assert steps[n - 2].account == Account(c.auditDbUser, "%");
    assert steps[n - 1].account == Account(c.auditDbUser, "localhost");
    assert HOSTS[0] == "%" && HOSTS[1] == "localhost";
    assert forall h :: h in HOSTS <==> h == HOSTS[0] || h == HOSTS[1];
  }

  // ---- the dry run ---------------------------------------------------------

  /** What a real run without failing calls leaves; None when it gives up. */
  function CleanOutcome(c: Config, d: Db): Option<Db> {
    var (m, alive) := PerformAll(Machine(d, []), ResetSteps(c));
    if alive then Some(m.db) else None
  }

  /** Replaying the log works out exactly when all its accounts exist, and for insert grants the
      table. */
  lemma {:induction false} ReplayWorksIff(d: Db, steps: seq<Step>, e: Db)
    requires Resets(steps)
    ensures Replay(d, LogAll(e, steps)).Some? <==>
      forall j | 0 <= j < |steps| ::
        steps[j].account in d.accounts && (steps[j].GrantInsertAs? ==> (steps[j].db, steps[j].table) in d.tables)
    decreases |steps|
  {
    hide Logged, Exec;
    if steps != [] {
      ReplayConcat(d, Logged(e, steps[0]), LogAll(e, steps[1..]));
      OneReplayed(d, steps[0], e);
      var d1 := Replay(d, Logged(e, steps[0]));
      if d1.Some? {
        ReplayWorksIff(d1.value, steps[1..], e);
      }
    }
  }

  lemma OneReplayed(d: Db, step: Step, e: Db)
    requires step.Revoke? || step.Grant? || step.GrantInsertAs?
    ensures var d1 := Replay(d, Logged(e, step));
      && (d1.Some? <==> step.account in d.accounts && (step.GrantInsertAs? ==> (step.db, step.table) in d.tables))
      && (d1.Some? ==> d1.value.accounts.Keys == d.accounts.Keys && d1.value.tables == d.tables)
  {
    var stmts := Logged(e, step);
    assert stmts[1..] == (if step.Grant? && !step.logsFlush then [] else [Flush]);
    assert [Flush][1..] == [];
  }

  /** The dry run refines the real run exactly when the real run can be made, or cannot for lack of
      an account or the table: only the root user who replays the log may give the insert
      privilege away when one user has two databases. */
  lemma DryResetIff(c: Config, d: Db)
    ensures Replay(d, LogAll(d, ResetSteps(c))) == CleanOutcome(c, d)
       <==> c.dbUser != c.auditDbUser || c.dbName == c.auditDbName
            || !AccountsExist(c, d) || (c.auditDbName, TABLE) !in d.tables
  {
    var steps := ResetSteps(c);
    CleanRunFinishesIff(c, d);
    ResetManages(c);
    ReplayWorksIff(d, steps, d);
    AccountsOfSteps(c, d);
    InsertsLast(c);
    hide ResetSteps, PerformAll, Replay, LogAll;
    if Finishable(c, d) {
      DryResetReplays(c, d);
    }
  }

  lemma DryResetReplays(c: Config, d: Db)
    requires Finishable(c, d)
    ensures Replay(d, LogAll(d, ResetSteps(c))) == Some(Effects(d, ResetSteps(c)))
  {
    var steps := ResetSteps(c);
    FeasibleIff(c, d);
    ResetManages(c);
    hide ResetSteps, Effects, Replay, LogAll, Possible;
    forall i | 0 <= i <= |steps|
      ensures d.accounts.Keys == Effects(d, steps[..i]).accounts.Keys && d.databases <= Effects(d, steps[..i]).databases
    {
      ResetEffects(d, steps, i);
    }
    forall j | 0 <= j < |steps|
      ensures Possible(Effects(d, steps[..j]), steps[j]) && SameDecision(d, Effects(d, steps[..j]), steps[j])
    {
      PossibleSame(d, Effects(d, steps[..j]), steps, j);
    }
    hide SameDecision;
    ReplayTo(d, steps, |steps|);
    assert steps[..|steps|] == steps;
  }

  lemma PossibleSame(d: Db, now: Db, steps: seq<Step>, j: nat)
    requires Resets(steps) && j < |steps| && Possible(now, steps[j])
    ensures SameDecision(d, now, steps[j])
  {}
}
