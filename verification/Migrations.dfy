/** The migration runner (migrations.py), interrupted and restarted at any point. */
module Migrations {

  /** One ordered schema step; a statement is its SQL text. */
  datatype Migration = Migration(version: int, statements: seq<string>)

  datatype Outcome = Completed(version: int) | Gap(version: int) | Interrupted

  // -- what a run is to do ----------------------------------------------------

  /** The migrations a run from schema version `v` applies before the list ends or leaves a gap. */
  function Plan(migrations: seq<Migration>, v: int): seq<Migration> {
    if migrations == [] then []
    else if migrations[0].version <= v then Plan(migrations[1..], v)
    else if migrations[0].version == v + 1 then [migrations[0]] + Plan(migrations[1..], v + 1)
    else []
  }

  /** The run stops at a migration that cannot follow. */
  predicate Gapped(migrations: seq<Migration>, v: int) {
    && migrations != []
    && if migrations[0].version <= v then Gapped(migrations[1..], v)
       else migrations[0].version != v + 1 || Gapped(migrations[1..], v + 1)
  }

  /** The statements of the first `n` of some migrations, in order. */
  function Statements(migrations: seq<Migration>, n: nat): seq<string>
    requires n <= |migrations|
  {
    if n == 0 then [] else Statements(migrations, n - 1) + migrations[n - 1].statements
  }

  /** The database calls the first `n` take: `BEGIN IMMEDIATE`, their statements, the version bump and the commit. */
  function Calls(migrations: seq<Migration>, n: nat): nat
    requires n <= |migrations|
  {
    if n == 0 then 0 else Calls(migrations, n - 1) + |migrations[n - 1].statements| + 3
  }

  lemma {:induction false} StatementsSplit(migrations: seq<Migration>, k: nat, n: nat)
    requires k + n <= |migrations|
    ensures Statements(migrations, k + n) == Statements(migrations, k) + Statements(migrations[k..], n)
    ensures Calls(migrations, k + n) == Calls(migrations, k) + Calls(migrations[k..], n)
  {
    if n > 0 {
      StatementsSplit(migrations, k, n - 1);
    }
  }

  lemma {:induction false} CallsGrow(migrations: seq<Migration>, k: nat, n: nat)
    requires k <= n <= |migrations|
    ensures Calls(migrations, k) <= Calls(migrations, n)
  {
    if k < n {
      CallsGrow(migrations, k, n - 1);
    }
  }

  /** Restarting part-way through leaves exactly the rest of the plan, and meets the same gap. */
  lemma {:induction false} RestartResumes(migrations: seq<Migration>, u: int, v: int)
    requires u <= v <= u + |Plan(migrations, u)|
    ensures Plan(migrations, v) == Plan(migrations, u)[v - u..]
    ensures Gapped(migrations, v) <==> Gapped(migrations, u)
  {
    if migrations != [] {
      var m, rest := migrations[0], migrations[1..];
      if m.version <= u {
        RestartResumes(rest, u, v);
      } else if m.version == u + 1 {
        if v > u {
          RestartResumes(rest, u + 1, v);
        }
      }
    }
  }

  /** The versions of a plan run upwards one by one. */
  lemma {:induction false} PlanIsContiguous(migrations: seq<Migration>, v: int, k: nat)
    requires k < |Plan(migrations, v)|
    ensures Plan(migrations, v)[k].version == v + k + 1
  {
    if migrations[0].version <= v {
      PlanIsContiguous(migrations[1..], v, k);
    } else if k > 0 {
      PlanIsContiguous(migrations[1..], v + 1, k - 1);
    }
  }

  /** A run meets a gap exactly when the list names a version beyond the one it can reach. */
  lemma {:induction false} GapIsBeyond(migrations: seq<Migration>, v: int)
    ensures Gapped(migrations, v)
       <==> exists i :: 0 <= i < |migrations| && migrations[i].version > v + |Plan(migrations, v)|
  {
    if migrations != [] {
      var m, rest := migrations[0], migrations[1..];
      var next := if m.version == v + 1 then v + 1 else v;
      if m.version <= v + 1 {
        GapIsBeyond(rest, next);
        assert next + |Plan(rest, next)| == v + |Plan(migrations, v)|;
        if exists i :: 0 <= i < |rest| && rest[i].version > next + |Plan(rest, next)| {
          var i :| 0 <= i < |rest| && rest[i].version > next + |Plan(rest, next)|;
          assert migrations[i + 1] == rest[i];
        }
        if exists i :: 0 <= i < |migrations| && migrations[i].version > v + |Plan(migrations, v)| {
          var i :| 0 <= i < |migrations| && migrations[i].version > v + |Plan(migrations, v)|;
          assert i > 0 && rest[i - 1] == migrations[i];
        }
      } else {
        assert migrations[0].version > v + |Plan(migrations, v)|;
      }
    }
  }

  /** What a run applies comes from the list, in the list's own sequence. */
  lemma {:induction false} PlanIsFromList(migrations: seq<Migration>, v: int, k: nat) returns (i: nat)
    requires k < |Plan(migrations, v)|
    ensures i < |migrations| && Plan(migrations, v)[k] == migrations[i]
    ensures forall j :: 0 <= j < i ==> migrations[j].version <= v + k
  {
    if migrations[0].version <= v {
      i := PlanIsFromList(migrations[1..], v, k);
      i := i + 1;
    } else if k == 0 {
      i := 0;
    } else {
      i := PlanIsFromList(migrations[1..], v + 1, k - 1);
      i := i + 1;
    }
  }

  /** A list numbered 1, 2, 3 and so on, as the shipped one is, is applied whole. */
  lemma {:induction false} ContiguousListIsApplied(migrations: seq<Migration>, v: int)
    requires forall i :: 0 <= i < |migrations| ==> migrations[i].version == v + i + 1
    ensures Plan(migrations, v) == migrations && !Gapped(migrations, v)
  {
    if migrations != [] {
      ContiguousListIsApplied(migrations[1..], v + 1);
    }
  }

  // -- the invariant ----------------------------------------------------------

  /** The recorded version names a schema that is that prefix of the plan, applied once each and in order. */
  ghost predicate Intact(migrations: seq<Migration>, schema: seq<string>, version: int) {
    var plan := Plan(migrations, 0);
    0 <= version <= |plan| && schema == Statements(plan, version)
  }

  /** What one attempt may leave: some whole migrations further on, and as far as its outcome says. */
  ghost predicate Advances(migrations: seq<Migration>, schema: seq<string>, version: int,
                           after: seq<string>, reached: int, outcome: Outcome) {
    var plan := Plan(migrations, version);
    && version <= reached <= version + |plan|
    && after == schema + Statements(plan, reached - version)
    && match outcome
       case Completed(n) => reached == version + |plan| == n && !Gapped(migrations, version)
       case Gap(n) => reached == version + |plan| == n && Gapped(migrations, version)
       case Interrupted => reached < version + |plan|
  }

  /** Crash safety: any attempt leaves an intact schema, and one that is not cut short leaves the whole plan. */
  lemma AttemptsKeepIntact(migrations: seq<Migration>, schema: seq<string>, version: int,
                           after: seq<string>, reached: int, outcome: Outcome)
    requires Intact(migrations, schema, version) && Advances(migrations, schema, version, after, reached, outcome)
    ensures Intact(migrations, after, reached)
    ensures !outcome.Interrupted? ==> reached == |Plan(migrations, 0)|
    ensures !outcome.Interrupted? ==> outcome == if Gapped(migrations, 0) then Gap(reached) else Completed(reached)
  {
    RestartResumes(migrations, 0, version);
    StatementsSplit(Plan(migrations, 0), version, reached - version);
  }

  /** What is left to do never takes more calls than the whole. */
  lemma RestCallsFewer(migrations: seq<Migration>, v: int)
    requires 0 <= v <= |Plan(migrations, 0)|
    ensures TotalCalls(migrations, v) <= TotalCalls(migrations, 0)
  {
    RestartResumes(migrations, 0, v);
    StatementsSplit(Plan(migrations, 0), v, |Plan(migrations, v)|);
  }

  function TotalCalls(migrations: seq<Migration>, v: int): nat {
    Calls(Plan(migrations, v), |Plan(migrations, v)|)
  }

  /** Part-way through a list: `n` migrations are done, and the rest of the plan is that of the rest of the list. */
  ghost predicate Reached(migrations: seq<Migration>, v: int, i: nat, n: nat) {
    && i <= |migrations| && n <= |Plan(migrations, v)|
    && Continues(migrations[i..], Plan(migrations, v)[n..], Gapped(migrations, v), v + n)
  }

  ghost predicate Continues(rest: seq<Migration>, plan: seq<Migration>, gapped: bool, v: int) {
    plan == Plan(rest, v) && (gapped <==> Gapped(rest, v))
  }

  lemma ReachedEnds(migrations: seq<Migration>, v: int)
    ensures Reached(migrations, v, 0, 0)
    ensures forall n :: Reached(migrations, v, |migrations|, n) ==> n == |Plan(migrations, v)| && !Gapped(migrations, v)
  {
    assert migrations[0..] == migrations && Plan(migrations, v)[0..] == Plan(migrations, v);
    assert migrations[|migrations|..] == [];
  }

  /** One turn of the runner's loop. */
  lemma ReachedNext(migrations: seq<Migration>, v: int, i: nat, n: nat)
    requires Reached(migrations, v, i, n) && i < |migrations|
    ensures migrations[i].version <= v + n ==> Reached(migrations, v, i + 1, n)
    ensures migrations[i].version == v + n + 1 ==>
              && n < |Plan(migrations, v)| && Plan(migrations, v)[n] == migrations[i]
              && Reached(migrations, v, i + 1, n + 1)
    ensures migrations[i].version > v + n + 1 ==> n == |Plan(migrations, v)| && Gapped(migrations, v)
  {
    assert migrations[i..][1..] == migrations[i + 1..];
    if migrations[i].version == v + n + 1 {
      assert Plan(migrations, v)[n..][1..] == Plan(migrations, v)[n + 1..];
      assert Plan(migrations, v)[n..][0] == migrations[i];
    }
  }

  // -- the runner -------------------------------------------------------------

  /** A connection: the schema its statements have built, and SQLite's `user_version`. */
  class Connection {
    var schema: seq<string>
    var userVersion: int

    /**
     `apply_migrations` from its reading of the version on, given how many more database calls succeed before the
     process dies or a call raises. Each migration is one transaction with its version bump, rolled back if cut short.
     */
    method ApplyMigrations(migrations: seq<Migration>, calls: nat) returns (outcome: Outcome)
      modifies this
      ensures Advances(migrations, old(schema), old(userVersion), schema, userVersion, outcome)
      ensures outcome.Interrupted? <==> calls < TotalCalls(migrations, old(userVersion))
    {
      var current, left := userVersion, calls;
      ghost var v, plan, n := userVersion, Plan(migrations, userVersion), 0;
      ReachedEnds(migrations, v);
      for i := 0 to |migrations|
        invariant Reached(migrations, v, i, n)
        invariant current == userVersion == v + n
        invariant schema == old(schema) + Statements(plan, n)
        invariant left >= 0 && left + Calls(plan, n) == calls
      {
        var m := migrations[i];
        ReachedNext(migrations, v, i, n);
        if m.version <= current {
          continue;
        }
        if m.version != current + 1 {
          return Gap(current);
        }
        var committed := ApplyOne(m, left);
        if !committed {
          CallsGrow(plan, n + 1, |plan|);
          return Interrupted;
        }
        left := left - (|m.statements| + 3);
        current, n := m.version, n + 1;
      }
      return Completed(current);
    }

    /** One transaction; cut short, whatever it had executed is rolled back. */
    method ApplyOne(m: Migration, calls: nat) returns (committed: bool)
      modifies this
      ensures committed <==> calls >= |m.statements| + 3
      ensures committed ==> schema == old(schema) + m.statements && userVersion == m.version
      ensures !committed ==> schema == old(schema) && userVersion == old(userVersion)
    {
      if calls == 0 {
        return false;
      }
      var saved, left := schema, calls - 1;
      for j := 0 to |m.statements|
        invariant left >= 0 && 1 + left + j == calls
        invariant schema == saved + m.statements[..j] && userVersion == old(userVersion)
      {
        if left == 0 {
          schema := saved;
          return false;
        }
        schema, left := schema + [m.statements[j]], left - 1;
      }
      assert m.statements[..|m.statements|] == m.statements;
      var version := userVersion;
      if left > 0 {
        userVersion, left := m.version, left - 1;
      }
      if left == 0 {
        schema, userVersion := saved, version;
        return false;
      }
      return true;
    }

    /** Any number of attempts, each cut short where it may be, then one that is not. */
    method Recover(migrations: seq<Migration>, attempts: seq<nat>, calls: nat) returns (outcome: Outcome)
      requires Intact(migrations, schema, userVersion)
      requires calls >= TotalCalls(migrations, 0)
      modifies this
      ensures userVersion == |Plan(migrations, 0)| && schema == Statements(Plan(migrations, 0), userVersion)
      ensures outcome == if Gapped(migrations, 0) then Gap(userVersion) else Completed(userVersion)
    {
      for k := 0 to |attempts|
        invariant Intact(migrations, schema, userVersion)
      {
        ghost var was, version := schema, userVersion;
        var ended := ApplyMigrations(migrations, attempts[k]);
        AttemptsKeepIntact(migrations, was, version, schema, userVersion, ended);
      }
      ghost var was, version := schema, userVersion;
      RestCallsFewer(migrations, userVersion);
      outcome := ApplyMigrations(migrations, calls);
      AttemptsKeepIntact(migrations, was, version, schema, userVersion, outcome);
    }
  }
}
