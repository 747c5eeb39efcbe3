/** How a rollback run ends, and what an aborted one has touched: families in front of the failing one, none behind. */
module ReapplyExits {
  import opened Reapply

  /** The commit loop stops at position `m`. */
  predicate CommitStopsAt(env: Env, m: nat)
    requires env.Valid()
  {
    && m < |env.enabled| && !Finishes(env.commit[env.enabled[m]])
    && forall j :: 0 <= j < m ==> Finishes(env.commit[env.enabled[j]])
  }

  /** Every commit ended, and a status or a missing yes asks for a rollback. */
  predicate RollbackDue(env: Env)
    requires env.Valid()
  {
    && env.parse.Parsed? && (forall f :: f in env.enabled ==> Finishes(env.commit[f]))
    && ((env.interactive && !env.confirmed) || exists f :: f in env.enabled && env.commit[f].CommitStatus?)
  }

  /** The rollback loop stops at position `m`. */
  predicate RollbackStopsAt(env: Env, m: nat)
    requires env.Valid()
  {
    && m < |env.enabled| && !Returns(env.rollback[env.enabled[m]])
    && forall j :: 0 <= j < m ==> Returns(env.rollback[env.enabled[j]])
  }

  lemma {:induction false} CommitStops(env: Env, kernel: map<string, Rules>, status: bool, i: nat, m: nat)
    requires env.Valid() && i <= m && CommitStopsAt(env, m)
    ensures var (r, k, _) := CommittedFrom(env, kernel, status, i);
            var c := env.commit[env.enabled[m]];
            && r == (if c.CommitExits? then SystemExit else FermError)
            && (forall j :: i <= j < m ==>
                  env.enabled[j] in k && k[env.enabled[j]] == RulesAfter(env.commit[env.enabled[j]]))
            && (!c.RenderRaises? ==> env.enabled[m] in k && k[env.enabled[m]] == Unknown)
            && forall f :: f in kernel && (forall j :: i <= j <= m ==> f != env.enabled[j]) ==>
                 f in k && k[f] == kernel[f]
    ensures env.commit[env.enabled[m]].RenderRaises? && env.enabled[m] in kernel ==>
              var k := CommittedFrom(env, kernel, status, i).1;
              env.enabled[m] in k && k[env.enabled[m]] == kernel[env.enabled[m]]
    decreases m - i
  {
    hide RulesAfter;
    if i < m {
      var f := env.enabled[i];
      CommitNext(env, kernel, status, i);
      CommitStops(env, kernel[f := RulesAfter(env.commit[f])], status || env.commit[f].CommitStatus?, i + 1, m);
      CommitKeeps(env, kernel[f := RulesAfter(env.commit[f])], status || env.commit[f].CommitStatus?, i + 1, i);
    }
  }

  lemma CommitNext(env: Env, kernel: map<string, Rules>, status: bool, i: nat)
    requires env.Valid() && i < |env.enabled| && Finishes(env.commit[env.enabled[i]])
    ensures var f := env.enabled[i];
            CommittedFrom(env, kernel, status, i)
            == CommittedFrom(env, kernel[f := RulesAfter(env.commit[f])], status || env.commit[f].CommitStatus?, i + 1)
  {
  }

  /** A family once passed is not touched again. */
  lemma CommitKeeps(env: Env, kernel: map<string, Rules>, status: bool, i: nat, j: nat)
    requires env.Valid() && j < i <= |env.enabled| && env.enabled[j] in kernel
    ensures var k := CommittedFrom(env, kernel, status, i).1;
            env.enabled[j] in k && k[env.enabled[j]] == kernel[env.enabled[j]]
  {
    CommitLeaves(env, kernel, status, i);
  }

  lemma {:induction false} RollbackStops(env: Env, kernel: map<string, Rules>, notices: seq<Notice>, i: nat, m: nat)
    requires env.Valid() && i <= m && RollbackStopsAt(env, m)
    ensures RolledBack(env, kernel, notices, i).0
            == if env.rollback[env.enabled[m]].RollbackExits? then SystemExit else FermError
    decreases m - i
  {
    if i < m {
      var f := env.enabled[i];
      if env.rollback[f].NoTool? {
        RollbackStops(env, kernel, notices + [CannotRollBack(f)], i + 1, m);
      } else {
        RollbackStops(env, kernel[f := if env.rollback[f].Restored? then Before else Unknown], notices, i + 1, m);
      }
    }
  }

  /** A rollback that reaches its end says so. */
  lemma {:induction false} RollbackSays(env: Env, kernel: map<string, Rules>, notices: seq<Notice>, i: nat)
    requires env.Valid() && i <= |env.enabled|
    ensures var (r, _, n) := RolledBack(env, kernel, notices, i);
            r.RolledBackExit? ==> n != [] && n[|n| - 1] == RulesRolledBack
    decreases |env.enabled| - i
  {
    if i < |env.enabled| {
      var f := env.enabled[i];
      match env.rollback[f]
      case Restored => RollbackSays(env, kernel[f := Before], notices, i + 1);
      case NoTool => RollbackSays(env, kernel, notices + [CannotRollBack(f)], i + 1);
      case StatusIgnored => RollbackSays(env, kernel[f := Unknown], notices, i + 1);
      case CopyWrong => RollbackSays(env, kernel[f := Unknown], notices, i + 1);
      case _ =>
    }
  }

  /** A marked exit says that the rules were rolled back, right in front of what became of the worktree. */
  lemma RollbackAnnounced(env: Env, kernel: map<string, Rules>)
    requires env.Valid() && Allowed(env) && Run(env, kernel, Current, []).0 == RolledBackExit
    ensures var n := Run(env, kernel, Current, []).3;
            |n| >= 2 && n[|n| - 2] == RulesRolledBack && n[|n| - 1] in {WorktreeRestored, RestoreFailed}
  {
    hide RolledBack, CommittedFrom;
    RollbackSays(env, CommittedFrom(env, kernel, false, 0).1, [], 0);
    CommitExit(env, kernel);
  }

  lemma {:induction false} FirstCommitStop(env: Env, n: nat) returns (m: nat)
    requires env.Valid() && n <= |env.enabled| && exists j :: 0 <= j < n && !Finishes(env.commit[env.enabled[j]])
    ensures CommitStopsAt(env, m)
  {
    m := n - 1;
    if exists j :: 0 <= j < n - 1 && !Finishes(env.commit[env.enabled[j]]) { m := FirstCommitStop(env, n - 1); }
  }

  lemma {:induction false} FirstRollbackStop(env: Env, n: nat) returns (m: nat)
    requires env.Valid() && n <= |env.enabled| && exists j :: 0 <= j < n && !Returns(env.rollback[env.enabled[j]])
    ensures RollbackStopsAt(env, m)
  {
    m := n - 1;
    if exists j :: 0 <= j < n - 1 && !Returns(env.rollback[env.enabled[j]]) { m := FirstRollbackStop(env, n - 1); }
  }

  /** The process was ended by an exit: while reading, by the first commit that stops, or by the first such rollback. */
  ghost predicate Exits(env: Env)
    requires env.Valid()
  {
    || env.parse.ParseExits?
    || (env.parse.Parsed? && exists m: nat :: CommitStopsAt(env, m) && env.commit[env.enabled[m]].CommitExits?)
    || (RollbackDue(env) && exists m: nat :: RollbackStopsAt(env, m) && env.rollback[env.enabled[m]].RollbackExits?)
  }

  lemma CommitExit(env: Env, kernel: map<string, Rules>)
    requires env.Valid()
    ensures var r := CommittedFrom(env, kernel, false, 0).0;
            && (r.Ok? || r.FermError? || r.SystemExit?)
            && (r.Ok? <==> forall f :: f in env.enabled ==> Finishes(env.commit[f]))
            && (r.SystemExit? <==> exists m: nat :: CommitStopsAt(env, m) && env.commit[env.enabled[m]].CommitExits?)
  {
    CommitLeaves(env, kernel, false, 0);
    forall m: nat | CommitStopsAt(env, m)
      ensures CommittedFrom(env, kernel, false, 0).0
              == if env.commit[env.enabled[m]].CommitExits? then SystemExit else FermError
    {
      CommitStops(env, kernel, false, 0, m);
    }
    if exists j :: 0 <= j < |env.enabled| && !Finishes(env.commit[env.enabled[j]]) {
      var m := FirstCommitStop(env, |env.enabled|);
    }
    assert forall f :: f in env.enabled <==> exists j :: 0 <= j < |env.enabled| && env.enabled[j] == f;
  }

  lemma RollbackExit(env: Env, kernel: map<string, Rules>, notices: seq<Notice>)
    requires env.Valid()
    ensures var r := RolledBack(env, kernel, notices, 0).0;
            r.SystemExit? <==> exists m: nat :: RollbackStopsAt(env, m) && env.rollback[env.enabled[m]].RollbackExits?
  {
    RollbackLeaves(env, kernel, notices, 0);
    forall m: nat | RollbackStopsAt(env, m)
      ensures RolledBack(env, kernel, notices, 0).0
              == if env.rollback[env.enabled[m]].RollbackExits? then SystemExit else FermError
    {
      RollbackStops(env, kernel, notices, 0, m);
    }
    if exists j :: 0 <= j < |env.enabled| && !Returns(env.rollback[env.enabled[j]]) {
      var m := FirstRollbackStop(env, |env.enabled|);
    }
  }

  lemma StatusAsks(env: Env, kernel: map<string, Rules>)
    requires env.Valid() && forall f :: f in env.enabled ==> Finishes(env.commit[f])
    ensures CommittedFrom(env, kernel, false, 0).2 <==> exists f :: f in env.enabled && env.commit[f].CommitStatus?
  {
    CommitLeaves(env, kernel, false, 0);
    assert forall f :: f in env.enabled <==> exists j :: 0 <= j < |env.enabled| && env.enabled[j] == f;
  }

  /** Each way a run past the guards can end, and exactly when it does. */
  lemma ExitIs(env: Env, kernel: map<string, Rules>)
    requires env.Valid() && Allowed(env)
    ensures Run(env, kernel, Current, []).0
            == if Succeeds(env) then Ok
               else if RollsBack(env) then RolledBackExit
               else if env.parse.ParseRaises? then KernelUntouched
               else if Exits(env) then SystemExit
               else FermError
  {
    hide RolledBack, CommittedFrom, CommitStopsAt, RollbackStopsAt;
    RollsBackIff(env, kernel);
    SuccessAgrees(env, kernel);
    CommitExit(env, kernel);
    var (r, k, status) := CommittedFrom(env, kernel, false, 0);
    RollbackExit(env, k, []);
    RollbackLeaves(env, k, [], 0);
    if r == Ok { StatusAsks(env, kernel); NoStop(env); }
  }

  lemma NoStop(env: Env)
    requires env.Valid() && forall f :: f in env.enabled ==> Finishes(env.commit[f])
    ensures forall m: nat :: !CommitStopsAt(env, m)
  {
  }

  /** A run that a commit ends leaves the families in front of it on what they got and all others as they were. */
  lemma AbortLeaves(env: Env, kernel: map<string, Rules>, m: nat)
    requires env.Valid() && Allowed(env) && env.parse.Parsed? && CommitStopsAt(env, m)
    ensures var (r, k, w, n) := Run(env, kernel, Current, []);
            && r == (if env.commit[env.enabled[m]].CommitExits? then SystemExit else FermError)
            && w == Reverted && n == [LeftReverted]
            && (forall j :: 0 <= j < m ==>
                  env.enabled[j] in k && k[env.enabled[j]] == RulesAfter(env.commit[env.enabled[j]]))
            && forall j :: m < j < |env.enabled| && env.enabled[j] in kernel ==>
                 env.enabled[j] in k && k[env.enabled[j]] == kernel[env.enabled[j]]
  {
    hide CommittedFrom, RolledBack, RulesAfter;
    CommitStops(env, kernel, false, 0, m);
  }
}
