/**
 * Rolling a config back: revert the worktree, re-apply, and on a failure decide whether the worktree may be
 * put back. Tools, hooks and the admin are outcomes given from outside.
 */
module Reapply {
  /** Which rules a family runs: those from before the re-apply, those after it, or who knows. */
  datatype Rules = Before | After | Unknown

  datatype Worktree = Current | Reverted

  /**
   * What one family's commit does: a status is remembered, an error or an exit ends the loop at once. The
   * status of a command that is not guarded is not looked at.
   */
  datatype CommitOutcome = Committed | CommitIgnored | CommitStatus | RenderRaises | CommitRaises | CommitExits

  /**
   * What one family's rollback does. A missing restore tool is reported; the exit status of a rollback
   * command run through `execute` is not looked at; a restore may end well and yet not give the old rules.
   */
  datatype RollbackOutcome = Restored | NoTool | StatusIgnored | CopyWrong | RollbackRaises | RollbackExits

  /** Reading the config: an error leaves a mark that the kernel is untouched, an exit does not. */
  datatype ParseOutcome = Parsed | SetupRaises | ParseRaises | ParseExits

  datatype Backend = Iptables | Nft

  /** What is known of the families before the run: their backend, and what there is to restore them with. */
  datatype Means = Means(backend: Backend, restoreTools: set<string>, snapshots: set<string>)

  /** Rolled back by commands whose exit status is dropped: ebtables, and nft without a snapshot. */
  predicate ThroughExecute(m: Means, family: string) {
    if m.backend.Iptables? then family == "eb" else family !in m.snapshots
  }

  /** Committed with commands whose exit status is dropped: the atomic frames of ebtables. */
  predicate UnwatchedCommit(m: Means, family: string) {
    m.backend.Iptables? && family == "eb"
  }

  /**
   * Rolled back from a copy nobody vouches for: a dump whose tool may have failed unseen, or a listing that nft
   * reads on top of what the table holds.
   */
  predicate FromCopy(m: Means, family: string) {
    if m.backend.Iptables? then family == "eb" || family in m.restoreTools else family in m.snapshots
  }

  /** Not rolled back at all, and named: an iptables family without its restore tool. */
  predicate Toolless(m: Means, family: string) {
    m.backend.Iptables? && family != "eb" && family !in m.restoreTools
  }

  datatype Env = Env(
    means: Means, dirty: bool, confirm: bool, tty: bool, accepted: bool, checkout: bool,
    parse: ParseOutcome, enabled: seq<string>,
    commit: map<string, CommitOutcome>, rollback: map<string, RollbackOutcome>,
    interactive: bool, confirmed: bool, restoreWorks: bool)
  {
    ghost predicate Valid() {
      && (forall i, j :: 0 <= i < j < |enabled| ==> enabled[i] != enabled[j])
      && (forall f :: f in enabled ==> f in commit && f in rollback)
      && forall f :: f in enabled ==>
           && (commit[f].CommitIgnored? ==> UnwatchedCommit(means, f))
           && (rollback[f].NoTool? <==> Toolless(means, f))
           && (rollback[f].StatusIgnored? ==> ThroughExecute(means, f))
           && (rollback[f].CopyWrong? ==> FromCopy(means, f))
    }
  }

  datatype Notice =
    | Cancelled | RulesRolledBack | CannotRollBack(family: string)
    | WorktreeRestored | RestoreFailed | LeftReverted

  datatype Result = Ok | RolledBackExit | KernelUntouched | FermError | SystemExit

  class Machine {
    var kernel: map<string, Rules>
    var worktree: Worktree
    var notices: seq<Notice>

    constructor (env: Env)
      ensures worktree == Current && notices == []
      ensures kernel == map f | f in env.enabled :: Before
    {
      kernel := map f | f in env.enabled :: Before;
      worktree, notices := Current, [];
    }

    /** Rolls every family back; a family without its tool is named and left alone. */
    method RollbackAll(env: Env) returns (r: Result)
      requires env.Valid()
      modifies this`kernel, this`notices
      ensures (r, kernel, notices) == RolledBack(env, old(kernel), old(notices), 0)
    {
      for i := 0 to |env.enabled|
        invariant RolledBack(env, kernel, notices, i) == RolledBack(env, old(kernel), old(notices), 0)
      {
        var f := env.enabled[i];
        match env.rollback[f] {
          case Restored => kernel := kernel[f := Before];
          case NoTool => notices := notices + [CannotRollBack(f)];
          case StatusIgnored => kernel := kernel[f := Unknown];
          case CopyWrong => kernel := kernel[f := Unknown];
          case RollbackRaises =>
            kernel := kernel[f := Unknown];
            return FermError;
          case RollbackExits =>
            kernel := kernel[f := Unknown];
            return SystemExit;
        }
      }
      notices := notices + [RulesRolledBack];
      r := RolledBackExit;
    }

    /** Commits every enabled family, then asks, and rolls everything back on a status or a missing yes. */
    method ApplyConfig(env: Env) returns (r: Result)
      requires env.Valid()
      modifies this`kernel, this`notices
      ensures (r, kernel, notices) == Applied(env, old(kernel), old(notices))
    {
      if env.parse.SetupRaises? { return FermError; }
      if env.parse.ParseRaises? { return KernelUntouched; }
      if env.parse.ParseExits? { return SystemExit; }
      var status := false;
      for i := 0 to |env.enabled|
        invariant CommittedFrom(env, kernel, status, i) == CommittedFrom(env, old(kernel), false, 0)
        invariant notices == old(notices)
      {
        var f := env.enabled[i];
        match env.commit[f] {
          case Committed => kernel := kernel[f := After];
          case CommitIgnored => kernel := kernel[f := Unknown];
          case CommitStatus =>
            kernel := kernel[f := Unknown];
            status := true;
          case RenderRaises => return FermError;
          case CommitRaises =>
            kernel := kernel[f := Unknown];
            return FermError;
          case CommitExits =>
            kernel := kernel[f := Unknown];
            return SystemExit;
        }
      }
      if status || (env.interactive && !env.confirmed) {
        r := RollbackAll(env);
      } else {
        r := Ok;
      }
    }

    /** Puts the worktree back; a failure warns and leaves it reverted. */
    method RestoreWorktree(env: Env)
      modifies this`worktree, this`notices
      ensures if env.restoreWorks then worktree == Current && notices == old(notices) + [WorktreeRestored]
              else worktree == old(worktree) && notices == old(notices) + [RestoreFailed]
    {
      if env.restoreWorks {
        worktree := Current;
        notices := notices + [WorktreeRestored];
      } else {
        notices := notices + [RestoreFailed];
      }
    }

    /** The rollback subcommand, from the guards to the exit. */
    method RollbackTo(env: Env) returns (r: Result)
      requires env.Valid()
      modifies this
      ensures (r, kernel, worktree, notices) == Run(env, old(kernel), old(worktree), old(notices))
    {
      if env.dirty { return FermError; }
      if env.confirm {
        if !env.tty { return FermError; }
        if !env.accepted {
          notices := notices + [Cancelled];
          return Ok;
        }
      }
      if !env.checkout { return FermError; }
      worktree := Reverted;
      r := ApplyConfig(env);
      if r.RolledBackExit? || r.KernelUntouched? {
        RestoreWorktree(env);
      } else if r.FermError? || r.SystemExit? {
        notices := notices + [LeftReverted];
      }
    }
  }

  // --- as functions ------------------------------------------------------------------

  function RolledBack(env: Env, kernel: map<string, Rules>, notices: seq<Notice>, i: nat)
    : (Result, map<string, Rules>, seq<Notice>)
    requires env.Valid() && i <= |env.enabled|
    decreases |env.enabled| - i
  {
    if i == |env.enabled| then (RolledBackExit, kernel, notices + [RulesRolledBack])
    else
      var f := env.enabled[i];
      match env.rollback[f]
      case Restored => RolledBack(env, kernel[f := Before], notices, i + 1)
      case NoTool => RolledBack(env, kernel, notices + [CannotRollBack(f)], i + 1)
      case StatusIgnored => RolledBack(env, kernel[f := Unknown], notices, i + 1)
      case CopyWrong => RolledBack(env, kernel[f := Unknown], notices, i + 1)
      case RollbackRaises => (FermError, kernel[f := Unknown], notices)
      case RollbackExits => (SystemExit, kernel[f := Unknown], notices)
  }

  /** The commit loop: how it ends, the rules then, and whether any family reported a status. */
  function CommittedFrom(env: Env, kernel: map<string, Rules>, status: bool, i: nat): (Result, map<string, Rules>, bool)
    requires env.Valid() && i <= |env.enabled|
    decreases |env.enabled| - i
  {
    if i == |env.enabled| then (Ok, kernel, status)
    else
      var f := env.enabled[i];
      match env.commit[f]
      case Committed => CommittedFrom(env, kernel[f := After], status, i + 1)
      case CommitIgnored => CommittedFrom(env, kernel[f := Unknown], status, i + 1)
      case CommitStatus => CommittedFrom(env, kernel[f := Unknown], true, i + 1)
      case RenderRaises => (FermError, kernel, status)
      case CommitRaises => (FermError, kernel[f := Unknown], status)
      case CommitExits => (SystemExit, kernel[f := Unknown], status)
  }

  function Applied(env: Env, kernel: map<string, Rules>, notices: seq<Notice>): (Result, map<string, Rules>, seq<Notice>)
    requires env.Valid()
  {
    if env.parse.SetupRaises? then (FermError, kernel, notices)
    else if env.parse.ParseRaises? then (KernelUntouched, kernel, notices)
    else if env.parse.ParseExits? then (SystemExit, kernel, notices)
    else
      var (r, k, status) := CommittedFrom(env, kernel, false, 0);
      if r != Ok then (r, k, notices)
      else if status || (env.interactive && !env.confirmed) then RolledBack(env, k, notices, 0)
      else (Ok, k, notices)
  }

  function Run(env: Env, kernel: map<string, Rules>, worktree: Worktree, notices: seq<Notice>)
    : (Result, map<string, Rules>, Worktree, seq<Notice>)
    requires env.Valid()
  {
    if !Reverts(env) then
      if !env.dirty && env.confirm && env.tty then (if env.accepted then FermError else Ok, kernel, worktree,
                                                     if env.accepted then notices else notices + [Cancelled])
      else (FermError, kernel, worktree, notices)
    else
      var (r, k, n) := Applied(env, kernel, notices);
      match r
      case Ok => (r, k, Reverted, n)
      case RolledBackExit => Back(env, r, k, n)
      case KernelUntouched => Back(env, r, k, n)
      case FermError => (r, k, Reverted, n + [LeftReverted])
      case SystemExit => (r, k, Reverted, n + [LeftReverted])
  }

  function Back(env: Env, r: Result, k: map<string, Rules>, n: seq<Notice>)
    : (Result, map<string, Rules>, Worktree, seq<Notice>)
  {
    if env.restoreWorks then (r, k, Current, n + [WorktreeRestored]) else (r, k, Reverted, n + [RestoreFailed])
  }

  /** The guards pass and the worktree is reverted. */
  predicate Reverts(env: Env) {
    !env.dirty && (env.confirm ==> env.tty && env.accepted) && env.checkout
  }

  /** The guards of the subcommand as an admin sees them. */
  predicate Allowed(env: Env) {
    !env.dirty && env.checkout && (!env.confirm || (env.tty && env.accepted))
  }

  /**
   * Behind a closed guard nothing is touched, and only an admin's no is a success; behind open ones the worktree is
   * reverted, and at the end it still is or a notice says that it was, or should have been, put back.
   */
  lemma GuardsProtect(env: Env, kernel: map<string, Rules>, worktree: Worktree, notices: seq<Notice>)
    requires env.Valid()
    ensures var (r, k, w, n) := Run(env, kernel, worktree, notices);
            if Allowed(env) then
              && (w == Reverted || (w == Current && n != [] && n[|n| - 1] == WorktreeRestored))
              && (w == Reverted && r in {RolledBackExit, KernelUntouched} ==> n != [] && n[|n| - 1] == RestoreFailed)
            else
              && k == kernel && w == worktree
              && (if !env.dirty && env.confirm && env.tty && !env.accepted then r == Ok && n == notices + [Cancelled]
                  else r == FermError && n == notices)
  {
    hide Applied;
  }

  // --- over every run -------------------------------------------------------------------

  /** Every enabled family runs these rules. */
  predicate AllOn(env: Env, kernel: map<string, Rules>, rules: Rules) {
    forall f :: f in env.enabled ==> f in kernel && kernel[f] == rules
  }

  predicate Finishes(c: CommitOutcome) {
    c.Committed? || c.CommitIgnored? || c.CommitStatus?
  }

  /** The rules a family runs once its commit ended without an error. */
  function RulesAfter(c: CommitOutcome): Rules {
    if c.Committed? then After else Unknown
  }

  /** The rollback ends without a word, and the family is not known to be on its old rules. */
  predicate Astray(c: RollbackOutcome) {
    c.StatusIgnored? || c.CopyWrong?
  }

  predicate Returns(c: RollbackOutcome) {
    !c.RollbackRaises? && !c.RollbackExits?
  }

  /** The commit loop ends normally exactly when every commit does; then each family is on its outcome's rules. */
  lemma {:induction false} CommitLeaves(env: Env, kernel: map<string, Rules>, status: bool, i: nat)
    requires env.Valid() && i <= |env.enabled|
    ensures var (r, k, s) := CommittedFrom(env, kernel, status, i);
            && (r.Ok? || r.FermError? || r.SystemExit?)
            && (r.Ok? <==> forall j :: i <= j < |env.enabled| ==> Finishes(env.commit[env.enabled[j]]))
            && (r.Ok? ==>
                  (s <==> status || exists j :: i <= j < |env.enabled| && env.commit[env.enabled[j]].CommitStatus?))
            && (r.Ok? ==> forall j :: i <= j < |env.enabled| ==>
                  env.enabled[j] in k && k[env.enabled[j]] == RulesAfter(env.commit[env.enabled[j]]))
            && forall j :: 0 <= j < i && env.enabled[j] in kernel ==>
                 env.enabled[j] in k && k[env.enabled[j]] == kernel[env.enabled[j]]
    decreases |env.enabled| - i
  {
    if i < |env.enabled| {
      var f := env.enabled[i];
      match env.commit[f]
      case Committed => CommitLeaves(env, kernel[f := After], status, i + 1);
      case CommitIgnored => CommitLeaves(env, kernel[f := Unknown], status, i + 1);
      case CommitStatus => CommitLeaves(env, kernel[f := Unknown], true, i + 1);
      case _ => assert !Finishes(env.commit[env.enabled[i]]);
    }
  }

  /** What one family shows after a completed rollback. */
  predicate ShowsRollback(env: Env, k: map<string, Rules>, n: seq<Notice>, f: string)
    requires f in env.rollback
  {
    && (env.rollback[f].Restored? ==> f in k && k[f] == Before)
    && (env.rollback[f].NoTool? ==> CannotRollBack(f) in n)
    && (Astray(env.rollback[f]) ==> f in k && k[f] == Unknown)
  }

  predicate OnlyRollbackNotices(env: Env, notices: seq<Notice>, n: seq<Notice>) {
    forall x :: x in n ==> x in notices || x == RulesRolledBack
                           || (x.CannotRollBack? && x.family in env.enabled && x.family in env.rollback
                               && env.rollback[x.family].NoTool?)
  }

  lemma {:induction false} RollbackLeaves(env: Env, kernel: map<string, Rules>, notices: seq<Notice>, i: nat)
    requires env.Valid() && i <= |env.enabled|
    ensures var (r, k, n) := RolledBack(env, kernel, notices, i);
            && (r.RolledBackExit? || r.FermError? || r.SystemExit?)
            && notices <= n && OnlyRollbackNotices(env, notices, n)
            && (r.RolledBackExit? <==> forall j :: i <= j < |env.enabled| ==> Returns(env.rollback[env.enabled[j]]))
            && (r.RolledBackExit? ==> forall j :: i <= j < |env.enabled| ==> ShowsRollback(env, k, n, env.enabled[j]))
            && forall j :: 0 <= j < i && env.enabled[j] in kernel ==>
                 env.enabled[j] in k && k[env.enabled[j]] == kernel[env.enabled[j]]
    decreases |env.enabled| - i
  {
    if i < |env.enabled| {
      var f := env.enabled[i];
      match env.rollback[f]
      case Restored => RollbackLeaves(env, kernel[f := Before], notices, i + 1);
      case NoTool =>
        RollbackLeaves(env, kernel, notices + [CannotRollBack(f)], i + 1);
        assert RolledBack(env, kernel, notices, i).2[|notices|] == CannotRollBack(f);
      case StatusIgnored => RollbackLeaves(env, kernel[f := Unknown], notices, i + 1);
      case CopyWrong => RollbackLeaves(env, kernel[f := Unknown], notices, i + 1);
      case _ => assert !Returns(env.rollback[env.enabled[i]]);
    }
  }

  /** The run gets as far as a completed rollback. */
  predicate RollsBack(env: Env)
    requires env.Valid()
  {
    && env.parse.Parsed? && (forall f :: f in env.enabled ==> Finishes(env.commit[f]) && Returns(env.rollback[f]))
    && ((env.interactive && !env.confirmed) || exists f :: f in env.enabled && env.commit[f].CommitStatus?)
  }

  lemma {:induction false} RollsBackIff(env: Env, kernel: map<string, Rules>)
    requires env.Valid() && Reverts(env)
    ensures Run(env, kernel, Current, []).0 == RolledBackExit <==> RollsBack(env)
  {
    hide RolledBack, CommittedFrom, ShowsRollback, OnlyRollbackNotices;
    CommitLeaves(env, kernel, false, 0);
    var (r, k, s) := CommittedFrom(env, kernel, false, 0);
    RollbackLeaves(env, k, [], 0);
    assert forall f :: f in env.enabled <==> exists j :: 0 <= j < |env.enabled| && env.enabled[j] == f;
  }

  /** The run commits every family and nothing asks for a rollback. */
  predicate Succeeds(env: Env)
    requires env.Valid()
  {
    && env.parse.Parsed? && (forall f :: f in env.enabled ==> Finishes(env.commit[f]) && !env.commit[f].CommitStatus?)
    && (env.interactive ==> env.confirmed)
  }

  /**
   * Success leaves the reverted config in the worktree, and every enabled family runs its rules exactly when no
   * commit had a failing command whose status is not looked at.
   */
  lemma {:induction false} SuccessAgrees(env: Env, kernel: map<string, Rules>)
    requires env.Valid() && Reverts(env)
    ensures Run(env, kernel, Current, []).0 == Ok <==> Succeeds(env)
    ensures Succeeds(env) ==>
              var (_, k, w, n) := Run(env, kernel, Current, []);
              && w == Reverted && n == []
              && (AllOn(env, k, After) <==> forall f :: f in env.enabled ==> !env.commit[f].CommitIgnored?)
  {
    hide RolledBack, CommittedFrom;
    CommitLeaves(env, kernel, false, 0);
    var (_, k, _) := CommittedFrom(env, kernel, false, 0);
    RollbackLeaves(env, k, [], 0);
    assert forall f :: f in env.enabled <==> exists j :: 0 <= j < |env.enabled| && env.enabled[j] == f;
  }

  /**
   * A marked exit: every family that could be restored is, the others are named unless their status was
   * ignored or their copy was wrong, and the worktree is back or its owner was warned.
   */
  lemma {:induction false} MarkedExitRestores(env: Env, kernel: map<string, Rules>)
    requires env.Valid() && Reverts(env) && AllOn(env, kernel, Before)
    requires Run(env, kernel, Current, []).0 in {RolledBackExit, KernelUntouched}
    ensures var (r, k, w, n) := Run(env, kernel, Current, []);
            && (w == Current || RestoreFailed in n)
            && (r == KernelUntouched ==> k == kernel)
            && (r == RolledBackExit ==> forall f :: f in env.enabled ==>
                  (env.rollback[f].Restored? && f in k && k[f] == Before)
                  || (env.rollback[f].NoTool? && CannotRollBack(f) in n) || Astray(env.rollback[f]))
  {
    CommitLeaves(env, kernel, false, 0);
    var (_, k, _) := CommittedFrom(env, kernel, false, 0);
    RollbackLeaves(env, k, [], 0);
    var (r, k', w, n) := Run(env, kernel, Current, []);
    assert n[|n| - 1] in n;
    if r == RolledBackExit {
      var n' := RolledBack(env, k, [], 0).2;
      assert n' <= n;
      forall f | f in env.enabled ensures ShowsRollback(env, k', n, f) && Returns(env.rollback[f]) {
        var j :| 0 <= j < |env.enabled| && env.enabled[j] == f;
        assert ShowsRollback(env, k', n', env.enabled[j]);
      }
    }
  }

  /** Any other failure past the revert leaves the worktree reverted and says so. */
  lemma {:induction false} OtherFailureTold(env: Env, kernel: map<string, Rules>)
    requires env.Valid() && Reverts(env) && Run(env, kernel, Current, []).0 in {FermError, SystemExit}
    ensures var (_, _, w, n) := Run(env, kernel, Current, []); w == Reverted && LeftReverted in n
  {
    var n := Run(env, kernel, Current, []).3;
    assert n[|n| - 1] == LeftReverted;
  }

  /** Kernel and worktree agree on one revision. */
  predicate Agree(env: Env, kernel: map<string, Rules>, worktree: Worktree) {
    AllOn(env, kernel, if worktree == Reverted then After else Before)
  }

  /** The operator was told that something is left behind. */
  predicate Told(notices: seq<Notice>) {
    exists x :: x in notices && (x.LeftReverted? || x.RestoreFailed? || x.CannotRollBack?)
  }

  /** A commit whose failing status nobody reads, in a run that ends well. */
  predicate LostCommit(env: Env)
    requires env.Valid()
  {
    Succeeds(env) && exists f :: f in env.enabled && env.commit[f].CommitIgnored?
  }

  /** A rollback that goes astray without a word, in a run that says nothing else. */
  predicate LostRollback(env: Env)
    requires env.Valid()
  {
    && RollsBack(env) && env.restoreWorks
    && (forall f :: f in env.enabled ==> !env.rollback[f].NoTool?)
    && exists f :: f in env.enabled && Astray(env.rollback[f])
  }

  lemma {:induction false} RolledBackDivergence(env: Env, kernel: map<string, Rules>)
    requires env.Valid() && Reverts(env) && AllOn(env, kernel, Before)
    requires Run(env, kernel, Current, []).0 == RolledBackExit
    ensures var (_, k, w, n) := Run(env, kernel, Current, []);
            !Agree(env, k, w) && !Told(n) <==> LostRollback(env)
  {
    var (_, k, w, n) := Run(env, kernel, Current, []);
    var k0 := CommittedFrom(env, kernel, false, 0).1;
    var n0 := RolledBack(env, k0, [], 0).2;
    CommitLeaves(env, kernel, false, 0);
    RollbackLeaves(env, k0, [], 0);
    RollsBackIff(env, kernel);
    MarkedExitRestores(env, kernel);
    assert n == n0 + [if env.restoreWorks then WorktreeRestored else RestoreFailed];
    assert n[|n| - 1] in n;
    forall f | f in env.enabled ensures ShowsRollback(env, k, n0, f) {
      var j :| 0 <= j < |env.enabled| && env.enabled[j] == f;
    }
    if env.restoreWorks && forall f :: f in env.enabled ==> !env.rollback[f].NoTool? {
      forall x | x in n ensures !x.LeftReverted? && !x.RestoreFailed? && !x.CannotRollBack? {
        assert x in n0 || x == WorktreeRestored;
      }
    }
    forall f | f in env.enabled && env.rollback[f].NoTool? ensures Told(n) {
      assert CannotRollBack(f) in n0;
    }
  }

  /**
   * No silent divergence: past a successful revert, kernel and worktree disagree without a word exactly when a
   * successful run had a commit fail unread, or a completed rollback went astray unread.
   */
  lemma {:induction false} NoSilentDivergence(env: Env, kernel: map<string, Rules>)
    requires env.Valid() && Reverts(env) && AllOn(env, kernel, Before)
    ensures var (_, k, w, n) := Run(env, kernel, Current, []);
            !Agree(env, k, w) && !Told(n) <==> LostCommit(env) || LostRollback(env)
  {
    var (r, k, w, n) := Run(env, kernel, Current, []);
    RollsBackIff(env, kernel);
    SuccessAgrees(env, kernel);
    match r
    case Ok =>
    case RolledBackExit => RolledBackDivergence(env, kernel);
    case KernelUntouched => MarkedExitRestores(env, kernel);
    case _ => OtherFailureTold(env, kernel);
  }

  // --- what can be said before the run -----------------------------------------------

  /** The run ends with kernel and worktree apart, and nobody was told. */
  ghost predicate Silent(env: Env)
    requires env.Valid()
  {
    var (_, k, w, n) := Run(env, map f | f in env.enabled :: Before, Current, []);
    !Agree(env, k, w) && !Told(n)
  }

  /** A run over these families that gets past the revert. */
  ghost predicate RunOver(env: Env, means: Means, enabled: seq<string>) {
    env.means == means && env.enabled == enabled && env.Valid() && Reverts(env)
  }

  function NoFailure(means: Means, f: string): RollbackOutcome {
    if Toolless(means, f) then NoTool else Restored
  }

  /** Every unwatched commit fails, the others go through, and the admin is not asked. */
  function WorstCommit(means: Means, enabled: seq<string>): Env {
    Env(means, false, false, true, true, true, Parsed, enabled,
        map f | f in enabled :: if UnwatchedCommit(means, f) then CommitIgnored else Committed,
        map f | f in enabled :: NoFailure(means, f), false, false, true)
  }

  /** Every commit reports a status, and then no rollback gives the old rules. */
  function WorstRollback(means: Means, enabled: seq<string>): Env {
    Env(means, false, false, true, true, true, Parsed, enabled,
        map f | f in enabled :: CommitStatus,
        map f | f in enabled :: if FromCopy(means, f) then CopyWrong
                                else if ThroughExecute(means, f) then StatusIgnored else NoFailure(means, f),
        false, false, true)
  }

  /**
   * Some outcome of the tools lets kernel and worktree disagree without a word if and only if some family is
   * enabled and either it is ebtables or no enabled family lacks its restore tool: a missing tool is the one thing
   * that always speaks up, and that only in a rollback.
   */
  lemma {:induction false} SilentDivergencePossible(means: Means, enabled: seq<string>)
    requires forall i, j :: 0 <= i < j < |enabled| ==> enabled[i] != enabled[j]
    ensures (exists env: Env :: RunOver(env, means, enabled) && Silent(env))
            <==> (means.backend.Iptables? && "eb" in enabled)
                 || (enabled != [] && (means.backend.Iptables? ==> forall f :: f in enabled ==> f in means.restoreTools))
  {
    EbtablesOrTools(means, enabled);
    hide Run, LostCommit, LostRollback, Agree, Told;
    forall env: Env | RunOver(env, means, enabled) && Silent(env)
      ensures (exists f :: f in enabled && UnwatchedCommit(means, f))
              || (enabled != [] && forall f :: f in enabled ==> !Toolless(means, f))
    {
      NoSilentDivergence(env, map f | f in env.enabled :: Before);
      LostMeans(env);
    }
    if exists f :: f in enabled && UnwatchedCommit(means, f) {
      var env := WorstCommit(means, enabled);
      WorstCommitLost(means, enabled);
      NoSilentDivergence(env, map f | f in env.enabled :: Before);
      assert RunOver(env, means, enabled) && Silent(env);
    } else if enabled != [] && forall f :: f in enabled ==> !Toolless(means, f) {
      var env := WorstRollback(means, enabled);
      WorstRollbackLost(means, enabled);
      NoSilentDivergence(env, map f | f in env.enabled :: Before);
      assert RunOver(env, means, enabled) && Silent(env);
    }
  }

  /** An outcome lets a whole rollback go astray in silence if and only if every enabled family is restored somehow. */
  lemma {:induction false} SilentRollbackPossible(means: Means, enabled: seq<string>)
    requires forall i, j :: 0 <= i < j < |enabled| ==> enabled[i] != enabled[j]
    ensures (exists env: Env :: RunOver(env, means, enabled) && LostRollback(env))
            <==> enabled != []
                 && (means.backend.Iptables? ==> forall f :: f in enabled ==> f == "eb" || f in means.restoreTools)
  {
    hide LostRollback;
    forall env: Env | RunOver(env, means, enabled) && LostRollback(env)
      ensures enabled != []
      ensures means.backend.Iptables? ==> forall f :: f in enabled ==> f == "eb" || f in means.restoreTools
    {
      LostRollbackMeans(env);
    }
    if enabled != [] && (means.backend.Iptables? ==> forall f :: f in enabled ==> f == "eb" || f in means.restoreTools) {
      WorstRollbackLost(means, enabled);
      assert RunOver(WorstRollback(means, enabled), means, enabled);
    }
  }

  lemma LostRollbackMeans(env: Env)
    requires env.Valid() && LostRollback(env)
    ensures env.enabled != []
    ensures env.means.backend.Iptables? ==> forall f :: f in env.enabled ==> f == "eb" || f in env.means.restoreTools
  {
  }

  lemma EbtablesOrTools(means: Means, enabled: seq<string>)
    ensures (exists f :: f in enabled && UnwatchedCommit(means, f)) <==> means.backend.Iptables? && "eb" in enabled
    ensures "eb" !in enabled ==>
              ((forall f :: f in enabled ==> !Toolless(means, f))
               <==> (means.backend.Iptables? ==> forall f :: f in enabled ==> f in means.restoreTools))
    ensures means.backend.Nft? ==> forall f :: !Toolless(means, f)
  {
  }

  lemma {:induction false} LostMeans(env: Env)
    requires env.Valid() && (LostCommit(env) || LostRollback(env))
    ensures (exists f :: f in env.enabled && UnwatchedCommit(env.means, f))
            || (env.enabled != [] && forall f :: f in env.enabled ==> !Toolless(env.means, f))
  {
    if LostCommit(env) {
      var f :| f in env.enabled && env.commit[f].CommitIgnored?;
      assert UnwatchedCommit(env.means, f);
    }
  }

  lemma {:induction false} WorstCommitLost(means: Means, enabled: seq<string>)
    requires forall i, j :: 0 <= i < j < |enabled| ==> enabled[i] != enabled[j]
    requires exists f :: f in enabled && UnwatchedCommit(means, f)
    ensures var env := WorstCommit(means, enabled); env.Valid() && Reverts(env) && LostCommit(env)
  {
    var env := WorstCommit(means, enabled);
    var f :| f in enabled && UnwatchedCommit(means, f);
    assert env.commit[f].CommitIgnored?;
  }

  lemma {:induction false} WorstRollbackLost(means: Means, enabled: seq<string>)
    requires forall i, j :: 0 <= i < j < |enabled| ==> enabled[i] != enabled[j]
    requires enabled != [] && forall f :: f in enabled ==> !Toolless(means, f)
    ensures var env := WorstRollback(means, enabled); env.Valid() && Reverts(env) && LostRollback(env)
  {
    var env := WorstRollback(means, enabled);
    assert enabled[0] in enabled;
    assert env.commit[enabled[0]].CommitStatus? && Astray(env.rollback[enabled[0]]);
  }

  // --- inputs ------------------------------------------------------------------------

  /**
   * ebtables' atomic commit fails: the run ends well, nothing was rolled back and nothing is said, although arp,
   * which has no restore tool, is enabled as well.
   */
  lemma {:induction false} EbtablesCommitLost()
    ensures var means, enabled := Means(Iptables, {"ip", "ip6"}, {}), ["arp", "eb"];
            var env := WorstCommit(means, enabled);
            && RunOver(env, means, enabled) && Silent(env) && Toolless(means, "arp")
            && Run(env, map f | f in enabled :: Before, Current, []).0 == Ok && !RollsBack(env)
  {
    var means, enabled := Means(Iptables, {"ip", "ip6"}, {}), ["arp", "eb"];
    var env, kernel := WorstCommit(means, enabled), map f | f in enabled :: Before;
    assert enabled[1] in enabled && UnwatchedCommit(means, "eb");
    WorstCommitLost(means, enabled);
    hide Run;
    NoSilentDivergence(env, kernel);
    SuccessAgrees(env, kernel);
    RollsBackIff(env, kernel);
  }

  /** A truncated dump is restored without an error, and the worktree is put back beside rules that are not the old ones. */
  lemma {:induction false} TruncatedDumpRestored()
    ensures var means, enabled := Means(Iptables, {"ip", "ip6"}, {}), ["ip"];
            var env := WorstRollback(means, enabled);
            && RunOver(env, means, enabled) && Silent(env) && env.rollback["ip"] == CopyWrong
            && Run(env, map f | f in enabled :: Before, Current, []).0 == RolledBackExit
  {
    var means, enabled := Means(Iptables, {"ip", "ip6"}, {}), ["ip"];
    var env, kernel := WorstRollback(means, enabled), map f | f in enabled :: Before;
    WorstRollbackLost(means, enabled);
    hide Run;
    NoSilentDivergence(env, kernel);
    RollsBackIff(env, kernel);
  }
}
