/**
 When the Windows agent paints its tray icon, retries, re-adds it and backs off. The shell's
 answers are inputs; the calls made to it are outputs.
 */
module TrayDelivery {

  import opened Wrappers

  const U32_MAX: nat := 0xFFFF_FFFF
  const FIRST_RECOVERY_FAILURES: nat := 2
  const RECOVERY_BACKOFF_FIRST: nat := 30
  const RECOVERY_BACKOFF_MAX: nat := 600

  datatype ShellCall = Modify | Add | Delete

  datatype IconDisposition = Delivered | ReAdded | Unused

  datatype Diagnostic = Silent | ModifyFailed | ReAddedIcon | ReAddFailed

  /** What one attempt came to, and the shell calls it made, in order. */
  datatype Attempt = Attempt(icon: IconDisposition, diagnostic: Diagnostic, calls: seq<ShellCall>)

  /** What the shell would answer: to the modify, the first add, the delete, and the second add. */
  datatype Shell = Shell(modified: bool, added: bool, deleted: bool, addedAgain: bool)

  datatype Delivery<+C> = Delivery(
    rendered: Option<C>, pending: Option<C>, failures: nat, recoveryAfter: nat, readded: bool, failureLogged: bool)

  function Fresh<C>(): Delivery<C> {
    Delivery(None, None, 0, FIRST_RECOVERY_FAILURES, false, false)
  }

  predicate NeedsUpdate<C(==)>(d: Delivery<C>, target: C) {
    d.pending.Some? || d.rendered != Some(target)
  }

  function SaturatingIncrement(n: nat): nat {
    if n >= U32_MAX then U32_MAX else n + 1
  }

  function Backoff(after: nat): nat {
    if after == FIRST_RECOVERY_FAILURES then RECOVERY_BACKOFF_FIRST
    else if 2 * after > RECOVERY_BACKOFF_MAX then RECOVERY_BACKOFF_MAX else 2 * after
  }

  /** The failure is counted: on a new target the streak starts over. */
  function Counted<C(==)>(d: Delivery<C>, target: C): Delivery<C> {
    var d' :=
      if d.pending == Some(target) then d
      else Delivery(d.rendered, Some(target), 0, FIRST_RECOVERY_FAILURES, false, false);
    d'.(failures := SaturatingIncrement(d'.failures))
  }

  /** One attempt to show `target`: the new state and what it came to. */
  function Attempted<C(==)>(d: Delivery<C>, target: C, shell: Shell): (Delivery<C>, Attempt) {
    if shell.modified then
      (Fresh<C>().(rendered := Some(target)), Attempt(Delivered, Silent, [Modify]))
    else
      var d := Counted(d, target);
      if !d.readded && d.failures >= d.recoveryAfter then
        var calls := if shell.added then [Modify, Add] else [Modify, Add, Delete, Add];
        if shell.added || shell.addedAgain then
          (d.(failures := 0, readded := true), Attempt(ReAdded, ReAddedIcon, calls))
        else
          (d.(failures := 0, recoveryAfter := Backoff(d.recoveryAfter)), Attempt(Unused, ReAddFailed, calls))
      else
        (d.(failureLogged := true), Attempt(Unused, if d.failureLogged then Silent else ModifyFailed, [Modify]))
  }

  /** The shell took the icon in one of these calls: the modify, the first add or the second. */
  predicate Took(calls: seq<ShellCall>, shell: Shell) {
    || (|calls| > 0 && calls[0] == Modify && shell.modified)
    || (|calls| > 1 && calls[1] == Add && shell.added)
    || (|calls| > 3 && calls[3] == Add && shell.addedAgain)
  }

  /**
   What an attempt reports is what the shell answered: delivered for an accepted modify, re-added for
   an accepted add, and otherwise unused. An add follows only a refused modify, and a delete and a
   second add only a refused first one. The log hears of every add and of the first failure of a
   streak, and of nothing else.
   */
  lemma AttemptReports<C>(d: Delivery<C>, target: C, shell: Shell)
    ensures var a := Attempted(d, target, shell).1;
            && a.calls in {[Modify], [Modify, Add], [Modify, Add, Delete, Add]}
            && (shell.modified ==> a.calls == [Modify])
            && (a.calls == [Modify, Add] ==> shell.added) && (|a.calls| == 4 ==> !shell.added)
            && (a.icon == Delivered <==> shell.modified)
            && (a.icon == ReAdded <==> !shell.modified && Took(a.calls, shell))
            && (a.icon == Unused <==> !Took(a.calls, shell))
            && (a.diagnostic == ReAddedIcon <==> a.icon == ReAdded)
            && (a.diagnostic == ReAddFailed <==> |a.calls| > 1 && a.icon == Unused)
            && (a.diagnostic == ModifyFailed <==>
                  !shell.modified && a.calls == [Modify] && !(d.pending == Some(target) && d.failureLogged))
  {
  }

  class DeliveryState<C(==)> {
    var rendered: Option<C>
    var pendingTarget: Option<C>
    var failuresSinceRecovery: nat
    var recoveryAfter: nat
    var readded: bool
    var failureLogged: bool

    function Value(): Delivery<C>
      reads this
    {
      Delivery(rendered, pendingTarget, failuresSinceRecovery, recoveryAfter, readded, failureLogged)
    }

    constructor ()
      ensures Value() == Fresh()
    {
      rendered, pendingTarget := None, None;
      failuresSinceRecovery, recoveryAfter := 0, FIRST_RECOVERY_FAILURES;
      readded, failureLogged := false, false;
    }

    method Invalidate()
      modifies this
      ensures Value() == Fresh()
    {
      rendered, pendingTarget := None, None;
      failuresSinceRecovery, recoveryAfter := 0, FIRST_RECOVERY_FAILURES;
      readded, failureLogged := false, false;
    }

    method TryShow(target: C, shell: Shell) returns (r: Attempt)
      modifies this
      ensures (Value(), r) == Attempted(old(Value()), target, shell)
    {
      var calls := [Modify];
      if shell.modified {
        rendered := Some(target);
        pendingTarget := None;
        failuresSinceRecovery := 0;
        recoveryAfter := FIRST_RECOVERY_FAILURES;
        readded := false;
        failureLogged := false;
        return Attempt(Delivered, Silent, calls);
      }
      if pendingTarget != Some(target) {
        pendingTarget := Some(target);
        failuresSinceRecovery := 0;
        recoveryAfter := FIRST_RECOVERY_FAILURES;
        readded := false;
        failureLogged := false;
      }
      failuresSinceRecovery := SaturatingIncrement(failuresSinceRecovery);
      if !readded && failuresSinceRecovery >= recoveryAfter {
        calls := calls + [Add];
        assert calls == [Modify, Add];
        var added := shell.added;
        if !added {
          calls := calls + [Delete, Add];
          assert calls == [Modify, Add, Delete, Add];
          added := shell.addedAgain;
        }
        failuresSinceRecovery := 0;
        if added {
          readded := true;
          return Attempt(ReAdded, ReAddedIcon, calls);
        }
        recoveryAfter := Backoff(recoveryAfter);
        return Attempt(Unused, ReAddFailed, calls);
      }
      var diagnostic := if failureLogged then Silent else ModifyFailed;
      failureLogged := true;
      return Attempt(Unused, diagnostic, calls);
    }
  }

  // ---- Every reachable state ------------------------------------------------------------

  datatype Event<+C> = Invalidated | Tried(target: C, shell: Shell)

  function Step<C(==)>(d: Delivery<C>, e: Event<C>): Delivery<C> {
    match e
    case Invalidated => Fresh()
    case Tried(target, shell) => Attempted(d, target, shell).0
  }

  function Run<C(==)>(es: seq<Event<C>>): Delivery<C> {
    if es == [] then Fresh() else Step(Run(es[..|es| - 1]), es[|es| - 1])
  }

  /**
   Nothing pending means nothing counted; and until the icon has been re-added, fewer failures are
   counted than the next recovery waits for.
   */
  ghost predicate Inv<C>(d: Delivery<C>) {
    && (d.pending.None? ==>
          d.failures == 0 && d.recoveryAfter == FIRST_RECOVERY_FAILURES && !d.readded && !d.failureLogged)
    && d.recoveryAfter in {2, 30, 60, 120, 240, 480, 600}
    && d.failures <= U32_MAX
    && (!d.readded ==> d.failures < d.recoveryAfter)
  }

  lemma {:induction false} ReachableStates<C>(es: seq<Event<C>>)
    ensures Inv(Run(es))
  {
    hide Step, Inv;
    if es == [] {
      FreshIsInv<C>();
    } else {
      ReachableStates(es[..|es| - 1]);
      StepKeepsInv(Run(es[..|es| - 1]), es[|es| - 1]);
    }
  }

  lemma FreshIsInv<C>()
    ensures Inv<C>(Fresh())
  {
  }

  lemma StepKeepsInv<C>(d: Delivery<C>, e: Event<C>)
    requires Inv(d)
    ensures Inv(Step(d, e))
  {
  }

  /**
   The icon is up to date for `c` exactly when the last thing that happened was a modify for `c` that
   the shell accepted; so until then every look at it asks for another attempt.
   */
  lemma UpToDateMeansAccepted<C>(es: seq<Event<C>>, c: C)
    ensures !NeedsUpdate(Run(es), c) <==>
              es != [] && es[|es| - 1].Tried? && es[|es| - 1].target == c && es[|es| - 1].shell.modified
  {
    if es != [] {
      ReachableStates(es[..|es| - 1]);
    }
  }

  // ---- A streak of failures on one target ---------------------------------------------------

  /** The attempts of a streak, made one after the other. */
  function Streak<C(==)>(d: Delivery<C>, target: C, shells: seq<Shell>): (Delivery<C>, seq<Attempt>) {
    if shells == [] then (d, [])
    else
      var (d', tries) := Streak(d, target, shells[..|shells| - 1]);
      var (d'', a) := Attempted(d', target, shells[|shells| - 1]);
      (d'', tries + [a])
  }

  ghost predicate AllFail(shells: seq<Shell>) {
    forall i :: 0 <= i < |shells| ==> !shells[i].modified && !shells[i].added && !shells[i].addedAgain
  }

  /** The attempts at which a streak in which everything fails tries to put the icon up again. */
  predicate RecoveryAt(n: nat) {
    n in {2, 32, 92, 212, 452} || (n >= 932 && (n - 932) % 600 == 0)
  }

  /** The last of those at or before attempt `n`; 0 before the first. */
  function LastRecovery(n: nat): nat {
    if n < 2 then 0 else if n < 32 then 2 else if n < 92 then 32 else if n < 212 then 92
    else if n < 452 then 212 else if n < 932 then 452 else n - (n - 932) % 600
  }

  /** How many failures the next recovery waits for. */
  function Gap(n: nat): nat {
    if n < 2 then 2 else if n < 32 then 30 else if n < 92 then 60 else if n < 212 then 120
    else if n < 452 then 240 else if n < 932 then 480 else 600
  }

  function Recoveries(n: nat): nat {
    if n == 0 then 0 else Recoveries(n - 1) + if RecoveryAt(n) then 1 else 0
  }

  function Logged(tries: seq<Attempt>): nat {
    if tries == [] then 0
    else Logged(tries[..|tries| - 1]) + if tries[|tries| - 1].diagnostic == Silent then 0 else 1
  }

  lemma RecoveryStep(n: nat)
    requires n > 0
    ensures RecoveryAt(n) <==> n - LastRecovery(n - 1) >= Gap(n - 1)
    ensures RecoveryAt(n) ==> LastRecovery(n) == n && Gap(n) == Backoff(Gap(n - 1))
    ensures !RecoveryAt(n) ==> LastRecovery(n) == LastRecovery(n - 1) && Gap(n) == Gap(n - 1)
    ensures LastRecovery(n) <= n && n - LastRecovery(n) < Gap(n) <= 600
  {
    if n > 932 {
      var r := (n - 1 - 932) % 600;
      assert (n - 932) % 600 == if r == 599 then 0 else r + 1;
    }
  }

  /** Where a streak in which everything failed stands after `n` attempts. */
  function FailedState<C>(d: Delivery<C>, target: C, n: nat): Delivery<C>
    requires LastRecovery(n) <= n
  {
    if n == 0 then d else Delivery(d.rendered, Some(target), n - LastRecovery(n), Gap(n), false, true)
  }

  lemma FailedAttempt<C>(d: Delivery<C>, target: C, n: nat, shell: Shell)
    requires d.pending != Some(target) && !shell.modified && !shell.added && !shell.addedAgain
    ensures LastRecovery(n) <= n && LastRecovery(n + 1) <= n + 1
    ensures var (next, a) := Attempted(FailedState(d, target, n), target, shell);
            && next == FailedState(d, target, n + 1)
            && a.icon == Unused
            && (Add in a.calls <==> RecoveryAt(n + 1))
            && (a.diagnostic != Silent <==> n == 0 || RecoveryAt(n + 1))
  {
    RecoveryStep(n + 1);
    if n > 0 {
      RecoveryStep(n);
    }
  }

  /** Nothing was delivered, and the icon was put up again at exactly the attempts of the schedule. */
  ghost predicate OnSchedule(tries: seq<Attempt>) {
    forall i :: 0 <= i < |tries| ==> tries[i].icon == Unused && (Add in tries[i].calls <==> RecoveryAt(i + 1))
  }

  lemma OnScheduleSnoc(tries: seq<Attempt>, a: Attempt)
    requires OnSchedule(tries) && a.icon == Unused && (Add in a.calls <==> RecoveryAt(|tries| + 1))
    ensures OnSchedule(tries + [a])
    ensures Logged(tries + [a]) == Logged(tries) + if a.diagnostic == Silent then 0 else 1
  {
    hide RecoveryAt;
    assert (tries + [a])[..|tries|] == tries;
  }

  /**
   However long everything fails, the client tries to put the icon up again at attempts 2, 32, 92,
   212, 452, 932 and then every 600; it logs the first failure and each of those, and nothing else.
   */
  lemma {:induction false} FailingStreak<C>(d: Delivery<C>, target: C, shells: seq<Shell>)
    requires d.pending != Some(target) && AllFail(shells)
    ensures LastRecovery(|shells|) <= |shells|
    ensures var (end, tries) := Streak(d, target, shells);
            var n := |shells|;
            && end == FailedState(d, target, n)
            && |tries| == n
            && OnSchedule(tries)
            && Logged(tries) == Recoveries(n) + (if n > 0 then 1 else 0)
  {
    hide Attempted, RecoveryAt, FailedState, LastRecovery;
    var n := |shells|;
    if n == 0 {
      NoFailures(d, target);
    } else {
      FailingStreak(d, target, shells[..n - 1]);
      FailedAttempt(d, target, n - 1, shells[n - 1]);
      NotRecoveryFirst();
      var tries := Streak(d, target, shells[..n - 1]).1;
      var a := Attempted(FailedState(d, target, n - 1), target, shells[n - 1]).1;
      OnScheduleSnoc(tries, a);
      hide OnSchedule, Logged;
      assert Streak(d, target, shells).1 == tries + [a];
      if n > 1 {
        assert Recoveries(n) == Recoveries(n - 1) + if RecoveryAt(n) then 1 else 0;
      }
    }
  }

  lemma NoFailures<C>(d: Delivery<C>, target: C)
    ensures LastRecovery(0) == 0 && FailedState(d, target, 0) == d
  {
  }

  lemma NotRecoveryFirst()
    ensures !RecoveryAt(1)
  {
  }

  /** Once re-added, a streak on the same target only modifies: it never adds the icon a second time. */
  lemma {:induction false} ReAddedOnce<C>(d: Delivery<C>, target: C, shells: seq<Shell>)
    requires forall i :: 0 <= i < |shells| ==> !shells[i].modified
    ensures var (end, tries) := Streak(d, target, shells);
            && |tries| == |shells|
            && (shells != [] ==> end.pending == Some(target))
            && (forall i, j :: 0 <= i < j < |shells| && tries[i].icon == ReAdded ==> tries[j].calls == [Modify])
            && (forall i :: 0 <= i < |shells| && tries[i].icon == ReAdded ==> end.readded)
  {
    if shells != [] {
      ReAddedOnce(d, target, shells[..|shells| - 1]);
    }
  }

  // ---- Failures on changing targets ----------------------------------------------------------

  /** Attempts one after the other, each on the next of `targets`. */
  function Changing<C(==)>(d: Delivery<C>, targets: seq<C>, shells: seq<Shell>): (Delivery<C>, seq<Attempt>)
    requires |targets| == |shells|
  {
    if targets == [] then (d, [])
    else
      var n := |targets| - 1;
      var (d', tries) := Changing(d, targets[..n], shells[..n]);
      var (d'', a) := Attempted(d', targets[n], shells[n]);
      (d'', tries + [a])
  }

  predicate Repeats<C(==)>(targets: seq<C>) {
    exists i :: 0 < i < |targets| && targets[i - 1] == targets[i]
  }

  ghost predicate TriesAdd(tries: seq<Attempt>) {
    exists i :: 0 <= i < |tries| && Add in tries[i].calls
  }

  /**
   The other side of starting over on a new target: while every modify fails, the client tries to put
   the icon up again if and only if two neighbouring attempts have the same target, whatever the shell
   answers to anything else.
   */
  lemma {:induction false} ReAddsIffTargetRepeats<C>(d: Delivery<C>, targets: seq<C>, shells: seq<Shell>)
    requires |targets| == |shells| && forall i :: 0 <= i < |shells| ==> !shells[i].modified
    requires targets != [] ==> d.pending != Some(targets[0])
    ensures var (end, tries) := Changing(d, targets, shells);
            && |tries| == |targets|
            && (TriesAdd(tries) <==> Repeats(targets))
            && (targets != [] ==> end.pending == Some(targets[|targets| - 1]))
            && (targets != [] && !Repeats(targets) ==> end.failures == 1 && end.recoveryAfter == 2 && !end.readded)
  {
    hide TriesAdd, Repeats;
    if targets == [] {
      NoTriesNoAdd<C>();
    } else {
      var n := |targets| - 1;
      var init := targets[..n];
      ReAddsIffTargetRepeats(d, init, shells[..n]);
      var (d', tries) := Changing(d, init, shells[..n]);
      var a := Attempted(d', targets[n], shells[n]).1;
      assert targets == init + [targets[n]];
      RepeatsSnoc(init, targets[n]);
      TriesAddSnoc(tries, a);
    }
  }

  lemma NoTriesNoAdd<C>()
    ensures !TriesAdd([]) && !Repeats<C>([])
  {
  }

  lemma RepeatsSnoc<C>(targets: seq<C>, last: C)
    ensures Repeats(targets + [last]) <==> Repeats(targets) || (targets != [] && targets[|targets| - 1] == last)
  {
    var all := targets + [last];
    if Repeats(targets) {
      var i :| 0 < i < |targets| && targets[i - 1] == targets[i];
      assert all[i - 1] == all[i];
    }
    if targets != [] && targets[|targets| - 1] == last {
      assert all[|targets| - 1] == all[|targets|];
    }
    if Repeats(all) && !Repeats(targets) {
      var i :| 0 < i < |all| && all[i - 1] == all[i];
      assert i < |targets| ==> targets[i - 1] == targets[i];
    }
  }

  lemma TriesAddSnoc(tries: seq<Attempt>, a: Attempt)
    ensures TriesAdd(tries + [a]) <==> TriesAdd(tries) || Add in a.calls
  {
    var all := tries + [a];
    if TriesAdd(tries) {
      var i :| 0 <= i < |tries| && Add in tries[i].calls;
      assert Add in all[i].calls;
    }
    if Add in a.calls {
      assert Add in all[|tries|].calls;
    }
  }
}
