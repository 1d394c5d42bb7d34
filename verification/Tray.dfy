/**
 The tray icon's handles: drawn anew for every update, handed to the shell, and destroyed by the
 client. Handles are numbered in the order they are drawn; a failed drawing gives none.
 */
module Tray {
  import opened Wrappers
  import opened TrayDelivery

  type Condition = nat

  /** What the shell may show: the shared logo, which is never destroyed, a drawn icon, or a null handle. */
  datatype Handle = Logo | Null | Drawn(id: nat)

  /**
   `drawn` handles exist so far; `destroyed` lists the ones destroyed, in order; `accepted` is the
   handle the shell last accepted, which follows from the calls made and the shell's answers and not
   from what the client makes of them.
   */
  datatype TrayState = TrayState(
    drawn: nat, destroyed: seq<nat>, cur: Handle, accepted: Option<Handle>,
    delivery: Delivery<Condition>, observed: Option<Condition>)

  function Destroy(s: TrayState, h: Handle): TrayState {
    if h.Drawn? then s.(destroyed := s.destroyed + [h.id]) else s
  }

  /** The handle the next drawing gives. */
  function Draw(s: TrayState, works: bool): (TrayState, Handle) {
    if works then (s.(drawn := s.drawn + 1), Drawn(s.drawn)) else (s, Null)
  }

  /** Paint `condition`: draw, try to deliver, keep the new icon and destroy the old one, or destroy the new one. */
  function Updated(s: TrayState, condition: Condition, draws: bool, shell: Shell): TrayState {
    var (s, icon) := Draw(s, draws);
    var (delivery, a) := Attempted(s.delivery, condition, shell);
    var s := s.(delivery := delivery, accepted := if Took(a.calls, shell) then Some(icon) else s.accepted);
    if a.icon == Unused then Destroy(s, icon) else Destroy(s.(cur := icon), s.cur)
  }

  /** Explorer started again: forget what was delivered, register the logo, then paint. */
  function Added(s: TrayState, condition: Condition, draws: bool, logo: Shell, shell: Shell): TrayState {
    Updated(Registered(s, logo), condition, draws, shell)
  }

  /** When neither add is accepted, what the shell shows is what it showed before. */
  function Registered(s: TrayState, logo: Shell): TrayState {
    s.(delivery := Fresh(), accepted := if logo.added || logo.addedAgain then Some(Logo) else s.accepted)
  }

  /** The decision of a tick whether to paint. */
  predicate Paints(s: TrayState, condition: Condition, scheduled: bool) {
    scheduled || s.observed != Some(condition) || NeedsUpdate(s.delivery, condition)
  }

  function Ticked(s: TrayState, condition: Condition, scheduled: bool, draws: bool, shell: Shell): TrayState {
    var s' := s.(observed := Some(condition));
    if Paints(s, condition, scheduled) then Updated(s', condition, draws, shell) else s'
  }

  class App {
    var drawn: nat
    var destroyed: seq<nat>
    var trayCur: Handle
    ghost var accepted: Option<Handle>
    var observedCondition: Option<Condition>
    const trayDelivery: DeliveryState<Condition>

    ghost function Value(): TrayState
      reads this, trayDelivery
    {
      TrayState(drawn, destroyed, trayCur, accepted, trayDelivery.Value(), observedCondition)
    }

    constructor ()
      ensures Value() == Start() && fresh(trayDelivery)
    {
      drawn, destroyed, trayCur, accepted, observedCondition := 0, [], Null, None, None;
      trayDelivery := new DeliveryState();
    }

    method DestroyIcon(h: Handle)
      modifies this
      ensures Value() == Destroy(old(Value()), h)
    {
      if h.Drawn? {
        destroyed := destroyed + [h.id];
      }
    }

    method Update(condition: Condition, draws: bool, shell: Shell)
      modifies this, trayDelivery
      ensures Value() == Updated(old(Value()), condition, draws, shell)
    {
      var icon := Null;
      if draws {
        icon := Drawn(drawn);
        drawn := drawn + 1;
      }
      var attempt := trayDelivery.TryShow(condition, shell);
      accepted := if Took(attempt.calls, shell) then Some(icon) else accepted;
      if attempt.icon == Delivered || attempt.icon == ReAdded {
        var replaced := trayCur;
        trayCur := icon;
        DestroyIcon(replaced);
      } else {
        DestroyIcon(icon);
      }
    }

    method AddIcon(condition: Condition, draws: bool, logo: Shell, shell: Shell)
      modifies this, trayDelivery
      ensures Value() == Added(old(Value()), condition, draws, logo, shell)
    {
      trayDelivery.Invalidate();
      accepted := if logo.added || logo.addedAgain then Some(Logo) else accepted;
      Update(condition, draws, shell);
    }

    method OnTick(condition: Condition, scheduled: bool, draws: bool, shell: Shell)
      modifies this, trayDelivery
      ensures Value() == Ticked(old(Value()), condition, scheduled, draws, shell)
    {
      var changed := observedCondition != Some(condition);
      observedCondition := Some(condition);
      var needsUpdate := NeedsUpdate(trayDelivery.Value(), condition);
      if scheduled || changed || needsUpdate {
        Update(condition, draws, shell);
      }
    }
  }

  // ---- Every run -----------------------------------------------------------------------

  datatype Event =
    | Restart(condition: Condition, draws: bool, logo: Shell, shell: Shell)
    | Paint(condition: Condition, draws: bool, shell: Shell)
    | Tick(condition: Condition, scheduled: bool, draws: bool, shell: Shell)

  function Start(): TrayState {
    TrayState(0, [], Null, None, Fresh(), None)
  }

  function Step(s: TrayState, e: Event): TrayState {
    match e
    case Restart(condition, draws, logo, shell) => Added(s, condition, draws, logo, shell)
    case Paint(condition, draws, shell) => Updated(s, condition, draws, shell)
    case Tick(condition, scheduled, draws, shell) => Ticked(s, condition, scheduled, draws, shell)
  }

  function Run(es: seq<Event>): TrayState {
    if es == [] then Start() else Step(Run(es[..|es| - 1]), es[|es| - 1])
  }

  predicate Live(s: TrayState, id: nat) {
    id < s.drawn && id !in s.destroyed
  }

  ghost predicate Distinct(ids: seq<nat>) {
    forall i, j :: 0 <= i < j < |ids| ==> ids[i] != ids[j]
  }

  ghost predicate Inv(s: TrayState) {
    && s.cur != Logo
    && (forall i :: 0 <= i < |s.destroyed| ==> s.destroyed[i] < s.drawn)
    && Distinct(s.destroyed)
    && (forall id :: Live(s, id) <==> s.cur == Drawn(id))
    && (s.accepted.Some? && s.accepted.value.Drawn? ==> s.accepted.value == s.cur)
  }

  lemma UpdateKeepsInv(s: TrayState, condition: Condition, draws: bool, shell: Shell)
    requires Inv(s)
    ensures Inv(Updated(s, condition, draws, shell))
  {
    hide Attempted, Took;
    AttemptReports(s.delivery, condition, shell);
    var s' := Updated(s, condition, draws, shell);
    if draws {
      assert !Live(s, s.drawn);
      assert s.drawn !in s.destroyed;
    }
    if s.cur.Drawn? {
      assert Live(s, s.cur.id);
    }
    forall id ensures Live(s', id) <==> s'.cur == Drawn(id) {
      assert Live(s, id) <==> s.cur == Drawn(id);
    }
  }

  lemma {:induction false} RunKeepsInv(es: seq<Event>)
    ensures Inv(Run(es))
  {
    hide Updated, Inv;
    if es == [] {
      StartIsInv();
    } else {
      var s, e := Run(es[..|es| - 1]), es[|es| - 1];
      RunKeepsInv(es[..|es| - 1]);
      match e
      case Restart(condition, draws, logo, shell) =>
        var s1 := Registered(s, logo);
        RegisterKeepsInv(s, s1);
        UpdateKeepsInv(s1, condition, draws, shell);
      case Paint(condition, draws, shell) =>
        UpdateKeepsInv(s, condition, draws, shell);
      case Tick(condition, scheduled, draws, shell) =>
        var s1 := s.(observed := Some(condition));
        RegisterKeepsInv(s, s1);
        if Paints(s, condition, scheduled) {
          UpdateKeepsInv(s1, condition, draws, shell);
        }
    }
  }

  lemma StartIsInv()
    ensures Inv(Start())
  {
  }

  /** Inv does not look at the delivery state or the observed condition, and allows the logo. */
  lemma RegisterKeepsInv(s: TrayState, s': TrayState)
    requires Inv(s) && s'.drawn == s.drawn && s'.destroyed == s.destroyed && s'.cur == s.cur
    requires s'.accepted == s.accepted || s'.accepted == Some(Logo)
    ensures Inv(s')
  {
    forall id ensures Live(s', id) <==> s'.cur == Drawn(id) {
      assert Live(s, id) <==> s.cur == Drawn(id);
    }
  }

  /**
   After any run of ticks, paints and Explorer restarts: every drawn icon was destroyed at most once,
   the current one is the only one still live, and the handle the shell last accepted is not a
   destroyed one.
   */
  lemma IconsAreOwned(es: seq<Event>)
    ensures var s := Run(es);
            && Distinct(s.destroyed)
            && (forall id: nat :: id < s.drawn ==> (id in s.destroyed <==> s.cur != Drawn(id)))
            && (LastTaken(es).Some? && LastTaken(es).value.Drawn? ==>
                  && LastTaken(es).value == s.cur
                  && LastTaken(es).value.id < s.drawn && LastTaken(es).value.id !in s.destroyed)
  {
    hide Run, LastTaken;
    RunKeepsInv(es);
    AcceptedIsLastTaken(es);
    var s := Run(es);
    forall id: nat | id < s.drawn ensures id in s.destroyed <==> s.cur != Drawn(id) {
      assert Live(s, id) <==> s.cur == Drawn(id);
    }
    if s.cur.Drawn? {
      assert Live(s, s.cur.id);
    }
  }

  /** What the delivery state saw of the run. */
  ghost function Tries(es: seq<Event>): seq<TrayDelivery.Event<Condition>> {
    if es == [] then []
    else
      var before, s, e := Tries(es[..|es| - 1]), Run(es[..|es| - 1]), es[|es| - 1];
      match e
      case Restart(condition, _, _, shell) => before + [Invalidated, Tried(condition, shell)]
      case Paint(condition, _, shell) => before + [Tried(condition, shell)]
      case Tick(condition, scheduled, _, shell) =>
        if Paints(s, condition, scheduled) then before + [Tried(condition, shell)] else before
  }

  lemma DeliveryOfUpdate(s: TrayState, condition: Condition, draws: bool, shell: Shell)
    ensures Updated(s, condition, draws, shell).delivery == Attempted(s.delivery, condition, shell).0
  {
  }

  lemma DeliverySnoc(tries: seq<TrayDelivery.Event<Condition>>, e: TrayDelivery.Event<Condition>)
    ensures TrayDelivery.Run(tries + [e]) == TrayDelivery.Step(TrayDelivery.Run(tries), e)
  {
    assert (tries + [e])[..|tries|] == tries;
  }

  lemma {:induction false} DeliveryFollows(es: seq<Event>)
    ensures Run(es).delivery == TrayDelivery.Run(Tries(es))
  {
    hide Attempted, Updated, Paints;
    if es != [] {
      var before, s, e := Tries(es[..|es| - 1]), Run(es[..|es| - 1]), es[|es| - 1];
      DeliveryFollows(es[..|es| - 1]);
      match e
      case Restart(condition, draws, logo, shell) =>
        var s1 := Registered(s, logo);
        DeliveryOfUpdate(s1, condition, draws, shell);
        DeliverySnoc(before, Invalidated);
        DeliverySnoc(before + [Invalidated], Tried(condition, shell));
        assert before + [Invalidated] + [Tried(condition, shell)] == before + [Invalidated, Tried(condition, shell)];
      case Paint(condition, draws, shell) =>
        DeliveryOfUpdate(s, condition, draws, shell);
        DeliverySnoc(before, Tried(condition, shell));
      case Tick(condition, scheduled, draws, shell) =>
        DeliveryOfUpdate(s.(observed := Some(condition)), condition, draws, shell);
        DeliverySnoc(before, Tried(condition, shell));
    }
  }

  /** The last attempt since the last restart was an accepted modify for `c`. */
  ghost predicate LastAccepted(es: seq<Event>, c: Condition) {
    var tries := Tries(es);
    tries != [] && tries[|tries| - 1].Tried? && tries[|tries| - 1].target == c && tries[|tries| - 1].shell.modified
  }

  /**
   After any run, a tick leaves the icon alone only if the last attempt was an accepted modify for
   the current condition; until then every tick tries again.
   */
  lemma EveryTickRetries(es: seq<Event>, condition: Condition, scheduled: bool)
    ensures !Paints(Run(es), condition, scheduled) <==>
              !scheduled && Run(es).observed == Some(condition) && LastAccepted(es, condition)
  {
    hide TrayDelivery.Run, Run;
    DeliveryFollows(es);
    UpToDateMeansAccepted(Tries(es), condition);
  }

  /** The condition the last tick found; none before the first. */
  ghost function LastTicked(es: seq<Event>): Option<Condition> {
    if es == [] then None
    else if es[|es| - 1].Tick? then Some(es[|es| - 1].condition)
    else LastTicked(es[..|es| - 1])
  }

  /** What a tick compares with is what the tick before it found, painted or not. */
  lemma {:induction false} ObservedIsLastTick(es: seq<Event>)
    ensures Run(es).observed == LastTicked(es)
  {
    hide Attempted, Paints;
    if es != [] {
      ObservedIsLastTick(es[..|es| - 1]);
    }
  }

  /** What the shell was last seen to accept, told from the calls of the run and the answers to them alone. */
  ghost function LastTaken(es: seq<Event>): Option<Handle> {
    if es == [] then None
    else
      var before, s, e := LastTaken(es[..|es| - 1]), Run(es[..|es| - 1]), es[|es| - 1];
      match e
      case Restart(condition, draws, logo, shell) =>
        var first := if logo.added || logo.addedAgain then Some(Logo) else before;
        Taken(Fresh(), condition, shell, if draws then Drawn(s.drawn) else Null, first)
      case Paint(condition, draws, shell) =>
        Taken(s.delivery, condition, shell, if draws then Drawn(s.drawn) else Null, before)
      case Tick(condition, scheduled, draws, shell) =>
        if Paints(s, condition, scheduled)
        then Taken(s.delivery, condition, shell, if draws then Drawn(s.drawn) else Null, before) else before
  }

  ghost function Taken(
    d: Delivery<Condition>, condition: Condition, shell: Shell, icon: Handle, before: Option<Handle>): Option<Handle>
  {
    if Took(Attempted(d, condition, shell).1.calls, shell) then Some(icon) else before
  }

  lemma {:induction false} AcceptedIsLastTaken(es: seq<Event>)
    ensures Run(es).accepted == LastTaken(es)
  {
    hide Updated, Taken, Paints;
    if es != [] {
      var s, e := Run(es[..|es| - 1]), es[|es| - 1];
      AcceptedIsLastTaken(es[..|es| - 1]);
      match e
      case Restart(condition, draws, logo, shell) => AcceptedOfUpdate(Registered(s, logo), condition, draws, shell);
      case Paint(condition, draws, shell) => AcceptedOfUpdate(s, condition, draws, shell);
      case Tick(condition, scheduled, draws, shell) =>
        AcceptedOfUpdate(s.(observed := Some(condition)), condition, draws, shell);
    }
  }

  lemma AcceptedOfUpdate(s: TrayState, condition: Condition, draws: bool, shell: Shell)
    ensures Updated(s, condition, draws, shell).accepted ==
              Taken(s.delivery, condition, shell, if draws then Drawn(s.drawn) else Null, s.accepted)
  {
    hide Attempted, Took;
  }
}
