/**
 The macOS notification coordinator: one authorization request per process, one notice held while
 the system prompt is open, and delivery only under a grant. Notices carry the index of the event
 that submitted them, so that each delivery can be traced to its submission.
 */
module Notifications {
  import opened Wrappers

  datatype Severity = Info | Warning | Failure

  datatype Notice = Notice(id: nat, title: string, body: string, severity: Severity)

  datatype Eligibility = Eligibility(gateAllows: bool, menuOpen: bool, bundled: bool)

  datatype Authorization = Unasked | Requesting(pending: Notice) | Granted | Denied

  datatype Answer = Yes | No | Broke

  datatype Effect = Request | Deliver(notice: Notice)

  predicate Allows(e: Eligibility, severity: Severity) {
    e.gateAllows && !e.menuOpen && e.bundled && severity != Info
  }

  predicate AllowsPending(e: Eligibility) {
    e.gateAllows && !e.menuOpen
  }

  function Submitted(s: Authorization, notice: Notice, e: Eligibility): (Authorization, Option<Effect>) {
    if !Allows(e, notice.severity) then (s, None)
    else
      match s
      case Unasked => (Requesting(notice), Some(Request))
      case Granted => (s, Some(Deliver(notice)))
      case _ => (s, None)
  }

  function Completed(s: Authorization, answer: Answer, pendingEligible: bool): (Authorization, Option<Effect>) {
    match s
    case Requesting(pending) =>
      if answer != Yes then (Denied, None)
      else (Granted, if pendingEligible then Some(Deliver(pending)) else None)
    case _ => (s, None)
  }

  class Coordinator {
    var state: Authorization

    constructor ()
      ensures state == Unasked
    {
      state := Unasked;
    }

    method Submit(notice: Notice, e: Eligibility) returns (effect: Option<Effect>)
      modifies this
      ensures (state, effect) == Submitted(old(state), notice, e)
    {
      if !Allows(e, notice.severity) {
        return None;
      }
      match state
      case Unasked =>
        state := Requesting(notice);
        return Some(Request);
      case Requesting(_) => return None;
      case Denied => return None;
      case Granted => return Some(Deliver(notice));
    }

    method Complete(answer: Answer, pendingEligible: bool) returns (effect: Option<Effect>)
      modifies this
      ensures (state, effect) == Completed(old(state), answer, pendingEligible)
    {
      var was := state;
      state := Denied;
      if !was.Requesting? {
        state := was;
        return None;
      }
      if answer == Yes {
        state := Granted;
        return if pendingEligible then Some(Deliver(was.pending)) else None;
      }
      return None;
    }
  }

  // Every interleaving.

  datatype Event = Submit(title: string, body: string, severity: Severity, e: Eligibility)
                 | Complete(answer: Answer, e: Eligibility)

  function NoticeOf(i: nat, e: Event): Notice
    requires e.Submit?
  {
    Notice(i, e.title, e.body, e.severity)
  }

  function Reaction(s: Authorization, i: nat, e: Event): (Authorization, Option<Effect>) {
    match e
    case Submit(_, _, _, eligibility) => Submitted(s, NoticeOf(i, e), eligibility)
    case Complete(answer, eligibility) => Completed(s, answer, AllowsPending(eligibility))
  }

  function State(es: seq<Event>): Authorization {
    if es == [] then Unasked else Reaction(State(es[..|es| - 1]), |es| - 1, es[|es| - 1]).0
  }

  /** What event i of the run caused. */
  function EffectAt(es: seq<Event>, i: nat): Option<Effect>
    requires i < |es|
  {
    Reaction(State(es[..i]), i, es[i]).1
  }

  ghost predicate Asks(es: seq<Event>, i: nat) {
    i < |es| && EffectAt(es, i) == Some(Request)
  }

  ghost predicate Delivers(es: seq<Event>, i: nat, n: Notice) {
    i < |es| && EffectAt(es, i) == Some(Deliver(n))
  }

  /** Event k answers an open request. */
  ghost predicate Answers(es: seq<Event>, k: nat) {
    k < |es| && es[k].Complete? && State(es[..k]).Requesting?
  }

  /** A warning or an error, submitted by a bundled program while the gate was open and the menu closed. */
  predicate Eligible(e: Event) {
    && e.Submit? && (e.severity == Warning || e.severity == Failure)
    && e.e.gateAllows && !e.e.menuOpen && e.e.bundled
  }

  /** Submission `id` of the run was eligible. */
  ghost predicate EligibleSubmission(es: seq<Event>, n: Notice) {
    n.id < |es| && Eligible(es[n.id]) && n == NoticeOf(n.id, es[n.id])
  }

  function Rank(s: Authorization): nat {
    match s
    case Unasked => 0
    case Requesting(_) => 1
    case _ => 2
  }

  lemma StateSnoc(es: seq<Event>, i: nat)
    requires i < |es|
    ensures State(es[..i + 1]) == Reaction(State(es[..i]), i, es[i]).0
  {
    assert es[..i + 1][..i] == es[..i];
  }

  /** The authorization only moves forward, and a decision, once taken, stands. */
  lemma {:induction false} Forward(es: seq<Event>, i: nat, j: nat)
    requires i <= j <= |es|
    ensures Rank(State(es[..i])) <= Rank(State(es[..j]))
    ensures State(es[..i]).Granted? || State(es[..i]).Denied? ==> State(es[..j]) == State(es[..i])
    ensures State(es[..i]).Requesting? && State(es[..j]).Requesting? ==> State(es[..j]) == State(es[..i])
    decreases j - i
  {
    if i < j {
      StateSnoc(es, i);
      Forward(es, i + 1, j);
    }
  }

  /** At most one authorization request is ever issued. */
  lemma AskedOnce(es: seq<Event>, i: nat, j: nat)
    requires Asks(es, i) && Asks(es, j)
    ensures i == j
  {
    if i < j {
      StateSnoc(es, i);
      Forward(es, i + 1, j);
    } else if j < i {
      StateSnoc(es, j);
      Forward(es, j + 1, i);
    }
  }

  /** The pending notice is the eligible submission that caused the request. */
  lemma {:induction false} PendingOrigin(es: seq<Event>, i: nat)
    requires i <= |es| && State(es[..i]).Requesting?
    ensures var n := State(es[..i]).pending;
            n.id < i && EligibleSubmission(es, n) && Asks(es, n.id)
  {
    if i > 0 {
      StateSnoc(es, i - 1);
      if State(es[..i - 1]).Requesting? {
        PendingOrigin(es, i - 1);
      }
    }
  }

  /** One event decides exactly when it answers; every other event leaves a decision as it is. */
  lemma DecisionStep(es: seq<Event>, i: nat)
    requires i < |es|
    ensures State(es[..i + 1]).Granted? <==> State(es[..i]).Granted? || Settles(es, i, true)
    ensures State(es[..i + 1]).Denied? <==> State(es[..i]).Denied? || Settles(es, i, false)
  {
    StateSnoc(es, i);
  }

  /** Event k answers an open request with yes, or with anything else. */
  ghost predicate Settles(es: seq<Event>, k: nat, yes: bool) {
    Answers(es, k) && (es[k].answer == Yes) == yes
  }

  /** A granted state was reached through a granting answer. */
  lemma {:induction false} GrantOrigin(es: seq<Event>, i: nat)
    requires i <= |es|
    ensures State(es[..i]).Granted? <==> exists k: nat :: k < i && Settles(es, k, true)
  {
    hide State, Settles;
    if i == 0 {
      UndecidedAtStart(es);
    } else {
      GrantOrigin(es, i - 1);
      DecisionStep(es, i - 1);
    }
  }

  /** A denied state was reached through a refusing one. */
  lemma {:induction false} DenialOrigin(es: seq<Event>, i: nat)
    requires i <= |es|
    ensures State(es[..i]).Denied? <==> exists k: nat :: k < i && Settles(es, k, false)
  {
    hide State, Settles;
    if i == 0 {
      UndecidedAtStart(es);
    } else {
      DenialOrigin(es, i - 1);
      DecisionStep(es, i - 1);
    }
  }

  lemma UndecidedAtStart(es: seq<Event>)
    ensures State(es[..0]) == Unasked
  {
    assert es[..0] == [];
  }

  /**
   Nothing is delivered before a granting answer, and nothing ever after a denial or an error:
   every delivery stands at or after the one granting answer, and no refusal precedes or follows it.
   */
  lemma DeliveredUnderGrant(es: seq<Event>, i: nat, n: Notice)
    requires Delivers(es, i, n)
    ensures exists k: nat :: k <= i && Answers(es, k) && es[k].answer == Yes
    ensures forall k: nat :: k < |es| && Answers(es, k) ==> es[k].answer == Yes
  {
    StateSnoc(es, i);
    assert State(es[..i + 1]).Granted?;
    GrantOrigin(es, i + 1);
    Forward(es, i + 1, |es|);
    assert es[..|es|] == es;
    DenialOrigin(es, |es|);
    forall k: nat | k < |es| && Answers(es, k) ensures es[k].answer == Yes {
      assert !Settles(es, k, false);
    }
  }

  /** Every delivered notice is an eligible warning or error, and was submitted no later. */
  lemma DeliveredWasEligible(es: seq<Event>, i: nat, n: Notice)
    requires Delivers(es, i, n)
    ensures n.id <= i && EligibleSubmission(es, n)
    ensures n.id < i ==> es[i].Complete? && es[i].e.gateAllows && !es[i].e.menuOpen
  {
    if es[i].Complete? {
      PendingOrigin(es, i);
    }
  }

  /** Deliveries follow the order of submission: a later one shows a notice submitted later. */
  lemma DeliveredInOrder(es: seq<Event>, i: nat, j: nat, n: Notice, m: Notice)
    requires i < j && Delivers(es, i, n) && Delivers(es, j, m)
    ensures n.id < m.id
  {
    StateSnoc(es, i);
    Forward(es, i + 1, j);
    DeliveredWasEligible(es, i, n);
    assert m.id == j;
  }

  /** No notice is delivered twice. */
  lemma DeliveredOnce(es: seq<Event>, i: nat, j: nat, n: Notice)
    requires Delivers(es, i, n) && Delivers(es, j, n)
    ensures i == j
  {
    if i < j {
      DeliveredInOrder(es, i, j, n, n);
    } else if j < i {
      DeliveredInOrder(es, j, i, n, n);
    }
  }

  /** The first eligible notice is what the user is asked about, and a grant shows it unless it went stale. */
  lemma GrantShowsPending(es: seq<Event>, k: nat)
    requires Answers(es, k) && es[k].answer == Yes
    ensures EffectAt(es, k) ==
              if es[k].e.gateAllows && !es[k].e.menuOpen then Some(Deliver(State(es[..k]).pending)) else None
    ensures var n := State(es[..k]).pending;
            n.id < k && Asks(es, n.id) && EligibleSubmission(es, n)
  {
    PendingOrigin(es, k);
  }

  // Every effect, told from the events alone.

  /** The first eligible submission, which is the one the user is asked about. */
  ghost function AskedAt(es: seq<Event>): Option<nat> {
    if es == [] then None
    else
      var before := AskedAt(es[..|es| - 1]);
      if before.None? && Eligible(es[|es| - 1]) then Some(|es| - 1) else before
  }

  /** The first answer after it; later ones answer nothing. */
  ghost function AnsweredAt(es: seq<Event>): Option<nat> {
    if es == [] then None
    else
      var init := es[..|es| - 1];
      if AnsweredAt(init).None? && AskedAt(init).Some? && es[|es| - 1].Complete? then Some(|es| - 1)
      else AnsweredAt(init)
  }

  lemma {:induction false} StateForm(es: seq<Event>)
    ensures AskedAt(es).Some? ==> AskedAt(es).value < |es| && es[AskedAt(es).value].Submit?
    ensures AnsweredAt(es).Some? ==> AskedAt(es).Some?
    ensures AnsweredAt(es).Some? ==> AnsweredAt(es).value < |es| && es[AnsweredAt(es).value].Complete?
    ensures State(es) ==
              if AskedAt(es).None? then Unasked
              else if AnsweredAt(es).None? then Requesting(NoticeOf(AskedAt(es).value, es[AskedAt(es).value]))
              else if es[AnsweredAt(es).value].answer == Yes then Granted else Denied
  {
    if es != [] {
      StateForm(es[..|es| - 1]);
    }
  }

  /**
   For every run and every event of it: the first eligible submission asks; an eligible submission
   after the first answer was yes is delivered at once; that answer delivers the submission that asked
   if the gate is then open and the menu closed; and nothing else has any effect.
   */
  lemma EffectIff(es: seq<Event>, i: nat)
    requires i < |es|
    ensures var past, e := es[..i], es[i];
            var asked, answered := AskedAt(past), AnsweredAt(past);
            && (asked.Some? ==> asked.value < i && es[asked.value].Submit?)
            && (answered.Some? ==> answered.value < i && es[answered.value].Complete?)
            && EffectAt(es, i) ==
                 if Eligible(e) && asked.None? then Some(Request)
                 else if Eligible(e) && answered.Some? && es[answered.value].answer == Yes
                 then Some(Deliver(Notice(i, e.title, e.body, e.severity)))
                 else if && e.Complete? && asked.Some? && answered.None? && e.answer == Yes
                         && e.e.gateAllows && !e.e.menuOpen
                 then Some(Deliver(NoticeOf(asked.value, es[asked.value])))
                 else None
  {
    StateForm(es[..i]);
  }
}
