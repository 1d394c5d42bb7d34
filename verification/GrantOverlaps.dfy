/**
 What overlapping requests to the issuer do to an account: when a key ends up listed twice, when the
 account grows past its cap, and which other write was in between.
 */
module GrantOverlaps {
  import opened Wrappers
  import opened GrantDirectory
  import opened DeviceGrant
  import opened GrantRaces

  /** The state before act i. */
  ghost function At(acts: seq<Act>, i: nat): Shared
    requires i <= |acts|
  {
    Performed(START, acts[..i])
  }

  ghost function RowsAt(acts: seq<Act>, i: nat, account: Account): seq<Row>
    requires i <= |acts|
  {
    Rows(At(acts, i).world, account)
  }

  lemma AtStep(acts: seq<Act>, i: nat)
    requires i < |acts|
    ensures At(acts, i + 1) == Do(At(acts, i), acts[i]) && SharedInv(At(acts, i))
  {
    PerformedStep(acts, i);
  }

  lemma AtPrefix(acts: seq<Act>, k: nat, i: nat)
    requires i <= k <= |acts|
    ensures At(acts[..k], i) == At(acts, i)
  {
    assert acts[..k][..i] == acts[..i];
  }

  // Writes.

  /** The act changes an account as its request planned. */
  predicate Writes(s: Shared, a: Act) {
    a.IssuerWrites? && Due(s, a) && WriteResult(s, a.request).Some?
  }

  /** The account an issuer's write is about; any other act is about none. */
  predicate About(s: Shared, a: Act, account: Account) {
    a.IssuerWrites? && a.request in s.requests && s.requests[a.request].account == account
  }

  /** A write that adds a row and takes none: it saw none of its key. */
  predicate AddsRow(s: Shared, a: Act) {
    Writes(s, a) && var plan := s.requests[a.request].stage.plan; plan.added != [] && plan.taken == []
  }

  lemma WriteRows(s: Shared, a: Act, account: Account)
    ensures Rows(Do(s, a).world, account) ==
              if Writes(s, a) && About(s, a, account) then WriteResult(s, a.request).value else Rows(s.world, account)
  {
    hide Planned, Applied;
  }

  /** What any act does to any account. */
  lemma RowsStep(s: Shared, a: Act, account: Account)
    requires SharedInv(s)
    ensures var rows, after := Rows(s.world, account), Rows(Do(s, a).world, account);
            && (|after| > |rows| <==> AddsRow(s, a) && About(s, a, account))
            && |after| <= |rows| + 1
            && (OneEach(rows) ==> (OneEach(after) <==> !(Doubles(s, a) && About(s, a, account))))
            && (forall key :: HasRow(after, key) && !HasRow(rows, key) ==> RegistersRow(s, a, account, key))
  {
    hide Applied, Planned, SharedInv, Do, OneEach, HasRow;
    WriteRows(s, a, account);
    if Writes(s, a) && About(s, a, account) {
      var r := s.requests[a.request];
      RequestIsProper(s, a.request);
      AppliedSpec(Rows(s.world, account), r.stage.plan, r.key, r.terms.writes);
      TakenWasListed(Rows(s.world, account), r.stage.plan, r.key, r.terms.writes);
    }
  }

  lemma RequestIsProper(s: Shared, q: RequestId)
    requires SharedInv(s) && q in s.requests
    ensures Proper(s.world, s.requests[q])
  {
  }

  lemma TakenWasListed(rows: seq<Row>, plan: Plan, key: Key, writes: bool)
    requires PlanFor(plan, key) && Applied(rows, plan, writes).Some?
    ensures plan.taken != [] || Unseen(rows, plan, key) ==> HasRow(rows, key)
  {
    if plan.taken != [] {
      assert plan.taken[0] in rows;
      var i :| 0 <= i < |rows| && rows[i] == plan.taken[0];
      assert rows[i].key == key;
    }
    if Unseen(rows, plan, key) {
      UnseenIsListed(rows, plan, key);
    }
  }

  /** A registration of this key on this account goes through. */
  predicate RegistersRow(s: Shared, a: Act, account: Account, key: Key) {
    Writes(s, a) && About(s, a, account) && s.requests[a.request].verb.Record? && s.requests[a.request].key == key
  }

  // Keys listed twice.

  /** The write adds a second row of its key: it saw none, and by now there is one. */
  ghost predicate Doubles(s: Shared, a: Act) {
    AddsRow(s, a) && var r := s.requests[a.request]; HasRow(Rows(s.world, r.account), r.key)
  }

  ghost predicate AlwaysOneEach(acts: seq<Act>, account: Account) {
    forall n :: 0 <= n <= |acts| ==> OneEach(RowsAt(acts, n, account))
  }

  ghost predicate NeverDoubles(acts: seq<Act>, account: Account) {
    forall j :: 0 <= j < |acts| ==> !(Doubles(At(acts, j), acts[j]) && About(At(acts, j), acts[j], account))
  }

  /**
   For every interleaving: no key is ever listed twice on the account if and only if no registration
   writes that saw none of its key while the account lists it by then.
   */
  lemma {:induction false} OneEachIff(acts: seq<Act>, account: Account)
    ensures AlwaysOneEach(acts, account) <==> NeverDoubles(acts, account)
  {
    hide Do, SharedInv, Doubles, About, OneEach, AlwaysOneEach, NeverDoubles, At;
    if acts == [] {
      NothingListed(account);
    } else {
      var n := |acts| - 1;
      OneEachIff(acts[..n], account);
      AtStep(acts, n);
      RowsStep(At(acts, n), acts[n], account);
      OneEachSnoc(acts, account);
      DoublesSnoc(acts, account);
    }
  }

  lemma OneEachSnoc(acts: seq<Act>, account: Account)
    requires acts != []
    ensures var n := |acts| - 1;
            && (AlwaysOneEach(acts[..n], account) ==> OneEach(RowsAt(acts, n, account)))
            && (AlwaysOneEach(acts, account) <==>
                  AlwaysOneEach(acts[..n], account) && OneEach(RowsAt(acts, n + 1, account)))
  {
    hide At, OneEach;
    var n := |acts| - 1;
    forall i | 0 <= i <= n ensures RowsAt(acts[..n], i, account) == RowsAt(acts, i, account) {
      AtPrefix(acts, n, i);
    }
  }

  lemma DoublesSnoc(acts: seq<Act>, account: Account)
    requires acts != []
    ensures var n := |acts| - 1;
            NeverDoubles(acts, account) <==>
              && NeverDoubles(acts[..n], account)
              && !(Doubles(At(acts, n), acts[n]) && About(At(acts, n), acts[n], account))
  {
    hide At, Doubles, About;
    var n := |acts| - 1;
    forall i | 0 <= i < n ensures At(acts[..n], i) == At(acts, i) && acts[..n][i] == acts[i] {
      AtPrefix(acts, n, i);
    }
  }

  lemma NothingListed(account: Account)
    ensures RowsAt([], 0, account) == []
    ensures AlwaysOneEach([], account) && NeverDoubles([], account)
    ensures NeverOverfills([], account) && forall room: nat :: AlwaysWithin([], account, room)
  {
  }

  /** So an account has at most one usable row in every run without such a write. */
  lemma OneUsableUnlessDoubled(acts: seq<Act>, account: Account)
    requires NeverDoubles(acts, account)
    ensures OneUsable(At(acts, |acts|).world, RowsAt(acts, |acts|, account))
  {
    OneEachIff(acts, account);
    assert OneEach(RowsAt(acts, |acts|, account));
  }

  // Which write was in between.

  /** Act i is the issuer's reading for request q. */
  ghost predicate ReadAt(acts: seq<Act>, i: nat, q: RequestId) {
    i < |acts| && acts[i] == IssuerReads(q) && Due(At(acts, i), acts[i])
  }

  /** What one act does to one request. */
  lemma RequestStep(s: Shared, a: Act, q: RequestId)
    ensures q in s.requests ==> q in Do(s, a).requests
    ensures q in s.requests ==> Do(s, a).requests[q] == s.requests[q].(stage := Do(s, a).requests[q].stage)
    ensures q in s.requests ==>
              var before, after := s.requests[q].stage, Do(s, a).requests[q].stage;
              || after == before
              || (a == IssuerReads(q) && before.Asked? && !after.Asked?)
              || (a == IssuerWrites(q) && before.Read? && after.Done?)
    ensures q !in s.requests && q in Do(s, a).requests ==> !Do(s, a).requests[q].stage.Read?
  {
    hide Planned, Applied;
  }

  function Progress(s: Shared, q: RequestId): nat {
    if q !in s.requests then 0 else match s.requests[q].stage
      case Asked => 1
      case Read(_) => 2
      case Done(_) => 3
  }

  lemma {:induction false} ProgressGrows(acts: seq<Act>, i: nat, j: nat, q: RequestId)
    requires i <= j <= |acts|
    ensures Progress(At(acts, i), q) <= Progress(At(acts, j), q)
    decreases j
  {
    hide Do, At, SharedInv;
    if i < j {
      ProgressGrows(acts, i, j - 1, q);
      AtStep(acts, j - 1);
      RequestStep(At(acts, j - 1), acts[j - 1], q);
    }
  }

  lemma ReadOnce(acts: seq<Act>, i: nat, j: nat, q: RequestId)
    requires ReadAt(acts, i, q) && ReadAt(acts, j, q)
    ensures i == j
  {
    hide At, SharedInv, Planned;
    if i < j {
      AtStep(acts, i);
      ProgressGrows(acts, i + 1, j, q);
    } else if j < i {
      AtStep(acts, j);
      ProgressGrows(acts, j + 1, i, q);
    }
  }

  /** The reading at act i gave the plan request q holds at act n. */
  ghost predicate PlanReadAt(acts: seq<Act>, i: nat, n: nat, q: RequestId)
    requires n <= |acts| && q in At(acts, n).requests && At(acts, n).requests[q].stage.Read?
  {
    var r := At(acts, n).requests[q];
    i < n && ReadAt(acts, i, q) && Planned(r.verb, RowsAt(acts, i, r.account), r.key, r.terms) == Some(r.stage.plan)
  }

  lemma {:induction false} ReadOrigin(acts: seq<Act>, n: nat, q: RequestId)
    requires n <= |acts| && q in At(acts, n).requests && At(acts, n).requests[q].stage.Read?
    ensures exists i: nat :: PlanReadAt(acts, i, n, q)
  {
    hide Do, At, SharedInv, Planned;
    if n == 0 {
      NoRequests(acts);
    } else {
      var s := At(acts, n - 1);
      AtStep(acts, n - 1);
      RequestStep(s, acts[n - 1], q);
      if s.requests[q].stage.Read? {
        ReadOrigin(acts, n - 1, q);
        var i: nat :| PlanReadAt(acts, i, n - 1, q);
        assert PlanReadAt(acts, i, n, q);
      } else {
        ReadingPlans(s, q);
        assert PlanReadAt(acts, n - 1, n, q);
      }
    }
  }

  lemma NoRequests(acts: seq<Act>)
    ensures At(acts, 0).requests == map[]
  {
    assert acts[..0] == [];
  }

  lemma ReadingPlans(s: Shared, q: RequestId)
    requires q in s.requests && s.requests[q].stage.Asked?
    ensures var r, s' := s.requests[q], Do(s, IssuerReads(q));
            Due(s, IssuerReads(q)) && q in s'.requests && (s'.requests[q].stage.Read? ==>
              Planned(r.verb, Rows(s.world, r.account), r.key, r.terms) == Some(s'.requests[q].stage.plan))
  {
    hide Planned;
  }

  /** From before act m on, up to act j, the account lists the key. */
  ghost predicate ListedFrom(acts: seq<Act>, m: nat, j: nat, account: Account, key: Key)
    requires j <= |acts|
  {
    forall n :: m < n <= j ==> HasRow(RowsAt(acts, n, account), key)
  }

  /** Act m registers the key, which stays listed until act j. */
  ghost predicate ListedSince(acts: seq<Act>, m: nat, j: nat, account: Account, key: Key) {
    m < j <= |acts| && RegistersRow(At(acts, m), acts[m], account, key) && ListedFrom(acts, m, j, account, key)
  }

  lemma {:induction false} ListingNeedsRegistration(acts: seq<Act>, i: nat, j: nat, account: Account, key: Key)
    requires i <= j <= |acts| && !HasRow(RowsAt(acts, i, account), key) && HasRow(RowsAt(acts, j, account), key)
    ensures exists m: nat :: i <= m && ListedSince(acts, m, j, account, key)
    decreases j
  {
    hide At, Do, SharedInv, RegistersRow, HasRow;
    AtStep(acts, j - 1);
    RowsStep(At(acts, j - 1), acts[j - 1], account);
    if HasRow(RowsAt(acts, j - 1, account), key) {
      ListingNeedsRegistration(acts, i, j - 1, account, key);
      var m: nat :| i <= m && ListedSince(acts, m, j - 1, account, key);
      assert ListedSince(acts, m, j, account, key);
    } else {
      assert ListedSince(acts, j - 1, j, account, key);
    }
  }

  /** Request q read no row of the key at act i, and act m in between registered it, for good. */
  ghost predicate OvertakenBy(acts: seq<Act>, i: nat, m: nat, j: nat, q: RequestId, account: Account, key: Key) {
    && i < m && ReadAt(acts, i, q) && !HasRow(RowsAt(acts, i, account), key)
    && ListedSince(acts, m, j, account, key)
  }

  /**
   For every interleaving, a registration that goes through adds a second row of its key if and only
   if it read none, and in between another registration of that key went through whose listing lasts.
   */
  lemma DoublesIff(acts: seq<Act>, j: nat)
    requires j < |acts| && Writes(At(acts, j), acts[j]) && At(acts, j).requests[acts[j].request].verb.Record?
    ensures var q := acts[j].request;
            var r := At(acts, j).requests[q];
            Doubles(At(acts, j), acts[j]) <==> exists i: nat, m: nat :: OvertakenBy(acts, i, m, j, q, r.account, r.key)
  {
    hide At, Do, SharedInv, Planned, Applied, HasRow;
    var q := acts[j].request;
    var r := At(acts, j).requests[q];
    ReadOrigin(acts, j, q);
    var i: nat :| PlanReadAt(acts, i, j, q);
    PlannedFor(r.verb, RowsAt(acts, i, r.account), r.key, r.terms);
    EmptyReadIff(acts, i, r);
    if Doubles(At(acts, j), acts[j]) {
      ListingNeedsRegistration(acts, i, j, r.account, r.key);
      var m: nat :| i <= m && ListedSince(acts, m, j, r.account, r.key);
      assert OvertakenBy(acts, i, m, j, q, r.account, r.key);
    }
    if exists i: nat, m: nat :: OvertakenBy(acts, i, m, j, q, r.account, r.key) {
      var i': nat, m: nat :| OvertakenBy(acts, i', m, j, q, r.account, r.key);
      ReadOnce(acts, i, i', q);
      assert HasRow(RowsAt(acts, j, r.account), r.key);
    }
  }

  lemma EmptyReadIff(acts: seq<Act>, i: nat, r: Request)
    requires i <= |acts| && r.verb.Record? && Planned(r.verb, RowsAt(acts, i, r.account), r.key, r.terms).Some?
    ensures Planned(r.verb, RowsAt(acts, i, r.account), r.key, r.terms).value.taken == [] <==>
              !HasRow(RowsAt(acts, i, r.account), r.key)
  {
    RowsOfSpec(RowsAt(acts, i, r.account), r.key);
  }

  // Keys that stay listed twice.

  ghost function KeyRows(rows: seq<Row>, key: Key): set<Row> {
    set row | row in rows && row.key == key
  }

  lemma SmallerSet(a: set<Row>, b: set<Row>)
    requires a <= b
    ensures |a| <= |b|
  {
    assert b == a + (b - a);
  }

  lemma AppliedIn(rows: seq<Row>, plan: Plan, writes: bool)
    requires Applied(rows, plan, writes).Some?
    ensures forall row :: row in Applied(rows, plan, writes).value <==>
                            (row in rows && row !in plan.taken) || row in plan.added
  {
    MinusIn(rows, plan.taken);
  }

  /** Without a registration of the key its rows do not become more. */
  lemma KeyRowsStep(s: Shared, a: Act, account: Account, key: Key)
    requires SharedInv(s) && !RegistersRow(s, a, account, key)
    ensures |KeyRows(Rows(Do(s, a).world, account), key)| <= |KeyRows(Rows(s.world, account), key)|
  {
    hide Do, Applied, SharedInv;
    WriteRows(s, a, account);
    if Writes(s, a) && About(s, a, account) {
      var r := s.requests[a.request];
      var plan, rows := r.stage.plan, Rows(s.world, account);
      RequestIsProper(s, a.request);
      AppliedIn(rows, plan, r.terms.writes);
      PlanKeyRows(rows, plan, r.key, r.terms.writes, key, r.verb.Record?);
    }
  }

  lemma PlanKeyRows(rows: seq<Row>, plan: Plan, own: Key, writes: bool, key: Key, record: bool)
    requires PlanFor(plan, own) && Applied(rows, plan, writes).Some?
    requires plan.added != [] && plan.taken == [] ==> record
    requires !(record && own == key)
    ensures |KeyRows(Applied(rows, plan, writes).value, key)| <= |KeyRows(rows, key)|
  {
    var after := Applied(rows, plan, writes).value;
    AppliedIn(rows, plan, writes);
    var was, now := KeyRows(rows, key), KeyRows(after, key);
    if own != key || plan.added == [] {
      assert forall row :: row in plan.added ==> row.key == own;
      SmallerSet(now, was);
    } else {
      var x, y := plan.taken[0], plan.added[0];
      assert plan.added == [y] && x in plan.taken;
      assert x in rows by { TakenIsListed(rows, plan, writes); }
      SmallerSet(now, was - {x} + {y});
    }
  }

  lemma TakenIsListed(rows: seq<Row>, plan: Plan, writes: bool)
    requires Applied(rows, plan, writes).Some?
    ensures forall row :: row in plan.taken ==> row in rows
  {
    forall row | row in plan.taken ensures row in rows {
      var i :| 0 <= i < |plan.taken| && plan.taken[i] == row;
    }
  }

  lemma {:induction false} MoreRowsNeedRegistration(acts: seq<Act>, i: nat, j: nat, account: Account, key: Key)
    requires i <= j <= |acts|
    requires |KeyRows(RowsAt(acts, j, account), key)| > |KeyRows(RowsAt(acts, i, account), key)|
    ensures exists m: nat :: i <= m < j && RegistersRow(At(acts, m), acts[m], account, key)
    decreases j
  {
    hide At, Do, SharedInv, RegistersRow, KeyRows;
    AtStep(acts, j - 1);
    if !RegistersRow(At(acts, j - 1), acts[j - 1], account, key) {
      KeyRowsStep(At(acts, j - 1), acts[j - 1], account, key);
      MoreRowsNeedRegistration(acts, i, j - 1, account, key);
    }
  }

  /** Between the reading of request q at act i and act j, act m registered the key. */
  ghost predicate RegisteredMeanwhile(
    acts: seq<Act>, i: nat, m: nat, j: nat, q: RequestId, account: Account, key: Key)
  {
    i < m < j <= |acts| && ReadAt(acts, i, q) && RegistersRow(At(acts, m), acts[m], account, key)
  }

  /**
   For every interleaving, even where keys are listed twice already: a registration that goes through
   and does not leave its key listed once was overtaken by another registration of that key. So the
   first one that nothing overtakes takes every doubling away.
   */
  lemma TwiceMeansOvertaken(acts: seq<Act>, j: nat)
    requires j < |acts| && Writes(At(acts, j), acts[j]) && At(acts, j).requests[acts[j].request].verb.Record?
    ensures var q := acts[j].request;
            var r := At(acts, j).requests[q];
            ListedOnce(RowsAt(acts, j + 1, r.account), r.key) ||
            exists i: nat, m: nat :: RegisteredMeanwhile(acts, i, m, j, q, r.account, r.key)
  {
    hide At, Do, SharedInv, Planned, Applied, ListedOnce, RegistersRow;
    var q := acts[j].request;
    var r := At(acts, j).requests[q];
    AtStep(acts, j);
    WriteRows(At(acts, j), acts[j], r.account);
    RequestIsProper(At(acts, j), q);
    ReadOrigin(acts, j, q);
    var i: nat :| PlanReadAt(acts, i, j, q);
    var before, rows, plan := RowsAt(acts, i, r.account), RowsAt(acts, j, r.account), r.stage.plan;
    PlannedFor(r.verb, before, r.key, r.terms);
    RegistrationCures(rows, plan, r.key, r.terms.writes);
    if Unseen(rows, plan, r.key) {
      var row :| row in rows && row.key == r.key && row !in plan.taken;
      TakenIsListed(rows, plan, r.terms.writes);
      assert row !in KeyRows(before, r.key);
      SmallerSet(KeyRows(before, r.key) + {row}, KeyRows(rows, r.key));
      MoreRowsNeedRegistration(acts, i, j, r.account, r.key);
      var m: nat :| i <= m < j && RegistersRow(At(acts, m), acts[m], r.account, r.key);
      NotARead(acts, i, q, m, r.account, r.key);
      assert RegisteredMeanwhile(acts, i, m, j, q, r.account, r.key);
    }
  }

  lemma NotARead(acts: seq<Act>, i: nat, q: RequestId, m: nat, account: Account, key: Key)
    requires ReadAt(acts, i, q) && m < |acts| && RegistersRow(At(acts, m), acts[m], account, key)
    ensures i != m
  {
  }

  // Growing past the cap.

  /** The write adds a row to an account that has no room left for it. */
  ghost predicate Overfills(s: Shared, a: Act) {
    && AddsRow(s, a)
    && var r := s.requests[a.request]; |Rows(s.world, r.account)| + r.terms.unreadable >= r.terms.cap
  }

  /** Every request of the run meets the same cap and the same number of unreadable values. */
  ghost predicate SameTerms(acts: seq<Act>, cap: nat, unreadable: nat) {
    forall i :: 0 <= i < |acts| && (acts[i].Send? || acts[i].Ask?) ==>
      acts[i].terms.cap == cap && acts[i].terms.unreadable == unreadable
  }

  lemma {:induction false} TermsKept(acts: seq<Act>, n: nat, q: RequestId, cap: nat, unreadable: nat)
    requires n <= |acts| && SameTerms(acts, cap, unreadable) && q in At(acts, n).requests
    ensures At(acts, n).requests[q].terms.cap == cap && At(acts, n).requests[q].terms.unreadable == unreadable
  {
    hide At, SharedInv;
    if n == 0 {
      NoRequests(acts);
    } else {
      AtStep(acts, n - 1);
      if q in At(acts, n - 1).requests {
        TermsKept(acts, n - 1, q, cap, unreadable);
        RequestStep(At(acts, n - 1), acts[n - 1], q);
      } else {
        NewRequest(At(acts, n - 1), acts[n - 1], q);
      }
    }
  }

  lemma NewRequest(s: Shared, a: Act, q: RequestId)
    requires q !in s.requests && q in Do(s, a).requests
    ensures (a.Send? || a.Ask?) && Do(s, a).requests[q].terms == a.terms
  {
    hide Planned, Applied;
  }

  ghost predicate AlwaysWithin(acts: seq<Act>, account: Account, room: nat) {
    forall n :: 0 <= n <= |acts| ==> |RowsAt(acts, n, account)| <= room
  }

  ghost predicate NeverOverfills(acts: seq<Act>, account: Account) {
    forall j :: 0 <= j < |acts| ==> !(Overfills(At(acts, j), acts[j]) && About(At(acts, j), acts[j], account))
  }

  /** For every interleaving: the account stays within its cap if and only if no write overfills it. */
  lemma {:induction false} WithinCapIff(acts: seq<Act>, account: Account, cap: nat, unreadable: nat)
    requires unreadable <= cap && SameTerms(acts, cap, unreadable)
    ensures AlwaysWithin(acts, account, cap - unreadable) <==> NeverOverfills(acts, account)
  {
    hide Do, SharedInv, About, Overfills, SameTerms, AlwaysWithin, NeverOverfills, At;
    if acts == [] {
      NothingListed(account);
    } else {
      var n := |acts| - 1;
      InitTerms(acts, cap, unreadable);
      WithinCapIff(acts[..n], account, cap, unreadable);
      AtStep(acts, n);
      RowsStep(At(acts, n), acts[n], account);
      OverfillsStep(acts, n, account, cap, unreadable);
      WithinSnoc(acts, account, cap - unreadable);
      OverfillsSnoc(acts, account);
    }
  }

  lemma WithinSnoc(acts: seq<Act>, account: Account, room: nat)
    requires acts != []
    ensures var n := |acts| - 1;
            && (AlwaysWithin(acts[..n], account, room) ==> |RowsAt(acts, n, account)| <= room)
            && (AlwaysWithin(acts, account, room) <==>
                  AlwaysWithin(acts[..n], account, room) && |RowsAt(acts, n + 1, account)| <= room)
  {
    hide At;
    var n := |acts| - 1;
    forall i | 0 <= i <= n ensures RowsAt(acts[..n], i, account) == RowsAt(acts, i, account) {
      AtPrefix(acts, n, i);
    }
  }

  lemma OverfillsSnoc(acts: seq<Act>, account: Account)
    requires acts != []
    ensures var n := |acts| - 1;
            NeverOverfills(acts, account) <==>
              && NeverOverfills(acts[..n], account)
              && !(Overfills(At(acts, n), acts[n]) && About(At(acts, n), acts[n], account))
  {
    hide At, Overfills, About;
    var n := |acts| - 1;
    forall i | 0 <= i < n ensures At(acts[..n], i) == At(acts, i) && acts[..n][i] == acts[i] {
      AtPrefix(acts, n, i);
    }
  }

  lemma InitTerms(acts: seq<Act>, cap: nat, unreadable: nat)
    requires acts != [] && SameTerms(acts, cap, unreadable)
    ensures SameTerms(acts[..|acts| - 1], cap, unreadable)
  {
  }

  lemma OverfillsStep(acts: seq<Act>, n: nat, account: Account, cap: nat, unreadable: nat)
    requires n < |acts| && SameTerms(acts, cap, unreadable)
    ensures var s := At(acts, n);
            Overfills(s, acts[n]) && About(s, acts[n], account) <==>
              AddsRow(s, acts[n]) && About(s, acts[n], account) && |RowsAt(acts, n, account)| + unreadable >= cap
  {
    hide At, SharedInv, SameTerms;
    if AddsRow(At(acts, n), acts[n]) {
      TermsKept(acts, n, acts[n].request, cap, unreadable);
    }
  }

  /** Act m adds a row, and from then until act j the account is full. */
  ghost predicate FullSince(acts: seq<Act>, m: nat, j: nat, account: Account, terms: Call) {
    && m < j <= |acts| && AddsRow(At(acts, m), acts[m]) && About(At(acts, m), acts[m], account)
    && forall n :: m < n <= j ==> |RowsAt(acts, n, account)| + terms.unreadable >= terms.cap
  }

  /** Request q was read at act i, and act m in between filled the account. */
  ghost predicate FilledBy(acts: seq<Act>, i: nat, m: nat, j: nat, q: RequestId, account: Account, terms: Call) {
    i < m && ReadAt(acts, i, q) && FullSince(acts, m, j, account, terms)
  }

  lemma {:induction false} FillingNeedsAdding(acts: seq<Act>, i: nat, j: nat, account: Account, terms: Call)
    requires i <= j <= |acts|
    requires |RowsAt(acts, i, account)| + terms.unreadable < terms.cap
    requires |RowsAt(acts, j, account)| + terms.unreadable >= terms.cap
    ensures exists m: nat :: i <= m && FullSince(acts, m, j, account, terms)
    decreases j
  {
    hide At, Do, SharedInv, AddsRow, About;
    AtStep(acts, j - 1);
    RowsStep(At(acts, j - 1), acts[j - 1], account);
    if |RowsAt(acts, j - 1, account)| + terms.unreadable >= terms.cap {
      FillingNeedsAdding(acts, i, j - 1, account, terms);
      var m: nat :| i <= m && FullSince(acts, m, j - 1, account, terms);
      assert FullSince(acts, m, j, account, terms);
    } else {
      assert FullSince(acts, j - 1, j, account, terms);
    }
  }

  /**
   For every interleaving, a write that adds a row overfills its account if and only if, between its
   reading and its writing, another write that added a row filled the account, for good.
   */
  lemma OverfillsIff(acts: seq<Act>, j: nat)
    requires j < |acts| && AddsRow(At(acts, j), acts[j])
    ensures var q := acts[j].request;
            var r := At(acts, j).requests[q];
            Overfills(At(acts, j), acts[j]) <==>
              exists i: nat, m: nat :: FilledBy(acts, i, m, j, q, r.account, r.terms)
  {
    hide At, Do, SharedInv, Planned, Applied;
    var q := acts[j].request;
    var r := At(acts, j).requests[q];
    ReadOrigin(acts, j, q);
    var i: nat :| PlanReadAt(acts, i, j, q);
    PlannedFor(r.verb, RowsAt(acts, i, r.account), r.key, r.terms);
    if Overfills(At(acts, j), acts[j]) {
      FillingNeedsAdding(acts, i, j, r.account, r.terms);
      var m: nat :| i <= m && FullSince(acts, m, j, r.account, r.terms);
      assert FilledBy(acts, i, m, j, q, r.account, r.terms);
    }
    if exists i: nat, m: nat :: FilledBy(acts, i, m, j, q, r.account, r.terms) {
      var i': nat, m: nat :| FilledBy(acts, i', m, j, q, r.account, r.terms);
      assert |RowsAt(acts, j, r.account)| + r.terms.unreadable >= r.terms.cap;
    }
  }

  // Two creations that find the same key.

  /** Look for the key, export it and send it off. */
  function SendsOff(c: CallId, q: RequestId, terms: Call): seq<Act> {
    [OpenKey(c, Sees), Export(c, true), Send(c, q, terms)]
  }

  /** Both requests read before either writes, and both creations hear that all is well. */
  function BothWrite(c: CallId, d: CallId, p: RequestId, q: RequestId): seq<Act> {
    [IssuerReads(p), IssuerReads(q), IssuerWrites(p), IssuerWrites(q)] + [Hear(c), Hear(d)]
  }

  lemma SendsOffRun(s: Shared, c: CallId, q: RequestId, terms: Call)
    requires c in s.calls && s.calls[c].phase == Opening && s.world.held.Some? && q !in s.requests && Smooth(terms)
    ensures var account, key := s.calls[c].account, s.world.held.value;
            Performed(s, SendsOff(c, q, terms)) ==
              Shared(s.world, s.calls[c := Creator(account, Waiting(key, false, q))],
                     s.requests[q := Request(Record, account, Ours(key), terms, Asked)])
  {
    var s1 := Do(s, OpenKey(c, Sees));
    var s2 := Do(s1, Export(c, true));
    var s3 := Do(s2, Send(c, q, terms));
    assert s3.calls == s.calls[c := Creator(s.calls[c].account, Waiting(s.world.held.value, false, q))];
    hide Do, Performed;
    PerformedThree(s, OpenKey(c, Sees), Export(c, true), Send(c, q, terms));
  }

  /** Room for one more, and no row of the key yet. */
  ghost predicate Vacant(rows: seq<Row>, key: Key, terms: Call) {
    !HasRow(rows, key) && |rows| + terms.unreadable < terms.cap
  }

  lemma BothPlan(rows: seq<Row>, key: Key, one: Call, two: Call)
    requires Smooth(one) && Smooth(two) && Vacant(rows, key, one) && Vacant(rows, key, two)
    requires FreshRow(key, one) != FreshRow(key, two)
    ensures Planned(Record, rows, key, one) == Some(Plan([], [FreshRow(key, one)]))
    ensures Planned(Record, rows, key, two) == Some(Plan([], [FreshRow(key, two)]))
    ensures Applied(rows, Plan([], [FreshRow(key, one)]), true) == Some(rows + [FreshRow(key, one)])
    ensures var more := rows + [FreshRow(key, one)];
            Applied(more, Plan([], [FreshRow(key, two)]), true) == Some(more + [FreshRow(key, two)])
  {
    var more := rows + [FreshRow(key, one)];
    RowsOfSpec(rows, key);
    MinusNothing(rows);
    MinusNothing(more);
    NotListed(rows, key, FreshRow(key, one));
    NotListed(rows, key, FreshRow(key, two));
    assert FreshRow(key, two) !in more;
  }

  lemma NotListed(rows: seq<Row>, key: Key, row: Row)
    requires !HasRow(rows, key) && row.key == key
    ensures row !in rows
  {
    assert forall i :: 0 <= i < |rows| ==> rows[i].key != key;
  }

  /** The two requests are on the way, for the same key and account. */
  predicate BothAsked(s: Shared, p: RequestId, q: RequestId, account: Account, key: Key, one: Call, two: Call) {
    && p != q && p in s.requests && q in s.requests
    && s.requests[p] == Request(Record, account, key, one, Asked)
    && s.requests[q] == Request(Record, account, key, two, Asked)
  }

  lemma BothWriteRun(s: Shared, p: RequestId, q: RequestId, account: Account, key: Key, one: Call, two: Call)
    requires BothAsked(s, p, q, account, key, one, two) && Smooth(one) && Smooth(two)
    requires var rows := Rows(s.world, account); Vacant(rows, key, one) && Vacant(rows, key, two)
    requires FreshRow(key, one) != FreshRow(key, two)
    ensures var rows := Rows(s.world, account);
            var end := Do(Do(Do(Do(s, IssuerReads(p)), IssuerReads(q)), IssuerWrites(p)), IssuerWrites(q));
            && end.calls == s.calls && Answered(end, p) && Answered(end, q)
            && end.world.held == s.world.held
            && Rows(end.world, account) == rows + [FreshRow(key, one)] + [FreshRow(key, two)]
  {
    hide Planned, Applied;
    var rows := Rows(s.world, account);
    BothPlan(rows, key, one, two);
    var s1 := Do(s, IssuerReads(p));
    assert s1.world == s.world && s1.requests[q] == s.requests[q];
    var s2 := Do(s1, IssuerReads(q));
    assert s2.requests[p].stage == Read(Plan([], [FreshRow(key, one)]));
    assert s2.requests[q].stage == Read(Plan([], [FreshRow(key, two)]));
    var s3 := Do(s2, IssuerWrites(p));
    assert Rows(s3.world, account) == rows + [FreshRow(key, one)];
    var s4 := Do(s3, IssuerWrites(q));
    assert s4.requests[p].stage == Done(true) && s4.requests[q].stage == Done(true);
  }

  lemma BothHear(s: Shared, c: CallId, d: CallId)
    requires c != d && c in s.calls && d in s.calls && s.calls[c].phase.Waiting? && s.calls[d].phase.Waiting?
    requires Answered(s, s.calls[c].phase.request) && Answered(s, s.calls[d].phase.request)
    ensures Do(Do(s, Hear(c)), Hear(d)) == s.(calls := s.calls - {c, d})
  {
    assert s.calls - {c} - {d} == s.calls - {c, d};
  }

  /**
   From every state in which two creations for one account have begun with the key there, not listed
   yet and with room for it: these acts are a run of the two, both succeed, and the account ends with
   two usable rows and two more rows than before, which can be one more than the cap.
   */
  lemma RacingCreatesListTwice(
    s: Shared, c: CallId, d: CallId, p: RequestId, q: RequestId, one: Call, two: Call)
    requires BothBegun(s, c, d) && s.world.held.Some? && s.calls[c].account == s.calls[d].account
    requires p != q && p !in s.requests && q !in s.requests && Smooth(one) && Smooth(two)
    requires var rows, key := Rows(s.world, s.calls[c].account), Ours(s.world.held.value);
             Vacant(rows, key, one) && Vacant(rows, key, two) && FreshRow(key, one) != FreshRow(key, two)
    ensures var rows := Rows(s.world, s.calls[c].account);
            var end := Performed(s, SendsOff(c, p, one) + SendsOff(d, q, two) + BothWrite(c, d, p, q));
            var after := Rows(end.world, s.calls[c].account);
            && end.calls == s.calls - {c, d}
            && |after| == |rows| + 2 && !OneUsable(end.world, after)
  {
    hide Do, Performed, SendsOff, Smooth, Vacant;
    var account, n := s.calls[c].account, s.world.held.value;
    var rows, key := Rows(s.world, account), Ours(n);
    SendsOffRun(s, c, p, one);
    var s1 := Performed(s, SendsOff(c, p, one));
    SendsOffRun(s1, d, q, two);
    var s2 := Performed(s1, SendsOff(d, q, two));
    BothWriteRun(s2, p, q, account, key, one, two);
    var writes := [IssuerReads(p), IssuerReads(q), IssuerWrites(p), IssuerWrites(q)];
    PerformedFour(s2, writes[0], writes[1], writes[2], writes[3]);
    var s3 := Performed(s2, writes);
    BothHear(s3, c, d);
    PerformedTwo(s3, Hear(c), Hear(d));
    PerformedAppend(s2, writes, [Hear(c), Hear(d)]);
    PerformedAppend(s, SendsOff(c, p, one), SendsOff(d, q, two));
    PerformedAppend(s, SendsOff(c, p, one) + SendsOff(d, q, two), BothWrite(c, d, p, q));
    assert s3.calls - {c, d} == s.calls - {c, d};
    TwoUsable(s3.world, rows, n, one, two);
  }

  lemma TwoUsable(w: World, rows: seq<Row>, n: nat, one: Call, two: Call)
    requires w.held == Some(n)
    ensures !OneUsable(w, rows + [FreshRow(Ours(n), one)] + [FreshRow(Ours(n), two)])
  {
    var all := rows + [FreshRow(Ours(n), one)] + [FreshRow(Ours(n), two)];
    assert Usable(w, all[|rows|]) && Usable(w, all[|rows| + 1]);
  }
}
