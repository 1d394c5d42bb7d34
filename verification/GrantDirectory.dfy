/**
 The device grants one directory account carries, and what the issuer does to them: record, remove
 and stamp. A grant is identified by the thumbprint of its key; keys are abstract, and whether this
 machine or another one made the key is part of its identity.
 */
module GrantDirectory {
  import opened Wrappers

  datatype Key = Ours(n: nat) | Foreign(n: nat)

  /** One stored value; two that differ in anything are two values. */
  datatype Row = Row(key: Key, start: nat, end: nat, seen: Option<nat>, caption: string)

  /**
   What meets one write. `reaches`: the request arrives and its proof is accepted; `eligible`: the
   account may hold grants; `writes`: the directory takes the change; `replies`: the answer gets
   back. `asked` is the broker's clock, `now` the issuer's a little later; `unreadable` counts the
   stored values that do not parse; `caption` is the label of the device.
   */
  datatype Call = Call(reaches: bool, eligible: bool, writes: bool, replies: bool,
                       asked: nat, now: nat, days: nat, cap: nat, unreadable: nat, caption: string)

  const DAY: nat := 86_400
  const TOUCH: nat := 12 * 3_600

  function Without(rows: seq<Row>, key: Key): seq<Row> {
    if rows == [] then []
    else if rows[0].key == key then Without(rows[1..], key)
    else [rows[0]] + Without(rows[1..], key)
  }

  ghost predicate HasRow(rows: seq<Row>, key: Key) {
    exists i :: 0 <= i < |rows| && rows[i].key == key
  }

  ghost predicate OneEach(rows: seq<Row>) {
    forall i, j :: 0 <= i < j < |rows| ==> rows[i].key != rows[j].key
  }

  /** Index of the first row of `key`. */
  function Find(rows: seq<Row>, key: Key): (r: Option<nat>)
    ensures r.Some? ==> r.value < |rows| && rows[r.value].key == key
    ensures r.Some? ==> forall i :: 0 <= i < r.value ==> rows[i].key != key
    ensures r.None? <==> forall i :: 0 <= i < |rows| ==> rows[i].key != key
  {
    if rows == [] then None
    else if rows[0].key == key then Some(0)
    else
      var rest := Find(rows[1..], key);
      assert forall i :: 1 <= i < |rows| ==> rows[i] == rows[1..][i - 1];
      if rest.Some? then Some(rest.value + 1) else None
  }

  /** The value a registration stores: a whole new window, not used yet. */
  function FreshRow(key: Key, call: Call): Row {
    Row(key, call.now, call.asked + call.days * DAY, None, call.caption)
  }

  /** The issuer's `grant`: replaces the key's own value, and counts only a new key against the cap. */
  function Recorded(rows: seq<Row>, key: Key, call: Call): Option<seq<Row>> {
    if FreshRow(key, call).end <= call.now || !call.eligible then None
    else if Find(rows, key).None? && |rows| + call.unreadable >= call.cap then None
    else if !call.writes then None
    else Some(Without(rows, key) + [FreshRow(key, call)])
  }

  function Removed(rows: seq<Row>, key: Key, call: Call): Option<seq<Row>> {
    if !call.eligible then None
    else if Find(rows, key).None? then Some(rows)
    else if !call.writes then None
    else Some(Without(rows, key))
  }

  /** Days count from the epoch, so a day change shows in the quotient. */
  function NeedsTouch(seen: Option<nat>, now: nat): bool {
    match seen
    case None => true
    case Some(s) => now / DAY != s / DAY || now >= s + TOUCH
  }

  /** The issuer's `touch`; its failure is ignored by the broker. */
  function Touched(rows: seq<Row>, key: Key, call: Call): (r: seq<Row>)
    ensures |r| == |rows|
    ensures forall i :: 0 <= i < |r| ==> r[i].(seen := None) == rows[i].(seen := None)
  {
    match Find(rows, key)
    case None => rows
    case Some(i) =>
      if call.eligible && call.writes && NeedsTouch(rows[i].seen, call.asked)
      then rows[i := rows[i].(seen := Some(call.asked))]
      else rows
  }

  function EffectiveEnd(row: Row, days: nat): (r: nat) {
    if row.end < row.start + days * DAY then row.end else row.start + days * DAY
  }

  /** The broker's `live_grant`: this key is on this account, inside its effective window. */
  function Live(rows: seq<Row>, key: Key, now: nat, days: nat): bool {
    match Find(rows, key)
    case None => false
    case Some(i) => now < EffectiveEnd(rows[i], days)
  }

  // What the operations keep.

  lemma {:induction false} WithoutSpec(rows: seq<Row>, key: Key)
    ensures !HasRow(Without(rows, key), key)
    ensures forall k :: k != key ==> (HasRow(Without(rows, key), k) <==> HasRow(rows, k))
    ensures OneEach(rows) ==> OneEach(Without(rows, key))
    ensures |Without(rows, key)| <= |rows|
    ensures HasRow(rows, key) ==> |Without(rows, key)| < |rows|
    ensures !HasRow(rows, key) ==> Without(rows, key) == rows
  {
    if rows != [] {
      var rest := rows[1..];
      WithoutSpec(rest, key);
      assert rows == [rows[0]] + rest;
      HasRowCons(rows[0], rest);
      if rows[0].key != key {
        HasRowCons(rows[0], Without(rest, key));
        OneEachCons(rows[0], rest);
        OneEachCons(rows[0], Without(rest, key));
      } else {
        OneEachCons(rows[0], rest);
        assert HasRow(rows, key);
      }
    }
  }

  lemma HasRowCons(row: Row, rest: seq<Row>)
    ensures forall k :: HasRow([row] + rest, k) <==> row.key == k || HasRow(rest, k)
  {
    var rows := [row] + rest;
    forall k ensures HasRow(rows, k) <==> row.key == k || HasRow(rest, k) {
      if row.key == k {
        assert rows[0].key == k;
      }
      if HasRow(rest, k) {
        var i :| 0 <= i < |rest| && rest[i].key == k;
        assert rows[i + 1].key == k;
      }
      if HasRow(rows, k) && row.key != k {
        var i :| 0 <= i < |rows| && rows[i].key == k;
        assert rest[i - 1].key == k;
      }
    }
  }

  lemma OneEachCons(row: Row, rest: seq<Row>)
    ensures OneEach([row] + rest) <==> OneEach(rest) && !HasRow(rest, row.key)
  {
    var rows := [row] + rest;
    assert forall i :: 0 <= i < |rest| ==> rows[i + 1] == rest[i];
    if OneEach(rows) {
      forall i, j | 0 <= i < j < |rest| ensures rest[i].key != rest[j].key {
        assert rows[i + 1].key != rows[j + 1].key;
      }
      forall i | 0 <= i < |rest| ensures rest[i].key != row.key {
        assert rows[0].key != rows[i + 1].key;
      }
    }
    if OneEach(rest) && !HasRow(rest, row.key) {
      forall i, j | 0 <= i < j < |rows| ensures rows[i].key != rows[j].key {
        if i > 0 {
          assert rest[i - 1].key != rest[j - 1].key;
        } else {
          assert rows[j] == rest[j - 1];
        }
      }
    }
  }

  /**
   Recording a key that the account already carries never adds a row, so the cap cannot refuse it;
   recording a new one fits under the cap. Nobody else's row goes away, no key is listed twice, and
   the new row carries the whole new window.
   */
  lemma RecordedKeeps(rows: seq<Row>, key: Key, call: Call)
    requires OneEach(rows) && Recorded(rows, key, call).Some?
    ensures var after := Recorded(rows, key, call).value;
            && OneEach(after)
            && (forall k :: HasRow(after, k) <==> k == key || HasRow(rows, k))
            && Without(after, key) == Without(rows, key)
            && (HasRow(rows, key) ==> |after| <= |rows|)
            && (|after| > |rows| ==> |after| + call.unreadable <= call.cap)
            && after[|after| - 1] == Row(key, call.now, call.asked + call.days * DAY, None, call.caption)
  {
    var row := FreshRow(key, call);
    WithoutSpec(rows, key);
    SnocRows(Without(rows, key), row);
    WithoutSnoc(Without(rows, key), row);
    WithoutSpec(Without(rows, key), key);
  }

  lemma {:induction false} WithoutSnoc(rows: seq<Row>, row: Row)
    ensures Without(rows + [row], row.key) == Without(rows, row.key)
  {
    if rows != [] {
      WithoutSnoc(rows[1..], row);
      assert (rows + [row])[1..] == rows[1..] + [row];
    } else {
      assert (rows + [row])[1..] == [];
    }
  }

  /** When exactly a registration is accepted: only a new key needs room under the cap. */
  lemma RecordedIff(rows: seq<Row>, key: Key, call: Call)
    ensures Recorded(rows, key, call).Some? <==>
              && call.eligible && call.writes && call.now < call.asked + call.days * 86_400
              && (HasRow(rows, key) || |rows| + call.unreadable < call.cap)
  {
    if HasRow(rows, key) {
      RenewalIgnoresCap(rows, key, call);
    }
  }

  /**
   When exactly a record is refused: a key already on the account never meets the cap.
   */
  lemma RenewalIgnoresCap(rows: seq<Row>, key: Key, call: Call)
    requires HasRow(rows, key)
    ensures Recorded(rows, key, call).Some? <==>
              call.eligible && call.writes && call.now < call.asked + call.days * DAY
  {
    var i :| 0 <= i < |rows| && rows[i].key == key;
    assert Find(rows, key).Some?;
  }

  /** A recorded grant works from that moment until its end, and lowering `days` only shortens it. */
  lemma RecordedIsLive(rows: seq<Row>, key: Key, call: Call, later: nat, days: nat)
    requires OneEach(rows) && Recorded(rows, key, call).Some?
    ensures Live(Recorded(rows, key, call).value, key, later, days) <==>
              later < call.asked + call.days * DAY && later < call.now + days * DAY
  {
    var after := Recorded(rows, key, call).value;
    RecordedKeeps(rows, key, call);
    assert after[|after| - 1].key == key;
    var i := Find(after, key).value;
    assert forall j :: 0 <= j < |after| - 1 ==> after[j].key != after[|after| - 1].key;
    assert i == |after| - 1;
  }

  lemma RemovedKeeps(rows: seq<Row>, key: Key, call: Call)
    requires OneEach(rows) && Removed(rows, key, call).Some?
    ensures var after := Removed(rows, key, call).value;
            && OneEach(after) && |after| <= |rows|
            && (forall k :: HasRow(after, k) <==> k != key && HasRow(rows, k))
  {
    WithoutSpec(rows, key);
    if Find(rows, key).None? {
      assert !HasRow(rows, key);
    }
  }

  lemma TouchedKeeps(rows: seq<Row>, key: Key, call: Call)
    requires OneEach(rows)
    ensures OneEach(Touched(rows, key, call))
    ensures forall k :: HasRow(Touched(rows, key, call), k) <==> HasRow(rows, k)
    ensures forall k, now, days :: Live(Touched(rows, key, call), k, now, days) == Live(rows, k, now, days)
  {
    var after := Touched(rows, key, call);
    assert forall i :: 0 <= i < |rows| ==> after[i].key == rows[i].key;
    forall k ensures HasRow(after, k) <==> HasRow(rows, k) {
      if HasRow(rows, k) {
        var i :| 0 <= i < |rows| && rows[i].key == k;
        assert after[i].key == k;
      }
    }
    forall k, now, days ensures Live(after, k, now, days) == Live(rows, k, now, days) {
      FindSameKeys(rows, after, k);
      if Find(rows, k).Some? {
        var i := Find(rows, k).value;
        assert after[i].(seen := None) == rows[i].(seen := None);
      }
    }
  }

  /** The stamp that is kept says the right day, and is less than twelve hours old; any other is renewed. */
  lemma StampIsFresh(seen: Option<nat>, now: nat)
    ensures !NeedsTouch(seen, now) <==>
              seen.Some? && now < seen.value + 43_200 && seen.value / 86_400 == now / 86_400
  {
  }

  /** A stamp that is due and goes through is the broker's time, on the first row of the key, and on no other. */
  lemma TouchedStamps(rows: seq<Row>, key: Key, call: Call)
    ensures var after := Touched(rows, key, call);
            forall i :: 0 <= i < |rows| ==>
              after[i] ==
                if && rows[i].key == key && (forall j :: 0 <= j < i ==> rows[j].key != key)
                   && call.eligible && call.writes && NeedsTouch(rows[i].seen, call.asked)
                then Row(key, rows[i].start, rows[i].end, Some(call.asked), rows[i].caption) else rows[i]
  {
  }

  lemma {:induction false} FindSameKeys(a: seq<Row>, b: seq<Row>, key: Key)
    requires |a| == |b| && forall i :: 0 <= i < |a| ==> a[i].key == b[i].key
    ensures Find(a, key) == Find(b, key)
  {
    if a != [] {
      FindSameKeys(a[1..], b[1..], key);
    }
  }

  // The two halves of a request: the issuer reads the account, and later changes what it read.

  datatype Verb = Record | Remove | Stamp

  /** One delete-then-add against the account. */
  datatype Plan = Plan(taken: seq<Row>, added: seq<Row>)

  function RowsOf(rows: seq<Row>, key: Key): seq<Row> {
    if rows == [] then []
    else (if rows[0].key == key then [rows[0]] else []) + RowsOf(rows[1..], key)
  }

  /** What the request makes of the account as it reads it; nothing if it is refused. */
  function Planned(verb: Verb, rows: seq<Row>, key: Key, call: Call): Option<Plan> {
    if !call.eligible then None
    else match verb
      case Record =>
        if FreshRow(key, call).end <= call.now then None
        else if RowsOf(rows, key) == [] && |rows| + call.unreadable >= call.cap then None
        else Some(Plan(RowsOf(rows, key), [FreshRow(key, call)]))
      case Remove => Some(Plan(RowsOf(rows, key), []))
      case Stamp =>
        match Find(rows, key)
        case None => Some(Plan([], []))
        case Some(i) =>
          if NeedsTouch(rows[i].seen, call.asked)
          then Some(Plan([rows[i]], [rows[i].(seen := Some(call.asked))]))
          else Some(Plan([], []))
  }

  function Minus(rows: seq<Row>, taken: seq<Row>): seq<Row> {
    if rows == [] then []
    else (if rows[0] in taken then [] else [rows[0]]) + Minus(rows[1..], taken)
  }

  /** Deleting a value that is gone fails, and so does adding one that is there. */
  function Applied(rows: seq<Row>, plan: Plan, writes: bool): Option<seq<Row>> {
    if plan == Plan([], []) then Some(rows)
    else if !writes || exists i :: 0 <= i < |plan.taken| && plan.taken[i] !in rows then None
    else if exists i :: 0 <= i < |plan.added| && plan.added[i] in Minus(rows, plan.taken) then None
    else Some(Minus(rows, plan.taken) + plan.added)
  }

  /** A plan touches one key and adds at most one row. */
  ghost predicate PlanFor(plan: Plan, key: Key) {
    && (forall i :: 0 <= i < |plan.taken| ==> plan.taken[i].key == key)
    && (forall i :: 0 <= i < |plan.added| ==> plan.added[i].key == key)
    && |plan.added| <= 1
  }

  lemma {:induction false} RowsOfSpec(rows: seq<Row>, key: Key)
    ensures forall row :: row in RowsOf(rows, key) <==> row in rows && row.key == key
    ensures RowsOf(rows, key) == [] <==> !HasRow(rows, key)
  {
    if rows != [] {
      RowsOfSpec(rows[1..], key);
      assert rows == [rows[0]] + rows[1..];
      HasRowCons(rows[0], rows[1..]);
    }
  }

  lemma PlannedFor(verb: Verb, rows: seq<Row>, key: Key, call: Call)
    requires Planned(verb, rows, key, call).Some?
    ensures PlanFor(Planned(verb, rows, key, call).value, key)
    ensures verb == Record ==> Planned(verb, rows, key, call).value.added == [FreshRow(key, call)]
    ensures var plan := Planned(verb, rows, key, call).value;
            plan.added != [] && plan.taken == [] ==>
              verb == Record && !HasRow(rows, key) && |rows| + call.unreadable < call.cap
    ensures verb == Record ==>
              forall row :: row in Planned(verb, rows, key, call).value.taken <==> row in rows && row.key == key
  {
    RowsOfSpec(rows, key);
    var plan := Planned(verb, rows, key, call).value;
    forall i | 0 <= i < |plan.taken| ensures plan.taken[i].key == key {
      assert plan.taken[i] in plan.taken;
    }
  }

  lemma {:induction false} MinusIn(rows: seq<Row>, taken: seq<Row>)
    ensures forall row :: row in Minus(rows, taken) <==> row in rows && row !in taken
    ensures |Minus(rows, taken)| <= |rows|
    ensures (exists row :: row in taken && row in rows) ==> |Minus(rows, taken)| < |rows|
  {
    if rows != [] {
      MinusIn(rows[1..], taken);
      assert rows == [rows[0]] + rows[1..];
    }
  }

  lemma {:induction false} MinusSpec(rows: seq<Row>, taken: seq<Row>, key: Key)
    requires forall row :: row in taken ==> row.key == key
    ensures forall k :: k != key ==> (HasRow(Minus(rows, taken), k) <==> HasRow(rows, k))
    ensures OneEach(rows) ==> OneEach(Minus(rows, taken))
  {
    hide HasRow, OneEach;
    if rows != [] {
      var row, rest := rows[0], rows[1..];
      MinusSpec(rest, taken, key);
      assert rows == [row] + rest;
      HasRowCons(row, rest);
      OneEachCons(row, rest);
      if row in taken {
        assert Minus(rows, taken) == Minus(rest, taken);
      } else {
        HasRowCons(row, Minus(rest, taken));
        OneEachCons(row, Minus(rest, taken));
        MinusIn(rest, taken);
        InMeansHasRow(Minus(rest, taken), rest);
      }
    }
  }

  lemma InMeansHasRow(some: seq<Row>, all: seq<Row>)
    requires forall row :: row in some ==> row in all
    ensures forall k :: HasRow(some, k) ==> HasRow(all, k)
  {
    forall k | HasRow(some, k) ensures HasRow(all, k) {
      var i :| 0 <= i < |some| && some[i].key == k;
      assert some[i] in all;
      var j :| 0 <= j < |all| && all[j] == some[i];
      assert all[j].key == k;
    }
  }

  lemma {:induction false} MinusNothing(rows: seq<Row>)
    ensures Minus(rows, []) == rows
  {
    if rows != [] {
      MinusNothing(rows[1..]);
    }
  }

  /** Some row of the key is on the account that the plan does not take away. */
  ghost predicate Unseen(rows: seq<Row>, plan: Plan, key: Key) {
    exists row :: row in rows && row.key == key && row !in plan.taken
  }

  lemma UnseenLeft(rows: seq<Row>, plan: Plan, key: Key)
    requires PlanFor(plan, key)
    ensures HasRow(Minus(rows, plan.taken), key) <==> Unseen(rows, plan, key)
    ensures && OneEach(rows) && Unseen(rows, plan, key)
            && (forall i :: 0 <= i < |plan.taken| ==> plan.taken[i] in rows)
            ==> plan.taken == []
  {
    var left := Minus(rows, plan.taken);
    MinusIn(rows, plan.taken);
    if HasRow(left, key) {
      var i :| 0 <= i < |left| && left[i].key == key;
      assert left[i] in left;
    }
    if Unseen(rows, plan, key) {
      var row :| row in rows && row.key == key && row !in plan.taken;
      assert row in left;
      var i :| 0 <= i < |left| && left[i] == row;
      assert left[i].key == key;
      if OneEach(rows) && plan.taken != [] && plan.taken[0] in rows {
        SameKeySameRow(rows, row, plan.taken[0]);
      }
    }
  }

  lemma SameKeySameRow(rows: seq<Row>, a: Row, b: Row)
    requires OneEach(rows) && a in rows && b in rows && a.key == b.key
    ensures a == b
  {
    var i :| 0 <= i < |rows| && rows[i] == a;
    var j :| 0 <= j < |rows| && rows[j] == b;
  }

  /** What applying a plan does to the account, whatever happened since it was made. */
  lemma AppliedSpec(rows: seq<Row>, plan: Plan, key: Key, writes: bool)
    requires PlanFor(plan, key) && Applied(rows, plan, writes).Some?
    ensures var after := Applied(rows, plan, writes).value;
            && (forall k :: k != key ==> (HasRow(after, k) <==> HasRow(rows, k)))
            && (HasRow(after, key) <==> plan.added != [] || Unseen(rows, plan, key))
            && (|after| > |rows| <==> plan.added != [] && plan.taken == [])
            && |after| <= |rows| + 1
            && (OneEach(rows) ==> (OneEach(after) <==> !(plan.added != [] && plan.taken == [] && HasRow(rows, key))))
  {
    hide HasRow, OneEach, Unseen, Minus;
    var left := Minus(rows, plan.taken);
    var after := Applied(rows, plan, writes).value;
    MinusIn(rows, plan.taken);
    MinusSpec(rows, plan.taken, key);
    UnseenLeft(rows, plan, key);
    MinusNothing(rows);
    if plan.taken != [] {
      assert plan.taken[0] in plan.taken && plan.taken[0] in rows;
    }
    if plan.taken == [] {
      UnseenIsAny(rows, plan, key);
    }
    if plan.added == [] {
      assert after == left;
    } else {
      assert plan.added == [plan.added[0]];
      SnocRows(left, plan.added[0]);
    }
  }

  /** A plan that takes no row leaves every row of the key. */
  lemma UnseenIsAny(rows: seq<Row>, plan: Plan, key: Key)
    requires plan.taken == []
    ensures Unseen(rows, plan, key) <==> HasRow(rows, key)
  {
    if HasRow(rows, key) {
      var i :| 0 <= i < |rows| && rows[i].key == key;
      assert rows[i] in rows;
    }
    if Unseen(rows, plan, key) {
      var row :| row in rows && row.key == key && row !in plan.taken;
      var i :| 0 <= i < |rows| && rows[i] == row;
      assert rows[i].key == key;
    }
  }

  lemma SnocRows(rows: seq<Row>, row: Row)
    ensures OneEach(rows + [row]) <==> OneEach(rows) && !HasRow(rows, row.key)
    ensures forall k :: HasRow(rows + [row], k) <==> row.key == k || HasRow(rows, k)
  {
    var all := rows + [row];
    forall k ensures HasRow(all, k) <==> row.key == k || HasRow(rows, k) {
      if row.key == k {
        assert all[|rows|].key == k;
      }
      if HasRow(rows, k) {
        var i :| 0 <= i < |rows| && rows[i].key == k;
        assert all[i].key == k;
      }
    }
    if OneEach(all) {
      forall i, j | 0 <= i < j < |rows| ensures rows[i].key != rows[j].key {
        assert all[i].key != all[j].key;
      }
      forall i | 0 <= i < |rows| ensures rows[i].key != row.key {
        assert all[i].key != all[|rows|].key;
      }
    }
  }

  /** The key has one row and no more. */
  ghost predicate ListedOnce(rows: seq<Row>, key: Key) {
    exists i :: 0 <= i < |rows| && rows[i].key == key && forall j :: 0 <= j < |rows| && rows[j].key == key ==> j == i
  }

  /**
   A registration that goes through leaves its key listed once if and only if it takes away every row
   of the key that the account lists by then: it cures any doubling it has seen, and none it has not.
   */
  lemma RegistrationCures(rows: seq<Row>, plan: Plan, key: Key, writes: bool)
    requires PlanFor(plan, key) && plan.added != [] && Applied(rows, plan, writes).Some?
    ensures ListedOnce(Applied(rows, plan, writes).value, key) <==> !Unseen(rows, plan, key)
  {
    var left, after := Minus(rows, plan.taken), Applied(rows, plan, writes).value;
    UnseenLeft(rows, plan, key);
    assert after == left + [plan.added[0]];
    if Unseen(rows, plan, key) {
      var i :| 0 <= i < |left| && left[i].key == key;
      assert after[i].key == key && after[|left|].key == key;
    } else {
      assert after[|left|].key == key;
      assert forall j :: 0 <= j < |left| ==> after[j] == left[j];
    }
  }

  /** Undisturbed between its halves, a registration is the issuer's `grant` as a whole. */
  lemma RecordedInTwo(rows: seq<Row>, key: Key, call: Call)
    ensures var plan := Planned(Record, rows, key, call);
            Recorded(rows, key, call) == if plan.None? then None else Applied(rows, plan.value, call.writes)
  {
    RowsOfSpec(rows, key);
    if Planned(Record, rows, key, call).Some? {
      var taken := RowsOf(rows, key);
      assert forall i :: 0 <= i < |taken| ==> taken[i] in taken;
      MinusIsWithout(rows, taken, key);
      WithoutSpec(rows, key);
    }
  }

  /** The same for a removal. */
  lemma RemovedInTwo(rows: seq<Row>, key: Key, call: Call)
    ensures var plan := Planned(Remove, rows, key, call);
            Removed(rows, key, call) == if plan.None? then None else Applied(rows, plan.value, call.writes)
  {
    RowsOfSpec(rows, key);
    if call.eligible {
      var taken := RowsOf(rows, key);
      assert forall i :: 0 <= i < |taken| ==> taken[i] in taken;
      MinusIsWithout(rows, taken, key);
      WithoutSpec(rows, key);
      assert Without(rows, key) + [] == Without(rows, key);
    }
  }

  lemma {:induction false} MinusIsWithout(rows: seq<Row>, taken: seq<Row>, key: Key)
    requires forall i :: 0 <= i < |rows| ==> (rows[i] in taken <==> rows[i].key == key)
    ensures Minus(rows, taken) == Without(rows, key)
  {
    if rows != [] {
      MinusIsWithout(rows[1..], taken, key);
    }
  }
}
