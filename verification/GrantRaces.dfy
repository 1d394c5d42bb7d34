/**
 Several processes of one installation that create device grants at the same time, down to the two
 halves of each request to the issuer: a creation is in some phase, a request has been sent, has read
 the account or has changed it, and the acts of all of them interleave with those of other machines
 and operators.
 */
module GrantRaces {
  import opened Wrappers
  import opened GrantDirectory
  import opened DeviceGrant

  type CallId = nat
  type RequestId = nat

  /** What a creation is about to do. */
  datatype Phase =
    | Opening
    | Clearing                              // saw no key; about to empty the container
    | Making
    | Exporting(key: nat, isNew: bool)
    | Registering(key: nat, isNew: bool)
    | Waiting(key: nat, isNew: bool, request: RequestId)
    | Refused(key: nat)                     // no good answer for the key it made; about to delete it

  datatype Creator = Creator(account: Account, phase: Phase)

  datatype Stage = Asked | Read(plan: Plan) | Done(ok: bool)

  /** A request to the issuer lives on when its sender has given up. */
  datatype Request = Request(verb: Verb, account: Account, key: Key, terms: Call, stage: Stage)

  datatype Shared = Shared(world: World, calls: map<CallId, Creator>, requests: map<RequestId, Request>)

  /**
   `Send` to `CleanUp` are a creation's; `Ask` is anybody else's request: a revocation, an exchange that
   stamps its grant, an operator, another machine. `KeyDeleted` is a revocation or a cleared key store.
   */
  datatype Act =
    | Begin(call: CallId, account: Account)
    | OpenKey(call: CallId, opening: Opening)
    | ClearKey(call: CallId, d: Deletion)
    | MakeKey(call: CallId, provider: bool, finalizes: bool)
    | Export(call: CallId, ok: bool)
    | Send(call: CallId, request: RequestId, terms: Call)
    | Hear(call: CallId)
    | CleanUp(call: CallId, d: Deletion)
    | Die(call: CallId)
    | Ask(request: RequestId, verb: Verb, account: Account, key: Key, terms: Call)
    | IssuerReads(request: RequestId)
    | IssuerWrites(request: RequestId)
    | KeyDeleted(d: Deletion)

  /** The act is the next one of its call or its request. */
  predicate Due(s: Shared, a: Act) {
    match a
    case Begin(c, _) => c !in s.calls
    case OpenKey(c, _) => c in s.calls && s.calls[c].phase.Opening?
    case ClearKey(c, _) => c in s.calls && s.calls[c].phase.Clearing?
    case MakeKey(c, _, _) => c in s.calls && s.calls[c].phase.Making?
    case Export(c, _) => c in s.calls && s.calls[c].phase.Exporting?
    case Send(c, q, _) => c in s.calls && s.calls[c].phase.Registering? && q !in s.requests
    case Hear(c) => c in s.calls && s.calls[c].phase.Waiting?
    case CleanUp(c, _) => c in s.calls && s.calls[c].phase.Refused?
    case Die(c) => c in s.calls
    case Ask(q, verb, _, key, _) => q !in s.requests && !(verb.Record? && key.Ours?)
    case IssuerReads(q) => q in s.requests && s.requests[q].stage.Asked?
    case IssuerWrites(q) => q in s.requests && s.requests[q].stage.Read?
    case KeyDeleted(_) => true
  }

  function Goes(s: Shared, c: CallId, w: World, phase: Phase): Shared
    requires c in s.calls
  {
    s.(world := w, calls := s.calls[c := s.calls[c].(phase := phase)])
  }

  function Ends(s: Shared, c: CallId, w: World): Shared {
    s.(world := w, calls := s.calls - {c})
  }

  /** A request that does not get through, or is not allowed, is over at once. */
  function Posted(s: Shared, q: RequestId, verb: Verb, account: Account, key: Key, terms: Call): Shared {
    var stage := if terms.reaches && terms.days > 0 then Asked else Done(false);
    s.(requests := s.requests[q := Request(verb, account, key, terms, stage)])
  }

  function Reaches(s: Shared, q: RequestId, w: World, stage: Stage): Shared
    requires q in s.requests
  {
    s.(world := w, requests := s.requests[q := s.requests[q].(stage := stage)])
  }

  /** The issuer's answer was good and got back in time. */
  predicate Answered(s: Shared, q: RequestId) {
    q in s.requests && s.requests[q].stage == Done(true) && s.requests[q].terms.replies
  }

  /** What the write of request q makes of its account. */
  function WriteResult(s: Shared, q: RequestId): Option<seq<Row>>
    requires q in s.requests && s.requests[q].stage.Read?
  {
    var r := s.requests[q];
    Applied(Rows(s.world, r.account), r.stage.plan, r.terms.writes)
  }

  /** One act; one that is not due does nothing. */
  function Do(s: Shared, a: Act): Shared {
    if !Due(s, a) then s
    else match a
      case Begin(c, account) => s.(calls := s.calls[c := Creator(account, Opening)])
      case OpenKey(c, opening) =>
        (match Open(s.world, opening)
         case OpenFailed => Ends(s, c, s.world)
         case Found(key) => Goes(s, c, s.world, Exporting(key, false))
         case NoKey => Goes(s, c, s.world, Clearing))
      case ClearKey(c, d) => Goes(s, c, Delete(s.world, d).0, Making)
      case MakeKey(c, provider, finalizes) =>
        var (w, key) := Make(s.world, provider, finalizes);
        if key.Some? then Goes(s, c, w, Exporting(key.value, true)) else Ends(s, c, w)
      case Export(c, ok) =>
        var p := s.calls[c].phase;
        if ok then Goes(s, c, s.world, Registering(p.key, p.isNew)) else Ends(s, c, s.world)
      case Send(c, q, terms) =>
        var p := s.calls[c].phase;
        var s' := Posted(s, q, Record, s.calls[c].account, Ours(p.key), terms);
        Goes(s', c, s'.world, Waiting(p.key, p.isNew, q))
      case Hear(c) =>
        var p := s.calls[c].phase;
        if !Answered(s, p.request) && p.isNew then Goes(s, c, s.world, Refused(p.key)) else Ends(s, c, s.world)
      case CleanUp(c, d) => Ends(s, c, Delete(s.world, d).0)
      case Die(c) => Ends(s, c, s.world)
      case Ask(q, verb, account, key, terms) => Posted(s, q, verb, account, key, terms)
      case IssuerReads(q) =>
        var r := s.requests[q];
        var plan := Planned(r.verb, Rows(s.world, r.account), r.key, r.terms);
        Reaches(s, q, s.world, if plan.Some? then Read(plan.value) else Done(false))
      case IssuerWrites(q) =>
        var rows := WriteResult(s, q);
        Reaches(s, q, Store(s.world, s.requests[q].account, rows), Done(rows.Some?))
      case KeyDeleted(d) => s.(world := Delete(s.world, d).0)
  }

  function Performed(s: Shared, acts: seq<Act>): Shared {
    if acts == [] then s else Do(Performed(s, acts[..|acts| - 1]), acts[|acts| - 1])
  }

  const START := Shared(World(None, 0, {}, map[]), map[], map[])

  lemma {:induction false} PerformedAppend(s: Shared, a: seq<Act>, b: seq<Act>)
    ensures Performed(s, a + b) == Performed(Performed(s, a), b)
  {
    hide Do;
    if b == [] {
      assert a + b == a;
    } else {
      PerformedAppend(s, a, b[..|b| - 1]);
      assert (a + b)[..|a + b| - 1] == a + b[..|b| - 1];
    }
  }

  lemma PerformedOne(s: Shared, a: Act)
    ensures Performed(s, [a]) == Do(s, a)
  {
    hide Do;
    assert [a][..0] == [];
  }

  lemma PerformedTwo(s: Shared, a: Act, b: Act)
    ensures Performed(s, [a, b]) == Do(Do(s, a), b)
  {
    hide Do, Performed;
    PerformedOne(s, a);
    PerformedOne(Do(s, a), b);
    PerformedAppend(s, [a], [b]);
    assert [a] + [b] == [a, b];
  }

  lemma PerformedThree(s: Shared, a: Act, b: Act, c: Act)
    ensures Performed(s, [a, b, c]) == Do(Do(Do(s, a), b), c)
  {
    hide Do, Performed;
    PerformedTwo(s, a, b);
    PerformedOne(Do(Do(s, a), b), c);
    PerformedAppend(s, [a, b], [c]);
    assert [a, b] + [c] == [a, b, c];
  }

  lemma PerformedFour(s: Shared, a: Act, b: Act, c: Act, d: Act)
    ensures Performed(s, [a, b, c, d]) == Do(Do(Do(Do(s, a), b), c), d)
  {
    hide Do, Performed;
    PerformedThree(s, a, b, c);
    PerformedOne(Do(Do(Do(s, a), b), c), d);
    PerformedAppend(s, [a, b, c], [d]);
    assert [a, b, c] + [d] == [a, b, c, d];
  }

  // A creation on its own.

  /** The acts of one creation under the faults `g`, up to the key being there. */
  function ActsToKey(c: CallId, account: Account, g: Granting): seq<Act> {
    [Begin(c, account), OpenKey(c, g.opening), ClearKey(c, g.creation.clearing),
     MakeKey(c, g.creation.provider, g.creation.finalizes)]
  }

  /** The request, with the issuer's two halves. */
  function ActsToAnswer(c: CallId, q: RequestId, g: Granting): seq<Act> {
    [Export(c, g.exports), Send(c, q, g.call), IssuerReads(q), IssuerWrites(q)]
  }

  /** All of them; those that are never due fall away. */
  function ActsOf(c: CallId, q: RequestId, account: Account, g: Granting): seq<Act> {
    ActsToKey(c, account, g) + ActsToAnswer(c, q, g) + [Hear(c), CleanUp(c, g.cleanup)]
  }

  /** A creation whose acts are not interleaved with any others is the creation as a whole. */
  lemma AloneIsCreateGrant(s: Shared, c: CallId, q: RequestId, account: Account, g: Granting)
    requires c !in s.calls && q !in s.requests && g.secure
    ensures var end := Performed(s, ActsOf(c, q, account, g));
            end.world == CreateGrant(s.world, account, g).0 && end.calls == s.calls
  {
    hide Do, Performed, Register, Create, Delete;
    var first, second, third := ActsToKey(c, account, g), ActsToAnswer(c, q, g), [Hear(c), CleanUp(c, g.cleanup)];
    PerformedFour(s, first[0], first[1], first[2], first[3]);
    ToKey(s, c, account, g);
    var s1 := Performed(s, first);
    PerformedFour(s1, second[0], second[1], second[2], second[3]);
    var s2 := Performed(s1, second);
    PerformedTwo(s2, third[0], third[1]);
    PerformedAppend(s, first, second);
    PerformedAppend(s, first + second, third);
    if c in s1.calls {
      ToAnswer(s1, c, q, g);
      FromAnswer(s2, c, g);
      assert s1.calls - {c} == s.calls;
    } else {
      NothingDue(s1, c, q, g);
    }
  }

  /** The first four acts: the key is found or made, or the creation has ended. */
  lemma ToKey(s: Shared, c: CallId, account: Account, g: Granting)
    requires c !in s.calls && g.secure
    ensures var acts := ActsToKey(c, account, g);
            var end := Do(Do(Do(Do(s, acts[0]), acts[1]), acts[2]), acts[3]);
            end.requests == s.requests && match Open(s.world, g.opening)
            case OpenFailed => end == s
            case Found(key) =>
              end.world == s.world && end.calls == s.calls[c := Creator(account, Exporting(key, false))]
            case NoKey =>
              var (w, key) := Create(s.world, g.creation);
              && end.world == w
              && end.calls == if key.None? then s.calls
                              else s.calls[c := Creator(account, Exporting(key.value, true))]
  {
    hide Delete, Make;
    var acts := ActsToKey(c, account, g);
    var s1 := Do(s, acts[0]);
    var s2 := Do(s1, acts[1]);
    var s3 := Do(s2, acts[2]);
    var s4 := Do(s3, acts[3]);
    assert s.calls[c := Creator(account, Opening)] - {c} == s.calls;
    match Open(s.world, g.opening)
    case OpenFailed =>
      assert s2 == s;
    case Found(key) =>
      assert s2.calls == s.calls[c := Creator(account, Exporting(key, false))];
    case NoKey =>
      assert s3.calls == s.calls[c := Creator(account, Making)];
      assert s3.calls - {c} == s.calls;
      var key := Create(s.world, g.creation).1;
      if key.Some? {
        assert s4.calls == s.calls[c := Creator(account, Exporting(key.value, true))];
      }
  }

  lemma NothingDue(s: Shared, c: CallId, q: RequestId, g: Granting)
    requires c !in s.calls && q !in s.requests
    ensures var acts := ActsToAnswer(c, q, g);
            && Do(Do(Do(Do(s, acts[0]), acts[1]), acts[2]), acts[3]) == s
            && Do(Do(s, Hear(c)), CleanUp(c, g.cleanup)) == s
  {
  }

  /** The next four: the request was sent, and read and written at once, as one registration. */
  lemma ToAnswer(s: Shared, c: CallId, q: RequestId, g: Granting)
    requires c in s.calls && s.calls[c].phase.Exporting? && q !in s.requests
    ensures var p, account := s.calls[c].phase, s.calls[c].account;
            var acts := ActsToAnswer(c, q, g);
            var end := Do(Do(Do(Do(s, acts[0]), acts[1]), acts[2]), acts[3]);
            var (w, ok) := Register(s.world, account, Ours(p.key), g.call);
            && end.calls - {c} == s.calls - {c}
            && (if g.exports then
                  && end.world == w && Answered(end, q) == ok
                  && c in end.calls && end.calls[c].phase == Waiting(p.key, p.isNew, q)
                else end.world == s.world && c !in end.calls)
  {
    hide Planned, Applied, Recorded;
    var p, account := s.calls[c].phase, s.calls[c].account;
    RecordedInTwo(Rows(s.world, account), Ours(p.key), g.call);
    var s1 := Do(s, Export(c, g.exports));
    if g.exports {
      var s2 := Do(s1, Send(c, q, g.call));
      assert s2.calls - {c} == s.calls - {c} && s2.calls[c].phase == Waiting(p.key, p.isNew, q);
      AtOnce(s2, q);
    }
  }

  /** Reading and then writing, with nothing in between. */
  lemma AtOnce(s: Shared, q: RequestId)
    requires q in s.requests && s.requests[q].verb == Record
    requires s.requests[q].stage.Asked? || s.requests[q].stage.Done?
    ensures var r := s.requests[q];
            var end := Do(Do(s, IssuerReads(q)), IssuerWrites(q));
            var rows := if r.stage.Asked? then Recorded(Rows(s.world, r.account), r.key, r.terms) else None;
            && end.calls == s.calls && q in end.requests
            && end.requests[q] == r.(stage := if r.stage.Asked? then Done(rows.Some?) else r.stage)
            && end.world == Store(s.world, r.account, rows)
  {
    hide Planned, Applied, Recorded;
    var r := s.requests[q];
    RecordedInTwo(Rows(s.world, r.account), r.key, r.terms);
  }

  /** The last two: the creation ends, and cleans up what it made if the answer was not good. */
  lemma FromAnswer(s: Shared, c: CallId, g: Granting)
    requires c in s.calls ==> s.calls[c].phase.Waiting?
    ensures var end := Do(Do(s, Hear(c)), CleanUp(c, g.cleanup));
            && end.calls == s.calls - {c}
            && end.world == if c in s.calls && s.calls[c].phase.isNew && !Answered(s, s.calls[c].phase.request)
                            then Delete(s.world, g.cleanup).0 else s.world
  {
    hide Delete;
    if c in s.calls {
      var s1 := Do(s, Hear(c));
      assert s1.calls - {c} == s.calls - {c};
    } else {
      assert s.calls - {c} == s.calls;
    }
  }

  // What every interleaving keeps.

  /** A key the call holds on to was made at some time. */
  ghost predicate Grounded(w: World, p: Phase) {
    match p
    case Exporting(key, _) => key < w.made
    case Registering(key, _) => key < w.made
    case Waiting(key, _, _) => key < w.made
    case Refused(key) => key < w.made
    case _ => true
  }

  /** A request names a key that was made, and its plan is for that key. */
  ghost predicate Proper(w: World, r: Request) {
    && (r.verb.Record? && r.key.Ours? ==> r.key.n < w.made)
    && (r.stage.Read? ==>
          && PlanFor(r.stage.plan, r.key)
          && (r.stage.plan.added != [] && r.key.Ours? ==> r.key.n < w.made)
          && (r.stage.plan.added != [] && r.stage.plan.taken == [] ==> r.verb.Record?))
  }

  /** Every row of this installation names a key that was made. */
  ghost predicate RowsMade(w: World) {
    forall account, n: nat :: HasRow(Rows(w, account), Ours(n)) ==> n < w.made
  }

  /** The container is emptied before a key is made in it, so the held key is the newest. */
  ghost predicate Newest(w: World) {
    w.held.Some? ==> w.held.value + 1 == w.made
  }

  ghost predicate Sound(w: World) {
    KeysInv(w) && RowsMade(w) && Newest(w)
  }

  ghost predicate SharedInv(s: Shared) {
    && Sound(s.world)
    && (forall c <- s.calls :: Grounded(s.world, s.calls[c].phase))
    && (forall q <- s.requests :: Proper(s.world, s.requests[q]))
  }

  lemma DeleteKeepsSound(w: World, d: Deletion)
    requires Sound(w)
    ensures Sound(Delete(w, d).0) && Delete(w, d).0.made == w.made && Delete(w, d).0.directory == w.directory
  {
    var w' := Delete(w, d).0;
    assert forall account :: Rows(w', account) == Rows(w, account);
  }

  lemma MakeKeepsSound(w: World, provider: bool, finalizes: bool)
    requires Sound(w)
    ensures Sound(Make(w, provider, finalizes).0)
  {
    var w' := Make(w, provider, finalizes).0;
    assert forall account :: Rows(w', account) == Rows(w, account);
  }

  lemma WriteKeepsSound(s: Shared, q: RequestId)
    requires Sound(s.world) && q in s.requests && s.requests[q].stage.Read? && Proper(s.world, s.requests[q])
    ensures Sound(Store(s.world, s.requests[q].account, WriteResult(s, q)))
  {
    hide Applied;
    var r := s.requests[q];
    var rows, after := Rows(s.world, r.account), WriteResult(s, q);
    var w' := Store(s.world, r.account, after);
    if after.Some? {
      AppliedSpec(rows, r.stage.plan, r.key, r.terms.writes);
      forall account, n: nat | HasRow(Rows(w', account), Ours(n)) ensures n < w'.made {
        if account == r.account && Ours(n) == r.key && r.stage.plan.added == [] {
          assert HasRow(rows, Ours(n)) by { UnseenIsListed(rows, r.stage.plan, r.key); }
        }
        assert account == r.account ==> Rows(w', account) == after.value;
        assert account != r.account ==> Rows(w', account) == Rows(s.world, account);
      }
    }
  }

  lemma UnseenIsListed(rows: seq<Row>, plan: Plan, key: Key)
    requires Unseen(rows, plan, key)
    ensures HasRow(rows, key)
  {
    var row :| row in rows && row.key == key && row !in plan.taken;
    var i :| 0 <= i < |rows| && rows[i] == row;
    assert rows[i].key == key;
  }

  /** The world after any act: sound, and at most one key more. */
  lemma DoKeepsWorld(s: Shared, a: Act)
    requires SharedInv(s)
    ensures Sound(Do(s, a).world)
    ensures s.world.made <= Do(s, a).world.made
    ensures Do(s, a).world.made > s.world.made ==>
              && a.MakeKey? && Due(s, a) && Do(s, a).world.made == s.world.made + 1
              && Do(s, a).world.held == Some(s.world.made)
              && Do(s, a).calls == s.calls[a.call := s.calls[a.call].(phase := Exporting(s.world.made, true))]
  {
    hide Planned, Applied, KeysInv, RowsMade, Newest;
    if Due(s, a) {
      match a
      case ClearKey(c, d) => DeleteKeepsSound(s.world, d);
      case MakeKey(c, provider, finalizes) => MakeKeepsSound(s.world, provider, finalizes);
      case CleanUp(c, d) => DeleteKeepsSound(s.world, d);
      case IssuerWrites(q) => WriteKeepsSound(s, q);
      case KeyDeleted(d) => DeleteKeepsSound(s.world, d);
      case _ =>
    }
  }

  lemma DoKeepsInv(s: Shared, a: Act)
    requires SharedInv(s)
    ensures SharedInv(Do(s, a))
  {
    hide Sound, Planned, Applied, PlanFor;
    DoKeepsWorld(s, a);
    var s' := Do(s, a);
    forall c <- s'.calls ensures Grounded(s'.world, s'.calls[c].phase) {
      if c in s.calls {
        assert Grounded(s.world, s.calls[c].phase);
      }
      if a.OpenKey? && a.call == c && Due(s, a) {
        FoundIsMade(s.world, a.opening);
      }
    }
    forall q <- s'.requests ensures Proper(s'.world, s'.requests[q]) {
      if q in s.requests {
        assert Proper(s.world, s.requests[q]);
      }
      if a.IssuerReads? && a.request == q && Due(s, a) {
        ReadIsProper(s, q);
      }
      if a.Send? && Due(s, a) {
        assert Grounded(s.world, s.calls[a.call].phase);
      }
    }
  }

  lemma ReadIsProper(s: Shared, q: RequestId)
    requires Sound(s.world) && q in s.requests && Proper(s.world, s.requests[q])
    ensures var r := s.requests[q];
            var plan := Planned(r.verb, Rows(s.world, r.account), r.key, r.terms);
            plan.Some? ==> Proper(s.world, r.(stage := Read(plan.value)))
  {
    var r := s.requests[q];
    var rows := Rows(s.world, r.account);
    if Planned(r.verb, rows, r.key, r.terms).Some? {
      PlannedFor(r.verb, rows, r.key, r.terms);
      var i := Find(rows, r.key);
      if r.verb.Stamp? && i.Some? {
        assert HasRow(rows, r.key);
      }
    }
  }

  lemma FoundIsMade(w: World, o: Opening)
    requires Sound(w)
    ensures Open(w, o).Found? ==> Open(w, o).key < w.made
  {
  }

  lemma {:induction false} PerformedKeepsInv(acts: seq<Act>)
    ensures SharedInv(Performed(START, acts))
  {
    hide SharedInv, Do;
    if acts == [] {
      StartIsInv();
    } else {
      PerformedKeepsInv(acts[..|acts| - 1]);
      DoKeepsInv(Performed(START, acts[..|acts| - 1]), acts[|acts| - 1]);
    }
  }

  lemma StartIsInv()
    ensures SharedInv(START)
  {
  }

  /** That a row names the held key or a destroyed one holds between any two acts of any interleaving. */
  lemma RowsSurviveInterleaving(acts: seq<Act>, account: Account)
    ensures var w := Performed(START, acts).world; AllHeldOrDestroyed(w, Rows(w, account))
  {
    PerformedKeepsInv(acts);
    var w := Performed(START, acts).world;
    var rows := Rows(w, account);
    forall i | 0 <= i < |rows| && rows[i].key.Ours?
      ensures Usable(w, rows[i]) != (rows[i].key.n in w.destroyed)
    {
      assert HasRow(rows, Ours(rows[i].key.n));
    }
  }

  // Whose key a cleanup destroys.

  /** Act i made this key. */
  ghost predicate Makes(acts: seq<Act>, i: nat, key: nat) {
    && i < |acts| && acts[i].MakeKey?
    && Performed(START, acts[..i]).world.made == key
    && Performed(START, acts[..i + 1]).world.made == key + 1
  }

  lemma PerformedStep(acts: seq<Act>, i: nat)
    requires i < |acts|
    ensures Performed(START, acts[..i + 1]) == Do(Performed(START, acts[..i]), acts[i])
    ensures SharedInv(Performed(START, acts[..i]))
  {
    assert acts[..i + 1][..i] == acts[..i];
    PerformedKeepsInv(acts[..i]);
  }

  lemma {:induction false} MadeGrows(acts: seq<Act>, i: nat, j: nat)
    requires i <= j <= |acts|
    ensures Performed(START, acts[..i]).world.made <= Performed(START, acts[..j]).world.made
    decreases j
  {
    hide Do, SharedInv;
    if i < j {
      MadeGrows(acts, i, j - 1);
      PerformedStep(acts, j - 1);
      DoKeepsWorld(Performed(START, acts[..j - 1]), acts[j - 1]);
    }
  }

  /** Every key has its making, and keys are numbered in the order of their makings. */
  lemma {:induction false} MakingOf(acts: seq<Act>, n: nat, key: nat)
    requires n <= |acts| && key < Performed(START, acts[..n]).world.made
    ensures exists i: nat :: i < n && Makes(acts, i, key)
  {
    hide Do, SharedInv;
    assert acts[..0] == [];
    if n > 0 {
      PerformedStep(acts, n - 1);
      DoKeepsWorld(Performed(START, acts[..n - 1]), acts[n - 1]);
      if key < Performed(START, acts[..n - 1]).world.made {
        MakingOf(acts, n - 1, key);
      } else {
        assert Makes(acts, n - 1, key);
      }
    }
  }

  lemma MakingsInOrder(acts: seq<Act>, i: nat, k: nat, j: nat, h: nat)
    requires Makes(acts, i, k) && Makes(acts, j, h)
    ensures i < j <==> k < h
  {
    hide Performed;
    if i < j {
      MadeGrows(acts, i + 1, j);
    } else if j < i {
      MadeGrows(acts, j + 1, i);
    }
  }

  /** The call holds on to a key it made itself. */
  predicate OwnKey(p: Phase, key: nat) {
    || p == Exporting(key, true) || p == Registering(key, true) || p == Refused(key)
    || (p.Waiting? && p.key == key && p.isNew)
  }

  /** Act i, of call c, made the key, and c made none since. */
  ghost predicate MadeByCall(acts: seq<Act>, n: nat, i: nat, c: CallId, key: nat) {
    && i < n <= |acts| && Makes(acts, i, key) && acts[i].call == c
    && forall j: nat, h :: i < j < n && Makes(acts, j, h) ==> acts[j].call != c
  }

  lemma {:induction false} OwnKeyOrigin(acts: seq<Act>, n: nat, c: CallId, key: nat)
    requires n <= |acts|
    requires var s := Performed(START, acts[..n]); c in s.calls && OwnKey(s.calls[c].phase, key)
    ensures exists i: nat :: MadeByCall(acts, n, i, c, key)
  {
    hide Performed, SharedInv;
    if n == 0 {
      assert acts[..0] == [];
      NothingAtStart();
    } else {
      var s, a := Performed(START, acts[..n - 1]), acts[n - 1];
      PerformedStep(acts, n - 1);
      DoKeepsWorld(s, a);
      if a.MakeKey? && a.call == c && Do(s, a).world.made > s.world.made {
        assert Makes(acts, n - 1, s.world.made);
        assert MadeByCall(acts, n, n - 1, c, key);
      } else {
        OwnKeyStep(s, a, c, key);
        OwnKeyOrigin(acts, n - 1, c, key);
        var i: nat :| MadeByCall(acts, n - 1, i, c, key);
        assert MadeByCall(acts, n, i, c, key);
      }
    }
  }

  lemma NothingAtStart()
    ensures Performed(START, []).calls == map[]
  {
  }

  /** Only making gives a call a key of its own. */
  lemma OwnKeyStep(s: Shared, a: Act, c: CallId, key: nat)
    requires c in Do(s, a).calls && OwnKey(Do(s, a).calls[c].phase, key)
    requires !(a.MakeKey? && a.call == c && Do(s, a).world.made > s.world.made)
    ensures c in s.calls && OwnKey(s.calls[c].phase, key)
  {
    hide Planned, Applied;
  }

  /** The cleanup destroys a key other than the one its call made. */
  ghost predicate TakesAnother(s: Shared, c: CallId, d: Deletion)
    requires c in s.calls && s.calls[c].phase.Refused?
  {
    exists h :: h in Do(s, CleanUp(c, d)).world.destroyed && h !in s.world.destroyed && h != s.calls[c].phase.key
  }

  /** The key in the container was made after this one, by another call. */
  ghost predicate HeldIsYounger(acts: seq<Act>, c: CallId, key: nat) {
    exists i: nat, j: nat, h: nat ::
      && Performed(START, acts).world.held == Some(h)
      && MadeByCall(acts, |acts|, i, c, key) && i < j && Makes(acts, j, h) && acts[j].call != c
  }

  /**
   For every interleaving: the cleanup of a refused creation takes a key other than the one the
   creation made if and only if the deletion goes through and the key it then finds was made after
   that one, which another call did.
   */
  lemma CleanupTakesAnotherIff(acts: seq<Act>, c: CallId, d: Deletion)
    requires var s := Performed(START, acts); c in s.calls && s.calls[c].phase.Refused?
    ensures var s := Performed(START, acts);
            TakesAnother(s, c, d) <==> d.opening.Sees? && d.deletes && HeldIsYounger(acts, c, s.calls[c].phase.key)
  {
    hide Performed;
    var s := Performed(START, acts);
    var key := s.calls[c].phase.key;
    PerformedKeepsInv(acts);
    assert acts[..|acts|] == acts;
    OwnKeyOrigin(acts, |acts|, c, key);
    var i: nat :| MadeByCall(acts, |acts|, i, c, key);
    if TakesAnother(s, c, d) {
      var h := s.world.held.value;
      MakingOf(acts, |acts|, h);
      var j: nat :| j < |acts| && Makes(acts, j, h);
      MakingsInOrder(acts, i, key, j, h);
      assert HeldIsYounger(acts, c, key);
    }
    if d.opening.Sees? && d.deletes && HeldIsYounger(acts, c, key) {
      var i': nat, j: nat, h: nat :|
        && s.world.held == Some(h)
        && MadeByCall(acts, |acts|, i', c, key) && i' < j && Makes(acts, j, h) && acts[j].call != c;
      MakingsInOrder(acts, i', key, j, h);
      assert h in Do(s, CleanUp(c, d)).world.destroyed;
    }
  }

  // Two creations that find no key.

  /** A deletion that goes through. */
  const GONE := Deletion(Sees, true)

  /** Two creations have begun. */
  predicate BothBegun(s: Shared, c: CallId, d: CallId) {
    c != d && c in s.calls && d in s.calls && s.calls[c].phase == Opening && s.calls[d].phase == Opening
  }

  /** A registration that nothing gets in the way of. */
  predicate Smooth(terms: Call) {
    && terms.reaches && terms.eligible && terms.writes && terms.replies && terms.days > 0
    && terms.now < terms.asked + terms.days * DAY
  }

  /** Both look for a key and see none; c makes one and exports it. */
  function FirstMakes(c: CallId, d: CallId): seq<Act> {
    [OpenKey(c, Sees), OpenKey(d, Sees)] + [ClearKey(c, GONE), MakeKey(c, true, true), Export(c, true)]
  }

  /** d clears that key away for its own, and registers its own. */
  function SecondRegisters(d: CallId, q: RequestId, terms: Call): seq<Act> {
    [ClearKey(d, GONE), MakeKey(d, true, true), Export(d, true)]
    + [Send(d, q, terms), IssuerReads(q), IssuerWrites(q), Hear(d)]
  }

  /** c does not get through to the broker and cleans up. */
  function FirstCleans(c: CallId, q: RequestId, terms: Call): seq<Act> {
    [Send(c, q, terms.(reaches := false)), Hear(c), CleanUp(c, GONE)]
  }

  lemma FirstMakesRun(s: Shared, c: CallId, d: CallId)
    requires BothBegun(s, c, d) && s.world.held == None
    ensures var end := Performed(s, FirstMakes(c, d));
            && end.requests == s.requests
            && end.world == s.world.(held := Some(s.world.made), made := s.world.made + 1)
            && end.calls == s.calls[d := s.calls[d].(phase := Clearing)]
                                   [c := s.calls[c].(phase := Registering(s.world.made, true))]
  {
    var s1 := Do(Do(s, OpenKey(c, Sees)), OpenKey(d, Sees));
    assert s1.calls == s.calls[c := s.calls[c].(phase := Clearing)][d := s.calls[d].(phase := Clearing)];
    var s2 := Do(Do(Do(s1, ClearKey(c, GONE)), MakeKey(c, true, true)), Export(c, true));
    assert s2.calls == s.calls[d := s.calls[d].(phase := Clearing)]
                              [c := s.calls[c].(phase := Registering(s.world.made, true))];
    hide Do, Performed;
    PerformedTwo(s, OpenKey(c, Sees), OpenKey(d, Sees));
    PerformedThree(s1, ClearKey(c, GONE), MakeKey(c, true, true), Export(c, true));
    PerformedAppend(s, [OpenKey(c, Sees), OpenKey(d, Sees)],
                    [ClearKey(c, GONE), MakeKey(c, true, true), Export(c, true)]);
  }

  lemma SecondMakes(s: Shared, d: CallId)
    requires d in s.calls && s.world.held.Some? && s.calls[d].phase == Clearing
    ensures var end := Do(Do(Do(s, ClearKey(d, GONE)), MakeKey(d, true, true)), Export(d, true));
            && end.requests == s.requests
            && end.world.held == Some(s.world.made) && end.world.directory == s.world.directory
            && end.calls == s.calls[d := s.calls[d].(phase := Registering(s.world.made, true))]
  {
    var s1 := Do(s, ClearKey(d, GONE));
    var s2 := Do(s1, MakeKey(d, true, true));
    assert s1.world.held == None && s2.calls[d].phase == Exporting(s.world.made, true);
  }

  lemma Registers(s: Shared, d: CallId, q: RequestId, terms: Call)
    requires d in s.calls && s.calls[d].phase.Registering? && q !in s.requests && Smooth(terms)
    requires Recorded(Rows(s.world, s.calls[d].account), Ours(s.calls[d].phase.key), terms).Some?
    ensures var account, key := s.calls[d].account, Ours(s.calls[d].phase.key);
            var end := Do(Do(Do(Do(s, Send(d, q, terms)), IssuerReads(q)), IssuerWrites(q)), Hear(d));
            && end.calls == s.calls - {d} && end.requests.Keys == s.requests.Keys + {q}
            && end.world == Store(s.world, account, Recorded(Rows(s.world, account), key, terms))
  {
    hide Recorded, Planned, Applied;
    var s1 := Do(s, Send(d, q, terms));
    assert s1.calls - {d} == s.calls - {d} && s1.world == s.world && s1.requests[q].stage == Asked;
    AtOnce(s1, q);
    AtOnceKeys(s1, q);
    var s2 := Do(Do(s1, IssuerReads(q)), IssuerWrites(q));
    HearsWell(s2, d);
  }

  lemma AtOnceKeys(s: Shared, q: RequestId)
    requires q in s.requests
    ensures Do(Do(s, IssuerReads(q)), IssuerWrites(q)).requests.Keys == s.requests.Keys
  {
    hide Planned, Applied;
  }

  lemma HearsWell(s: Shared, d: CallId)
    requires d in s.calls && s.calls[d].phase.Waiting? && Answered(s, s.calls[d].phase.request)
    ensures Do(s, Hear(d)) == s.(calls := s.calls - {d})
  {
  }

  lemma SecondRegistersRun(s: Shared, d: CallId, q: RequestId, terms: Call)
    requires d in s.calls && s.world.held.Some? && s.calls[d].phase == Clearing && q !in s.requests && Smooth(terms)
    requires Recorded(Rows(s.world, s.calls[d].account), Ours(s.world.made), terms).Some?
    ensures var account, key := s.calls[d].account, s.world.made;
            var end := Performed(s, SecondRegisters(d, q, terms));
            && end.calls == s.calls - {d} && end.requests.Keys == s.requests.Keys + {q}
            && end.world.held == Some(key) && HasRow(Rows(end.world, account), Ours(key))
  {
    hide Do, Performed, Recorded;
    var account, key := s.calls[d].account, s.world.made;
    var first := [ClearKey(d, GONE), MakeKey(d, true, true), Export(d, true)];
    PerformedThree(s, first[0], first[1], first[2]);
    SecondMakes(s, d);
    var s1 := Performed(s, first);
    assert Rows(s1.world, account) == Rows(s.world, account);
    Registers(s1, d, q, terms);
    PerformedFour(s1, Send(d, q, terms), IssuerReads(q), IssuerWrites(q), Hear(d));
    PerformedAppend(s, first, [Send(d, q, terms), IssuerReads(q), IssuerWrites(q), Hear(d)]);
    assert s1.calls - {d} == s.calls - {d};
    RecordedHasRow(Rows(s.world, account), Ours(key), terms);
  }

  lemma RecordedHasRow(rows: seq<Row>, key: Key, terms: Call)
    requires Recorded(rows, key, terms).Some?
    ensures HasRow(Recorded(rows, key, terms).value, key)
  {
    var after := Recorded(rows, key, terms).value;
    assert after[|after| - 1].key == key;
  }

  lemma FirstCleansRun(s: Shared, c: CallId, q: RequestId, terms: Call)
    requires c in s.calls && s.calls[c].phase.Registering? && s.calls[c].phase.isNew && q !in s.requests
    requires s.world.held.Some?
    ensures var end := Performed(s, FirstCleans(c, q, terms));
            && end.calls == s.calls - {c} && end.world.directory == s.world.directory
            && end.world.held == None && end.world.destroyed == s.world.destroyed + {s.world.held.value}
  {
    var s1 := Do(s, Send(c, q, terms.(reaches := false)));
    var s2 := Do(s1, Hear(c));
    var s3 := Do(s2, CleanUp(c, GONE));
    assert s2.calls[c].phase.Refused? && s2.calls - {c} == s.calls - {c};
    hide Do, Performed;
    PerformedThree(s, Send(c, q, terms.(reaches := false)), Hear(c), CleanUp(c, GONE));
  }

  /**
   From every state in which two creations have begun without a key, whatever the accounts: these acts
   are a run of the two, and they end with the key that was registered destroyed.
   */
  lemma RacingCreatesLoseKey(s: Shared, c: CallId, d: CallId, p: RequestId, q: RequestId, terms: Call)
    requires BothBegun(s, c, d) && s.world.held == None
    requires p != q && p !in s.requests && q !in s.requests && Smooth(terms)
    requires Recorded(Rows(s.world, s.calls[d].account), Ours(s.world.made + 1), terms).Some?
    ensures var end := Performed(s, FirstMakes(c, d) + SecondRegisters(d, q, terms) + FirstCleans(c, p, terms));
            && c !in end.calls && d !in end.calls
            && end.world.held == None && s.world.made + 1 in end.world.destroyed
            && HasRow(Rows(end.world, s.calls[d].account), Ours(s.world.made + 1))
  {
    hide Recorded, Performed, FirstMakes, SecondRegisters, FirstCleans;
    var account := s.calls[d].account;
    FirstMakesRun(s, c, d);
    var s1 := Performed(s, FirstMakes(c, d));
    assert Rows(s1.world, account) == Rows(s.world, account);
    SecondRegistersRun(s1, d, q, terms);
    var s2 := Performed(s1, SecondRegisters(d, q, terms));
    FirstCleansRun(s2, c, p, terms);
    var s3 := Performed(s2, FirstCleans(c, p, terms));
    assert Rows(s3.world, account) == Rows(s2.world, account);
    PerformedAppend(s, FirstMakes(c, d), SecondRegisters(d, q, terms));
    PerformedAppend(s, FirstMakes(c, d) + SecondRegisters(d, q, terms), FirstCleans(c, p, terms));
  }
}
