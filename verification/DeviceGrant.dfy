/**
 The device-grant lifecycle of one installation: the machine's key store, the directory rows the
 broker keeps for it, and the client's create, exchange and revoke over both. Every foreign call
 carries its outcome as a parameter, so a run is any sequence of operations in which any call may
 fail, any reply may be lost, and the key store may fail to see a key that is there.
 */
module DeviceGrant {
  import opened Wrappers
  import opened GrantDirectory

  type Account = string

  /** `destroyed` is only ever extended by the deletion of a key. */
  datatype World = World(held: Option<nat>, made: nat, destroyed: set<nat>, directory: map<Account, seq<Row>>)

  function Rows(w: World, account: Account): seq<Row> {
    if account in w.directory then w.directory[account] else []
  }

  // The key store.

  /** Opening: the provider is down, the key is not seen though it may be there, or the truth. */
  datatype Opening = Down | Blind | Sees

  datatype Opened = OpenFailed | NoKey | Found(key: nat)

  function Open(w: World, o: Opening): Opened {
    match o
    case Down => OpenFailed
    case Blind => NoKey
    case Sees => if w.held.Some? then Found(w.held.value) else NoKey
  }

  datatype Deletion = Deletion(opening: Opening, deletes: bool)

  /** The store after deleting, and whether the deletion reported success. */
  function Delete(w: World, d: Deletion): (World, bool) {
    match Open(w, d.opening)
    case OpenFailed => (w, false)
    case NoKey => (w, true)
    case Found(key) =>
      if d.deletes then (w.(held := None, destroyed := w.destroyed + {key}), true) else (w, false)
  }

  datatype Creation = Creation(clearing: Deletion, provider: bool, finalizes: bool)

  /** A new key needs an empty container; the container is cleared first, best effort. */
  function Create(w: World, c: Creation): (World, Option<nat>) {
    Make(Delete(w, c.clearing).0, c.provider, c.finalizes)
  }

  function Make(w: World, provider: bool, finalizes: bool): (World, Option<nat>) {
    if !provider || w.held.Some? || !finalizes then (w, None)
    else (w.(held := Some(w.made), made := w.made + 1), Some(w.made))
  }

  // The broker, as this machine reaches it.

  function Store(w: World, account: Account, rows: Option<seq<Row>>): World {
    if rows.Some? then w.(directory := w.directory[account := rows.value]) else w
  }

  /** Registers a key on an account; the reply may be lost after the write. */
  function Register(w: World, account: Account, key: Key, call: Call): (World, bool) {
    if !call.reaches || call.days == 0 then (w, false)
    else
      var rows := Recorded(Rows(w, account), key, call);
      (Store(w, account, rows), rows.Some? && call.replies)
  }

  /** A machine may only remove the grant its own key names, and only one the account lists. */
  function Withdraw(w: World, account: Account, signer: nat, id: Key, call: Call): (World, bool) {
    if !call.reaches || call.days == 0 || id != Ours(signer) || Find(Rows(w, account), id).None? then (w, false)
    else
      var rows := Removed(Rows(w, account), id, call);
      (Store(w, account, rows), rows.Some? && call.replies)
  }

  // The client's three operations.

  datatype Granting = Granting(secure: bool, opening: Opening, creation: Creation, exports: bool,
                               call: Call, cleanup: Deletion)

  datatype Outcome = LocalError | BrokerError | Authorized(key: nat)

  function CreateGrant(w: World, account: Account, g: Granting): (World, Outcome) {
    if !g.secure then (w, LocalError)
    else
      match Open(w, g.opening)
      case OpenFailed => (w, LocalError)
      case Found(key) => RegisterKey(w, account, key, false, g)
      case NoKey =>
        var (made, key) := Create(w, g.creation);
        if key.None? then (made, LocalError) else RegisterKey(made, account, key.value, true, g)
  }

  function RegisterKey(w: World, account: Account, key: nat, isNew: bool, g: Granting): (World, Outcome) {
    if !g.exports then (w, LocalError)
    else
      var (after, ok) := Register(w, account, Ours(key), g.call);
      if ok then (after, Authorized(key))
      else if isNew then (Delete(after, g.cleanup).0, BrokerError)
      else (after, BrokerError)
  }

  datatype Grant = Grant(id: Key, identity: Account)

  /** What signing an assertion meets: opening the key, fetching a nonce, and the signature. */
  datatype Signing = Signing(opening: Opening, nonce: bool, signs: bool)

  function Signer(w: World, s: Signing): Option<nat> {
    match Open(w, s.opening)
    case Found(key) => if s.nonce && s.signs then Some(key) else None
    case _ => None
  }

  datatype Revoking = Revoking(online: bool, signing: Signing, deletion: Deletion, call: Call)

  function RevokeThisDevice(w: World, grant: Grant, r: Revoking): (World, bool) {
    var signer := if r.online then Signer(w, r.signing) else None;
    var deleted := Delete(w, r.deletion).0;
    if signer.Some? then Withdraw(deleted, grant.identity, signer.value, grant.id, r.call) else (deleted, false)
  }

  datatype Exchanging = Exchanging(secure: bool, signing: Signing, issues: bool, call: Call)

  /** The broker issues a ticket, and stamps the grant, when the key is live on the account named. */
  function ExchangeGrant(w: World, grant: Grant, x: Exchanging): (World, bool) {
    if !x.secure then (w, false)
    else
      match Signer(w, x.signing)
      case None => (w, false)
      case Some(key) =>
        var rows := Rows(w, grant.identity);
        if x.call.reaches && x.call.days > 0 && x.call.eligible && x.issues
           && Live(rows, Ours(key), x.call.asked, x.call.days)
        then (Store(w, grant.identity, Some(Touched(rows, Ours(key), x.call))), x.call.replies)
        else (w, false)
  }

  /** The imperative form: each method makes its calls in the order the client does. */
  class Machine {
    var held: Option<nat>
    var made: nat
    ghost var destroyed: set<nat>
    var directory: map<Account, seq<Row>>

    ghost function Now(): World
      reads this
    {
      World(held, made, destroyed, directory)
    }

    constructor ()
      ensures Now() == World(None, 0, {}, map[])
    {
      held, made, destroyed, directory := None, 0, {}, map[];
    }

    method OpenKey(o: Opening) returns (r: Opened)
      ensures r == Open(Now(), o)
    {
      match o
      case Down => r := OpenFailed;
      case Blind => r := NoKey;
      case Sees => r := if held.Some? then Found(held.value) else NoKey;
    }

    method DeleteKey(d: Deletion) returns (ok: bool)
      modifies this
      ensures (Now(), ok) == Delete(old(Now()), d)
    {
      var seen := OpenKey(d.opening);
      if seen.OpenFailed? {
        return false;
      }
      if seen.NoKey? {
        return true;
      }
      ok := d.deletes;
      if ok {
        held, destroyed := None, destroyed + {seen.key};
      }
    }

    method CreateKey(c: Creation) returns (key: Option<nat>)
      modifies this
      ensures (Now(), key) == Create(old(Now()), c)
    {
      var _ := DeleteKey(c.clearing);
      if !c.provider || held.Some? || !c.finalizes {
        return None;
      }
      key := Some(made);
      held, made := key, made + 1;
    }

    method Write(account: Account, rows: Option<seq<Row>>)
      modifies this`directory
      ensures Now() == Store(old(Now()), account, rows)
    {
      if rows.Some? {
        directory := directory[account := rows.value];
      }
    }

    method RegisterDevice(account: Account, key: Key, call: Call) returns (ok: bool)
      modifies this`directory
      ensures (Now(), ok) == Register(old(Now()), account, key, call)
    {
      if !call.reaches || call.days == 0 {
        return false;
      }
      var rows := Recorded(if account in directory then directory[account] else [], key, call);
      Write(account, rows);
      ok := rows.Some? && call.replies;
    }

    method Authorize(account: Account, g: Granting) returns (outcome: Outcome)
      modifies this
      ensures (Now(), outcome) == CreateGrant(old(Now()), account, g)
    {
      hide Recorded;
      if !g.secure {
        return LocalError;
      }
      var seen := OpenKey(g.opening);
      if seen.OpenFailed? {
        return LocalError;
      }
      var key: nat, isNew := 0, seen.NoKey?;
      if seen.Found? {
        key := seen.key;
      } else {
        var created := CreateKey(g.creation);
        if created.None? {
          return LocalError;
        }
        key := created.value;
      }
      if !g.exports {
        return LocalError;
      }
      var ok := RegisterDevice(account, Ours(key), g.call);
      if ok {
        return Authorized(key);
      }
      if isNew {
        var _ := DeleteKey(g.cleanup);
      }
      outcome := BrokerError;
    }

    method Revoke(grant: Grant, r: Revoking) returns (told: bool)
      modifies this
      ensures (Now(), told) == RevokeThisDevice(old(Now()), grant, r)
    {
      hide Removed, Find;
      var signer: Option<nat> := None;
      if r.online {
        var seen := OpenKey(r.signing.opening);
        if seen.Found? && r.signing.nonce && r.signing.signs {
          signer := Some(seen.key);
        }
      }
      var _ := DeleteKey(r.deletion);
      if signer.None? {
        return false;
      }
      var rows := if grant.identity in directory then directory[grant.identity] else [];
      if !r.call.reaches || r.call.days == 0 || grant.id != Ours(signer.value) || Find(rows, grant.id).None? {
        return false;
      }
      var left := Removed(rows, grant.id, r.call);
      Write(grant.identity, left);
      told := left.Some? && r.call.replies;
    }

    method Exchange(grant: Grant, x: Exchanging) returns (ok: bool)
      modifies this`directory
      ensures (Now(), ok) == ExchangeGrant(old(Now()), grant, x)
    {
      hide Touched, Live;
      if !x.secure {
        return false;
      }
      var seen := OpenKey(x.signing.opening);
      if !seen.Found? || !x.signing.nonce || !x.signing.signs {
        return false;
      }
      var rows := if grant.identity in directory then directory[grant.identity] else [];
      if !x.call.reaches || x.call.days == 0 || !x.call.eligible || !x.issues {
        return false;
      }
      if !Live(rows, Ours(seen.key), x.call.asked, x.call.days) {
        return false;
      }
      Write(grant.identity, Some(Touched(rows, Ours(seen.key), x.call)));
      ok := x.call.replies;
    }
  }

  // Every run.

  /** `Lost` is a cleared key store; `Other` and `Swept` are other devices and operators at the directory. */
  datatype Event =
    | Granted(account: Account, g: Granting)
    | Revoked(grant: Grant, r: Revoking)
    | Exchanged(grant: Grant, x: Exchanging)
    | Lost
    | Other(account: Account, device: nat, call: Call)
    | Swept(account: Account, key: Key)

  function Step(w: World, e: Event): World {
    match e
    case Granted(account, g) => CreateGrant(w, account, g).0
    case Revoked(grant, r) => RevokeThisDevice(w, grant, r).0
    case Exchanged(grant, x) => ExchangeGrant(w, grant, x).0
    case Lost => Delete(w, Deletion(Sees, true)).0
    case Other(account, device, call) => Register(w, account, Foreign(device), call).0
    case Swept(account, key) => Store(w, account, Some(Without(Rows(w, account), key)))
  }

  function Run(es: seq<Event>): World {
    if es == [] then World(None, 0, {}, map[]) else Step(Run(es[..|es| - 1]), es[|es| - 1])
  }

  ghost predicate KeysInv(w: World) {
    && (forall n: nat :: n < w.made <==> n in w.destroyed || w.held == Some(n))
    && (w.held.Some? ==> w.held.value !in w.destroyed)
  }

  ghost predicate RowsInv(rows: seq<Row>, made: nat) {
    && OneEach(rows)
    && (forall n: nat :: HasRow(rows, Ours(n)) ==> n < made)
  }

  ghost predicate Inv(w: World) {
    && KeysInv(w)
    && (forall account :: RowsInv(Rows(w, account), w.made))
  }

  lemma DeleteKeeps(w: World, d: Deletion)
    requires Inv(w)
    ensures var w' := Delete(w, d).0; Inv(w') && w'.made == w.made && w'.directory == w.directory
  {
    var w' := Delete(w, d).0;
    assert forall account :: Rows(w', account) == Rows(w, account);
  }

  lemma CreateKeeps(w: World, c: Creation)
    requires Inv(w)
    ensures Inv(Create(w, c).0)
    ensures var (w', key) := Create(w, c); key.Some? ==> w'.held == key && key.value < w'.made
  {
    DeleteKeeps(w, c.clearing);
    MakeKeeps(Delete(w, c.clearing).0, c.provider, c.finalizes);
  }

  lemma MakeKeeps(w: World, provider: bool, finalizes: bool)
    requires Inv(w)
    ensures Inv(Make(w, provider, finalizes).0)
    ensures var (w', key) := Make(w, provider, finalizes); key.Some? ==> w'.held == key && key.value < w'.made
  {
    var w' := Make(w, provider, finalizes).0;
    assert forall account :: Rows(w', account) == Rows(w, account);
    assert forall account :: RowsInv(Rows(w, account), w.made);
  }

  lemma StoreKeeps(w: World, account: Account, rows: Option<seq<Row>>)
    requires Inv(w) && (rows.Some? ==> RowsInv(rows.value, w.made))
    ensures Inv(Store(w, account, rows))
  {
    hide RowsInv;
    var w' := Store(w, account, rows);
    forall a ensures RowsInv(Rows(w', a), w'.made) {
      assert RowsInv(Rows(w, a), w.made);
    }
  }

  lemma RegisterKeepsInv(w: World, account: Account, key: Key, call: Call)
    requires Inv(w) && (key.Ours? ==> key.n < w.made)
    ensures Inv(Register(w, account, key, call).0)
  {
    hide Recorded;
    var rows := Rows(w, account);
    assert RowsInv(rows, w.made);
    if Recorded(rows, key, call).Some? {
      RecordedKeeps(rows, key, call);
    }
    StoreKeeps(w, account, Recorded(rows, key, call));
  }

  lemma GrantKeepsInv(w: World, account: Account, g: Granting)
    requires Inv(w)
    ensures Inv(CreateGrant(w, account, g).0)
  {
    hide Register, Create, Delete, Inv, KeysInv, RowsInv;
    match Open(w, g.opening)
    case OpenFailed =>
    case Found(key) =>
      assert w.held == Some(key);
      HeldIsMade(w);
      RegisterKeepsInv(w, account, Ours(key), g.call);
    case NoKey =>
      CreateKeeps(w, g.creation);
      var (made, key) := Create(w, g.creation);
      if key.Some? {
        RegisterKeepsInv(made, account, Ours(key.value), g.call);
        DeleteKeeps(Register(made, account, Ours(key.value), g.call).0, g.cleanup);
      }
  }

  lemma HeldIsMade(w: World)
    requires Inv(w) && w.held.Some?
    ensures w.held.value < w.made
  {
  }

  lemma RevokeKeepsInv(w: World, grant: Grant, r: Revoking)
    requires Inv(w)
    ensures Inv(RevokeThisDevice(w, grant, r).0)
  {
    hide Removed, Delete;
    DeleteKeeps(w, r.deletion);
    var deleted := Delete(w, r.deletion).0;
    var rows := Rows(deleted, grant.identity);
    assert RowsInv(rows, deleted.made);
    if Removed(rows, grant.id, r.call).Some? {
      RemovedKeeps(rows, grant.id, r.call);
    }
    StoreKeeps(deleted, grant.identity, Removed(rows, grant.id, r.call));
  }

  lemma ExchangeKeepsInv(w: World, grant: Grant, x: Exchanging)
    requires Inv(w)
    ensures Inv(ExchangeGrant(w, grant, x).0)
  {
    hide Touched, Live;
    var rows := Rows(w, grant.identity);
    assert RowsInv(rows, w.made);
    if x.secure && Signer(w, x.signing).Some? {
      var key := Ours(Signer(w, x.signing).value);
      TouchedKeeps(rows, key, x.call);
      StoreKeeps(w, grant.identity, Some(Touched(rows, key, x.call)));
    }
  }

  lemma {:induction false} RunKeepsInv(es: seq<Event>)
    ensures Inv(Run(es))
  {
    hide Inv, CreateGrant, RevokeThisDevice, ExchangeGrant, Delete, Register, Store, Without;
    if es == [] {
      EmptyIsInv();
    } else {
      var w, e := Run(es[..|es| - 1]), es[|es| - 1];
      RunKeepsInv(es[..|es| - 1]);
      match e
      case Granted(account, g) => GrantKeepsInv(w, account, g);
      case Revoked(grant, r) => RevokeKeepsInv(w, grant, r);
      case Exchanged(grant, x) => ExchangeKeepsInv(w, grant, x);
      case Lost => DeleteKeeps(w, Deletion(Sees, true));
      case Other(account, device, call) => RegisterKeepsInv(w, account, Foreign(device), call);
      case Swept(account, key) => SweepKeepsInv(w, account, key);
    }
  }

  lemma EmptyIsInv()
    ensures Inv(World(None, 0, {}, map[]))
  {
  }

  lemma SweepKeepsInv(w: World, account: Account, key: Key)
    requires Inv(w)
    ensures Inv(Store(w, account, Some(Without(Rows(w, account), key))))
  {
    var rows := Rows(w, account);
    assert RowsInv(rows, w.made);
    WithoutSpec(rows, key);
    StoreKeeps(w, account, Some(Without(rows, key)));
  }

  /** A row the machine could still use: it names the key the machine holds. */
  predicate Usable(w: World, row: Row) {
    w.held.Some? && row.key == Ours(w.held.value)
  }

  /** Each row of this machine is usable or names a destroyed key, and not both. */
  ghost predicate AllHeldOrDestroyed(w: World, rows: seq<Row>) {
    forall i :: 0 <= i < |rows| && rows[i].key.Ours? ==> Usable(w, rows[i]) != (rows[i].key.n in w.destroyed)
  }

  ghost predicate OneUsable(w: World, rows: seq<Row>) {
    forall i, j :: 0 <= i < |rows| && 0 <= j < |rows| && Usable(w, rows[i]) && Usable(w, rows[j]) ==> i == j
  }

  /**
   Whatever failed or got lost on the way, every row this machine left names the key it holds or a
   destroyed one, and no account has two usable rows.
   */
  lemma RowsNameHeldOrDestroyed(es: seq<Event>, account: Account)
    ensures var w := Run(es);
            AllHeldOrDestroyed(w, Rows(w, account))
    ensures var w := Run(es);
            OneUsable(w, Rows(w, account))
  {
    RunKeepsInv(es);
    InvMeans(Run(es), account);
  }

  lemma InvMeans(w: World, account: Account)
    requires Inv(w)
    ensures AllHeldOrDestroyed(w, Rows(w, account)) && OneUsable(w, Rows(w, account))
  {
    var rows := Rows(w, account);
    assert RowsInv(rows, w.made);
    forall i | 0 <= i < |rows| && rows[i].key.Ours?
      ensures Usable(w, rows[i]) != (rows[i].key.n in w.destroyed)
    {
      assert HasRow(rows, Ours(rows[i].key.n));
    }
  }

  /**
   Renewing on one key stays one row: while no key has been destroyed, an account never lists this
   machine twice.
   */
  lemma OneRowWhileKeyLives(es: seq<Event>, account: Account, i: nat, j: nat)
    requires Run(es).destroyed == {}
    requires i < |Rows(Run(es), account)| && j < |Rows(Run(es), account)|
    requires Rows(Run(es), account)[i].key.Ours? && Rows(Run(es), account)[j].key.Ours?
    ensures i == j
  {
    RowsNameHeldOrDestroyed(es, account);
    var rows := Rows(Run(es), account);
    assert Usable(Run(es), rows[i]) && Usable(Run(es), rows[j]);
  }

  /** The pre-delete of a creation goes through. */
  predicate Clears(c: Creation) {
    c.clearing.opening.Sees? && c.clearing.deletes
  }

  /**
   A refused re-grant leaves the key that was already here, unless opening failed to see that key
   and the creation it then started cleared the container. Both halves.
   */
  lemma RefusalKeepsKey(w: World, account: Account, g: Granting)
    requires w.held.Some? && KeysInv(w) && !CreateGrant(w, account, g).1.Authorized?
    ensures CreateGrant(w, account, g).0.held == w.held <==> !(g.secure && g.opening.Blind? && Clears(g.creation))
    ensures CreateGrant(w, account, g).0.held != w.held ==> w.held.value in CreateGrant(w, account, g).0.destroyed
  {
    hide Recorded;
  }

  /** The failing family is not empty: a transient failure to open, and a broker that refuses. */
  lemma BlindOpeningLosesKey(w: World, account: Account, call: Call)
    requires w.held.Some?
    ensures var g := Granting(true, Blind, Creation(Deletion(Sees, true), true, true), true,
                              call.(reaches := false), Deletion(Sees, true));
            && CreateGrant(w, account, g).1 == BrokerError
            && CreateGrant(w, account, g).0.held == None
  {
  }

  /** Re-authorizing with the key in sight reuses it and makes none. */
  lemma RegrantReusesKey(w: World, account: Account, g: Granting)
    requires w.held.Some? && g.opening.Sees?
    ensures var (w', outcome) := CreateGrant(w, account, g);
            && w'.held == w.held && w'.made == w.made && w'.destroyed == w.destroyed
            && (outcome.Authorized? ==> outcome.key == w.held.value && HasRow(Rows(w', account), Ours(outcome.key)))
  {
    hide Find, Without;
    var (w', outcome) := CreateGrant(w, account, g);
    if outcome.Authorized? {
      var after := Recorded(Rows(w, account), Ours(w.held.value), g.call).value;
      assert Rows(w', account) == after;
      assert after[|after| - 1].key == Ours(outcome.key);
    }
  }

  /**
   After giving the grant back no key is left, exactly when none was there or the deletion saw it
   and went through; being offline or unheard does not matter.
   */
  lemma RevokeKillsKey(w: World, grant: Grant, r: Revoking)
    ensures RevokeThisDevice(w, grant, r).0.held.None? <==>
              w.held.None? || (r.deletion.opening.Sees? && r.deletion.deletes)
  {
    hide Find, Removed;
  }

  /** `delete` can report success over a key it did not see. */
  lemma BlindDeletionReportsSuccess(w: World, deletes: bool)
    ensures Delete(w, Deletion(Blind, deletes)) == (w, true)
  {
  }

  /** A deletion reports failure only when the store is down, or it saw the key and could not delete it. */
  lemma DeletionReports(w: World, d: Deletion)
    ensures Delete(w, d).1 <==> !d.opening.Down? && !(d.opening.Sees? && w.held.Some? && !d.deletes)
  {
  }

  /** Everything a revocation of the held key needs from outside works, before the key is deleted. */
  predicate CanRevoke(w: World, grant: Grant, r: Revoking) {
    && r.online && r.signing == Signing(Sees, true, true) && w.held.Some? && grant.id == Ours(w.held.value)
    && r.call.reaches && r.call.days > 0 && r.call.eligible && r.call.writes
  }

  /**
   What giving the grant back does at the broker: if all it needs works and the account lists the
   grant, its rows go, and no others, whether or not the key could be deleted; otherwise the directory
   stays. The broker is reported told exactly when it was and its answer came back.
   */
  lemma RevokeTellsBroker(w: World, grant: Grant, r: Revoking)
    ensures var (w', told) := RevokeThisDevice(w, grant, r);
            var rows := Rows(w, grant.identity);
            var removes := CanRevoke(w, grant, r) && HasRow(rows, grant.id);
            && (told <==> removes && r.call.replies)
            && (removes ==> Rows(w', grant.identity) == Without(rows, grant.id))
            && (removes ==> !HasRow(Rows(w', grant.identity), grant.id))
            && (!removes ==> w'.directory == w.directory)
            && (forall account :: account != grant.identity ==> Rows(w', account) == Rows(w, account))
  {
    hide Without;
    var rows := Rows(w, grant.identity);
    WithoutSpec(rows, grant.id);
    if Find(rows, grant.id).Some? {
      assert rows[Find(rows, grant.id).value].key == grant.id;
    }
    assert Rows(Delete(w, r.deletion).0, grant.identity) == rows;
  }

  /** The key a creation comes by: the one in the store if it is seen, or a new one if the container is empty. */
  function KeyFor(w: World, g: Granting): Option<nat> {
    if g.opening.Sees? && w.held.Some? then w.held
    else if && !g.opening.Down? && g.creation.provider && g.creation.finalizes
            && (w.held.None? || Clears(g.creation))
    then Some(w.made) else None
  }

  /**
   How a creation ends: a local error exactly when it does not come by a key it can export; and else
   authorized exactly when the broker is reached, accepts the registration, and its answer comes back.
   An accepted registration is in the directory either way, and nothing else is.
   */
  lemma CreationEnds(w: World, account: Account, g: Granting)
    ensures var (w', outcome) := CreateGrant(w, account, g);
            var key := KeyFor(w, g);
            var registers := g.secure && key.Some? && g.exports && g.call.reaches && g.call.days > 0;
            var rows := if registers then Recorded(Rows(w, account), Ours(key.value), g.call) else None;
            && (outcome == LocalError <==> !g.secure || key.None? || !g.exports)
            && (outcome.Authorized? <==> rows.Some? && g.call.replies)
            && (outcome.Authorized? ==> Some(outcome.key) == key && w'.held == key)
            && w'.directory == if rows.Some? then w.directory[account := rows.value] else w.directory
  {
    hide Recorded;
  }

  /**
   When exactly an exchange succeeds: everything on the way works, the machine sees a key, and the
   account named lists that key inside its stamped window and the operator's.
   */
  lemma ExchangeIff(w: World, grant: Grant, x: Exchanging)
    requires OneEach(Rows(w, grant.identity))
    ensures ExchangeGrant(w, grant, x).1 <==>
              && x.secure && x.signing == Signing(Sees, true, true) && x.issues
              && x.call.reaches && x.call.eligible && x.call.replies && x.call.days > 0
              && w.held.Some?
              && exists row :: row in Rows(w, grant.identity) && InWindow(row, w.held.value, x.call)
  {
    hide Touched;
    var rows := Rows(w, grant.identity);
    if w.held.Some? {
      var found := Find(rows, Ours(w.held.value));
      if found.Some? {
        var row := rows[found.value];
        assert InWindow(row, w.held.value, x.call) <==> Live(rows, row.key, x.call.asked, x.call.days);
        assert row in rows;
        forall other | other in rows && other.key == row.key ensures other == row {
          SameKeySameRow(rows, row, other);
        }
      }
    }
  }

  /**
   What an exchange leaves: when a ticket is issued, the grant's row is stamped, whether or not the
   answer gets back; otherwise, and everywhere else, nothing changes.
   */
  lemma ExchangeStamps(w: World, grant: Grant, x: Exchanging)
    requires OneEach(Rows(w, grant.identity))
    ensures var w', rows := ExchangeGrant(w, grant, x).0, Rows(w, grant.identity);
            var issued := ExchangeGrant(w, grant, x.(call := x.call.(replies := true))).1;
            && w' == w.(directory := w'.directory)
            && (forall account :: account != grant.identity ==> Rows(w', account) == Rows(w, account))
            && Rows(w', grant.identity) == if issued then Touched(rows, Ours(w.held.value), x.call) else rows
  {
    hide Live, NeedsTouch;
    if ExchangeGrant(w, grant, x.(call := x.call.(replies := true))).1 {
      ExchangeNeedsHeldKey(w, grant, x.(call := x.call.(replies := true)));
    }
  }

  predicate InWindow(row: Row, key: nat, call: Call) {
    row.key == Ours(key) && call.asked < row.end && call.asked < row.start + call.days * 86_400
  }

  /** An exchange succeeds only with a key in the store that the named account lists. */
  lemma ExchangeNeedsHeldKey(w: World, grant: Grant, x: Exchanging)
    requires ExchangeGrant(w, grant, x).1
    ensures w.held.Some? && HasRow(Rows(w, grant.identity), Ours(w.held.value))
  {
    hide Touched;
    var rows := Rows(w, grant.identity);
    var i := Find(rows, Ours(w.held.value)).value;
    assert rows[i].key == Ours(w.held.value);
  }

  /** A step that makes no key does not bring one back. */
  lemma NoKeyWithoutMaking(w: World, e: Event)
    ensures w.made <= Step(w, e).made
    ensures w.held.None? && Step(w, e).made == w.made ==> Step(w, e).held.None?
  {
    hide Find, Removed, Recorded, Live, Touched, Without;
  }

  lemma {:induction false} NoKeyUntilMade(before: seq<Event>, es: seq<Event>)
    ensures Run(before).made <= Run(before + es).made
    ensures Run(before).held.None? && Run(before + es).made == Run(before).made ==> Run(before + es).held.None?
  {
    hide Step;
    if es == [] {
      assert before + es == before;
    } else {
      NoKeyUntilMade(before, es[..|es| - 1]);
      assert (before + es)[..|before + es| - 1] == before + es[..|es| - 1];
      NoKeyWithoutMaking(Run(before + es[..|es| - 1]), es[|es| - 1]);
    }
  }

  /**
   Once a deletion has really happened, no exchange on any grant succeeds, whatever the directory
   still lists and whoever changes it, until a create has made a key; creates that made none included.
   */
  lemma DeadUntilCreate(before: seq<Event>, grant: Grant, r: Revoking, es: seq<Event>, other: Grant, x: Exchanging)
    requires r.deletion.opening.Sees? && r.deletion.deletes
    requires Run(before + [Revoked(grant, r)] + es).made == Run(before + [Revoked(grant, r)]).made
    ensures !ExchangeGrant(Run(before + [Revoked(grant, r)] + es), other, x).1
  {
    hide RevokeThisDevice, ExchangeGrant;
    var w := Run(before);
    assert (before + [Revoked(grant, r)])[..|before|] == before;
    RevokeKillsKey(w, grant, r);
    NoKeyUntilMade(before + [Revoked(grant, r)], es);
    if ExchangeGrant(Run(before + [Revoked(grant, r)] + es), other, x).1 {
      ExchangeNeedsHeldKey(Run(before + [Revoked(grant, r)] + es), other, x);
    }
  }

  /**
   The grant just created works: an exchange that meets no fault succeeds until the earlier of the
   stamped end and the operator's current window, and not a moment longer.
   */
  lemma CreatedGrantExchanges(w: World, account: Account, g: Granting, x: Exchanging)
    requires Inv(w) && CreateGrant(w, account, g).1.Authorized?
    requires x.secure && x.signing == Signing(Sees, true, true) && x.issues
    requires x.call.reaches && x.call.eligible && x.call.replies
    ensures var (w', outcome) := CreateGrant(w, account, g);
            ExchangeGrant(w', Grant(Ours(outcome.key), account), x).1 <==>
              && x.call.days > 0
              && x.call.asked < g.call.asked + g.call.days * DAY && x.call.asked < g.call.now + x.call.days * DAY
  {
    hide Recorded, Live, Touched;
    var (w', outcome) := CreateGrant(w, account, g);
    var key := outcome.key;
    var w1 := if Open(w, g.opening).NoKey? then Create(w, g.creation).0 else w;
    if Open(w, g.opening).NoKey? {
      CreateKeeps(w, g.creation);
    }
    var rows := Rows(w1, account);
    assert RowsInv(rows, w1.made);
    var after := Recorded(rows, Ours(key), g.call).value;
    assert w'.held == Some(key) && Rows(w', account) == after;
    RecordedIsLive(rows, Ours(key), g.call, x.call.asked, x.call.days);
  }
}
