/**
 config.toml as several processes share it: each holds a snapshot in memory, and an update reads
 the file, applies one change to what it read, and writes the result back.
 */
module ConfigStore {

  import opened Wrappers

  datatype Cache = Cache(realm: string, kdcs: seq<string>, services: seq<string>)

  datatype Grant = Grant(
    grantId: string, identity: string, principal: Option<string>, audience: string, signInRequiredBy: int)

  datatype FileConfig = FileConfig(
    brokerUrl: Option<string>, grantFor: Option<string>, expectedWorkingAs: Option<string>,
    grant: Option<Grant>, autostart: Option<bool>, ntlmFallbackRecovery: Option<bool>,
    silent: Option<bool>, windowsSignIn: Option<bool>, browserSession: bool, cache: Cache)

  const NO_CACHE: Cache := Cache("", [], [])

  const DEFAULT: FileConfig :=
    FileConfig(None, None, None, None, None, None, None, None, false, NO_CACHE)

  // ---- Changes ------------------------------------------------------------------------

  /** What a change does to the stored grant. */
  datatype GrantOp =
    | Keep
    | Store(grantId: string, identity: string, audience: string, signInRequiredBy: int)  // a new grant has no principal
    | Forget
    | ForgetStale(stale: string, deadline: int)    // only the grant that was refused
    | Record(recordedId: string, principal: string)

  /** `set_grant_principal`: a different grant, or none, stays as it is. The flag says whether it was news. */
  function SetGrantPrincipal(g: Option<Grant>, grantId: string, principal: string): (Option<Grant>, bool) {
    if g.Some? && g.value.grantId == grantId && g.value.principal != Some(principal)
    then (Some(g.value.(principal := Some(principal))), true)
    else (g, false)
  }

  function ApplyOp(op: GrantOp, g: Option<Grant>): Option<Grant> {
    match op
    case Keep => g
    case Store(id, identity, audience, deadline) => Some(Grant(id, identity, None, audience, deadline))
    case Forget => None
    case ForgetStale(id, deadline) =>
      if g.Some? && g.value.grantId == id && g.value.signInRequiredBy == deadline then None else g
    case Record(id, principal) => SetGrantPrincipal(g, id, principal).0
  }

  /** A change to the file: one operation on the grant, anything at all to the other fields. */
  datatype Change = Change(op: GrantOp, rest: FileConfig -> FileConfig)

  function Apply(c: Change, f: FileConfig): FileConfig {
    c.rest(f).(grant := ApplyOp(c.op, f.grant))
  }

  /** Point the file at another broker and drop every value the old one owned. */
  function Retarget(brokerUrl: Option<string>): Change {
    Change(Forget, (f: FileConfig) => f.(brokerUrl := brokerUrl, cache := NO_CACHE, browserSession := false))
  }

  /** A deployment default decides only a profile that has not decided. */
  function SeedAutostart(want: bool): Change {
    Change(Keep, (f: FileConfig) => f.(autostart := if f.autostart.Some? then f.autostart else Some(want)))
  }

  // ---- The file -----------------------------------------------------------------------

  /** The TOML text format, as far as this store depends on it. */
  datatype Toml = Toml(parse: string -> Option<FileConfig>, format: FileConfig -> Option<string>)

  /** Printed text reads back as what was printed. */
  ghost predicate Lawful(t: Toml) {
    forall f :: t.format(f).Some? ==> t.parse(t.format(f).value) == Some(f)
  }

  /** What the text of the file means; a missing file is an empty configuration. */
  function Value(t: Toml, disk: Option<string>): Option<FileConfig> {
    match disk
    case None => Some(DEFAULT)
    case Some(text) => t.parse(text)
  }

  /** The answers of the operating system to one update. */
  datatype Env = Env(readable: bool, writable: bool)

  function Read(t: Toml, disk: Option<string>, env: Env): Option<FileConfig> {
    if env.readable then Value(t, disk) else None
  }

  datatype Outcome = Outcome(disk: Option<string>, file: FileConfig, ok: bool)

  /** One whole update by a process whose snapshot is `memory`. */
  function Updated(t: Toml, disk: Option<string>, memory: FileConfig, c: Change, env: Env): Outcome {
    match Read(t, disk, env)
    case None =>
      var file := Apply(c, memory);
      Outcome(disk, file, file == memory)
    case Some(before) =>
      var file := Apply(c, before);
      if file == before then Outcome(disk, file, true)
      else match t.format(file)
        case Some(text) => if env.writable then Outcome(Some(text), file, true) else Outcome(disk, file, false)
        case None => Outcome(disk, file, false)
  }

  /** The file as an object two processes hold. */
  class Disk {
    var text: Option<string>

    constructor (t: Option<string>)
      ensures text == t
    {
      text := t;
    }
  }

  /** One process's view of the configuration. */
  class Settings {
    var file: FileConfig
    const path: Option<Disk>

    constructor (file: FileConfig, path: Option<Disk>)
      ensures this.file == file && this.path == path
    {
      this.file := file;
      this.path := path;
    }

    /** One update: what is merged is the file just read, and the snapshot is only what becomes of it. */
    method Update(t: Toml, change: Change, env: Env) returns (ok: bool)
      modifies this, if path.Some? then {path.value} else {}
      ensures path.None? ==> !ok && file == Apply(change, old(file))
      ensures path.Some? ==>
                Outcome(path.value.text, file, ok) == Updated(t, old(path.value.text), old(file), change, env)
    {
      if path.None? {
        file := Apply(change, file);
        return false;
      }
      var disk := path.value;
      var read := Read(t, disk.text, env);
      if read.None? {
        var before := file;
        file := Apply(change, file);
        return file == before;
      }
      var merged := Apply(change, read.value);
      if merged == read.value {
        ok := true;
      } else {
        var text := t.format(merged);
        ok := text.Some? && env.writable;
        if ok {
          disk.text := text;
        }
      }
      file := merged;
    }
  }

  // ---- Many processes ------------------------------------------------------------------

  type Pid = nat

  datatype World = World(disk: Option<string>, memory: map<Pid, FileConfig>)

  datatype Event =
    | Load(pid: Pid, readable: bool)
    | Update(pid: Pid, change: Change, env: Env)

  function Snapshot(w: World, pid: Pid): FileConfig {
    if pid in w.memory then w.memory[pid] else DEFAULT
  }

  function Step(t: Toml, w: World, e: Event): World {
    match e
    case Load(pid, readable) =>
      var file := Read(t, w.disk, Env(readable, true));
      w.(memory := w.memory[pid := if file.Some? then file.value else DEFAULT])
    case Update(pid, change, env) =>
      var r := Updated(t, w.disk, Snapshot(w, pid), change, env);
      World(r.disk, w.memory[pid := r.file])
  }

  function Run(t: Toml, w: World, es: seq<Event>): World
    decreases |es|
  {
    if es == [] then w else Run(t, Step(t, w, es[0]), es[1..])
  }

  /** The event put a new text on disk. */
  predicate Writes(t: Toml, w: World, e: Event) {
    e.Update? && match Read(t, w.disk, e.env)
    case None => false
    case Some(before) => Apply(e.change, before) != before && t.format(Apply(e.change, before)).Some? && e.env.writable
  }

  /** The changes that reached the disk, in order. */
  ghost function Written(t: Toml, w: World, es: seq<Event>): seq<Change>
    decreases |es|
  {
    if es == [] then []
    else (if Writes(t, w, es[0]) then [es[0].change] else []) + Written(t, Step(t, w, es[0]), es[1..])
  }

  ghost function Fold(cs: seq<Change>, f: FileConfig): FileConfig
    decreases |cs|
  {
    if cs == [] then f else Fold(cs[1..], Apply(cs[0], f))
  }

  lemma StepOnDisk(t: Toml, w: World, e: Event)
    requires Lawful(t)
    ensures Writes(t, w, e) ==>
              && e.Update? && Value(t, w.disk).Some?
              && Value(t, Step(t, w, e).disk) == Some(Apply(e.change, Value(t, w.disk).value))
    ensures !Writes(t, w, e) ==> Step(t, w, e).disk == w.disk
  {
  }

  /**
   Whatever the snapshots were and whichever writes failed, the file is the changes that were
   written applied in order to the file at the start.
   */
  lemma {:induction false} DiskIsFold(t: Toml, w: World, es: seq<Event>)
    requires Lawful(t) && Value(t, w.disk).Some?
    ensures Value(t, Run(t, w, es).disk) == Some(Fold(Written(t, w, es), Value(t, w.disk).value))
    decreases |es|
  {
    hide Step, Writes, Value, Apply;
    if es != [] {
      var w', tail := Step(t, w, es[0]), es[1..];
      StepOnDisk(t, w, es[0]);
      DiskIsFold(t, w', tail);
      if Writes(t, w, es[0]) {
        assert ([es[0].change] + Written(t, w', tail))[1..] == Written(t, w', tail);
      } else {
        assert [] + Written(t, w', tail) == Written(t, w', tail);
      }
    }
  }

  /** From a text that has no meaning no run of updates gets away. */
  lemma {:induction false} MalformedIsKept(t: Toml, w: World, es: seq<Event>)
    requires Value(t, w.disk).None?
    ensures Run(t, w, es).disk == w.disk && Written(t, w, es) == []
    decreases |es|
  {
    if es != [] {
      MalformedIsKept(t, Step(t, w, es[0]), es[1..]);
    }
  }

  /** After an update that read the file and reported success, the process holds what is on disk. */
  lemma SuccessMeansInStep(t: Toml, disk: Option<string>, memory: FileConfig, c: Change, env: Env)
    requires Lawful(t) && Read(t, disk, env).Some? && Updated(t, disk, memory, c, env).ok
    ensures var r := Updated(t, disk, memory, c, env);
            Value(t, r.disk) == Some(r.file) && r.file == Apply(c, Value(t, disk).value)
  {
  }

  /**
   When an update reports success, and what it leaves, told from the text of the file: with a file that
   reads, or none, memory is the change applied to what the file means, and success is that nothing
   had to be written or that it was; otherwise the file stays, memory is the changed snapshot, and
   success is that the change changed nothing.
   */
  lemma UpdateReports(t: Toml, disk: Option<string>, memory: FileConfig, c: Change, env: Env)
    ensures var r := Updated(t, disk, memory, c, env);
            var empty := FileConfig(None, None, None, None, None, None, None, None, false, Cache("", [], []));
            if env.readable && (disk.None? || t.parse(disk.value).Some?) then
              var before := if disk.None? then empty else t.parse(disk.value).value;
              var after := Apply(c, before);
              && r.file == after
              && (r.ok <==> after == before || (t.format(after).Some? && env.writable))
              && r.disk == (if after != before && t.format(after).Some? && env.writable then t.format(after) else disk)
            else
              && r.disk == disk && r.file == Apply(c, memory)
              && (r.ok <==> Apply(c, memory) == memory)
  {
  }

  /** What an update does to the file does not depend on any snapshot, however stale. */
  lemma {:induction false} SnapshotsDoNotMatter(t: Toml, w: World, w': World, es: seq<Event>)
    requires w.disk == w'.disk
    ensures Run(t, w, es).disk == Run(t, w', es).disk
    decreases |es|
  {
    if es != [] {
      SnapshotsDoNotMatter(t, Step(t, w, es[0]), Step(t, w', es[0]), es[1..]);
    }
  }

  /** A field that no written change touches keeps its value through the whole run. */
  lemma {:induction false} UntouchedFieldStays<T>(cs: seq<Change>, f: FileConfig, field: FileConfig -> T)
    requires forall i, g :: 0 <= i < |cs| ==> field(Apply(cs[i], g)) == field(g)
    ensures field(Fold(cs, f)) == field(f)
    decreases |cs|
  {
    if cs != [] {
      forall i, g | 0 <= i < |cs[1..]| ensures field(Apply(cs[1..][i], g)) == field(g) {
        assert cs[1..][i] == cs[i + 1];
      }
      UntouchedFieldStays(cs[1..], Apply(cs[0], f), field);
      assert field(Apply(cs[0], f)) == field(f);
    }
  }

  // ---- Where a stored principal comes from ----------------------------------------------

  ghost function GrantAfter(ops: seq<GrantOp>, g: Option<Grant>): Option<Grant> {
    if ops == [] then g else ApplyOp(ops[|ops| - 1], GrantAfter(ops[..|ops| - 1], g))
  }

  ghost function Ops(cs: seq<Change>): (r: seq<GrantOp>)
    ensures |r| == |cs| && forall i :: 0 <= i < |cs| ==> r[i] == cs[i].op
  {
    seq(|cs|, i requires 0 <= i < |cs| => cs[i].op)
  }

  lemma {:induction false} GrantOfFold(cs: seq<Change>, f: FileConfig)
    ensures Fold(cs, f).grant == GrantAfter(Ops(cs), f.grant)
    decreases |cs|
  {
    if cs != [] {
      GrantOfFold(cs[1..], Apply(cs[0], f));
      assert Ops(cs) == [cs[0].op] + Ops(cs[1..]);
      GrantAfterCons(cs[0].op, Ops(cs[1..]), f.grant);
    }
  }

  lemma {:induction false} GrantAfterCons(op: GrantOp, ops: seq<GrantOp>, g: Option<Grant>)
    ensures GrantAfter([op] + ops, g) == GrantAfter(ops, ApplyOp(op, g))
  {
    var all := [op] + ops;
    if ops == [] {
      assert all[..0] == [] && all[|all| - 1] == op;
      assert GrantAfter(all, g) == ApplyOp(op, GrantAfter([], g));
    } else {
      GrantAfterCons(op, ops[..|ops| - 1], g);
      assert all[..|all| - 1] == [op] + ops[..|ops| - 1];
    }
  }

  /** No grant was stored at or after position `from`. */
  ghost predicate NoStoreSince(ops: seq<GrantOp>, from: nat) {
    forall k :: from <= k < |ops| ==> !ops[k].Store?
  }

  /** Position `i` stored the grant of this ID, and none was stored since. */
  ghost predicate LastStoredAt(ops: seq<GrantOp>, i: nat, id: string) {
    i < |ops| && ops[i].Store? && ops[i].grantId == id && NoStoreSince(ops, i + 1)
  }

  /** Position `j` recorded this principal under this grant ID, and no grant was stored since. */
  ghost predicate RecordedAt(ops: seq<GrantOp>, j: nat, id: string, principal: string) {
    j < |ops| && ops[j] == Record(id, principal) && NoStoreSince(ops, j)
  }

  /** The principal came with the grant the file already had, and no grant was stored at all. */
  ghost predicate Inherited(ops: seq<GrantOp>, g: Option<Grant>, id: string, principal: string) {
    g.Some? && g.value.grantId == id && g.value.principal == Some(principal) && NoStoreSince(ops, 0)
  }

  lemma {:induction false} PrincipalOrigin(ops: seq<GrantOp>, g: Option<Grant>)
    ensures var now := GrantAfter(ops, g);
            now.Some? && now.value.principal.Some? ==>
              var id, p := now.value.grantId, now.value.principal.value;
              Inherited(ops, g, id, p) || exists j :: RecordedAt(ops, j, id, p)
    ensures var now := GrantAfter(ops, g);
            now.Some? ==> (exists i :: LastStoredAt(ops, i, now.value.grantId))
                          || (g.Some? && g.value.grantId == now.value.grantId && NoStoreSince(ops, 0))
  {
    if ops != [] {
      var init, op := ops[..|ops| - 1], ops[|ops| - 1];
      PrincipalOrigin(init, g);
      var before, now := GrantAfter(init, g), GrantAfter(ops, g);
      if now.Some? && !op.Store? {
        assert before.Some? && before.value.grantId == now.value.grantId;
        if now.value.principal.Some? {
          var id, p := now.value.grantId, now.value.principal.value;
          if now == before {
            if !Inherited(init, g, id, p) {
              var j :| RecordedAt(init, j, id, p);
              assert RecordedAt(ops, j, id, p);
            }
          } else {
            assert RecordedAt(ops, |ops| - 1, id, p);
          }
        }
        if exists i :: LastStoredAt(init, i, now.value.grantId) {
          var i :| LastStoredAt(init, i, now.value.grantId);
          assert LastStoredAt(ops, i, now.value.grantId);
        }
      } else if op.Store? {
        assert LastStoredAt(ops, |ops| - 1, op.grantId);
      }
    }
  }

  /**
   Over every run of updates by any processes: if the stored grant carries a principal, that
   principal was recorded under the same grant ID, after that grant was last stored.
   */
  lemma StoredPrincipalWasRecorded(t: Toml, w: World, es: seq<Event>)
    requires Lawful(t) && Value(t, w.disk).Some?
    ensures var ops := Ops(Written(t, w, es));
            var first := Value(t, w.disk).value.grant;
            var now := Value(t, Run(t, w, es).disk);
            && now.Some? && now.value.grant == GrantAfter(ops, first)
            && (now.value.grant.Some? && now.value.grant.value.principal.Some? ==>
                  var id, p := now.value.grant.value.grantId, now.value.grant.value.principal.value;
                  Inherited(ops, first, id, p) || exists j :: RecordedAt(ops, j, id, p))
  {
    DiskIsFold(t, w, es);
    var cs, f := Written(t, w, es), Value(t, w.disk).value;
    GrantOfFold(cs, f);
    PrincipalOrigin(Ops(cs), f.grant);
  }

  /** Once a grant was forgotten, by a retarget or by giving it up, none is there until one is stored again. */
  lemma {:induction false} ForgottenStaysForgotten(ops: seq<GrantOp>, g: Option<Grant>, j: nat)
    requires j < |ops| && ops[j].Forget? && NoStoreSince(ops, j)
    ensures GrantAfter(ops, g) == None
  {
    var init := ops[..|ops| - 1];
    if j < |init| {
      assert NoStoreSince(init, j);
      ForgottenStaysForgotten(init, g, j);
    }
  }

  /** Recording takes effect on the grant of that ID, is news unless it was there, and leaves any other alone. */
  lemma RecordingTakesEffect(g: Option<Grant>, id: string, principal: string)
    ensures var (now, news) := SetGrantPrincipal(g, id, principal);
            if g.Some? && g.value.grantId == id then
              && now == Some(Grant(id, g.value.identity, Some(principal), g.value.audience, g.value.signInRequiredBy))
              && (news <==> g.value.principal != Some(principal))
            else now == g && !news
  {
  }

  /** A refusal forgets just the grant it was about: the ID and the deadline have to match. */
  lemma RefusalForgetsItsGrant(g: Option<Grant>, id: string, deadline: int)
    ensures ApplyOp(ForgetStale(id, deadline), g).None? <==>
              g.None? || (g.value.grantId == id && g.value.signInRequiredBy == deadline)
    ensures ApplyOp(ForgetStale(id, deadline), g).Some? ==> ApplyOp(ForgetStale(id, deadline), g) == g
  {
  }

  /** A new grant starts without a principal, whatever was there. */
  lemma StoredGrantIsNew(g: Option<Grant>, id: string, identity: string, audience: string, deadline: int)
    ensures ApplyOp(Store(id, identity, audience, deadline), g) == Some(Grant(id, identity, None, audience, deadline))
  {
  }

  /** What belongs to the broker the file points at, besides the grant. */
  function BrokerOwned(f: FileConfig): (Option<string>, Cache, bool) {
    (f.brokerUrl, f.cache, f.browserSession)
  }

  /**
   Over every run of updates by any processes: a retarget that was written leaves nothing of the old
   broker behind, and nothing of it comes back until some later update sets such a value itself.
   */
  lemma RetargetLeavesNothing(t: Toml, w: World, es: seq<Event>, j: nat, brokerUrl: Option<string>)
    requires Lawful(t) && Value(t, w.disk).Some?
    requires j < |Written(t, w, es)| && Written(t, w, es)[j] == Retarget(brokerUrl)
    requires NoStoreSince(Ops(Written(t, w, es)), j)
    requires LeaveBrokerOwned(Written(t, w, es)[j + 1..])
    ensures var now := Value(t, Run(t, w, es).disk);
            now.Some? && BrokerOwned(now.value) == (brokerUrl, NO_CACHE, false) && now.value.grant == None
  {
    hide Fold, GrantAfter, Written, Run, Value;
    var cs, f := Written(t, w, es), Value(t, w.disk).value;
    DiskIsFold(t, w, es);
    GrantOfFold(cs, f);
    assert Ops(cs)[j] == Forget;
    ForgottenStaysForgotten(Ops(cs), f.grant, j);
    RetargetFold(cs, f, j, brokerUrl);
  }

  ghost predicate LeaveBrokerOwned(cs: seq<Change>) {
    forall i, g :: 0 <= i < |cs| ==> BrokerOwned(Apply(cs[i], g)) == BrokerOwned(g)
  }

  lemma RetargetFold(cs: seq<Change>, f: FileConfig, j: nat, brokerUrl: Option<string>)
    requires j < |cs| && cs[j] == Retarget(brokerUrl) && LeaveBrokerOwned(cs[j + 1..])
    ensures BrokerOwned(Fold(cs, f)) == (brokerUrl, NO_CACHE, false)
  {
    hide Apply, Fold;
    var before, after := cs[..j], cs[j + 1..];
    assert cs == before + [cs[j]] + after;
    FoldAppend(before + [cs[j]], after, f);
    FoldAppend(before, [cs[j]], f);
    FoldOne(cs[j], Fold(before, f));
    RetargetClears(brokerUrl, Fold(before, f));
    UntouchedFieldStays(after, Apply(cs[j], Fold(before, f)), BrokerOwned);
  }

  lemma RetargetClears(brokerUrl: Option<string>, f: FileConfig)
    ensures BrokerOwned(Apply(Retarget(brokerUrl), f)) == (brokerUrl, NO_CACHE, false)
  {
  }

  lemma {:induction false} FoldAppend(a: seq<Change>, b: seq<Change>, f: FileConfig)
    ensures Fold(a + b, f) == Fold(b, Fold(a, f))
    decreases |a|
  {
    hide Apply;
    if a == [] {
      assert a + b == b;
    } else {
      assert (a + b)[0] == a[0] && (a + b)[1..] == a[1..] + b;
      FoldAppend(a[1..], b, Apply(a[0], f));
    }
  }

  lemma FoldOne(c: Change, f: FileConfig)
    ensures Fold([c], f) == Apply(c, f)
  {
    assert [c][1..] == [];
  }

  /** What the user chose, and no broker. */
  function Choices(f: FileConfig)
    : (Option<string>, Option<string>, Option<bool>, Option<bool>, Option<bool>, Option<bool>)
  {
    (f.grantFor, f.expectedWorkingAs, f.autostart, f.ntlmFallbackRecovery, f.silent, f.windowsSignIn)
  }

  /** A retarget leaves every choice of the user, and a seed everything but the choice it seeds. */
  lemma ChoicesStay(brokerUrl: Option<string>, want: bool, f: FileConfig)
    ensures Choices(Apply(Retarget(brokerUrl), f)) == Choices(f)
    ensures Apply(SeedAutostart(want), f).(autostart := None) == f.(autostart := None)
  {
  }

  /** After a seed that reports success the profile has decided: as before if it had, and as seeded if not. */
  lemma SeedDecides(t: Toml, disk: Option<string>, memory: FileConfig, want: bool, env: Env)
    requires Lawful(t) && env.readable && Value(t, disk).Some?
    requires Updated(t, disk, memory, SeedAutostart(want), env).ok
    ensures var r := Updated(t, disk, memory, SeedAutostart(want), env);
            var was := Value(t, disk).value.autostart;
            Value(t, r.disk).Some? && Value(t, r.disk).value.autostart == Some(if was.Some? then was.value else want)
  {
    var f := Value(t, disk).value;
    if f.autostart.Some? {
      assert Apply(SeedAutostart(want), f) == f;
    }
  }

  /** A process that loads holds what the file means, or an empty configuration where it means nothing. */
  lemma LoadReads(t: Toml, w: World, pid: Pid, readable: bool)
    ensures var w' := Step(t, w, Load(pid, readable));
            var empty := FileConfig(None, None, None, None, None, None, None, None, false, Cache("", [], []));
            && w'.disk == w.disk && w'.memory.Keys == w.memory.Keys + {pid}
            && (forall p <- w.memory :: p != pid ==> w'.memory[p] == w.memory[p])
            && w'.memory[pid] == if readable && w.disk.Some? && t.parse(w.disk.value).Some?
                                 then t.parse(w.disk.value).value else empty
  {
  }

  /** A seed never overrides a choice, and an update that seeds a decided profile writes nothing. */
  lemma SeedNeverOverrides(t: Toml, w: World, pid: Pid, want: bool, env: Env)
    requires Value(t, w.disk).Some? && Value(t, w.disk).value.autostart.Some?
    ensures Step(t, w, Update(pid, SeedAutostart(want), env)).disk == w.disk
  {
    var f := Value(t, w.disk).value;
    assert Apply(SeedAutostart(want), f) == f;
  }

  // ---- Updates that overlap --------------------------------------------------------------

  /** An update that has read the file and not written it yet. */
  datatype Pending = Pending(change: Change, read: FileConfig)

  datatype Race = Race(file: FileConfig, pending: map<Pid, Pending>)

  datatype Move = Begin(pid: Pid, change: Change) | Commit(pid: Pid) | Abandon(pid: Pid)

  /** A process that has nothing in progress has nothing to commit or abandon. */
  function Moved(r: Race, m: Move): Race {
    match m
    case Begin(p, change) => r.(pending := r.pending[p := Pending(change, r.file)])
    case Commit(p) => Race(if Changes(r, m) then Merged(r.pending[p]) else r.file, r.pending - {p})
    case Abandon(p) => r.(pending := r.pending - {p})
  }

  function Merged(u: Pending): FileConfig {
    Apply(u.change, u.read)
  }

  /** The move writes the file: an update that changed nothing of what it read does not. */
  predicate Changes(r: Race, m: Move) {
    m.Commit? && m.pid in r.pending && Merged(r.pending[m.pid]) != r.pending[m.pid].read
  }

  ghost function RaceEnd(r: Race, ms: seq<Move>): Race {
    if ms == [] then r else Moved(RaceEnd(r, ms[..|ms| - 1]), ms[|ms| - 1])
  }

  /** Move i of the run writes the file. */
  ghost predicate Effective(f: FileConfig, ms: seq<Move>, i: nat) {
    i < |ms| && Changes(RaceEnd(Race(f, map[]), ms[..i]), ms[i])
  }

  /** Where process `p` last began an update. */
  ghost function LastBegin(ms: seq<Move>, p: Pid): (b: Option<nat>)
    ensures b.Some? ==> b.value < |ms| && ms[b.value].Begin?
  {
    if ms == [] then None
    else
      var n := |ms| - 1;
      if ms[n].Begin? && ms[n].pid == p then Some(n) else LastBegin(ms[..n], p)
  }

  /** Where the update that move i commits began. */
  ghost function BeganAt(ms: seq<Move>, i: nat): (b: nat)
    requires i < |ms|
    ensures b < |ms|
  {
    var b := LastBegin(ms[..i], ms[i].pid);
    if b.Some? then b.value else 0
  }

  /** What is in progress was begun in this run, and holds the file as it was then. */
  lemma {:induction false} PendingOrigin(f: FileConfig, ms: seq<Move>, p: Pid)
    requires p in RaceEnd(Race(f, map[]), ms).pending
    ensures var b := LastBegin(ms, p);
            && b.Some? && b.value < |ms| && ms[b.value].Begin?
            && RaceEnd(Race(f, map[]), ms).pending[p]
            == Pending(ms[b.value].change, RaceEnd(Race(f, map[]), ms[..b.value]).file)
  {
    hide Apply;
    var n := |ms| - 1;
    if !(ms[n].Begin? && ms[n].pid == p) {
      PendingOrigin(f, ms[..n], p);
      var b := LastBegin(ms, p).value;
      assert ms[..n][..b] == ms[..b];
    }
  }

  /**
   The commits behind the file, by their place in the run: an effective commit builds on the commits
   behind the file as its update read it, and every other commit since then is gone.
   */
  ghost function Surviving(f: FileConfig, ms: seq<Move>): seq<nat>
    decreases |ms|
  {
    if ms == [] then []
    else
      var n := |ms| - 1;
      if Effective(f, ms, n) then
        EffectiveBegan(f, ms, n);
        Surviving(f, ms[..BeganAt(ms, n)]) + [n]
      else Surviving(f, ms[..n])
  }

  lemma EffectiveBegan(f: FileConfig, ms: seq<Move>, i: nat)
    requires Effective(f, ms, i)
    ensures var b := BeganAt(ms, i);
            && b < i && ms[b].Begin?
            && RaceEnd(Race(f, map[]), ms[..i + 1]).file
            == Apply(ms[b].change, RaceEnd(Race(f, map[]), ms[..b]).file)
  {
    hide Apply;
    PendingOrigin(f, ms[..i], ms[i].pid);
    var b := BeganAt(ms, i);
    assert ms[..i][..b] == ms[..b];
    assert ms[..i + 1][..i] == ms[..i];
  }

  /** All effective commits of the run, in order. */
  ghost function AllEffective(f: FileConfig, ms: seq<Move>): seq<nat> {
    if ms == [] then []
    else AllEffective(f, ms[..|ms| - 1]) + if Effective(f, ms, |ms| - 1) then [|ms| - 1] else []
  }

  /** The changes that the commits at these places carry. */
  ghost function ChangesAt(ms: seq<Move>, places: seq<nat>): seq<Change> {
    if places == [] then []
    else
      var i := places[|places| - 1];
      ChangesAt(ms, places[..|places| - 1])
      + if i < |ms| && ms[BeganAt(ms, i)].Begin? then [ms[BeganAt(ms, i)].change] else []
  }

  lemma {:induction false} SurvivingInside(f: FileConfig, ms: seq<Move>)
    ensures forall k :: 0 <= k < |Surviving(f, ms)| ==> Surviving(f, ms)[k] < |ms|
    decreases |ms|
  {
    hide Effective;
    if ms != [] {
      var n := |ms| - 1;
      if Effective(f, ms, n) {
        EffectiveBegan(f, ms, n);
        SurvivingInside(f, ms[..BeganAt(ms, n)]);
      } else {
        SurvivingInside(f, ms[..n]);
      }
    }
  }

  /** Only the moves up to a commit say what it carries. */
  lemma {:induction false} ChangesAtPrefix(ms: seq<Move>, k: nat, places: seq<nat>)
    requires k <= |ms| && forall i :: 0 <= i < |places| ==> places[i] < k
    ensures ChangesAt(ms[..k], places) == ChangesAt(ms, places)
  {
    if places != [] {
      var init, i := places[..|places| - 1], places[|places| - 1];
      ChangesAtPrefix(ms, k, init);
      assert ms[..k][..i] == ms[..i] && ms[..k][i] == ms[i];
    }
  }

  /** For every race: the file is the surviving changes applied in order to the file at the start. */
  lemma {:induction false} FileIsFoldOfSurviving(f: FileConfig, ms: seq<Move>)
    ensures RaceEnd(Race(f, map[]), ms).file == Fold(ChangesAt(ms, Surviving(f, ms)), f)
    decreases |ms|
  {
    hide Apply, ChangesAt;
    if ms == [] {
      NoChanges(ms);
    } else {
      var n := |ms| - 1;
      if Effective(f, ms, n) {
        var b := BeganAt(ms, n);
        EffectiveBegan(f, ms, n);
        assert ms[..n + 1] == ms;
        var places := Surviving(f, ms[..b]);
        FileIsFoldOfSurviving(f, ms[..b]);
        SurvivingInside(f, ms[..b]);
        ChangesAtPrefix(ms, b, places);
        ChangesSnoc(ms, places, n);
        FoldAppend(ChangesAt(ms, places), [ms[b].change], f);
        FoldOne(ms[b].change, Fold(ChangesAt(ms, places), f));
      } else {
        FileIsFoldOfSurviving(f, ms[..n]);
        SurvivingInside(f, ms[..n]);
        ChangesAtPrefix(ms, n, Surviving(f, ms[..n]));
      }
    }
  }

  lemma NoChanges(ms: seq<Move>)
    ensures ChangesAt(ms, []) == []
  {
  }

  lemma ChangesSnoc(ms: seq<Move>, places: seq<nat>, i: nat)
    requires i < |ms| && ms[BeganAt(ms, i)].Begin?
    ensures ChangesAt(ms, places + [i]) == ChangesAt(ms, places) + [ms[BeganAt(ms, i)].change]
  {
    assert (places + [i])[..|places|] == places;
  }

  /** Commit i falls between the beginning and the commit of the update that move j commits. */
  ghost predicate Overtakes(f: FileConfig, ms: seq<Move>, i: nat, j: nat) {
    i < j && Effective(f, ms, i) && Effective(f, ms, j) && BeganAt(ms, j) < i
  }

  ghost predicate Overtaken(f: FileConfig, ms: seq<Move>) {
    exists i: nat, j: nat :: Overtakes(f, ms, i, j)
  }

  lemma EffectiveWithin(f: FileConfig, ms: seq<Move>, k: nat, i: nat)
    requires i < k <= |ms|
    ensures Effective(f, ms[..k], i) <==> Effective(f, ms, i)
    ensures BeganAt(ms[..k], i) == BeganAt(ms, i)
  {
    assert ms[..k][..i] == ms[..i];
  }

  lemma {:induction false} AllEffectiveSpec(f: FileConfig, ms: seq<Move>)
    ensures forall i :: i in AllEffective(f, ms) <==> Effective(f, ms, i)
  {
    hide Effective;
    if ms == [] {
      NothingEffective(f);
    } else {
      var n := |ms| - 1;
      AllEffectiveSpec(f, ms[..n]);
      forall i: nat ensures i in AllEffective(f, ms) <==> Effective(f, ms, i) {
        if i < n {
          EffectiveWithin(f, ms, n, i);
        } else {
          EffectiveInside(f, ms, i);
          EffectiveInside(f, ms[..n], i);
        }
      }
    }
  }

  lemma NothingEffective(f: FileConfig)
    ensures forall i :: !Effective(f, [], i)
  {
  }

  lemma EffectiveInside(f: FileConfig, ms: seq<Move>, i: nat)
    ensures Effective(f, ms, i) ==> i < |ms| && ms[i].Commit?
  {
  }

  /** Moves that write nothing add nothing to the list. */
  lemma {:induction false} AllEffectiveStops(f: FileConfig, ms: seq<Move>, b: nat)
    requires b <= |ms| && forall i :: b <= i < |ms| ==> !Effective(f, ms, i)
    ensures AllEffective(f, ms) == AllEffective(f, ms[..b])
  {
    hide Effective;
    if b == |ms| {
      assert ms[..b] == ms;
    } else {
      var n := |ms| - 1;
      forall i | b <= i < n ensures !Effective(f, ms[..n], i) {
        EffectiveWithin(f, ms, n, i);
      }
      AllEffectiveStops(f, ms[..n], b);
      assert ms[..n][..b] == ms[..b];
    }
  }

  /**
   Exactly when nothing is lost: every effective commit survives if and only if no effective commit
   falls between the beginning and the commit of another effective update.
   */
  lemma {:induction false} NothingLostIff(f: FileConfig, ms: seq<Move>)
    ensures Surviving(f, ms) == AllEffective(f, ms) <==> !Overtaken(f, ms)
    decreases |ms|
  {
    hide Effective, BeganAt, Overtaken;
    if ms == [] {
      NoMovesNoOvertaking(f);
    } else {
      var n := |ms| - 1;
      if !Effective(f, ms, n) {
        NothingLostIff(f, ms[..n]);
        NothingOvertaken(f, ms, n);
      } else {
        var b := BeganAt(ms, n);
        EffectiveBegan(f, ms, n);
        var kept, all := Surviving(f, ms[..b]), AllEffective(f, ms[..n]);
        assert (kept + [n])[..|kept|] == kept && (all + [n])[..|all|] == all;
        if exists i :: b < i < n && Effective(f, ms, i) {
          var i :| b < i < n && Effective(f, ms, i);
          SurvivingInside(f, ms[..b]);
          AllEffectiveSpec(f, ms[..n]);
          EffectiveWithin(f, ms, n, i);
          assert i in all && i !in kept;
          OvertakenBy(f, ms, i, n);
        } else {
          EffectiveInside(f, ms, b);
          forall i | b <= i < n ensures !Effective(f, ms[..n], i) {
            EffectiveWithin(f, ms, n, i);
          }
          AllEffectiveStops(f, ms[..n], b);
          assert ms[..n][..b] == ms[..b];
          NothingLostIff(f, ms[..b]);
          NothingOvertaken(f, ms, b);
        }
      }
    }
  }

  lemma NoMovesNoOvertaking(f: FileConfig)
    ensures !Overtaken(f, [])
  {
  }

  lemma OvertakenBy(f: FileConfig, ms: seq<Move>, i: nat, j: nat)
    requires Overtakes(f, ms, i, j)
    ensures Overtaken(f, ms)
  {
  }

  /** Past move k nothing is overtaken: nothing is effective there, or only a last commit begun at k. */
  lemma NothingOvertaken(f: FileConfig, ms: seq<Move>, k: nat)
    requires k <= |ms|
    requires forall i :: k <= i < |ms| && Effective(f, ms, i) ==> i == |ms| - 1 && BeganAt(ms, i) >= k
    ensures Overtaken(f, ms) <==> Overtaken(f, ms[..k])
  {
    hide Effective, BeganAt;
    if Overtaken(f, ms) {
      var i: nat, j: nat :| Overtakes(f, ms, i, j);
      EffectiveInside(f, ms, j);
      assert j < k;
      EffectiveWithin(f, ms, k, i);
      EffectiveWithin(f, ms, k, j);
      assert Overtakes(f, ms[..k], i, j);
    }
    if Overtaken(f, ms[..k]) {
      var i: nat, j: nat :| Overtakes(f, ms[..k], i, j);
      EffectiveInside(f, ms[..k], j);
      EffectiveWithin(f, ms, k, i);
      EffectiveWithin(f, ms, k, j);
      assert Overtakes(f, ms, i, j);
    }
  }

  /** Two updates that begin on the same file: the first one's change is lost, whatever the two are. */
  lemma OverlapLosesFirst(f: FileConfig, a: Change, b: Change)
    requires Apply(a, f) != f && Apply(b, f) != f
    ensures RaceEnd(Race(f, map[]), [Begin(1, a), Begin(2, b), Commit(1), Commit(2)]).file == Apply(b, f)
  {
    var ms := [Begin(1, a), Begin(2, b), Commit(1), Commit(2)];
    var r1 := Moved(Race(f, map[]), ms[0]);
    var r2 := Moved(r1, ms[1]);
    var r3 := Moved(r2, ms[2]);
    var r4 := Moved(r3, ms[3]);
    assert r4.file == Apply(b, f);
    hide Apply, Moved;
    assert ms[..1][..0] == [] && ms[..2][..1] == ms[..1] && ms[..3][..2] == ms[..2] && ms[..4] == ms;
    assert RaceEnd(Race(f, map[]), ms[..1]) == r1;
    assert RaceEnd(Race(f, map[]), ms[..2]) == r2;
    assert RaceEnd(Race(f, map[]), ms[..3]) == r3;
  }

  /** Overlapping, the two updates do not come to what they come to one after the other. */
  ghost predicate Collide(f: FileConfig, a: Change, b: Change) {
    RaceEnd(Race(f, map[]), [Begin(1, a), Begin(2, b), Commit(1), Commit(2)]).file != Fold([a, b], f)
  }

  /** For any file there are two updates that collide. */
  lemma OverlapLosesAnUpdate(f: FileConfig)
    ensures exists a, b :: Collide(f, a, b)
  {
    var silent, signIn := f.silent != Some(true), f.windowsSignIn != Some(true);
    var a := Change(Keep, (g: FileConfig) => g.(silent := Some(silent)));
    var b := Change(Keep, (g: FileConfig) => g.(windowsSignIn := Some(signIn)));
    assert Apply(a, f).silent != f.silent && Apply(b, f).windowsSignIn != f.windowsSignIn;
    assert [a, b] == [a] + [b];
    FoldAppend([a], [b], f);
    FoldOne(a, f);
    FoldOne(b, Apply(a, f));
    assert Fold([a, b], f).silent != Apply(b, f).silent;
    OverlapLosesFirst(f, a, b);
    assert Collide(f, a, b);
  }

  ghost predicate Accounted(recorded: set<(string, string)>, g: Option<Grant>) {
    g.Some? && g.value.principal.Some? ==> (g.value.grantId, g.value.principal.value) in recorded
  }

  ghost predicate AllAccounted(recorded: set<(string, string)>, r: Race) {
    && Accounted(recorded, r.file.grant)
    && forall p <- r.pending ::
         && Accounted(recorded, r.pending[p].read.grant)
         && (r.pending[p].change.op.Record? ==>
               (r.pending[p].change.op.recordedId, r.pending[p].change.op.principal) in recorded)
  }

  /** The pairs the run's updates set out to record. */
  ghost function Recordings(ms: seq<Move>): set<(string, string)> {
    if ms == [] then {}
    else
      var m := ms[|ms| - 1];
      Recordings(ms[..|ms| - 1])
      + if m.Begin? && m.change.op.Record? then {(m.change.op.recordedId, m.change.op.principal)} else {}
  }

  lemma MoveAccounted(r: Race, m: Move, recorded: set<(string, string)>)
    requires AllAccounted(recorded, r)
    requires m.Begin? && m.change.op.Record? ==> (m.change.op.recordedId, m.change.op.principal) in recorded
    ensures AllAccounted(recorded, Moved(r, m))
  {
    if m.Commit? && m.pid in r.pending {
      var u := r.pending[m.pid];
      assert Accounted(recorded, u.read.grant);
      assert Accounted(recorded, ApplyOp(u.change.op, u.read.grant));
    }
  }

  /**
   Even when updates overlap and overwrite each other, a principal never appears under a grant ID it
   was not recorded for.
   */
  lemma {:induction false} RacesNeverMisplacePrincipals(r: Race, ms: seq<Move>, known: set<(string, string)>)
    requires AllAccounted(known, r) && Recordings(ms) <= known
    ensures AllAccounted(known, RaceEnd(r, ms))
  {
    hide Moved;
    if ms != [] {
      RacesNeverMisplacePrincipals(r, ms[..|ms| - 1], known);
      MoveAccounted(RaceEnd(r, ms[..|ms| - 1]), ms[|ms| - 1], known);
    }
  }
}
