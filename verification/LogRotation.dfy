/**
 Log rotation: the oversized log is moved aside, compressed and filed as generation 1, and each
 file operation on the way may fail. Compression is an injective wrapper; a compression that breaks
 off leaves a torn file.
 */
module LogRotation {
  import opened Wrappers
  import opened Text

  type Octets = seq<nat>

  datatype Name = Live | Staged | Packed | Gen(n: nat)

  datatype Content = Raw(log: Octets) | Gz(log: Octets) | Torn

  type Files = map<Name, Content>

  const MAX_BYTES: nat := 10 * 1024 * 1024
  const KEEP: nat := 3

  /** How compressing ends: neither file opened, broken off part way, or finished. */
  datatype Packing = NotOpened | BrokenOff | Finished

  /** The outcome of every operation of one rotation. */
  datatype Faults = Faults(stat: bool, moved: bool, packing: Packing, cleared: bool, dropped: bool,
                           shifts: nat -> bool, published: bool)

  function At<V>(files: map<Name, V>, name: Name): Option<V> {
    if name in files then Some(files[name]) else None
  }

  function Oversized(files: Files): bool {
    Live in files && files[Live].Raw? && |files[Live].log| > MAX_BYTES
  }

  /** Renaming replaces the target, and fails without a source. */
  function Rename<V>(files: map<Name, V>, from: Name, to: Name, ok: bool): map<Name, V> {
    if ok && from in files && from != to then (files - {from})[to := files[from]] else files
  }

  function Remove<V>(files: map<Name, V>, name: Name, ok: bool): map<Name, V> {
    if ok then files - {name} else files
  }

  function Pack(files: Files, how: Packing): (Files, bool) {
    if how.NotOpened? || Staged !in files then (files, false)
    else if how.BrokenOff? || !files[Staged].Raw? then (files[Packed := Torn], false)
    else (files[Packed := Gz(files[Staged].log)], true)
  }

  /** Generations n, n-1, … 1 each move one up. */
  function Shifted<V>(files: map<Name, V>, n: nat, ok: nat -> bool): map<Name, V>
    decreases n
  {
    if n == 0 then files else Shifted(Rename(files, Gen(n), Gen(n + 1), ok(n)), n - 1, ok)
  }

  function Rotated(files: Files, f: Faults): Files {
    if !f.stat || !Oversized(files) || !f.moved then files
    else
      var (packed, ok) := Pack(Rename(files, Live, Staged, true), f.packing);
      if ok then Filed(packed, f) else packed
  }

  /** From the finished packed file on, every failure is ignored. */
  function Filed<V>(packed: map<Name, V>, f: Faults): map<Name, V> {
    var room := Remove(Remove(packed, Staged, f.cleared), Gen(KEEP), f.dropped);
    Rename(Shifted(room, KEEP - 1, f.shifts), Packed, Gen(1), f.published)
  }

  class LogDir {
    var files: Files

    method RenameFile(from: Name, to: Name, works: bool) returns (ok: bool)
      modifies this
      ensures files == Rename(old(files), from, to, works)
      ensures ok == (works && from in old(files))
    {
      ok := works && from in files;
      if ok && from != to {
        files := (files - {from})[to := files[from]];
      }
    }

    method RemoveFile(name: Name, works: bool)
      modifies this
      ensures files == Remove(old(files), name, works)
    {
      if works {
        files := files - {name};
      }
    }

    method Gzip(how: Packing) returns (ok: bool)
      modifies this
      ensures (files, ok) == Pack(old(files), how)
    {
      if how.NotOpened? || Staged !in files {
        return false;
      }
      if how.BrokenOff? || !files[Staged].Raw? {
        files := files[Packed := Torn];
        return false;
      }
      files := files[Packed := Gz(files[Staged].log)];
      ok := true;
    }

    method Rotate(f: Faults)
      modifies this
      ensures files == Rotated(old(files), f)
    {
      hide Rename, Remove, Pack;
      if !f.stat || !Oversized(files) {
        return;
      }
      var renamed := RenameFile(Live, Staged, f.moved);
      if !renamed {
        NoRename(old(files), Live, Staged);
        return;
      }
      var ok := Gzip(f.packing);
      if !ok {
        return;
      }
      RemoveFile(Staged, f.cleared);
      RemoveFile(Gen(KEEP), f.dropped);
      ghost var room := files;
      var n := KEEP;
      while n > 1
        invariant 1 <= n <= KEEP
        invariant Shifted(files, n - 1, f.shifts) == Shifted(room, KEEP - 1, f.shifts)
      {
        n := n - 1;
        var _ := RenameFile(Gen(n), Gen(n + 1), f.shifts(n));
      }
      var _ := RenameFile(Packed, Gen(1), f.published);
    }
  }

  lemma NoRename(files: Files, from: Name, to: Name)
    ensures Rename(files, from, to, false) == files
  {
  }

  // One rotation, any faults.

  lemma {:induction false} ShiftedElsewhere<V>(files: map<Name, V>, n: nat, ok: nat -> bool, name: Name)
    requires !name.Gen?
    ensures At(Shifted(files, n, ok), name) == At(files, name)
    decreases n
  {
    if n > 0 {
      ShiftedElsewhere(Rename(files, Gen(n), Gen(n + 1), ok(n)), n - 1, ok, name);
    }
  }

  /** A log is moved aside exactly when it is longer than ten mebibytes and nothing stops the move. */
  lemma MovedIff(files: Files, f: Faults)
    requires Live in files
    ensures Live !in Rotated(files, f) <==>
              files[Live].Raw? && |files[Live].log| > 10_485_760 && f.stat && f.moved
  {
    hide Shifted;
    if Oversized(files) && f.stat && f.moved && f.packing.Finished? {
      FiledPublishes(Pack(Rename(files, Live, Staged, true), f.packing).0, f);
    }
  }

  /** Where the log that was due for rotation is afterwards, for every combination of failures. */
  lemma LogIsNeverLost(files: Files, f: Faults)
    requires Oversized(files)
    ensures var log, after := files[Live].log, Rotated(files, f);
            if !f.stat || !f.moved then after == files
            else if !f.packing.Finished? then At(after, Staged) == Some(Raw(log))
            else if f.published then At(after, Gen(1)) == Some(Gz(log))
            else At(after, Packed) == Some(Gz(log))
  {
    if f.stat && f.moved && f.packing.Finished? {
      var packed := Pack(Rename(files, Live, Staged, true), f.packing).0;
      FiledPublishes(packed, f);
    }
  }

  lemma FiledPublishes<V>(packed: map<Name, V>, f: Faults)
    requires Packed in packed
    ensures At(Filed(packed, f), if f.published then Gen(1) else Packed) == Some(packed[Packed])
    ensures At(Filed(packed, f), Live) == At(packed, Live)
  {
    hide Shifted;
    var room := Remove(Remove(packed, Staged, f.cleared), Gen(KEEP), f.dropped);
    ShiftedElsewhere(room, KEEP - 1, f.shifts, Packed);
    ShiftedElsewhere(room, KEEP - 1, f.shifts, Live);
  }

  /** Unless compression finishes, every kept generation is as it was. */
  lemma GenerationsUntouched(files: Files, f: Faults, n: nat)
    requires !f.packing.Finished? || !f.stat || !f.moved
    ensures At(Rotated(files, f), Gen(n)) == At(files, Gen(n))
  {
  }

  /** What a generation holds after the shift of 1..n, given which renames worked. */
  lemma {:induction false} ShiftedSpec<V>(files: map<Name, V>, n: nat, ok: nat -> bool, k: nat)
    ensures At(Shifted(files, n, ok), Gen(k)) ==
              if 2 <= k <= n + 1 && ok(k - 1) && Gen(k - 1) in files then At(files, Gen(k - 1))
              else if 1 <= k <= n && ok(k) then None
              else At(files, Gen(k))
    decreases n
  {
    if n > 0 {
      ShiftedSpec(Rename(files, Gen(n), Gen(n + 1), ok(n)), n - 1, ok, k);
    }
  }

  /**
   Once the log is packed, generation k below the oldest moves up when its rename works; if it does
   not, it stays unless the one below it, or the new log, is moved over it.
   */
  lemma GenerationSurvives(files: Files, f: Faults, k: nat)
    requires Oversized(files) && f.stat && f.moved && f.packing.Finished?
    requires 1 <= k < KEEP && Gen(k) in files
    ensures var after := Rotated(files, f);
            var overwritten := if k == 1 then f.published else f.shifts(k - 1) && Gen(k - 1) in files;
            && (f.shifts(k) ==> At(after, Gen(k + 1)) == At(files, Gen(k)))
            && (!f.shifts(k) && !overwritten ==> At(after, Gen(k)) == At(files, Gen(k)))
            && (!f.shifts(k) && overwritten ==>
                  At(after, Gen(k)) == if k == 1 then Some(Gz(files[Live].log)) else At(files, Gen(k - 1)))
  {
    hide Shifted;
    var packed := Pack(Rename(files, Live, Staged, true), f.packing).0;
    var room := Remove(Remove(packed, Staged, f.cleared), Gen(KEEP), f.dropped);
    ShiftedSpec(room, KEEP - 1, f.shifts, k);
    ShiftedSpec(room, KEEP - 1, f.shifts, k + 1);
    ShiftedElsewhere(room, KEEP - 1, f.shifts, Packed);
  }

  /** The rotation gets as far as moving the log aside. */
  predicate Moves(files: Files, f: Faults) {
    f.stat && Oversized(files) && f.moved
  }

  /**
   An earlier log left in the staging file outlives a rotation if and only if that rotation does not
   get to move: every one that does renames over it.
   */
  lemma StagedLeftover(files: Files, f: Faults)
    requires Staged in files && (Live in files ==> files[Live] != files[Staged])
    ensures At(Rotated(files, f), Staged) == Some(files[Staged]) <==> !Moves(files, f)
  {
    hide Shifted;
    if Moves(files, f) && f.packing.Finished? {
      var packed := Pack(Rename(files, Live, Staged, true), f.packing).0;
      var room := Remove(Remove(packed, Staged, f.cleared), Gen(KEEP), f.dropped);
      ShiftedElsewhere(room, KEEP - 1, f.shifts, Staged);
    }
  }

  /**
   An earlier log left packed by a failed last rename outlives a rotation if and only if that
   rotation does not move, or does not get to open the packed file: otherwise it is written over.
   */
  lemma PackedLeftover(files: Files, f: Faults)
    requires Packed in files && files[Packed].Gz?
    requires Live in files && files[Live].Raw? ==> files[Live].log != files[Packed].log
    ensures At(Rotated(files, f), Packed) == Some(files[Packed]) <==> !Moves(files, f) || f.packing.NotOpened?
  {
    hide Shifted;
    if Moves(files, f) && f.packing.Finished? {
      var packed := Pack(Rename(files, Live, Staged, true), f.packing).0;
      var room := Remove(Remove(packed, Staged, f.cleared), Gen(KEEP), f.dropped);
      ShiftedElsewhere(room, KEEP - 1, f.shifts, Packed);
    }
  }

  // Many rotations.

  datatype Event = Append(octets: Octets) | Rotation(f: Faults)

  ghost predicate Faultless(f: Faults) {
    f.stat && f.moved && f.packing.Finished? && f.cleared && f.dropped && f.published && forall n :: f.shifts(n)
  }

  function Step(files: Files, e: Event): Files {
    match e
    case Append(octets) =>
      files[Live := Raw((if Live in files && files[Live].Raw? then files[Live].log else []) + octets)]
    case Rotation(f) => Rotated(files, f)
  }

  function Run(es: seq<Event>): Files {
    if es == [] then map[] else Step(Run(es[..|es| - 1]), es[|es| - 1])
  }

  /** The logs moved aside over the run, oldest first. */
  function Retired(es: seq<Event>): seq<Octets> {
    if es == [] then []
    else
      var files, e := Run(es[..|es| - 1]), es[|es| - 1];
      Retired(es[..|es| - 1]) + if e.Rotation? && Moves(files, e.f) then [files[Live].log] else []
  }

  /** Everything appended over the run, in order. */
  function Written(es: seq<Event>): Octets {
    if es == [] then []
    else Written(es[..|es| - 1]) + if es[|es| - 1].Append? then es[|es| - 1].octets else []
  }

  ghost predicate NewestFirst(files: Files, retired: seq<Octets>) {
    && (forall k: nat :: 1 <= k ==>
          At(files, Gen(k)) == if k <= |retired| && k <= 3 then Some(Gz(retired[|retired| - k])) else None)
    && Staged !in files && Packed !in files
  }

  lemma RotationFiles(files: Files, f: Faults, retired: seq<Octets>)
    requires Faultless(f) && Oversized(files) && NewestFirst(files, retired)
    ensures NewestFirst(Rotated(files, f), retired + [files[Live].log]) && Live !in Rotated(files, f)
  {
    hide Shifted;
    var packed := Pack(Rename(files, Live, Staged, true), f.packing).0;
    var room := Remove(Remove(packed, Staged, f.cleared), Gen(KEEP), f.dropped);
    assert Staged !in room && room[Packed] == Gz(files[Live].log);
    ShiftedElsewhere(room, KEEP - 1, f.shifts, Packed);
    ShiftedElsewhere(room, KEEP - 1, f.shifts, Staged);
    ShiftedElsewhere(room, KEEP - 1, f.shifts, Live);
    var more := retired + [files[Live].log];
    forall k: nat | 1 <= k
      ensures At(Rotated(files, f), Gen(k)) == if k <= |more| && k <= 3 then Some(Gz(more[|more| - k])) else None
    {
      ShiftedSpec(room, KEEP - 1, f.shifts, k);
      assert k != KEEP ==> At(room, Gen(k)) == At(files, Gen(k));
      if 2 <= k <= KEEP {
        assert At(room, Gen(k - 1)) == At(files, Gen(k - 1));
        if k <= |more| {
          assert more[|more| - k] == retired[|retired| - (k - 1)];
        }
      }
    }
  }

  ghost predicate Accounted(files: Files, retired: seq<Octets>, written: Octets) {
    && (Live in files ==> files[Live].Raw?)
    && Concat(retired) + (if Live in files && files[Live].Raw? then files[Live].log else []) == written
  }

  /**
   After any run of appends and faultless rotations the generations are the last three retired logs,
   newest first, and no more than those, nothing is left in between, and the retired logs followed by the live one are
   exactly what was written.
   */
  lemma {:induction false} GenerationsAreNewest(es: seq<Event>)
    requires forall i :: 0 <= i < |es| && es[i].Rotation? ==> Faultless(es[i].f)
    ensures NewestFirst(Run(es), Retired(es))
    ensures Accounted(Run(es), Retired(es), Written(es))
  {
    hide NewestFirst, Rotated, Oversized, Accounted;
    if es == [] {
      StartsEmpty();
    } else {
      var init, e := es[..|es| - 1], es[|es| - 1];
      GenerationsAreNewest(init);
      var files, retired := Run(init), Retired(init);
      match e
      case Append(octets) =>
        AppendKeeps(files, Step(files, e), retired);
        AppendAccounted(files, retired, Written(init), octets);
        assert Retired(es) == retired;
      case Rotation(f) =>
        assert Faultless(f);
        assert Written(es) == Written(init);
        if Oversized(files) {
          RotationFiles(files, f, retired);
          RotationAccounted(files, Rotated(files, f), retired, Written(init));
        } else {
          Unrotated(files, f);
          assert Retired(es) == retired;
        }
    }
  }

  lemma AppendAccounted(files: Files, retired: seq<Octets>, written: Octets, octets: Octets)
    requires Accounted(files, retired, written)
    ensures Accounted(Step(files, Append(octets)), retired, written + octets)
  {
    if Live in files {
      assert Concat(retired) + (files[Live].log + octets) == written + octets;
    } else {
      assert Concat(retired) + ([] + octets) == written + octets;
    }
  }

  lemma RotationAccounted(files: Files, after: Files, retired: seq<Octets>, written: Octets)
    requires Accounted(files, retired, written) && Oversized(files) && Live !in after
    ensures Accounted(after, retired + [files[Live].log], written)
  {
    ConcatSnoc(retired, files[Live].log);
    assert Concat(retired) + files[Live].log + [] == Concat(retired) + files[Live].log;
  }

  lemma StartsEmpty()
    ensures NewestFirst(map[], []) && Accounted(map[], [], [])
  {
  }

  lemma AppendKeeps(files: Files, after: Files, retired: seq<Octets>)
    requires NewestFirst(files, retired) && forall name :: name != Live ==> At(after, name) == At(files, name)
    ensures NewestFirst(after, retired)
  {
    assert At(after, Staged) == None && At(after, Packed) == None;
  }

  lemma Unrotated(files: Files, f: Faults)
    requires !Oversized(files)
    ensures Rotated(files, f) == files
  {
  }

  // Many rotations, any faults.

  /**
   Which retired log each file holds over the run, told from the faults alone: a log that is moved
   goes to the staging file, a finished packing copies it, and filing moves numbers as it moves files.
   */
  ghost function Where(es: seq<Event>): map<Name, nat> {
    if es == [] then map[]
    else
      var at, e, n := Where(es[..|es| - 1]), es[|es| - 1], |Retired(es[..|es| - 1])|;
      if !e.Rotation? || !Moves(Run(es[..|es| - 1]), e.f) then at
      else PlacedBy(at[Staged := n], n, e.f)
  }

  ghost function PlacedBy(at: map<Name, nat>, n: nat, f: Faults): map<Name, nat> {
    match f.packing
    case NotOpened => at
    case BrokenOff => at - {Packed}
    case Finished => Filed(at[Packed := n], f)
  }

  /** Apart from the live file, the files are exactly the retired logs at their places; a torn file holds none. */
  ghost predicate Holds(files: Files, at: map<Name, nat>, retired: seq<Octets>) {
    forall name :: name != Live ==> HoldsAt(files, at, retired, name)
  }

  ghost predicate HoldsAt(files: Files, at: map<Name, nat>, retired: seq<Octets>, name: Name) {
    if name in at then
      && at[name] < |retired|
      && At(files, name) == Some(if name == Staged then Raw(retired[at[name]]) else Gz(retired[at[name]]))
    else name !in files || (name == Packed && files[name] == Torn)
  }

  /** The newest log is still there, and from the staging file to the oldest generation the logs get older. */
  ghost predicate Aged(at: map<Name, nat>, n: nat) {
    && (n > 0 ==> exists name :: name in at && at[name] == n - 1 && name in {Staged, Packed, Gen(1)})
    && (Packed in at && Staged in at ==> at[Packed] <= at[Staged])
    && (forall k: nat :: k >= 1 && Gen(k) in at && Staged in at ==> at[Gen(k)] <= at[Staged])
    && (forall k: nat :: k >= 1 && Gen(k) in at && Packed in at ==> at[Gen(k)] < at[Packed])
    && (forall j: nat, k: nat :: 1 <= j < k && Gen(j) in at && Gen(k) in at ==> at[Gen(j)] > at[Gen(k)])
    && (forall name :: name in at ==> at[name] < n && name != Gen(0))
  }

  /**
   Over every run with every pattern of faults: each file but the live one holds the retired log that
   the faults say, whole or, for a broken-off packing, torn; the newest retired log is never lost; and
   from the staging file over the packed one to the oldest generation the logs are ever older.
   */
  lemma {:induction false} SurvivorsAndTheirPlaces(es: seq<Event>)
    ensures Holds(Run(es), Where(es), Retired(es))
    ensures Aged(Where(es), |Retired(es)|)
    ensures Live in Run(es) ==> Run(es)[Live].Raw?
  {
    hide Holds, Aged, Rotated, Moves;
    if es == [] {
      NothingRetired();
    } else {
      var init, e := es[..|es| - 1], es[|es| - 1];
      SurvivorsAndTheirPlaces(init);
      var files, at, retired := Run(init), Where(init), Retired(init);
      match e
      case Append(octets) =>
        AppendHolds(files, Step(files, e), at, retired);
        assert Retired(es) == retired;
      case Rotation(f) =>
        if Moves(files, f) {
          RotationPlaces(files, at, retired, f);
          RotationAges(at, |retired|, f);
        } else {
          NotMoved(files, f);
          assert Retired(es) == retired;
        }
    }
  }

  lemma NothingRetired()
    ensures Holds(map[], map[], []) && Aged(map[], 0)
  {
  }

  lemma NotMoved(files: Files, f: Faults)
    requires !Moves(files, f)
    ensures Rotated(files, f) == files
  {
  }

  lemma AppendHolds(files: Files, after: Files, at: map<Name, nat>, retired: seq<Octets>)
    requires Holds(files, at, retired) && forall name :: name != Live ==> At(after, name) == At(files, name)
    ensures Holds(after, at, retired)
  {
    forall name | name != Live ensures HoldsAt(after, at, retired, name) {
      assert HoldsAt(files, at, retired, name) && At(after, name) == At(files, name);
    }
  }

  lemma RotationPlaces(files: Files, at: map<Name, nat>, retired: seq<Octets>, f: Faults)
    requires Holds(files, at, retired) && Moves(files, f)
    ensures Holds(Rotated(files, f), PlacedBy(at[Staged := |retired|], |retired|, f), retired + [files[Live].log])
    ensures Live !in Rotated(files, f)
  {
    hide Filed;
    var more := retired + [files[Live].log];
    var moved, at' := Rename(files, Live, Staged, true), at[Staged := |retired|];
    forall name | name != Live ensures HoldsAt(moved, at', more, name) {
      assert HoldsAt(files, at, retired, name);
    }
    var packed := Pack(moved, f.packing).0;
    match f.packing
    case NotOpened =>
    case BrokenOff =>
      forall name | name != Live ensures HoldsAt(packed, at' - {Packed}, more, name) {
        assert HoldsAt(moved, at', more, name);
      }
    case Finished =>
      var at'' := at'[Packed := |retired|];
      forall name | name != Live ensures HoldsAt(packed, at'', more, name) {
        assert HoldsAt(moved, at', more, name);
      }
      FiledHolds(packed, at'', more, f);
      FiledPublishes(packed, f);
  }

  /** Filing moves whole files, so it moves the logs they hold. */
  lemma FiledHolds(packed: Files, at: map<Name, nat>, retired: seq<Octets>, f: Faults)
    requires Holds(packed, at, retired) && Packed in at
    ensures Holds(Filed(packed, f), Filed(at, f), retired)
  {
    hide Shifted;
    var room := Remove(Remove(packed, Staged, f.cleared), Gen(KEEP), f.dropped);
    var room' := Remove(Remove(at, Staged, f.cleared), Gen(KEEP), f.dropped);
    forall name | name != Live ensures HoldsAt(room, room', retired, name) {
      assert HoldsAt(packed, at, retired, name);
    }
    var up, up' := Shifted(room, KEEP - 1, f.shifts), Shifted(room', KEEP - 1, f.shifts);
    forall name | name != Live ensures HoldsAt(up, up', retired, name) {
      ShiftedHolds(room, room', retired, f.shifts, name);
    }
    ShiftedElsewhere(room', KEEP - 1, f.shifts, Packed);
    forall name | name != Live ensures HoldsAt(Filed(packed, f), Filed(at, f), retired, name) {
      assert HoldsAt(up, up', retired, name) && HoldsAt(up, up', retired, Packed);
    }
  }

  lemma ShiftedHolds(room: Files, at: map<Name, nat>, retired: seq<Octets>, ok: nat -> bool, name: Name)
    requires Holds(room, at, retired) && name != Live
    ensures HoldsAt(Shifted(room, KEEP - 1, ok), Shifted(at, KEEP - 1, ok), retired, name)
  {
    hide Shifted;
    if name.Gen? {
      ShiftedSpec(room, KEEP - 1, ok, name.n);
      ShiftedSpec(at, KEEP - 1, ok, name.n);
      assert HoldsAt(room, at, retired, name);
      if name.n >= 1 {
        assert HoldsAt(room, at, retired, Gen(name.n - 1));
      }
    } else {
      ShiftedElsewhere(room, KEEP - 1, ok, name);
      ShiftedElsewhere(at, KEEP - 1, ok, name);
      assert HoldsAt(room, at, retired, name);
    }
  }

  lemma RotationAges(at: map<Name, nat>, n: nat, f: Faults)
    requires Aged(at, n)
    ensures Aged(PlacedBy(at[Staged := n], n, f), n + 1)
  {
    hide Filed;
    var at' := at[Staged := n];
    match f.packing
    case NotOpened =>
      assert Staged in at' && at'[Staged] == n;
    case BrokenOff =>
      assert Staged in at' - {Packed} && (at' - {Packed})[Staged] == n;
    case Finished =>
      FiledAges(at'[Packed := n], n, f);
  }

  lemma FiledAges(at: map<Name, nat>, n: nat, f: Faults)
    requires Packed in at && at[Packed] == n && Staged in at && at[Staged] == n
    requires forall k: nat :: k >= 1 && Gen(k) in at ==> at[Gen(k)] < n
    requires forall j: nat, k: nat :: 1 <= j < k && Gen(j) in at && Gen(k) in at ==> at[Gen(j)] > at[Gen(k)]
    requires forall name :: name in at ==> at[name] <= n && name != Gen(0)
    ensures Aged(Filed(at, f), n + 1)
  {
    hide Shifted;
    var room := Remove(Remove(at, Staged, f.cleared), Gen(KEEP), f.dropped);
    var up := Shifted(room, KEEP - 1, f.shifts);
    forall name: Name | !name.Gen? ensures At(up, name) == At(room, name) {
      ShiftedElsewhere(room, KEEP - 1, f.shifts, name);
    }
    forall k: nat ensures Climbed(room, up, k, f.shifts) {
      ShiftedSpec(room, KEEP - 1, f.shifts, k);
    }
    ClimbingKeepsOrder(room, up, n, f.shifts);
    assert At(up, Packed) == At(room, Packed) && At(up, Staged) == At(room, Staged);
    forall name | name in up ensures up[name] <= n {
      if !name.Gen? {
        assert At(up, name) == At(room, name);
      } else {
        assert name == Gen(name.n);
      }
    }
    PublishingAges(up, n, f.published);
  }

  /** After the shift, generation k is what was one below it or what was there. */
  ghost predicate Climbed(room: map<Name, nat>, up: map<Name, nat>, k: nat, ok: nat -> bool) {
    At(up, Gen(k)) ==
      if 2 <= k <= KEEP && ok(k - 1) && Gen(k - 1) in room then At(room, Gen(k - 1))
      else if 1 <= k < KEEP && ok(k) then None
      else At(room, Gen(k))
  }

  /** The generations get older as they go. */
  ghost predicate Descending(at: map<Name, nat>, n: nat) {
    && (forall k: nat :: Gen(k) in at ==> at[Gen(k)] < n && k != 0)
    && (forall j: nat, k: nat :: j < k && Gen(j) in at && Gen(k) in at ==> at[Gen(j)] > at[Gen(k)])
  }

  lemma ClimbingKeepsOrder(room: map<Name, nat>, up: map<Name, nat>, n: nat, ok: nat -> bool)
    requires Descending(room, n) && forall k: nat :: Climbed(room, up, k, ok)
    ensures Descending(up, n)
  {
    forall k: nat | Gen(k) in up ensures up[Gen(k)] < n && k != 0 {
      assert Climbed(room, up, k, ok);
    }
    forall j: nat, k: nat | j < k && Gen(j) in up && Gen(k) in up ensures up[Gen(j)] > up[Gen(k)] {
      assert Climbed(room, up, j, ok) && Climbed(room, up, k, ok);
    }
  }

  lemma PublishingAges(up: map<Name, nat>, n: nat, published: bool)
    requires Descending(up, n) && Packed in up && up[Packed] == n && (Staged in up ==> up[Staged] == n)
    requires forall name :: name in up ==> up[name] <= n
    ensures Aged(Rename(up, Packed, Gen(1), published), n + 1)
  {
    var after := Rename(up, Packed, Gen(1), published);
    var newest := if published then Gen(1) else Packed;
    assert newest in after && after[newest] == n;
  }
}
