/**
 Updates of config.toml down to the file operations: every process reads, merges and then replaces the
 file step by step, with any step failing, any process dying, and all of it interleaved. Seen from
 outside this is the race of atomic commits, one for each rename that succeeds.
 */
module ConfigFiles {
  import opened Wrappers
  import C = ConfigStore
  import R = ReplaceFile

  datatype System = System(disk: R.State, race: C.Race)

  /** A process reads the file and merges its change, or a call that replaces the file goes one step on. */
  datatype Event = Begin(pid: nat, change: C.Change) | Go(step: R.Step)

  /** A process replaces the file with what it merged, and does nothing else while it does. */
  predicate Possible(t: C.Toml, s: System, e: Event) {
    match e
    case Begin(pid, _) => forall c <- s.disk.calls :: s.disk.calls[c].pid != pid
    case Go(step) =>
      && R.Enabled(s.disk, step) && R.Exclusive(s.disk, step)
      && (step.Start? ==> Merges(t, s.race, step.pid, step.text))
  }

  /** What the process has merged differs from what it read, and this is its text. */
  predicate Merges(t: C.Toml, r: C.Race, pid: nat, text: string) {
    && C.Changes(r, C.Commit(pid))
    && t.format(C.Merged(r.pending[pid])) == Some(text)
  }

  /** The event as a move of the race: a rename that succeeds commits, a call that ends otherwise gives up. */
  function MoveOf(s: System, e: Event): seq<C.Move> {
    match e
    case Begin(pid, change) => [C.Begin(pid, change)]
    case Go(step) =>
      if step.call !in s.disk.calls then []
      else
        var pid := s.disk.calls[step.call].pid;
        match step
        case Rename(_, true) => [C.Commit(pid)]
        case Clean(_, _) => [C.Abandon(pid)]
        case Crash(_) => [C.Abandon(pid)]
        case _ => []
  }

  /** One event; one that is not possible does nothing. */
  function Next(t: C.Toml, s: System, e: Event): System {
    if !Possible(t, s, e) then s
    else
      var ms := MoveOf(s, e);
      System(if e.Go? then R.Apply(s.disk, e.step) else s.disk, if ms == [] then s.race else C.Moved(s.race, ms[0]))
  }

  function After(t: C.Toml, s: System, es: seq<Event>): System {
    if es == [] then s else Next(t, After(t, s, es[..|es| - 1]), es[|es| - 1])
  }

  /** The moves the run makes in the race. */
  function Moves(t: C.Toml, s: System, es: seq<Event>): seq<C.Move> {
    if es == [] then []
    else
      var init, e := es[..|es| - 1], es[|es| - 1];
      Moves(t, s, init) + if Possible(t, After(t, s, init), e) then MoveOf(After(t, s, init), e) else []
  }

  /** The file means what the race says, and every call in progress writes what its process merged. */
  ghost predicate Agree(t: C.Toml, s: System) {
    && R.Inv(s.disk)
    && C.Value(t, R.Content(s.disk)) == Some(s.race.file)
    && forall c <- s.disk.calls :: Merges(t, s.race, s.disk.calls[c].pid, s.disk.calls[c].text)
  }

  /** What a step of a call does to the calls and to what config.toml shows. */
  lemma StepOnCalls(s: R.State, step: R.Step)
    requires R.Inv(s) && R.Enabled(s, step) && R.Exclusive(s, step)
    ensures var s' := R.Apply(s, step);
            && R.Inv(s')
            && (!step.Start? ==> step.call in s.calls)
            && (forall c <- s'.calls :: c != step.call ==> c in s.calls && s'.calls[c] == s.calls[c])
            && (step.call in s'.calls && !step.Start? ==>
                  && step.call in s.calls && s'.calls[step.call].pid == s.calls[step.call].pid
                  && s'.calls[step.call].text == s.calls[step.call].text)
            && (step.Start? ==> s'.calls[step.call].pid == step.pid && s'.calls[step.call].text == step.text)
            && ((step.Rename? && step.ok) || step.Clean? || step.Crash? ==> step.call !in s'.calls)
            && R.Content(s') == if step.Rename? && step.ok then Some(s.calls[step.call].text) else R.Content(s)
  {
    R.StepKeepsInv(s, step);
    R.ShowsContent(s);
    R.ShowsContent(R.Apply(s, step));
    if step.Rename? {
      R.HasTemp(s, step.call);
    }
  }

  lemma NextAgrees(t: C.Toml, s: System, e: Event)
    requires C.Lawful(t) && Agree(t, s)
    ensures Agree(t, Next(t, s, e))
  {
    hide R.Inv, R.Apply, R.Content, R.Enabled, R.Exclusive, C.Apply;
    var s' := Next(t, s, e);
    if Possible(t, s, e) {
      match e
      case Begin(pid, change) => MovesOthers(t, s, C.Begin(pid, change), s'.race);
      case Go(step) =>
        StepOnCalls(s.disk, step);
        if step.call in s.disk.calls {
          Separate(s.disk, step.call);
          assert Merges(t, s.race, s.disk.calls[step.call].pid, s.disk.calls[step.call].text);
        }
        if step.Rename? && step.ok {
          var merged := C.Merged(s.race.pending[s.disk.calls[step.call].pid]);
          assert t.parse(t.format(merged).value) == Some(merged);
          assert C.Value(t, R.Content(s'.disk)) == Some(s'.race.file);
        } else {
          assert R.Content(s'.disk) == R.Content(s.disk) && s'.race.file == s.race.file;
        }
        forall c <- s'.disk.calls ensures Merges(t, s'.race, s'.disk.calls[c].pid, s'.disk.calls[c].text) {
          if c != step.call {
            assert Merges(t, s.race, s.disk.calls[c].pid, s.disk.calls[c].text);
          }
        }
    }
  }

  /** A process that begins an update has no call in progress, so no call's update changes. */
  lemma MovesOthers(t: C.Toml, s: System, m: C.Move, race: C.Race)
    requires m.Begin? && race == C.Moved(s.race, m)
    requires forall c <- s.disk.calls :: s.disk.calls[c].pid != m.pid
    requires forall c <- s.disk.calls :: Merges(t, s.race, s.disk.calls[c].pid, s.disk.calls[c].text)
    ensures race.file == s.race.file
    ensures forall c <- s.disk.calls :: Merges(t, race, s.disk.calls[c].pid, s.disk.calls[c].text)
  {
    hide C.Apply;
    forall c <- s.disk.calls ensures Merges(t, race, s.disk.calls[c].pid, s.disk.calls[c].text) {
      assert Merges(t, s.race, s.disk.calls[c].pid, s.disk.calls[c].text);
    }
  }

  lemma Separate(s: R.State, c: R.CallId)
    requires R.Inv(s) && c in s.calls
    ensures forall d <- s.calls :: d != c ==> s.calls[d].pid != s.calls[c].pid
  {
  }

  /** Nothing is in progress, and the file has a meaning. */
  ghost predicate Starts(t: C.Toml, s: System) {
    R.Initial(s.disk) && C.Value(t, R.Content(s.disk)) == Some(s.race.file) && s.race.pending == map[]
  }

  lemma {:induction false} RunAgrees(t: C.Toml, s: System, es: seq<Event>)
    requires C.Lawful(t) && Starts(t, s)
    ensures Agree(t, After(t, s, es))
    ensures After(t, s, es).race == C.RaceEnd(s.race, Moves(t, s, es))
  {
    hide Agree, Possible, C.Moved;
    if es == [] {
      StartAgrees(t, s);
    } else {
      var init, e := es[..|es| - 1], es[|es| - 1];
      RunAgrees(t, s, init);
      NextAgrees(t, After(t, s, init), e);
      var ms, more := Moves(t, s, init), MoveOf(After(t, s, init), e);
      if Possible(t, After(t, s, init), e) && more != [] {
        assert more == [more[0]] && (ms + more)[..|ms|] == ms;
      } else {
        assert ms + [] == ms;
      }
    }
  }

  lemma StartAgrees(t: C.Toml, s: System)
    requires Starts(t, s)
    ensures Agree(t, s)
  {
  }

  /**
   For every interleaving of reads, file operations, failures and crashes by processes with distinct
   IDs: what config.toml means is the changes of the surviving commits applied in order to the file at
   the start, where a commit is a rename that succeeded.
   */
  lemma FileIsFoldOfSurvivingRenames(t: C.Toml, s: System, es: seq<Event>)
    requires C.Lawful(t) && Starts(t, s)
    ensures var ms, f := Moves(t, s, es), s.race.file;
            C.Value(t, R.Content(After(t, s, es).disk)) == Some(C.Fold(C.ChangesAt(ms, C.Surviving(f, ms)), f))
  {
    hide Moves, After;
    RunAgrees(t, s, es);
    C.FileIsFoldOfSurviving(s.race.file, Moves(t, s, es));
    assert s.race == C.Race(s.race.file, map[]);
  }
}
