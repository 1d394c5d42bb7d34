/**
 Replacing config.toml through a temporary file, as a transition system: any number of calls
 by any number of processes, interleaved step by step, each step able to fail and each process
 able to die between two steps. Names point at file bodies, so a body keeps its text while it is
 renamed, removed or still held open.
 */
module ReplaceFile {

  import opened Wrappers

  type Pid = nat
  type CallId = nat
  type Body = nat

  /** `config.toml`, or the temporary file of one process. */
  datatype Name = Config | Temp(pid: Pid)

  datatype Phase =
    | Removing                            // about to remove a stale temporary file
    | Opening                             // about to create the temporary file
    | Writing(body: Body, written: nat)   // the first `written` characters are in it
    | Syncing(body: Body)
    | Renaming(body: Body)
    | Cleaning                            // a step failed; about to remove the temporary file

  datatype Call = Call(pid: Pid, text: string, phase: Phase)

  /**
   `shown` is a history variable: the text config.toml had at the start, then the whole text of each
   call whose rename succeeded.
   */
  datatype State = State(
    names: map<Name, Body>, bodies: map<Body, string>, next: Body,
    calls: map<CallId, Call>, shown: Option<string>)

  /** What a reader who opens config.toml now gets. */
  function Content(s: State): Option<string> {
    if Config in s.names && s.names[Config] in s.bodies then Some(s.bodies[s.names[Config]]) else None
  }

  datatype Step =
    | Start(call: CallId, pid: Pid, text: string)
    | Remove(call: CallId, ok: bool)
    | Open(call: CallId, ok: bool)
    | Write(call: CallId, upto: nat, ok: bool)
    | Sync(call: CallId, ok: bool)
    | Rename(call: CallId, ok: bool)
    | Clean(call: CallId, ok: bool)
    | Crash(call: CallId)

  predicate Enabled(s: State, step: Step) {
    match step
    case Start(c, _, _) => c !in s.calls
    case Remove(c, _) => c in s.calls && s.calls[c].phase.Removing?
    case Open(c, _) => c in s.calls && s.calls[c].phase.Opening?
    case Write(c, upto, _) =>
      && c in s.calls && s.calls[c].phase.Writing?
      && s.calls[c].phase.written <= upto <= |s.calls[c].text|
    case Sync(c, _) => c in s.calls && s.calls[c].phase.Syncing?
    case Rename(c, _) => c in s.calls && s.calls[c].phase.Renaming?
    case Clean(c, _) => c in s.calls && s.calls[c].phase.Cleaning?
    case Crash(c) => c in s.calls
  }

  function Move(s: State, c: CallId, phase: Phase): State
    requires c in s.calls
  {
    s.(calls := s.calls[c := s.calls[c].(phase := phase)])
  }

  function Return(s: State, c: CallId): State {
    s.(calls := s.calls - {c})
  }

  function Unlink(s: State, name: Name): State {
    s.(names := s.names - {name})
  }

  function Apply(s: State, step: Step): State
    requires Enabled(s, step)
  {
    match step
    case Start(c, pid, text) => s.(calls := s.calls[c := Call(pid, text, Removing)])
    case Remove(c, ok) =>
      // The result is ignored.
      Move(if ok then Unlink(s, Temp(s.calls[c].pid)) else s, c, Opening)
    case Open(c, ok) =>
      // `create_new`: an existing temporary file is an error.
      var name := Temp(s.calls[c].pid);
      if ok && name !in s.names then
        Move(s.(names := s.names[name := s.next], bodies := s.bodies[s.next := ""], next := s.next + 1),
             c, Writing(s.next, 0))
      else Move(s, c, Cleaning)
    case Write(c, upto, ok) =>
      var body := s.calls[c].phase.body;
      var s' := s.(bodies := s.bodies[body := s.calls[c].text[..upto]]);
      Move(s', c, if !ok then Cleaning else if upto == |s.calls[c].text| then Syncing(body) else Writing(body, upto))
    case Sync(c, ok) => Move(s, c, if ok then Renaming(s.calls[c].phase.body) else Cleaning)
    case Rename(c, ok) =>
      var name := Temp(s.calls[c].pid);
      if ok && name in s.names then
        Return(s.(names := s.names[Config := s.names[name]] - {name}, shown := Some(s.calls[c].text)), c)
      else Move(s, c, Cleaning)
    case Clean(c, ok) => Return(if ok then Unlink(s, Temp(s.calls[c].pid)) else s, c)
    case Crash(c) => Return(s, c)
  }

  // ---- Runs ------------------------------------------------------------------------

  /** Two calls in progress never share a process ID. */
  predicate Exclusive(s: State, step: Step) {
    step.Start? ==> forall c <- s.calls :: s.calls[c].pid != step.pid
  }

  ghost predicate Run(s: State, steps: seq<Step>)
    decreases |steps|
  {
    steps == [] || (Enabled(s, steps[0]) && Run(Apply(s, steps[0]), steps[1..]))
  }

  ghost predicate ExclusiveRun(s: State, steps: seq<Step>)
    decreases |steps|
  {
    steps == [] ||
    (Enabled(s, steps[0]) && Exclusive(s, steps[0]) && ExclusiveRun(Apply(s, steps[0]), steps[1..]))
  }

  ghost function After(s: State, steps: seq<Step>): State
    requires Run(s, steps)
    decreases |steps|
  {
    if steps == [] then s else After(Apply(s, steps[0]), steps[1..])
  }

  /** No call in progress; every name has a body of its own. Stale temporary files are allowed. */
  ghost predicate Initial(s: State) {
    s.calls == map[] && FileSystem(s) && s.shown == Content(s)
  }

  ghost predicate FileSystem(s: State) {
    && (forall n <- s.names :: s.names[n] in s.bodies && s.names[n] < s.next)
    && (forall b <- s.bodies :: b < s.next)
    && (forall m, n :: m in s.names && n in s.names && m != n ==> s.names[m] != s.names[n])
  }

  /** A call that has its temporary file open still owns the name, and the file holds what it has written. */
  ghost predicate Owns(s: State, c: CallId)
    requires c in s.calls
  {
    var call := s.calls[c];
    match call.phase
    case Writing(b, n) => n <= |call.text| && TempHolds(s, call.pid, b, call.text[..n])
    case Syncing(b) => TempHolds(s, call.pid, b, call.text)
    case Renaming(b) => TempHolds(s, call.pid, b, call.text)
    case _ => true
  }

  ghost predicate TempHolds(s: State, pid: Pid, b: Body, text: string) {
    Temp(pid) in s.names && s.names[Temp(pid)] == b && b in s.bodies && s.bodies[b] == text
  }

  ghost predicate Inv(s: State) {
    && FileSystem(s)
    && (forall c, d :: c in s.calls && d in s.calls && c != d ==> s.calls[c].pid != s.calls[d].pid)
    && (forall c <- s.calls :: Owns(s, c))
    && Content(s) == s.shown
  }

  /** A step that moves one call on, leaves the files alone, and does not open one. */
  lemma MoveKeepsInv(s: State, c: CallId, phase: Phase)
    requires Inv(s) && c in s.calls && Owns(Move(s, c, phase), c)
    ensures Inv(Move(s, c, phase))
  {
    var s' := Move(s, c, phase);
    forall d <- s'.calls ensures Owns(s', d) {
      assert d != c ==> Owns(s, d);
    }
  }

  lemma ReturnKeepsInv(s: State, c: CallId)
    requires Inv(s)
    ensures Inv(Return(s, c))
  {
    var s' := Return(s, c);
    forall d <- s'.calls ensures Owns(s', d) {
      assert Owns(s, d);
    }
  }

  /** Removing a temporary file takes it only from the call of that process. */
  lemma UnlinkKeepsOthers(s: State, c: CallId)
    requires Inv(s) && c in s.calls
    requires !s.calls[c].phase.Writing? && !s.calls[c].phase.Syncing? && !s.calls[c].phase.Renaming?
    ensures Inv(Unlink(s, Temp(s.calls[c].pid)))
  {
    var s' := Unlink(s, Temp(s.calls[c].pid));
    forall d <- s'.calls ensures Owns(s', d) {
      assert Owns(s, d);
    }
  }

  lemma OpenKeepsInv(s: State, c: CallId)
    requires Inv(s) && c in s.calls && Temp(s.calls[c].pid) !in s.names
    ensures Inv(Apply(s.(calls := s.calls[c := s.calls[c].(phase := Opening)]), Open(c, true)))
  {
    var s0 := s.(calls := s.calls[c := s.calls[c].(phase := Opening)]);
    var s' := Apply(s0, Open(c, true));
    assert FileSystem(s');
    assert Content(s') == Content(s);
    forall d <- s'.calls ensures Owns(s', d) {
      assert d != c ==> Owns(s, d);
    }
  }

  /** Writing goes to the body behind the call's own temporary name, which no other name shares. */
  lemma WriteKeepsInv(s: State, c: CallId, upto: nat)
    requires Inv(s) && Enabled(s, Write(c, upto, true))
    ensures var body := s.calls[c].phase.body;
            Inv(Move(s.(bodies := s.bodies[body := s.calls[c].text[..upto]]), c, Writing(body, upto)))
  {
    var call := s.calls[c];
    var s' := Move(s.(bodies := s.bodies[call.phase.body := call.text[..upto]]), c, Writing(call.phase.body, upto));
    assert Owns(s, c);
    forall d <- s'.calls ensures Owns(s', d) {
      if d != c {
        assert Owns(s, d);
        assert Temp(s.calls[d].pid) != Temp(call.pid);
      }
    }
  }

  /** The rename publishes the whole text, because the call owned a file that holds it. */
  lemma RenameKeepsInv(s: State, c: CallId)
    requires Inv(s) && Enabled(s, Rename(c, true))
    ensures Inv(Apply(s, Rename(c, true)))
  {
    var call := s.calls[c];
    var s' := Apply(s, Rename(c, true));
    assert Owns(s, c);
    forall d <- s'.calls ensures Owns(s', d) {
      assert Owns(s, d);
      assert Temp(s.calls[d].pid) != Temp(call.pid);
    }
    assert Content(s') == Some(call.text);
  }

  lemma StartKeepsInv(s: State, c: CallId, pid: Pid, text: string)
    requires Inv(s) && Enabled(s, Start(c, pid, text)) && Exclusive(s, Start(c, pid, text))
    ensures Inv(Apply(s, Start(c, pid, text)))
  {
    var s' := Apply(s, Start(c, pid, text));
    forall d <- s'.calls ensures Owns(s', d) {
      assert d != c ==> Owns(s, d);
    }
  }

  lemma StepKeepsInv(s: State, step: Step)
    requires Inv(s) && Enabled(s, step) && Exclusive(s, step)
    ensures Inv(Apply(s, step))
  {
    hide Inv;
    match step
    case Start(c, pid, text) => StartKeepsInv(s, c, pid, text);
    case Remove(c, ok) =>
      if ok {
        UnlinkKeepsOthers(s, c);
        MoveKeepsInv(Unlink(s, Temp(s.calls[c].pid)), c, Opening);
      } else {
        MoveKeepsInv(s, c, Opening);
      }
    case Open(c, ok) =>
      if ok && Temp(s.calls[c].pid) !in s.names {
        assert s == s.(calls := s.calls[c := s.calls[c].(phase := Opening)]);
        OpenKeepsInv(s, c);
      } else {
        MoveKeepsInv(s, c, Cleaning);
      }
    case Write(c, upto, ok) =>
      WriteKeepsInv(s, c, upto);
      var call := s.calls[c];
      var s1 := Move(s.(bodies := s.bodies[call.phase.body := call.text[..upto]]), c, Writing(call.phase.body, upto));
      WriteEnds(s1, c, ok);
      assert Apply(s, step).calls == Apply(s1, Write(c, upto, ok)).calls;
      assert Apply(s, step) == Apply(s1, Write(c, upto, ok));
    case Sync(c, ok) => SyncKeepsInv(s, c, ok);
    case Rename(c, ok) =>
      if ok && Temp(s.calls[c].pid) in s.names {
        RenameKeepsInv(s, c);
      } else {
        MoveKeepsInv(s, c, Cleaning);
      }
    case Clean(c, ok) =>
      if ok {
        UnlinkKeepsOthers(s, c);
        ReturnKeepsInv(Unlink(s, Temp(s.calls[c].pid)), c);
      } else {
        ReturnKeepsInv(s, c);
      }
    case Crash(c) => ReturnKeepsInv(s, c);
  }

  lemma SyncKeepsInv(s: State, c: CallId, ok: bool)
    requires Inv(s) && Enabled(s, Sync(c, ok))
    ensures Inv(Apply(s, Sync(c, ok)))
  {
    assert Owns(s, c);
    MoveKeepsInv(s, c, if ok then Renaming(s.calls[c].phase.body) else Cleaning);
  }

  /** Writing again what is already there: only the phase moves. */
  lemma WriteEnds(s: State, c: CallId, ok: bool)
    requires Inv(s) && c in s.calls && s.calls[c].phase.Writing?
    ensures Enabled(s, Write(c, s.calls[c].phase.written, ok))
    ensures Inv(Apply(s, Write(c, s.calls[c].phase.written, ok)))
  {
    assert Owns(s, c);
    var call := s.calls[c];
    var b, n := call.phase.body, call.phase.written;
    assert s.bodies[b := call.text[..n]] == s.bodies;
    assert s.(bodies := s.bodies[b := call.text[..n]]) == s;
    assert call.text[..|call.text|] == call.text;
    MoveKeepsInv(s, c, if !ok then Cleaning else if n == |call.text| then Syncing(b) else Writing(b, n));
  }

  lemma {:induction false} RunKeepsInv(s: State, steps: seq<Step>)
    requires Inv(s) && ExclusiveRun(s, steps)
    ensures Run(s, steps) && Inv(After(s, steps))
    decreases |steps|
  {
    hide Inv, Apply;
    if steps != [] {
      StepKeepsInv(s, steps[0]);
      RunKeepsInv(Apply(s, steps[0]), steps[1..]);
    }
  }

  // ---- What config.toml holds, told from the steps alone ------------------------------------

  /**
   Reading the run without any file system: `texts` is what each call was asked to write, and each
   rename that reports success makes the whole text of its call the content.
   */
  ghost function Replay(steps: seq<Step>, texts: map<CallId, string>, content: Option<string>): Option<string> {
    if steps == [] then content
    else match steps[0]
      case Start(c, _, text) => Replay(steps[1..], texts[c := text], content)
      case Rename(c, true) => Replay(steps[1..], texts, if c in texts then Some(texts[c]) else content)
      case _ => Replay(steps[1..], texts, content)
  }

  ghost predicate Knows(texts: map<CallId, string>, s: State) {
    forall c <- s.calls :: c in texts && texts[c] == s.calls[c].text
  }

  lemma StepReplayed(s: State, step: Step, texts: map<CallId, string>)
    requires Inv(s) && Enabled(s, step) && Exclusive(s, step) && Knows(texts, s)
    ensures var s' := Apply(s, step);
            match step
            case Start(c, _, text) => Knows(texts[c := text], s') && s'.shown == s.shown
            case Rename(c, true) => Knows(texts, s') && c in texts && s'.shown == Some(texts[c])
            case _ => Knows(texts, s') && s'.shown == s.shown
  {
    if step.Rename? {
      assert Owns(s, step.call);
    }
  }

  lemma {:induction false} RunReplayed(s: State, steps: seq<Step>, texts: map<CallId, string>)
    requires Inv(s) && ExclusiveRun(s, steps) && Knows(texts, s)
    ensures Run(s, steps) && After(s, steps).shown == Replay(steps, texts, s.shown)
    decreases |steps|
  {
    hide Inv, Apply, Knows;
    if steps != [] {
      StepKeepsInv(s, steps[0]);
      StepReplayed(s, steps[0], texts);
      var texts' := if steps[0].Start? then texts[steps[0].call := steps[0].text] else texts;
      RunReplayed(Apply(s, steps[0]), steps[1..], texts');
    }
  }

  /**
   At every point of every run, config.toml is the old file or the complete text of the last call
   whose rename succeeded: never a partial text, whatever failed or crashed.
   */
  lemma NeverPartial(s: State, steps: seq<Step>)
    requires Initial(s) && ExclusiveRun(s, steps)
    ensures Run(s, steps)
    ensures Content(After(s, steps)) == Replay(steps, map[], Content(s))
  {
    RunKeepsInv(s, steps);
    RunReplayed(s, steps, map[]);
  }

  ghost predicate OldOrWhole(steps: seq<Step>, texts: map<CallId, string>, first: Option<string>, now: Option<string>) {
    || now == first
    || (exists c :: c in texts && now == Some(texts[c]))
    || (exists i :: 0 <= i < |steps| && steps[i].Start? && now == Some(steps[i].text))
  }

  /** Put as in the promise to a reader: the content is the old one, or the text some call was given. */
  lemma {:induction false} ReplayIsOldOrWhole(steps: seq<Step>, texts: map<CallId, string>, content: Option<string>)
    ensures OldOrWhole(steps, texts, content, Replay(steps, texts, content))
  {
    if steps != [] {
      var tail, now := steps[1..], Replay(steps, texts, content);
      assert forall i :: 0 <= i < |tail| ==> tail[i] == steps[i + 1];
      match steps[0]
      case Start(c, _, text) => ReplayIsOldOrWhole(tail, texts[c := text], content);
      case Rename(c, true) => ReplayIsOldOrWhole(tail, texts, if c in texts then Some(texts[c]) else content);
      case _ => ReplayIsOldOrWhole(tail, texts, content);
    }
  }

  // ---- A reader that holds the file open ------------------------------------------------------

  /** No call will write to body `b` any more. */
  ghost predicate Settled(s: State, b: Body) {
    b in s.bodies && b < s.next && forall c <- s.calls :: s.calls[c].phase.Writing? ==> s.calls[c].phase.body != b
  }

  lemma StepKeepsSettled(s: State, step: Step, b: Body)
    requires Inv(s) && Enabled(s, step) && Settled(s, b)
    ensures Settled(Apply(s, step), b) && Apply(s, step).bodies[b] == s.bodies[b]
  {
  }

  lemma {:induction false} RunKeepsSettled(s: State, steps: seq<Step>, b: Body)
    requires Inv(s) && ExclusiveRun(s, steps) && Settled(s, b)
    ensures Run(s, steps) && b in After(s, steps).bodies && After(s, steps).bodies[b] == s.bodies[b]
    decreases |steps|
  {
    hide Inv, Apply;
    if steps != [] {
      StepKeepsInv(s, steps[0]);
      StepKeepsSettled(s, steps[0], b);
      RunKeepsSettled(Apply(s, steps[0]), steps[1..], b);
    }
  }

  /** A reader that opened config.toml at any point reads that same text for as long as it keeps the file open. */
  lemma OpenFileNeverChanges(s: State, before: seq<Step>, after: seq<Step>)
    requires Initial(s) && ExclusiveRun(s, before)
    requires Run(s, before) && ExclusiveRun(After(s, before), after)
    requires Config in After(s, before).names
    ensures var mid := After(s, before);
            && Run(mid, after) && mid.names[Config] in mid.bodies && mid.names[Config] in After(mid, after).bodies
            && After(mid, after).bodies[mid.names[Config]] == mid.bodies[mid.names[Config]]
  {
    RunKeepsInv(s, before);
    var mid := After(s, before);
    forall c <- mid.calls ensures mid.calls[c].phase.Writing? ==> mid.calls[c].phase.body != mid.names[Config] {
      assert Owns(mid, c);
    }
    RunKeepsSettled(mid, after, mid.names[Config]);
  }

  // ---- How a call ends ---------------------------------------------------------------------------

  /** The steps without those of call `c`. */
  ghost function Erased(steps: seq<Step>, c: CallId): seq<Step> {
    if steps == [] then []
    else (if steps[0].call == c then [] else [steps[0]]) + Erased(steps[1..], c)
  }

  /** Call `c` neither starts nor succeeds in these steps. */
  ghost predicate OnlyFails(steps: seq<Step>, c: CallId) {
    forall i :: 0 <= i < |steps| && steps[i].call == c ==> !steps[i].Start? && steps[i] != Rename(c, true)
  }

  /** Without its successful rename a call does not show in the replay. */
  lemma {:induction false} ReplayErased(
    steps: seq<Step>, c: CallId, texts: map<CallId, string>, texts': map<CallId, string>, content: Option<string>)
    requires OnlyFails(steps, c)
    requires forall d :: d != c ==> (d in texts <==> d in texts') && (d in texts ==> texts[d] == texts'[d])
    ensures Replay(steps, texts, content) == Replay(Erased(steps, c), texts', content)
  {
    if steps != [] {
      var step, tail := steps[0], steps[1..];
      var more := if step.Start? then texts[step.call := step.text] else texts;
      var more' := if step.Start? && step.call != c then texts'[step.call := step.text] else texts';
      var now := match step
        case Rename(d, true) => if d in texts then Some(texts[d]) else content
        case _ => content;
      ReplayErased(tail, c, more, more', now);
      if step.call == c {
        assert [] + Erased(tail, c) == Erased(tail, c);
      } else {
        assert ([step] + Erased(tail, c))[1..] == Erased(tail, c);
      }
    }
  }

  /** Once gone, a call that does not start again stays gone. */
  lemma {:induction false} GoneStaysGone(s: State, steps: seq<Step>, c: CallId)
    requires c !in s.calls && Run(s, steps)
    requires forall i :: 0 <= i < |steps| && steps[i].call == c ==> !steps[i].Start?
    ensures c !in After(s, steps).calls
    decreases |steps|
  {
    if steps != [] {
      GoneStaysGone(Apply(s, steps[0]), steps[1..], c);
    }
  }

  /** A call that is still in progress keeps its process ID and has not renamed. */
  lemma {:induction false} StillThere(s: State, steps: seq<Step>, c: CallId)
    requires Inv(s) && c in s.calls && ExclusiveRun(s, steps) && Run(s, steps) && c in After(s, steps).calls
    requires forall i :: 0 <= i < |steps| && steps[i].call == c ==> !steps[i].Start?
    ensures OnlyFails(steps, c) && After(s, steps).calls[c].pid == s.calls[c].pid
    decreases |steps|
  {
    hide Inv;
    if steps != [] {
      var s', tail := Apply(s, steps[0]), steps[1..];
      StepKeepsInv(s, steps[0]);
      if steps[0] == Rename(c, true) {
        HasTemp(s, c);
      }
      if c !in s'.calls {
        GoneStaysGone(s', tail, c);
      }
      StillThere(s', tail, c);
    }
  }

  /** What any one step of a call but its successful rename can touch: its own temporary file. */
  lemma OnlyOwnTemp(s: State, step: Step, n: Name)
    requires Inv(s) && Enabled(s, step) && !step.Start? && step != Rename(step.call, true)
    requires n != Temp(s.calls[step.call].pid)
    ensures var s' := Apply(s, step);
            && (n in s'.names <==> n in s.names)
            && (n in s.names ==> s'.names[n] == s.names[n] && s'.bodies[s.names[n]] == s.bodies[s.names[n]])
  {
    if step.Write? {
      assert Owns(s, step.call);
    }
  }

  /**
   A call that fails, from its start to its clean-up, with any steps of other calls in between: its
   temporary file is gone, and config.toml is what those other steps alone make of it.
   */
  lemma FailureLeavesNothing(s: State, c: CallId, pid: Pid, text: string, steps: seq<Step>)
    requires Inv(s) && Enabled(s, Start(c, pid, text)) && Exclusive(s, Start(c, pid, text))
    requires var started := Apply(s, Start(c, pid, text));
             && ExclusiveRun(started, steps) && Run(started, steps)
             && Enabled(After(started, steps), Clean(c, true))
    requires forall i :: 0 <= i < |steps| && steps[i].call == c ==> !steps[i].Start?
    ensures var end := Apply(After(Apply(s, Start(c, pid, text)), steps), Clean(c, true));
            && c !in end.calls && Temp(pid) !in end.names
            && Content(end) == Replay(Erased(steps, c), Texts(s), Content(s))
  {
    hide Inv, Apply;
    var started := Apply(s, Start(c, pid, text));
    StepKeepsInv(s, Start(c, pid, text));
    Started(s, c, pid, text);
    var last := After(started, steps);
    RunKeepsInv(started, steps);
    StillThere(started, steps, c);
    StepKeepsInv(last, Clean(c, true)) by { OnlyStarts(last, Clean(c, true)); }
    Cleaned(last, c);
    ShowsContent(s);
    ShowsContent(Apply(last, Clean(c, true)));
    RunReplayed(started, steps, Texts(started));
    ReplayErased(steps, c, Texts(started), Texts(s), s.shown);
  }

  /** What each call in progress was asked to write. */
  ghost function Texts(s: State): map<CallId, string> {
    map c <- s.calls :: s.calls[c].text
  }

  lemma Started(s: State, c: CallId, pid: Pid, text: string)
    requires Enabled(s, Start(c, pid, text))
    ensures var s' := Apply(s, Start(c, pid, text));
            s'.shown == s.shown && c in s'.calls && s'.calls[c].pid == pid && Texts(s') == Texts(s)[c := text]
  {
  }

  lemma Cleaned(s: State, c: CallId)
    requires Enabled(s, Clean(c, true))
    ensures var s' := Apply(s, Clean(c, true));
            s'.shown == s.shown && c !in s'.calls && Temp(s.calls[c].pid) !in s'.names
  {
  }

  // ---- Why the process ID is in the name -----------------------------------------------------------

  /**
   Without exclusive process IDs the promise fails from every state in which it can: when any call is
   about to rename, any other call under its ID that has put down any part of its text, none of it
   included, makes that rename publish the part.
   */
  lemma SharedPidPublishesPart(s: State, c: CallId, d: CallId, text: string, upto: nat)
    requires c in s.calls && s.calls[c].phase.Renaming? && d !in s.calls && upto <= |text|
    ensures var pid := s.calls[c].pid;
            var steps := [Start(d, pid, text), Remove(d, true), Open(d, true), Write(d, upto, true), Rename(c, true)];
            Run(s, steps) && Content(After(s, steps)) == Some(text[..upto])
  {
    var pid := s.calls[c].pid;
    var steps := [Start(d, pid, text), Remove(d, true), Open(d, true), Write(d, upto, true), Rename(c, true)];
    var s1 := Apply(s, steps[0]);
    var s2 := Apply(s1, steps[1]);
    var s3 := Apply(s2, steps[2]);
    var s4 := Apply(s3, steps[3]);
    var s5 := Apply(s4, steps[4]);
    assert s4.names[Temp(pid)] == s.next && s4.bodies[s.next] == text[..upto];
    assert Content(s5) == Some(text[..upto]);
    hide Apply, Content;
    assert steps[1..] == [steps[1], steps[2], steps[3], steps[4]] && steps[1..][1..] == [steps[2], steps[3], steps[4]];
    assert steps[1..][1..][1..] == [steps[3], steps[4]];
    assert [steps[3], steps[4]][1..] == [steps[4]] && [steps[4]][1..] == [];
    assert Run(s5, []) && After(s5, []) == s5;
    assert Run(s4, [steps[4]]) && After(s4, [steps[4]]) == s5;
    assert Run(s3, [steps[3], steps[4]]) && After(s3, [steps[3], steps[4]]) == s5;
    assert Run(s2, steps[1..][1..]) && After(s2, steps[1..][1..]) == s5;
    assert Run(s1, steps[1..]) && After(s1, steps[1..]) == s5;
  }

  // ---- One call, run to its end -------------------------------------------------------------------

  /** Which operations of one call work, and how much a failing write gets down. */
  datatype Faults = Faults(
    remove: bool, open: bool, write: bool, written: nat, sync: bool, rename: bool, clean: bool)

  class Directory {
    var disk: State

    /** Do one operation. */
    method Do(step: Step)
      requires Inv(disk) && Enabled(disk, step) && Exclusive(disk, step)
      modifies this
      ensures disk == Apply(old(disk), step) && Inv(disk)
    {
      StepKeepsInv(disk, step);
      disk := Apply(disk, step);
    }

    /** Up to the temporary file being open, or a step failed. */
    method OpenTemp(c: CallId, pid: Pid, text: string, works: Faults)
      requires Inv(disk) && Enabled(disk, Start(c, pid, text)) && Exclusive(disk, Start(c, pid, text))
      modifies this
      ensures Inv(disk) && disk.shown == old(disk.shown)
      ensures c in disk.calls && disk.calls - {c} == old(disk.calls)
      ensures disk.calls[c].pid == pid && disk.calls[c].text == text
      ensures disk.calls[c].phase.Cleaning? || (disk.calls[c].phase.Writing? && disk.calls[c].phase.written == 0)
      ensures disk.calls[c].phase.Writing? <==> works.open && (works.remove || Temp(pid) !in old(disk.names))
    {
      hide Inv, Exclusive;
      Do(Start(c, pid, text));
      assert disk.calls - {c} == old(disk.calls);
      Do(Remove(c, works.remove)) by { OnlyStarts(disk, Remove(c, works.remove)); }
      Do(Open(c, works.open)) by { OnlyStarts(disk, Open(c, works.open)); }
    }

    /** Up to the rename: the temporary file written and synced, or a step failed. */
    method WriteTemp(c: CallId, pid: Pid, text: string, works: Faults)
      requires Inv(disk) && Enabled(disk, Start(c, pid, text)) && Exclusive(disk, Start(c, pid, text))
      modifies this
      ensures Inv(disk) && disk.shown == old(disk.shown)
      ensures c in disk.calls && disk.calls - {c} == old(disk.calls)
      ensures disk.calls[c].pid == pid && disk.calls[c].text == text
      ensures disk.calls[c].phase.Renaming? || disk.calls[c].phase.Cleaning?
      ensures disk.calls[c].phase.Renaming? <==>
                works.open && (works.remove || Temp(pid) !in old(disk.names)) && works.write && works.sync
    {
      hide Inv, Exclusive;
      OpenTemp(c, pid, text, works);
      if disk.calls[c].phase.Writing? {
        var upto := if works.write || works.written > |text| then |text| else works.written;
        Do(Write(c, upto, works.write)) by { OnlyStarts(disk, Write(c, upto, works.write)); }
        if works.write {
          Do(Sync(c, works.sync)) by { OnlyStarts(disk, Sync(c, works.sync)); }
        }
      }
    }

    /** The call as the client makes it, run to its end while other calls may be in progress. */
    method Replace(c: CallId, pid: Pid, text: string, works: Faults) returns (ok: bool)
      requires Inv(disk) && Enabled(disk, Start(c, pid, text)) && Exclusive(disk, Start(c, pid, text))
      modifies this
      ensures Inv(disk) && disk.calls == old(disk.calls)
      ensures ok ==> Content(disk) == Some(text) && Temp(pid) !in disk.names
      ensures !ok ==> Content(disk) == old(Content(disk)) && (works.clean ==> Temp(pid) !in disk.names)
      ensures ok == (&& works.open && (works.remove || Temp(pid) !in old(disk.names))
                     && works.write && works.sync && works.rename)
    {
      hide Inv, Exclusive, Content;
      ShowsContent(disk);
      WriteTemp(c, pid, text, works);
      if disk.calls[c].phase.Renaming? {
        HasTemp(disk, c);
        Do(Rename(c, works.rename)) by { OnlyStarts(disk, Rename(c, works.rename)); }
      }
      ok := c !in disk.calls;
      if !ok {
        Do(Clean(c, works.clean)) by { OnlyStarts(disk, Clean(c, works.clean)); }
      }
      ShowsContent(disk);
    }
  }

  lemma HasTemp(s: State, c: CallId)
    requires Inv(s) && c in s.calls && s.calls[c].phase.Renaming?
    ensures Temp(s.calls[c].pid) in s.names
  {
    assert Owns(s, c);
  }

  lemma OnlyStarts(s: State, step: Step)
    requires !step.Start?
    ensures Exclusive(s, step)
  {
  }

  lemma ShowsContent(s: State)
    requires Inv(s)
    ensures Content(s) == s.shown
  {
  }
}
