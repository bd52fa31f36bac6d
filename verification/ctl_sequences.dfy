/** Sequences of control commands. The hidden flags, the driver handle and
    the instance after any sequence are characterised without replaying
    it, and the instance is shown to be freed at most once. */

module CtlSequences {
  import opened LocationTypes
  import opened LocationDriver

  /** Issues `cmds` to the control function in order, collecting the
      effects. */
  function Run(s: State, cmds: seq<Command>, sys: SystemCallbacks): (r: Step)
    decreases |cmds|
  {
    if cmds == [] then Step(s, [])
    else
      var first := Ctl(s, cmds[0], sys);
      var rest := Run(first.state, cmds[1..], sys);
      Step(rest.state, first.events + rest.events)
  }

  /** The two hidden flags of the control function. */
  datatype Flag = ActiveFlag | OwnFlag

  function Read(f: Flag, s: State): (raised: bool) {
    match f
    case ActiveFlag => s.active
    case OwnFlag => s.ownsData
  }

  /** The command that raises the flag. */
  predicate Sets(f: Flag, c: Command) {
    match f
    case ActiveFlag => c == SetActive
    case OwnFlag => c == SetOwnDriver
  }

  /** The commands that lower the flag; `Destroy` lowers both. */
  predicate Clears(f: Flag, c: Command) {
    match f
    case ActiveFlag => c == UnsetActive || c == Destroy
    case OwnFlag => c == UnsetOwnDriver || c == Destroy
  }

  predicate Writes(f: Flag, c: Command) {
    Sets(f, c) || Clears(f, c)
  }

  /** No command after position `i` writes the flag. */
  ghost predicate QuietAfter(f: Flag, cmds: seq<Command>, i: int) {
    forall j :: 0 <= j < |cmds| && i < j ==> !Writes(f, cmds[j])
  }

  /** The last command writing the flag raises it. */
  ghost predicate LastWriteSets(f: Flag, cmds: seq<Command>) {
    exists i :: 0 <= i < |cmds| && Sets(f, cmds[i]) && QuietAfter(f, cmds, i)
  }

  /** One command moves the flag exactly as its setter/clearer says, and
      leaves it alone otherwise. */
  lemma CtlFlagStep(f: Flag, s: State, c: Command, sys: SystemCallbacks)
    ensures Read(f, Ctl(s, c, sys).state) ==
            if Sets(f, c) then true else if Clears(f, c) then false else Read(f, s)
  {
  }

  /** Peeling the first command off a sequence, in terms of the last
      write. */
  lemma LastWriteCons(f: Flag, cmds: seq<Command>)
    requires cmds != []
    ensures LastWriteSets(f, cmds) <==>
            LastWriteSets(f, cmds[1..]) || (QuietAfter(f, cmds[1..], -1) && Sets(f, cmds[0]))
    ensures QuietAfter(f, cmds, -1) <==> !Writes(f, cmds[0]) && QuietAfter(f, cmds[1..], -1)
  {
  }

  /** After any command sequence a flag is raised exactly when the last
      command writing it raised it, or nothing wrote it and it was raised
      before. Hence the query answer (`IsActive`, `OwnsDriver`) after any
      history is determined by the last write alone. */
  lemma {:induction false} FlagAfterRun(f: Flag, s: State, cmds: seq<Command>, sys: SystemCallbacks)
    ensures Read(f, Run(s, cmds, sys).state) <==>
            LastWriteSets(f, cmds) || (QuietAfter(f, cmds, -1) && Read(f, s))
    decreases |cmds|
  {
    if cmds != [] {
      var next := Ctl(s, cmds[0], sys).state;
      FlagAfterRun(f, next, cmds[1..], sys);
      CtlFlagStep(f, s, cmds[0], sys);
      LastWriteCons(f, cmds);
    }
  }

  /** The answers of the two queries after any history. */
  lemma QueryAfterRun(s: State, cmds: seq<Command>, sys: SystemCallbacks)
    ensures Ctl(Run(s, cmds, sys).state, IsActive, sys).ret <==>
            LastWriteSets(ActiveFlag, cmds) || (QuietAfter(ActiveFlag, cmds, -1) && s.active)
    ensures Ctl(Run(s, cmds, sys).state, OwnsDriver, sys).ret <==>
            LastWriteSets(OwnFlag, cmds) || (QuietAfter(OwnFlag, cmds, -1) && s.ownsData)
  {
    FlagAfterRun(ActiveFlag, s, cmds, sys);
    FlagAfterRun(OwnFlag, s, cmds, sys);
  }

  /** The driver handle survives every command but `Destroy`, and the
      instance every command but `Deinit`. */
  lemma {:induction false} HandlesAfterRun(s: State, cmds: seq<Command>, sys: SystemCallbacks)
    ensures Run(s, cmds, sys).state.driver == if Destroy in cmds then None else s.driver
    ensures Run(s, cmds, sys).state.data == if Deinit in cmds then None else s.data
    decreases |cmds|
  {
    if cmds != [] {
      assert cmds == [cmds[0]] + cmds[1..];
      HandlesAfterRun(Ctl(s, cmds[0], sys).state, cmds[1..], sys);
    }
  }

  /** Number of calls to a driver's `free` among the effects. */
  function Frees(events: seq<Event>): (n: nat) {
    if events == [] then 0
    else (if events[0].DriverFree? then 1 else 0) + Frees(events[1..])
  }

  lemma {:induction false} FreesAppend(a: seq<Event>, b: seq<Event>)
    ensures Frees(a + b) == Frees(a) + Frees(b)
  {
    if a != [] {
      assert (a + b)[1..] == a[1..] + b;
      FreesAppend(a[1..], b);
    } else {
      assert a + b == b;
    }
  }

  /** Through any command sequence the instance is freed at most once, and
      not at all when there is none to begin with: `Deinit` forgets the
      instance it frees. */
  lemma {:induction false} FreedAtMostOnce(s: State, cmds: seq<Command>, sys: SystemCallbacks)
    ensures Frees(Run(s, cmds, sys).events) <= if s.data.Some? then 1 else 0
    decreases |cmds|
  {
    if cmds != [] {
      var first := Ctl(s, cmds[0], sys);
      var rest := Run(first.state, cmds[1..], sys);
      FreedAtMostOnce(first.state, cmds[1..], sys);
      FreesAppend(first.events, rest.events);
      if cmds[0].Deinit? {
        assert first.state.data.None?;
        assert Frees(first.events) <= if s.data.Some? then 1 else 0;
      }
    }
  }

  /** `Destroy` nulls the driver handle but keeps the instance, so a
      following `Deinit` neither notifies the core nor calls `free`: the
      instance is forgotten without being released. */
  lemma DestroyThenDeinitReleasesNothing(s: State, sys: SystemCallbacks)
    ensures Run(s, [Destroy, Deinit], sys).events == []
    ensures Run(s, [Destroy, Deinit], sys).state == State(None, None, false, false)
  {
    assert [Destroy, Deinit][1..] == [Deinit];
    assert [Deinit][1..] == [];
  }
}
