/** Properties relating several calls of the control layer: flag round
    trips, idempotence, and what teardown leaves behind for the forwarding
    wrappers and for a later initialisation. */

module LocationProperties {
  import opened LocationTypes
  import opened DriverTable
  import opened LocationDriver

  /** `SetActive` then `IsActive` answers true, `UnsetActive` then
      `IsActive` answers false; neither touches the ownership flag, the
      driver handle or the instance, nor calls anything. */
  lemma ActiveRoundTrip(s: State, sys: SystemCallbacks)
    ensures Ctl(Ctl(s, SetActive, sys).state, IsActive, sys).ret
    ensures !Ctl(Ctl(s, UnsetActive, sys).state, IsActive, sys).ret
    ensures Ctl(s, SetActive, sys).state == s.(active := true)
    ensures Ctl(s, UnsetActive, sys).state == s.(active := false)
  {
  }

  /** At program start no driver is selected, there is no instance, both
      queries answer false, and nothing can be forwarded. */
  lemma InitialState(sys: SystemCallbacks, allow: bool, driverOk: bool)
    ensures !Ctl(Initial, IsActive, sys).ret
    ensures !Ctl(Initial, OwnsDriver, sys).ret
    ensures Start(Initial, allow, driverOk) == Reply(false, [])
    ensures GetPosition(Initial, driverOk) == PositionReply(false, Zeroed, [])
  {
  }

  /** `SetOwnDriver` / `UnsetOwnDriver` then `OwnsDriver` answers exactly
      the flag just written; the active flag is left alone and setting
      (or clearing) twice is the same as once. */
  lemma OwnershipRoundTrip(s: State, sys: SystemCallbacks)
    ensures Ctl(Ctl(s, SetOwnDriver, sys).state, OwnsDriver, sys).ret
    ensures !Ctl(Ctl(s, UnsetOwnDriver, sys).state, OwnsDriver, sys).ret
    ensures Ctl(s, SetOwnDriver, sys).state == s.(ownsData := true)
    ensures Ctl(s, UnsetOwnDriver, sys).state == s.(ownsData := false)
    ensures Ctl(Ctl(s, SetOwnDriver, sys).state, SetOwnDriver, sys) == Ctl(s, SetOwnDriver, sys)
    ensures Ctl(Ctl(s, UnsetOwnDriver, sys).state, UnsetOwnDriver, sys) == Ctl(s, UnsetOwnDriver, sys)
  {
  }

  /** The two queries change nothing: asking twice gives the same answer. */
  lemma QueriesChangeNothing(s: State, sys: SystemCallbacks)
    ensures Ctl(s, IsActive, sys).state == s && Ctl(s, IsActive, sys).events == []
    ensures Ctl(s, OwnsDriver, sys).state == s && Ctl(s, OwnsDriver, sys).events == []
  {
  }

  /** `Destroy` clears both flags and the driver handle, keeps the
      instance, and afterwards nothing can be forwarded to a driver. */
  lemma DestroyForgetsDriver(s: State, sys: SystemCallbacks, allow: bool, driverOk: bool,
                             msecs: u32, distance: u32)
    ensures Ctl(s, Destroy, sys).state == State(None, s.data, false, false)
    ensures Start(Ctl(s, Destroy, sys).state, allow, driverOk) == Reply(false, [])
    ensures Stop(Ctl(s, Destroy, sys).state) == []
    ensures SetInterval(Ctl(s, Destroy, sys).state, msecs, distance) == []
    ensures GetPosition(Ctl(s, Destroy, sys).state, driverOk) == PositionReply(false, Zeroed, [])
  {
  }

  /** `Deinit` always leaves no instance, keeps the flags and the driver
      handle, has exactly the effects of `uninit_location`, and afterwards nothing can be forwarded to a driver. */
  lemma DeinitForgetsInstance(s: State, sys: SystemCallbacks, allow: bool, driverOk: bool,
                              msecs: u32, distance: u32)
    ensures Ctl(s, Deinit, sys).state == s.(data := None)
    ensures Ctl(s, Deinit, sys).events == Uninit(s, sys).events
    ensures Start(Ctl(s, Deinit, sys).state, allow, driverOk) == Reply(false, [])
    ensures Stop(Ctl(s, Deinit, sys).state) == []
    ensures SetInterval(Ctl(s, Deinit, sys).state, msecs, distance) == []
    ensures GetPosition(Ctl(s, Deinit, sys).state, driverOk) == PositionReply(false, Zeroed, [])
  {
  }

  /** Once an instance exists, `InitLocation` is a no-op whatever the
      configured driver, the registry's answer or the driver's `init`
      would be: a successful initialisation followed by any other one
      changes nothing and calls nothing. */
  lemma InitIdempotent(s: State, t: seq<Option<Driver>>, found: int, reply: Option<Instance>,
                       t': seq<Option<Driver>>, found': int, reply': Option<Instance>,
                       sys: SystemCallbacks, sys': SystemCallbacks)
    requires IsTable(t) && found < |t| - 1
    requires IsTable(t') && found' < |t'| - 1
    requires reply.Some?
    requires InitLocation(s, t, found, reply, sys).Initialized?
    ensures var first := InitLocation(s, t, found, reply, sys).step.state;
            InitLocation(first, t', found', reply', sys') == Initialized(Step(first, []))
  {
  }

  /** A driver whose `init` yields null leaves no instance and the active
      flag cleared, so the next `InitLocation` selects a driver and calls
      its `init` again. */
  lemma InitRetriesAfterFailure(s: State, t: seq<Option<Driver>>, found: int,
                                sys: SystemCallbacks, reply': Option<Instance>)
    requires IsTable(t) && found < |t| - 1
    requires s.data.None?
    requires InitLocation(s, t, found, None, sys).Initialized?
    ensures var after := InitLocation(s, t, found, None, sys).step.state;
            && after.data.None? && !after.active
            && InitLocation(after, t, found, reply', sys).Initialized?
            && InitLocation(after, t, found, reply', sys).step.events[0].DriverInit?
  {
  }

  /** After `Deinit` a new `InitLocation` is not a no-op: it calls the
      selected driver's `init` again. */
  lemma InitAfterDeinit(s: State, t: seq<Option<Driver>>, found: int,
                        reply: Option<Instance>, sys: SystemCallbacks)
    requires IsTable(t) && |t| >= 2 && found < |t| - 1
    ensures var r := InitLocation(Ctl(s, Deinit, sys).state, t, found, reply, sys);
            r.Initialized? && r.step.events[0].DriverInit? && r.step.state.data == reply
  {
  }

  /** Initialising through a driver with a `start` callback and a
      non-null instance makes `Start` forward to it exactly when location
      is allowed. */
  lemma StartAfterInit(s: State, t: seq<Option<Driver>>, found: int, inst: Instance,
                       sys: SystemCallbacks, allow: bool, driverOk: bool)
    requires IsTable(t) && |t| >= 2 && found < |t| - 1
    requires s.data.None?
    requires t[if found >= 0 then found else 0].value.hasStart
    ensures var after := InitLocation(s, t, found, Some(inst), sys).step.state;
            Start(after, allow, driverOk) ==
              if allow then Reply(driverOk, [DriverStart(inst)]) else Reply(false, [DisabledNotice])
  {
  }
}
