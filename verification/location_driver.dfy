/** The location driver control layer: guarded forwarding to the selected
    driver, initialisation and teardown of the driver instance, and the
    multiplexed control function over the hidden flags.

    Driver callbacks are external: what they return is passed in as a
    parameter (`driverOk`, `initReply`), and each call made into them is
    recorded as an `Event`. */

module LocationDriver {
  import opened LocationTypes
  import opened DriverTable

  /** The optional callback slots of a driver. */
  datatype Callback = StartCb | StopCb | SetIntervalCb | GetPositionCb

  predicate Has(d: Driver, cb: Callback) {
    match cb
    case StartCb => d.hasStart
    case StopCb => d.hasStop
    case SetIntervalCb => d.hasSetInterval
    case GetPositionCb => d.hasGetPosition
  }

  /** A callback of the selected driver is reachable: driver and instance
      are both non-null and the callback's slot is filled. */
  predicate Forwards(s: State, cb: Callback) {
    s.driver.Some? && s.data.Some? && Has(s.driver.value, cb)
  }

  predicate CanStart(s: State) { Forwards(s, StartCb) }
  predicate CanStop(s: State) { Forwards(s, StopCb) }
  predicate CanSetInterval(s: State) { Forwards(s, SetIntervalCb) }
  predicate CanGetPosition(s: State) { Forwards(s, GetPositionCb) }

  /** `driver_location_start`. `allow` is the user's "allow location"
      setting and `driverOk` what the driver's `start` would return.
      Only a reachable `start` with location allowed is called, and only
      its answer can make the result true; with `start` reachable but
      location disallowed the user is shown a notice instead. */
  function Start(s: State, allow: bool, driverOk: bool): (r: Reply)
    ensures r.ret <==> CanStart(s) && allow && driverOk
    ensures forall e :: e in r.events && e.DriverStart? ==> CanStart(s) && allow && s.data == Some(e.data)
    ensures CanStart(s) && allow ==> r.events == [DriverStart(s.data.value)]
    ensures DisabledNotice in r.events <==> CanStart(s) && !allow
    ensures CanStart(s) && !allow ==> r == Reply(false, [DisabledNotice])
    ensures !CanStart(s) ==> r == Reply(false, [])
  {
    if CanStart(s) then
      if allow then Reply(driverOk, [DriverStart(s.data.value)])
      else Reply(false, [DisabledNotice])
    else
      Reply(false, [])
  }

  /** `driver_location_stop`: calls the driver's `stop` on the instance
      when it is reachable, and does nothing otherwise. */
  function Stop(s: State): (events: seq<Event>)
    ensures |events| <= 1
    ensures events != [] <==> CanStop(s)
    ensures forall e :: e in events ==> e.DriverStop? && Some(e.data) == s.data
  {
    if CanStop(s) then [DriverStop(s.data.value)] else []
  }

  /** `driver_location_set_interval`: passes both parameters unchanged to
      the driver's `set_interval` when it is reachable, and does nothing
      otherwise. */
  function SetInterval(s: State, msecs: u32, distance: u32): (events: seq<Event>)
    ensures |events| <= 1
    ensures events != [] <==> CanSetInterval(s)
    ensures forall e :: e in events ==>
              e.DriverSetInterval? && Some(e.data) == s.data && e.msecs == msecs && e.distance == distance
  {
    if CanSetInterval(s) then [DriverSetInterval(s.data.value, msecs, distance)] else []
  }

  /** `driver_location_get_position`. When the driver's `get_position` is
      reachable its answer `driverOk` is returned and the outputs are what
      it wrote; otherwise all four outputs are zeroed and the result is
      false. */
  function GetPosition(s: State, driverOk: bool): (r: PositionReply)
    ensures r.fix == Zeroed <==> !CanGetPosition(s)
    ensures r.ret ==> CanGetPosition(s) && driverOk
    ensures CanGetPosition(s) ==> r.ret == driverOk && r.events == [DriverGetPosition(s.data.value)]
    ensures !CanGetPosition(s) ==> r.events == []
  {
    if CanGetPosition(s) then PositionReply(driverOk, FromDriver, [DriverGetPosition(s.data.value)])
    else PositionReply(false, Zeroed, [])
  }

  /** `uninit_location`: frees the instance through the driver when both
      are present (notifying the core first), and always forgets the
      instance. Neither flag nor the driver handle changes. */
  function Uninit(s: State, sys: SystemCallbacks): (r: Step)
    ensures r.state == s.(data := None)
    ensures forall d :: DriverFree(d) in r.events <==>
              s.data == Some(d) && s.driver.Some? && s.driver.value.hasFree
    ensures NotifyDeinitialized in r.events <==> s.data.Some? && s.driver.Some? && sys.deinitialized
    ensures |r.events| <= 2
    ensures forall e :: e in r.events ==> e == NotifyDeinitialized || e.DriverFree?
    ensures forall i, j :: 0 <= i < j < |r.events| ==> r.events[i] == NotifyDeinitialized && r.events[j].DriverFree?
  {
    var events :=
      if s.data.Some? && s.driver.Some? then
        (if sys.deinitialized then [NotifyDeinitialized] else [])
        + (if s.driver.value.hasFree then [DriverFree(s.data.value)] else [])
      else [];
    Step(s.(data := None), events)
  }

  /** Result of the control function: the new state, the boolean it
      returns and the effects of `Deinit`. */
  datatype CtlResult = CtlResult(state: State, ret: bool, events: seq<Event>)

  /** `location_driver_ctl`. The two queries return a flag; every other
      command, including unrecognised ones, returns true. */
  function Ctl(s: State, cmd: Command, sys: SystemCallbacks): (r: CtlResult)
    ensures cmd != OwnsDriver && cmd != IsActive ==> r.ret
    ensures cmd == OwnsDriver ==> r.ret == s.ownsData
    ensures cmd == IsActive ==> r.ret == s.active
    ensures !cmd.Deinit? ==> r.events == [] && r.state.data == s.data
    ensures cmd.Deinit? ==> r.state == Uninit(s, sys).state && r.events == Uninit(s, sys).events
  {
    match cmd
    case Destroy => CtlResult(s.(active := false, ownsData := false, driver := None), true, [])
    case Deinit =>
      var u := Uninit(s, sys);
      CtlResult(u.state, true, u.events)
    case SetOwnDriver => CtlResult(s.(ownsData := true), true, [])
    case UnsetOwnDriver => CtlResult(s.(ownsData := false), true, [])
    case OwnsDriver => CtlResult(s, s.ownsData, [])
    case SetActive => CtlResult(s.(active := true), true, [])
    case UnsetActive => CtlResult(s.(active := false), true, [])
    case IsActive => CtlResult(s, s.active, [])
    case Other(_) => CtlResult(s, true, [])
  }

  /** Outcome of `init_location`: a step, or the process abort raised while
      selecting the driver. */
  datatype InitResult = Initialized(step: Step) | Aborted

  /** `init_location`. `found` is the registry's index for the configured
      driver name (negative when unknown; otherwise a real entry, since the
      selected driver's `init` is then called without a null check) and
      `initReply` what that `init` returns. With an instance already
      present nothing happens at all. Otherwise the driver is selected,
      its `init` is called, a null instance clears the active flag, and the
      core is notified. */
  function InitLocation(s: State, t: seq<Option<Driver>>, found: int,
                        initReply: Option<Instance>, sys: SystemCallbacks): (r: InitResult)
    requires IsTable(t)
    requires found < |t| - 1
    ensures s.data.Some? ==> r == Initialized(Step(s, []))
    ensures r.Aborted? <==> s.data.None? && found < 0 && |t| == 1
    ensures r.Initialized? && s.data.None? ==>
              && r.step.state.driver == t[if found >= 0 then found else 0]
              && r.step.state.driver.Some?
              && r.step.state.data == initReply
              && r.step.state.active == (initReply.Some? && s.active)
              && r.step.state.ownsData == s.ownsData
              && |r.step.events| >= 1 && r.step.events[0] == DriverInit(r.step.state.driver.value.ident)
              && |r.step.events| == 1 + (if sys.initialized then 1 else 0)
              && (NotifyInitialized in r.step.events <==> sys.initialized)
  {
    if s.data.Some? then
      Initialized(Step(s, []))
    else
      match FindDriver(t, found)
      case Abort => Aborted
      case Chosen(h) =>
        var selected := s.(driver := h, data := initReply);
        var after := if initReply.None? then Ctl(selected, UnsetActive, sys).state else selected;
        Initialized(Step(after, [DriverInit(h.value.ident)]
                                + (if sys.initialized then [NotifyInitialized] else [])))
  }
}
