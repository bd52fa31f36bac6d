/** Data model of the location driver layer: the driver descriptor, the
    driver instance, the module state and the observable effects of each
    operation, shared by the driver table, the control layer and the
    lemmas. */
module LocationTypes {

  /** A possibly-null pointer. */
  datatype Option<+T> = None | Some(value: T)

  /** An unsigned 32-bit C integer, as taken by `set_interval`. */
  newtype u32 = x: int | 0 <= x < 0x1_0000_0000

  /** The opaque instance returned by a driver's `init` callback. */
  datatype Instance = Instance(id: nat)

  /** A location driver descriptor. `init` is always called without a null
      check, so it is assumed present; every other callback may be null,
      which is recorded by the `has…` flags. */
  datatype Driver = Driver(
    ident: string,
    hasStart: bool,
    hasStop: bool,
    hasSetInterval: bool,
    hasGetPosition: bool,
    hasFree: bool)

  /** The four pieces of module state: the selected driver handle, the
      driver instance and the two flags kept inside the control function. */
  datatype State = State(
    driver: Option<Driver>,
    data: Option<Instance>,
    active: bool,
    ownsData: bool)

  /** State at program start: every static starts out null or false. */
  const Initial: State := State(None, None, false, false)

  /** Whether the frontend registered the `initialized` / `deinitialized`
      callbacks of the running core's location interface. */
  datatype SystemCallbacks = SystemCallbacks(initialized: bool, deinitialized: bool)

  /** Commands of the multiplexed control function. `Other` stands for any
      value of the enumeration without a case of its own. */
  datatype Command =
    | Destroy
    | Deinit
    | SetOwnDriver
    | UnsetOwnDriver
    | OwnsDriver
    | SetActive
    | UnsetActive
    | IsActive
    | Other(code: int)

  /** Observable effects: calls into the driver, calls into the core's
      notification callbacks, and the on-screen notice. */
  datatype Event =
    | DriverInit(ident: string)
    | DriverStart(data: Instance)
    | DriverStop(data: Instance)
    | DriverSetInterval(data: Instance, msecs: u32, distance: u32)
    | DriverGetPosition(data: Instance)
    | DriverFree(data: Instance)
    | NotifyInitialized
    | NotifyDeinitialized
    | DisabledNotice

  /** A state transition together with the effects it caused. */
  datatype Step = Step(state: State, events: seq<Event>)

  /** A reply of an operation that leaves the state alone. */
  datatype Reply = Reply(ret: bool, events: seq<Event>)

  /** What the four position outputs hold after `get_position`: either all
      set to zero by the control layer, or whatever the driver wrote. */
  datatype Fix = Zeroed | FromDriver

  datatype PositionReply = PositionReply(ret: bool, fix: Fix, events: seq<Event>)
}
