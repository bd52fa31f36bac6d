# Location driver control layer — a Dafny model

This project models the location (positioning) driver layer of the RetroArch
frontend, `location/location_driver.c`. The layer picks one driver from a
static, NULL-terminated table by its configured name, falling back to the
first entry when the name is unknown. It creates and frees that driver's
instance and forwards `start`, `stop`, `set_interval` and `get_position` to
it only when driver, instance and callback are all present. It also keeps
two hidden flags, "active" and "owns driver data", behind a single
multiplexed control function.

The module statics become one immutable record, `State(driver, data, active,
ownsData)`, and every operation is a pure function from a state to a new
state or a reply. Driver callbacks are external code. A `Driver` records
which optional callbacks it has. What a callback returns (the instance from
`init`, the boolean from `start` or `get_position`) is a parameter. Every
call into a driver or into the core's `initialized`/`deinitialized`
notifications is recorded as an `Event`. This way "free is called only
when …" and "nothing is forwarded" are statements about the event list.

Modules:

- `LocationTypes` (location_types.dfy): the state, the driver descriptor, the commands and the events.
- `DriverTable` (driver_table.dfy): the driver table, handle and identifier lookup, the listing of available drivers, and driver selection.
- `LocationDriver` (location_driver.dfy): the forwarding wrappers, `init_location`, `uninit_location` and `location_driver_ctl`.
- `LocationProperties` (location_properties.dfy): properties that relate several calls.
- `CtlSequences` (ctl_sequences.dfy): properties of arbitrary sequences of control commands.

Two external inputs are parameters:

- The registry's name lookup (`driver_ctl(RARCH_DRIVER_CTL_FIND_INDEX, …)`) becomes an index `found`. It is negative when the name is unknown and otherwise names a real table entry.
- The `location_allow` setting becomes the boolean `allow`.

## Model

| member | source | states |
|---|---|---|
| DriverTable.Drivers | location/location_driver.c:32-38 | the compiled table is well formed (terminator last, no null before it), has one or two real drivers, and the null driver sits just before the terminator |
| DriverTable.FindHandle | location/location_driver.c:50-56 | on a well-formed table the handle is null exactly at the terminator index; a non-null handle is the table entry |
| DriverTable.FindIdent | location/location_driver.c:65-71 | on a well-formed table the identifier is null exactly at the terminator; otherwise it is the entry's `ident` |
| DriverTable.HandleIdentAgree | location/location_driver.c:50-71 | the two lookups agree on every index: identifier null iff handle null, and otherwise the identifier names that handle |
| DriverTable.ListDrivers | location/location_driver.c:111-112 | the loop walking the table until the handle lookup yields null lists exactly the identifiers of all real drivers, in table order |
| DriverTable.FindDriver | location/location_driver.c:87-122 | a non-negative index selects that entry; a negative index falls back to entry 0, and the process aborts exactly when the table holds no driver |
| DriverTable.SelectionNeverNull | location/location_driver.c:96-121 | when the lookup reports a real driver or nothing, the selection is never the abort and never null |
| DriverTable.FallbackNeverAborts | location/location_driver.c:117-120 | in the compiled table the fallback picks the first real driver (Android when built for it, else the null driver), so the abort path is unreachable |
| LocationDriver.Start | location/location_driver.c:132-144 | true iff driver, instance and `start` are present, location is allowed and the driver's `start` succeeds; `start` is called only in that case; when `start` is reachable but location is disallowed, the one notice is the only effect and the result is false; otherwise false with no effect |
| LocationDriver.Stop | location/location_driver.c:154-158 | `stop` is called, at most once and on the current instance, iff driver, instance and `stop` are all present |
| LocationDriver.SetInterval | location/location_driver.c:168-175 | `set_interval` is called, at most once, with the instance and both parameters unchanged, iff driver, instance and `set_interval` are all present |
| LocationDriver.GetPosition | location/location_driver.c:190-203 | outputs are zeroed iff the callback is unreachable, and the result is then false; otherwise the driver's answer is returned and its call is the only effect |
| LocationDriver.Uninit | location/location_driver.c:227-241 | the instance is always forgotten and nothing else changes; `free` is called on an instance iff it is that instance, a driver is selected and it has `free`; the core's `deinitialized` is notified iff instance and driver exist and the callback is registered; these are the only effects, each happens at most once, and the notification comes before `free` |
| LocationDriver.Ctl | location/location_driver.c:243-279 | every command but the two queries returns true, unrecognised ones included; `OwnsDriver` and `IsActive` return their flag; only `Deinit` touches the instance or has effects, and its new state and effects are exactly those of `uninit_location` |
| LocationDriver.InitLocation | location/location_driver.c:205-225 | a no-op when an instance exists; otherwise it selects the driver, calls its `init` first, keeps what `init` returned, clears the active flag iff `init` returned null, keeps the ownership flag and notifies the core iff the callback is registered, with no other effect; it aborts only when selection aborts |
| LocationProperties.ActiveRoundTrip | location/location_driver.c:266-273 | `SetActive` then `IsActive` answers true; `UnsetActive` then `IsActive` answers false; both change only the active flag |
| LocationProperties.InitialState | location/location_driver.c:245-246 | both hidden flags start false (as do the zero-initialised handle and instance statics) so both queries answer false, and `start` and `get_position` are not forwarded |
| LocationProperties.OwnershipRoundTrip | location/location_driver.c:258-265 | `OwnsDriver` answers the value just set or unset; only the ownership flag changes; setting or unsetting twice equals once |
| LocationProperties.QueriesChangeNothing | location/location_driver.c:264-273 | the two queries leave the state unchanged and have no effect |
| LocationProperties.DestroyForgetsDriver | location/location_driver.c:250-254 | `Destroy` clears both flags and the handle and keeps the instance; afterwards none of `start`, `stop`, `set_interval` and `get_position` is forwarded |
| LocationProperties.DeinitForgetsInstance | location/location_driver.c:255-257 | `Deinit` forgets only the instance and has exactly the effects of `uninit_location`; afterwards none of `start`, `stop`, `set_interval` and `get_position` is forwarded |
| LocationProperties.InitIdempotent | location/location_driver.c:209-211 | after a successful initialisation, any further `init_location` changes nothing and calls nothing |
| LocationProperties.InitRetriesAfterFailure | location/location_driver.c:215-221 | a null `init` result leaves no instance and the active flag cleared, and the next `init_location` calls `init` again |
| LocationProperties.InitAfterDeinit | location/location_driver.c:205-241 | after `Deinit` a new `init_location` is not a no-op: it calls `init` and keeps its result |
| LocationProperties.StartAfterInit | location/location_driver.c:136-139 | after initialising a driver that has `start`, `Start` forwards to it on the new instance exactly when location is allowed |
| CtlSequences.CtlFlagStep | location/location_driver.c:248-276 | each command raises a flag iff it is that flag's setter, lowers it iff it is one of its clearers (`Destroy` clears both), and otherwise keeps it |
| CtlSequences.FlagAfterRun | location/location_driver.c:243-279 | after any command sequence a flag is raised iff the last command writing it raised it, or nothing wrote it and it was raised before |
| CtlSequences.QueryAfterRun | location/location_driver.c:264-273 | `IsActive` and `OwnsDriver` after any history answer what the last write of their flag decided |
| CtlSequences.HandlesAfterRun | location/location_driver.c:250-257 | after any command sequence the driver handle is null if `Destroy` occurred, otherwise unchanged; the instance is null if `Deinit` occurred, otherwise unchanged |
| CtlSequences.FreedAtMostOnce | location/location_driver.c:231-240 | across any command sequence the driver's `free` runs at most once, and never when there was no instance to start with |
| CtlSequences.DestroyThenDeinitReleasesNothing | location/location_driver.c:231-253 | after `Destroy` has nulled the handle, `Deinit` has no effect at all (no `deinitialized` notification, no `free`) and leaves no handle, no instance and both flags false |

## Left out

- `tasks/tasks_internal.h`: it declares the background task push operations but contains no bodies, so there is no behaviour to model.
- `config_get_location_driver_options` (location/location_driver.c:82-85) only builds a display string through an external list helper.
- The registry's name lookup is external. It becomes the index `found`. `InitLocation` requires that a non-negative index names a real driver (`found < |t| - 1`). At the terminator index the C code would store a null handle and then call `init` through it, which is undefined behaviour.
- The bodies of the concrete drivers (`location_android`, `location_null`) are not part of this model. `Drivers` takes them as parameters, and their identifiers are not fixed.
- Logging (`RARCH_ERR`, `RARCH_LOG_OUTPUT`, `RARCH_WARN`) and the verbosity switch are output only. `ListDrivers` models the enumeration those logs perform, regardless of verbosity.
- `runloop_msg_queue_push` is recorded as the single `DisabledNotice` event. Its text, duration and category are not modelled.
- `retroarch_fail` does not return. It is modelled as the `Abort` / `Aborted` outcome.
- LocationDriver.GetPosition: the four `double` outputs are abstracted to "all zeroed" versus "written by the driver". No floating-point values are modelled.
- The settings lookup (`config_get_ptr`) and the system-info lookup are replaced by the `allow` and `SystemCallbacks` parameters.
- Process-wide statics and concurrency: the C layer is single-threaded and the model is sequential.
