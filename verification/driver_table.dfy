/** The static, NULL-terminated table of location drivers and driver
    selection with fallback to the first entry. */

module DriverTable {
  import opened LocationTypes

  /** A driver table as the C code lays it out: at least the terminator,
      the terminator last, and no null entry before it. */
  ghost predicate IsTable(t: seq<Option<Driver>>) {
    && |t| >= 1
    && t[|t| - 1].None?
    && forall i :: 0 <= i < |t| - 1 ==> t[i].Some?
  }

  /** The table as compiled: the Android driver first when building for
      Android, then the null driver, then the terminator. */
  function Drivers(android: bool, androidDriver: Driver, nullDriver: Driver): (t: seq<Option<Driver>>)
    ensures IsTable(t)
    ensures |t| - 1 == (if android then 2 else 1)
    ensures t[|t| - 2] == Some(nullDriver)
    ensures android ==> t[0] == Some(androidDriver)
  {
    (if android then [Some(androidDriver)] else []) + [Some(nullDriver), None]
  }

  /** `location_driver_find_handle`: the entry at `idx`, null at the
      terminator. Reading outside the array is undefined in C, hence the
      bound. */
  function FindHandle(t: seq<Option<Driver>>, idx: int): (r: Option<Driver>)
    requires 0 <= idx < |t|
    ensures IsTable(t) ==> (r.None? <==> idx == |t| - 1)
    ensures r.Some? ==> t[idx] == r
  {
    t[idx]
  }

  /** `location_driver_find_ident`: the identifier of the entry at `idx`,
      null at the terminator. */
  function FindIdent(t: seq<Option<Driver>>, idx: int): (r: Option<string>)
    requires 0 <= idx < |t|
    ensures IsTable(t) ==> (r.None? <==> idx == |t| - 1)
    ensures r.Some? ==> t[idx].Some? && r.value == t[idx].value.ident
  {
    match t[idx]
    case None => None
    case Some(d) => Some(d.ident)
  }

  /** The handle and identifier lookups agree on every index: the
      identifier is null exactly when the handle is, and otherwise names it. */
  lemma HandleIdentAgree(t: seq<Option<Driver>>, idx: int)
    requires 0 <= idx < |t|
    ensures FindIdent(t, idx).None? <==> FindHandle(t, idx).None?
    ensures FindHandle(t, idx).Some? ==> FindIdent(t, idx) == Some(FindHandle(t, idx).value.ident)
  {
  }

  /** The "available drivers" listing printed when the configured name is
      not found: walk the table with `FindHandle` until it yields null,
      collecting each identifier with `FindIdent`. It lists every real
      driver, in table order, and nothing else. */
  method ListDrivers(t: seq<Option<Driver>>) returns (names: seq<string>)
    requires IsTable(t)
    ensures |names| == |t| - 1
    ensures forall k :: 0 <= k < |names| ==> t[k].Some? && names[k] == t[k].value.ident
  {
    names := [];
    var d := 0;
    while FindHandle(t, d).Some?
      invariant 0 <= d <= |t| - 1
      invariant |names| == d
      invariant forall k :: 0 <= k < d ==> t[k].Some? && names[k] == t[k].value.ident
      decreases |t| - d
    {
      var ident := FindIdent(t, d);
      names := names + [ident.value];
      d := d + 1;
    }
  }

  /** Outcome of `find_location_driver`: the handle it stores, or the
      process abort of `retroarch_fail`. */
  datatype Selection = Chosen(handle: Option<Driver>) | Abort

  /** `find_location_driver`. `found` is the index the name lookup in the
      driver registry reports for the configured driver name, negative when
      the name is unknown. A non-negative index selects that entry; a
      negative one falls back to entry 0 and aborts if that is null. */
  function FindDriver(t: seq<Option<Driver>>, found: int): (r: Selection)
    requires IsTable(t)
    requires found < |t|
    ensures found >= 0 ==> r == Chosen(t[found])
    ensures found < 0 ==> (r.Abort? <==> |t| == 1)
    ensures found < 0 && r.Chosen? ==> r.handle == t[0] && r.handle.Some?
  {
    if found >= 0 then
      Chosen(FindHandle(t, found))
    else
      var h := FindHandle(t, 0);
      if h.None? then Abort else Chosen(h)
  }

  /** Whenever the name lookup reports a real driver or nothing at all,
      the selection is a non-null driver and never the abort. */
  lemma SelectionNeverNull(t: seq<Option<Driver>>, found: int)
    requires IsTable(t) && |t| >= 2
    requires found < |t| - 1
    ensures FindDriver(t, found).Chosen?
    ensures FindDriver(t, found).handle.Some?
    ensures FindDriver(t, found).handle == t[if found >= 0 then found else 0]
  {
  }

  /** In the compiled table the null driver always precedes the
      terminator, so the fallback to entry 0 can never abort. */
  lemma FallbackNeverAborts(android: bool, androidDriver: Driver, nullDriver: Driver, found: int)
    requires found < 0
    ensures FindDriver(Drivers(android, androidDriver, nullDriver), found)
            == Chosen(Some(if android then androidDriver else nullDriver))
  {
  }
}
