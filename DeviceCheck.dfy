/**
 * The decision logic of `checkDevices`: initialise the debug bridge unless it
 * is already connected, wait for it with two bounded polling loops, and then
 * select the first attached device or report why there is none.
 */
module DeviceCheck {
  import opened Wrappers
  import opened AdbLocator

  const STATUS_SEARCHING := "Device: Searching..."
  const STATUS_NOT_FOUND := "Device: Not found"
  const STATUS_ADB_NOT_FOUND := "Device: adb not found"
  const STATUS_PREFIX := "Device: "
  const CONNECTED_SUFFIX := " (Connected)"
  const ERROR_PREFIX := "Device: Error - "

  /** Each polling loop starts from this many milliseconds ... */
  const TIMEOUT_MS := 5000
  /** ... and takes this many off per sleep. */
  const SLEEP_MS := 100
  const MAX_SLEEPS := TIMEOUT_MS / SLEEP_MS

  /** `STATUS_CONNECTED.format(name)`: the name, framed by a fixed prefix and suffix. */
  function ConnectedStatus(name: string): (r: string)
    ensures |r| == |STATUS_PREFIX| + |name| + |CONNECTED_SUFFIX|
    ensures r[..|STATUS_PREFIX|] == STATUS_PREFIX && r[|r| - |CONNECTED_SUFFIX|..] == CONNECTED_SUFFIX
    ensures r[|STATUS_PREFIX|..|r| - |CONNECTED_SUFFIX|] == name
  {
    STATUS_PREFIX + name + CONNECTED_SUFFIX
  }

  /** `STATUS_ERROR.format(e.message ?: "Unknown error")`. */
  function ErrorStatus(message: Option<string>): (r: string)
    ensures |r| >= |ERROR_PREFIX| && r[..|ERROR_PREFIX|] == ERROR_PREFIX
    ensures message.Some? ==> r[|ERROR_PREFIX|..] == message.value
    ensures message.None? ==> r[|ERROR_PREFIX|..] == "Unknown error"
  {
    ERROR_PREFIX + message.GetOr("Unknown error")
  }

  /** No status line that ends a check reads as "Searching...". */
  lemma FinalStatusesAreNotSearching(name: string, message: Option<string>)
    ensures ConnectedStatus(name) != STATUS_SEARCHING
    ensures ErrorStatus(message) != STATUS_SEARCHING
    ensures STATUS_NOT_FOUND != STATUS_SEARCHING && STATUS_ADB_NOT_FOUND != STATUS_SEARCHING
  {
    var c := ConnectedStatus(name);
    assert c[|c| - 1] == ')';
    assert STATUS_SEARCHING[|STATUS_SEARCHING| - 1] == '.';
    var e := ErrorStatus(message);
    assert e[8] == 'E';
    assert STATUS_SEARCHING[8] == 'S';
  }

  /** One attached device as the bridge reports it; either name may be null. */
  datatype Device = Device(name: Option<string>, serialNumber: Option<string>)

  /** `name ?: serialNumber ?: "Unknown"`: the name wins, the serial number stands in for it. */
  function DisplayName(d: Device): (r: string)
    ensures d.name.Some? ==> r == d.name.value
    ensures d.name.None? && d.serialNumber.Some? ==> r == d.serialNumber.value
    ensures d.name.None? && d.serialNumber.None? ==> r == "Unknown"
  {
    d.name.GetOr(d.serialNumber.GetOr("Unknown"))
  }

  /** The `bridge` field: null, or a bridge created for an adb path. */
  datatype BridgeHandle = NoBridge | Bridge(adbPath: string)

  /**
   * What creating a bridge does: it throws, it returns null (the library's
   * answer when creating or connecting the bridge fails), or it yields a
   * bridge that reports connected (and, separately, its initial device list)
   * once the given number of 100 ms sleeps has elapsed; None is never.
   */
  datatype Creation =
    | CreateThrows(message: Option<string>)
    | CreateReturnsNull
    | Created(connectedAfter: Option<nat>, deviceListAfter: Option<nat>)

  /**
   * The bridge library's side of one check: whether an existing bridge still
   * reports connected, what creating a new one does, and the device list it
   * reports at the end.
   */
  datatype BridgeWorld = BridgeWorld(stillConnected: bool, creation: Creation, devices: seq<Device>)

  /** What a readiness query answers once `sleeps` sleeps have elapsed. */
  predicate IsReady(readyAfter: Option<nat>, sleeps: nat)
  {
    readyAfter.Some? && readyAfter.value <= sleeps
  }

  /** The number of sleeps a polling loop takes. */
  function SleepsTaken(readyAfter: Option<nat>): nat
  {
    match readyAfter
    case Some(k) => if k < MAX_SLEEPS then k else MAX_SLEEPS
    case None => MAX_SLEEPS
  }

  /**
   * One polling loop of `checkDevices`: `while (!ready && timeout > 0) { sleep(100); timeout -= 100 }`.
   * `sleeps` counts the sleeps taken; `timeout` is the counter's final value.
   */
  method PollUntil(readyAfter: Option<nat>) returns (sleeps: nat, timeout: int)
    ensures 0 <= timeout && timeout == TIMEOUT_MS - SLEEP_MS * sleeps
    ensures sleeps <= MAX_SLEEPS
    ensures !IsReady(readyAfter, sleeps) ==> timeout == 0
    ensures forall k :: 0 <= k < sleeps ==> !IsReady(readyAfter, k)
  {
    timeout := TIMEOUT_MS;
    sleeps := 0;
    while !IsReady(readyAfter, sleeps) && timeout > 0
      invariant 0 <= timeout && timeout == TIMEOUT_MS - SLEEP_MS * sleeps
      invariant forall k :: 0 <= k < sleeps ==> !IsReady(readyAfter, k)
      decreases timeout
    {
      sleeps := sleeps + 1;
      timeout := timeout - SLEEP_MS;
    }
  }

  /** What `PollUntil` promises pins the number of sleeps down to `SleepsTaken`. */
  lemma PollSleepsDetermined(readyAfter: Option<nat>, sleeps: nat)
    requires sleeps <= MAX_SLEEPS
    requires IsReady(readyAfter, sleeps) || sleeps == MAX_SLEEPS
    requires forall k :: 0 <= k < sleeps ==> !IsReady(readyAfter, k)
    ensures sleeps == SleepsTaken(readyAfter)
  {
    if readyAfter.Some? && readyAfter.value < sleeps {
      assert IsReady(readyAfter, readyAfter.value);
    }
  }

  /** A loop ends ready exactly when readiness comes within the 50 sleeps the timeout allows. */
  lemma ReadyWithinTimeout(readyAfter: Option<nat>)
    ensures IsReady(readyAfter, SleepsTaken(readyAfter)) <==> readyAfter.Some? && readyAfter.value <= MAX_SLEEPS
  {
  }

  /** How far a check got: whether it looked for adb, the sleeps of each loop, whether it polled the device list. */
  datatype CheckTrace = CheckTrace(located: bool, connectSleeps: nat, listPolled: bool, listSleeps: nat)

  /** The `bridge`, `connectedDevice` and status after a check, with its trace. */
  datatype CheckOutcome = CheckOutcome(bridge: BridgeHandle, device: Option<Device>, status: string, trace: CheckTrace)

  /** The end of every check that gets a device list: element 0, or none. */
  function SelectDevice(bridge: BridgeHandle, devices: seq<Device>, trace: CheckTrace): CheckOutcome
  {
    if |devices| > 0 then CheckOutcome(bridge, Some(devices[0]), ConnectedStatus(DisplayName(devices[0])), trace)
    else CheckOutcome(bridge, None, STATUS_NOT_FOUND, trace)
  }

  /** Bridge initialisation runs when there is no bridge or it no longer reports connected. */
  predicate NeedsInit(bridge: BridgeHandle, world: BridgeWorld)
  {
    bridge.NoBridge? || !world.stillConnected
  }

  /**
   * The state a device check leaves behind, from the state it starts in.
   * A null bridge is stored before the first loop dereferences it with `!!`;
   * the resulting NullPointerException carries no message.
   */
  function CheckDevicesOutcome(bridge: BridgeHandle, env: AdbEnv, world: BridgeWorld): (r: CheckOutcome)
    ensures r.device.Some? ==> r.bridge.Bridge? && r.status == ConnectedStatus(DisplayName(r.device.value))
    ensures r.bridge == bridge || r.bridge == NoBridge || (AdbPath(env).Some? && r.bridge == Bridge(AdbPath(env).value))
  {
    if !NeedsInit(bridge, world) then SelectDevice(bridge, world.devices, CheckTrace(false, 0, false, 0))
    else match AdbPath(env)
      case None => CheckOutcome(bridge, None, STATUS_ADB_NOT_FOUND, CheckTrace(true, 0, false, 0))
      case Some(adbPath) =>
        match world.creation
        case CreateThrows(message) => CheckOutcome(bridge, None, ErrorStatus(message), CheckTrace(true, 0, false, 0))
        case CreateReturnsNull => CheckOutcome(NoBridge, None, ErrorStatus(None), CheckTrace(true, 0, false, 0))
        case Created(connectedAfter, deviceListAfter) =>
          var connectSleeps := SleepsTaken(connectedAfter);
          if !IsReady(connectedAfter, connectSleeps) then
            CheckOutcome(Bridge(adbPath), None, STATUS_ADB_NOT_FOUND, CheckTrace(true, connectSleeps, false, 0))
          else
            SelectDevice(Bridge(adbPath), world.devices, CheckTrace(true, connectSleeps, true, SleepsTaken(deviceListAfter)))
  }

  /** A check reaches device selection: the bridge was connected already, or a new one connected in time. */
  predicate ReachesSelection(bridge: BridgeHandle, env: AdbEnv, world: BridgeWorld)
  {
    !NeedsInit(bridge, world)
    || (AdbPath(env).Some? && world.creation.Created?
        && world.creation.connectedAfter.Some? && world.creation.connectedAfter.value <= MAX_SLEEPS)
  }

  /** A connected bridge is reused: adb is not looked for, nothing is created, no loop runs. */
  lemma ConnectedBridgeIsReused(bridge: BridgeHandle, env: AdbEnv, world: BridgeWorld, otherEnv: AdbEnv, otherCreation: Creation)
    requires !NeedsInit(bridge, world)
    ensures var o := CheckDevicesOutcome(bridge, env, world);
      o.bridge == bridge && o.trace == CheckTrace(false, 0, false, 0)
      && CheckDevicesOutcome(bridge, otherEnv, world.(creation := otherCreation)) == o
  {
  }

  /** Without an adb path the check stops with "adb not found" before creating a bridge. */
  lemma MissingAdbStopsCheck(bridge: BridgeHandle, env: AdbEnv, world: BridgeWorld)
    requires NeedsInit(bridge, world) && AdbPath(env).None?
    ensures var o := CheckDevicesOutcome(bridge, env, world);
      o.status == STATUS_ADB_NOT_FOUND && o.device.None? && o.bridge == bridge
      && o.trace.connectSleeps == 0 && !o.trace.listPolled
  {
  }

  /**
   * A bridge still unconnected after the first loop gives "adb not found" and
   * no device, after the full 50 sleeps, and the device-list loop is never entered.
   */
  lemma UnconnectedBridgeStopsCheck(bridge: BridgeHandle, env: AdbEnv, world: BridgeWorld)
    requires NeedsInit(bridge, world) && AdbPath(env).Some? && world.creation.Created?
    requires world.creation.connectedAfter.None? || world.creation.connectedAfter.value > MAX_SLEEPS
    ensures var o := CheckDevicesOutcome(bridge, env, world);
      o.status == STATUS_ADB_NOT_FOUND && o.device.None? && o.bridge == Bridge(AdbPath(env).value)
      && o.trace.connectSleeps == MAX_SLEEPS && !o.trace.listPolled && o.trace.listSleeps == 0
  {
  }

  /**
   * A bridge library that answers null leaves the field null and the check
   * failing with "Unknown error"; the next check therefore starts over,
   * whatever the library then says about connection.
   */
  lemma NullBridgeIsForgotten(bridge: BridgeHandle, env: AdbEnv, world: BridgeWorld, next: BridgeWorld)
    requires NeedsInit(bridge, world) && AdbPath(env).Some? && world.creation == CreateReturnsNull
    ensures var o := CheckDevicesOutcome(bridge, env, world);
      o.bridge == NoBridge && o.device.None? && o.status == ErrorStatus(None)
      && !o.trace.listPolled && NeedsInit(o.bridge, next)
  {
  }

  /**
   * A check holds a device exactly when it reaches selection with a non-empty
   * list; the device is element 0 and the status names it; an empty list
   * reads "Not found".
   */
  lemma DeviceSelection(bridge: BridgeHandle, env: AdbEnv, world: BridgeWorld)
    ensures var o := CheckDevicesOutcome(bridge, env, world);
      (o.device.Some? <==> ReachesSelection(bridge, env, world) && |world.devices| > 0)
      && (o.device.Some? ==> o.device.value == world.devices[0] && o.status == ConnectedStatus(DisplayName(world.devices[0])))
      && (ReachesSelection(bridge, env, world) && |world.devices| == 0 ==> o.status == STATUS_NOT_FOUND)
  {
  }

  /** Every check waits at most 50 sleeps per loop, and ends with a status other than "Searching...". */
  lemma CheckIsBoundedAndSettles(bridge: BridgeHandle, env: AdbEnv, world: BridgeWorld)
    ensures var o := CheckDevicesOutcome(bridge, env, world);
      o.trace.connectSleeps <= MAX_SLEEPS && o.trace.listSleeps <= MAX_SLEEPS
      && (!o.trace.listPolled ==> o.trace.listSleeps == 0)
      && (o.trace.listPolled ==> NeedsInit(bridge, world) && AdbPath(env).Some? && world.creation.Created?
                                 && IsReady(world.creation.connectedAfter, o.trace.connectSleeps))
      && o.status != STATUS_SEARCHING
  {
    if !NeedsInit(bridge, world) || AdbPath(env).None? {
    } else if !world.creation.Created? {
      FinalStatusesAreNotSearching("", if world.creation.CreateThrows? then world.creation.message else None);
    } else {
      var c := world.creation;
      if IsReady(c.connectedAfter, SleepsTaken(c.connectedAfter)) && |world.devices| > 0 {
        FinalStatusesAreNotSearching(DisplayName(world.devices[0]), None);
      }
    }
    if !NeedsInit(bridge, world) && |world.devices| > 0 {
      FinalStatusesAreNotSearching(DisplayName(world.devices[0]), None);
    }
  }
}
