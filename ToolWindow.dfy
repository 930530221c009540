/**
 * The state of the screenshot tool window (`ScreenshotToolWindowContent`):
 * the save directory, the debug bridge, the connected device and the status
 * line, and the three operations that change or use them.
 */
module ToolWindow {
  import opened Wrappers
  import opened Files
  import opened AdbLocator
  import opened DeviceCheck
  import opened ShellOutput
  import opened ScreenshotName

  /** The project's persisted settings: one nullable path. */
  class ScreenshotSettings {
    var saveDirectoryPath: Option<string>

    constructor (saved: Option<string>)
      ensures saveDirectoryPath == saved
    {
      saveDirectoryPath := saved;
    }
  }

  /**
   * What `loadSavedDirectory` leaves: a usable saved path becomes the save
   * directory; any other non-empty saved path is cleared from the settings;
   * a null or empty one changes nothing.
   */
  predicate LoadsSavedDirectory(
    saved: Option<string>, fs: FileSystem,
    dirBefore: Option<string>, dirAfter: Option<string>, savedAfter: Option<string>)
  {
    if saved.None? || saved.value == "" then dirAfter == dirBefore && savedAfter == saved
    else if IsDirectory(fs, saved.value) then dirAfter == saved && savedAfter == saved
    else dirAfter == dirBefore && savedAfter.None?
  }

  /**
   * Loading keeps or clears the saved path and never invents one, and a
   * second load on the same file system changes nothing more.
   */
  lemma LoadingSettles(
    saved: Option<string>, fs: FileSystem,
    dir0: Option<string>, dir1: Option<string>, saved1: Option<string>,
    dir2: Option<string>, saved2: Option<string>)
    requires LoadsSavedDirectory(saved, fs, dir0, dir1, saved1)
    requires LoadsSavedDirectory(saved1, fs, dir1, dir2, saved2)
    ensures saved1 == saved || saved1.None?
    ensures dir1 == dir0 || dir1 == saved
    ensures dir2 == dir1 && saved2 == saved1
  {
  }

  /** What `writeBytes` does. */
  datatype WriteResult = Written | WriteThrows(message: Option<string>)

  /** How a screenshot request ends; every case but `Saved` is an error dialog. */
  datatype ScreenshotOutcome =
    | NeedSaveDirectory
    | NoRunningDevice
    | CaptureFailed
    | Saved(file: string, png: seq<Byte>)
    | SaveFailed(message: Option<string>)

  class ScreenshotToolWindowContent {
    var saveDirectory: Option<string>
    var connectedDevice: Option<Device>
    var bridge: BridgeHandle
    var status: string
    const settings: ScreenshotSettings

    /** Opening the tool window loads the saved directory and checks for devices. */
    constructor (settings: ScreenshotSettings, fs: FileSystem, env: AdbEnv, world: BridgeWorld)
      modifies settings
      ensures this.settings == settings
      ensures LoadsSavedDirectory(old(settings.saveDirectoryPath), fs, None, saveDirectory, settings.saveDirectoryPath)
      ensures var o := CheckDevicesOutcome(NoBridge, env, world);
        bridge == o.bridge && connectedDevice == o.device && status == o.status
    {
      this.settings := settings;
      saveDirectory := None;
      connectedDevice := None;
      bridge := NoBridge;
      status := STATUS_SEARCHING;
      new;
      LoadSavedDirectory(fs);
      ghost var trace := CheckDevices(env, world);
    }

    /** `loadSavedDirectory`: keep the persisted path if it still names a directory, else forget it. */
    method LoadSavedDirectory(fs: FileSystem)
      modifies this`saveDirectory, settings`saveDirectoryPath
      ensures LoadsSavedDirectory(old(settings.saveDirectoryPath), fs, old(saveDirectory), saveDirectory, settings.saveDirectoryPath)
    {
      var savedPath := settings.saveDirectoryPath;
      if savedPath.Some? && savedPath.value != "" {
        var path := savedPath.value;
        if Exists(fs, path) && IsDirectory(fs, path) {
          saveDirectory := Some(path);
        } else {
          settings.saveDirectoryPath := None;
        }
      }
    }

    /**
     * `checkDevices`: reset the status, initialise the bridge unless it is
     * connected, wait for it, then take the first device or say why not.
     */
    method CheckDevices(env: AdbEnv, world: BridgeWorld) returns (ghost trace: CheckTrace)
      modifies this`bridge, this`connectedDevice, this`status
      ensures var o := CheckDevicesOutcome(old(bridge), env, world);
        bridge == o.bridge && connectedDevice == o.device && status == o.status && trace == o.trace
    {
      status := STATUS_SEARCHING;
      connectedDevice := None;
      if bridge.NoBridge? || !world.stillConnected {
        var adbPath := GetAdbPath(env);
        if adbPath.None? {
          status := STATUS_ADB_NOT_FOUND;
          connectedDevice := None;
          trace := CheckTrace(true, 0, false, 0);
          return;
        }
        match world.creation
        case CreateThrows(message) =>
          connectedDevice := None;
          status := ErrorStatus(message);
          trace := CheckTrace(true, 0, false, 0);
          return;
        case CreateReturnsNull =>
          bridge := NoBridge;
          connectedDevice := None;
          status := ErrorStatus(None);
          trace := CheckTrace(true, 0, false, 0);
          return;
        case Created(connectedAfter, deviceListAfter) =>
          bridge := Bridge(adbPath.value);
          var connectSleeps, connectTimeout := PollUntil(connectedAfter);
          PollSleepsDetermined(connectedAfter, connectSleeps);
          if !IsReady(connectedAfter, connectSleeps) {
            status := STATUS_ADB_NOT_FOUND;
            connectedDevice := None;
            trace := CheckTrace(true, connectSleeps, false, 0);
            return;
          }
          var listSleeps, listTimeout := PollUntil(deviceListAfter);
          PollSleepsDetermined(deviceListAfter, listSleeps);
          trace := CheckTrace(true, connectSleeps, true, listSleeps);
      } else {
        trace := CheckTrace(false, 0, false, 0);
      }
      var devices := world.devices;
      if |devices| > 0 {
        connectedDevice := Some(devices[0]);
        status := ConnectedStatus(DisplayName(devices[0]));
      } else {
        connectedDevice := None;
        status := STATUS_NOT_FOUND;
      }
    }

    /**
     * `takeScreenshot`: needs a save directory and a connected device,
     * captures through the shell, refuses a null or empty capture, and only
     * then writes the bytes to `<saveDirectory>/<yyyyMMdd_HHmmss>.png`.
     */
    method TakeScreenshot(run: ShellRun, now: DateTime, write: WriteResult) returns (outcome: ScreenshotOutcome)
      requires ValidDateTime(now)
      ensures saveDirectory.None? ==> outcome == NeedSaveDirectory
      ensures saveDirectory.Some? && connectedDevice.None? ==> outcome == NoRunningDevice
      ensures saveDirectory.Some? && connectedDevice.Some? ==> (outcome == CaptureFailed <==> !YieldsPng(run))
      ensures outcome.Saved? ==>
        saveDirectory.Some? && connectedDevice.Some? && YieldsPng(run) && write == Written
        && |outcome.png| > 0 && outcome.png == Concat(run.chunks)
        && outcome.file == Join(saveDirectory.value, FileName(now))
      ensures saveDirectory.Some? && connectedDevice.Some? && YieldsPng(run) ==>
        outcome == if write == Written then Saved(Join(saveDirectory.value, FileName(now)), Concat(run.chunks))
                   else SaveFailed(write.message)
    {
      if saveDirectory.None? {
        return NeedSaveDirectory;
      }
      if connectedDevice.None? {
        return NoRunningDevice;
      }
      var pngData := CaptureScreenshotViaShell(run);
      if !pngData.Png? || |pngData.bytes| == 0 {
        return CaptureFailed;
      }
      var fileName := FileName(now);
      var localFile := Join(saveDirectory.value, fileName);
      match write
      case Written =>
        outcome := Saved(localFile, pngData.bytes);
      case WriteThrows(message) =>
        outcome := SaveFailed(message);
    }
  }
}
