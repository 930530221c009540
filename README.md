# Android Screenshot plug-in: a Dafny model of the tool window's core

This project models the logic of the IntelliJ plug-in's screenshot tool window
(`ScreenshotToolWindowContent`). The window finds the `adb` executable,
brings up the Android debug bridge, picks the first attached device and
captures its screen with `screencap -p`. It saves the PNG bytes under a
time-stamped name in a directory the user chose earlier. The IDE, ddmlib, the
file system, processes and the clock are all inputs to the model. Four parts
are modelled:

- **Locating adb** (`AdbLocator`). `getAdbPath` is an ordered chain of
  strategies:
  - the IDE SDK's adb, if it exists;
  - `platform-tools/adb` under `ANDROID_HOME`, or else under `ANDROID_SDK_ROOT`;
  - three fixed installation paths;
  - the trimmed first line printed by `which adb`.

  `AdbPath` follows the code's early returns, and `GetAdbPath` runs the
  code's `for` loop. `Probes` lists each strategy's answer on its own. The
  lemmas show that the locator returns the earliest hit.
- **Checking for devices** (`DeviceCheck`, `ToolWindow`). The
  `bridge`/`connectedDevice`/status state machine of `checkDevices`:
  - initialisation is skipped when the bridge is still connected;
  - otherwise two bounded polling loops run (`PollUntil`);
  - the check ends by selecting device 0 or by setting one of the four status
    lines.

  `CheckDevicesOutcome` gives the resulting state as a function of the
  starting state. The method `ScreenshotToolWindowContent.CheckDevices` is
  proved to reach exactly that state.
- **Shell capture** (`ShellOutput`). The output receiver is a class with an
  append-only byte buffer and a cancellation flag.
  `captureScreenshotViaShell` never answers with empty data.
- **Saving** (`ScreenshotName`, `ToolWindow`).
  - The `yyyyMMdd_HHmmss.png` file name is built from calendar fields. The
    capture time can be read back from it, and file names sort in the order of
    their capture times.
  - `takeScreenshot` only reaches a file write with a non-empty capture.
  - `loadSavedDirectory` keeps the persisted path or clears it.

Behaviour of the code as written that the model keeps:

- When `ANDROID_HOME` is set, `ANDROID_SDK_ROOT` is ignored, even if
  `ANDROID_HOME` holds no adb.
- `which` output is tested for emptiness *before* it is trimmed. A first line
  of blanks therefore yields the empty path instead of null
  (`BlankWhichLineGivesEmptyPath`).
- When the bridge library returns null for a new bridge, the field is set to
  null and the next `bridge!!` throws a NullPointerException with no message.
  The check then ends with "Device: Error - Unknown error"
  (`NullBridgeIsForgotten`).
- A bridge that does not connect within the first loop is reported as
  "Device: adb not found", not as a timeout. Time running out in the
  device-list loop is not reported: the check goes on with whatever device
  list the bridge has.
- The timestamp is formatted in the formatter's time zone. The model takes the
  calendar fields as given.
- Two captures within the same second get the same file name.

## Model

| member | source | states |
|---|---|---|
| AdbLocator.AdbPathIsEarliestHit | src/main/kotlin/com/github/tomo2321/androidscreenshotplugin/ScreenshotToolWindowFactory.kt:201-250 | The locator answers null exactly when no probe hits. Otherwise its answer is that of a probe that hits while every earlier probe misses. The probe order is: SDK adb, env-root adb, the three common paths in list order, `which`. |
| AdbLocator.AdbPathIsFirstHit | src/main/kotlin/com/github/tomo2321/androidscreenshotplugin/ScreenshotToolWindowFactory.kt:201-250 | The chain of early returns equals the first hit of the independent probe list. A throwing SDK lookup or `which` counts as a miss. |
| AdbLocator.GetAdbPath | src/main/kotlin/com/github/tomo2321/androidscreenshotplugin/ScreenshotToolWindowFactory.kt:201-250 | The method, with its loop over the common paths and its early returns, returns exactly `AdbPath`. |
| AdbLocator.AdbPathFindsExistingFile | src/main/kotlin/com/github/tomo2321/androidscreenshotplugin/ScreenshotToolWindowFactory.kt:201-250 | The locator answers null iff the SDK, env-root, common-path and `which` strategies all miss. When any of the first three hits, the answer names a file that exists. |
| AdbLocator.SdkProbe | src/main/kotlin/com/github/tomo2321/androidscreenshotplugin/ScreenshotToolWindowFactory.kt:203-212 | Hits iff the SDK service names an adb file and that file exists. The hit is that file's absolute path, an existing entry. A throwing lookup is a miss. |
| AdbLocator.EnvRootProbe | src/main/kotlin/com/github/tomo2321/androidscreenshotplugin/ScreenshotToolWindowFactory.kt:215-221 | Hits iff an SDK root is set and `platform-tools/adb` below it exists. The hit is the absolute path of `<root>/platform-tools/adb`, an existing entry. |
| AdbLocator.ExistingFile | src/main/kotlin/com/github/tomo2321/androidscreenshotplugin/ScreenshotToolWindowFactory.kt:217-219 | A candidate hits iff it exists. The hit is its absolute path, and that path is a file-system entry. |
| AdbLocator.ReadLine | src/main/kotlin/com/github/tomo2321/androidscreenshotplugin/ScreenshotToolWindowFactory.kt:240 | null iff the output is empty. Otherwise the line is the prefix of the output up to its first `\n` or `\r`, or all of it when there is none. |
| AdbLocator.WhichProbe | src/main/kotlin/com/github/tomo2321/androidscreenshotplugin/ScreenshotToolWindowFactory.kt:238-247 | A throwing `which` is a miss. A hit has no line terminator in it, and a non-empty hit has no whitespace at either end. |
| AdbLocator.FirstExisting | src/main/kotlin/com/github/tomo2321/androidscreenshotplugin/ScreenshotToolWindowFactory.kt:223-235 | None iff no common path exists. Otherwise it is the absolute path of an existing candidate, and no earlier candidate exists. |
| AdbLocator.AndroidHomeShadowsSdkRoot | src/main/kotlin/com/github/tomo2321/androidscreenshotplugin/ScreenshotToolWindowFactory.kt:214-221 | With `ANDROID_HOME` set, setting, changing or removing `ANDROID_SDK_ROOT` changes neither the env-root probe nor the locator's answer. |
| AdbLocator.SdkRootUsedWithoutAndroidHome | src/main/kotlin/com/github/tomo2321/androidscreenshotplugin/ScreenshotToolWindowFactory.kt:215-221 | Without `ANDROID_HOME`, the env-root probe looks for `platform-tools/adb` under `ANDROID_SDK_ROOT` if that is set, and finds nothing otherwise. |
| AdbLocator.Trim | src/main/kotlin/com/github/tomo2321/androidscreenshotplugin/ScreenshotToolWindowFactory.kt:243 | A non-empty result starts and ends with a non-whitespace character. |
| AdbLocator.TrimKeepsInfix | src/main/kotlin/com/github/tomo2321/androidscreenshotplugin/ScreenshotToolWindowFactory.kt:243 | The result is one infix of the input. Everything cut off on either side is whitespace. |
| AdbLocator.LineOf | src/main/kotlin/com/github/tomo2321/androidscreenshotplugin/ScreenshotToolWindowFactory.kt:240 | The first line is a prefix with no line terminator in it, and it ends at a terminator or at the end of the input. |
| AdbLocator.WhichUsesFirstLineTrimmed | src/main/kotlin/com/github/tomo2321/androidscreenshotplugin/ScreenshotToolWindowFactory.kt:237-247 | Only the first line of `which` output counts, whether it ends at `\n`, at `\r` or at the end of the output. An empty first line gives no path; any other gives that line trimmed. |
| AdbLocator.BlankWhichLineGivesEmptyPath | src/main/kotlin/com/github/tomo2321/androidscreenshotplugin/ScreenshotToolWindowFactory.kt:237-249 | When the earlier strategies miss, any non-empty first line of `which` made only of non-terminator whitespace passes the non-empty test, and the locator answers with the empty path. |
| DeviceCheck.PollUntil | src/main/kotlin/com/github/tomo2321/androidscreenshotplugin/ScreenshotToolWindowFactory.kt:156-161 | A polling loop sleeps at most 50 times. `timeout` stays 5000 - 100·sleeps and never goes negative. It ends at 0 whenever the loop stops without its condition becoming true, and no earlier test found the condition true. |
| DeviceCheck.PollSleepsDetermined | src/main/kotlin/com/github/tomo2321/androidscreenshotplugin/ScreenshotToolWindowFactory.kt:172-176 | Those loop guarantees fix the number of sleeps: the readiness time capped at 50. |
| DeviceCheck.ReadyWithinTimeout | src/main/kotlin/com/github/tomo2321/androidscreenshotplugin/ScreenshotToolWindowFactory.kt:158-163 | A loop ends ready exactly when readiness comes within 50 sleeps. |
| DeviceCheck.FinalStatusesAreNotSearching | src/main/kotlin/com/github/tomo2321/androidscreenshotplugin/ScreenshotToolWindowFactory.kt:38-44 | The connected, error, "Not found" and "adb not found" lines all differ from "Searching...". |
| DeviceCheck.ConnectedStatus | src/main/kotlin/com/github/tomo2321/androidscreenshotplugin/ScreenshotToolWindowFactory.kt:42 | The connected line is "Device: ", then the device name, then " (Connected)", with the name exactly in between. |
| DeviceCheck.ErrorStatus | src/main/kotlin/com/github/tomo2321/androidscreenshotplugin/ScreenshotToolWindowFactory.kt:43 | The error line is "Device: Error - " followed by the exception message, or by "Unknown error" when the message is null. |
| DeviceCheck.DisplayName | src/main/kotlin/com/github/tomo2321/androidscreenshotplugin/ScreenshotToolWindowFactory.kt:184 | The device name when present, else the serial number when present, else "Unknown". |
| DeviceCheck.CheckDevicesOutcome | src/main/kotlin/com/github/tomo2321/androidscreenshotplugin/ScreenshotToolWindowFactory.kt:129-199 | A held device implies a bridge, and the status names that device. The bridge after a check is the old one, null, or a bridge for the adb path the locator found. |
| DeviceCheck.NullBridgeIsForgotten | src/main/kotlin/com/github/tomo2321/androidscreenshotplugin/ScreenshotToolWindowFactory.kt:153-158 | When the library returns null for a new bridge, the field becomes null. The `!!` at the first loop throws without a message, so the check ends with "Device: Error - Unknown error" and no device. The next check starts over. |
| DeviceCheck.ConnectedBridgeIsReused | src/main/kotlin/com/github/tomo2321/androidscreenshotplugin/ScreenshotToolWindowFactory.kt:138-139 | A still-connected bridge is kept. adb is not looked up, no loop runs, and the outcome does not depend on the locator's environment or on bridge creation. |
| DeviceCheck.MissingAdbStopsCheck | src/main/kotlin/com/github/tomo2321/androidscreenshotplugin/ScreenshotToolWindowFactory.kt:140-147 | Without an adb path the check ends with "Device: adb not found" and no device. It keeps the old bridge and never polls. |
| DeviceCheck.UnconnectedBridgeStopsCheck | src/main/kotlin/com/github/tomo2321/androidscreenshotplugin/ScreenshotToolWindowFactory.kt:155-169 | A bridge still unconnected after the first loop gives "Device: adb not found" and no device after 50 sleeps. The device-list loop is never entered. |
| DeviceCheck.DeviceSelection | src/main/kotlin/com/github/tomo2321/androidscreenshotplugin/ScreenshotToolWindowFactory.kt:179-190 | A device is held iff the check reaches selection with a non-empty list. That device is element 0 and the status is "Device: X (Connected)", where X is the name, else the serial, else "Unknown". An empty list gives "Device: Not found". |
| DeviceCheck.CheckIsBoundedAndSettles | src/main/kotlin/com/github/tomo2321/androidscreenshotplugin/ScreenshotToolWindowFactory.kt:129-199 | Every check sleeps at most 50 times per loop and never ends on "Searching...". The device list is polled only when a bridge was just created for a located adb and reported connected within the first loop. |
| ShellOutput.ByteArrayOutputReceiver.constructor | src/main/kotlin/com/github/tomo2321/androidscreenshotplugin/ScreenshotToolWindowFactory.kt:370-372 | A new receiver has an empty buffer and is not cancelled. |
| ShellOutput.ByteArrayOutputReceiver.AddOutput | src/main/kotlin/com/github/tomo2321/androidscreenshotplugin/ScreenshotToolWindowFactory.kt:374-378 | While not cancelled, exactly `data[offset..offset+length)` is appended. After `cancel` the buffer is unchanged. A range outside `data` throws and appends nothing. |
| ShellOutput.ByteArrayOutputReceiver.Flush | src/main/kotlin/com/github/tomo2321/androidscreenshotplugin/ScreenshotToolWindowFactory.kt:380-382 | Changes nothing: the buffer and the flag stay as they are. |
| ShellOutput.ByteArrayOutputReceiver.IsCancelled | src/main/kotlin/com/github/tomo2321/androidscreenshotplugin/ScreenshotToolWindowFactory.kt:384 | Reports the cancellation flag. |
| ShellOutput.ByteArrayOutputReceiver.Cancel | src/main/kotlin/com/github/tomo2321/androidscreenshotplugin/ScreenshotToolWindowFactory.kt:386-388 | Sets the flag. The buffer is outside its frame. |
| ShellOutput.ByteArrayOutputReceiver.GetData | src/main/kotlin/com/github/tomo2321/androidscreenshotplugin/ScreenshotToolWindowFactory.kt:390 | A fresh array holding everything appended so far, in order. |
| ShellOutput.DeliverOutput | src/main/kotlin/com/github/tomo2321/androidscreenshotplugin/ScreenshotToolWindowFactory.kt:354 | Feeding the shell's chunks to a receiver appends their slices in order. It succeeds iff every chunk is in bounds. |
| ShellOutput.CaptureScreenshotViaShell | src/main/kotlin/com/github/tomo2321/androidscreenshotplugin/ScreenshotToolWindowFactory.kt:348-368 | Returns the bytes iff the command completes and printed at least one byte. The bytes are exactly what was printed. Null iff it completed with nothing printed. It throws iff the command failed. |
| ScreenshotName.FileNameShape | src/main/kotlin/com/github/tomo2321/androidscreenshotplugin/ScreenshotToolWindowFactory.kt:315-318 | Before the year 10000 the name is 8 digits, `_`, 6 digits, `.png`. |
| ScreenshotName.FileNameRoundTrip | src/main/kotlin/com/github/tomo2321/androidscreenshotplugin/ScreenshotToolWindowFactory.kt:315-318 | The capture time can be read back from the file name. |
| ScreenshotName.FileNameOrder | src/main/kotlin/com/github/tomo2321/androidscreenshotplugin/ScreenshotToolWindowFactory.kt:315-318 | One capture time is earlier than another iff its file name sorts first. |
| ScreenshotName.Timestamp | src/main/kotlin/com/github/tomo2321/androidscreenshotplugin/ScreenshotToolWindowFactory.kt:315-316 | The timestamp is all digits except one `_` before the last six (the time). Before the year 10000 it is 15 characters long. |
| ScreenshotName.FileName | src/main/kotlin/com/github/tomo2321/androidscreenshotplugin/ScreenshotToolWindowFactory.kt:317 | The file name is the timestamp followed by `.png`. |
| ToolWindow.LoadingSettles | src/main/kotlin/com/github/tomo2321/androidscreenshotplugin/ScreenshotToolWindowFactory.kt:115-127 | Loading only keeps or clears the saved path, sets the save directory to nothing but that path, and loading again changes nothing. |
| Files.Join | src/main/kotlin/com/github/tomo2321/androidscreenshotplugin/ScreenshotToolWindowFactory.kt:217 | `File(parent, child)` puts the parent first and ends with the child. |
| Files.AbsolutePath | src/main/kotlin/com/github/tomo2321/androidscreenshotplugin/ScreenshotToolWindowFactory.kt:219 | Resolving a path keeps it as the tail of the result. An absolute path is returned unchanged. |
| Files.Exists | src/main/kotlin/com/github/tomo2321/androidscreenshotplugin/ScreenshotToolWindowFactory.kt:119 | The empty path never exists. An absolute path exists iff it is an entry of the file system. |
| Files.IsDirectory | src/main/kotlin/com/github/tomo2321/androidscreenshotplugin/ScreenshotToolWindowFactory.kt:119 | Only an existing path can be a directory, so `exists() && isDirectory` is `isDirectory`. |
| ToolWindow.ScreenshotSettings.constructor | src/main/kotlin/com/github/tomo2321/androidscreenshotplugin/ScreenshotSettings.kt:16 | The settings hold one nullable save-directory path. |
| ToolWindow.ScreenshotToolWindowContent.constructor | src/main/kotlin/com/github/tomo2321/androidscreenshotplugin/ScreenshotToolWindowFactory.kt:90-94 | Opening the window loads the saved directory and then runs one device check from "no bridge". |
| ToolWindow.ScreenshotToolWindowContent.LoadSavedDirectory | src/main/kotlin/com/github/tomo2321/androidscreenshotplugin/ScreenshotToolWindowFactory.kt:115-127 | A non-empty saved path naming an existing directory becomes the save directory. Any other non-empty path is cleared to null in the settings. A null or empty path changes nothing. |
| ToolWindow.ScreenshotToolWindowContent.CheckDevices | src/main/kotlin/com/github/tomo2321/androidscreenshotplugin/ScreenshotToolWindowFactory.kt:129-199 | The bridge, connected device and status end exactly as `CheckDevicesOutcome` gives them from the starting bridge. |
| ToolWindow.ScreenshotToolWindowContent.TakeScreenshot | src/main/kotlin/com/github/tomo2321/androidscreenshotplugin/ScreenshotToolWindowFactory.kt:252-346 | No save directory, then an error. No device, then an error and no capture. A null or empty capture is never a success. A write happens only with the non-empty captured bytes, to `<saveDirectory>/<yyyyMMdd_HHmmss>.png`. |

## Left out

- The Swing user interface is not modelled: panels, buttons, the directory label, `selectDirectory` with its `JFileChooser`, the message dialogs and `createToolWindowContent`. It is presentation only. Each dialog appears as one case of `ScreenshotOutcome`.
- Threads are not modelled: `executeOnPooledThread`, `SwingUtilities.invokeLater`. Each operation runs to completion in sequence. The short-lived "Searching..." state and races between a running check and a screenshot request are not captured.
- The re-check in `takeScreenshot` is left out (it calls `checkDevices` and sleeps one second when no device is connected). The model answers `NoRunningDevice` and does not start that background check. Its result is posted to the UI thread, which is the thread that is sleeping, so it cannot be seen before the re-test anyway.
- `Thread.sleep` is not modelled as time. The bridge's readiness is an input: the number of 100 ms sleeps after which it reports connected or has its device list. The answer is sampled once per elapsed sleep, so the re-test after the first loop sees the same answer as the loop's last test.
- ddmlib, the IDE and the OS are abstract inputs. This covers `AndroidDebugBridge.initIfNeeded`/`createBridge`, `isConnected`, `hasInitialDeviceList`, `devices`, `IDevice.executeShellCommand` (including its 10-second limit, which appears as a failing `ShellRun`), `AndroidSdkUtils.getAdb`, `Runtime.exec("which")`, `System.getenv`, `File.exists`/`isDirectory`/`writeBytes` and `Logger`.
- Exceptions during a device check come only from bridge creation, or from a null bridge. An exception thrown by the device list or the connection queries is not modelled.
- `java.io.File` is only partly modelled: the normalisation of repeated slashes and of a trailing slash (`File("/opt/sdk/")` names `/opt/sdk`) is left out, and so is a null `user.home`. The bytes printed by `which` are taken as characters, with no charset decoding.
- `ScreenshotToolWindowContent.TakeScreenshot` records the file it would write and the bytes; the write itself is an input result. The window's project-level `ScreenshotSettings` persistence (`PersistentStateComponent`, `XmlSerializerUtil.copyBean`) is not modelled beyond its one field.
- `ShellOutput.DeliverOutput` requires a receiver that is not cancelled. The plug-in never cancels its receiver, and how ddmlib reacts to cancellation is not modelled.
- `ShellOutput.ByteArrayOutputReceiver.AddOutput` does not model the growth limit of `ByteArrayOutputStream` (about 2 GB).
- `ScreenshotName.FileNameShape`, `ScreenshotName.FileNameRoundTrip` and `ScreenshotName.FileNameOrder` are stated only for years below 10000. `yyyy` prints a five-digit year in full, and such names no longer sort by time.
- The wall clock and `SimpleDateFormat`'s time zone are left out. The capture time arrives as calendar fields.
- HelloWorldToolWindowFactory.kt (a demo window) and build.gradle.kts are not part of this model.
