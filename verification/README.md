# Smiley feedback buttons: the active-period controller

A Dafny model of the control logic of the Smiley ESP32 sketch
(`src/main.cpp`). The device has four feedback buttons on active-LOW input
lines (GPIO 27, 26, 25, 33), each paired with an LED. After every boot,
`setup()` drives all LEDs LOW, stamps `awakeStart` with `millis()` and scans
the buttons. A line counts as pressed only when it reads LOW twice, 20 ms
apart. The lowest such line becomes `lastButton` and starts the active
period, which is the `activePeriod` flag kept in RTC memory. Its LED is lit,
the Wi-Fi link is tried with at most 20 waits, and the LED is switched off
again, provided the clock wait after a successful connection ends (see
"Left out"). `loop()` sends the chip to deep sleep when no active period is
running. It also sends it to deep sleep, after clearing the flag, once
10 minutes have passed since `awakeStart`. Otherwise it handles every
confirmed line of a new scan pass. Before sleeping, `goToDeepSleep()` arms
the EXT1 wake-up on the OR of `1ULL << pin` over the button pins.

The model has five modules:

- `Config`: the constants (pins, the 10-minute window, the retry bound).
- `Debounce`: the two scans as functions over the levels read in one pass.
  `FirstConfirmed` is the scan of `setup()`, which stops at a `break`.
  `ConfirmedAll` is the scan of `loop()`, which has no `break`.
- `SleepMask`: the wake mask as a `bv64`, with a reference fold `PinMask` over
  any pin list.
- `WiFi`: the bounded status-polling loop.
- `Controller`: class `Device`. Its fields are the sketch's globals
  (`activePeriod`, `lastButton`, `awakeStart`) and an array of LED levels.
  Two ghost logs sit beside them: every LED level vector the outputs pass
  through, and every handled press. Its methods are `setup()`, `loop()` and
  `goToDeepSleep()`, with the press handling and the two scans as methods of
  their own.

The hardware is abstracted:

- `millis()` is a parameter `now` in `[0, 2^32)`. Elapsed time is the 32-bit
  wrapping subtraction of line 84.
- The two reads of line i in one pass are `first[i]` and `second[i]`.
- The Wi-Fi status answers during one attempt are a stream `nat -> bool`.
- The wake cause is an input.
- Deep sleep is the terminal result `DeepSleep(mask, mode, retainedActive)` of
  `Loop`. `retainedActive` is the flag RTC memory carries into the next boot,
  which `Device.Boot(retainedActive)` starts from.

Some behaviour of the code is easy to miss, and the model keeps it as written:

- The flag carried into deep sleep is always false. Both paths to
  `goToDeepSleep()` in `loop()` have it false (lines 80-81 and 86-87), so an
  active period never survives a sleep. Each boot starts with
  `activePeriod == false` and becomes active only by a press confirmed in
  `setup()`.
- The scan in `loop()` has no `break` and no lock-out while an LED is lit. It
  handles every confirmed line of the pass in ascending order, and it does not
  update `lastButton`.
- `awakeStart` is written once, in `setup()`. Later presses do not extend the
  10-minute window.
- The wake-up mode passed with the mask is `ESP_EXT1_WAKEUP_ALL_LOW`
  (line 111), not "any line LOW". The model records the mode as a constant.
- There is no telemetry record, broker or publish outcome in this file.

## Model

| member | source | states |
|---|---|---|
| `Debounce.FirstConfirmedFromLowest` | src/main.cpp:43-57 | A scan with `break` started at index k stops at the lowest line at or above k whose two reads are both LOW. A line read LOW then HIGH is skipped, and scanning goes on at the next index. Without such a line the scan confirms nothing. |
| `Debounce.FirstConfirmed` | src/main.cpp:61-75 | The setup scan's result is a line that is confirmed and has no confirmed line below it. When it finds nothing, no line of the pass is confirmed. |
| `Debounce.FirstConfirmedSpec` | src/main.cpp:61-75 | The setup scan confirms line i exactly when line i is confirmed and no lower line is. It confirms nothing exactly when no line is confirmed. |
| `Debounce.ConfirmedFromSpec` | src/main.cpp:91-102 | The scan without `break` started at index k handles a line exactly when it is at or above k and both of its reads are LOW. Each handled line appears once, in strictly ascending index order. |
| `Debounce.ConfirmedAll` | src/main.cpp:91-102 | The loop scan of one pass handles exactly the confirmed lines, each once, in strictly ascending order. |
| `Debounce.FirstConfirmedIsFirstHandled` | src/main.cpp:91-102 | The line the setup scan stops at is the first line the loop scan would handle from the same reads. Both find nothing together. |
| `SleepMask.PinMaskBits` | src/main.cpp:108-110 | The OR of `1 << p` over a pin list has bit p set if and only if p is in the list. |
| `SleepMask.WakeMask` | src/main.cpp:108-110 | The mask written out with four terms equals the OR over the whole `buttonPins` array (line 11). Of its 64 bits, bit p is set if and only if p is one of 27, 26, 25, 33. Every pin fits a 6-bit shift amount, so each `1ULL << p` is defined. |
| `WiFi.ConnectWiFi` | src/main.cpp:119-126 | The wait loop runs at most 20 times. Every status poll before the last wait reported "not connected". The loop stops at the first "connected" answer. `connected` is the answer of the status poll after the loop. |
| `Controller.Elapsed` | src/main.cpp:84 | `millis() - awakeStart` on 32-bit unsigned values is the forward distance from `awakeStart` to `now` modulo 2^32. |
| `Controller.ElapsedAcrossWrap` | src/main.cpp:84 | The wrapping subtraction gives the true elapsed time whenever that is below 2^32 ms, also across a wrap of `millis()`. |
| `Controller.ElapsedBeyondWindow` | src/main.cpp:84 | The comparison with 600000 holds exactly when no instant of the first 10 minutes after `awakeStart` shows the current `millis()` value. |
| `Controller.TimedOut` | src/main.cpp:84 | The stay-awake window is over exactly when `now` is not reached from `awakeStart` within 600000 ms on the wrapping 32-bit counter. |
| `Controller.FlashesSpec` | src/main.cpp:96-99 | Handling presses in turn shows, for the k-th press, only its LED lit and then all LEDs LOW, as entries 2k and 2k + 1 of the LED history. |
| `Controller.FlashesAppend` | src/main.cpp:91-102 | The LED history of handling two runs of presses one after the other is the history of the first run followed by that of the second. |
| `Controller.ScanStep` | src/main.cpp:91-102 | One iteration of the loop scan at line i handles line i first if it is confirmed, then the lines above it, and the LED history shows line i's flash before theirs. |
| `Controller.Device.Boot` | src/main.cpp:19-23 | A new process keeps the retained `activePeriod` and starts with `lastButton == -1` and `awakeStart == 0`. All LEDs LOW at boot is the model's assumption about the GPIO reset state. |
| `Controller.Device.HandlePress` | src/main.cpp:50-53 | Handling a press lights only LED i, waits for the Wi-Fi link and switches LED i LOW again. The LED history grows by exactly "only i lit" then "all LOW", and the press is logged once. The Wi-Fi result returned is that of `ConnectWiFi`: at most 20 waits, no "connected" answer before the last wait, and the final poll's answer. |
| `Controller.Device.ScanForPress` | src/main.cpp:43-57 | The lowest confirmed line becomes `lastButton`, sets `activePeriod` and is handled, once. The LED history grows by that press's flash. With no confirmed line, `lastButton`, `activePeriod`, the press log and the LED history are unchanged. All LEDs are LOW at the end. |
| `Controller.Device.Setup` | src/main.cpp:28-77 | All LEDs end LOW and `awakeStart == now`. `activePeriod` becomes true if a press was confirmed and otherwise keeps its old value. `lastButton` and the log follow the lowest confirmed line. None of this depends on the wake cause. The LED history keeps its old entries, then passes through four clearing steps, each driving one more LED LOW while the LEDs above it keep their old levels, then the flash of the confirmed press, if any. At most one LED is ever lit. |
| `Controller.Device.ClearLeds` | src/main.cpp:32-36 | Step m of the output loop drives LED m LOW: history entry m shows LEDs 0..m LOW and every LED above m at its level before the loop. The old history is kept, exactly four entries are added, and all LEDs end LOW. |
| `Controller.Device.GoToDeepSleep` | src/main.cpp:105-116 | Deep sleep is entered with mode ALL_LOW and the current `activePeriod` as the retained flag. Mask bit p is set if and only if p is a button pin. |
| `Controller.Device.HandleLine` | src/main.cpp:92-100 | Line i is handled, adding its press to the log and its flash to the LED history, exactly when both of its reads are LOW. Otherwise the log and the history are unchanged. All LEDs end LOW. |
| `Controller.Device.HandleAllPresses` | src/main.cpp:91-102 | Every confirmed line of the pass is handled in ascending order. The press log and the LED history grow by exactly those presses and their flashes. All LEDs end LOW. |
| `Controller.Device.Loop` | src/main.cpp:79-103 | Sleep happens exactly when `activePeriod` was false or `(now - awakeStart) mod 2^32 >= 600000`. In both cases the flag carried into sleep is false and nothing is handled. Otherwise every confirmed line is handled in ascending order, and the LED history grows by their flashes. `awakeStart` and `lastButton` never change, and all LEDs end LOW. |

## Left out

- Serial logging (`Serial.begin`, `printf`, `println`) is one-way diagnostic output and is not modelled.
- `pinMode` is not modelled. `digitalRead` results are input data (`first`, `second`) and `digitalWrite` is an update of the LED array.
- `delay()` is not modelled: the 200 ms start-up pause, the 20 ms settle, the 500 ms Wi-Fi wait, the 7 s LED display and the 1 s pause before sleep. Only the order of the reads and writes around them is kept.
- `WiFi.begin` association is a library call. Only the retry counter and the status answers, as an input stream, are modelled.
- NTP and time printing (lines 127-135: `configTzTime`, the `time(nullptr)` wait, `getLocalTime`, `strftime`) are left out. The wait at line 128 has no bound. When the final status poll reports connected and `time(nullptr)` never reaches 100000, the sketch never gets to lines 53, 71 or 99: LED i stays HIGH, and `loop()` never reaches its sleep decision again.
- `Device.HandlePress`: it models only the runs in which the line-128 wait ends, and it returns after the Wi-Fi retry loop. So do `ScanForPress`, `Setup`, `HandleLine`, `HandleAllPresses` and `Loop`, which call it.
- The ESP-IDF sleep calls are not modelled. `esp_sleep_get_wakeup_cause` is the `WakeCause` input, and `esp_deep_sleep_start` is the terminal `DeepSleep` outcome. The hardware meaning of `ESP_EXT1_WAKEUP_ALL_LOW` is not modelled.
- The retained variable `bootTime` (line 20) is never read or written after its initializer and is not modelled.
- The Wi-Fi credentials, the LED pin numbers (line 12) and `ledDuration` carry no logic. Button i's LED is entry i of the LED array.
- `Device.Boot`: the sketch sets no LED before `setup()` runs. The model assumes every output starts LOW, the GPIO reset state; `setup()` drives them LOW anyway at lines 32-36.
- The Arduino runtime calls `loop()` again and again after `setup()`. `Loop` models one call. Repeating it until it returns `DeepSleep` is left to the caller.
