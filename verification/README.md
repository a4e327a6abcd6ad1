# Fitness bike and tech-book extensions: a Dafny model

This project models the deterministic core of a small collection of tools.

**The fitness bike controllers.**
- `FtmsCodec` is the FTMS (Fitness Machine Service) telemetry codec of the Node controller. It has the flag-gated Indoor Bike Data decoder and the control-point command encoders for opcodes 0x00, 0x07, 0x04, 0x05 and 0x11. It also has the response-code table.
- `ControlSequencer` is the controller's three-step resistance sequence with its three-method fallback.
- `DeviceSession` is the controller's session state: the ten-sample histories and their means, speed-integrated distance with the hardware-distance latch, the ten-second manual-resistance override, and the reset on disconnect.
- `LegacyController` is the older JavaScript controller: its decoder, response table, resistance write, stdin command parser and discovery filter.
- `WebBluetooth` is the React app's `useBluetooth` hook. It has its own Indoor Bike, Cycling Power and CSC parsers, the signed resistance write, the 50-line log, the monitoring fallback order and the disconnect reset.
- `WorkoutData` is the `useWorkoutData` hook: per-tick distance and calories, daily and monthly totals, and session reset and completion.
- `Tui` is the terminal app: key handling, scan results, the device list, bounded log and graph buffers, and running maxima.
- `MetricsGrid`, `ResistancePanel`, `SettingsModal`, `PowerBar` and `ConnectionStatus` are the React components' pure rules.

**The tech-book browser extensions.**
- `SwipeContent` is the swipe extension's content script. It covers book-id extraction, price selection, book collection, swipes and product-page ratings.
- `SwipePopup` is its popup: page type, counts, the liked-book export and the CSV text with its read-back.
- `PreviewContent` is the preview extension's hover popup. It covers book-link detection, placement clamping, and the cache, hover and hide state machine.
- `PageText` holds `extractText` and `extractTags`, which both extensions share.

**Shared pieces.**
- `Base` holds the JavaScript string and number semantics the sources rely on:
  - `trim` and its whitespace set;
  - `parseInt` and `parseFloat`;
  - string `<=`;
  - `split` and `join`;
  - `slice(-n)`.
- `Bytes` holds the little-endian reads and the `& 0xFF` / `>> 8` byte split.
- `JsObject` models a plain object as its entries in insertion order.

**How the outside world enters.** The model leaves out time, I/O and the DOM. They enter as parameters:
- the current time (`Date.now()`, today's date key);
- the outcome of every BLE write or subscription;
- what a DOM query found;
- a fetch result;
- the `:hover` test.

Each operation is a pure function from a state record and these inputs to the next state. Where the source issues writes, the result also lists the writes it attempts.

JavaScript numbers are modelled as follows:
- Fractional values are `real`.
- Integers are `int`, with the byte-level wrap written out.
- `Math.round(x)` is ⌊x + 0.5⌋.

## Model

| member | source | states |
|---|---|---|
| PowerBar.Percentage | fitness-bike-webbluetooth/react-app/src/react-app/components/dashboard/PowerBar.tsx:12 | the fill is capped at 100, reaches it exactly when the power reaches the scale, is otherwise the power's share of the scale, and is negative for a negative reading (no lower cap) |
| PowerBar.ClassMonotone | fitness-bike-webbluetooth/react-app/src/react-app/components/dashboard/PowerBar.tsx:12-19 | more power never gives a smaller fill or a lower colour class |
| PowerBar.DefaultBandsInWatts | fitness-bike-webbluetooth/react-app/src/react-app/components/dashboard/PowerBar.tsx:10-19 | with the default 400 W scale the classes low/medium/high/max are exactly the bands below 120 W, 120–240 W, 240–320 W and from 320 W |
| ConnectionStatus.StatusText | fitness-bike-webbluetooth/react-app/src/react-app/components/common/ConnectionStatus.tsx:21-32 | the "monitoring" status text appears exactly when connected and monitoring |
| ConnectionStatus.StatusClass | fitness-bike-webbluetooth/react-app/src/react-app/components/common/ConnectionStatus.tsx:34-45 | an error is styled exactly like a disconnection and like nothing else |
| ConnectionStatus.Click | fitness-bike-webbluetooth/react-app/src/react-app/components/common/ConnectionStatus.tsx:47-60 | while connected a click toggles monitoring; disconnected or in error it connects and starts monitoring only when the connection succeeded; while connecting it does nothing |
| ConnectionStatus.TextDependsOnMonitoringOnlyWhenConnected | fitness-bike-webbluetooth/react-app/src/react-app/components/common/ConnectionStatus.tsx:21-32 | the monitoring flag changes the status text when connected and in no other status |
| ConnectionStatus.LabelMatchesClick | fitness-bike-webbluetooth/react-app/src/react-app/components/common/ConnectionStatus.tsx:47-70 | a click does nothing exactly when the button is disabled, monitoring starts only when connected and idle or after a successful connection, and each button label names the callback its click runs first |
| ConnectionStatus.DisconnectOfferedWithMonitoringControl | fitness-bike-webbluetooth/react-app/src/react-app/components/common/ConnectionStatus.tsx:62-90 | the disconnect button is shown exactly when the main button starts or stops monitoring |
| ResistancePanel.Mount | fitness-bike-webbluetooth/react-app/src/react-app/components/panels/ResistancePanel.tsx:14-15 | the panel starts idle at the current resistance, or at 32 when that is 0, so never at 0 |
| ResistancePanel.Change | fitness-bike-webbluetooth/react-app/src/react-app/components/panels/ResistancePanel.tsx:17-21 | a change is ignored while disconnected or adjusting; otherwise the target is the new level, the panel is busy and exactly that level is requested |
| ResistancePanel.Settle | fitness-bike-webbluetooth/react-app/src/react-app/components/panels/ResistancePanel.tsx:27-29 | whatever the request's outcome, the panel is released and keeps its target |
| ResistancePanel.Clamp | fitness-bike-webbluetooth/react-app/src/react-app/components/panels/ResistancePanel.tsx:33 | the clamped level lies in 1..80, equals the input inside that range and the nearer bound outside it |
| ResistancePanel.Adjust | fitness-bike-webbluetooth/react-app/src/react-app/components/panels/ResistancePanel.tsx:32-35 | a +/- press requests something exactly when connected and idle; the request is the target plus the step clamped to 1..80, i.e. the nearest level in 1..80, and the target then shows it while the request is outstanding; otherwise the panel is unchanged |
| ResistancePanel.PressPreset | fitness-bike-webbluetooth/react-app/src/react-app/components/panels/ResistancePanel.tsx:46-51 | a preset press requests nothing but that preset's level |
| ResistancePanel.PresetsInRange | fitness-bike-webbluetooth/react-app/src/react-app/components/panels/ResistancePanel.tsx:38-44 | the five presets rise strictly, lie in 1..80 and the heaviest is 80 |
| ResistancePanel.EnabledButtonsMove | fitness-bike-webbluetooth/react-app/src/react-app/components/panels/ResistancePanel.tsx:69-97 | an enabled decrease button (step 1 or 10) requests a level below the target and at least 1, an enabled increase button one above it and at most 80, and the target follows the request |
| ResistancePanel.RequestsAreValid | fitness-bike-webbluetooth/react-app/src/react-app/components/panels/ResistancePanel.tsx:17-51 | every level the panel sends lies in 1..80, and nothing is sent while a request is in flight |
| ResistancePanel.OneRequestAtATime | fitness-bike-webbluetooth/react-app/src/react-app/components/panels/ResistancePanel.tsx:17-30 | a second press during a request leaves the panel unchanged; once the request settles, the next press is sent |
| MetricsGrid.FloorDivisionBy60 | fitness-bike-webbluetooth/react-app/src/react-app/components/dashboard/MetricsGrid.tsx:13-14 | for a non-negative duration, flooring a division by 60 and the JavaScript remainder by 60 agree with integer division and remainder of its whole seconds |
| MetricsGrid.FloorDivisionBy3600 | fitness-bike-webbluetooth/react-app/src/react-app/components/dashboard/MetricsGrid.tsx:12-13 | the same for 3600: whole hours, and the seconds within the hour |
| MetricsGrid.ClockFields | fitness-bike-webbluetooth/react-app/src/react-app/components/dashboard/MetricsGrid.tsx:11-14 | for a non-negative duration the hours are non-negative, minutes and seconds lie in 0..59, and the three put back together give the whole seconds |
| MetricsGrid.FormatDuration | fitness-bike-webbluetooth/react-app/src/react-app/components/dashboard/MetricsGrid.tsx:11-20 | from one hour on the clock is three colon-separated fields (hours, two-digit minutes, two-digit seconds), below it two (minutes, two-digit seconds) |
| MetricsGrid.TwoDigitsValue | fitness-bike-webbluetooth/react-app/src/react-app/components/dashboard/MetricsGrid.tsx:17-19 | a padded field below 60 is exactly two digits and reads back as its value |
| MetricsGrid.ClockRoundTrip | fitness-bike-webbluetooth/react-app/src/react-app/components/dashboard/MetricsGrid.tsx:11-20 | reading the clock text back (fields split at ':' and taken as hours/minutes/seconds) gives the duration's whole seconds; the padded fields are two digits |
| MetricsGrid.FormatDistance | fitness-bike-webbluetooth/react-app/src/react-app/components/dashboard/MetricsGrid.tsx:22-27 | metres are shown exactly below 1000, with no decimals; otherwise kilometres with one decimal; the value shown times its unit is the distance |
| MetricsGrid.DistanceLabelRange | fitness-bike-webbluetooth/react-app/src/react-app/components/dashboard/MetricsGrid.tsx:22-27 | a kilometre label shows at least 1, a metre label less than 1000 |
| SettingsModal.AcceptedWeight | fitness-bike-webbluetooth/react-app/src/react-app/components/modals/SettingsModal.tsx:26-31 | a typed weight is passed on exactly when `parseFloat` reads a number strictly between 0 and 500, and then it is that number |
| SettingsModal.Blur | fitness-bike-webbluetooth/react-app/src/react-app/components/modals/SettingsModal.tsx:26-31 | leaving the field stores the accepted weight through the hook and changes nothing when the text is refused |
| SettingsModal.WholeWeightsRoundTrip | fitness-bike-webbluetooth/react-app/src/react-app/components/modals/SettingsModal.tsx:26-31 | a whole number of kilograms typed in is stored exactly when it is between 1 and 499 |
| SettingsModal.TotalSessionsAfterSet | fitness-bike-webbluetooth/react-app/src/react-app/components/modals/SettingsModal.tsx:38-43 | assigning a day's record replaces that day's old session count in the total |
| SettingsModal.BankingCountsOneSession | fitness-bike-webbluetooth/react-app/src/react-app/components/modals/SettingsModal.tsx:38-43 | every banked session raises the total number of sessions shown by exactly one |
| SettingsModal.TodaysData | fitness-bike-webbluetooth/react-app/src/react-app/components/modals/SettingsModal.tsx:45-48 | today's statistics are the hook's stored record for today, or zeros when there is none |
| SettingsModal.Insert | fitness-bike-webbluetooth/react-app/src/react-app/components/modals/SettingsModal.tsx:51 | inserting keeps every date and adds the new one (one more element, multiset grows by it) |
| SettingsModal.InsertAscending | fitness-bike-webbluetooth/react-app/src/react-app/components/modals/SettingsModal.tsx:51 | inserting into an ascending list keeps it ascending |
| SettingsModal.Sort | fitness-bike-webbluetooth/react-app/src/react-app/components/modals/SettingsModal.tsx:51 | sorting keeps exactly the same dates (a permutation) |
| SettingsModal.SortAscending | fitness-bike-webbluetooth/react-app/src/react-app/components/modals/SettingsModal.tsx:51 | the sorted dates ascend in code-unit order |
| SettingsModal.Reverse | fitness-bike-webbluetooth/react-app/src/react-app/components/modals/SettingsModal.tsx:51 | reversing puts element i at position n-1-i |
| SettingsModal.NewestFirstOrdered | fitness-bike-webbluetooth/react-app/src/react-app/components/modals/SettingsModal.tsx:51 | the stored dates sorted and reversed are a permutation of the keys in descending order |
| SettingsModal.RecentDates | fitness-bike-webbluetooth/react-app/src/react-app/components/modals/SettingsModal.tsx:51-52 | at most seven dates are shown, seven whenever at least seven are stored |
| SettingsModal.RecentDatesAreNewest | fitness-bike-webbluetooth/react-app/src/react-app/components/modals/SettingsModal.tsx:51-52 | every shown date is stored, they are newest first, and with seven shown no stored date left out is newer than the last shown |
| SettingsModal.RecentRecords | fitness-bike-webbluetooth/react-app/src/react-app/components/modals/SettingsModal.tsx:50-56 | each row is the shown date at its position, paired with that date's own stored record |
| SettingsModal.RecentRecordsAreNewest | fitness-bike-webbluetooth/react-app/src/react-app/components/modals/SettingsModal.tsx:50-56 | at most seven rows, some exactly when something is stored, newest first, each with its own record, and none left out that is newer than the last row |
| SettingsModal.ResetStep | fitness-bike-webbluetooth/react-app/src/react-app/components/modals/SettingsModal.tsx:33-36 | a reset happens only by confirming while the confirmation is shown, and afterwards (as after a cancel) the confirmation is hidden |
| SettingsModal.ResetNeedsAsking | fitness-bike-webbluetooth/react-app/src/react-app/components/modals/SettingsModal.tsx:132-157 | over any sequence of presses, resets done plus a confirmation still open never exceed the number of times the reset was asked for |
| WorkoutData.DaySumAfterSet | fitness-bike-webbluetooth/react-app/src/react-app/hooks/useWorkoutData.ts:159-169 | assigning a day's record replaces that day's old distance in the sum of the days |
| WorkoutData.MonthSumAfterSet | fitness-bike-webbluetooth/react-app/src/react-app/hooks/useWorkoutData.ts:172-176 | assigning a month's total replaces its old total in the sum of the months |
| WorkoutData.DistanceStep | fitness-bike-webbluetooth/react-app/src/react-app/hooks/useWorkoutData.ts:81-94 | the first update after a reset only records the time and adds nothing; later updates add a non-negative distance for a non-negative speed and forward time; the time is always recorded |
| WorkoutData.DistanceStepMatchesNode | fitness-bike-webbluetooth/react-app/src/react-app/hooks/useWorkoutData.ts:88-90 | the browser's distance increment is the same unit conversion as the Node controller's (which additionally filters implausible steps) |
| WorkoutData.Met | fitness-bike-webbluetooth/react-app/src/react-app/hooks/useWorkoutData.ts:99 | the MET estimate is the speed/cadence formula clamped into [4, 16] |
| WorkoutData.CaloriesBounds | fitness-bike-webbluetooth/react-app/src/react-app/hooks/useWorkoutData.ts:97-102 | calories lie between the 4-MET and the 16-MET burn for the same weight and time |
| WorkoutData.MonthKey | fitness-bike-webbluetooth/react-app/src/react-app/hooks/useWorkoutData.ts:172 | the month key is the first seven characters of the day key (all of it when shorter) |
| WorkoutData.OnMonitoringChange | fitness-bike-webbluetooth/react-app/src/react-app/hooks/useWorkoutData.ts:72-78 | starting to monitor sets the session start only when none is set; stopping clears it; nothing else changes |
| WorkoutData.Tick | fitness-bike-webbluetooth/react-app/src/react-app/hooks/useWorkoutData.ts:105-145 | one run of the metrics effect: not monitoring, nothing changes; monitoring, the speed, cadence, power and resistance shown are the readings with absent ones as 0, the duration is the seconds since the session start (0 when there is no start or it lies ahead), the calories are the MET estimate for those readings and that duration, every chart series gains exactly one point (the distance series getting the session distance from before this update), the session distance grows by the speed-based step, and storage, totals and weight stay |
| WorkoutData.BankedDay | fitness-bike-webbluetooth/react-app/src/react-app/hooks/useWorkoutData.ts:159-169 | a banked day adds the distance, the duration and one session to the old record, or to zeros when the day is new |
| WorkoutData.BankDay | fitness-bike-webbluetooth/react-app/src/react-app/hooks/useWorkoutData.ts:159-169 | today's record is the banked one and every other day's record is unchanged |
| WorkoutData.BankMonth | fitness-bike-webbluetooth/react-app/src/react-app/hooks/useWorkoutData.ts:172-176 | this month's total grows by the distance (from 0 when new) and every other month is unchanged |
| WorkoutData.Bank | fitness-bike-webbluetooth/react-app/src/react-app/hooks/useWorkoutData.ts:152-179 | banking adds the distance to the total, today's record and this month's total |
| WorkoutData.BankDayAddsDistance | fitness-bike-webbluetooth/react-app/src/react-app/hooks/useWorkoutData.ts:159-169 | banking a day raises the sum over all days by exactly the distance |
| WorkoutData.BankMonthAddsDistance | fitness-bike-webbluetooth/react-app/src/react-app/hooks/useWorkoutData.ts:172-176 | banking a month raises the sum over all months by exactly the distance |
| WorkoutData.BankKeepsBalance | fitness-bike-webbluetooth/react-app/src/react-app/hooks/useWorkoutData.ts:152-179 | when the days and the months each sum to the stored total, they still do after banking |
| WorkoutData.AddDistanceToTotal | fitness-bike-webbluetooth/react-app/src/react-app/hooks/useWorkoutData.ts:148-186 | a non-positive distance changes nothing; a positive one is banked with the session's duration and added to the displayed total |
| WorkoutData.AddDistanceKeepsBalance | fitness-bike-webbluetooth/react-app/src/react-app/hooks/useWorkoutData.ts:148-186 | adding a session keeps the days and the months summing to the stored total |
| WorkoutData.ResetSession | fitness-bike-webbluetooth/react-app/src/react-app/hooks/useWorkoutData.ts:189-207 | the series are emptied, calories, session distance and duration zeroed, both timers cleared, and storage, weight and live readings kept |
| WorkoutData.CompleteSession | fitness-bike-webbluetooth/react-app/src/react-app/hooks/useWorkoutData.ts:210-215 | a positive session distance is added to both totals, a zero one changes no storage, and the session is reset either way |
| WorkoutData.CompleteSessionKeepsBalance | fitness-bike-webbluetooth/react-app/src/react-app/hooks/useWorkoutData.ts:210-215 | completing a session keeps the days and the months summing to the stored total |
| WorkoutData.TodaysWorkout | fitness-bike-webbluetooth/react-app/src/react-app/hooks/useWorkoutData.ts:218-221 | today's record is the stored one, or zeros when today is not stored |
| WorkoutData.MonthlyTotal | fitness-bike-webbluetooth/react-app/src/react-app/hooks/useWorkoutData.ts:224-227 | the requested month (the current one when none or an empty string is given) is its stored total, or 0 when not stored |
| WorkoutData.ResetAllData | fitness-bike-webbluetooth/react-app/src/react-app/hooks/useWorkoutData.ts:230-244 | storage is emptied (and so balanced), the displayed total is 0, and the running session is untouched |
| WorkoutData.UpdateUserWeight | fitness-bike-webbluetooth/react-app/src/react-app/hooks/useWorkoutData.ts:247-251 | the weight is replaced and storage and metrics are unchanged |
| WorkoutData.FirstUpdateOnlyStartsClock | fitness-bike-webbluetooth/react-app/src/react-app/hooks/useWorkoutData.ts:83-86 | the first monitored update after a reset only records its time and leaves the session distance unchanged |
| WorkoutData.TickChangesDistance | fitness-bike-webbluetooth/react-app/src/react-app/hooks/useWorkoutData.ts:126-145 | a monitored update a positive time after the last one at a positive speed increases the session distance, which is a dependency of the effect, so the effect runs again |
| WorkoutData.RerunInSameMillisecond | fitness-bike-webbluetooth/react-app/src/react-app/hooks/useWorkoutData.ts:126-145 | a re-run of the effect in the same millisecond adds no distance, so the dependency settles, but it still appends one more point to every series |
| WebBluetooth.Merge | fitness-bike-webbluetooth/react-app/src/react-app/hooks/useBluetooth.ts:201 | each of the seven fields is the notification's value when it carries one and the previous value otherwise; a notification with no fields leaves the data as it was |
| WebBluetooth.MergeProperties | fitness-bike-webbluetooth/react-app/src/react-app/hooks/useBluetooth.ts:201 | merging the same notification twice is merging it once, the first notification lands on the empty state unchanged, and two notifications merged in turn give the state their own merge gives |
| WebBluetooth.UnguardedScan | fitness-bike-webbluetooth/react-app/src/react-app/hooks/useBluetooth.ts:35-70 | a scan that completes has one entry per field and ends after exactly the widths of the announced fields |
| WebBluetooth.UnguardedScanCompletes | fitness-bike-webbluetooth/react-app/src/react-app/hooks/useBluetooth.ts:35-70 | the decoder completes exactly when every announced field has a reader and all announced fields fit in the notification; otherwise it throws |
| WebBluetooth.UnguardedScanReports | fitness-bike-webbluetooth/react-app/src/react-app/hooks/useBluetooth.ts:40-67 | a completed scan has a value exactly for the fields whose flag bit is set |
| WebBluetooth.UnguardedScanReadsAt | fitness-bike-webbluetooth/react-app/src/react-app/hooks/useBluetooth.ts:37-67 | each announced field is read right after the announced fields before it |
| WebBluetooth.IndoorBikeWith | fitness-bike-webbluetooth/react-app/src/react-app/hooks/useBluetooth.ts:36 | a notification shorter than the two flag bytes throws a RangeError |
| WebBluetooth.DistanceFrameAlwaysThrows | fitness-bike-webbluetooth/react-app/src/react-app/hooks/useBluetooth.ts:48-51 | as written, every notification that announces a total distance throws, so none of its fields reaches the display |
| WebBluetooth.LayoutWidth | fitness-bike-webbluetooth/react-app/src/react-app/hooks/useBluetooth.ts:40-67 | the bytes consumed are the sum of 2 (speed), 2 (cadence), 3 (distance), 2 (resistance), 2 (power), 1 (heart rate) and 2 (elapsed time) over the announced fields |
| WebBluetooth.ParseIndoorBikeFields | fitness-bike-webbluetooth/react-app/src/react-app/hooks/useBluetooth.ts:40-67 | with the distance reader repaired, a parsed notification has each of its seven fields exactly when that field's flag bit is set |
| WebBluetooth.ParseIndoorBikeSpeed | fitness-bike-webbluetooth/react-app/src/react-app/hooks/useBluetooth.ts:40-43 | an announced speed is the 16-bit value right after the flags, in hundredths of a km/h |
| WebBluetooth.ParseIndoorBikeDistance | fitness-bike-webbluetooth/react-app/src/react-app/hooks/useBluetooth.ts:48-51 | an announced total distance is the three-byte little-endian value right after the announced speed and cadence |
| WebBluetooth.ParseIndoorBikeParses | fitness-bike-webbluetooth/react-app/src/react-app/hooks/useBluetooth.ts:35-70 | repaired, the decoder parses exactly when the announced fields fit |
| WebBluetooth.ScanThrowsAtMissingReader | fitness-bike-webbluetooth/react-app/src/react-app/hooks/useBluetooth.ts:48-49 | the scan throws a TypeError at the first announced field that has no reader, provided the announced fields before it fit |
| WebBluetooth.DistanceThrowsTypeError | fitness-bike-webbluetooth/react-app/src/react-app/hooks/useBluetooth.ts:48-49 | as written, a notification that announces a total distance and whose speed and cadence fit throws a TypeError |
| WebBluetooth.DistanceFrameExample | fitness-bike-webbluetooth/react-app/src/react-app/hooks/useBluetooth.ts:48-49 | as written, the notification 04 00 10 27 00 (total distance 10000 m only) throws a TypeError |
| WebBluetooth.DistanceFrameRepaired | fitness-bike-webbluetooth/react-app/src/react-app/hooks/useBluetooth.ts:48-51 | repaired, the same notification parses and reports a total distance of 10000 m |
| WebBluetooth.SpeedBitDiffers | fitness-bike-webbluetooth/react-app/src/react-app/hooks/useBluetooth.ts:40-43 | with bit 0 clear the hook reports no speed, while the Node decoder still takes bytes 2..3 as the speed |
| WebBluetooth.ParseCyclingPower | fitness-bike-webbluetooth/react-app/src/react-app/hooks/useBluetooth.ts:72-86 | a Cycling Power notification parses exactly when its power (and, with bit 0x20, its cadence byte) fits; power is the signed 16-bit value at offset 2, cadence the byte at 4 with bit 0x20 and absent otherwise; no other field is set |
| WebBluetooth.ParseCsc | fitness-bike-webbluetooth/react-app/src/react-app/hooks/useBluetooth.ts:88-111 | a CSC notification parses exactly when the six wheel bytes (bit 0x01) and four crank bytes (bit 0x02) that are announced fit; with crank data the cadence is the raw cumulative crank count read after any wheel data, otherwise no field is set; an empty one throws |
| WebBluetooth.Log | fitness-bike-webbluetooth/react-app/src/react-app/hooks/useBluetooth.ts:28-33 | the log holds at most 50 lines and ends with the new message |
| WebBluetooth.LogIsBoundedAppend | fitness-bike-webbluetooth/react-app/src/react-app/hooks/useBluetooth.ts:31 | keeping the last 49 lines and appending is appending and keeping the newest 50, as the terminal app does |
| WebBluetooth.Connect | fitness-bike-webbluetooth/react-app/src/react-app/hooks/useBluetooth.ts:113-170 | without the API nothing connects and the status stays; otherwise success exactly when a device is chosen, has GATT and connects, giving connected, not monitoring and the connected status; the control point is set when found and otherwise kept; failure sets the error status and keeps the connection flags; data and subscriptions are untouched |
| WebBluetooth.FirstAvailable | fitness-bike-webbluetooth/react-app/src/react-app/hooks/useBluetooth.ts:189-210 | the service chosen is the first of the order that is available; none is chosen only when none is available |
| WebBluetooth.StartMonitoring | fitness-bike-webbluetooth/react-app/src/react-app/hooks/useBluetooth.ts:172-218 | it succeeds exactly when connected with a server, then turns monitoring on and subscribes to at most one more service: the first available of Indoor Bike, Cycling Power, CSC; it still succeeds when none is available; when refused nothing is subscribed |
| WebBluetooth.OnNotification | fitness-bike-webbluetooth/react-app/src/react-app/hooks/useBluetooth.ts:196-203 | a notification without a value, or whose parser throws, changes nothing; one that parses is merged over the current data |
| WebBluetooth.StopMonitoring | fitness-bike-webbluetooth/react-app/src/react-app/hooks/useBluetooth.ts:220-228 | monitoring is switched off and subscriptions, data and connection stay |
| WebBluetooth.Disconnect | fitness-bike-webbluetooth/react-app/src/react-app/hooks/useBluetooth.ts:230-253 | everything returns to the initial state except the log and the subscriptions, which are never removed |
| WebBluetooth.SetResistanceLevel | fitness-bike-webbluetooth/react-app/src/react-app/hooks/useBluetooth.ts:255-274 | without a control point nothing is written and the answer is false; otherwise opcode 0x04 followed by the level as little-endian signed 16 bits is written and the answer is whether the write resolved |
| WebBluetooth.ResistanceWriteAgrees | fitness-bike-webbluetooth/react-app/src/react-app/hooks/useBluetooth.ts:262-267 | the hook's write is byte for byte the Node controllers' resistance command for every integer level, and decodes back to that level when it fits in 16 signed bits |
| FtmsCodec.GuardedScan | fitness-bike-node-ble-tui/aerobike-controller.ts:323-425 | the scan yields one slot per field of the table and its cursor ends after exactly the bytes read, never past the end of the frame |
| FtmsCodec.GuardSlot | fitness-bike-node-ble-tui/aerobike-controller.ts:348-351 | a field that is taken never reaches past the end of the frame |
| FtmsCodec.ScanFollowsGuard | fitness-bike-node-ble-tui/aerobike-controller.ts:348-425 | each field is read exactly when its flag is set (or it is the always-attempted speed) and it fits at the cursor the fields before it left, and then it is read at that cursor; otherwise it is skipped and the cursor stays |
| FtmsCodec.ScanReadsInOrder | fitness-bike-node-ble-tui/aerobike-controller.ts:325-425 | fields are read in table order and never overlap: an earlier field ends at or before the start of a later one, and every field lies inside the frame |
| FtmsCodec.DecodeIndoorBike | fitness-bike-node-ble-tui/aerobike-controller.ts:323-425 | a frame shorter than the flags word throws; any other decodes, with the flags from bytes 0..1, at least the flags consumed and never more than the frame, and non-negative raw speed and cadence |
| FtmsCodec.SpeedIgnoresFlags | fitness-bike-node-ble-tui/aerobike-controller.ts:331-345 | instantaneous speed is taken from bytes 2..3 whenever they exist, whatever the flags say, and is absent otherwise |
| FtmsCodec.SpeedOnlyFrame | fitness-bike-node-ble-tui/aerobike-controller.ts:331-425 | a frame 00 00 lo hi decodes to speed lo + 256·hi, no other field, and four bytes consumed |
| FtmsCodec.JsRound | fitness-bike-node-ble-tui/aerobike-controller.ts:713 | Math.round gives the integer within half of its argument, halves rounding up |
| FtmsCodec.CommandRoundTrip | fitness-bike-node-ble-tui/aerobike-controller.ts:561-730 | the Request Control (0x00), Start or Resume (0x07), Set Target Resistance (0x04), Set Target Power (0x05) and Indoor Bike Simulation (0x11, grade in 0.01 % with wind speed and both resistances 0) payloads read back to the command and the value they were built from, for every value that fits in 16 signed bits |
| FtmsCodec.ResultTableRoundTrip | fitness-bike-node-ble-tui/aerobike-controller.ts:475-489 | the response table loses nothing: the result code can be read back from the name, and a code has a proper name exactly when it is 1 to 5 |
| FtmsCodec.DecodeResponse | fitness-bike-node-ble-tui/aerobike-controller.ts:475-489 | a response of at least three bytes is read as response code, request opcode and named result; a shorter one has the unknown result of an undefined code |
| DeviceSession.NewController | fitness-bike-node-ble-tui/aerobike-controller.ts:40-79 | a new controller is unconnected, not monitoring, has resistance 20, integration on, and satisfies the controller's invariant |
| DeviceSession.PushHistory | fitness-bike-node-ble-tui/aerobike-controller.ts:431-443 | pushing a non-negative sample onto a history of at most ten keeps it at most ten and non-negative |
| DeviceSession.PushHistoryKeepsNewest | fitness-bike-node-ble-tui/aerobike-controller.ts:431-443 | on a history of at most ten, push-then-shift is keeping the ten newest samples, and the new sample is last |
| DeviceSession.MeanBounds | fitness-bike-node-ble-tui/aerobike-controller.ts:445-455 | the average of a non-empty history lies between any lower and upper bound of its samples |
| DeviceSession.IncrementIsUnitConversion | fitness-bike-node-ble-tui/aerobike-controller.ts:460-462 | the increment (km/h ÷ 3.6 times seconds) is speed in km/h times hours, in metres |
| DeviceSession.Integrate | fitness-bike-node-ble-tui/aerobike-controller.ts:457-473 | the time is always recorded; the distance never decreases and grows by less than 100 m; it grows exactly when there was a non-zero previous time, the speed is positive and the increment lies strictly between 0.1 m and 100 m, and then by exactly that increment |
| DeviceSession.ApplyFrame | fitness-bike-node-ble-tui/aerobike-controller.ts:323-425 | applying a decoded frame keeps the invariant, the connection, monitoring and override state, and stamps the frame's time |
| DeviceSession.ApplyFrameSpeed | fitness-bike-node-ble-tui/aerobike-controller.ts:331-354 | a speed reading replaces the speed and enters the history; without a hardware average the average speed is the mean of the updated history |
| DeviceSession.ApplyFrameCadence | fitness-bike-node-ble-tui/aerobike-controller.ts:356-374 | a cadence reading replaces the cadence and enters its history; without a hardware average the average cadence is the mean of the updated history |
| DeviceSession.ApplyFrameDistance | fitness-bike-node-ble-tui/aerobike-controller.ts:339-394 | the integrated distance never decreases, grows by less than 100 m per frame and only on a speed reading while integration is on; a plausible hardware distance (0 < d < 999999) is shown and switches integration off, otherwise the rounded integrated distance is shown |
| DeviceSession.ApplyFrameResistanceAndPower | fitness-bike-node-ble-tui/aerobike-controller.ts:396-425 | a resistance reading is shown unless a commanded level is inside its ten-second window, in which case the commanded level is shown; power and average power are copied when present |
| DeviceSession.OnFrame | fitness-bike-node-ble-tui/aerobike-controller.ts:323-425 | a notification shorter than two bytes throws; any other yields a controller that keeps the invariant and carries the frame's time |
| DeviceSession.HardwareDistanceLatches | fitness-bike-node-ble-tui/aerobike-controller.ts:381-384 | once integration is switched off it stays off and the calculated distance is frozen, whatever frame comes |
| DeviceSession.FirstSampleAddsNothing | fitness-bike-node-ble-tui/aerobike-controller.ts:457-473 | the first speed reading after a reset only records its time and adds no distance |
| DeviceSession.Disconnect | fitness-bike-node-ble-tui/aerobike-controller.ts:761-780 | disconnecting clears the connection flags, the integrated distance, its time, both histories and the override, and keeps the metrics, the integration switch and the characteristic handles, including whether the kept control point indicates |
| DeviceSession.DisconnectEndsOverride | fitness-bike-node-ble-tui/aerobike-controller.ts:776-777 | after a disconnect no resistance override is active |
| ControlSequencer.TryMethods | fitness-bike-node-ble-tui/aerobike-controller.ts:611-641 | the methods are written in order up to the first accepted one; the run succeeds exactly when some method is accepted, every earlier one was refused, and when none is all were written |
| ControlSequencer.SetResistanceLevel | fitness-bike-node-ble-tui/aerobike-controller.ts:492-559 | without a control point or with a level outside 1..80 nothing is written and the matching error is returned; otherwise the writes are a prefix of request control, start or resume, then the three methods; a refused request control or start stops there with its error; the run succeeds exactly when control, start and some method are accepted, and then the writes are request control, start or resume and exactly the methods TryMethods writes, the last accepted and every earlier method refused, and the level is remembered with its time and shown; a failed run changes nothing |
| ControlSequencer.GradeIsExact | fitness-bike-node-ble-tui/aerobike-controller.ts:636-638 | the simulation method sends exactly 50 hundredths of a percent of grade per level above 1 |
| ControlSequencer.ScriptReadsBack | fitness-bike-node-ble-tui/aerobike-controller.ts:561-730 | read back, a run's writes are request control, start or resume, target resistance level, target power 15 × level watts, and a simulation with grade 50 × (level − 1) |
| ControlSequencer.CommandedLevelMasksHardware | fitness-bike-node-ble-tui/aerobike-controller.ts:396-411 | after a successful run at a non-zero time, a resistance reading within ten seconds is shown as the commanded level, whatever the hardware reports |
| LegacyController.ParseIndoorBikeData | fitness-bike-node-ble-tui/fitness-bike-controller.js:183-252 | the older decoder, an offset moved field by field under the same guards, decodes every frame exactly as the table-driven decoder does, including throwing on a frame shorter than two bytes |
| LegacyController.ReadFields | fitness-bike-node-ble-tui/fitness-bike-controller.js:185-247 | the loop over the fields yields each field's value exactly as the guarded scan decides it, and its offset ends where the scan's cursor does |
| LegacyController.GuardStep | fitness-bike-node-ble-tui/fitness-bike-controller.js:200-204 | one guarded step records the value and moves the offset exactly as the scan's slot for that field says |
| LegacyController.HandleResponse | fitness-bike-node-ble-tui/fitness-bike-controller.js:255-276 | a response of at least three bytes is named exactly as the newer controller names it; a shorter one throws while being printed |
| LegacyController.SetResistanceLevel | fitness-bike-node-ble-tui/fitness-bike-controller.js:278-308 | without a control point nothing is written; otherwise one Set Target Resistance write with response is made for any level, with no range check |
| LegacyController.LegacyWriteReadsBack | fitness-bike-node-ble-tui/fitness-bike-controller.js:286-291 | the single write reads back as the level for every 16-bit level |
| LegacyController.DisplayName | fitness-bike-node-ble-tui/aerobike-controller.ts:87 | the name shown is the advertised name when there is a non-empty one and "Unknown" otherwise, never empty |
| LegacyController.FiltersCompare | fitness-bike-node-ble-tui/aerobike-controller.ts:86-95 | every peripheral the older discovery filter accepts the newer one accepts too, and a peripheral named "Bike" advertising nothing is accepted only by the newer one |
| LegacyController.OnDiscover | fitness-bike-node-ble-tui/fitness-bike-controller.js:27-39 | a target peripheral (advertising the Fitness Machine service, or named MG03) stops the scan and is connected at once; any other is ignored |
| LegacyController.LastWithUuid | fitness-bike-node-ble-tui/fitness-bike-controller.js:108-120 | the characteristic the loop leaves assigned exists exactly when some characteristic has the UUID, and carries that UUID |
| LegacyController.DiscoverAerobike | fitness-bike-node-ble-tui/aerobike-controller.ts:240-320 | no service throws "Fitness Machine Service not found" and changes nothing; otherwise the found characteristics are kept, monitoring starts exactly when the data characteristic is found and subscribes; the control point seen afterwards is the new one when found and otherwise the one kept from an earlier connection; an error is raised exactly when a needed subscription fails, including the subscription of a kept control point that indicates |
| LegacyController.IndicatesAfter | fitness-bike-node-ble-tui/aerobike-controller.ts:263-274 | the control point `setupControlPoint` reads is the last one discovered when there is one, and otherwise the handle kept from before, with its `indicate` property |
| LegacyController.StaleControlPointSubscribes | fitness-bike-node-ble-tui/aerobike-controller.ts:302-317 | after a control point that indicated, a device without one still gets a subscription through the kept handle, and its error reaches the caller |
| LegacyController.DiscoverLegacy | fitness-bike-node-ble-tui/fitness-bike-controller.js:83-179 | no service changes nothing; otherwise the found characteristics are kept and monitoring starts exactly when the data characteristic is found and subscribes; no error reaches the caller |
| LegacyController.DiscoveryAsymmetry | fitness-bike-node-ble-tui/fitness-bike-controller.js:83-179 | the two discoveries find the same characteristics and start monitoring alike; only the newer one reports the missing service |
| LegacyController.ParseCommand | fitness-bike-node-ble-tui/fitness-bike-controller.js:329-348 | a level command only ever carries a level in 1..80 |
| LegacyController.Normalised | fitness-bike-node-ble-tui/fitness-bike-controller.js:330 | a line with no surrounding white space and no upper-case letter is taken as it is |
| LegacyController.LevelCommandRoundTrip | fitness-bike-node-ble-tui/fitness-bike-controller.js:334-338 | typing "r" followed by the decimal digits of a level in 1..80 sets exactly that level |
| LegacyController.OutOfRangeLevelRefused | fitness-bike-node-ble-tui/fitness-bike-controller.js:336-340 | typing "r" followed by 0 or a level above 80 is refused as an invalid level |
| LegacyController.HandleLine | fitness-bike-node-ble-tui/fitness-bike-controller.js:329-348 | a line leads to a write exactly when it is a valid level command and there is a control point, and the write is the resistance command for that level |
| Tui.DecreaseLevel | fitness-bike-node-ble-tui/tui-app.tsx:201-203 | j asks for the shown level (20 when none) less five, raised to 1 when that is lower: never below 1 nor below that difference, and equal to it whenever it is at least 1 |
| Tui.IncreaseLevel | fitness-bike-node-ble-tui/tui-app.tsx:217-219 | k asks for the shown level (20 when none) plus five, lowered to 80 when that is higher: never above 80 nor above that sum, and equal to it whenever it is at most 80 |
| Tui.StepKeysStayInRange | fitness-bike-node-ble-tui/tui-app.tsx:201-219 | from no level or any level in 1..80, j and k ask for a level the controller accepts |
| Tui.DigitKeyLevel | fitness-bike-node-ble-tui/tui-app.tsx:234-235 | a digit key asks for a level only when the input starts with a character from 1 to 8 |
| Tui.SingleDigitKey | fitness-bike-node-ble-tui/tui-app.tsx:234-235 | each key 1..8 asks for ten times its digit, a level within 10..80 |
| Tui.PastedDigitsOverreach | fitness-bike-node-ble-tui/tui-app.tsx:234-235 | the pasted input "12" passes the string comparison and asks for level 120 |
| Tui.HandleKey | fitness-bike-node-ble-tui/tui-app.tsx:122-247 | ctrl-c always exits; q exits unless (corrected) a device list is open; s starts a scan (status Scanning when no list is open); c connects to the first device when there are devices and does nothing when there are none; any other key goes to the level keys, or to the device list when one is open; no key changes the device list, the graph or the level shown |
| Tui.SelectionKey | fitness-bike-node-ble-tui/tui-app.tsx:181-198 | with the list open the arrows keep the highlight inside a non-empty list, the list itself and the level are unchanged, and no resistance is requested |
| Tui.LevelKey | fitness-bike-node-ble-tui/tui-app.tsx:200-247 | at most one request; j and J ask for the lower step, k and K for the higher one; a single digit 1..8 asks for ten times that digit; any other key requests nothing |
| Tui.SelectionBlocksLevels | fitness-bike-node-ble-tui/tui-app.tsx:197 | while the device list is shown no key requests a resistance |
| Tui.QuitPreemptsCancel | fitness-bike-node-ble-tui/tui-app.tsx:123-128 | as written, q with the device list open quits, so the cancel branch never runs |
| Tui.QuitCancelsSelection | fitness-bike-node-ble-tui/tui-app.tsx:192-196 | corrected, q with the list open closes it and shows the scan as complete; without a list q still quits |
| Tui.OnScan | fitness-bike-node-ble-tui/tui-app.tsx:133-167 | a failed scan shows the error; otherwise the list is replaced; no device shows none found, one is connected at once, two or more open the list on its first entry; with fewer than two an open list stays open as written and is closed when corrected |
| Tui.FixedScanKeepsSelection | fitness-bike-node-ble-tui/tui-app.tsx:137-152 | corrected, a scan result keeps an open list's highlight on one of its devices |
| Tui.FixedKeysKeepSelection | fitness-bike-node-ble-tui/tui-app.tsx:181-198 | corrected, no key moves an open list's highlight off its devices, and Enter never reads past the end |
| Tui.StaleSelectionCrashes | fitness-bike-node-ble-tui/tui-app.tsx:137-191 | as written, a two-device list with the second highlighted, then s and a rescan finding one device, leaves the list open on a missing entry, and Enter reads past the end |
| Tui.OnConnect | fitness-bike-node-ble-tui/tui-app.tsx:250-301 | a connection shows connected and marks the dashboard connected; a failure shows the failure and changes nothing else |
| Tui.OnLevelResult | fitness-bike-node-ble-tui/tui-app.tsx:205-212 | only a successful request changes the level shown, to the requested level; nothing else changes |
| Tui.AddLog | fitness-bike-node-ble-tui/tui-app.tsx:84-90 | the log holds between one and fifty entries and ends with the new one |
| Tui.AddLogIsBoundedAppend | fitness-bike-node-ble-tui/tui-app.tsx:84-90 | adding is appending and keeping the newest fifty, as the web log does with its own bound |
| Tui.OnTick | fitness-bike-node-ble-tui/tui-app.tsx:258-290 | the refresh shows the controller's metrics, appends the point and keeps the newest sixty, and raises each bar maximum to at least the new value plus its margin, never lowering it; the device list is untouched |
| Tui.MaximaNeverFall | fitness-bike-node-ble-tui/tui-app.tsx:287-289 | over any run of refreshes the bar maxima never fall, and the distance maximum is the larger of its start and the farthest distance plus one kilometre |
| Tui.DistanceScaleStuck | fitness-bike-node-ble-tui/tui-app.tsx:59 | as written, the distance bar's maximum stays at 1000 km for any ride under 999 km |
| Tui.DistanceScaleTracksRide | fitness-bike-node-ble-tui/tui-app.tsx:289 | starting from one kilometre, the distance bar's maximum is one kilometre beyond the farthest distance shown |
| PreviewContent.BookLinkIffProductPath | techbook-preview-extension/content.js:88-94 | an href is a book link exactly when it contains "/product/"; the separate empty check adds nothing |
| PreviewContent.Beside | techbook-preview-extension/content.js:122-143 | the popup goes one gap right of the link when it fits, else one gap left of it when the right overflows and the left fits, else one gap below the link aligned with its left edge; the height available is measured below the chosen top |
| PreviewContent.Flip | techbook-preview-extension/content.js:145-150 | with less than 200 px available below, the popup moves above the link, as high as a 400 px popup needs but not past the top margin, and the available height becomes the room from that top down to the link's top (or the viewport's bottom when higher) less the margin; otherwise it stays |
| PreviewContent.PositionPopup | techbook-preview-extension/content.js:107-161 | the popup's maximum height is the available height after the flip held to 200..400 px (the room below, capped at 400, whenever that room is at least 200), and it is clamped to the left and top margins, and to the right margin and to leaving 200 px at the bottom whenever the viewport is large enough for that |
| PreviewContent.PlacementPrefersRightThenLeft | techbook-preview-extension/content.js:122-153 | after clamping the popup is still one gap right of the link when it fits there, wholly left of it with the gap when it goes left, and aligned with the link's left edge below it when that edge leaves room |
| PreviewContent.PlacementVertical | techbook-preview-extension/content.js:125-153 | beside the link the popup is top-aligned with it, and below the link it starts one gap under it, whenever the minimum height fits; flipped, a full-height popup ends one gap above the link |
| PreviewContent.LinkTitle | techbook-preview-extension/content.js:264-273 | the title taken from a link is the image's non-empty alt, else the link's trimmed text when it is not empty, else nothing; it is never empty |
| PreviewContent.ParseBookData | techbook-preview-extension/content.js:207-249 | the page's title is used when it is a non-empty string and the link's title otherwise; author, description and price are what their selectors find; the tags are distinct, non-empty trimmed tag texts, and every non-empty trimmed tag text is among them |
| PreviewContent.Keep | techbook-preview-extension/content.js:298-308 | the sections kept are exactly the listed ones that have something to show, in the listed order |
| PreviewContent.Sections | techbook-preview-extension/content.js:298-308 | the popup has a title, author, price, description and tags section exactly when that field is non-empty, in that order top to bottom |
| PreviewContent.Init | techbook-preview-extension/content.js:1-8 | a new preview shows nothing, hovers nothing, has no hide scheduled and an empty cache |
| PreviewContent.HidePopup | techbook-preview-extension/content.js:314-318 | hiding leaves nothing shown, nothing hovered and no hide scheduled, and keeps the cache and the content |
| PreviewContent.Render | techbook-preview-extension/content.js:182 | rendering replaces the content; as written the new content element has no height, and kept it gets the placement's height less the border |
| PreviewContent.Show | techbook-preview-extension/content.js:297-312 | showing renders the content and makes the popup visible, leaving hover and cache alone |
| PreviewContent.Position | techbook-preview-extension/content.js:156-166 | positioning sets the popup's placement and, when there is a content element, its height to the placement's less 4 px |
| PreviewContent.Load | techbook-preview-extension/content.js:169-184 | a link without an href does nothing; a cached URL is shown at once without a fetch; any other URL shows the loading view and is fetched, by its full URL |
| PreviewContent.Enter | techbook-preview-extension/content.js:96-105 | entering a book link cancels a scheduled hide, makes it the hovered link, places the popup by it and shows content rendered for that link |
| PreviewContent.Step | techbook-preview-extension/content.js:26-63 | a step fetches only when a book link is entered, and then shows the loading view for it |
| PreviewContent.InitShowsHovered | techbook-preview-extension/content.js:1-8 | at the start the popup shows nothing, so it shows nothing for the wrong link |
| PreviewContent.StepShowsHovered | techbook-preview-extension/content.js:195-203 | no event, a late fetch result in particular, leaves the popup showing content for a link other than the hovered one |
| PreviewContent.CachedLinkNeedsNoFetch | techbook-preview-extension/content.js:176-179 | hovering a book link whose page is cached shows the cached data and fetches nothing |
| PreviewContent.UncachedLinkFetches | techbook-preview-extension/content.js:181-186 | hovering any other book link shows the loading view and fetches its full URL |
| PreviewContent.FetchedPageIsReused | techbook-preview-extension/content.js:193 | once a page's result is in, hovering the link again shows that data without a fetch |
| PreviewContent.LateResultOnlyCached | techbook-preview-extension/content.js:193-203 | a result for a link no longer hovered is cached and changes nothing else; a failure for it changes nothing |
| PreviewContent.CurrentResultShown | techbook-preview-extension/content.js:193-198 | a result for the hovered link is cached and shown |
| PreviewContent.CurrentFailureShown | techbook-preview-extension/content.js:199-203 | a failure for the hovered link shows the error view and leaves the cache and visibility alone |
| PreviewContent.CacheOnlyGrows | techbook-preview-extension/content.js:193 | the cache never loses a URL, and an entry changes only when its own URL's result comes in |
| PreviewContent.StepCache | techbook-preview-extension/content.js:169-205 | the origin never changes, and the cache changes only by the entry of an incoming result |
| PreviewContent.HideClearsHover | techbook-preview-extension/content.js:81-86 | a scheduled hide that fires leaves nothing shown, nothing hovered and no hide pending; with none scheduled the timer does nothing |
| PreviewContent.PopupHoverKeepsPopup | techbook-preview-extension/content.js:33-37 | moving onto the popup cancels a scheduled hide, so the popup is unchanged when the timer would have fired |
| PreviewContent.LeaveSchedulesHide | techbook-preview-extension/content.js:41-52 | leaving the hovered link and then a check that still finds a book or the popup hovered schedules nothing; one that finds neither schedules the hide; nothing is hidden yet |
| PreviewContent.ContentHeightDropped | techbook-preview-extension/content.js:163-166 | as written, hovering a book link re-renders the content right after it was given its height, so the new content element has none |
| PreviewContent.ContentHeightKept | techbook-preview-extension/content.js:163-166 | rendering with the placement's height, every event keeps the content element's height equal to the popup's less the border |
| PreviewContent.HoverRendersPlacedHeight | techbook-preview-extension/content.js:101-104 | rendering with the placement's height, hovering a book link gives the content the new placement's height |
| SwipeContent.ExtractBookIdFromUrl | techbook-swipe-extension/content.js:1027-1030 | the result is `null` exactly when the URL holds no "/product/" followed by an id character; otherwise it is the non-empty run of characters other than '/' and '?' after the leftmost such match |
| SwipeContent.ExtractBookId | techbook-swipe-extension/content.js:130-133 | the id is the same capture as on a product page's own address, and the whole href when there is no match |
| SwipeContent.AbsoluteLinkKeepsId | techbook-swipe-extension/content.js:130-133 | prefixing a root-relative href with an origin that holds no "/p" leaves the captured id unchanged, so the id recorded from a market link is the id the product page reads from its address |
| SwipeContent.SiteLinkKeepsId | techbook-swipe-extension/content.js:266-275 | for the market origin "https://techbookfest.org" the absolutised link and the relative one name the same book |
| SwipeContent.ExtractPriceNumber | techbook-swipe-extension/content.js:721-728 | a text with no digit or comma reads 999999; otherwise the first run of digits and commas is read without its commas, and is `NaN` when the run has commas only; a number read is never negative |
| SwipeContent.PriceOfPrintedNumber | techbook-swipe-extension/content.js:721-728 | a whole number printed in decimal between text with no digit or comma before it and none right after it is read back as that number |
| SwipeContent.AddNew | techbook-swipe-extension/content.js:679-686 | the first list is kept as a prefix, every later text ends up present, and nothing else is added |
| SwipeContent.PriceCandidates | techbook-swipe-extension/content.js:666-686 | there are candidates exactly when a button or another element showed a price text |
| SwipeContent.CheapestIndex | techbook-swipe-extension/content.js:689-697 | the index holds a minimum, and every earlier entry is strictly larger |
| SwipeContent.Cheapest | techbook-swipe-extension/content.js:689-697 | the text chosen is a candidate whose price is not above any other, and every candidate before its first occurrence is strictly dearer, as a stable ascending sort puts it first |
| SwipeContent.ExtractPrice | techbook-swipe-extension/content.js:663-719 | with no candidates the fallback text or null; with a candidate reading `NaN` the order the sort leaves is unspecified; otherwise the first of the cheapest candidates |
| SwipeContent.LinkBooks | techbook-swipe-extension/content.js:162-281 | one book per link in document order, with the link's id, its absolutised href and its card |
| SwipeContent.DislikedIds | techbook-swipe-extension/content.js:170 | an id is skipped exactly when the history rates it 'dislike' |
| SwipeContent.Collect | techbook-swipe-extension/content.js:162-281 | no skipped id is taken, every id not skipped is taken, and only candidates are taken |
| SwipeContent.CollectDistinct | techbook-swipe-extension/content.js:266-275 | no id is taken twice |
| SwipeContent.CollectTakesFirst | techbook-swipe-extension/content.js:266-275 | each book taken is the candidate at the first position of its id |
| SwipeContent.CollectBooks | techbook-swipe-extension/content.js:162-281 | the books collected have distinct ids, none disliked, each built from one of the page's links |
| SwipeContent.CollectBooksCoversLinks | techbook-swipe-extension/content.js:162-281 | every link whose id is not disliked contributes its id, and the book kept for an id comes from the first link carrying it |
| SwipeContent.StoredOf | techbook-swipe-extension/content.js:964-982 | the stored price is the detail page's price when it found a non-empty one and the card's list price otherwise; description and price are strings and the URL is the book's |
| SwipeContent.Swipe | techbook-swipe-extension/content.js:779-805 | the history records the direction for the book and for no other id; a like stores the book's data, a dislike leaves the stored data exactly as it was |
| SwipeContent.UpdateBookRating | techbook-swipe-extension/content.js:1367-1400 | the history afterwards holds exactly the rating given (absent for null); null and 'dislike' remove the stored data; 'like' stores the page's data when there is some and otherwise keeps what was stored; no other id changes |
| SwipeContent.SwipeAgreesWithRating | techbook-swipe-extension/content.js:779-805 | a like from the card and a like from the product page leave the same store; a dislike records the same history, but only the product page drops the stored data |
| SwipeContent.RatingCounts | techbook-swipe-extension/content.js:1367-1400 | the number of ids holding each rating moves by exactly the rating given and the rating it replaced |
| SwipeContent.RatingIdempotent | techbook-swipe-extension/content.js:1367-1400 | rating a book the same way twice leaves the store as rating it once |
| SwipeContent.RatingKeepsLikedData | techbook-swipe-extension/content.js:1367-1400 | every liked book keeps stored data after a rating, except exactly when a book with no stored data is liked on a page whose data could not be read |
| SwipeContent.SwipeKeepsLikedData | techbook-swipe-extension/content.js:779-805 | after a swipe every liked book still has stored data |
| SwipePopup.CollapseSpacing | techbook-swipe-extension/popup.js:227 | after `replace(/\s+/g, ' ')` the only whitespace left is single spaces, never two in a row |
| SwipePopup.TrimNormalizes | techbook-swipe-extension/popup.js:227 | trimming single-spaced text leaves no leading or trailing space, so the field text is normalised |
| SwipePopup.NormalizeFacts | techbook-swipe-extension/popup.js:227 | the field text has no line break, no leading or trailing whitespace and no whitespace run, and keeps every visible character in order; the later `includes('\n')` test can never succeed |
| SwipePopup.NormalizeIdempotent | techbook-swipe-extension/popup.js:227 | normalising a field text again changes nothing |
| SwipePopup.EscapeCsvField | techbook-swipe-extension/popup.js:223-235 | a value that is not a string gives ''; a string gives its normalised text, quoted with inner quotes doubled when it needs quoting; the result never holds a line break |
| SwipePopup.ReadEscaped | techbook-swipe-extension/popup.js:229-232 | an escaped field followed by the end of the line or a comma reads back as exactly the text it escapes |
| SwipePopup.ReadEscapedLine | techbook-swipe-extension/popup.js:210-217 | a line of escaped fields joined by commas reads back as the field texts, whatever commas or quotes they hold |
| SwipePopup.QuotedIffSpecial | techbook-swipe-extension/popup.js:230-232 | a field is wrapped in quotes exactly when its normalised text contains a comma or a double quote |
| SwipePopup.RowLine | techbook-swipe-extension/popup.js:209-217 | a book's line holds no line break, so it cannot split the CSV |
| SwipePopup.Rows | techbook-swipe-extension/popup.js:209-218 | exactly one line per book, in the order of the books |
| SwipePopup.GenerateCsv | techbook-swipe-extension/popup.js:220 | the CSV starts with the byte order mark U+FEFF |
| SwipePopup.HeadersArePlain | techbook-swipe-extension/popup.js:206 | none of the five column names needs quoting or holds a line break |
| SwipePopup.HeaderReadsBack | techbook-swipe-extension/popup.js:206-207 | the header line is one line and reads back as the five column names |
| SwipePopup.CsvReadsBack | techbook-swipe-extension/popup.js:205-221 | after the byte order mark the CSV splits into the header line and exactly one line per book, and each line reads back as the column names or as that book's five normalised field texts |
| SwipePopup.LikedAmong | techbook-swipe-extension/popup.js:200 | the ids kept are exactly those of the keys that are rated 'like' |
| SwipePopup.LikedAmongKeepsOrder | techbook-swipe-extension/popup.js:200 | the liked ids keep the order of the keys |
| SwipePopup.LikedAmongCounts | techbook-swipe-extension/popup.js:200 | over an object with distinct keys, the liked ids are as many as the 'like' values |
| SwipePopup.LikedIdsCount | techbook-swipe-extension/popup.js:117-203 | the liked ids of a history are exactly as many as the 'like' values `updateStats` counts |
| SwipePopup.LikedIdsInKeyOrder | techbook-swipe-extension/popup.js:200 | `getLikedBooksData` lists liked ids in the history's key order |
| SwipePopup.StoredFor | techbook-swipe-extension/popup.js:202 | missing entries are dropped, never added; when every id has stored data the result is that data, one per id, in order |
| SwipePopup.UpdateStats | techbook-swipe-extension/popup.js:117-131 | the like count is the number of 'like' ratings and the dislike count the number of 'dislike' ratings, together every rated book; the export buttons are enabled exactly when some rating is 'like' |
| SwipePopup.StatsCountLikedIds | techbook-swipe-extension/popup.js:117-131 | with distinct keys, the like count shown is the number of liked ids the export looks up |
| SwipePopup.CountsCover | techbook-swipe-extension/popup.js:121-122 | every rating counts as either a like or a dislike |
| SwipePopup.ExportMatchesStats | techbook-swipe-extension/popup.js:117-203 | export is enabled exactly when some id is liked; the export holds at most one book per liked id, and exactly one when every liked book has data stored |
| SwipePopup.ExportCanComeUpEmpty | techbook-swipe-extension/popup.js:128-149 | a like recorded on a product page whose data could not be read enables export, yet the export finds no book |
| SwipePopup.PopupView | techbook-swipe-extension/popup.js:16-33 | the popup shows "not techbook" exactly when the URL is neither a market page nor a product page, the rating buttons exactly on a product page, and the swipe start button exactly on a market page that is not a product page |
| PageText.Pos | techbook-preview-extension/content.js:287 | the position found holds the value and nothing equal comes before it |
| PageText.PosUnique | techbook-preview-extension/content.js:287 | the first occurrence is the only position that holds the value with nothing equal before it |
| PageText.InOrderOfCons | techbook-preview-extension/content.js:282-292 | values in first-occurrence order within the tail stay in order within the whole sequence, also behind its first element |
| PageText.UniqueInOrder | techbook-preview-extension/content.js:282-292 | the array `if (!acc.includes(x)) acc.push(x)` builds holds no repeat, only values of the input and every value of the input |
| PageText.InOrderOfSnoc | techbook-preview-extension/content.js:282-292 | pushing a value not seen before keeps the kept values in first-occurrence order |
| PageText.UniqueInOrderKeepsOrder | techbook-preview-extension/content.js:282-292 | the kept values come in the order of their first occurrences |
| PageText.NonEmptyTrims | techbook-preview-extension/content.js:286-288 | every text kept is a non-empty trimmed element text, and every non-empty trimmed text is kept |
| PageText.ExtractTags | techbook-preview-extension/content.js:275-295 | the tags hold no repeat and no empty text, are trimmed element texts, and include every element's non-empty trimmed text (the swipe extension's copy at techbook-swipe-extension/content.js:646-661 is the same) |
| PageText.TagsKeepFirstSeenOrder | techbook-swipe-extension/content.js:646-661 | the tags come in the order their first element appeared |
| PageText.FirstFound | techbook-preview-extension/content.js:252-254 | every selector before the one found matched nothing, and the one found matched an element |
| PageText.ExtractText | techbook-preview-extension/content.js:251-262 | the first selector that matches decides: a META element gives its content attribute (null when absent), another element its trimmed text; null when no selector matches (same in techbook-swipe-extension/content.js:633-644) |
| JsObject.Get | techbook-swipe-extension/content.js:170 | a lookup finds a value exactly when the key is present |
| JsObject.Set | techbook-swipe-extension/content.js:1379 | after `o[k] = v` the key reads `v` and every other key reads as before |
| JsObject.SetKeys | techbook-swipe-extension/content.js:1379 | assigning keeps the key order, appending the key only when it is new |
| JsObject.Delete | techbook-swipe-extension/content.js:1367-1396 | after `delete o[k]` the key is absent and every other key reads and is present as before |
| JsObject.CountValue | techbook-swipe-extension/popup.js:121-122 | the count is zero exactly when no entry holds the value |
| JsObject.GetEntry | techbook-swipe-extension/popup.js:200 | with distinct keys every entry is what a lookup of its key gives |
| JsObject.SetKeepsDistinct | techbook-swipe-extension/content.js:1379 | assigning never creates a second entry for a key |
| JsObject.CountAfterSet | techbook-swipe-extension/content.js:1379 | an assignment changes the count of a value by exactly the value it writes and the value it replaces |
| JsObject.DeleteAbsent | techbook-swipe-extension/content.js:1370 | deleting a key that is not there changes nothing |
| JsObject.CountAfterDelete | techbook-swipe-extension/content.js:1370 | a delete removes exactly the one entry of its key from the count |
| JsObject.SetTwice | techbook-swipe-extension/content.js:1379 | a second assignment to a key overrides the first |
| JsObject.DeleteTwice | techbook-swipe-extension/content.js:1370 | deleting a key twice is deleting it once |
| Base.AppendBounded | fitness-bike-webbluetooth/react-app/src/react-app/hooks/useBluetooth.ts:31 | appending to a capped log ends with the new entry after the newest earlier entries, never exceeds the cap, and drops nothing while under it |
| Base.ParseIntOfNatToString | fitness-bike-node-ble-tui/fitness-bike-controller.js:335 | `parseInt` reads back every whole number printed in decimal |
| Base.ParseFloatWhole | fitness-bike-webbluetooth/react-app/src/react-app/components/modals/SettingsModal.tsx:27 | `parseFloat` reads a string of decimal digits as its value |
| Base.StringLessEqTotal | fitness-bike-webbluetooth/react-app/src/react-app/components/modals/SettingsModal.tsx:51 | any two strings are ordered one way or the other by the default sort's comparison |
| Base.StringLessEqAntisymmetric | fitness-bike-webbluetooth/react-app/src/react-app/components/modals/SettingsModal.tsx:51 | two strings ordered both ways are equal |
| Base.StringLessEqTransitive | fitness-bike-webbluetooth/react-app/src/react-app/components/modals/SettingsModal.tsx:51 | the string order is transitive |
| Bytes.SplitReadUnsigned | fitness-bike-node-ble-tui/aerobike-controller.ts:646-650 | the `& 0xFF` / `(x >> 8) & 0xFF` split of an unsigned 16-bit value reads back through `readUInt16LE` as the value |
| Bytes.SplitReadSigned | fitness-bike-node-ble-tui/aerobike-controller.ts:646-650 | the same split of a signed 16-bit value reads back through `readInt16LE` as the value |
| Bytes.Int16LeBytesIsSplit | fitness-bike-webbluetooth/react-app/src/react-app/hooks/useBluetooth.ts:265 | `setInt16(…, true)` writes the same two bytes as the Node controllers' split, for every integer |

## Left out

- BLE transport (noble and Web Bluetooth connection, service and characteristic discovery, notifications) is left out. Every write and subscription is an outcome given by the caller, and the model lists the writes attempted.
- The scan timer and its early-exit race in `aerobike-controller.ts` are concurrency over callbacks and timers. So are the legacy scan timeout and the 1000 ms and 500 ms settle delays. None is modelled.
- Timers in the extensions are modelled only by their effect on state: the preview's hide timer and its 10 ms hover check. The swipe extension's animation pauses and the toast display times are dropped.
- `toFixed`, `toLocaleTimeString` and `toISOString` rendering is left out. The duration format is the one string rendering modelled.
- JavaScript number rounding and overflow are left out. Fractions are exact reals and integers are unbounded, except where the source truncates to bytes.
- The React app's `App.tsx` is wiring only. It does not pass `onStartMonitoring` or `onStopMonitoring` to `ConnectionStatus`, so a click that calls them would throw there. `ConnectionStatus.Click` models the component with both callbacks present.
- The `isPriceText` regular expressions decide which texts count as prices. The page reader makes that decision and passes the result in. Markdown rendering, `escapeHtml`, `extractHighResImage` and all HTML building are not modelled.
- DOM traversal, `DOMParser`, `fetch`, `MutationObserver`, gestures, CSS, `chrome.storage`, `localStorage`, the clipboard and the download are left out. What they read or return is a parameter or a `Store` value.
- `shuffleArray` (`Math.random`) is left out. `SwipeContent.CollectBooks` states the books before the shuffle.
- The swipe card's `currentIndex` and its display are not modelled. Neither are the completion screen and the popup's history reset (`chrome.storage.local.clear`).
- `saveBookData` also stores `author`, `tags` and `likedAt`. The model keeps only the five fields the CSV export reads.
- JavaScript orders integer-like object keys before the others. The model keeps every key in insertion order.
- In `SwipeContent`, only `extractText` and `extractTags` of the swipe extension's `parseBookData` are modelled, through `PageText`. The list of selectors it tries is not.
- A dislike given by swiping leaves any earlier `likedBooksData` entry in place; only a product-page dislike removes it. `SwipeContent.SwipeAgreesWithRating` states this difference rather than hiding it.
- WorkoutData.Tick: one call is one run of the metrics effect. The effect lists `metrics.sessionDistance` among its dependencies (`useWorkoutData.ts` line 145), so a run that moves the distance makes React run it again. One notification can therefore append several points and add several distance steps before a re-run lands in the same millisecond. `TickChangesDistance` and `RerunInSameMillisecond` state when this happens; how many re-runs happen depends on render timing, which is not modelled.
- LegacyController.ParseCommand: `toLowerCase` is modelled as ASCII-only lowering. Case folding of non-ASCII letters is not modelled, so a command spelled with a non-ASCII letter whose lower case is ASCII (the Kelvin sign lowers to `k`) is not recognised by the model.
- React StrictMode's double invocation of state updaters is left out. In development it would add a distance twice in `addDistanceToTotal`.
- Tui.AddLog: every `addLog` call in the handlers sits under `if (debug)`. The debug flag is not modelled, so no handler appends to `logs`; `AddLog` states the bounded append alone.
- The legacy controller's Japanese console messages are represented by named constants.
- ControlSequencer.SetResistanceLevel: levels are integers. The source's range check `level < 1 || level > 80` would let a fractional level such as 2.5 through; no caller passes one, and the model does not represent it.
- WebBluetooth.SetResistanceLevel: levels are integers, so `setInt16`'s ToInt16 conversion of a fractional level is not modelled.
- PowerBar.Percentage: requires a positive `maxPower`. With 0 the source divides by zero, and that JavaScript result is not modelled.
- Base.ParseFloatWhole: only whole numbers are proved to read back. A typed fraction is parsed by the model, but no round trip is stated for it.
- Base.ParseInt: the precision loss of `parseInt` on numbers beyond 2^53 is not modelled.
- PreviewContent.Step: element positions and styles are not rendered. The popup's placement is kept as numbers. A repeated mouseover on the link being loaded starts a second fetch, as in the source. The parsed page arrives with the fetch result: `ParseBookData` has its own contract, and `Step` is given its output.
- The MCP server and the face-crop image utility belong to the repository but not to this core.

## Findings

| source | as written | input that shows it | evidently intended | confidence | as-written member | corrected member |
|---|---|---|---|---|---|---|
| fitness-bike-webbluetooth/react-app/src/react-app/hooks/useBluetooth.ts:48-51 | the distance field is read with `dataView.getUint24`, which `DataView` does not have, so the call throws a `TypeError` | notification 04 00 10 27 00 (flags 0x0004, total distance 10000 m) | read the three bytes little-endian and report 10000 m | not executed | WebBluetooth.DistanceFrameExample | WebBluetooth.DistanceFrameRepaired |
| fitness-bike-node-ble-tui/tui-app.tsx:123-196 | 'q' quits the program before the device-list branch can treat it as cancel | device list open, key 'q' | 'q' closes the list and returns to the scan-complete status | not executed | Tui.QuitPreemptsCancel | Tui.QuitCancelsSelection |
| fitness-bike-node-ble-tui/tui-app.tsx:137-191 | a rescan that finds fewer than two devices leaves an open device list with its old index | list of two with the second highlighted, 's', rescan finds one device, Enter | the list closes when fewer than two devices come back, so the index always names a device | not executed | Tui.StaleSelectionCrashes | Tui.FixedScanKeepsSelection |
| fitness-bike-node-ble-tui/tui-app.tsx:289 | the distance bar's maximum starts at 1000 (line 59) while the updates use kilometres, so it stays at 1000 until a ride passes 999 km | any ride shorter than 999 km | start at 1 km so the maximum is one kilometre beyond the farthest distance | not executed | Tui.DistanceScaleStuck | Tui.DistanceScaleTracksRide |
| techbook-preview-extension/content.js:163-182 | the content element's max height is set on the element that the next render replaces, so the popup's content loses its height | hover over a book link: the content is re-rendered after placement | the content element keeps `finalHeight − 4` | not executed | PreviewContent.ContentHeightDropped | PreviewContent.ContentHeightKept |
