# Bridge control console — verified model

The console is the operator's side of a lifting-bridge controller. An ESP32
drives the bridge, the gates and the traffic lights, and sends its state over
UDP as lines like
`STATUS|MODE:OVERRIDE|BRIDGE:CLOSED|GATE:OPEN|…|SEQUENCE:IDLE`. The console
does two things with them:

- `Receive` reads each packet. A `STATUS|` line is parsed into a snapshot of
  seven fields (mode, bridge, gate, road and boat distance, road and boat
  light) and also summarised in the message log. Any other packet is logged
  as `ESP32: <packet>`.
- `Gui` is the operator console:
  - it tracks the time of the last status and detects when communication is
    lost and when it comes back;
  - it records the reported mode and diagnostic state;
  - it enables or disables the manual-override control panel to match;
  - it lets an operator action through only in the right mode;
  - it keeps a newest-first message log, breaking a line after the
    `MANUAL_BRIDGE_LIGHTS:` value.

The project has three Dafny files:

- `java_string.dfy` holds the `java.lang.String` operations the code relies
  on: `startsWith`, `indexOf`, and `split("\\|")` with Java's removal of
  trailing empty pieces.
- `receive.dfy` (module `Receive`) holds the packet dispatch, the status
  parser and the key lookup. It proves:
  - where each field's value comes from (the last matching segment, or the
    default);
  - that parsing undoes writing a status line;
  - the first-match behaviour of the lookup;
  - the summary line produced for a well-formed status.
- `gui.dfy` (module `Gui`) holds the console as a class `Console`. The
  fields the modelled handlers read or change are fields of this class. Each
  handler is a method proved against a specification function. Lemmas over
  those functions state:
  - the panel invariant of the corrected console (see "## Findings"): in
    automatic mode only the emergency stop is usable; in override mode
    outside diagnostics everything is usable; the emergency stop is always
    usable. The code as written breaks the last clause on entering
    diagnostics, which `Gui.EmergencyStopStaysDisabledAsWritten` shows;
  - that the loss check is edge-triggered;
  - how the log rewrite places its line break.

## Notes on the code's behaviour

- **Status packets.** A packet is a status exactly when it passes
  `startsWith("STATUS|")` (Receive.java:62). Nothing is trimmed. Every such
  line is parsed, and a field it does not name keeps its default (`UNKNOWN`,
  or `0` for the distances). Every other packet is logged as `ESP32: ` +
  packet (`Receive.HandlePacket`).
- **Mode switches.** `automatic_mode` is sent only from override mode and
  `override_mode` only from automatic mode (Gui.java:579-600); pressing the
  button of the current mode does nothing (`Gui.Console.PressAutomaticMode`,
  `Gui.Console.PressOverrideMode`).
- **Status bookkeeping.** `Gui.updateSystemStatus` records the time of the
  last status and the reported mode (Gui.java:1112, 1192-1200), not the
  receiver (`Gui.Console.UpdateSystemStatus`).

## Model

| member | source | states |
|---|---|---|
| JavaString.IndexOf | app/src/main/java/mcp/Gui.java:1255-1263 | `indexOf(pat, from)` gives -1 exactly when `pat` does not occur at or after `from`; otherwise it gives the least such occurrence |
| JavaString.Split | app/src/main/java/mcp/Receive.java:100 | `split("\\|")`: no piece contains `|`; a string without `|` is its own only piece |
| JavaString.SplitJoin | app/src/main/java/mcp/Receive.java:100 | Splitting `|`-free pieces joined by `|` gives back the pieces, provided the last piece is not empty |
| Receive.PrefixesPrefixFree | app/src/main/java/mcp/Receive.java:110-125 | No key prefix of the parser (`MODE:`, `BRIDGE:`, …) starts with another, so the order of the if-else chain does not matter |
| Receive.AtMostOneField | app/src/main/java/mcp/Receive.java:110-125 | A segment starts with at most one of the seven prefixes |
| Receive.Selects | app/src/main/java/mcp/Receive.java:110-125 | The branch taken for a segment: a field whose prefix the segment starts with, or none exactly when no prefix matches |
| Receive.ApplySegmentGet | app/src/main/java/mcp/Receive.java:110-125 | One loop step sets the selected field to the text after its prefix and leaves every other field unchanged |
| Receive.FoldFieldAbsent | app/src/main/java/mcp/Receive.java:102-108 | A field that no segment names keeps its default (`UNKNOWN`, or `0` for the distances) |
| Receive.FoldFieldLast | app/src/main/java/mcp/Receive.java:110-125 | A field takes the value from the last segment that names it |
| Receive.IgnoredSegments | app/src/main/java/mcp/Receive.java:110-125 | Appending segments that match no prefix leaves the parsed status unchanged |
| Receive.SkippedTokens | app/src/main/java/mcp/Receive.java:110-125 | The `STATUS` token, `SEQUENCE:` and `BRIDGE_LIGHT:` segments are ignored by the parser |
| Receive.ParseStatusMessage | app/src/main/java/mcp/Receive.java:95-130 | The loop over the split message with seven local variables computes exactly `ParsedStatus(msg)` |
| Receive.RoundTrip | app/src/main/java/mcp/Receive.java:95-130 | Parsing a status line written from a status whose values contain no `|` gives back that status |
| Receive.FirstValueSpec | app/src/main/java/mcp/Receive.java:139-151 | The lookup returns the value after the first segment that starts with `key:`, or `UNKNOWN` when none does |
| Receive.ExtractValue | app/src/main/java/mcp/Receive.java:139-151 | The loop with its early return computes `FirstValue(Split(msg), key + ":")` |
| Receive.BridgeKeySkipsBridgeLight | app/src/main/java/mcp/Receive.java:143-145 | Looking up `BRIDGE` never matches a `BRIDGE_LIGHT:` segment |
| Receive.RepeatedKey | app/src/main/java/mcp/Receive.java:95-151 | With a repeated key, the parser keeps the last value and the summary lookup reports the first |
| Receive.HandlePacket | app/src/main/java/mcp/Receive.java:58-85 | A packet is parsed exactly when it starts with `STATUS|`. A parsed packet is logged by its summary; any other packet is logged as `ESP32: ` + packet |
| Receive.LookupInStatusLine | app/src/main/java/mcp/Receive.java:139-151 | On a written status line, the lookup of each field's key gives that field's value, whatever segments follow |
| Receive.SplitSequencedLine | app/src/main/java/mcp/Receive.java:100 | A status line with a `SEQUENCE:` segment splits into the status segments followed by that segment |
| Receive.SequenceLookup | app/src/main/java/mcp/Receive.java:69 | The summary finds the sequence value in the trailing `SEQUENCE:` segment |
| Receive.SummaryOfStatusLine | app/src/main/java/mcp/Receive.java:65-81 | The summary of a written status line with a sequence reports that status's bridge, gate, road light and boat light, and the sequence |
| Gui.CheckCommunication | app/src/main/java/mcp/Gui.java:114-127 | After a tick the link is lost exactly when the last status is more than 5000 ms old and a status has arrived or the link was already lost. A line is logged exactly when the flag flips: the warning on loss, the notice on recovery |
| Gui.NoLossBeforeFirstStatus | app/src/main/java/mcp/Gui.java:117 | Before any status arrives, a tick never declares the link lost |
| Gui.LossIsReportedOnce | app/src/main/java/mcp/Gui.java:117-126 | Once lost, later ticks with no new status change nothing and log nothing |
| Gui.LossAndRestoreTimeline | app/src/main/java/mcp/Gui.java:113-127 | After a status at t0: a tick at t0+5000 changes nothing; a tick at t0+5001 declares the link lost; a new status followed by a tick restores it |
| Gui.QueueText | app/src/main/java/mcp/Gui.java:1178-1190 | The queue label is non-empty exactly in override mode with a non-empty queue size. It then starts with `Queue: ` + size, followed by exactly ` (Executing)` when the executing flag is `YES` and by nothing otherwise |
| Gui.RewriteBreaksAfterValue | app/src/main/java/mcp/Gui.java:1253-1272 | When the value after the first `MANUAL_BRIDGE_LIGHTS:` key is followed by `|`, that `|` is replaced by a newline and indent |
| Gui.RewriteKeepsOtherMessages | app/src/main/java/mcp/Gui.java:1253-1272 | When no such `|` exists, the message is logged unchanged |
| Gui.RewriteWithoutKey | app/src/main/java/mcp/Gui.java:1255-1256 | The rewrite as written leaves a message without the key unchanged |
| Gui.AsWrittenAgreesOnSingleKey | app/src/main/java/mcp/Gui.java:1255-1270 | When the key occurs at most once, the rewrite as written equals the corrected one |
| Gui.AsWrittenMisplacesBreak | app/src/main/java/mcp/Gui.java:1259-1263 | On `…:NO||…:YES`, the rewrite as written puts the break after the second `|` instead of the first |
| Gui.Prepend | app/src/main/java/mcp/Gui.java:1272-1298 | A new log entry goes first, holds the message as rewritten by the corrected `RewriteLogMessage`, and leaves the older entries after it unchanged |
| Gui.PanelEnabled | app/src/main/java/mcp/Gui.java:1051-1076 | Enabling the panel sets every control except the emergency stop to the given flag; the emergency stop keeps its state |
| Gui.DiagnosticLayout | app/src/main/java/mcp/Gui.java:1079-1103 | In diagnostics only `restart` and `perform_diagnostics` stay usable among the panel buttons. Corrected: the emergency stop and the check box are untouched |
| Gui.EmergencyStopStaysDisabledAsWritten | app/src/main/java/mcp/Gui.java:1079-1103 | As written, the diagnostic layout disables the emergency stop, and no later panel enabling turns it back on |
| Gui.PanelEnabledAllKeepsEmergencyStop | app/src/main/java/mcp/Gui.java:1055-1059 | Any sequence of panel enable or disable calls leaves the emergency stop as it was |
| Gui.PanelEnabledInvariant | app/src/main/java/mcp/Gui.java:1051-1076 | Enabling the panel for a mode that is not override with diagnostics establishes the panel invariant |
| Gui.StatusKeepsPanelInvariant | app/src/main/java/mcp/Gui.java:1192-1209 | The control changes of a status update keep the panel invariant: the emergency stop is always usable; only it is usable outside override mode; everything is usable in override mode without diagnostics |
| Gui.UnchangedFlagsKeepControls | app/src/main/java/mcp/Gui.java:1192-1209 | A status that changes neither the mode nor the diagnostic state changes no control, so a repeated report leaves the panel as the first one left it |
| Gui.Console.constructor | app/src/main/java/mcp/Gui.java:101-104 | With the field initialisers (lines 60-62, 91) and the initial button states (602-608, 770-790), a new console has: no status yet, link not lost, automatic mode, sender not ready, only the emergency stop enabled, empty log, queue label and outbox, panel invariant holds |
| Gui.Console.UpdateMessageLog | app/src/main/java/mcp/Gui.java:1247-1305 | The log becomes the old log with the message, rewritten by the corrected rule, prepended |
| Gui.Console.InitializeSender | app/src/main/java/mcp/Gui.java:107-110 | The sender becomes ready and the initialisation notice is logged |
| Gui.Console.CheckCommunicationTick | app/src/main/java/mcp/Gui.java:113-127 | The timer callback updates the loss flag and logs exactly as `CheckCommunication` says |
| Gui.Console.SetControlPanelEnabled | app/src/main/java/mcp/Gui.java:1035-1077 | The section titles get or lose the override notice; every control except the emergency stop gets the flag |
| Gui.Console.UpdateDiagnosticModeButtons | app/src/main/java/mcp/Gui.java:1079-1103 | In diagnostics the controls become `DiagnosticLayout` (corrected); otherwise nothing changes |
| Gui.Console.UpdateModeButtons | app/src/main/java/mcp/Gui.java:1229-1245 | The automatic button is enabled exactly in override mode; the override button exactly outside it |
| Gui.Console.ApplyReportedMode | app/src/main/java/mcp/Gui.java:1192-1200 | Records the reported mode. On a change, the mode buttons are refreshed and the panel is enabled in override mode and disabled otherwise |
| Gui.Console.ApplyDiagnosticChange | app/src/main/java/mcp/Gui.java:1202-1209 | On a change of diagnostic state in override mode, the controls are refreshed: the corrected diagnostic layout, or the whole panel enabled again |
| Gui.Console.UpdateSystemStatus | app/src/main/java/mcp/Gui.java:1105-1215 | A status stamps `now`. It sets the diagnostic flag from the sequence state, and the mode from the report (kept when `UNKNOWN`). It sets the queue label and the controls by the functions above (with the corrected diagnostic layout), and keeps the panel invariant of the corrected console |
| Gui.Console.PressControlButton | app/src/main/java/mcp/Gui.java:849-858 | A disabled button does nothing. An enabled one sends and logs its command in override mode with the sender ready; otherwise it logs the not-initialised error, even when the cause is automatic mode |
| Gui.Console.ToggleManualControl | app/src/main/java/mcp/Gui.java:753-763 | The check box sends `manual_bridge_lights_true` or `_false` only in override mode with the sender ready, and otherwise does nothing |
| Gui.Console.PressAutomaticMode | app/src/main/java/mcp/Gui.java:579-588 | From override mode, `automatic_mode` is sent and logged, or the error is logged without a sender; from automatic mode nothing happens |
| Gui.Console.PressOverrideMode | app/src/main/java/mcp/Gui.java:591-600 | From automatic mode, `override_mode` is sent and logged, or the error is logged without a sender; in override mode nothing happens |
| Gui.Console.PressEmergencyStopButton | app/src/main/java/mcp/Gui.java:703-720 | After confirmation, in either mode, `emergency_stop` is sent and logged, or the error is logged without a sender; unconfirmed, nothing happens |

## Left out

- The UDP sockets and the receive loop, `IOException` handling and the
  `Network error:` log line (Receive.java:47-92). The model takes one packet
  at a time as a string.
- The `catch` in `parseStatusMessage` and `extractValue`. The modelled
  operations cannot throw on a non-null string.
- The link from `Receive` to `Gui.updateSystemStatus`. Receive.java:129-130
  passes seven arguments, while Gui.java:1105 declares fifteen. The two sides
  are modelled separately: `Receive.Status` has the parsed fields, and
  `Gui.StatusReport` has the fifteen parameters.
- `Send.java`, `Heartbeat.java` and `App.java` are not part of this model.
  Sending a command is an append to `Console.sent`, and only when the
  sender is ready.
- All rendering: colours, fonts, label texts other than the section titles
  and the queue label, the weight and distance labels, the glass pane, the
  `updateCommunicationStatus` indicator, and the mode-button colours and
  texts.
- Gui.Console.UpdateMessageLog: the `HH:mm:ss - ` timestamp and trailing
  newline are not modelled; a log entry is the rewritten message. The case of
  a not-yet-created log area is not modelled either.
- The wall clock and the Swing timer. `now` is a parameter in milliseconds,
  and each handler runs atomically, as on the event thread (`invokeLater`).
- Java `null` for the queue size or executing flag. Gui.QueueText takes
  strings only.
- The confirmation dialog of the emergency stop. The operator's answer is
  the `confirmed` parameter.
- Clearing and exporting the message log.
- Gui.Prepend: the new entry is the message as rewritten by the corrected
  `RewriteLogMessage`. The code as written (`RewriteLogMessageAsWritten`)
  differs only when the key occurs twice (second row of "## Findings").
- Gui.Console.UpdateMessageLog: it logs with the corrected rewrite, as
  `Gui.Prepend` does, not the one at Gui.java:1259-1269.
- Gui.Console.UpdateDiagnosticModeButtons: it applies the corrected
  `DiagnosticLayout`, which leaves the emergency stop enabled, not the loop
  as written at Gui.java:1084-1090, which disables it (first row of
  "## Findings", `DiagnosticLayoutAsWritten`).
- Gui.Console.ApplyDiagnosticChange: entering diagnostics uses the corrected
  layout, so the emergency stop stays enabled where the code disables it.
- Gui.Console.UpdateSystemStatus: its controls and its `Valid()` invariant
  (the emergency stop always enabled) are those of the corrected console; the
  code as written loses that invariant on the first diagnostic status in
  override mode.
- Gui.Console.PressEmergencyStopButton: in the corrected console the
  emergency stop is always enabled, so the method does not check whether it
  is; in the code as written a disabled emergency stop cannot be pressed.

## Findings

| source | as written | input that shows it | evidently intended | confidence | as-written member | corrected member |
|---|---|---|---|---|---|---|
| app/src/main/java/mcp/Gui.java:1079-1103 | `updateDiagnosticModeButtons` disables every button but `restart` and `perform_diagnostics`, the EMERGENCY STOP included. `setControlPanelEnabled` (1055-1059) skips the emergency stop, so no later status enables it again | a status with mode OVERRIDE, then one with sequence state DIAGNOSTIC, then any further statuses | the emergency stop stays enabled at all times, as the comments at 775 and 1054 say | medium, not executed | Gui.EmergencyStopStaysDisabledAsWritten | Gui.StatusKeepsPanelInvariant |
| app/src/main/java/mcp/Gui.java:1259-1263 | the YES/NO test uses `indexOf(value, keyIndex) != -1`, which finds the value anywhere after the first key rather than at it | `MANUAL_BRIDGE_LIGHTS:NO||MANUAL_BRIDGE_LIGHTS:YES`: the break goes at index 24 instead of 23 | break after the value that directly follows the first key | low, not executed | Gui.AsWrittenMisplacesBreak | Gui.RewriteBreaksAfterValue |
