/**
 * The non-rendering logic of the operator console (Gui.java): the
 * communication-loss check run by a one-second timer, the state updates made
 * when a status arrives, the gating of operator actions by mode, the enabling
 * of the manual-override controls, and the rewriting and newest-first
 * prepending of message-log lines. Every update runs on the Swing event
 * thread, so the console is modelled as one object whose methods run one at
 * a time; the clock is an explicit `now` in milliseconds.
 */
module Gui {
  import opened Wrappers
  import opened JavaString

  // ---------------------------------------------------------------------------
  // Communication-loss check
  // ---------------------------------------------------------------------------

  /** Milliseconds without a status after which the link counts as lost. */
  const Timeout := 5000

  const LostWarning := "WARNING: Communication lost - No status received for 5 seconds"
  const RestoredNotice := "SYSTEM: Connected to ESP"

  /** The state the timer reads and writes: lastStatusTime (0 = never) and communicationLost. */
  datatype Liveness = Liveness(lastStatusTime: nat, lost: bool)

  /** What one timer tick leaves behind: the new state and the log line it writes, if any. */
  datatype TickOutcome = TickOutcome(next: Liveness, line: Option<string>)

  /**
   * One run of the timer callback at time now. The link is lost after the
   * tick exactly when the last status is more than Timeout old and either a
   * status has ever arrived or the link was already lost; a line is logged
   * exactly when the flag flips, the warning on loss and the notice on return.
   */
  function CheckCommunication(l: Liveness, now: nat): (r: TickOutcome)
    ensures r.next.lastStatusTime == l.lastStatusTime
    ensures r.next.lost == (now - l.lastStatusTime > Timeout && (l.lastStatusTime > 0 || l.lost))
    ensures r.line.Some? <==> r.next.lost != l.lost
    ensures r.line == Some(LostWarning) <==> !l.lost && r.next.lost
    ensures r.line == Some(RestoredNotice) <==> l.lost && !r.next.lost
  {
    var elapsed := now - l.lastStatusTime;
    if elapsed > Timeout && l.lastStatusTime > 0 then
      if !l.lost then TickOutcome(Liveness(l.lastStatusTime, true), Some(LostWarning))
      else TickOutcome(l, None)
    else if l.lost && elapsed <= Timeout then
      TickOutcome(Liveness(l.lastStatusTime, false), Some(RestoredNotice))
    else TickOutcome(l, None)
  }

  /** Before the first status (lastStatusTime 0) a tick never declares the link lost. */
  lemma NoLossBeforeFirstStatus(now: nat)
    ensures CheckCommunication(Liveness(0, false), now) == TickOutcome(Liveness(0, false), None)
  {
  }

  /**
   * Edge triggering: once a tick has declared the link lost, further ticks
   * without a new status change nothing and log nothing.
   */
  lemma LossIsReportedOnce(l: Liveness, now: nat, later: nat)
    requires now <= later
    requires CheckCommunication(l, now).next.lost
    ensures CheckCommunication(CheckCommunication(l, now).next, later) ==
            TickOutcome(CheckCommunication(l, now).next, None)
  {
  }

  /**
   * The timeline of a status at t0, silence, and a status at t0 + 5500:
   * connected up to t0 + 5000, lost (with one warning) at t0 + 5001, and
   * connected again (with one notice) at the first tick after the new status.
   */
  lemma LossAndRestoreTimeline(t0: nat)
    requires t0 > 0
    ensures CheckCommunication(Liveness(t0, false), t0 + 5000) == TickOutcome(Liveness(t0, false), None)
    ensures CheckCommunication(Liveness(t0, false), t0 + 5001) ==
            TickOutcome(Liveness(t0, true), Some(LostWarning))
    ensures CheckCommunication(Liveness(t0 + 5500, true), t0 + 6000) ==
            TickOutcome(Liveness(t0 + 5500, false), Some(RestoredNotice))
  {
  }

  // ---------------------------------------------------------------------------
  // Queue label
  // ---------------------------------------------------------------------------

  /**
   * The queue label text: shown only in OVERRIDE mode with a non-empty queue
   * size, as "Queue: " and the size, with " (Executing)" when executing is "YES".
   */
  function QueueText(mode: string, queueSize: string, executing: string): (r: string)
    ensures r != "" <==> mode == "OVERRIDE" && queueSize != ""
    ensures r != "" ==> StartsWith(r, "Queue: " + queueSize)
    ensures r != "" ==> |r| == |"Queue: " + queueSize| + if executing == "YES" then |" (Executing)"| else 0
    ensures r != "" ==> r[|"Queue: " + queueSize|..] == if executing == "YES" then " (Executing)" else ""
  {
    if mode == "OVERRIDE" && queueSize != "" then
      "Queue: " + queueSize + (if executing == "YES" then " (Executing)" else "")
    else ""
  }

  // ---------------------------------------------------------------------------
  // Message-log rewriting
  // ---------------------------------------------------------------------------

  const ManualKey := "MANUAL_BRIDGE_LIGHTS:"
  const ManualYes := "MANUAL_BRIDGE_LIGHTS:YES"
  const ManualNo := "MANUAL_BRIDGE_LIGHTS:NO"

  /** What replaces the '|' after the manual-lights value: a line break and an indent. */
  const Indent := "\n    "

  /** i is the first index at which pat occurs in m. */
  predicate FirstOccurrence(m: string, pat: string, i: int) {
    OccursAt(m, pat, i) && forall k :: 0 <= k < i ==> !OccursAt(m, pat, k)
  }

  /**
   * p is the position of the '|' right after the YES or NO value of the first
   * MANUAL_BRIDGE_LIGHTS key in m.
   */
  predicate BreakAt(m: string, p: nat) {
    p < |m| && m[p] == '|' &&
    ((p >= |ManualYes| && FirstOccurrence(m, ManualKey, p - |ManualYes|) && OccursAt(m, ManualYes, p - |ManualYes|)) ||
     (p >= |ManualNo| && FirstOccurrence(m, ManualKey, p - |ManualNo|) && OccursAt(m, ManualNo, p - |ManualNo|)))
  }

  /** indexOf from 0 finds the first occurrence. */
  lemma IndexOfFirst(m: string, pat: string)
    requires |pat| > 0
    ensures IndexOf(m, pat, 0) == -1 <==> forall k :: !OccursAt(m, pat, k)
    ensures IndexOf(m, pat, 0) != -1 ==> FirstOccurrence(m, pat, IndexOf(m, pat, 0))
  {
  }

  lemma FirstOccurrenceUnique(m: string, pat: string, i: int, j: int)
    requires FirstOccurrence(m, pat, i) && FirstOccurrence(m, pat, j)
    ensures i == j
  {
  }

  lemma ValueAt(m: string, i: nat, value: string)
    requires i <= |m|
    ensures StartsWith(m[i..], value) <==> OccursAt(m, value, i)
  {
    if StartsWith(m[i..], value) {
      assert m[i..][..|value|] == m[i..i + |value|];
    }
    if OccursAt(m, value, i) {
      assert m[i..][..|value|] == m[i..i + |value|];
    }
  }

  /** A YES or NO value is only ever found where the key itself occurs. */
  lemma ValueHasKey(m: string, i: int, value: string)
    requires value == ManualYes || value == ManualNo
    requires OccursAt(m, value, i)
    ensures OccursAt(m, ManualKey, i)
  {
    assert value[..|ManualKey|] == ManualKey;
    assert m[i..i + |ManualKey|] == m[i..i + |value|][..|ManualKey|];
  }

  /** The values YES and NO cannot both follow the same key. */
  lemma NoIsNotYes(m: string, i: int)
    requires OccursAt(m, ManualNo, i)
    ensures !OccursAt(m, ManualYes, i)
  {
    assert m[i + 21] == ManualNo[21];
  }

  /** The log-line rewrite as its comment describes it: the value is tested at the key. */
  function RewriteLogMessage(m: string): string {
    var at := IndexOf(m, ManualKey, 0);
    if at == -1 then m else BreakAfterValue(m, at)
  }

  /** The rewrite once the key has been found at index at. */
  function BreakAfterValue(m: string, at: nat): string
    requires at <= |m|
  {
    var after :=
      if StartsWith(m[at..], ManualYes) then at + |ManualYes|
      else if StartsWith(m[at..], ManualNo) then at + |ManualNo|
      else -1;
    if after != -1 && after < |m| && m[after] == '|' then m[..after] + Indent + m[after + 1..]
    else m
  }

  /**
   * When the first MANUAL_BRIDGE_LIGHTS key carries the value YES or NO
   * followed by '|', the rewrite turns that one '|' into a line break and an
   * indent.
   */
  lemma RewriteBreaksAfterValue(m: string, p: nat)
    requires BreakAt(m, p)
    ensures RewriteLogMessage(m) == m[..p] + Indent + m[p + 1..]
  {
    if p >= |ManualYes| && FirstOccurrence(m, ManualKey, p - |ManualYes|) &&
       OccursAt(m, ManualYes, p - |ManualYes|) {
      RewriteAfterYes(m, p);
    } else {
      RewriteAfterNo(m, p);
    }
  }

  lemma RewriteAfterYes(m: string, p: nat)
    requires p >= |ManualYes| && FirstOccurrence(m, ManualKey, p - |ManualYes|)
    requires OccursAt(m, ManualYes, p - |ManualYes|)
    requires p < |m| && m[p] == '|'
    ensures RewriteLogMessage(m) == m[..p] + Indent + m[p + 1..]
  {
    RewriteAtFirstKey(m, p - |ManualYes|);
    BreakAfterYes(m, p);
  }

  lemma RewriteAfterNo(m: string, p: nat)
    requires p >= |ManualNo| && FirstOccurrence(m, ManualKey, p - |ManualNo|)
    requires OccursAt(m, ManualNo, p - |ManualNo|)
    requires p < |m| && m[p] == '|'
    ensures RewriteLogMessage(m) == m[..p] + Indent + m[p + 1..]
  {
    RewriteAtFirstKey(m, p - |ManualNo|);
    BreakAfterNo(m, p);
  }

  /** The rewrite looks at the first occurrence of the key. */
  lemma RewriteAtFirstKey(m: string, i: int)
    requires FirstOccurrence(m, ManualKey, i)
    ensures i <= |m| && RewriteLogMessage(m) == BreakAfterValue(m, i)
  {
    IndexOfFirst(m, ManualKey);
    FirstOccurrenceUnique(m, ManualKey, IndexOf(m, ManualKey, 0), i);
  }

  /** A '|' at p right after a YES value at the key is the one replaced. */
  lemma BreakAfterYes(m: string, p: nat)
    requires p >= |ManualYes| && OccursAt(m, ManualYes, p - |ManualYes|)
    requires p < |m| && m[p] == '|'
    ensures BreakAfterValue(m, p - |ManualYes|) == m[..p] + Indent + m[p + 1..]
  {
    ValueAt(m, p - |ManualYes|, ManualYes);
  }

  /** A '|' at p right after a NO value at the key is the one replaced. */
  lemma BreakAfterNo(m: string, p: nat)
    requires p >= |ManualNo| && OccursAt(m, ManualNo, p - |ManualNo|)
    requires p < |m| && m[p] == '|'
    ensures BreakAfterValue(m, p - |ManualNo|) == m[..p] + Indent + m[p + 1..]
  {
    NoIsNotYes(m, p - |ManualNo|);
    ValueAt(m, p - |ManualNo|, ManualYes);
    ValueAt(m, p - |ManualNo|, ManualNo);
  }

  /** Every other message is logged unchanged. */
  lemma RewriteKeepsOtherMessages(m: string)
    requires forall p: nat :: !BreakAt(m, p)
    ensures RewriteLogMessage(m) == m
  {
    IndexOfFirst(m, ManualKey);
    var at := IndexOf(m, ManualKey, 0);
    if at != -1 {
      ValueAt(m, at, ManualYes);
      ValueAt(m, at, ManualNo);
      if StartsWith(m[at..], ManualYes) {
        assert !BreakAt(m, at + |ManualYes|);
      } else if StartsWith(m[at..], ManualNo) {
        assert !BreakAt(m, at + |ManualNo|);
      }
    }
  }

  /**
   * updateMessageLog's rewrite as written: the YES/NO test searches the rest
   * of the message instead of testing the value at the key.
   */
  function RewriteLogMessageAsWritten(m: string): string {
    var at := IndexOf(m, ManualKey, 0);
    if at == -1 then m
    else
      var after :=
        if IndexOf(m, ManualYes, at) != -1 then at + |ManualYes|
        else if IndexOf(m, ManualNo, at) != -1 then at + |ManualNo|
        else -1;
      if after != -1 && after < |m| && m[after] == '|' then m[..after] + Indent + m[after + 1..]
      else m
  }

  /** A message without the key is logged unchanged by both versions. */
  lemma RewriteWithoutKey(m: string)
    requires forall k :: !OccursAt(m, ManualKey, k)
    ensures RewriteLogMessage(m) == m
    ensures RewriteLogMessageAsWritten(m) == m
  {
    IndexOfFirst(m, ManualKey);
  }

  /** With a single occurrence of the key, the code as written does what was meant. */
  lemma {:induction false} AsWrittenAgreesOnSingleKey(m: string)
    requires forall j, k :: OccursAt(m, ManualKey, j) && OccursAt(m, ManualKey, k) ==> j == k
    ensures RewriteLogMessageAsWritten(m) == RewriteLogMessage(m)
  {
    IndexOfFirst(m, ManualKey);
    var at := IndexOf(m, ManualKey, 0);
    if at != -1 {
      ValueAt(m, at, ManualYes);
      ValueAt(m, at, ManualNo);
      var y := IndexOf(m, ManualYes, at);
      if y != -1 {
        ValueHasKey(m, y, ManualYes);
      }
      var n := IndexOf(m, ManualNo, at);
      if n != -1 {
        ValueHasKey(m, n, ManualNo);
      }
    }
  }

  /**
   * A message whose first key has the value NO and whose second has YES: the
   * code as written breaks the line at the second '|' after NO, where the
   * intended rewrite breaks it at the first.
   */
  lemma AsWrittenMisplacesBreak()
    ensures var m := ManualNo + "||" + ManualYes;
            BreakAt(m, |ManualNo|) &&
            RewriteLogMessage(m) == ManualNo + Indent + "|" + ManualYes &&
            RewriteLogMessageAsWritten(m) == ManualNo + "|" + Indent + ManualYes
  {
    var m := ManualNo + "||" + ManualYes;
    assert OccursAt(m, ManualKey, 0) by {
      assert m[..|ManualKey|] == ManualKey;
    }
    IndexOfFirst(m, ManualKey);
    assert IndexOf(m, ManualKey, 0) == 0;
    assert OccursAt(m, ManualNo, 0) by {
      assert m[..|ManualNo|] == ManualNo;
    }
    assert !OccursAt(m, ManualYes, 0) by {
      assert m[21] == 'N';
    }
    assert FirstOccurrence(m, ManualKey, 0);
    assert BreakAt(m, |ManualNo|);
    RewriteBreaksAfterValue(m, |ManualNo|);
    assert OccursAt(m, ManualYes, 25) by {
      assert m[25..] == ManualYes;
    }
    assert IndexOf(m, ManualYes, 0) != -1;
    assert m[..24] == ManualNo + "|" && m[25..] == ManualYes;
    assert m[..23] == ManualNo && m[24..] == "|" + ManualYes;
  }

  /** The log, newest line first, after updateMessageLog(msg). */
  function Prepend(log: seq<string>, msg: string): (r: seq<string>)
    ensures |r| == |log| + 1 && r[0] == RewriteLogMessage(msg) && r[1..] == log
  {
    [RewriteLogMessage(msg)] + log
  }

  /** The log after an optional line. */
  function LogLine(log: seq<string>, line: Option<string>): seq<string> {
    match line
    case None => log
    case Some(m) => Prepend(log, m)
  }

  // ---------------------------------------------------------------------------
  // Manual-override control panel
  // ---------------------------------------------------------------------------

  /** A component of the control panel: a button (with its "command" property, if any) or a check box. */
  datatype Control = Button(text: string, command: Option<string>) | CheckBox(text: string)

  const EmergencyStop := Button("EMERGENCY STOP", None)
  const ManualControl := CheckBox("Manual Control")

  /** The buttons and the check box of the control panel, in the order they are added. */
  const Panel: seq<Control> := [
    EmergencyStop,
    Button("ALLOW BOAT TRAFFIC", Some("allow_boat_traffic")),
    Button("ALLOW ROAD TRAFFIC", Some("allow_road_traffic")),
    Button("RUN FULL TEST", Some("run_full_test")),
    Button("PERFORM DIAGNOSTICS", Some("perform_diagnostics")),
    Button("RESTART ESP32", Some("restart")),
    Button("RED", Some("road_lights_red")),
    Button("YELLOW", Some("road_lights_yellow")),
    Button("GREEN", Some("road_lights_green")),
    Button("RED", Some("boat_lights_red")),
    Button("GREEN", Some("boat_lights_green")),
    ManualControl,
    Button("LIGHTS ON", Some("manual_bridge_lights_on")),
    Button("LIGHTS OFF", Some("manual_bridge_lights_off"))
  ]

  /** The button that setControlPanelEnabled recognises by its text and skips. */
  predicate IsEmergencyStop(c: Control) {
    c.Button? && c.text == "EMERGENCY STOP"
  }

  /** The buttons left enabled in diagnostic mode: those whose command is restart or perform_diagnostics. */
  predicate KeptInDiagnostics(c: Control) {
    c.Button? && c.command.Some? &&
    (c.command.value == "restart" || c.command.value == "perform_diagnostics")
  }

  /** The section labels, with the hint to switch modes while the panel is disabled. */
  function SectionLabels(enabled: bool): (r: seq<string>)
    ensures |r| == 5
  {
    var titles := ["TRAFFIC SEQUENCES", "SYSTEM TESTING", "ROAD LIGHTS", "BOAT LIGHTS", "BRIDGE LIGHTS"];
    if enabled then titles
    else seq(5, k requires 0 <= k < 5 => titles[k] + " - SWITCH TO OVERRIDE MODE TO ENABLE")
  }

  /** The enabled flags after setControlPanelEnabled(f): every control but EMERGENCY STOP becomes f. */
  function PanelEnabled(en: map<Control, bool>, f: bool): (r: map<Control, bool>)
    ensures r.Keys == en.Keys
    ensures forall c :: c in r && !IsEmergencyStop(c) ==> r[c] == f
    ensures forall c :: c in r && IsEmergencyStop(c) ==> r[c] == en[c]
  {
    map c | c in en :: if IsEmergencyStop(c) then en[c] else f
  }

  /**
   * The enabled flags after updateDiagnosticModeButtons in diagnostic mode,
   * as intended: the buttons other than EMERGENCY STOP are enabled exactly
   * when kept in diagnostics; the check box and EMERGENCY STOP keep their flags.
   */
  function DiagnosticLayout(en: map<Control, bool>): (r: map<Control, bool>)
    ensures r.Keys == en.Keys
    ensures forall c :: c in r && c.Button? && !IsEmergencyStop(c) ==> r[c] == KeptInDiagnostics(c)
    ensures forall c :: c in r && (!c.Button? || IsEmergencyStop(c)) ==> r[c] == en[c]
  {
    map c | c in en :: if c.Button? && !IsEmergencyStop(c) then KeptInDiagnostics(c) else en[c]
  }

  /**
   * updateDiagnosticModeButtons as written: every button is enabled exactly
   * when kept in diagnostics, so EMERGENCY STOP, which has no command, is disabled.
   */
  function DiagnosticLayoutAsWritten(en: map<Control, bool>): map<Control, bool> {
    map c | c in en :: if c.Button? then KeptInDiagnostics(c) else en[c]
  }

  /**
   * As written, diagnostic mode disables EMERGENCY STOP, and no later
   * setControlPanelEnabled, with either flag, turns it back on.
   */
  lemma EmergencyStopStaysDisabledAsWritten(en: map<Control, bool>, later: seq<bool>)
    requires EmergencyStop in en
    ensures var d := DiagnosticLayoutAsWritten(en);
            EmergencyStop in d && !d[EmergencyStop] &&
            !PanelEnabledAll(d, later)[EmergencyStop]
  {
    var d := DiagnosticLayoutAsWritten(en);
    PanelEnabledAllKeepsEmergencyStop(d, later);
  }

  /** The flags after setControlPanelEnabled is called with each flag of fs in turn. */
  function PanelEnabledAll(en: map<Control, bool>, fs: seq<bool>): (r: map<Control, bool>)
    ensures r.Keys == en.Keys
    decreases |fs|
  {
    if fs == [] then en else PanelEnabledAll(PanelEnabled(en, fs[0]), fs[1..])
  }

  lemma {:induction false} PanelEnabledAllKeepsEmergencyStop(en: map<Control, bool>, fs: seq<bool>)
    requires EmergencyStop in en
    ensures PanelEnabledAll(en, fs)[EmergencyStop] == en[EmergencyStop]
    decreases |fs|
  {
    if fs != [] {
      PanelEnabledAllKeepsEmergencyStop(PanelEnabled(en, fs[0]), fs[1..]);
    }
  }

  /** The flags after the mode part of updateSystemStatus: the panel follows a changed mode. */
  function ControlsAfterModeChange(en: map<Control, bool>, wasOverride: bool, isOverride: bool): map<Control, bool> {
    if wasOverride != isOverride then PanelEnabled(en, isOverride) else en
  }

  /**
   * The flags after the diagnostic part of updateSystemStatus: in override
   * mode, entering diagnostics restricts the panel and leaving them enables it.
   */
  function ControlsAfterDiagnosticChange(en: map<Control, bool>, overrideMode: bool,
                                         wasDiagnostic: bool, isDiagnostic: bool): map<Control, bool> {
    if wasDiagnostic != isDiagnostic && isDiagnostic && overrideMode then DiagnosticLayout(en)
    else if wasDiagnostic != isDiagnostic && !isDiagnostic && overrideMode then PanelEnabled(en, true)
    else en
  }

  /** The flags updateSystemStatus leaves, given the mode and diagnostic flags before and after. */
  function ControlsAfterStatus(en: map<Control, bool>, wasOverride: bool, isOverride: bool,
                               wasDiagnostic: bool, isDiagnostic: bool): map<Control, bool>
  {
    ControlsAfterDiagnosticChange(ControlsAfterModeChange(en, wasOverride, isOverride),
                                  isOverride, wasDiagnostic, isDiagnostic)
  }

  /**
   * EMERGENCY STOP is enabled;
   * outside override mode every other control is disabled; in override mode
   * outside diagnostics every control is enabled.
   */
  ghost predicate PanelInvariant(en: map<Control, bool>, overrideMode: bool, diagnosticMode: bool) {
    EmergencyStop in en &&
    (forall c :: c in en && IsEmergencyStop(c) ==> en[c]) &&
    (!overrideMode ==> forall c :: c in en && !IsEmergencyStop(c) ==> !en[c]) &&
    (overrideMode && !diagnosticMode ==> forall c :: c in en ==> en[c])
  }

  /** setControlPanelEnabled with the flag of the mode restores the invariant in that mode. */
  lemma PanelEnabledInvariant(en: map<Control, bool>, o: bool, d: bool, o1: bool, d1: bool)
    requires PanelInvariant(en, o, d)
    requires !o1 || !d1
    ensures PanelInvariant(PanelEnabled(en, o1), o1, d1)
  {
  }

  /** Every status update keeps the panel invariant, whatever the mode and sequence it reports. */
  lemma StatusKeepsPanelInvariant(en: map<Control, bool>, wasOverride: bool, isOverride: bool,
                                  wasDiagnostic: bool, isDiagnostic: bool)
    requires PanelInvariant(en, wasOverride, wasDiagnostic)
    ensures PanelInvariant(ControlsAfterStatus(en, wasOverride, isOverride, wasDiagnostic, isDiagnostic),
                           isOverride, isDiagnostic)
  {
    var en1 := if wasOverride != isOverride then PanelEnabled(en, isOverride) else en;
    var d1 := if wasOverride != isOverride then !isOverride else wasDiagnostic;
    if wasOverride != isOverride {
      PanelEnabledInvariant(en, wasOverride, wasDiagnostic, isOverride, d1);
    }
    assert PanelInvariant(en1, isOverride, d1);
    if wasDiagnostic != isDiagnostic && !isDiagnostic && isOverride {
      PanelEnabledInvariant(en1, isOverride, d1, true, false);
    }
  }

  // ---------------------------------------------------------------------------
  // Operator actions and the mode gate
  // ---------------------------------------------------------------------------

  /** The operator actions that can send a command. */
  datatype Action =
    | PressControl(command: string)       // a control-panel button with a command
    | ToggleManualLights(selected: bool)  // the "Manual Control" check box
    | SwitchToAutomatic
    | SwitchToOverride
    | PressEmergencyStop(confirmed: bool) // with the operator's answer to the confirmation dialog

  /** The token each action sends. */
  function CommandOf(a: Action): string {
    match a
    case PressControl(c) => c
    case ToggleManualLights(sel) => if sel then "manual_bridge_lights_true" else "manual_bridge_lights_false"
    case SwitchToAutomatic => "automatic_mode"
    case SwitchToOverride => "override_mode"
    case PressEmergencyStop(_) => "emergency_stop"
  }

  /**
   * The mode gate: manual commands only in override mode, each mode switch
   * only from the other mode, and the emergency stop in any mode once confirmed.
   */
  predicate Permitted(a: Action, overrideMode: bool) {
    match a
    case PressControl(_) => overrideMode
    case ToggleManualLights(_) => overrideMode
    case SwitchToAutomatic => overrideMode
    case SwitchToOverride => !overrideMode
    case PressEmergencyStop(confirmed) => confirmed
  }

  /**
   * A status that changes neither the mode nor the diagnostic state touches no
   * control, so a repeated report leaves the panel as the first one left it.
   */
  lemma UnchangedFlagsKeepControls(en: map<Control, bool>, overrideMode: bool, diagnosticMode: bool)
    ensures ControlsAfterStatus(en, overrideMode, overrideMode, diagnosticMode, diagnosticMode) == en
  {
  }

  const NotInitialized := "ERROR: Send object not initialized"

  /** The status-update arguments of updateSystemStatus. */
  datatype StatusReport = StatusReport(
    mode: string, bridgeState: string, gateState: string,
    roadDistance: string, boatDistance: string, bridgeMovementDistance: string,
    boatClearanceDistance: string, roadLight: string, boatLight: string,
    bridgeLight: string, manualBridgeLights: string, sequenceState: string,
    movementState: string, queueSize: string, executing: string)

  // ---------------------------------------------------------------------------
  // The console
  // ---------------------------------------------------------------------------

  /** The console's state that the model keeps: link, mode, controls, log and what was sent. */
  class Console {
    var lastStatusTime: nat
    var communicationLost: bool
    var isOverrideMode: bool
    var isDiagnosticMode: bool
    /** whether a sender has been set (mcpSendObject != null) */
    var senderReady: bool
    /** the control panel's buttons and check box, in the order they were added */
    var components: seq<Control>
    /** enabled flag of each control-panel component */
    var controls: map<Control, bool>
    var automaticModeButtonEnabled: bool
    var overrideModeButtonEnabled: bool
    var sectionLabels: seq<string>
    var queueText: string
    /** the message log, newest line first */
    var log: seq<string>
    /** the commands handed to the sender, oldest first */
    var sent: seq<string>

    /**
     * The console's invariant: the flags cover exactly the panel's components
     * and keep PanelInvariant, and the mode buttons and the section labels
     * follow the mode.
     */
    ghost predicate Valid()
      reads this
    {
      (forall c :: c in controls <==> c in components) &&
      PanelInvariant(controls, isOverrideMode, isDiagnosticMode) &&
      ModeViewsAgree()
    }

    /** The mode buttons and the section labels show the current mode. */
    predicate ModeViewsAgree()
      reads this
    {
      automaticModeButtonEnabled == isOverrideMode &&
      overrideModeButtonEnabled == !isOverrideMode &&
      sectionLabels == SectionLabels(isOverrideMode)
    }

    /** The console as created: automatic mode, no status yet, only EMERGENCY STOP enabled. */
    constructor ()
      ensures Valid()
      ensures components == Panel
      ensures lastStatusTime == 0 && !communicationLost
      ensures !isOverrideMode && !isDiagnosticMode && !senderReady
      ensures forall c :: c in controls ==> (controls[c] <==> IsEmergencyStop(c))
      ensures queueText == "" && log == [] && sent == []
    {
      lastStatusTime := 0;
      communicationLost := false;
      isOverrideMode := false;
      isDiagnosticMode := false;
      senderReady := false;
      components := Panel;
      controls := map c | c in Panel :: IsEmergencyStop(c);
      automaticModeButtonEnabled := false;
      overrideModeButtonEnabled := true;
      sectionLabels := SectionLabels(false);
      queueText := "";
      log := [];
      sent := [];
    }

    /** updateMessageLog: the rewritten message goes on top of the log. */
    method UpdateMessageLog(message: string)
      modifies this`log
      ensures log == Prepend(old(log), message)
    {
      log := [RewriteLogMessage(message)] + log;
    }

    /** initializeSender: a sender is set and the log says so. */
    method InitializeSender()
      modifies this`senderReady, this`log
      ensures senderReady
      ensures log == Prepend(old(log), "Send object initialized - ready for communication")
    {
      senderReady := true;
      UpdateMessageLog("Send object initialized - ready for communication");
    }

    /** The timer callback of startCommunicationMonitor, run at time now. */
    method CheckCommunicationTick(now: nat)
      modifies this`communicationLost, this`log
      ensures var r := CheckCommunication(Liveness(lastStatusTime, old(communicationLost)), now);
              communicationLost == r.next.lost && log == LogLine(old(log), r.line)
    {
      var timeSinceLastStatus := now - lastStatusTime;
      if timeSinceLastStatus > 5000 && lastStatusTime > 0 {
        if !communicationLost {
          communicationLost := true;
          UpdateMessageLog(LostWarning);
        }
      } else if communicationLost && timeSinceLastStatus <= 5000 {
        communicationLost := false;
        UpdateMessageLog(RestoredNotice);
      }
    }

    /** setControlPanelEnabled: the loop over the panel's components, skipping EMERGENCY STOP. */
    method SetControlPanelEnabled(enabled: bool)
      requires forall c :: c in controls <==> c in components
      modifies this`controls, this`sectionLabels
      ensures controls == PanelEnabled(old(controls), enabled)
      ensures sectionLabels == SectionLabels(enabled)
    {
      sectionLabels := SectionLabels(enabled);
      for i := 0 to |components|
        invariant sectionLabels == SectionLabels(enabled)
        invariant controls.Keys == old(controls).Keys
        invariant forall c :: c in controls ==>
                    controls[c] == if c in components[..i] && !IsEmergencyStop(c) then enabled else old(controls)[c]
      {
        var component := components[i];
        assert components[..i + 1] == components[..i] + [component];
        if !IsEmergencyStop(component) {
          controls := controls[component := enabled];
        }
      }
      assert components[..|components|] == components;
    }

    /**
     * updateDiagnosticModeButtons, corrected: in diagnostic mode, the loop
     * over the panel's buttons leaves enabled only restart and
     * perform_diagnostics, and skips EMERGENCY STOP as setControlPanelEnabled
     * does (DiagnosticLayoutAsWritten is the loop as written).
     */
    method UpdateDiagnosticModeButtons()
      requires forall c :: c in controls <==> c in components
      modifies this`controls
      ensures controls == if isDiagnosticMode then DiagnosticLayout(old(controls)) else old(controls)
    {
      for i := 0 to |components|
        invariant controls.Keys == old(controls).Keys
        invariant forall c :: c in controls ==>
                    controls[c] == if isDiagnosticMode && c in components[..i] && c.Button? && !IsEmergencyStop(c)
                                   then KeptInDiagnostics(c) else old(controls)[c]
      {
        var component := components[i];
        assert components[..i + 1] == components[..i] + [component];
        if component.Button? && !IsEmergencyStop(component) && isDiagnosticMode {
          controls := controls[component := KeptInDiagnostics(component)];
        }
      }
      assert components[..|components|] == components;
    }

    /** updateModeButtons: exactly the button that switches away from the current mode is enabled. */
    method UpdateModeButtons()
      modifies this`automaticModeButtonEnabled, this`overrideModeButtonEnabled
      ensures automaticModeButtonEnabled == isOverrideMode
      ensures overrideModeButtonEnabled == !isOverrideMode
    {
      automaticModeButtonEnabled := isOverrideMode;
      overrideModeButtonEnabled := !isOverrideMode;
    }

    /**
     * The mode part of updateSystemStatus: a mode that differs from the
     * current one is taken, with its mode buttons and its panel.
     */
    method ApplyReportedMode(newOverrideMode: bool)
      requires forall c :: c in controls <==> c in components
      requires ModeViewsAgree()
      modifies this`isOverrideMode, this`automaticModeButtonEnabled, this`overrideModeButtonEnabled,
               this`controls, this`sectionLabels
      ensures isOverrideMode == newOverrideMode
      ensures ModeViewsAgree()
      ensures controls == ControlsAfterModeChange(old(controls), old(isOverrideMode), newOverrideMode)
    {
      if newOverrideMode != isOverrideMode {
        isOverrideMode := newOverrideMode;
        UpdateModeButtons();
        SetControlPanelEnabled(isOverrideMode);
      }
    }

    /**
     * The diagnostic part of updateSystemStatus: when the diagnostic flag
     * has changed, entering diagnostics in override mode restricts the panel
     * and leaving them re-enables it.
     */
    method ApplyDiagnosticChange(wasDiagnostic: bool)
      requires forall c :: c in controls <==> c in components
      requires ModeViewsAgree()
      modifies this`controls, this`sectionLabels
      ensures ModeViewsAgree()
      ensures controls == ControlsAfterDiagnosticChange(old(controls), isOverrideMode, wasDiagnostic, isDiagnosticMode)
    {
      if wasDiagnostic != isDiagnosticMode {
        if isDiagnosticMode && isOverrideMode {
          UpdateDiagnosticModeButtons();
        } else if !isDiagnosticMode && isOverrideMode {
          SetControlPanelEnabled(true);
        }
      }
    }

    /**
     * updateSystemStatus at time now: records the time, takes the diagnostic
     * flag from the sequence state and the override flag from the mode
     * (unless it is UNKNOWN), sets the queue label and re-enables the panel
     * as the two flags change. The link flag is left to the next tick.
     */
    method UpdateSystemStatus(now: nat, st: StatusReport)
      requires Valid()
      modifies this`lastStatusTime, this`isDiagnosticMode, this`queueText, this`isOverrideMode,
               this`automaticModeButtonEnabled, this`overrideModeButtonEnabled, this`controls, this`sectionLabels
      ensures Valid()
      ensures lastStatusTime == now
      ensures isDiagnosticMode == (st.sequenceState == "DIAGNOSTIC")
      ensures isOverrideMode == if st.mode == "UNKNOWN" then old(isOverrideMode) else st.mode == "OVERRIDE"
      ensures queueText == QueueText(st.mode, st.queueSize, st.executing)
      ensures controls == ControlsAfterStatus(old(controls), old(isOverrideMode), isOverrideMode,
                                              old(isDiagnosticMode), isDiagnosticMode)
    {
      ghost var controls0, override0 := controls, isOverrideMode;
      lastStatusTime := now;
      var wasDiagnostic := isDiagnosticMode;
      isDiagnosticMode := st.sequenceState == "DIAGNOSTIC";
      queueText := QueueText(st.mode, st.queueSize, st.executing);
      // a mode of UNKNOWN leaves the mode as it is
      var newOverrideMode := if st.mode != "UNKNOWN" then st.mode == "OVERRIDE" else isOverrideMode;
      ApplyReportedMode(newOverrideMode);
      ApplyDiagnosticChange(wasDiagnostic);
      StatusKeepsPanelInvariant(controls0, override0, isOverrideMode, wasDiagnostic, isDiagnosticMode);
    }

    /**
     * A control-panel button's action listener: nothing if the button is
     * disabled; its command is sent and logged only in override mode with a
     * sender; otherwise the "not initialized" error is logged.
     */
    method PressControlButton(c: Control)
      requires Valid()
      requires c in components && c.Button? && c.command.Some?
      modifies this`log, this`sent
      ensures var a := PressControl(c.command.value);
              var go := controls[c] && senderReady && Permitted(a, isOverrideMode);
              sent == (if go then old(sent) + [CommandOf(a)] else old(sent)) &&
              log == (if go then Prepend(old(log), "SENT: " + CommandOf(a))
                      else if controls[c] then Prepend(old(log), NotInitialized)
                      else old(log))
    {
      if !controls[c] {
        return;
      }
      var command := c.command.value;
      if isOverrideMode && senderReady {
        sent := sent + [command];
        UpdateMessageLog("SENT: " + command);
      } else {
        UpdateMessageLog(NotInitialized);
      }
    }

    /** The "Manual Control" check box: sends its new state in override mode with a sender, else nothing. */
    method ToggleManualControl(selected: bool)
      modifies this`log, this`sent
      ensures var a := ToggleManualLights(selected);
              var go := senderReady && Permitted(a, isOverrideMode);
              sent == (if go then old(sent) + [CommandOf(a)] else old(sent)) &&
              log == (if go then Prepend(old(log), "SENT: " + CommandOf(a)) else old(log))
    {
      if isOverrideMode && senderReady {
        var command := if selected then "manual_bridge_lights_true" else "manual_bridge_lights_false";
        sent := sent + [command];
        UpdateMessageLog("SENT: " + command);
      }
    }

    /** The SWITCH TO AUTOMATIC MODE listener: only in override mode. */
    method PressAutomaticMode()
      modifies this`log, this`sent
      ensures var go := Permitted(SwitchToAutomatic, isOverrideMode);
              sent == (if go && senderReady then old(sent) + [CommandOf(SwitchToAutomatic)] else old(sent)) &&
              log == (if !go then old(log)
                      else if senderReady then Prepend(old(log), "SENT: " + CommandOf(SwitchToAutomatic))
                      else Prepend(old(log), NotInitialized))
    {
      if !isOverrideMode {
        return;
      }
      if senderReady {
        var command := "automatic_mode";
        sent := sent + [command];
        UpdateMessageLog("SENT: " + command);
      } else {
        UpdateMessageLog(NotInitialized);
      }
    }

    /** The SWITCH TO OVERRIDE MODE listener: only outside override mode. */
    method PressOverrideMode()
      modifies this`log, this`sent
      ensures var go := Permitted(SwitchToOverride, isOverrideMode);
              sent == (if go && senderReady then old(sent) + [CommandOf(SwitchToOverride)] else old(sent)) &&
              log == (if !go then old(log)
                      else if senderReady then Prepend(old(log), "SENT: " + CommandOf(SwitchToOverride))
                      else Prepend(old(log), NotInitialized))
    {
      if isOverrideMode {
        return;
      }
      if senderReady {
        var command := "override_mode";
        sent := sent + [command];
        UpdateMessageLog("SENT: " + command);
      } else {
        UpdateMessageLog(NotInitialized);
      }
    }

    /** The EMERGENCY STOP listener: once confirmed, in any mode. */
    method PressEmergencyStopButton(confirmed: bool)
      modifies this`log, this`sent
      ensures var go := Permitted(PressEmergencyStop(confirmed), isOverrideMode);
              sent == (if go && senderReady then old(sent) + [CommandOf(PressEmergencyStop(confirmed))] else old(sent)) &&
              log == (if !go then old(log)
                      else if senderReady then Prepend(old(log), "SENT: " + CommandOf(PressEmergencyStop(confirmed)))
                      else Prepend(old(log), NotInitialized))
    {
      if confirmed {
        if senderReady {
          var command := "emergency_stop";
          sent := sent + [command];
          UpdateMessageLog("SENT: " + command);
        } else {
          UpdateMessageLog(NotInitialized);
        }
      }
    }
  }
}
