/**
 * Per-datagram handling of the telemetry receiver (Receive.java): the
 * dispatch on "STATUS|", the seven-field status parser, the first-match key
 * lookup and the summary line it feeds. The socket and its receive loop are
 * not modelled; a datagram is the string it decodes to.
 */
module Receive {
  import opened Wrappers
  import opened JavaString

  /** The seven status fields the parser keeps. */
  datatype Field = Mode | Bridge | Gate | RoadDistance | BoatDistance | RoadLight | BoatLight

  /** The key prefix that selects each field. */
  function Prefix(f: Field): (p: string)
    ensures |p| > 1 && p[|p| - 1] == ':'
  {
    match f
    case Mode => "MODE:"
    case Bridge => "BRIDGE:"
    case Gate => "GATE:"
    case RoadDistance => "ROAD_DISTANCE:"
    case BoatDistance => "BOAT_DISTANCE:"
    case RoadLight => "ROAD_LIGHT:"
    case BoatLight => "BOAT_LIGHT:"
  }

  /** The value a field has when no segment sets it. */
  function Default(f: Field): string {
    if f == RoadDistance || f == BoatDistance then "0" else "UNKNOWN"
  }

  /** The parser's output: the seven values handed on to the console. */
  datatype Status = Status(mode: string, bridge: string, gate: string,
                           roadDistance: string, boatDistance: string,
                           roadLight: string, boatLight: string)
  {
    function Get(f: Field): string {
      match f
      case Mode => mode
      case Bridge => bridge
      case Gate => gate
      case RoadDistance => roadDistance
      case BoatDistance => boatDistance
      case RoadLight => roadLight
      case BoatLight => boatLight
    }

    function Set(f: Field, v: string): (r: Status)
      ensures r.Get(f) == v
      ensures forall g :: g != f ==> r.Get(g) == Get(g)
    {
      match f
      case Mode => this.(mode := v)
      case Bridge => this.(bridge := v)
      case Gate => this.(gate := v)
      case RoadDistance => this.(roadDistance := v)
      case BoatDistance => this.(boatDistance := v)
      case RoadLight => this.(roadLight := v)
      case BoatLight => this.(boatLight := v)
    }
  }

  const Defaults: Status :=
    Status("UNKNOWN", "UNKNOWN", "UNKNOWN", "0", "0", "UNKNOWN", "UNKNOWN")

  lemma Differ(a: string, b: string, k: nat)
    requires k < |a| && k < |b| && a[k] != b[k]
    ensures !StartsWith(a, b)
  {
  }

  /** The seven prefixes are mutually prefix-free, so a segment starts with at most one. */
  lemma PrefixesPrefixFree(f: Field, g: Field)
    requires f != g
    ensures !StartsWith(Prefix(f), Prefix(g))
  {
    var a, b := Prefix(f), Prefix(g);
    if a[0] != b[0] {
      Differ(a, b, 0);
    } else if a[1] != b[1] {
      Differ(a, b, 1);
    } else {
      Differ(a, b, 5);
    }
  }

  /** A segment starting with two field prefixes starts with one field's only. */
  lemma AtMostOneField(part: string, f: Field, g: Field)
    requires StartsWith(part, Prefix(f)) && StartsWith(part, Prefix(g))
    ensures f == g
  {
    if f != g {
      if |Prefix(g)| <= |Prefix(f)| {
        assert Prefix(f)[..|Prefix(g)|] == part[..|Prefix(g)|];
        PrefixesPrefixFree(f, g);
      } else {
        assert Prefix(g)[..|Prefix(f)|] == part[..|Prefix(f)|];
        PrefixesPrefixFree(g, f);
      }
    }
  }

  /** The field a segment sets: the one whose prefix it starts with, if any. */
  function Selects(part: string): (r: Option<Field>)
    ensures r.Some? ==> StartsWith(part, Prefix(r.value))
    ensures r.None? ==> forall f :: !StartsWith(part, Prefix(f))
  {
    if StartsWith(part, "MODE:") then Some(Mode)
    else if StartsWith(part, "BRIDGE:") then Some(Bridge)
    else if StartsWith(part, "GATE:") then Some(Gate)
    else if StartsWith(part, "ROAD_DISTANCE:") then Some(RoadDistance)
    else if StartsWith(part, "BOAT_DISTANCE:") then Some(BoatDistance)
    else if StartsWith(part, "ROAD_LIGHT:") then Some(RoadLight)
    else if StartsWith(part, "BOAT_LIGHT:") then Some(BoatLight)
    else None
  }

  /** One pass of the loop body: the selected field becomes the rest of the segment. */
  function ApplySegment(s: Status, part: string): Status {
    match Selects(part)
    case None => s
    case Some(f) => s.Set(f, part[|Prefix(f)|..])
  }

  /**
   * A segment sets exactly the field whose prefix it starts with, to the
   * untrimmed remainder after the prefix, and leaves every other field alone.
   */
  lemma ApplySegmentGet(s: Status, part: string, f: Field)
    ensures ApplySegment(s, part).Get(f) ==
            if StartsWith(part, Prefix(f)) then part[|Prefix(f)|..] else s.Get(f)
  {
    var sel := Selects(part);
    if sel.Some? && StartsWith(part, Prefix(f)) {
      AtMostOneField(part, f, sel.value);
    }
  }

  /** The parser's meaning: the loop body applied to the segments from left to right. */
  function Fold(parts: seq<string>): Status
    decreases |parts|
  {
    if parts == [] then Defaults
    else ApplySegment(Fold(parts[..|parts| - 1]), parts[|parts| - 1])
  }

  /** What parseStatusMessage hands on for a datagram. */
  function ParsedStatus(msg: string): Status {
    Fold(Split(msg))
  }

  /** A field no segment mentions keeps its default. */
  lemma {:induction false} FoldFieldAbsent(parts: seq<string>, f: Field)
    requires forall i :: 0 <= i < |parts| ==> !StartsWith(parts[i], Prefix(f))
    ensures Fold(parts).Get(f) == Default(f)
    decreases |parts|
  {
    if parts != [] {
      var n := |parts| - 1;
      var init := parts[..n];
      assert forall i :: 0 <= i < n ==> init[i] == parts[i];
      assert Fold(parts) == ApplySegment(Fold(init), parts[n]);
      FoldFieldAbsent(init, f);
      ApplySegmentGet(Fold(init), parts[n], f);
    }
  }

  /** A field mentioned by several segments takes the value of the last one. */
  lemma {:induction false} FoldFieldLast(parts: seq<string>, f: Field, i: nat)
    requires i < |parts| && StartsWith(parts[i], Prefix(f))
    requires forall j :: i < j < |parts| ==> !StartsWith(parts[j], Prefix(f))
    ensures Fold(parts).Get(f) == parts[i][|Prefix(f)|..]
    decreases |parts|
  {
    var n := |parts| - 1;
    var init := parts[..n];
    assert Fold(parts) == ApplySegment(Fold(init), parts[n]);
    ApplySegmentGet(Fold(init), parts[n], f);
    if i < n {
      assert forall j :: i < j < n ==> init[j] == parts[j];
      FoldFieldLast(init, f, i);
    }
  }

  /** Segments carrying none of the seven prefixes change nothing. */
  lemma {:induction false} IgnoredSegments(parts: seq<string>, extra: seq<string>)
    requires forall k :: 0 <= k < |extra| ==> Selects(extra[k]).None?
    ensures Fold(parts + extra) == Fold(parts)
    decreases |extra|
  {
    if extra != [] {
      var n := |extra| - 1;
      assert (parts + extra)[..|parts + extra| - 1] == parts + extra[..n];
      assert (parts + extra)[|parts + extra| - 1] == extra[n];
      assert Selects(extra[n]).None?;
      IgnoredSegments(parts, extra[..n]);
    } else {
      assert parts + extra == parts;
    }
  }

  /** The tokens the parser skips: the leading tag, the sequence and the bridge-light keys. */
  lemma SkippedTokens(v: string)
    ensures Selects("STATUS").None?
    ensures Selects("SEQUENCE:" + v).None?
    ensures Selects("BRIDGE_LIGHT:" + v).None?
  {
    var b := "BRIDGE_LIGHT:" + v;
    assert b[0] == 'B' && b[1] == 'R' && b[6] == '_';
    Differ(b, "MODE:", 0);
    Differ(b, "BRIDGE:", 6);
    Differ(b, "GATE:", 0);
    Differ(b, "ROAD_DISTANCE:", 0);
    Differ(b, "BOAT_DISTANCE:", 1);
    Differ(b, "ROAD_LIGHT:", 0);
    Differ(b, "BOAT_LIGHT:", 1);
    var q := "SEQUENCE:" + v;
    assert q[0] == 'S';
  }

  /** parseStatusMessage: the for loop over the segments reassigning seven locals. */
  method ParseStatusMessage(msg: string) returns (s: Status)
    ensures s == ParsedStatus(msg)
  {
    var parts := Split(msg);
    var mode, bridgeState, gateState := "UNKNOWN", "UNKNOWN", "UNKNOWN";
    var roadDistance, boatDistance := "0", "0";
    var roadLight, boatLight := "UNKNOWN", "UNKNOWN";
    for i := 0 to |parts|
      invariant Status(mode, bridgeState, gateState, roadDistance, boatDistance,
                       roadLight, boatLight) == Fold(parts[..i])
    {
      var part := parts[i];
      assert parts[..i + 1][..i] == parts[..i];
      if StartsWith(part, "MODE:") {
        mode := part[5..];
      } else if StartsWith(part, "BRIDGE:") {
        bridgeState := part[7..];
      } else if StartsWith(part, "GATE:") {
        gateState := part[5..];
      } else if StartsWith(part, "ROAD_DISTANCE:") {
        roadDistance := part[14..];
      } else if StartsWith(part, "BOAT_DISTANCE:") {
        boatDistance := part[14..];
      } else if StartsWith(part, "ROAD_LIGHT:") {
        roadLight := part[11..];
      } else if StartsWith(part, "BOAT_LIGHT:") {
        boatLight := part[11..];
      }
    }
    assert parts[..|parts|] == parts;
    s := Status(mode, bridgeState, gateState, roadDistance, boatDistance, roadLight, boatLight);
  }

  /** The segments of the wire line of a status, in the order the parser's comment documents. */
  function StatusParts(s: Status): seq<string> {
    ["STATUS"] + ["MODE:" + s.mode] + ["BRIDGE:" + s.bridge] + ["GATE:" + s.gate] +
    ["ROAD_DISTANCE:" + s.roadDistance] + ["BOAT_DISTANCE:" + s.boatDistance] +
    ["ROAD_LIGHT:" + s.roadLight] + ["BOAT_LIGHT:" + s.boatLight]
  }

  /** The wire line of a status. */
  function StatusLine(s: Status): string {
    Join(StatusParts(s))
  }

  /** No field value holds the delimiter. */
  predicate PipeFree(s: Status) {
    forall f :: '|' !in s.Get(f)
  }

  lemma FoldSnoc(parts: seq<string>, part: string)
    ensures Fold(parts + [part]) == ApplySegment(Fold(parts), part)
  {
    assert (parts + [part])[..|parts|] == parts;
  }

  /** A segment made of a field's prefix and a value sets that field to the value. */
  lemma ApplyPrefixed(t: Status, f: Field, v: string)
    ensures ApplySegment(t, Prefix(f) + v) == t.Set(f, v)
  {
    var part := Prefix(f) + v;
    assert part[..|Prefix(f)|] == Prefix(f);
    assert part[|Prefix(f)|..] == v;
    var sel := Selects(part);
    assert sel.Some?;
    AtMostOneField(part, f, sel.value);
  }

  lemma PrefixedPipeFree(key: string, v: string)
    requires '|' !in key && '|' !in v
    ensures '|' !in key + v
  {
  }

  lemma StatusPartsPipeFree(s: Status)
    requires PipeFree(s)
    ensures forall p :: p in StatusParts(s) ==> '|' !in p
    ensures StatusParts(s)[|StatusParts(s)| - 1] != ""
  {
    assert '|' !in s.Get(Mode) && '|' !in s.Get(Bridge) && '|' !in s.Get(Gate);
    assert '|' !in s.Get(RoadDistance) && '|' !in s.Get(BoatDistance);
    assert '|' !in s.Get(RoadLight) && '|' !in s.Get(BoatLight);
    PrefixedPipeFree("MODE:", s.mode);
    PrefixedPipeFree("BRIDGE:", s.bridge);
    PrefixedPipeFree("GATE:", s.gate);
    PrefixedPipeFree("ROAD_DISTANCE:", s.roadDistance);
    PrefixedPipeFree("BOAT_DISTANCE:", s.boatDistance);
    PrefixedPipeFree("ROAD_LIGHT:", s.roadLight);
    PrefixedPipeFree("BOAT_LIGHT:", s.boatLight);
  }

  /** Appending a segment made of a field's prefix and a value sets that field to the value. */
  lemma FoldPrefixed(parts: seq<string>, t: Status, f: Field, v: string)
    requires Fold(parts) == t
    ensures Fold(parts + [Prefix(f) + v]) == t.Set(f, v)
  {
    FoldSnoc(parts, Prefix(f) + v);
    ApplyPrefixed(t, f, v);
  }

  /** Round trip: parsing the wire line of a status gives back every one of its seven values. */
  lemma RoundTrip(s: Status)
    requires PipeFree(s)
    ensures ParsedStatus(StatusLine(s)) == s
  {
    var p0 := ["STATUS"];
    assert Fold(p0) == Defaults by {
      SkippedTokens("");
      FoldSnoc([], "STATUS");
    }
    var t1 := Defaults.Set(Mode, s.mode);
    FoldPrefixed(p0, Defaults, Mode, s.mode);
    var p1 := p0 + [Prefix(Mode) + s.mode];
    var t2 := t1.Set(Bridge, s.bridge);
    FoldPrefixed(p1, t1, Bridge, s.bridge);
    var p2 := p1 + [Prefix(Bridge) + s.bridge];
    var t3 := t2.Set(Gate, s.gate);
    FoldPrefixed(p2, t2, Gate, s.gate);
    var p3 := p2 + [Prefix(Gate) + s.gate];
    var t4 := t3.Set(RoadDistance, s.roadDistance);
    FoldPrefixed(p3, t3, RoadDistance, s.roadDistance);
    var p4 := p3 + [Prefix(RoadDistance) + s.roadDistance];
    var t5 := t4.Set(BoatDistance, s.boatDistance);
    FoldPrefixed(p4, t4, BoatDistance, s.boatDistance);
    var p5 := p4 + [Prefix(BoatDistance) + s.boatDistance];
    var t6 := t5.Set(RoadLight, s.roadLight);
    FoldPrefixed(p5, t5, RoadLight, s.roadLight);
    var p6 := p5 + [Prefix(RoadLight) + s.roadLight];
    var t7 := t6.Set(BoatLight, s.boatLight);
    FoldPrefixed(p6, t6, BoatLight, s.boatLight);
    var p7 := p6 + [Prefix(BoatLight) + s.boatLight];
    assert p7 == StatusParts(s);
    assert t7 == s;
    StatusPartsPipeFree(s);
    SplitJoin(StatusParts(s));
  }

  /** extractValue's meaning: the remainder of the FIRST segment starting with tag, else "UNKNOWN". */
  function FirstValue(parts: seq<string>, tag: string): string {
    if parts == [] then "UNKNOWN"
    else if StartsWith(parts[0], tag) then parts[0][|tag|..]
    else FirstValue(parts[1..], tag)
  }

  /** The lookup yields the first match's remainder, and "UNKNOWN" when nothing matches. */
  lemma {:induction false} FirstValueSpec(parts: seq<string>, tag: string)
    ensures (forall i :: 0 <= i < |parts| ==> !StartsWith(parts[i], tag)) ==>
              FirstValue(parts, tag) == "UNKNOWN"
    ensures forall i :: 0 <= i < |parts| && StartsWith(parts[i], tag) &&
                        (forall j :: 0 <= j < i ==> !StartsWith(parts[j], tag)) ==>
              FirstValue(parts, tag) == parts[i][|tag|..]
  {
    if parts != [] {
      FirstValueSpec(parts[1..], tag);
      assert forall i :: 1 <= i < |parts| ==> parts[1..][i - 1] == parts[i];
    }
  }

  /** extractValue: the loop with an early return on the first matching segment. */
  method ExtractValue(msg: string, key: string) returns (v: string)
    ensures v == FirstValue(Split(msg), key + ":")
  {
    var parts := Split(msg);
    var tag := key + ":";
    for i := 0 to |parts|
      invariant FirstValue(parts[i..], tag) == FirstValue(parts, tag)
    {
      assert parts[i..][1..] == parts[i + 1..];
      if StartsWith(parts[i], tag) {
        return parts[i][|key| + 1..];
      }
    }
    return "UNKNOWN";
  }

  /** Key BRIDGE never picks up a BRIDGE_LIGHT segment: the colon is part of the match. */
  lemma BridgeKeySkipsBridgeLight(v: string)
    ensures !StartsWith("BRIDGE_LIGHT:" + v, "BRIDGE" + ":")
  {
    assert ("BRIDGE_LIGHT:" + v)[6] == '_';
  }

  /**
   * A repeated key: the parser keeps the last occurrence (the loop overwrites),
   * the lookup keeps the first (it returns early).
   */
  lemma RepeatedKey(first: string, last: string)
    requires '|' !in first && '|' !in last
    ensures ParsedStatus(Join(["STATUS", "BRIDGE:" + first, "BRIDGE:" + last])).bridge == last
    ensures FirstValue(Split(Join(["STATUS", "BRIDGE:" + first, "BRIDGE:" + last])), "BRIDGE:") == first
  {
    var parts := ["STATUS", "BRIDGE:" + first, "BRIDGE:" + last];
    PrefixedPipeFree("BRIDGE:", first);
    PrefixedPipeFree("BRIDGE:", last);
    assert parts[1][..7] == "BRIDGE:" && parts[1][7..] == first;
    assert parts[2][..7] == "BRIDGE:" && parts[2][7..] == last;
    SplitJoin(parts);
    assert !StartsWith(parts[0], "BRIDGE:") by { assert parts[0][0] == 'S'; }
    FoldFieldLast(parts, Bridge, 2);
    FirstValueSpec(parts, "BRIDGE:");
  }

  /** The log line written for a status datagram, built from five lookups. */
  function Summary(msg: string): string {
    var parts := Split(msg);
    "STATUS: Bridge=" + FirstValue(parts, "BRIDGE:") +
    ", Gate=" + FirstValue(parts, "GATE:") +
    ", Road=" + FirstValue(parts, "ROAD_LIGHT:") +
    ", Boat=" + FirstValue(parts, "BOAT_LIGHT:") +
    ", Seq=" + FirstValue(parts, "SEQUENCE:")
  }

  /**
   * One received datagram: a status report exactly when it starts with
   * "STATUS|", in which case it is parsed and summarised; anything else is
   * logged verbatim after "ESP32: ".
   */
  method HandlePacket(msg: string) returns (status: Option<Status>, line: string)
    ensures status.Some? <==> StartsWith(msg, "STATUS|")
    ensures status.Some? ==> status.value == ParsedStatus(msg) && line == Summary(msg)
    ensures status.None? ==> line == "ESP32: " + msg
  {
    if StartsWith(msg, "STATUS|") {
      var s := ParseStatusMessage(msg);
      status := Some(s);
      var bridgeState := ExtractValue(msg, "BRIDGE");
      var gateState := ExtractValue(msg, "GATE");
      var roadLight := ExtractValue(msg, "ROAD_LIGHT");
      var boatLight := ExtractValue(msg, "BOAT_LIGHT");
      var sequence := ExtractValue(msg, "SEQUENCE");
      assert "BRIDGE" + ":" == "BRIDGE:" && "GATE" + ":" == "GATE:";
      assert "ROAD_LIGHT" + ":" == "ROAD_LIGHT:" && "BOAT_LIGHT" + ":" == "BOAT_LIGHT:";
      assert "SEQUENCE" + ":" == "SEQUENCE:";
      line := "STATUS: Bridge=" + bridgeState + ", Gate=" + gateState +
              ", Road=" + roadLight + ", Boat=" + boatLight + ", Seq=" + sequence;
    } else {
      status := None;
      line := "ESP32: " + msg;
    }
  }


  /** The field whose segment sits at position k (1 to 7) of a wire line. */
  function FieldAt(k: nat): Field
    requires 1 <= k <= 7
  {
    [Mode, Bridge, Gate, RoadDistance, BoatDistance, RoadLight, BoatLight][k - 1]
  }

  /** The position of a field's segment in a wire line. */
  function Position(f: Field): (k: nat)
    ensures 1 <= k <= 7 && FieldAt(k) == f
  {
    match f
    case Mode => 1
    case Bridge => 2
    case Gate => 3
    case RoadDistance => 4
    case BoatDistance => 5
    case RoadLight => 6
    case BoatLight => 7
  }

  lemma StatusPartsShape(s: Status, extra: seq<string>)
    ensures |StatusParts(s) + extra| == 8 + |extra|
    ensures (StatusParts(s) + extra)[0] == "STATUS"
    ensures forall j :: 1 <= j <= 7 ==>
              StartsWith((StatusParts(s) + extra)[j], Prefix(FieldAt(j))) &&
              (StatusParts(s) + extra)[j][|Prefix(FieldAt(j))|..] == s.Get(FieldAt(j))
  {
    var P := StatusParts(s) + extra;
    forall j | 1 <= j <= 7
      ensures StartsWith(P[j], Prefix(FieldAt(j))) && P[j][|Prefix(FieldAt(j))|..] == s.Get(FieldAt(j))
    {
      var f := FieldAt(j);
      assert P[j] == Prefix(f) + s.Get(f);
      assert P[j][..|Prefix(f)|] == Prefix(f);
    }
  }

  /**
   * Looking a field's key up in a wire line, whatever follows it, finds the
   * value that was sent: no earlier segment carries that key.
   */
  lemma LookupInStatusLine(s: Status, extra: seq<string>, f: Field)
    ensures FirstValue(StatusParts(s) + extra, Prefix(f)) == s.Get(f)
  {
    var P := StatusParts(s) + extra;
    StatusPartsShape(s, extra);
    var k := Position(f);
    forall j | 0 <= j < k
      ensures !StartsWith(P[j], Prefix(f))
    {
      if j == 0 {
        SkippedTokens("");
      } else if StartsWith(P[j], Prefix(f)) {
        AtMostOneField(P[j], f, FieldAt(j));
      }
    }
    FirstValueSpec(P, Prefix(f));
  }

  /** The wire line followed by a SEQUENCE segment splits into its nine segments. */
  lemma SplitSequencedLine(s: Status, sequence: string)
    requires PipeFree(s) && '|' !in sequence
    ensures Split(StatusLine(s) + "|SEQUENCE:" + sequence) == StatusParts(s) + ["SEQUENCE:" + sequence]
  {
    var last := "SEQUENCE:" + sequence;
    var P := StatusParts(s) + [last];
    StatusPartsPipeFree(s);
    PrefixedPipeFree("SEQUENCE:", sequence);
    assert forall p :: p in P ==> '|' !in p;
    JoinSnoc(StatusParts(s), last);
    assert StatusLine(s) + "|SEQUENCE:" + sequence == Join(P);
    SplitJoin(P);
  }

  /** No segment of a wire line carries the SEQUENCE key, so the lookup finds the appended one. */
  lemma SequenceLookup(s: Status, sequence: string)
    ensures FirstValue(StatusParts(s) + ["SEQUENCE:" + sequence], "SEQUENCE:") == sequence
  {
    var last := "SEQUENCE:" + sequence;
    var P := StatusParts(s) + [last];
    StatusPartsShape(s, [last]);
    forall j | 0 <= j < 8
      ensures !StartsWith(P[j], "SEQUENCE:")
    {
      if j == 0 {
        Differ(P[0], "SEQUENCE:", 1);
      } else {
        var f := FieldAt(j);
        assert P[j][0] == Prefix(f)[0];
        Differ(P[j], "SEQUENCE:", 0);
      }
    }
    assert P[8] == last && last[..9] == "SEQUENCE:" && last[9..] == sequence;
    FirstValueSpec(P, "SEQUENCE:");
  }

  /**
   * The summary of a wire line followed by a SEQUENCE segment reports the
   * bridge, gate and light values that were sent, and the sequence.
   */
  lemma SummaryOfStatusLine(s: Status, sequence: string)
    requires PipeFree(s) && '|' !in sequence
    ensures Summary(StatusLine(s) + "|SEQUENCE:" + sequence) ==
            "STATUS: Bridge=" + s.bridge + ", Gate=" + s.gate + ", Road=" + s.roadLight +
            ", Boat=" + s.boatLight + ", Seq=" + sequence
  {
    var extra := ["SEQUENCE:" + sequence];
    SplitSequencedLine(s, sequence);
    LookupInStatusLine(s, extra, Bridge);
    LookupInStatusLine(s, extra, Gate);
    LookupInStatusLine(s, extra, RoadLight);
    LookupInStatusLine(s, extra, BoatLight);
    SequenceLookup(s, sequence);
  }
}
