/**
 What a result keeps of the decision's logs, telemetry and update failures: every output is kept once
 or counted as lost, and shedding ends with a result that encodes or with nothing left to shed.
 */
module Outputs {
  import opened Wrappers
  import opened Wire
  import opened Admission
  import Evidence

  const MAX_RESULT_EVIDENCE: nat := 64
  const MAX_RESULT_DIAGNOSTICS: nat := 64
  const MAX_RESULT_TELEMETRY: nat := 256
  const MAX_RESULT_DIAGNOSTIC_BYTES: nat := 4_096
  const MAX_TELEMETRY_BYTES: nat := 262_144
  const KERNEL_LOG := "kernel_log"
  const KERNEL_ERROR := "kernel_error"
  const OVERFLOW := "kernel_telemetry_overflow"

  /** A diagnostic, or with no severity an evidence entry. */
  datatype Line = Line(severity: string, code: string, text: string)

  datatype Overflow = Overflow(lost: nat, lostBytes: nat)

  /** Texts and sizes that other code produces: a log wrapped with its level, an update's failure or
      warning in words, the overflow notice, and what the wire codec and validation say of telemetry. */
  datatype Rendering = Rendering(
    wrapped: (string, string) -> string,
    described: Output -> string,
    overflowText: Overflow -> string,
    telemetryBytes: Telemetry -> nat,
    validTelemetry: Telemetry -> bool)

  // ---------------------------------------------------------------------------------------
  // Text
  // ---------------------------------------------------------------------------------------

  /** Whether no UTF-8 sequence is cut at `i`. */
  predicate CharBoundary(s: string, i: nat)
    requires i <= |s|
  {
    i == 0 || i == |s| || !(0x80 <= s[i] as int < 0xC0)
  }

  /** Cuts text to a bound at the last boundary within it. */
  method TruncateUtf8(s: string, bound: nat) returns (r: string)
    ensures r == Truncated(s, bound)
    ensures r <= s && (|s| <= bound ==> r == s)
    ensures |s| > bound ==>
      && |r| <= bound && CharBoundary(s, |r|)
      && forall i :: |r| < i <= bound ==> !CharBoundary(s, i)
    ensures |s| > bound ==>
      (r == "" || s[|r|] as int / 64 != 2) && forall i :: |r| < i <= bound ==> s[i] as int / 64 == 2
  {
    if |s| <= bound {
      return s;
    }
    var end: nat := bound;
    while !CharBoundary(s, end)
      invariant end <= bound && CutAt(s, end) == CutAt(s, bound)
      invariant forall i :: end < i <= bound ==> !CharBoundary(s, i)
      invariant forall i :: end < i <= bound ==> s[i] as int / 64 == 2
      decreases end
    {
      end := end - 1;
    }
    return s[..end];
  }

  function CutAt(s: string, end: nat): (i: nat)
    requires end <= |s|
    ensures i <= end
  {
    if CharBoundary(s, end) then end else CutAt(s, end - 1)
  }

  function Truncated(s: string, bound: nat): string {
    if |s| <= bound then s else s[..CutAt(s, bound)]
  }

  predicate ValidLevel(level: string) {
    level == "error" || level == "warn" || level == "info" || level == "debug"
  }

  function LogText(r: Rendering, level: string, message: string): string {
    if ValidLevel(level) && message != "" && |message| <= MAX_RESULT_DIAGNOSTIC_BYTES then message
    else r.wrapped(level, message)
  }

  function UpdateCode(output: Output): (string, string)
    requires output.UpdateError? || output.UpdateWarning?
  {
    match output
    case UpdateError(_, Counted) => ("error", KERNEL_ERROR)
    case UpdateError(_, Deferred) => ("warn", "order_update_deferred")
    case UpdateError(_, Held) => ("warn", "order_update_held")
    case UpdateError(_, RolledBack) => ("warn", "order_update_rolled_back")
    case UpdateWarning(_) => ("warn", "order_update_out_of_order")
  }

  /** The line an output becomes as a diagnostic. */
  function DiagnosticOf(r: Rendering, output: Output): Line
    requires !output.TelemetryOutput?
  {
    match output
    case LogOutput(level, message) =>
      Line(if ValidLevel(level) then level else "info", KERNEL_LOG, LogText(r, level, message))
    case UpdateError(_, _) => UpdateLine(r, output)
    case UpdateWarning(_) => UpdateLine(r, output)
  }

  function UpdateLine(r: Rendering, output: Output): Line
    requires output.UpdateError? || output.UpdateWarning?
  {
    var (severity, code) := UpdateCode(output);
    Line(severity, code, Truncated(r.described(output), MAX_RESULT_DIAGNOSTIC_BYTES))
  }

  function EvidenceOf(r: Rendering, output: Output): Line
    requires output.LogOutput?
  {
    Line("", KERNEL_LOG, LogText(r, output.level, output.message))
  }

  /** The bytes an output takes of the result. */
  function BytesOf(r: Rendering, output: Output): nat {
    if output.TelemetryOutput? then r.telemetryBytes(output.entry) else |DiagnosticOf(r, output).text| + 32
  }

  /** The bytes counted when an output is lost. */
  function PayloadOf(r: Rendering, output: Output): nat {
    if output.TelemetryOutput? then r.telemetryBytes(output.entry) else |DiagnosticOf(r, output).text|
  }

  // ---------------------------------------------------------------------------------------
  // Appending
  // ---------------------------------------------------------------------------------------

  /** What the line of an output says: a log at its own level, if that is known, and in its own words, if
      they are a diagnostic's; a failure by its kind, in words cut to fit. */
  ghost predicate Tells(r: Rendering, output: Output, line: Line) {
    match output
    case LogOutput(level, message) =>
      var known := level in {"error", "warn", "info", "debug"};
      && line.code == "kernel_log" && line.severity == (if known then level else "info")
      && line.text == if known && 0 < |message| <= 4_096 then message else r.wrapped(level, message)
    case TelemetryOutput(_) => false
    case UpdateWarning(_) => line.severity == "warn" && line.code == "order_update_out_of_order"
    case UpdateError(_, failure) =>
      && (line.severity == "error" <==> failure.Counted?) && (line.severity == "warn" <==> !failure.Counted?)
      && (failure.Counted? ==> line.code == "kernel_error")
      && (failure.Deferred? ==> line.code == "order_update_deferred")
      && (failure.Held? ==> line.code == "order_update_held")
      && (failure.RolledBack? ==> line.code == "order_update_rolled_back")
  }

  lemma OutputsAreTold(r: Rendering, output: Output)
    requires !output.TelemetryOutput?
    ensures Tells(r, output, DiagnosticOf(r, output))
    ensures output.LogOutput? ==>
      EvidenceOf(r, output).code == "kernel_log" && EvidenceOf(r, output).text == DiagnosticOf(r, output).text
    ensures !output.LogOutput? ==>
      && DiagnosticOf(r, output).text <= r.described(output) && |DiagnosticOf(r, output).text| <= 4_096
      && (|r.described(output)| <= 4_096 ==> DiagnosticOf(r, output).text == r.described(output))
  {
  }

  datatype Fate = AsDiagnostic | AsEvidence | AsTelemetry | Lost

  /** The result's lists, the bytes left for outputs, the telemetry's bytes, and what is lost. */
  datatype Kept = Kept(
    diagnostics: seq<Line>, evidence: seq<Line>, telemetry: seq<Telemetry>, room: nat, telemetryBytes: nat,
    overflow: Overflow)

  /** Where the next output goes: the first place that has room. */
  function FateOf(r: Rendering, kept: Kept, output: Output): Fate {
    var bytes := BytesOf(r, output);
    match output
    case LogOutput(level, message) =>
      var text := LogText(r, level, message);
      if |text| <= MAX_RESULT_DIAGNOSTIC_BYTES && |kept.diagnostics| < MAX_RESULT_DIAGNOSTICS - 2
          && bytes <= kept.room then AsDiagnostic
      else if |text| <= Evidence.MAX_EVIDENCE_PAYLOAD_BYTES && |kept.evidence| < MAX_RESULT_EVIDENCE
          && bytes <= kept.room then AsEvidence
      else Lost
    case TelemetryOutput(entry) =>
      if r.validTelemetry(entry) && |kept.telemetry| < MAX_RESULT_TELEMETRY
         && kept.telemetryBytes + bytes <= MAX_TELEMETRY_BYTES && bytes <= kept.room then AsTelemetry
      else Lost
    case _ => if |kept.diagnostics| < MAX_RESULT_DIAGNOSTICS - 2 && bytes <= kept.room then AsDiagnostic else Lost
  }

  /** The result with one more output. */
  ghost function KeptWith(r: Rendering, kept: Kept, output: Output): Kept {
    var bytes := BytesOf(r, output);
    match FateOf(r, kept, output)
    case AsDiagnostic => kept.(diagnostics := kept.diagnostics + [DiagnosticOf(r, output)], room := kept.room - bytes)
    case AsEvidence => kept.(evidence := kept.evidence + [EvidenceOf(r, output)], room := kept.room - bytes)
    case AsTelemetry =>
      kept.(
        telemetry := kept.telemetry + [output.entry], room := kept.room - bytes,
        telemetryBytes := kept.telemetryBytes + bytes)
    case Lost => kept.(overflow := Overflow(kept.overflow.lost + 1, kept.overflow.lostBytes + PayloadOf(r, output)))
  }

  /** Whether a line goes into the diagnostics: two places stay free there, and a line takes its text and 32
      bytes of the room. */
  predicate FitsDiagnostics(kept: Kept, bytes: nat) {
    |kept.diagnostics| < 62 && bytes + 32 <= kept.room
  }

  /** Where an output goes, and what it takes: a log into the diagnostics if it fits there, else into the
      evidence if it fits there; a failure into the diagnostics; telemetry, if it is valid, into its own
      list. It is lost only where it does not fit, and then counted. */
  lemma OutputsGoWhereTheyFit(r: Rendering, kept: Kept, output: Output)
    ensures var (after, bytes) := (KeptWith(r, kept, output), PayloadOf(r, output));
      match output
      case TelemetryOutput(entry) =>
        if r.validTelemetry(entry) && |kept.telemetry| < 256 && kept.telemetryBytes + bytes <= 262_144
           && bytes <= kept.room
        then
          after == kept.(
            telemetry := kept.telemetry + [entry], telemetryBytes := kept.telemetryBytes + bytes,
            room := kept.room - bytes)
        else after == kept.(overflow := Overflow(kept.overflow.lost + 1, kept.overflow.lostBytes + bytes))
      case LogOutput(_, _) =>
        if bytes <= 4_096 && FitsDiagnostics(kept, bytes) then
          after == kept.(diagnostics := kept.diagnostics + [DiagnosticOf(r, output)], room := kept.room - bytes - 32)
        else if bytes <= 65_536 && |kept.evidence| < 64 && bytes + 32 <= kept.room then
          after == kept.(evidence := kept.evidence + [EvidenceOf(r, output)], room := kept.room - bytes - 32)
        else after == kept.(overflow := Overflow(kept.overflow.lost + 1, kept.overflow.lostBytes + bytes))
      case _ =>
        if FitsDiagnostics(kept, bytes) then
          after == kept.(diagnostics := kept.diagnostics + [DiagnosticOf(r, output)], room := kept.room - bytes - 32)
        else after == kept.(overflow := Overflow(kept.overflow.lost + 1, kept.overflow.lostBytes + bytes))
    ensures PayloadOf(r, output) ==
      if output.TelemetryOutput? then r.telemetryBytes(output.entry) else |DiagnosticOf(r, output).text|
  {
    hide UpdateLine, LogText;
    if output.LogOutput? {
      OutputsAreTold(r, output);
    }
  }

  ghost function KeptOf(r: Rendering, start: Kept, outputs: seq<Output>): Kept {
    if outputs == [] then start
    else KeptWith(r, KeptOf(r, start, outputs[..|outputs| - 1]), outputs[|outputs| - 1])
  }

  ghost function Fates(r: Rendering, start: Kept, outputs: seq<Output>): (fates: seq<Fate>)
    ensures |fates| == |outputs|
  {
    if outputs == [] then []
    else
      var earlier, last := outputs[..|outputs| - 1], outputs[|outputs| - 1];
      Fates(r, start, earlier) + [FateOf(r, KeptOf(r, start, earlier), last)]
  }

  /** How many outputs met a fate. */
  ghost function Count(fates: seq<Fate>, fate: Fate): nat {
    if fates == [] then 0 else Count(fates[..|fates| - 1], fate) + if fates[|fates| - 1] == fate then 1 else 0
  }

  ghost function LostBytes(r: Rendering, outputs: seq<Output>, fates: seq<Fate>): nat
    requires |fates| == |outputs|
  {
    if outputs == [] then 0
    else
      var n := |outputs| - 1;
      LostBytes(r, outputs[..n], fates[..n]) + if fates[n] == Lost then PayloadOf(r, outputs[n]) else 0
  }

  ghost function KeptBytes(r: Rendering, outputs: seq<Output>, fates: seq<Fate>): nat
    requires |fates| == |outputs|
  {
    if outputs == [] then 0
    else
      var n := |outputs| - 1;
      KeptBytes(r, outputs[..n], fates[..n]) + if fates[n] == Lost then 0 else BytesOf(r, outputs[n])
  }

  /** The lines and entries of the outputs kept in each place, in order. */
  ghost function Diagnostics(r: Rendering, outputs: seq<Output>, fates: seq<Fate>): seq<Line>
    requires |fates| == |outputs|
  {
    if outputs == [] then []
    else
      var n := |outputs| - 1;
      Diagnostics(r, outputs[..n], fates[..n])
        + if fates[n] == AsDiagnostic && !outputs[n].TelemetryOutput? then [DiagnosticOf(r, outputs[n])] else []
  }

  ghost function EvidenceLines(r: Rendering, outputs: seq<Output>, fates: seq<Fate>): seq<Line>
    requires |fates| == |outputs|
  {
    if outputs == [] then []
    else
      var n := |outputs| - 1;
      EvidenceLines(r, outputs[..n], fates[..n])
        + if fates[n] == AsEvidence && outputs[n].LogOutput? then [EvidenceOf(r, outputs[n])] else []
  }

  ghost function TelemetryEntries(outputs: seq<Output>, fates: seq<Fate>): seq<Telemetry>
    requires |fates| == |outputs|
  {
    if outputs == [] then []
    else
      var n := |outputs| - 1;
      TelemetryEntries(outputs[..n], fates[..n])
        + if fates[n] == AsTelemetry && outputs[n].TelemetryOutput? then [outputs[n].entry] else []
  }

  lemma FateFits(r: Rendering, kept: Kept, output: Output)
    ensures var fate := FateOf(r, kept, output);
      && (fate != Lost ==> BytesOf(r, output) <= kept.room)
      && (fate == AsDiagnostic ==> !output.TelemetryOutput?)
      && (fate == AsEvidence ==> output.LogOutput?)
      && (fate == AsTelemetry <==> output.TelemetryOutput? && fate != Lost)
  {
  }

  lemma FatesOneMore(r: Rendering, start: Kept, outputs: seq<Output>)
    requires outputs != []
    ensures var n, fates := |outputs| - 1, Fates(r, start, outputs);
            fates[..n] == Fates(r, start, outputs[..n])
                && fates[n] == FateOf(r, KeptOf(r, start, outputs[..n]), outputs[n])
  {
  }

  /** Every kept output is in its list, in order. */
  ghost predicate ListsConserved(r: Rendering, start: Kept, outputs: seq<Output>) {
    var fates, kept := Fates(r, start, outputs), KeptOf(r, start, outputs);
    && kept.diagnostics == start.diagnostics + Diagnostics(r, outputs, fates)
    && kept.evidence == start.evidence + EvidenceLines(r, outputs, fates)
    && kept.telemetry == start.telemetry + TelemetryEntries(outputs, fates)
  }

  lemma {:induction false} ListsAreConserved(r: Rendering, start: Kept, outputs: seq<Output>)
    ensures ListsConserved(r, start, outputs)
  {
    hide DiagnosticOf, EvidenceOf, BytesOf, PayloadOf, FateOf, Fates;
    if outputs != [] {
      var n := |outputs| - 1;
      ListsAreConserved(r, start, outputs[..n]);
      FatesOneMore(r, start, outputs);
      FateFits(r, KeptOf(r, start, outputs[..n]), outputs[n]);
    } else {
      assert Fates(r, start, outputs) == [];
    }
  }

  /** What becomes of the outputs: each is kept once, in order, where its kind may go, or counted as
      lost, and the room pays exactly for what is kept. */
  ghost predicate Conserved(r: Rendering, start: Kept, outputs: seq<Output>) {
    var fates, kept := Fates(r, start, outputs), KeptOf(r, start, outputs);
    && ListsConserved(r, start, outputs)
    && |Diagnostics(r, outputs, fates)| + |EvidenceLines(r, outputs, fates)| + |TelemetryEntries(outputs, fates)|
         + Count(fates, Lost) == |outputs|
    && kept.overflow.lost == start.overflow.lost + Count(fates, Lost)
    && kept.overflow.lostBytes == start.overflow.lostBytes + LostBytes(r, outputs, fates)
    && start.room == kept.room + KeptBytes(r, outputs, fates)
  }

  lemma {:induction false} EachMeetsOneFate(r: Rendering, start: Kept, outputs: seq<Output>)
    ensures var fates := Fates(r, start, outputs);
            |Diagnostics(r, outputs, fates)| + |EvidenceLines(r, outputs, fates)| + |TelemetryEntries(outputs, fates)|
              + Count(fates, Lost) == |outputs|
  {
    hide DiagnosticOf, EvidenceOf, BytesOf, FateOf, Fates, KeptOf;
    if outputs != [] {
      var n := |outputs| - 1;
      EachMeetsOneFate(r, start, outputs[..n]);
      FatesOneMore(r, start, outputs);
      FateFits(r, KeptOf(r, start, outputs[..n]), outputs[n]);
    } else {
      assert Fates(r, start, outputs) == [];
    }
  }

  lemma {:induction false} AmountsAreConserved(r: Rendering, start: Kept, outputs: seq<Output>)
    ensures var fates, kept := Fates(r, start, outputs), KeptOf(r, start, outputs);
      && kept.overflow.lost == start.overflow.lost + Count(fates, Lost)
      && kept.overflow.lostBytes == start.overflow.lostBytes + LostBytes(r, outputs, fates)
      && start.room == kept.room + KeptBytes(r, outputs, fates)
  {
    hide DiagnosticOf, EvidenceOf, BytesOf, PayloadOf, FateOf, Fates;
    if outputs != [] {
      var n := |outputs| - 1;
      AmountsAreConserved(r, start, outputs[..n]);
      FatesOneMore(r, start, outputs);
      FateFits(r, KeptOf(r, start, outputs[..n]), outputs[n]);
    } else {
      assert Fates(r, start, outputs) == [];
    }
  }

  lemma OutputsAreConserved(r: Rendering, start: Kept, outputs: seq<Output>)
    ensures Conserved(r, start, outputs)
  {
    ListsAreConserved(r, start, outputs);
    EachMeetsOneFate(r, start, outputs);
    AmountsAreConserved(r, start, outputs);
  }

  ghost predicate WithinBounds(kept: Kept) {
    && |kept.diagnostics| <= MAX_RESULT_DIAGNOSTICS - 2 && |kept.evidence| <= MAX_RESULT_EVIDENCE
    && |kept.telemetry| <= MAX_RESULT_TELEMETRY && kept.telemetryBytes <= MAX_TELEMETRY_BYTES
  }

  /** The result's lists stay within their bounds, with room for two closing diagnostics. */
  lemma {:induction false} ListsStayWithinBounds(r: Rendering, start: Kept, outputs: seq<Output>)
    requires WithinBounds(start)
    ensures WithinBounds(KeptOf(r, start, outputs))
  {
    hide DiagnosticOf, EvidenceOf, PayloadOf;
    if outputs != [] {
      ListsStayWithinBounds(r, start, outputs[..|outputs| - 1]);
    }
  }

  /** The lists of a result that outputs go into, with what is never shed. */
  class ResultLists {
    var commands: seq<Command>
    var entries: seq<RunnerEntry>
    var acknowledged: seq<string>
    var diagnostics: seq<Line>
    var evidence: seq<Line>
    var telemetry: seq<Telemetry>

    constructor (
        commands: seq<Command>, entries: seq<RunnerEntry>, acknowledged: seq<string>, evidence: seq<Line>,
        notes: seq<Line>)
      ensures this.commands == commands && this.entries == entries && this.acknowledged == acknowledged
      ensures this.evidence == evidence && diagnostics == notes && telemetry == []
    {
      this.commands := commands;
      this.entries := entries;
      this.acknowledged := acknowledged;
      this.evidence := evidence;
      diagnostics := notes;
      telemetry := [];
    }

    ghost function Start(room: nat): Kept
      reads this
    {
      Kept(diagnostics, evidence, telemetry, room, 0, Overflow(0, 0))
    }

    /** Appends the decision's outputs, and its kernel error if it has one, into `room` bytes. */
    method AppendOutputs(
        r: Rendering, outputs: seq<Output>, error: Option<string>, room: nat) returns (overflow: Overflow)
      modifies this`diagnostics, this`evidence, this`telemetry
      ensures var kept := KeptOf(r, old(Start(room)), outputs);
        && Conserved(r, old(Start(room)), outputs)
        && evidence == kept.evidence && telemetry == kept.telemetry && overflow == kept.overflow
        && diagnostics == kept.diagnostics + if error.None? then [] else [ErrorLine(error.value)]
    {
      hide FateOf, DiagnosticOf, EvidenceOf, BytesOf, PayloadOf, Conserved;
      ghost var start := Start(room);
      var left, telemetryBytes := room, 0;
      overflow := Overflow(0, 0);
      for n := 0 to |outputs|
        invariant Kept(diagnostics, evidence, telemetry, left, telemetryBytes, overflow)
            == KeptOf(r, start, outputs[..n])
      {
        assert outputs[..n + 1][..n] == outputs[..n];
        var output := outputs[n];
        var bytes := BytesOf(r, output);
        var kept := Kept(diagnostics, evidence, telemetry, left, telemetryBytes, overflow);
        FateFits(r, kept, output);
        match FateOf(r, kept, output) {
          case AsDiagnostic =>
            diagnostics := diagnostics + [DiagnosticOf(r, output)];
            left := left - bytes;
          case AsEvidence =>
            evidence := evidence + [EvidenceOf(r, output)];
            left := left - bytes;
          case AsTelemetry =>
            telemetry := telemetry + [output.entry];
            telemetryBytes := telemetryBytes + bytes;
            left := left - bytes;
          case Lost =>
            overflow := Overflow(overflow.lost + 1, overflow.lostBytes + PayloadOf(r, output));
        }
      }
      assert outputs[..|outputs|] == outputs;
      OutputsAreConserved(r, start, outputs);
      if error.Some? {
        diagnostics := diagnostics + [ErrorLine(error.value)];
      }
    }

    // -------------------------------------------------------------------------------------
    // Shedding
    // -------------------------------------------------------------------------------------

    function Value(): ResultValue
      reads this
    {
      ResultValue(commands, entries, acknowledged, diagnostics, evidence, telemetry)
    }

    /** Drops the last eighth of the telemetry, at least one entry. */
    method ShedTelemetry(r: Rendering, before: Overflow) returns (overflow: Overflow)
      requires telemetry != []
      modifies this`telemetry
      ensures telemetry == old(telemetry)[..|old(telemetry)| - Eighth(|old(telemetry)|)]
      ensures overflow == Overflow(before.lost + |old(telemetry)| - |telemetry|,
                                   before.lostBytes + EntryBytes(r, old(telemetry)[|telemetry|..]))
    {
      var kept := |telemetry| - Eighth(|telemetry|);
      ghost var all := telemetry;
      overflow := before;
      for i := kept to |telemetry|
        invariant telemetry == all
        invariant overflow == Overflow(before.lost + i - kept, before.lostBytes + EntryBytes(r, all[kept..i]))
      {
        assert all[kept..i + 1][..i - kept] == all[kept..i];
        overflow := Overflow(overflow.lost + 1, overflow.lostBytes + r.telemetryBytes(telemetry[i]));
      }
      assert all[kept..|all|] == all[kept..];
      telemetry := telemetry[..kept];
    }

    /** Drops the last log: evidence first, then diagnostics. */
    method ShedLog(before: Overflow) returns (overflow: Overflow)
      requires |Logs(evidence)| + |Logs(diagnostics)| > 0
      modifies this`evidence, this`diagnostics
      ensures LogShed(old(evidence), old(diagnostics), evidence, diagnostics)
      ensures overflow.lost == before.lost + 1
      ensures overflow.lostBytes + TextBytes(Logs(evidence)) + TextBytes(Logs(diagnostics))
           == before.lostBytes + TextBytes(Logs(old(evidence))) + TextBytes(Logs(old(diagnostics)))
    {
      hide Logs, Others, TextBytes;
      var last := LastLog(evidence);
      if last.Some? {
        overflow := Overflow(before.lost + 1, before.lostBytes + |evidence[last.value].text|);
        RemovingLog(evidence, last.value);
        evidence := evidence[..last.value] + evidence[last.value + 1..];
      } else {
        last := LastLog(diagnostics);
        overflow := Overflow(before.lost + 1, before.lostBytes + |diagnostics[last.value].text|);
        RemovingLog(diagnostics, last.value);
        diagnostics := diagnostics[..last.value] + diagnostics[last.value + 1..];
      }
    }

    /** Drops an eighth of the logs, at least one. */
    method ShedLogs(r: Rendering, before: Overflow) returns (overflow: Overflow)
      requires |Logs(evidence)| + |Logs(diagnostics)| > 0 && telemetry == []
      modifies this`evidence, this`diagnostics
      ensures Shed(r, old(Value()), before, Value(), overflow)
      ensures var logs := |Logs(old(evidence))| + |Logs(old(diagnostics))|;
              |Logs(evidence)| + |Logs(diagnostics)| == logs - Eighth(logs)
    {
      hide Logs, Others, TextBytes, EntryBytes, LogShed;
      var logs := |Logs(evidence)| + |Logs(diagnostics)|;
      overflow := before;
      for i := 0 to Eighth(logs)
        invariant |Logs(evidence)| + |Logs(diagnostics)| == logs - i
        invariant Shed(r, old(Value()), before, Value(), overflow)
      {
        ghost var value, counted := Value(), overflow;
        overflow := ShedLog(overflow);
        OneLogShed(r, value, counted, Value(), overflow);
        ShedTwice(r, old(Value()), before, value, counted, Value(), overflow);
      }
    }

    /** Whether anything is left to shed. */
    predicate CanShed()
      reads this
    {
      telemetry != [] || |Logs(evidence)| + |Logs(diagnostics)| > 0
    }

    ghost function Sheddable(): nat
      reads this
    {
      |telemetry| + |Logs(evidence)| + |Logs(diagnostics)|
    }

    method ShedRound(r: Rendering, before: Overflow) returns (overflow: Overflow)
      requires CanShed()
      modifies this`diagnostics, this`evidence, this`telemetry
      ensures Shed(r, old(Value()), before, Value(), overflow) && ShedOnce(old(Value()), Value())
      ensures Sheddable() < old(Sheddable())
    {
      hide Logs, Others, TextBytes, EntryBytes;
      if telemetry != [] {
        overflow := ShedTelemetry(r, before);
        TelemetryShed(r, old(Value()), before, Value(), overflow);
      } else {
        overflow := ShedLogs(r, before);
      }
    }

    /** Writes the overflow notice anew: one exactly when something is lost. */
    method WriteNotice(r: Rendering, overflow: Overflow)
      modifies this`diagnostics
      ensures Notices(diagnostics) == if overflow.lost > 0 then [OverflowLine(r, overflow)] else []
      ensures Renoticed(old(Value()), Value())
    {
      hide Logs, Others, Notices;
      NoticeRewritten(diagnostics, OverflowLine(r, overflow));
      diagnostics := WithoutNotice(diagnostics);
      if overflow.lost > 0 {
        diagnostics := diagnostics + [OverflowLine(r, overflow)];
      }
    }

    /** Makes the result encode: while it is too large, sheds telemetry and then logs from the end, and
        counts them in the overflow notice. Commands, entries and acknowledgements are not touched. */
    method FitResult(r: Rendering, encodes: ResultValue -> EncodeOutcome, before: Overflow)
      returns (outcome: EncodeOutcome, overflow: Overflow, ghost last: Option<ResultValue>)
      modifies this`diagnostics, this`evidence, this`telemetry
      ensures outcome == encodes(Value())
      ensures Shed(r, old(Value()), before, Value(), overflow)
      ensures outcome == TooLarge ==> !CanShed()
      ensures Notices(diagnostics)
           == if overflow.lost > 0 then [Line("error", "kernel_telemetry_overflow", r.overflowText(overflow))] else []
      ensures last.None? ==> overflow == before
      ensures last.Some? ==> encodes(last.value) == TooLarge && ShedOnce(last.value, Value())
    {
      hide Logs, Others, Notices, Shed, ShedOnce, Renoticed;
      overflow, last := before, None;
      NothingShed(r, Value(), before);
      while true
        invariant Shed(r, old(Value()), before, Value(), overflow)
        invariant last.None? ==> overflow == before
        invariant last.Some? ==> encodes(last.value) == TooLarge && ShedOnce(last.value, Value())
        decreases Sheddable()
      {
        ghost var unnoticed := Value();
        WriteNotice(r, overflow);
        RenoticedIsShed(r, old(Value()), before, unnoticed, Value(), overflow);
        if last.Some? {
          RenoticedIsShedOnce(last.value, unnoticed, Value());
        }
        outcome := encodes(Value());
        if outcome != TooLarge || !CanShed() {
          return;
        }
        ghost var value, counted := Value(), overflow;
        RenoticedCounts(unnoticed, value);
        overflow := ShedRound(r, overflow);
        ShedTwice(r, old(Value()), before, value, counted, Value(), overflow);
        last := Some(value);
      }
    }
  }

  /** The same result with another overflow notice. */
  ghost predicate Renoticed(a: ResultValue, b: ResultValue) {
    && b == a.(diagnostics := b.diagnostics)
    && Logs(b.diagnostics) == Logs(a.diagnostics) && Others(b.diagnostics) == Others(a.diagnostics)
  }

  lemma RenoticedIsShed(r: Rendering, a: ResultValue, x: Overflow, b: ResultValue, c: ResultValue, y: Overflow)
    requires Shed(r, a, x, b, y) && Renoticed(b, c)
    ensures Shed(r, a, x, c, y)
  {
    hide Logs, Others, TextBytes, EntryBytes;
  }

  lemma RenoticedIsShedOnce(a: ResultValue, b: ResultValue, c: ResultValue)
    requires ShedOnce(a, b) && Renoticed(b, c)
    ensures ShedOnce(a, c)
  {
    hide Logs, Others;
  }

  lemma RenoticedCounts(a: ResultValue, b: ResultValue)
    requires Renoticed(a, b)
    ensures b.telemetry == a.telemetry && b.evidence == a.evidence && Logs(b.diagnostics) == Logs(a.diagnostics)
  {
  }

  lemma NothingShed(r: Rendering, a: ResultValue, x: Overflow)
    ensures Shed(r, a, x, a, x)
  {
  }

  datatype EncodeOutcome = Encodes | TooLarge | Broken

  function OverflowLine(r: Rendering, overflow: Overflow): Line {
    Line("error", OVERFLOW, r.overflowText(overflow))
  }

  /** One round of shedding: an eighth of the telemetry, or with none left of the logs. */
  ghost predicate ShedOnce(before: ResultValue, after: ResultValue) {
    var logs := |Logs(before.evidence)| + |Logs(before.diagnostics)|;
    if before.telemetry != [] then
      && |after.telemetry| == |before.telemetry| - Eighth(|before.telemetry|)
      && |Logs(after.evidence)| + |Logs(after.diagnostics)| == logs
    else logs > 0 && |Logs(after.evidence)| + |Logs(after.diagnostics)| == logs - Eighth(logs)
  }

  /** What shedding may do: telemetry goes from its end, logs only once it is gone,
      those of the diagnostics only once the evidence's are; each loss is counted, with its bytes. */
  ghost predicate Shed(r: Rendering, before: ResultValue, counted: Overflow, after: ResultValue, overflow: Overflow) {
    && after.commands == before.commands && after.entries == before.entries && after.acknowledged == before.acknowledged
    && Others(after.evidence) == Others(before.evidence) && Others(after.diagnostics) == Others(before.diagnostics)
    && after.telemetry <= before.telemetry && |after.evidence| <= |before.evidence|
    && Logs(after.evidence) <= Logs(before.evidence) && Logs(after.diagnostics) <= Logs(before.diagnostics)
    && (Logs(after.evidence) != Logs(before.evidence) || Logs(after.diagnostics) != Logs(before.diagnostics) ==>
          after.telemetry == [])
    && (Logs(after.diagnostics) != Logs(before.diagnostics) ==> Logs(after.evidence) == [])
    && overflow.lost + |after.telemetry| + |Logs(after.evidence)| + |Logs(after.diagnostics)|
         == counted.lost + |before.telemetry| + |Logs(before.evidence)| + |Logs(before.diagnostics)|
    && overflow.lostBytes + EntryBytes(r, after.telemetry) + TextBytes(Logs(after.evidence))
        + TextBytes(Logs(after.diagnostics))
         == counted.lostBytes + EntryBytes(r, before.telemetry) + TextBytes(Logs(before.evidence))
              + TextBytes(Logs(before.diagnostics))
  }

  lemma ShedTwice(
      r: Rendering, a: ResultValue, x: Overflow, b: ResultValue, y: Overflow, c: ResultValue, z: Overflow)
    requires Shed(r, a, x, b, y) && Shed(r, b, y, c, z)
    ensures Shed(r, a, x, c, z)
  {
    hide Logs, Others, TextBytes, EntryBytes;
  }

  lemma OneLogShed(r: Rendering, before: ResultValue, counted: Overflow, after: ResultValue, overflow: Overflow)
    requires before.telemetry == []
    requires after == before.(evidence := after.evidence, diagnostics := after.diagnostics)
    requires LogShed(before.evidence, before.diagnostics, after.evidence, after.diagnostics)
    requires overflow.lost == counted.lost + 1
    requires overflow.lostBytes + TextBytes(Logs(after.evidence)) + TextBytes(Logs(after.diagnostics))
          == counted.lostBytes + TextBytes(Logs(before.evidence)) + TextBytes(Logs(before.diagnostics))
    ensures Shed(r, before, counted, after, overflow)
    ensures |Logs(after.evidence)| + |Logs(after.diagnostics)|
        == |Logs(before.evidence)| + |Logs(before.diagnostics)| - 1
  {
    hide Logs, Others, TextBytes, EntryBytes;
  }

  lemma TelemetryShed(r: Rendering, before: ResultValue, counted: Overflow, after: ResultValue, overflow: Overflow)
    requires after == before.(telemetry := after.telemetry) && after.telemetry <= before.telemetry
    requires overflow == Overflow(counted.lost + |before.telemetry| - |after.telemetry|,
                                  counted.lostBytes + EntryBytes(r, before.telemetry[|after.telemetry|..]))
    ensures Shed(r, before, counted, after, overflow)
  {
    hide Logs, Others, TextBytes;
    EntryBytesOfSum(r, after.telemetry, before.telemetry[|after.telemetry|..]);
    assert before.telemetry == after.telemetry + before.telemetry[|after.telemetry|..];
  }

  lemma {:induction false} EntryBytesOfSum(r: Rendering, a: seq<Telemetry>, b: seq<Telemetry>)
    ensures EntryBytes(r, a + b) == EntryBytes(r, a) + EntryBytes(r, b)
  {
    if b == [] {
      assert a + b == a;
    } else {
      assert (a + b)[..|a + b| - 1] == a + b[..|b| - 1];
      EntryBytesOfSum(r, a, b[..|b| - 1]);
    }
  }

  // ---------------------------------------------------------------------------------------
  // The overflow notice
  // ---------------------------------------------------------------------------------------

  ghost function Notices(lines: seq<Line>): seq<Line> {
    if lines == [] then []
    else
      var last := lines[|lines| - 1];
      Notices(lines[..|lines| - 1]) + if last.code == OVERFLOW then [last] else []
  }

  function WithoutNotice(lines: seq<Line>): seq<Line> {
    if lines == [] then []
    else
      var last := lines[|lines| - 1];
      WithoutNotice(lines[..|lines| - 1]) + if last.code == OVERFLOW then [] else [last]
  }

  /** Rewriting the notice changes nothing else. */
  lemma NoticeRewritten(lines: seq<Line>, notice: Line)
    requires notice.code == OVERFLOW
    ensures var without := WithoutNotice(lines);
      && Notices(without) == [] && Notices(without + [notice]) == [notice]
      && Logs(without) == Logs(lines) && Logs(without + [notice]) == Logs(lines)
      && Others(without) == Others(lines) && Others(without + [notice]) == Others(lines)
  {
    NoticeRemoved(lines);
    var without := WithoutNotice(lines);
    assert (without + [notice])[..|without|] == without;
  }

  lemma {:induction false} NoticeRemoved(lines: seq<Line>)
    ensures var without := WithoutNotice(lines);
            Notices(without) == [] && Logs(without) == Logs(lines) && Others(without) == Others(lines)
  {
    if lines != [] {
      var earlier, last := lines[..|lines| - 1], lines[|lines| - 1];
      NoticeRemoved(earlier);
      if last.code != OVERFLOW {
        assert (WithoutNotice(earlier) + [last])[..|WithoutNotice(earlier)|] == WithoutNotice(earlier);
      } else {
        assert WithoutNotice(lines) == WithoutNotice(earlier);
      }
    }
  }

  // ---------------------------------------------------------------------------------------
  // Logs
  // ---------------------------------------------------------------------------------------

  datatype ResultValue = ResultValue(
    commands: seq<Command>, entries: seq<RunnerEntry>, acknowledged: seq<string>, diagnostics: seq<Line>,
    evidence: seq<Line>,
    telemetry: seq<Telemetry>)

  /** An eighth, rounded up. */
  function Eighth(n: nat): (e: nat)
    ensures n <= 8 * e < n + 8
  {
    (n + 7) / 8
  }

  ghost function EntryBytes(r: Rendering, entries: seq<Telemetry>): nat {
    if entries == [] then 0 else EntryBytes(r, entries[..|entries| - 1]) + r.telemetryBytes(entries[|entries| - 1])
  }

  function Logs(lines: seq<Line>): seq<Line> {
    if lines == [] then []
    else
      var last := lines[|lines| - 1];
      Logs(lines[..|lines| - 1]) + if last.code == KERNEL_LOG then [last] else []
  }

  /** What is never shed, but for the overflow notice, which is written anew. */
  ghost function Others(lines: seq<Line>): seq<Line> {
    if lines == [] then []
    else
      var last := lines[|lines| - 1];
      Others(lines[..|lines| - 1]) + if last.code == KERNEL_LOG || last.code == OVERFLOW then [] else [last]
  }

  ghost function TextBytes(lines: seq<Line>): nat {
    if lines == [] then 0 else TextBytes(lines[..|lines| - 1]) + |lines[|lines| - 1].text|
  }

  /** One log fewer, the last, evidence before diagnostics, and nothing else touched. */
  ghost predicate LogShed(
      evidence: seq<Line>, diagnostics: seq<Line>, evidenceAfter: seq<Line>, diagnosticsAfter: seq<Line>) {
    && Others(evidenceAfter) == Others(evidence) && Others(diagnosticsAfter) == Others(diagnostics)
    && |evidenceAfter| <= |evidence|
    && if Logs(evidence) != [] then
         Logs(evidenceAfter) == Logs(evidence)[..|Logs(evidence)| - 1] && diagnosticsAfter == diagnostics
       else
         && evidenceAfter == evidence && Logs(diagnostics) != []
         && Logs(diagnosticsAfter) == Logs(diagnostics)[..|Logs(diagnostics)| - 1]
  }

  lemma {:induction false} LinesOfSum(a: seq<Line>, b: seq<Line>)
    ensures Logs(a + b) == Logs(a) + Logs(b) && Others(a + b) == Others(a) + Others(b)
    ensures TextBytes(a + b) == TextBytes(a) + TextBytes(b)
  {
    if b == [] {
      assert a + b == a;
    } else {
      assert (a + b)[..|a + b| - 1] == a + b[..|b| - 1];
      LinesOfSum(a, b[..|b| - 1]);
    }
  }

  /** Where the last log is. */
  method LastLog(lines: seq<Line>) returns (r: Option<nat>)
    ensures r.None? <==> Logs(lines) == []
    ensures r.Some? ==> r.value < |lines| && lines[r.value].code == KERNEL_LOG && Logs(lines[r.value + 1..]) == []
  {
    var n: nat := |lines|;
    assert lines[n..] == [];
    while n > 0
      invariant n <= |lines| && Logs(lines[n..]) == []
    {
      assert lines[n - 1..] == [lines[n - 1]] + lines[n..];
      LinesOfSum([lines[n - 1]], lines[n..]);
      assert lines == lines[..n - 1] + lines[n - 1..];
      LinesOfSum(lines[..n - 1], lines[n - 1..]);
      OneLine(lines[n - 1]);
      n := n - 1;
      if lines[n].code == KERNEL_LOG {
        return Some(n);
      }
    }
    assert lines[0..] == lines;
    return None;
  }

  lemma OneLine(line: Line)
    ensures Logs([line]) == if line.code == KERNEL_LOG then [line] else []
    ensures Others([line]) == if line.code == KERNEL_LOG || line.code == OVERFLOW then [] else [line]
    ensures TextBytes([line]) == |line.text|
  {
    assert [line][..0] == [];
  }

  lemma RemovingLog(lines: seq<Line>, k: nat)
    requires k < |lines| && lines[k].code == KERNEL_LOG && Logs(lines[k + 1..]) == []
    ensures var after := lines[..k] + lines[k + 1..];
      && Others(after) == Others(lines)
      && Logs(lines) != [] && Logs(after) == Logs(lines)[..|Logs(lines)| - 1]
      && TextBytes(Logs(lines)) == TextBytes(Logs(after)) + |lines[k].text|
  {
    hide Logs, Others, TextBytes;
    var head, tail := lines[..k], lines[k + 1..];
    assert lines == head + [lines[k]] + tail;
    OneLine(lines[k]);
    LinesOfSum(head + [lines[k]], tail);
    LinesOfSum(head, [lines[k]]);
    LinesOfSum(head, tail);
    LinesOfSum(Logs(head), [lines[k]]);
    assert Logs(lines) == Logs(head) + [lines[k]] && Logs(head + tail) == Logs(head);
  }

  /** A kernel's error on the trigger, in its own words as far as they fit. */
  function ErrorLine(error: string): (line: Line)
    ensures line.severity == "error" && line.code == "kernel_error"
    ensures error == "" ==> line.text == "kernel error"
    ensures line.text <= error || error == ""
    ensures 0 < |error| <= 4_096 ==> line.text == error
  {
    Line("error", KERNEL_ERROR, Truncated(if error == "" then "kernel error" else error, MAX_RESULT_DIAGNOSTIC_BYTES))
  }

  // ---------------------------------------------------------------------------------------
  // The finished result
  // ---------------------------------------------------------------------------------------

  /** A line is a log, a notice or something else. */
  lemma {:induction false} LinesArePartitioned(lines: seq<Line>)
    ensures |lines| == |Logs(lines)| + |Others(lines)| + |Notices(lines)|
  {
    if lines != [] {
      LinesArePartitioned(lines[..|lines| - 1]);
    }
  }

  /** Shedding with at most one notice adds at most one line. */
  lemma FittedWithinOneMore(
      r: Rendering, before: ResultValue, counted: Overflow, after: ResultValue, overflow: Overflow)
    requires Shed(r, before, counted, after, overflow) && |Notices(after.diagnostics)| <= 1
    ensures |after.diagnostics| <= |before.diagnostics| + 1
    ensures |after.evidence| <= |before.evidence| && |after.telemetry| <= |before.telemetry|
  {
    hide Logs, Others, Notices, TextBytes, EntryBytes;
    LinesArePartitioned(before.diagnostics);
    LinesArePartitioned(after.diagnostics);
  }

  /** Whether the lists are within the bounds of result validation. */
  predicate ListsValid(value: ResultValue) {
    && |value.diagnostics| <= MAX_RESULT_DIAGNOSTICS && |value.evidence| <= MAX_RESULT_EVIDENCE
    && |value.telemetry| <= MAX_RESULT_TELEMETRY
  }

  /** Finishes a result: its outputs and kernel error go into the lists, which are then made to encode.
      The lists end within their bounds, the notice included, and what the decision
      issued, left and acknowledged is never touched; a result that does not fit has nothing left to shed. */
  method Publish(
      r: Rendering, value: ResultValue, outputs: seq<Output>, error: Option<string>, room: nat,
      encodes: ResultValue -> EncodeOutcome)
    returns (outcome: EncodeOutcome, published: ResultValue)
    requires value.telemetry == [] && |value.diagnostics| <= MAX_RESULT_DIAGNOSTICS - 2
        && |value.evidence| <= MAX_RESULT_EVIDENCE
    ensures outcome == encodes(published) && ListsValid(published)
    ensures published.commands == value.commands && published.entries == value.entries
    ensures published.acknowledged == value.acknowledged
    ensures outcome == TooLarge ==>
      published.telemetry == [] && Logs(published.evidence) == [] && Logs(published.diagnostics) == []
  {
    hide Logs, Others, Notices, Shed, ShedOnce, Conserved, KeptOf;
    var lists := new ResultLists(value.commands, value.entries, value.acknowledged, value.evidence, value.diagnostics);
    ghost var start := lists.Start(room);
    var overflow := lists.AppendOutputs(r, outputs, error, room);
    ListsStayWithinBounds(r, start, outputs);
    ghost var appended := lists.Value();
    ghost var counted := overflow;
    ghost var last;
    outcome, overflow, last := lists.FitResult(r, encodes, overflow);
    published := lists.Value();
    assert |Notices(published.diagnostics)| <= 1;
    FittedWithinOneMore(r, appended, counted, published, overflow);
    ShedTouchesNone(r, appended, counted, published, overflow);
  }

  lemma ShedTouchesNone(r: Rendering, before: ResultValue, counted: Overflow, after: ResultValue, overflow: Overflow)
    requires Shed(r, before, counted, after, overflow)
    ensures after.commands == before.commands && after.entries == before.entries
        && after.acknowledged == before.acknowledged
  {
  }
}
