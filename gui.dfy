/** The plain logic of the Qt front end (`main.py`): the stream fan-out that
    copies standard output into the log tab, the log tab's carriage-return
    handling, the frequency slider's snapping, the port-list parsing, the
    elapsed-time label, and the start/stop toggle of the control tab. */
module Gui {
  import opened Wrappers
  import opened Text
  import opened TextDocument
  import Pyserial
  import SS = SerialSender
  import Lists

  // ---------------------------------------------------------------------
  // TeeStream

  /** One call a `TeeStream` makes on one of its streams, the streams being
      numbered by their position in the tee. */
  datatype StreamCall = WriteCall(stream: nat, msg: string) | FlushCall(stream: nat)

  /** The calls the streams received, oldest first, across all streams. */
  class CallTrace {
    var calls: seq<StreamCall>

    constructor ()
      ensures calls == []
    {
      calls := [];
    }

    method Record(c: StreamCall)
      modifies this
      ensures calls == old(calls) + [c]
    {
      calls := calls + [c];
    }
  }

  /** `stream.write(msg)` on each of `streams`, in order. */
  function WriteCalls(streams: seq<nat>, msg: string): (r: seq<StreamCall>)
    ensures |r| == |streams|
  {
    if streams == [] then [] else WriteCalls(streams[..|streams| - 1], msg) + [WriteCall(streams[|streams| - 1], msg)]
  }

  /** `stream.flush()` on each of `streams`, in order. */
  function FlushCalls(streams: seq<nat>): (r: seq<StreamCall>)
    ensures |r| == |streams|
  {
    if streams == [] then [] else FlushCalls(streams[..|streams| - 1]) + [FlushCall(streams[|streams| - 1])]
  }

  lemma {:induction false} WriteCallsAt(streams: seq<nat>, msg: string, i: int)
    requires 0 <= i < |streams|
    ensures WriteCalls(streams, msg)[i] == WriteCall(streams[i], msg)
  {
    if i < |streams| - 1 {
      WriteCallsAt(streams[..|streams| - 1], msg, i);
    }
  }

  lemma {:induction false} FlushCallsAt(streams: seq<nat>, i: int)
    requires 0 <= i < |streams|
    ensures FlushCalls(streams)[i] == FlushCall(streams[i])
  {
    if i < |streams| - 1 {
      FlushCallsAt(streams[..|streams| - 1], i);
    }
  }

  /** What `TeeStream.write(msg)` does: every stream gets `msg`, in order,
      and only then is every stream flushed, in order. */
  lemma TeeWriteFanOut(streams: seq<nat>, msg: string)
    ensures var calls := WriteCalls(streams, msg) + FlushCalls(streams);
      |calls| == 2 * |streams|
      && (forall i :: 0 <= i < |streams| ==> calls[i] == WriteCall(streams[i], msg))
      && (forall i :: 0 <= i < |streams| ==> calls[|streams| + i] == FlushCall(streams[i]))
  {
    var calls := WriteCalls(streams, msg) + FlushCalls(streams);
    forall i | 0 <= i < |streams| ensures calls[i] == WriteCall(streams[i], msg) {
      WriteCallsAt(streams, msg, i);
    }
    forall i | 0 <= i < |streams| ensures calls[|streams| + i] == FlushCall(streams[i]) {
      FlushCallsAt(streams, i);
    }
  }

  /** `TeeStream(*streams)`: `streams` are the positions of its streams. */
  class TeeStream {
    const streams: seq<nat>

    constructor (streams: seq<nat>)
      ensures this.streams == streams
    {
      this.streams := streams;
    }

    /** `write(msg)`: write to every stream, then flush every stream. */
    method Write(msg: string, trace: CallTrace)
      modifies trace
      ensures trace.calls == old(trace.calls) + WriteCalls(streams, msg) + FlushCalls(streams)
    {
      ghost var c0 := trace.calls;
      var i := 0;
      while i < |streams|
        invariant 0 <= i <= |streams|
        invariant trace.calls == c0 + WriteCalls(streams[..i], msg)
      {
        assert streams[..i + 1][..i] == streams[..i];
        trace.Record(WriteCall(streams[i], msg));
        i := i + 1;
      }
      assert streams[..i] == streams;
      ghost var c1 := trace.calls;
      i := 0;
      while i < |streams|
        invariant 0 <= i <= |streams|
        invariant trace.calls == c1 + FlushCalls(streams[..i])
      {
        assert streams[..i + 1][..i] == streams[..i];
        trace.Record(FlushCall(streams[i]));
        i := i + 1;
      }
      assert streams[..i] == streams;
    }

    /** `flush()`: flush every stream. */
    method Flush(trace: CallTrace)
      modifies trace
      ensures trace.calls == old(trace.calls) + FlushCalls(streams)
    {
      ghost var c0 := trace.calls;
      var i := 0;
      while i < |streams|
        invariant 0 <= i <= |streams|
        invariant trace.calls == c0 + FlushCalls(streams[..i])
      {
        assert streams[..i + 1][..i] == streams[..i];
        trace.Record(FlushCall(streams[i]));
        i := i + 1;
      }
      assert streams[..i] == streams;
    }
  }

  // ---------------------------------------------------------------------
  // QTextEditLogger

  /** The two flags of a `QTextEditLogger`. */
  datatype LoggerFlags = LoggerFlags(lastLineOverwrite: bool, needsNewline: bool)

  /** What `write(msg)` emits and the flags it leaves. */
  datatype Filtered = Filtered(flags: LoggerFlags, emitted: string)

  /** The body of `QTextEditLogger.write` up to the `emit`. */
  function WriteFilter(f: LoggerFlags, msg: string): Filtered {
    if '\r' in msg then Filtered(LoggerFlags(true, true), RemoveChar(msg, '\r'))
    else if f.needsNewline then Filtered(LoggerFlags(false, false), "\n" + msg)
    else Filtered(f, msg)
  }

  /** A message with a carriage return loses every carriage return and
      nothing else, and arms both flags. */
  lemma FilterCarriageReturn(f: LoggerFlags, msg: string)
    requires '\r' in msg
    ensures WriteFilter(f, msg).flags == LoggerFlags(true, true)
    ensures '\r' !in WriteFilter(f, msg).emitted
    ensures multiset(WriteFilter(f, msg).emitted) == multiset(msg)[ '\r' := 0 ]
  {
    RemoveCharCounts(msg, '\r');
  }

  /** The first message without a carriage return after one with it gets
      exactly one newline in front and clears both flags; the ones after it
      pass unchanged. */
  lemma NewlineOnceAfterOverwrite(f: LoggerFlags, status: string, a: string, b: string)
    requires '\r' in status && '\r' !in a && '\r' !in b
    ensures var f1 := WriteFilter(f, status).flags;
      var f2 := WriteFilter(f1, a);
      f2 == Filtered(LoggerFlags(false, false), "\n" + a)
      && WriteFilter(f2.flags, b) == Filtered(f2.flags, b)
  {
  }

  /** A flag state `write` and `_append_text` can produce: an armed overwrite
      always comes with a pending newline. */
  predicate Reachable(f: LoggerFlags) {
    f.lastLineOverwrite ==> f.needsNewline
  }

  lemma FilterReachable(f: LoggerFlags, msg: string)
    requires Reachable(f)
    ensures Reachable(WriteFilter(f, msg).flags)
  {
  }

  /** What `_append_text(msg)` does to the document: replace the last line
      when an overwrite is armed, otherwise append. */
  function AppendEffect(overwrite: bool, blocks: seq<string>, msg: string): (r: seq<string>)
    requires WellFormed(blocks)
    ensures WellFormed(r)
  {
    if overwrite then ReplaceLast(blocks, msg) else Insert(blocks, msg)
  }

  /** The logger and its document together. */
  datatype LoggerState = LoggerState(flags: LoggerFlags, blocks: seq<string>)

  /** `write(msg)` on the GUI thread, where the signal is delivered at once:
      the filter, then `_append_text` with the flags the filter left. */
  function DirectWrite(st: LoggerState, msg: string): (r: LoggerState)
    requires WellFormed(st.blocks)
    ensures WellFormed(r.blocks)
  {
    var w := WriteFilter(st.flags, msg);
    LoggerState(LoggerFlags(false, w.flags.needsNewline), AppendEffect(w.flags.lastLineOverwrite, st.blocks, w.emitted))
  }

  /** A status write such as `"\rSending data (0:00:05)"` replaces the last
      line: the number of lines stays the same and the newline stays pending. */
  lemma StatusOverwrites(st: LoggerState, msg: string)
    requires WellFormed(st.blocks) && '\r' in msg && '\n' !in msg
    ensures '\n' !in RemoveChar(msg, '\r')
    ensures DirectWrite(st, msg) == LoggerState(LoggerFlags(false, true), st.blocks[..|st.blocks| - 1] + [RemoveChar(msg, '\r')])
    ensures |DirectWrite(st, msg).blocks| == |st.blocks|
  {
    RemoveCharCounts(msg, '\r');
    assert multiset(RemoveChar(msg, '\r'))['\n'] == multiset(msg)['\n'] == 0;
    ReplaceLine(st.blocks, RemoveChar(msg, '\r'));
  }

  /** The next line after a status line starts a line of its own below it. */
  lemma LineAfterStatus(st: LoggerState, msg: string)
    requires WellFormed(st.blocks) && st.flags.needsNewline && !st.flags.lastLineOverwrite
    requires '\r' !in msg && '\n' !in msg
    ensures DirectWrite(st, msg) == LoggerState(LoggerFlags(false, false), st.blocks + [msg])
  {
    InsertLine(st.blocks, msg);
  }

  /** Without a pending newline a message is appended to the text as it is. */
  lemma PlainAppends(st: LoggerState, msg: string)
    requires WellFormed(st.blocks) && !st.flags.needsNewline && !st.flags.lastLineOverwrite && '\r' !in msg
    ensures DirectWrite(st, msg).flags == st.flags
    ensures JoinNewline(DirectWrite(st, msg).blocks) == JoinNewline(st.blocks) + msg
  {
    InsertAppendsText(st.blocks, msg);
  }

  /** `QTextEditLogger`, writing into `textEdit`. */
  class QTextEditLogger {
    const textEdit: TextEdit
    var lastLineOverwrite: bool
    var needsNewline: bool

    ghost predicate Valid()
      reads this, textEdit
    {
      textEdit.Valid() && Reachable(LoggerFlags(lastLineOverwrite, needsNewline))
    }

    constructor (textEdit: TextEdit)
      requires textEdit.Valid()
      ensures Valid() && this.textEdit == textEdit
      ensures !lastLineOverwrite && !needsNewline
    {
      this.textEdit := textEdit;
      lastLineOverwrite := false;
      needsNewline := false;
    }

    /** `write(msg)`: strip carriage returns or prepend the pending newline,
        and return what is emitted. */
    method Write(msg: string) returns (emitted: string)
      requires Valid()
      modifies this`lastLineOverwrite, this`needsNewline
      ensures Valid()
      ensures Filtered(LoggerFlags(lastLineOverwrite, needsNewline), emitted)
           == WriteFilter(LoggerFlags(old(lastLineOverwrite), old(needsNewline)), msg)
    {
      emitted := msg;
      if '\r' in msg {
        emitted := RemoveChar(msg, '\r');
        lastLineOverwrite := true;
        needsNewline := true;
      } else if needsNewline {
        emitted := "\n" + msg;
        needsNewline := false;
        lastLineOverwrite := false;
      }
    }

    /** `_append_text(msg)`, the slot the emitted text reaches. */
    method AppendText(msg: string)
      requires Valid()
      modifies this`lastLineOverwrite, textEdit
      ensures Valid() && !lastLineOverwrite
      ensures textEdit.blocks == AppendEffect(old(lastLineOverwrite), old(textEdit.blocks), msg)
    {
      if lastLineOverwrite {
        ReplaceLastIsInsert(textEdit.blocks, msg);
        textEdit.RemoveLastLine();
        lastLineOverwrite := false;
      }
      textEdit.InsertText(msg);
    }

    /** `write(msg)` with the signal delivered at once. */
    method WriteDirect(msg: string)
      requires Valid()
      modifies this`lastLineOverwrite, this`needsNewline, textEdit
      ensures Valid()
      ensures LoggerState(LoggerFlags(lastLineOverwrite, needsNewline), textEdit.blocks)
           == DirectWrite(LoggerState(LoggerFlags(old(lastLineOverwrite), old(needsNewline)), old(textEdit.blocks)), msg)
    {
      var emitted := Write(msg);
      AppendText(emitted);
    }
  }

  // ---------------------------------------------------------------------
  // Frequency slider

  /** The slider's tick interval, the step the frequency snaps to. */
  const TickInterval := 50
  const SliderMin := 100
  const SliderMax := 1000

  /** Python's `round(n / d)` for `d > 0`: the nearest integer, ties to the even one. */
  function RoundHalfEven(n: int, d: int): int
    requires d > 0
  {
    var q := n / d;
    var r := n % d;
    if 2 * r < d then q
    else if 2 * r > d then q + 1
    else if q % 2 == 0 then q
    else q + 1
  }

  /** `round(value / tick) * tick`. */
  function Snap(value: int, tick: int): int
    requires tick > 0
  {
    RoundHalfEven(value, tick) * tick
  }

  lemma DivMod(n: int, d: int)
    requires d > 0
    ensures n == (n / d) * d + n % d && 0 <= n % d < d
  {
  }

  lemma MulMono(a: int, b: int, t: int)
    requires a <= b && t >= 0
    ensures a * t <= b * t
  {
    var e := b - a;
    assert b * t == a * t + e * t;
  }

  /** The snapped value is the multiple just below `value`, or the one above it. */
  lemma SnapCases(value: int, tick: int)
    requires tick > 0
    ensures var q := value / tick; var r := value % tick;
      (RoundHalfEven(value, tick) == q && Snap(value, tick) == value - r && 2 * r <= tick)
      || (RoundHalfEven(value, tick) == q + 1 && Snap(value, tick) == value - r + tick && 2 * r >= tick)
  {
    var q := value / tick;
    DivMod(value, tick);
    assert (q + 1) * tick == q * tick + tick;
  }

  /** The snapped value is at most half a tick away from `value`. */
  lemma SnapError(value: int, tick: int)
    requires tick > 0
    ensures -tick <= 2 * (value - Snap(value, tick)) <= tick
  {
    SnapCases(value, tick);
    DivMod(value, tick);
  }

  /** The snapped value is a multiple of `tick` nearest to `value`: no
      multiple `k * tick` is closer. */
  lemma SnapNearest(value: int, tick: int, k: int)
    requires tick > 0
    ensures Abs(value - Snap(value, tick)) <= Abs(value - k * tick)
  {
    var q := value / tick;
    var r := value % tick;
    SnapCases(value, tick);
    DivMod(value, tick);
    if k <= q {
      MulMono(k, q, tick);
      assert value - k * tick >= r;
    } else {
      MulMono(q + 1, k, tick);
      assert (q + 1) * tick == q * tick + tick;
      assert value - k * tick <= r - tick;
    }
  }

  /** On an exact tie the even multiple wins. */
  lemma SnapTieEven(value: int, tick: int)
    requires tick > 0 && 2 * (value % tick) == tick
    ensures RoundHalfEven(value, tick) % 2 == 0
    ensures Abs(value - Snap(value, tick)) * 2 == tick
  {
    var q := value / tick;
    assert value == q * tick + value % tick;
    assert (q + 1) * tick == q * tick + tick;
  }

  /** A value already on a multiple is not moved. */
  lemma SnapFixed(value: int, tick: int)
    requires tick > 0 && value % tick == 0
    ensures Snap(value, tick) == value
  {
    assert value == (value / tick) * tick;
  }

  /** Snapping a slider value stays within the slider's range, whose ends are multiples of the tick. */
  lemma SnapInRange(value: int)
    requires SliderMin <= value <= SliderMax
    ensures SliderMin <= Snap(value, TickInterval) <= SliderMax
  {
    var q := value / TickInterval;
    assert value == q * TickInterval + value % TickInterval;
    assert 2 <= q <= 20;
  }

  function Abs(x: int): nat {
    if x < 0 then -x else x
  }

  /** `QSlider.setValue`: the value is clamped to the range. */
  function Clamp(x: int, lo: int, hi: int): int
    requires lo <= hi
  {
    if x < lo then lo else if x > hi then hi else x
  }

  // ---------------------------------------------------------------------
  // Port list

  /** `[p.strip() for p in lines if p.strip()]`. */
  function CleanPortNames(lines: seq<string>): (r: seq<string>)
    ensures |r| <= |lines|
  {
    if lines == [] then []
    else
      var n := |lines| - 1;
      CleanPortNames(lines[..n]) + (if Strip(lines[n]) != "" then [Strip(lines[n])] else [])
  }

  /** `serial_port_list_update`'s parse of the list's text. */
  function PortListUpdate(text: string): seq<string> {
    CleanPortNames(SplitNewline(text))
  }

  /** A name as the parse produces it: not empty, no newline, and no
      whitespace at either end. */
  predicate IsCleanName(s: string) {
    s != [] && '\n' !in s && !IsSpace(s[0]) && !IsSpace(s[|s| - 1])
  }

  lemma StripNoNewline(s: string)
    requires '\n' !in s
    ensures '\n' !in Strip(s)
  {
    var r := Strip(s);
    var lo := StripSlice(s);
    forall i | 0 <= i < |r| ensures r[i] != '\n' {
      assert r[i] == s[lo + i];
    }
  }

  lemma StripClean(line: string)
    requires '\n' !in line && Strip(line) != ""
    ensures IsCleanName(Strip(line))
  {
    StripNoNewline(line);
    StripEnds(line);
  }

  /** Every parsed name is clean, given lines without newlines. */
  lemma {:induction false} CleanNamesAreClean(lines: seq<string>)
    requires forall i :: 0 <= i < |lines| ==> '\n' !in lines[i]
    ensures forall i :: 0 <= i < |CleanPortNames(lines)| ==> IsCleanName(CleanPortNames(lines)[i])
  {
    if lines != [] {
      var n := |lines| - 1;
      var init := lines[..n];
      forall i | 0 <= i < |init| ensures '\n' !in init[i] {
        assert init[i] == lines[i];
      }
      CleanNamesAreClean(init);
      var s := Strip(lines[n]);
      if s != "" {
        StripClean(lines[n]);
      }
      var names := CleanPortNames(init);
      var tail := if s != "" then [s] else [];
      assert CleanPortNames(lines) == names + tail;
      forall i | 0 <= i < |names + tail| ensures IsCleanName((names + tail)[i]) {
        if i < |names| {
          assert (names + tail)[i] == names[i];
        } else {
          assert (names + tail)[i] == s;
        }
      }
    }
  }

  /** `[p.strip() for p in lines]`. */
  function Stripped(lines: seq<string>): (r: seq<string>)
    ensures |r| == |lines|
  {
    seq(|lines|, i requires 0 <= i < |lines| => Strip(lines[i]))
  }

  /** Stripping the lines one more line at the end strips that line too. */
  lemma StrippedAppend(lines: seq<string>)
    requires lines != []
    ensures Stripped(lines) == Stripped(lines[..|lines| - 1]) + [Strip(lines[|lines| - 1])]
  {
    var n := |lines| - 1;
    var a, s := Stripped(lines[..n]), Strip(lines[n]);
    forall k | 0 <= k < |lines| ensures Stripped(lines)[k] == (a + [s])[k] {
      if k < n {
        assert lines[..n][k] == lines[k];
      }
    }
  }

  /** A name is parsed exactly when it is not empty and some line strips to it. */
  lemma {:induction false} CleanPortNamesMember(lines: seq<string>, x: string)
    ensures x in CleanPortNames(lines) <==> x != "" && x in Stripped(lines)
  {
    if lines != [] {
      var n := |lines| - 1;
      var init := lines[..n];
      var s := Strip(lines[n]);
      CleanPortNamesMember(init, x);
      var a := Stripped(init);
      StrippedAppend(lines);
      var tail := if s != "" then [s] else [];
      assert CleanPortNames(lines) == CleanPortNames(init) + tail;
      assert x in CleanPortNames(lines) <==> x in CleanPortNames(init) || x in tail;
      assert x in Stripped(lines) <==> x in a || x == s;
    }
  }

  /** The parse keeps the order of the lines: parsing a concatenation parses each part. */
  lemma {:induction false} CleanPortNamesConcat(a: seq<string>, b: seq<string>)
    ensures CleanPortNames(a + b) == CleanPortNames(a) + CleanPortNames(b)
  {
    if b == [] {
      assert a + b == a;
    } else {
      var n := |b| - 1;
      assert (a + b)[..|a + b| - 1] == a + b[..n];
      CleanPortNamesConcat(a, b[..n]);
    }
  }

  /** Clean names are parsed back as they are. */
  lemma {:induction false} CleanPortNamesFixed(names: seq<string>)
    requires forall i :: 0 <= i < |names| ==> IsCleanName(names[i])
    ensures CleanPortNames(names) == names
  {
    if names != [] {
      var n := |names| - 1;
      CleanPortNamesFixed(names[..n]);
      StripTrimmed(names[n]);
      assert names == names[..n] + [names[n]];
    }
  }

  /** Saving clean names as `"\n".join(names)` and parsing the text gives the names back. */
  lemma PortListRoundTrip(names: seq<string>)
    requires forall i :: 0 <= i < |names| ==> IsCleanName(names[i])
    ensures PortListUpdate(JoinNewline(names)) == names
  {
    if names == [] {
      assert SplitNewline("") == [""] by {
        SplitNoNewline("");
      }
      StripEmpty("");
      assert CleanPortNames([""]) == CleanPortNames([]) + [];
    } else {
      SplitJoin(names);
      CleanPortNamesFixed(names);
    }
  }

  /** The parse is idempotent: parsing the saved form of a parse gives the same names. */
  lemma PortListIdempotent(text: string)
    ensures PortListUpdate(JoinNewline(PortListUpdate(text))) == PortListUpdate(text)
  {
    CleanNamesAreClean(SplitNewline(text));
    PortListRoundTrip(PortListUpdate(text));
  }

  /** `str(settings.value("main/ports", "")).split("\n")`, as written. */
  function InitialPortNamesAsWritten(stored: string): seq<string> {
    SplitNewline(stored)
  }

  /** The stored value for an empty port list is the empty text, and the
      split turns it into one empty name, which the sender then tries to open. */
  lemma InitialPortNamesEmptyName()
    ensures JoinNewline([]) == ""
    ensures InitialPortNamesAsWritten(JoinNewline([])) == [""]
  {
    SplitNoNewline("");
  }

  /** The loading evidently intended: the same parse as the port list, so
      that any saved list is restored exactly. */
  function InitialPortNames(stored: string): seq<string> {
    PortListUpdate(stored)
  }

  lemma InitialPortNamesRestore(names: seq<string>)
    requires forall i :: 0 <= i < |names| ==> IsCleanName(names[i])
    ensures InitialPortNames(JoinNewline(names)) == names
    ensures forall i :: 0 <= i < |InitialPortNames(JoinNewline(names))| ==> InitialPortNames(JoinNewline(names))[i] != ""
  {
    PortListRoundTrip(names);
  }

  /** `settings.value("main/frequency", 250)`: the stored frequency, or the
      sender's default when none is stored. Only whole numbers are ever stored. */
  function StoredFrequency(saved: Option<int>): int {
    if saved.Some? then saved.value else SS.DefaultFrequency
  }

  /** `settings.value("main/ports", "")`: the stored text, or the empty text. */
  function StoredPorts(saved: Option<string>): string {
    if saved.Some? then saved.value else ""
  }

  /** What one session stores is what the next one starts with: the snapped
      frequency, and, with the corrected loading, the same port names; a first
      start has the default frequency and no port names. */
  lemma SettingsSurviveRestart(value: int, text: string)
    ensures StoredFrequency(Some(Snap(value, TickInterval))) == Snap(value, TickInterval)
    ensures InitialPortNames(StoredPorts(Some(JoinNewline(PortListUpdate(text))))) == PortListUpdate(text)
    ensures StoredFrequency(None) == SS.DefaultFrequency
    ensures InitialPortNames(StoredPorts(None)) == []
  {
    PortListIdempotent(text);
    SplitNoNewline("");
    assert Strip("") == "" by { StripEmpty(""); }
  }

  /** As written, a first start also gives one empty name. */
  lemma FirstStartAsWritten()
    ensures InitialPortNamesAsWritten(StoredPorts(None)) == [""]
  {
    SplitNoNewline("");
  }

  // ---------------------------------------------------------------------
  // Elapsed time

  const MicrosPerSecond := 1000000
  const SecondsPerDay := 86400

  /** `timedelta(microseconds = micros).seconds`: the seconds within the last
      day of the difference, the whole days being dropped. */
  function TimedeltaSeconds(micros: int): (r: nat)
    ensures r < SecondsPerDay
  {
    (micros / 1000000) % 86400
  }

  /** The whole seconds of the difference, days included (`elapsed // timedelta(seconds=1)`). */
  function TotalSeconds(micros: int): int {
    micros / 1000000
  }

  /** `hours, remainder = divmod(secs, 3600)` and `minutes, seconds = divmod(remainder, 60)`. */
  datatype Hms = Hms(hours: int, minutes: nat, seconds: nat)

  function SplitSeconds(secs: int): Hms {
    var rem := secs % 3600;
    Hms(secs / 3600, rem / 60, rem % 60)
  }

  /** The parts add up to the seconds, and minutes and seconds are below 60. */
  lemma SplitSecondsSpec(secs: int)
    ensures var r := SplitSeconds(secs);
      r.hours * 3600 + r.minutes * 60 + r.seconds == secs && r.minutes < 60 && r.seconds < 60
  {
  }

  /** The split is the only one with minutes and seconds below 60: joining
      and splitting again gives the same parts. */
  lemma SplitSecondsUnique(h: int, m: nat, s: nat)
    requires m < 60 && s < 60
    ensures SplitSeconds(h * 3600 + m * 60 + s) == Hms(h, m, s)
  {
    var secs := h * 3600 + m * 60 + s;
    var r := SplitSeconds(secs);
    SplitSecondsSpec(secs);
    assert 0 <= m * 60 + s < 3600;
    assert (r.hours - h) * 3600 == (m * 60 + s) - (r.minutes * 60 + r.seconds);
    assert r.hours == h;
    assert (r.minutes - m) * 60 == s - r.seconds;
  }

  /** The label time `update_label_time` computes, as written: from `.seconds`. */
  function ElapsedAsWritten(micros: int): Hms {
    SplitSeconds(TimedeltaSeconds(micros))
  }

  /** After one day and five seconds the label shows 0:00:05. */
  lemma ElapsedAsWrittenDropsDays()
    ensures ElapsedAsWritten(86405 * MicrosPerSecond) == Hms(0, 0, 5)
    ensures TotalSeconds(86405 * MicrosPerSecond) == 86405
  {
    assert TimedeltaSeconds(86405 * MicrosPerSecond) == 5;
    SplitSecondsUnique(0, 0, 5);
  }

  /** The label time evidently intended: hours keep counting past a day. */
  function Elapsed(micros: int): Hms {
    SplitSeconds(TotalSeconds(micros))
  }

  /** The label counts every whole second since the start, days included. */
  lemma ElapsedSpec(micros: int)
    ensures var r := Elapsed(micros);
      r.hours * 3600 + r.minutes * 60 + r.seconds == micros / MicrosPerSecond
      && r.minutes < 60 && r.seconds < 60
  {
    SplitSecondsSpec(micros / 1000000);
  }

  /** `t` is what `update_label_time` shows `micros` microseconds after the
      start: the split of `elapsed.seconds`, so below one day. */
  predicate ShowsElapsed(t: Hms, micros: int) {
    t.hours * 3600 + t.minutes * 60 + t.seconds == TimedeltaSeconds(micros) && t.minutes < 60 && t.seconds < 60
  }

  /** Exactly one time is shown for a given duration: the one `ElapsedAsWritten` gives. */
  lemma ShowsElapsedUnique(t: Hms, micros: int)
    ensures ShowsElapsed(t, micros) <==> t == ElapsedAsWritten(micros)
  {
    SplitSecondsSpec(TimedeltaSeconds(micros));
    if ShowsElapsed(t, micros) {
      SplitSecondsUnique(t.hours, t.minutes, t.seconds);
    }
  }

  /** The two `divmod`s of `elapsed.seconds`, as computed on each tick; the
      hours stay below 24. */
  method ElapsedTime(micros: int) returns (t: Hms)
    ensures ShowsElapsed(t, micros)
    ensures 0 <= t.hours < 24
  {
    var secs := TimedeltaSeconds(micros);
    var rem := secs % 3600;
    t := Hms(secs / 3600, rem / 60, rem % 60);
  }

  /** Within the first day both agree. */
  lemma ElapsedAgreesFirstDay(micros: int)
    requires 0 <= micros < SecondsPerDay * MicrosPerSecond
    ensures ElapsedAsWritten(micros) == Elapsed(micros)
  {
  }

  /** `f"{h:01d}:{m:02d}:{s:02d}"`; the width 1 never pads. */
  function TimerString(t: Hms): string {
    ColonJoin(FormatInt(t.hours), Format02(t.minutes), Format02(t.seconds))
  }

  function ColonJoin(h: string, m: string, s: string): string {
    h + ":" + m + ":" + s
  }

  /** Where the pieces of `h:m:s` sit when `m` and `s` have two characters. */
  lemma ColonJoinFields(h: string, m: string, s: string)
    requires |m| == 2 && |s| == 2
    ensures var r := ColonJoin(h, m, s);
      |r| == |h| + 6 && r[|r| - 3] == ':' && r[|r| - 6] == ':'
      && r[..|r| - 6] == h && r[|r| - 5..|r| - 3] == m && r[|r| - 2..] == s
  {
  }

  lemma TimerFields(h: int, m: nat, s: nat)
    requires m < 60 && s < 60
    ensures var r := ColonJoin(FormatInt(h), Format02(m), Format02(s));
      |r| >= 7 && r[|r| - 3] == ':' && r[|r| - 6] == ':'
      && r[..|r| - 6] == FormatInt(h)
      && r[|r| - 5..|r| - 3] == Format02(m)
      && r[|r| - 2..] == Format02(s)
  {
    ColonJoinFields(FormatInt(h), Format02(m), Format02(s));
  }

  /** The timer text reads back as its parts: the last two digits are the
      seconds, the two before the second colon the minutes, and what is
      before the first of the two colons the hours. */
  lemma TimerStringParts(t: Hms)
    requires t.minutes < 60 && t.seconds < 60
    ensures var r := TimerString(t);
      |r| >= 7 && r[|r| - 3] == ':' && r[|r| - 6] == ':'
      && r[..|r| - 6] == FormatInt(t.hours)
      && r[|r| - 5..|r| - 3] == Format02(t.minutes)
      && r[|r| - 2..] == Format02(t.seconds)
  {
    assert TimerString(t) == ColonJoin(FormatInt(t.hours), Format02(t.minutes), Format02(t.seconds));
    TimerFields(t.hours, t.minutes, t.seconds);
  }

  /** The status label while active. */
  function ActiveLabel(timer: string): string {
    "Active (" + timer + ")"
  }

  /** The status line `update_label_time` writes; the carriage return makes
      the log tab replace its last line with it. */
  function SendingLine(timer: string): (r: string)
    ensures |r| > 0 && r[0] == '\r' && '\r' in r
  {
    assert ("\r" + SendingText(timer))[0] == '\r';
    "\r" + SendingText(timer)
  }

  /** The text the status line leaves in the log tab. */
  function SendingText(timer: string): string {
    "Sending data (" + timer + ")"
  }

  /** No line break of either kind. */
  predicate OnOneLine(s: string) {
    '\n' !in s && '\r' !in s
  }

  lemma DigitStringOnOneLine(s: string)
    requires forall i :: 0 <= i < |s| ==> IsDigit(s[i])
    ensures OnOneLine(s)
  {
  }

  lemma ColonJoinOnOneLine(h: string, m: string, s: string)
    requires OnOneLine(h) && OnOneLine(m) && OnOneLine(s)
    ensures OnOneLine(ColonJoin(h, m, s))
  {
  }

  /** The formatted timer is a single line. */
  lemma TimerOnOneLine(t: Hms)
    ensures OnOneLine(TimerString(t))
  {
    var h := FormatInt(t.hours);
    var m := Format02(t.minutes);
    var s := Format02(t.seconds);
    if t.hours < 0 {
      DigitStringOnOneLine(Digits(-t.hours));
      assert h == "-" + Digits(-t.hours);
    } else {
      DigitStringOnOneLine(Digits(t.hours));
    }
    DigitStringOnOneLine(m);
    DigitStringOnOneLine(s);
    ColonJoinOnOneLine(h, m, s);
    assert TimerString(t) == ColonJoin(h, m, s);
  }

  lemma SendingTextOnOneLine(timer: string)
    requires OnOneLine(timer)
    ensures OnOneLine(SendingText(timer))
  {
  }

  /** Each tick's status line, written straight to the log tab, replaces the
      last line there by `Sending data (h:mm:ss)`: the number of lines stays
      the same, and the next ordinary message starts on a line of its own. */
  lemma {:induction false} TickReplacesLastLine(st: LoggerState, t: Hms)
    requires WellFormed(st.blocks)
    ensures DirectWrite(st, SendingLine(TimerString(t)))
      == LoggerState(LoggerFlags(false, true), st.blocks[..|st.blocks| - 1] + [SendingText(TimerString(t))])
  {
    var text := SendingText(TimerString(t));
    TimerOnOneLine(t);
    SendingTextOnOneLine(TimerString(t));
    var msg := SendingLine(TimerString(t));
    assert msg == "\r" + text;
    assert '\n' !in msg;
    StatusOverwrites(st, msg);
    RemoveCharConcat("\r", text, '\r');
    RemoveCharAbsent(text, '\r');
    assert RemoveChar("\r", '\r') == [] + RemoveChar([], '\r');
    assert RemoveChar(msg, '\r') == text;
  }

  // ---------------------------------------------------------------------
  // Control tab

  /** `QTMainTab`. The sender is the `serialsender` one; `portList` is the
      port-list text box; `savedFrequency` and `savedPorts` are what the
      tab stored in the settings; `activeStart` is the clock reading, in
      microseconds, when the sender was started. */
  class QTMainTab {
    var serialActive: bool
    var serialFrequency: int
    var serialPortNames: seq<string>
    var sender: SS.SerialSender
    const portList: TextEdit
    var sliderValue: int
    var sliderEnabled: bool
    var portListEnabled: bool
    var statusLabel: string
    var buttonText: string
    var frequencyLabel: string
    var savedFrequency: Option<int>
    var savedPorts: Option<string>
    var activeStart: int
    var activeTime: Hms

    /** The slider and the port list can be edited exactly while the sender
        is inactive. */
    ghost predicate Valid()
      reads this, portList
    {
      portList.Valid() && sliderEnabled == !serialActive && portListEnabled == !serialActive
    }

    /** No port is listed twice by the sender. A stop whose close raised
        may leave closed ports listed, and the tab may then stop again. */
    ghost predicate SenderValid()
      reads this`sender, sender`serialPorts
    {
      Lists.NoDup(sender.serialPorts)
    }

    /** `QTMainTab.__init__`: inactive, with a sender over the initial names
        that is not started, the slider at the initial frequency (clamped to
        its range) and the names one per line in the port list. */
    constructor (initFreq: int, initPorts: seq<string>)
      ensures Valid() && SenderValid() && fresh(portList) && fresh(sender)
      ensures !serialActive && serialFrequency == initFreq && serialPortNames == initPorts
      ensures sender.portNames == initPorts && sender.serialPorts == [] && !sender.started
      ensures sliderValue == Clamp(initFreq, SliderMin, SliderMax)
      ensures frequencyLabel == FormatInt(initFreq) + " ms"
      ensures portList.PlainText() == JoinNewline(initPorts)
      ensures statusLabel == "Inactive" && buttonText == "Start serial"
      ensures savedFrequency == None && savedPorts == None
    {
      var list := new TextEdit();
      list.SetText(JoinNewline(initPorts));
      portList := list;
      serialActive := false;
      serialFrequency := initFreq;
      serialPortNames := initPorts;
      sender := new SS.SerialSender(initPorts);
      sliderValue := Clamp(initFreq, SliderMin, SliderMax);
      sliderEnabled := true;
      portListEnabled := true;
      statusLabel := "Inactive";
      buttonText := "Start serial";
      frequencyLabel := FormatInt(initFreq) + " ms";
      savedFrequency := None;
      savedPorts := None;
      activeStart := 0;
      activeTime := Hms(0, 0, 0);
    }

    /** `freq_slider_update(value)`, run on `valueChanged` once the slider
        has moved to `value`: snap to the nearest multiple of the tick, put
        the slider there when it was off, and use and store it. */
    method FreqSliderUpdate(value: int)
      requires sliderValue == value
      modifies this`sliderValue, this`serialFrequency, this`frequencyLabel, this`savedFrequency
      ensures serialFrequency == Snap(value, TickInterval)
      ensures sliderValue == (if value != serialFrequency then Clamp(serialFrequency, SliderMin, SliderMax) else value)
      ensures frequencyLabel == FormatInt(serialFrequency) + " ms"
      ensures savedFrequency == Some(serialFrequency)
    {
      var tick := TickInterval;
      var snapped := RoundHalfEven(value, tick) * tick;
      if value != snapped {
        sliderValue := Clamp(snapped, SliderMin, SliderMax);
      }
      serialFrequency := snapped;
      frequencyLabel := FormatInt(serialFrequency) + " ms";
      savedFrequency := Some(serialFrequency);
    }

    /** `start_stop_serial`. Stopping stops the sender and, when no close
        raises, marks the tab inactive and unlocks the controls; a close that
        raises ends the slot there, with the tab still active. Starting
        builds a new sender over the current names, starts it with the
        current frequency, and locks the controls. */
    method StartStopSerial(closeFails: set<Pyserial.SerialPort>, now: int, out: SS.Stdout)
      requires Valid() && SenderValid()
      modifies this`sender, this`serialActive, this`activeStart, this`statusLabel, this`buttonText
      modifies this`sliderEnabled, this`portListEnabled
      modifies sender`serialPorts, sender`sending, sender.serialPorts`isOpen, out`writes
      ensures Valid() && SenderValid()
      ensures old(serialActive) ==>
        sender == old(sender)
        && (serialActive <==> exists i :: 0 <= i < |old(sender.serialPorts)| && old(sender.serialPorts)[i] in closeFails)
        && !sender.sending
        && (!serialActive ==> sender.serialPorts == [] && statusLabel == "Inactive" && buttonText == "Start serial")
        && (serialActive ==> sender.serialPorts == old(sender.serialPorts) && statusLabel == old(statusLabel) && buttonText == old(buttonText))
        && (forall i :: 0 <= i < |old(sender.serialPorts)| ==>
              old(sender.serialPorts)[i].isOpen == (SS.FirstIn(old(sender.serialPorts), closeFails) <= i && old(sender.serialPorts[i].isOpen)))
        && out.writes == old(out.writes) + ["STOPPING SERIAL COMMUNICATION", "\n"]
      ensures !old(serialActive) ==>
        serialActive && fresh(sender) && sender.portNames == serialPortNames && sender.serialPorts == []
        && SenderValid() && sender.started && sender.frequency == serialFrequency && activeStart == now
        && statusLabel == "Active (00:00:00)" && buttonText == "Stop serial"
        && out.writes == old(out.writes) + ["STARTING SERIAL COMMUNICATION", "\n"]
      ensures serialFrequency == old(serialFrequency) && serialPortNames == old(serialPortNames)
    {
      if serialActive {
        StopSerial(closeFails, out);
      } else {
        StartSerial(now, out);
      }
    }

    /** The stopping branch of `start_stop_serial`. */
    method StopSerial(closeFails: set<Pyserial.SerialPort>, out: SS.Stdout)
      requires Valid() && SenderValid() && serialActive
      modifies this`serialActive, this`statusLabel, this`buttonText, this`sliderEnabled, this`portListEnabled
      modifies sender`serialPorts, sender`sending, sender.serialPorts`isOpen, out`writes
      ensures Valid() && SenderValid() && !sender.sending
      ensures serialActive <==> exists i :: 0 <= i < |old(sender.serialPorts)| && old(sender.serialPorts)[i] in closeFails
      ensures !serialActive ==> sender.serialPorts == [] && statusLabel == "Inactive" && buttonText == "Start serial"
      ensures serialActive ==> sender.serialPorts == old(sender.serialPorts) && statusLabel == old(statusLabel) && buttonText == old(buttonText)
      ensures forall i :: 0 <= i < |old(sender.serialPorts)| ==>
        old(sender.serialPorts)[i].isOpen == (SS.FirstIn(old(sender.serialPorts), closeFails) <= i && old(sender.serialPorts[i].isOpen))
      ensures out.writes == old(out.writes) + ["STOPPING SERIAL COMMUNICATION", "\n"]
    {
      var ok := sender.Stop(closeFails, out);
      if !ok {
        return;
      }
      serialActive := false;
      statusLabel := "Inactive";
      buttonText := "Start serial";
      sliderEnabled := true;
      portListEnabled := true;
    }

    /** The starting branch of `start_stop_serial`, at the clock reading `now`. */
    method StartSerial(now: int, out: SS.Stdout)
      requires Valid() && !serialActive
      modifies this`sender, this`serialActive, this`activeStart, this`statusLabel, this`buttonText
      modifies this`sliderEnabled, this`portListEnabled, out`writes
      ensures Valid()
      ensures serialActive && fresh(sender) && sender.portNames == serialPortNames && sender.serialPorts == []
        && SenderValid() && sender.started && sender.frequency == serialFrequency && activeStart == now
        && statusLabel == "Active (00:00:00)" && buttonText == "Stop serial"
      ensures out.writes == old(out.writes) + ["STARTING SERIAL COMMUNICATION", "\n"]
    {
      sender := new SS.SerialSender(serialPortNames);
      sender.Start(serialFrequency, out);
      serialActive := true;
      activeStart := now;
      statusLabel := "Active (00:00:00)";
      buttonText := "Stop serial";
      sliderEnabled := false;
      portListEnabled := false;
    }

    /** `serial_port_list_update`, on a change of the list's text `text`:
        parse it and store it one name per line. */
    method SerialPortListUpdate(text: string)
      requires text == portList.PlainText()
      modifies this`serialPortNames, this`savedPorts
      ensures serialPortNames == PortListUpdate(text)
      ensures savedPorts == Some(JoinNewline(serialPortNames))
    {
      serialPortNames := PortListUpdate(text);
      savedPorts := Some(JoinNewline(serialPortNames));
    }

    /** `update_label_time`, on each timer tick with the clock reading `now`:
        while active, show the time since the start, from the seconds within
        its last day, and write it to standard output after a carriage return. */
    method UpdateLabelTime(now: int, out: SS.Stdout)
      modifies this`activeTime, this`statusLabel, out
      ensures !old(serialActive) ==> activeTime == old(activeTime) && statusLabel == old(statusLabel) && out.writes == old(out.writes)
      ensures old(serialActive) ==> ShowsElapsed(activeTime, now - activeStart) && 0 <= activeTime.hours < 24
      ensures old(serialActive) ==> statusLabel == ActiveLabel(TimerString(activeTime))
      ensures old(serialActive) ==> out.writes == old(out.writes) + [SendingLine(TimerString(activeTime))]
    {
      if serialActive {
        var t := ElapsedTime(now - activeStart);
        ShowTime(t, out);
        assert activeStart == old(activeStart);
      }
    }

    /** The label and the status line for the elapsed time `t`. */
    method ShowTime(t: Hms, out: SS.Stdout)
      modifies this`activeTime, this`statusLabel, out
      ensures activeTime == t
      ensures statusLabel == ActiveLabel(TimerString(t))
      ensures out.writes == old(out.writes) + [SendingLine(TimerString(t))]
    {
      var timer := TimerString(t);
      activeTime := t;
      statusLabel := ActiveLabel(timer);
      out.Write(SendingLine(timer));
    }
  }

  // ---------------------------------------------------------------------
  // Log tab and main window

  /** The log tab: a read-only text widget and the bridge that writes into it. */
  class QTLogTab {
    const logArea: TextEdit
    const logger: QTextEditLogger

    ghost predicate Valid()
      reads this, logger, logger.textEdit
    {
      logger.textEdit == logArea && logger.Valid()
    }

    /** `QTLogTab.__init__`: an empty log, after `append("")` on the empty
        widget, and a bridge with no pending newline or overwrite. */
    constructor ()
      ensures Valid() && fresh(logArea) && fresh(logger)
      ensures logArea.blocks == [""]
      ensures !logger.lastLineOverwrite && !logger.needsNewline
    {
      var area := new TextEdit();
      logArea := area;
      logger := new QTextEditLogger(area);
    }

    /** `clear_logs`: the log is replaced by one line saying so, and the
        cursor sits on the empty line after it. The bridge keeps its flags. */
    method ClearLogs()
      requires Valid()
      modifies logArea
      ensures Valid()
      ensures logArea.PlainText() == "Cleared logs\n"
      ensures logArea.blocks == ClearedLines()
      ensures logger.lastLineOverwrite == old(logger.lastLineOverwrite)
      ensures logger.needsNewline == old(logger.needsNewline)
    {
      logArea.SetText("Cleared logs\n");
      ClearedLinesSplit();
    }
  }

  function ClearedLines(): seq<string> {
    ["Cleared logs", ""]
  }

  /** The cleared log has two lines: the message, and an empty one after it. */
  lemma ClearedLinesSplit()
    ensures SplitNewline("Cleared logs\n") == ClearedLines()
  {
    var msg := "Cleared logs";
    assert '\n' !in msg;
    SplitAfterLine(msg, "");
    SplitNoNewline("");
    assert msg + "\n" + "" == "Cleared logs\n";
  }

  /** `MainWindow.__init__`: the control tab starts from the stored settings,
      the port list split on newlines as it is stored, and the log tab starts
      empty. */
  class MainWindow {
    const mainTab: QTMainTab
    const logTab: QTLogTab

    constructor (savedFrequency: Option<int>, savedPorts: Option<string>)
      ensures fresh(mainTab) && fresh(logTab)
      ensures mainTab.Valid() && mainTab.SenderValid() && logTab.Valid()
      ensures !mainTab.serialActive
      ensures mainTab.serialFrequency == StoredFrequency(savedFrequency)
      ensures mainTab.serialPortNames == InitialPortNamesAsWritten(StoredPorts(savedPorts))
      ensures savedPorts == None ==> mainTab.serialPortNames == [""]
      ensures logTab.logArea.blocks == [""]
    {
      mainTab := new QTMainTab(StoredFrequency(savedFrequency), InitialPortNamesAsWritten(StoredPorts(savedPorts)));
      FirstStartAsWritten();
      logTab := new QTLogTab();
    }

    /** The `finally` clause when the application ends: the sender is stopped
        when the control tab is active. */
    method Shutdown(closeFails: set<Pyserial.SerialPort>, out: SS.Stdout)
      requires mainTab.SenderValid()
      modifies mainTab.sender`serialPorts, mainTab.sender`sending, mainTab.sender.serialPorts`isOpen, out`writes
      ensures mainTab.serialActive ==> out.writes == old(out.writes) + ["STOPPING SERIAL COMMUNICATION", "\n"] && !mainTab.sender.sending
      ensures mainTab.serialActive && (forall i :: 0 <= i < |old(mainTab.sender.serialPorts)| ==> old(mainTab.sender.serialPorts)[i] !in closeFails)
        ==> mainTab.sender.serialPorts == []
      ensures mainTab.serialActive ==> forall i :: 0 <= i < |old(mainTab.sender.serialPorts)| ==>
        old(mainTab.sender.serialPorts)[i].isOpen
          == (SS.FirstIn(old(mainTab.sender.serialPorts), closeFails) <= i && old(mainTab.sender.serialPorts[i].isOpen))
      ensures !mainTab.serialActive ==> out.writes == old(out.writes) && unchanged(mainTab.sender) && unchanged(mainTab.sender.serialPorts)
    {
      if mainTab.serialActive {
        var _ := mainTab.sender.Stop(closeFails, out);
      }
    }
  }
}
