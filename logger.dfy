/** The in-app log of `logger.py`: the `log_*` functions put typed messages on
    a queue, and a timer drains the queue into the log's text widget. A
    `STATUS` message is kept pinned as the last line: a later message of
    another type is written above it and the status line is put back under it. */
module Logger {
  import opened Wrappers
  import opened Text
  import opened TextDocument

  datatype LogType = INFO | STATUS | WARNING | ERROR {
    /** The enum member's `.name`. */
    function Name(): (r: string)
      ensures |r| >= 1 && '\n' !in r
    {
      match this
      case INFO => "INFO"
      case STATUS => "STATUS"
      case WARNING => "WARNING"
      case ERROR => "ERROR"
    }
  }

  /** One `(type, msg)` tuple of the queue. */
  datatype LogEntry = LogEntry(kind: LogType, msg: string)

  /** The one non-status message that does not put the status line back,
      "Stopping serial communication". It is spelled as three pieces only
      because the verifier reasons about short literals more cheaply. */
  const StoppingMessage := "Stopping" + " serial" + " communication"

  /** The line a message is shown as: `f"{type.name}: {msg}"`. */
  function Line(e: LogEntry): (r: string)
    ensures |r| > |e.msg|
    ensures '\n' !in e.msg ==> '\n' !in r
  {
    e.kind.Name() + ": " + e.msg
  }

  /** What the widget shows, together with the type of the last processed message. */
  datatype View = View(blocks: seq<string>, last: Option<LogType>)

  /** Whether a message arriving under a status line puts that status line back below it. */
  predicate Repins(e: LogEntry) {
    e.kind != STATUS && e.msg != StoppingMessage
  }

  /** One pass of the body of `process_log_queue`'s loop. With no previous
      message, the last line is replaced by the message; after a status
      message, the status line is replaced and, for a message that repins,
      the status line is inserted again below it; otherwise the message is
      appended on a new line. */
  function Render(v: View, e: LogEntry): (r: View)
    requires WellFormed(v.blocks)
    ensures WellFormed(r.blocks)
    ensures r.last.Some?
    ensures r.last == Some(STATUS) <==> e.kind == STATUS || (v.last == Some(STATUS) && Repins(e))
    ensures r.last != Some(STATUS) ==> r.last == Some(e.kind)
  {
    match v.last
    case None => View(ReplaceLast(v.blocks, Line(e)), Some(e.kind))
    case Some(STATUS) =>
      var status := LastLine(v.blocks);
      var replaced := ReplaceLast(v.blocks, Line(e));
      if Repins(e) then View(Insert(replaced, "\n" + status), Some(STATUS))
      else View(replaced, Some(e.kind))
    case Some(_) => View(Insert(v.blocks, "\n" + Line(e)), Some(e.kind))
  }

  /* The four cases of `Render`, one lemma each, so that proofs about one
     case do not unfold the others. */

  lemma RenderFirst(v: View, e: LogEntry)
    requires WellFormed(v.blocks) && v.last == None
    ensures Render(v, e) == View(ReplaceLast(v.blocks, Line(e)), Some(e.kind))
  {
  }

  lemma RenderUnderStatus(v: View, e: LogEntry)
    requires WellFormed(v.blocks) && v.last == Some(STATUS) && Repins(e)
    ensures WellFormed(ReplaceLast(v.blocks, Line(e)))
    ensures Render(v, e) == View(Insert(ReplaceLast(v.blocks, Line(e)), "\n" + LastLine(v.blocks)), Some(STATUS))
  {
  }

  lemma RenderOverStatus(v: View, e: LogEntry)
    requires WellFormed(v.blocks) && v.last == Some(STATUS) && !Repins(e)
    ensures Render(v, e) == View(ReplaceLast(v.blocks, Line(e)), Some(e.kind))
  {
  }

  lemma RenderAppend(v: View, e: LogEntry)
    requires WellFormed(v.blocks) && v.last.Some? && v.last != Some(STATUS)
    ensures Render(v, e) == View(Insert(v.blocks, "\n" + Line(e)), Some(e.kind))
  {
  }

  /** Draining a queue `es`: its messages are rendered first to last. */
  function RenderAll(v: View, es: seq<LogEntry>): (r: View)
    requires WellFormed(v.blocks)
    ensures WellFormed(r.blocks)
    ensures es == [] ==> r == v
    ensures es != [] ==> r.last.Some?
    decreases |es|
  {
    if es == [] then v else RenderAll(Render(v, es[0]), es[1..])
  }

  lemma RenderAllFirst(v: View, es: seq<LogEntry>)
    requires WellFormed(v.blocks) && es != []
    ensures RenderAll(v, es) == RenderAll(Render(v, es[0]), es[1..])
  {
  }

  /** The queue is first in, first out: draining `a + b` at once is draining
      `a` and then `b`, so the timer may split the queue anywhere. */
  lemma {:induction false} RenderAllConcat(v: View, a: seq<LogEntry>, b: seq<LogEntry>)
    requires WellFormed(v.blocks)
    ensures RenderAll(v, a + b) == RenderAll(RenderAll(v, a), b)
    decreases |a|
  {
    if a == [] {
      assert a + b == b;
    } else {
      assert (a + b)[0] == a[0];
      assert (a + b)[1..] == a[1..] + b;
      RenderAllConcat(Render(v, a[0]), a[1..], b);
    }
  }

  /** The first message after start-up or after clearing replaces the last
      line; in a cleared widget it is then the whole text. */
  lemma FirstMessage(v: View, e: LogEntry)
    requires WellFormed(v.blocks) && v.last == None
    ensures JoinNewline(Render(v, e).blocks) == JoinNewline(v.blocks[..|v.blocks| - 1] + [""]) + Line(e)
    ensures v.blocks == [""] ==> JoinNewline(Render(v, e).blocks) == Line(e)
  {
    RenderFirst(v, e);
    ReplaceLastText(v.blocks, Line(e));
    if v.blocks == [""] {
      assert v.blocks[..0] + [""] == [""];
    }
  }

  /** After an info, warning or error message, the next message is appended
      to the text on a line of its own. */
  lemma Appended(v: View, e: LogEntry)
    requires WellFormed(v.blocks) && v.last.Some? && v.last != Some(STATUS)
    ensures JoinNewline(Render(v, e).blocks) == JoinNewline(v.blocks) + "\n" + Line(e)
    ensures '\n' !in e.msg ==> Render(v, e).blocks == v.blocks + [Line(e)]
  {
    RenderAppend(v, e);
    InsertAppendsText(v.blocks, "\n" + Line(e));
    if '\n' !in e.msg {
      InsertLine(v.blocks, Line(e));
    }
  }

  /** A status message after a status message overwrites the status line in place. */
  lemma StatusReplacedInPlace(v: View, e: LogEntry)
    requires WellFormed(v.blocks) && v.last == Some(STATUS)
    requires e.kind == STATUS && '\n' !in e.msg
    ensures Render(v, e).blocks == v.blocks[..|v.blocks| - 1] + [Line(e)]
    ensures |Render(v, e).blocks| == |v.blocks|
    ensures Render(v, e).last == Some(STATUS)
  {
    RenderOverStatus(v, e);
    ReplaceLine(v.blocks, Line(e));
  }

  /** Any other message under a status line takes the status line's place and
      the status line moves down below it; the status stays the last line. */
  lemma StatusRepinned(v: View, e: LogEntry)
    requires WellFormed(v.blocks) && v.last == Some(STATUS)
    requires Repins(e) && '\n' !in e.msg
    ensures Render(v, e).blocks == v.blocks[..|v.blocks| - 1] + [Line(e), LastLine(v.blocks)]
    ensures Render(v, e).last == Some(STATUS)
  {
    var status := LastLine(v.blocks);
    var replaced := ReplaceLast(v.blocks, Line(e));
    RenderUnderStatus(v, e);
    ReplaceLine(v.blocks, Line(e));
    assert '\n' !in status;
    InsertLine(replaced, status);
  }

  lemma StoppingSingleLine(e: LogEntry)
    requires e.msg == StoppingMessage
    ensures '\n' !in Line(e)
  {
  }

  /** "Stopping serial communication" overwrites the status line and is not
      followed by it: the status is gone from the log. */
  lemma StoppingUnpins(v: View, e: LogEntry)
    requires WellFormed(v.blocks) && v.last == Some(STATUS)
    requires e.kind != STATUS && e.msg == StoppingMessage
    ensures Render(v, e).blocks == v.blocks[..|v.blocks| - 1] + [Line(e)]
    ensures Render(v, e).last == Some(e.kind)
  {
    StoppingSingleLine(e);
    RenderOverStatus(v, e);
    ReplaceLine(v.blocks, Line(e));
  }

  /** The lines messages are shown as, in order. */
  function Lines(es: seq<LogEntry>): (r: seq<string>)
    ensures |r| == |es|
    ensures forall i :: 0 <= i < |es| ==> r[i] == Line(es[i])
  {
    if es == [] then [] else [Line(es[0])] + Lines(es[1..])
  }

  /** The status line `status` is pinned at the bottom of the log. */
  predicate Pinned(v: View, status: string) {
    v.last == Some(STATUS) && |v.blocks| >= 1 && LastLine(v.blocks) == status
  }

  lemma PinnedStep(v: View, status: string, e: LogEntry)
    requires WellFormed(v.blocks) && Pinned(v, status)
    requires Repins(e) && '\n' !in e.msg
    ensures Pinned(Render(v, e), status)
    ensures Render(v, e).blocks[..|Render(v, e).blocks| - 1] == v.blocks[..|v.blocks| - 1] + [Line(e)]
  {
    StatusRepinned(v, e);
  }

  /** Every message repins and fits on one line. */
  predicate AllRepinSingleLine(es: seq<LogEntry>) {
    forall i :: 0 <= i < |es| ==> Repins(es[i]) && '\n' !in es[i].msg
  }

  lemma AllRepinSingleLineTail(es: seq<LogEntry>)
    requires es != [] && AllRepinSingleLine(es)
    ensures Repins(es[0]) && '\n' !in es[0].msg && AllRepinSingleLine(es[1..])
  {
    assert forall i :: 0 <= i < |es[1..]| ==> es[1..][i] == es[i + 1];
  }

  lemma RegroupLines(init: seq<string>, first: string, rest: seq<string>, status: string)
    ensures (init + [first]) + rest + [status] == init + ([first] + rest) + [status]
  {
  }

  /** A run of repinning single-line messages under a pinned status line is
      inserted, in order, above that status line, which stays pinned. */
  lemma {:induction false} StatusStaysPinned(v: View, status: string, es: seq<LogEntry>)
    requires WellFormed(v.blocks) && Pinned(v, status)
    requires AllRepinSingleLine(es)
    ensures RenderAll(v, es).blocks == v.blocks[..|v.blocks| - 1] + Lines(es) + [status]
    ensures Pinned(RenderAll(v, es), status)
    decreases |es|
  {
    var init := v.blocks[..|v.blocks| - 1];
    if es == [] {
      assert init + Lines(es) + [status] == v.blocks;
    } else {
      var w := Render(v, es[0]);
      var rest := es[1..];
      assert RenderAll(v, es) == RenderAll(w, rest);
      AllRepinSingleLineTail(es);
      PinnedStep(v, status, es[0]);
      StatusStaysPinned(w, status, rest);
      assert Lines(es) == [Line(es[0])] + Lines(rest);
      RegroupLines(init, Line(es[0]), Lines(rest), status);
    }
  }

  /** The log: the module's `log_queue` and `last_log_type` globals, and the
      records handed to Python's `logging` module. */
  class Log {
    var queue: seq<LogEntry>
    var lastLogType: Option<LogType>
    var records: seq<LogEntry>

    constructor ()
      ensures queue == [] && lastLogType == None && records == []
    {
      queue := [];
      lastLogType := None;
      records := [];
    }

    /** `log_info(msg)`: logged to `logging` and queued. */
    method LogInfo(msg: string)
      modifies this`queue, this`records
      ensures queue == old(queue) + [LogEntry(INFO, msg)]
      ensures records == old(records) + [LogEntry(INFO, msg)]
    {
      queue := queue + [LogEntry(INFO, msg)];
      records := records + [LogEntry(INFO, msg)];
    }

    /** `log_status(msg)`: queued only; status messages never reach `logging`. */
    method LogStatus(msg: string)
      modifies this`queue
      ensures queue == old(queue) + [LogEntry(STATUS, msg)]
    {
      queue := queue + [LogEntry(STATUS, msg)];
    }

    /** `log_warning(msg)`: logged to `logging` and queued. */
    method LogWarning(msg: string)
      modifies this`queue, this`records
      ensures queue == old(queue) + [LogEntry(WARNING, msg)]
      ensures records == old(records) + [LogEntry(WARNING, msg)]
    {
      queue := queue + [LogEntry(WARNING, msg)];
      records := records + [LogEntry(WARNING, msg)];
    }

    /** `log_error(msg)`: logged to `logging` and queued. */
    method LogError(msg: string)
      modifies this`queue, this`records
      ensures queue == old(queue) + [LogEntry(ERROR, msg)]
      ensures records == old(records) + [LogEntry(ERROR, msg)]
    {
      queue := queue + [LogEntry(ERROR, msg)];
      records := records + [LogEntry(ERROR, msg)];
    }

    /** `clear_log`: forget the last type, empty the widget, and queue "Logs cleared". */
    method ClearLog(text: TextEdit)
      modifies this`queue, this`records, this`lastLogType, text
      ensures lastLogType == None
      ensures text.Valid() && text.blocks == [""]
      ensures queue == old(queue) + [LogEntry(INFO, "Logs cleared")]
      ensures records == old(records) + [LogEntry(INFO, "Logs cleared")]
    {
      lastLogType := None;
      text.SetText("");
      LogInfo("Logs cleared");
    }

    /** `process_log_queue`: drain the queue into the widget, oldest message first. */
    method ProcessLogQueue(text: TextEdit)
      requires text.Valid()
      modifies this`queue, this`lastLogType, text
      ensures queue == []
      ensures text.Valid()
      ensures View(text.blocks, lastLogType) == RenderAll(View(old(text.blocks), old(lastLogType)), old(queue))
    {
      ghost var goal := RenderAll(View(text.blocks, lastLogType), queue);
      while queue != []
        invariant text.Valid()
        invariant RenderAll(View(text.blocks, lastLogType), queue) == goal
        decreases |queue|
      {
        DisplayNext(text);
      }
    }

    /** One turn of `process_log_queue`'s loop: take the oldest message off
        the queue and display it; what is left to render comes out the same. */
    method DisplayNext(text: TextEdit)
      requires text.Valid() && queue != []
      modifies this`queue, this`lastLogType, text
      ensures text.Valid() && queue == old(queue[1..])
      ensures RenderAll(View(text.blocks, lastLogType), queue)
           == RenderAll(View(old(text.blocks), old(lastLogType)), old(queue))
    {
      var e := queue[0];
      RenderAllFirst(View(text.blocks, lastLogType), queue);
      queue := queue[1..];
      DisplayEntry(e, text);
    }

    /** The body of `process_log_queue`'s loop for one message `e`. */
    method DisplayEntry(e: LogEntry, text: TextEdit)
      requires text.Valid()
      modifies this`lastLogType, text
      ensures text.Valid()
      ensures View(text.blocks, lastLogType) == Render(View(old(text.blocks), old(lastLogType)), e)
    {
      ghost var v0 := View(text.blocks, lastLogType);
      if lastLogType == None {
        RenderFirst(v0, e);
        text.ReplaceLastLine(Line(e));
        lastLogType := Some(e.kind);
      } else if lastLogType == Some(STATUS) {
        var lastStatus := text.LastBlock();
        text.ReplaceLastLine(Line(e));
        if Repins(e) {
          RenderUnderStatus(v0, e);
          text.InsertText("\n" + lastStatus);
          lastLogType := Some(STATUS);
        } else {
          RenderOverStatus(v0, e);
          lastLogType := Some(e.kind);
        }
      } else {
        RenderAppend(v0, e);
        text.InsertText("\n" + Line(e));
        lastLogType := Some(e.kind);
      }
    }
  }
}
