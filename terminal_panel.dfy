/** The terminal panel's log scrollback (src/components/panels/TerminalPanel.tsx):
    the entries the log-stream socket's handlers and the clear button add.
    The clock is a parameter: every handler receives the formatted time of
    day it would have read.  JSON decoding of a frame is a parameter too: it
    yields the record's level and message, or nothing when `JSON.parse` (or
    reading a field of its result) throws. */
module TerminalPanel {
  import opened Collections

  /** One line of the scrollback. */
  datatype LogEntry = LogEntry(timestamp: string, level: string, message: string)

  /** A decoded frame; the empty level stands for a missing or falsy one. */
  datatype LogRecord = LogRecord(level: string, message: string)

  type Decoder = string -> Option<LogRecord>

  const OpenMessage := "Terminal connected to backend log stream"
  const ErrorMessage := "WebSocket connection error"
  const CloseMessage := "Disconnected from backend. Reconnecting in 5s..."
  const ClearedMessage := "Terminal cleared"

  /** The level of a decoded record: `logData.level || 'info'`. */
  function LevelOr(level: string): (r: string)
    ensures r != ""
    ensures level != "" ==> r == level
  {
    if level == "" then "info" else level
  }

  /** The entry `onmessage` adds for a frame: a decoded frame keeps its
      message and its level, info standing in for a falsy one; a frame that
      does not decode is shown verbatim at info. */
  function MessageEntry(decoded: Option<LogRecord>, data: string, timestamp: string): (e: LogEntry)
    ensures e.timestamp == timestamp && e.level != ""
    ensures decoded.Some? ==> e.message == decoded.value.message
    ensures decoded.Some? && decoded.value.level != "" ==> e.level == decoded.value.level
    ensures decoded.Some? && decoded.value.level == "" ==> e.level == "info"
    ensures decoded.None? ==> e == LogEntry(timestamp, "info", data)
  {
    match decoded
    case Some(rec) => LogEntry(timestamp, LevelOr(rec.level), rec.message)
    case None => LogEntry(timestamp, "info", data)
  }

  /** What happens on the log stream or in the panel. */
  datatype TerminalEvent = Opened | Message(data: string) | Errored | Closed | Cleared

  /** An event with the time of day at which it happened. */
  datatype Stamped = Stamped(event: TerminalEvent, timestamp: string)

  /** The entry an event other than clearing appends. */
  function EntryFor(ev: Stamped, decode: Decoder): LogEntry {
    match ev.event
    case Opened => LogEntry(ev.timestamp, "info", OpenMessage)
    case Message(data) => MessageEntry(decode(data), data, ev.timestamp)
    case Errored => LogEntry(ev.timestamp, "error", ErrorMessage)
    case Closed => LogEntry(ev.timestamp, "warn", CloseMessage)
    case Cleared => LogEntry(ev.timestamp, "info", ClearedMessage)
  }

  /** The scrollback after a history of events: each appends its entry, and
      clearing replaces everything with the one "cleared" entry. */
  function Replay(history: seq<Stamped>, decode: Decoder): seq<LogEntry> {
    if history == [] then []
    else
      var last := history[|history| - 1];
      if last.event == Cleared then [EntryFor(last, decode)]
      else Replay(history[..|history| - 1], decode) + [EntryFor(last, decode)]
  }

  /** Without a clear, the scrollback has one entry per event, each the
      event's own entry, and later events leave earlier entries alone. */
  lemma {:induction false} ReplayAppends(history: seq<Stamped>, more: seq<Stamped>, decode: Decoder)
    requires forall i :: 0 <= i < |more| ==> more[i].event != Cleared
    ensures |Replay(history + more, decode)| == |Replay(history, decode)| + |more|
    ensures Replay(history + more, decode)[..|Replay(history, decode)|] == Replay(history, decode)
    ensures forall i :: 0 <= i < |more| ==>
      Replay(history + more, decode)[|Replay(history, decode)| + i] == EntryFor(more[i], decode)
  {
    if more == [] {
      assert history + more == history;
    } else {
      var init := more[..|more| - 1];
      assert (history + more)[..|history + more| - 1] == history + init;
      ReplayAppends(history, init, decode);
    }
  }

  /** Clearing forgets everything before it. */
  lemma {:induction false} ReplayForgets(before: seq<Stamped>, clear: Stamped, after: seq<Stamped>, decode: Decoder)
    requires clear.event == Cleared
    ensures Replay(before + [clear] + after, decode) == Replay([clear] + after, decode)
  {
    if after == [] {
      assert before + [clear] + after == before + [clear];
      assert [clear] + after == [clear];
    } else {
      var init := after[..|after| - 1];
      assert (before + [clear] + after)[..|before + [clear] + after| - 1] == before + [clear] + init;
      assert ([clear] + after)[..|[clear] + after| - 1] == [clear] + init;
      ReplayForgets(before, clear, init, decode);
    }
  }

  /** Every entry carries a non-empty level, so the scrollback never shows
      a blank level. */
  lemma {:induction false} ReplayLevels(history: seq<Stamped>, decode: Decoder)
    ensures forall e :: e in Replay(history, decode) ==> e.level != ""
  {
    if history != [] {
      ReplayLevels(history[..|history| - 1], decode);
    }
  }

  /** `getLevelPrefix`. */
  function GetLevelPrefix(level: string): (r: string)
    ensures r == "[LOG]" <==> level !in {"info", "warn", "error"}
  {
    match level
    case "info" => "[INFO]"
    case "warn" => "[WARN]"
    case "error" => "[ERROR]"
    case _ => "[LOG]"
  }

  /** `getLevelColor`. */
  function GetLevelColor(level: string): (r: string)
    ensures level !in {"warn", "error"} <==> r == "text-terminal-green"
  {
    match level
    case "info" => "text-terminal-green"
    case "warn" => "text-terminal-amber"
    case "error" => "text-terminal-red"
    case _ => "text-terminal-green"
  }

  /** The scrollback state of one panel. */
  class TerminalLog {
    var logs: seq<LogEntry>
    ghost var history: seq<Stamped>
    const decode: Decoder

    ghost predicate Valid()
      reads this
    {
      logs == Replay(history, decode)
    }

    constructor (decode: Decoder)
      ensures Valid() && logs == [] && history == [] && this.decode == decode
    {
      this.decode := decode;
      logs := [];
      history := [];
    }

    /** `addLog`: one entry at the end. */
    method AddLog(level: string, message: string, timestamp: string)
      modifies this
      ensures logs == old(logs) + [LogEntry(timestamp, level, message)]
      ensures history == old(history)
    {
      logs := logs + [LogEntry(timestamp, level, message)];
    }

    /** Appends the entry of an event other than clearing. */
    method Record(ev: Stamped)
      requires Valid() && ev.event != Cleared
      modifies this
      ensures Valid() && history == old(history) + [ev]
      ensures logs == old(logs) + [EntryFor(ev, decode)]
    {
      var e := EntryFor(ev, decode);
      AddLog(e.level, e.message, e.timestamp);
      history := history + [ev];
      assert history[..|history| - 1] == old(history);
    }

    /** `onopen`. */
    method OnOpen(timestamp: string)
      requires Valid()
      modifies this
      ensures Valid() && history == old(history) + [Stamped(Opened, timestamp)]
      ensures logs == old(logs) + [LogEntry(timestamp, "info", OpenMessage)]
    {
      Record(Stamped(Opened, timestamp));
    }

    /** `onmessage`. */
    method OnMessage(data: string, timestamp: string)
      requires Valid()
      modifies this
      ensures Valid() && history == old(history) + [Stamped(Message(data), timestamp)]
      ensures logs == old(logs) + [MessageEntry(decode(data), data, timestamp)]
    {
      Record(Stamped(Message(data), timestamp));
    }

    /** `onerror`. */
    method OnError(timestamp: string)
      requires Valid()
      modifies this
      ensures Valid() && history == old(history) + [Stamped(Errored, timestamp)]
      ensures logs == old(logs) + [LogEntry(timestamp, "error", ErrorMessage)]
    {
      Record(Stamped(Errored, timestamp));
    }

    /** `onclose` (the reconnect timer is outside the model). */
    method OnClose(timestamp: string)
      requires Valid()
      modifies this
      ensures Valid() && history == old(history) + [Stamped(Closed, timestamp)]
      ensures logs == old(logs) + [LogEntry(timestamp, "warn", CloseMessage)]
    {
      Record(Stamped(Closed, timestamp));
    }

    /** `clearLogs`: empty the list, then log the clearing. */
    method ClearLogs(timestamp: string)
      requires Valid()
      modifies this
      ensures Valid() && history == old(history) + [Stamped(Cleared, timestamp)]
      ensures logs == [LogEntry(timestamp, "info", ClearedMessage)]
    {
      logs := [];
      AddLog("info", ClearedMessage, timestamp);
      history := history + [Stamped(Cleared, timestamp)];
    }
  }
}
