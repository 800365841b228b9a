/**
 * The engine's event queue and the signals MPVCore::handleEvents emits for
 * it. `Drain` is the specification of the drain loop: events are taken in
 * queue order until a null event or MPV_EVENT_NONE, and each event is
 * translated on its own by `Emit`.
 */
module Events {
  import opened Values
  import opened Native

  /** The payload of MPV_EVENT_PROPERTY_CHANGE: a name, a format and (for NODE) a node. */
  datatype Property = Property(name: string, format: int, data: Slot)

  /** The payload of MPV_EVENT_LOG_MESSAGE. */
  datatype LogMessage = LogMessage(prefix: string, level: string, text: string)

  /** One event as mpv_wait_event hands it out; payload pointers may be null. */
  datatype Event =
    | NoEvent                                  // MPV_EVENT_NONE
    | PropertyChange(prop: Option<Property>)   // MPV_EVENT_PROPERTY_CHANGE
    | FileLoaded                               // MPV_EVENT_FILE_LOADED
    | Log(msg: Option<LogMessage>)             // MPV_EVENT_LOG_MESSAGE
    | CommandReply(error: int)                 // MPV_EVENT_COMMAND_REPLY
    | OtherEvent(id: int)                      // every other event id

  /** The text of an error signal. */
  datatype Message =
    | Text(s: string)               // a log message's text
    | ErrorString(code: int)        // mpv_error_string(code)
    | RenderUnavailable(code: int)  // "OpenGL rendering not available: " + mpv_error_string(code)

  /** The signals MPVCore emits. */
  datatype Signal =
    | PropertyChanged(name: string, value: Value)
    | FileLoadedSignal
    | PlaybackFinished
    | Error(message: Message)

  /** A null event pointer (None) or MPV_EVENT_NONE ends the drain. */
  predicate Stops(p: Option<Event>)
  {
    p.None? || p.value.NoEvent?
  }

  /** A property change carrying a node. */
  predicate NodeChange(e: Event)
  {
    e.PropertyChange? && e.prop.Some? && e.prop.value.format == FORMAT_NODE
  }

  /** The engine hands out nodes the decoder can read. */
  ghost predicate EventReadable(e: Event)
  {
    NodeChange(e) ==> Readable(e.prop.value.data)
  }

  ghost predicate QueueReadable(q: seq<Option<Event>>)
  {
    forall i :: 0 <= i < |q| && q[i].Some? ==> EventReadable(q[i].value)
  }

  /** An end-of-file report: "eof-reached" changing to a value that converts to true. */
  predicate EndOfFile(name: string, v: Value)
  {
    name == "eof-reached" && ToBool(v)
  }

  /** The signals for one event. */
  function Emit(e: Event): (r: seq<Signal>)
    requires EventReadable(e)
  {
    match e
    case PropertyChange(Some(p)) =>
      if p.format == FORMAT_NODE then
        var v := Decode(p.data);
        [PropertyChanged(p.name, v)] + (if EndOfFile(p.name, v) then [PlaybackFinished] else [])
      else []
    case FileLoaded => [FileLoadedSignal]
    case Log(Some(m)) => if m.level == "error" then [Error(Text(m.text))] else []
    case CommandReply(err) => if err < 0 then [Error(ErrorString(err))] else []
    case _ => []
  }

  /** The signals of a whole drain, in dequeue order. */
  function Drain(q: seq<Option<Event>>): seq<Signal>
    requires QueueReadable(q)
  {
    if |q| == 0 || Stops(q[0]) then [] else Emit(q[0].value) + Drain(q[1..])
  }

  /** How many events the drain takes off the queue (the stopping one included). */
  function Consumed(q: seq<Option<Event>>): (n: nat)
    ensures n <= |q|
  {
    if |q| == 0 then 0 else if Stops(q[0]) then 1 else 1 + Consumed(q[1..])
  }

  /** Every event before position `k` is one the drain handles. */
  predicate Running(q: seq<Option<Event>>, k: nat)
    requires k <= |q|
  {
    forall j :: 0 <= j < k ==> !Stops(q[j])
  }

  /** One step of the drain: a handled event's signals, then the rest. */
  lemma DrainUnfold(q: seq<Option<Event>>)
    requires QueueReadable(q) && |q| > 0 && !Stops(q[0])
    ensures QueueReadable(q[1..])
    ensures Drain(q) == Emit(q[0].value) + Drain(q[1..])
    ensures Consumed(q) == 1 + Consumed(q[1..])
  {
    assert forall i :: 0 <= i < |q| - 1 ==> q[1..][i] == q[i + 1];
  }

  // ---------------------------------------------------------------------
  // Properties of one event.
  // ---------------------------------------------------------------------

  /** A node property change gives exactly one propertyChanged, then playbackFinished iff it reports end of file. */
  lemma EmitNodeChange(e: Event)
    requires NodeChange(e) && EventReadable(e)
    ensures var p := e.prop.value; var v := Decode(p.data);
      |Emit(e)| >= 1 && Emit(e)[0] == PropertyChanged(p.name, v) &&
      (EndOfFile(p.name, v) <==> |Emit(e)| == 2) &&
      (|Emit(e)| == 2 ==> Emit(e)[1] == PlaybackFinished) && |Emit(e)| <= 2
  {
  }

  /** Everything but a node property change, FILE_LOADED, an error log and a failed command reply is silent. */
  lemma EmitSilent(e: Event)
    requires EventReadable(e)
    requires !NodeChange(e) && !e.FileLoaded?
    requires !(e.Log? && e.msg.Some? && e.msg.value.level == "error")
    requires !(e.CommandReply? && e.error < 0)
    ensures Emit(e) == []
  {
  }

  // ---------------------------------------------------------------------
  // Properties of the drain.
  // ---------------------------------------------------------------------

  /** Signals appear in dequeue order: draining a stop-free prefix and then the rest. */
  lemma {:induction false} DrainAppend(a: seq<Option<Event>>, b: seq<Option<Event>>)
    requires QueueReadable(a) && QueueReadable(b)
    requires Running(a, |a|)
    ensures QueueReadable(a + b)
    ensures Drain(a + b) == Drain(a) + Drain(b)
    decreases |a|
  {
    if |a| > 0 {
      assert (a + b)[1..] == a[1..] + b;
      DrainAppend(a[1..], b);
    } else {
      assert a + b == b;
    }
  }

  /** Nothing behind the stopping event is looked at. */
  lemma {:induction false} DrainIgnoresRest(q: seq<Option<Event>>, k: nat)
    requires k < |q| && Running(q, k) && Stops(q[k])
    requires QueueReadable(q)
    ensures Consumed(q) == k + 1
    ensures Drain(q) == Drain(q[..k])
    decreases k
  {
    if k > 0 {
      assert q[1..][..k - 1] == q[..k][1..];
      DrainIgnoresRest(q[1..], k - 1);
    }
  }

  /** The number of propertyChanged signals in a list. */
  function ChangeCount(s: seq<Signal>): nat
  {
    if |s| == 0 then 0 else (if s[0].PropertyChanged? then 1 else 0) + ChangeCount(s[1..])
  }

  /** The number of node property changes among the events the drain handles. */
  function NodeChangeCount(q: seq<Option<Event>>): nat
  {
    if |q| == 0 || Stops(q[0]) then 0 else (if NodeChange(q[0].value) then 1 else 0) + NodeChangeCount(q[1..])
  }

  lemma {:induction false} ChangeCountAppend(a: seq<Signal>, b: seq<Signal>)
    ensures ChangeCount(a + b) == ChangeCount(a) + ChangeCount(b)
    decreases |a|
  {
    if |a| > 0 {
      assert (a + b)[1..] == a[1..] + b;
      ChangeCountAppend(a[1..], b);
    } else {
      assert a + b == b;
    }
  }

  /** One propertyChanged per node property change handled, and no other. */
  lemma {:induction false} DrainChangeCount(q: seq<Option<Event>>)
    requires QueueReadable(q)
    ensures ChangeCount(Drain(q)) == NodeChangeCount(q)
  {
    if |q| > 0 && !Stops(q[0]) {
      var e := q[0].value;
      ChangeCountAppend(Emit(e), Drain(q[1..]));
      DrainChangeCount(q[1..]);
      if NodeChange(e) {
        EmitNodeChange(e);
      }
    }
  }

  /**
   * In the signals of a drain, playbackFinished occurs exactly right after a
   * propertyChanged that reports end of file.
   */
  ghost predicate FinishedAfterEof(s: seq<Signal>)
  {
    (forall i :: 0 <= i < |s| && s[i].PlaybackFinished? ==>
       i > 0 && s[i - 1].PropertyChanged? && EndOfFile(s[i - 1].name, s[i - 1].value)) &&
    (forall i :: 0 <= i < |s| && s[i].PropertyChanged? && EndOfFile(s[i].name, s[i].value) ==>
       i + 1 < |s| && s[i + 1].PlaybackFinished?)
  }

  lemma FinishedAfterEofAppend(a: seq<Signal>, b: seq<Signal>)
    requires FinishedAfterEof(a) && FinishedAfterEof(b)
    requires |b| > 0 ==> !b[0].PlaybackFinished?
    ensures FinishedAfterEof(a + b)
  {
    var s := a + b;
    forall i | 0 <= i < |s| && s[i].PropertyChanged? && EndOfFile(s[i].name, s[i].value)
      ensures i + 1 < |s| && s[i + 1].PlaybackFinished?
    {
      if i < |a| {
        assert a[i] == s[i];
      } else {
        assert b[i - |a|] == s[i];
      }
    }
    forall i | 0 <= i < |s| && s[i].PlaybackFinished?
      ensures i > 0 && s[i - 1].PropertyChanged? && EndOfFile(s[i - 1].name, s[i - 1].value)
    {
      if i < |a| {
        assert a[i] == s[i];
      } else {
        assert b[i - |a|] == s[i];
        assert i - |a| > 0;
      }
    }
  }

  lemma {:induction false} DrainFinishedAfterEof(q: seq<Option<Event>>)
    requires QueueReadable(q)
    ensures FinishedAfterEof(Drain(q))
    ensures |Drain(q)| > 0 ==> !Drain(q)[0].PlaybackFinished?
  {
    if |q| > 0 && !Stops(q[0]) {
      var e := q[0].value;
      DrainFinishedAfterEof(q[1..]);
      if NodeChange(e) {
        EmitNodeChange(e);
      }
      FinishedAfterEofAppend(Emit(e), Drain(q[1..]));
    }
  }
}
