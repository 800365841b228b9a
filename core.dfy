/**
 * MPVCore: the bridge object around two nullable libmpv handles, the engine
 * handle `m_mpv` and the render context `m_mpvGL`. libmpv itself is an
 * abstract recorder: `calls` is every request the bridge has made of it, in
 * order, and whatever libmpv answers (a created handle, a result code, a
 * property node, the pending events) is a parameter of the operation that
 * asks for it.
 */
module Core {
  import opened Values
  import opened Native
  import opened Marshal
  import opened MarshalProofs
  import opened Events
  import opened CommandLine

  /** One request made of libmpv. */
  datatype Call =
    | Create                                    // mpv_create
    | SetOption(option: string, text: string)   // mpv_set_option_string
    | RequestLogMessages(level: string)         // mpv_request_log_messages
    | InitializeEngine                          // mpv_initialize
    | SetWakeupCallback                         // mpv_set_wakeup_callback
    | Observe(property: string)                 // mpv_observe_property, NODE format
    | RenderContextCreate                       // mpv_render_context_create
    | SetRenderUpdateCallback                   // mpv_render_context_set_update_callback
    | RenderContextFree                         // mpv_render_context_free
    | Render(fbo: Int32, width: Int32, height: Int32)  // mpv_render_context_render
    | TerminateDestroy                          // mpv_terminate_destroy
    | CommandString(cmd: string)                // mpv_command_string
    | SetPropertyAsync(property: string, node: Slot)   // mpv_set_property_async, NODE format
    | SetPropertyDouble(property: string, d: real)     // mpv_set_property, DOUBLE format
    | GetPropertyNode(property: string)         // mpv_get_property, NODE format
    | FreeNodeContents                          // mpv_free_node_contents

  /** The options initialize sets on a fresh handle, in order. */
  const OptionCalls: seq<Call> := [
    SetOption("video-sync", "display-resample"),
    SetOption("hwdec", "auto"),
    SetOption("vo", "gpu"),
    SetOption("gpu-api", "auto"),
    SetOption("keep-open", "yes")
  ]

  /** The properties initialize observes, in order. */
  const ObserveCalls: seq<Call> := [
    Observe("time-pos"), Observe("duration"), Observe("pause"), Observe("volume"), Observe("eof-reached")
  ]

  /** What initialize asks of libmpv, given whether mpv_create and mpv_initialize succeed. */
  function InitializeCalls(created: bool, initResult: int): seq<Call>
  {
    [Create] +
    if !created then []
    else OptionCalls + [RequestLogMessages("warn"), InitializeEngine] +
         if initResult < 0 then [] else [SetWakeupCallback] + ObserveCalls
  }

  /** What setProperty submits for `value` on heap `h`: the encoded node, or nothing when encoding fails. */
  function Submission(name: string, value: Value, h: Heap): seq<Call>
  {
    if Encodable(value) then [SetPropertyAsync(name, EncodeSpec(value, Uninit, h, ValueInit).slot)] else []
  }

  /** The heap after setProperty: the encoded node freed again, or what a failed encode left. */
  function AfterSet(h: Heap, value: Value): Heap
  {
    var e := EncodeSpec(value, Uninit, h, ValueInit);
    if e.ok then Releases(e.heap, FreeSeq(e.slot)) else e.heap
  }

  /** What getProperty asks of libmpv: the read, and libmpv's own free of a node it returned. */
  function GetCalls(hasMpv: bool, name: string, result: int): seq<Call>
  {
    if !hasMpv then [] else [GetPropertyNode(name)] + (if result < 0 then [] else [FreeNodeContents])
  }

  /** A flag property as setProperty submits it (a bool encodes without allocating). */
  function FlagCall(hasMpv: bool, name: string, b: bool): seq<Call>
  {
    if hasMpv then [SetPropertyAsync(name, Init(NFlag(if b then 1 else 0)))] else []
  }

  /** An int property as setProperty submits it, widened to 64 bits. */
  function IntCall(hasMpv: bool, name: string, i: Int32): seq<Call>
  {
    if hasMpv then [SetPropertyAsync(name, Init(NInt64(i as int as Int64)))] else []
  }

  /** setProperty leaks nothing and faults nothing: every block it allocates it frees, once. */
  lemma SetPropertyFreesOnce(value: Value, h: Heap)
    requires HeapOk(h)
    ensures HeapOk(AfterSet(h, value))
    ensures AfterSet(h, value).live == h.live && AfterSet(h, value).faulted == h.faulted
  {
    var e := EncodeSpec(value, Uninit, h, ValueInit);
    EncodeOkIffEncodable(value, Uninit, h, ValueInit);
    EncodeOwns(value, Uninit, h, ValueInit);
    if e.ok {
      EncodeThenFree(value, Uninit, h, ValueInit);
    } else {
      EncodeFailureLeavesHeap(value, Uninit, h);
    }
  }

  /**
   * `setProperty` as written allocates container arrays without value
   * initialisation. On every value the bridge supports this changes nothing:
   * the submitted node and the heap afterwards are those the as-written
   * encoder gives. On an unsupported scalar nothing is submitted and the heap
   * is untouched either way; a list or map holding an unsupported value is
   * not submitted, and as written its clean-up reads uninitialised memory.
   */
  lemma SetPropertyAsWritten(name: string, value: Value, h: Heap)
    ensures var e := EncodeSpec(value, Uninit, h, DefaultInit);
      Encodable(value) ==>
        e.ok && Submission(name, value, h) == [SetPropertyAsync(name, e.slot)] &&
        AfterSet(h, value) == Releases(e.heap, FreeSeq(e.slot))
    ensures var e := EncodeSpec(value, Uninit, h, DefaultInit);
      !Encodable(value) ==>
        !e.ok && Submission(name, value, h) == [] &&
        (if value.List? || value.Map? then e.heap.faulted else e.heap == h && AfterSet(h, value) == h)
  {
    EncodeOkIffEncodable(value, Uninit, h, DefaultInit);
    EncodeOkIffEncodable(value, Uninit, h, ValueInit);
    if Encodable(value) {
      InitIrrelevant(value, Uninit, Uninit, h);
    } else if value.List? || value.Map? {
      FailingContainerFaults(value, Uninit, h);
    }
  }

  /** The node setProperty submits reads back as the value, every int widened to 64 bits. */
  lemma SubmittedValue(name: string, value: Value, h: Heap)
    requires Transportable(value)
    ensures |Submission(name, value, h)| == 1
    ensures var c := Submission(name, value, h)[0];
      c.property == name && Readable(c.node) && Decode(c.node) == Widen(value)
  {
    RoundTrip(value, Uninit, h, ValueInit);
  }

  /** The fields the engine-facing operations other than the lifecycle leave alone. */
  datatype Status = Status(hasMpv: bool, hasGL: bool, nullHandleCalls: nat)

  class MpvCore {
    /** m_mpv != nullptr */
    var hasMpv: bool
    /** m_mpvGL != nullptr */
    var hasGL: bool
    /** Every request made of libmpv, in order. */
    var calls: seq<Call>
    /** Every signal emitted, in order. */
    var signals: seq<Signal>
    /** How many libmpv calls were made with a null engine handle. */
    var nullHandleCalls: nat
    /** The process heap variantToMpvNode and freeMpvNode work on. */
    const heap: NativeHeap

    ghost predicate Valid()
      reads this, heap
    {
      HeapOk(heap.State())
    }

    function Snapshot(): Status
      reads this
    {
      Status(hasMpv, hasGL, nullHandleCalls)
    }

    /** MPVCore::MPVCore: both handles null. */
    constructor (processHeap: NativeHeap)
      requires HeapOk(processHeap.State())
      ensures !hasMpv && !hasGL && calls == [] && signals == [] && nullHandleCalls == 0
      ensures heap == processHeap && Valid()
    {
      hasMpv, hasGL := false, false;
      calls, signals := [], [];
      nullHandleCalls := 0;
      heap := processHeap;
    }

    /** MPVCore::~MPVCore: the render context is freed before the engine handle, and both end null. */
    method Destroy()
      modifies this
      ensures !hasMpv && !hasGL
      ensures calls == old(calls) + (if old(hasGL) then [RenderContextFree] else [])
                                  + (if old(hasMpv) then [TerminateDestroy] else [])
      ensures signals == old(signals) && nullHandleCalls == old(nullHandleCalls)
    {
      if hasGL {
        calls := calls + [RenderContextFree];
        hasGL := false;
      }
      if hasMpv {
        calls := calls + [TerminateDestroy];
        hasMpv := false;
      }
    }

    /**
     * MPVCore::initialize: `created` says whether mpv_create returned a
     * handle and `initResult` is mpv_initialize's result. A failed
     * mpv_initialize returns false but keeps the handle.
     */
    method Initialize(created: bool, initResult: int) returns (ok: bool)
      modifies this
      ensures ok <==> created && initResult >= 0
      ensures hasMpv == created && hasGL == old(hasGL)
      ensures calls == old(calls) + InitializeCalls(created, initResult)
      ensures signals == old(signals) && nullHandleCalls == old(nullHandleCalls)
    {
      hasMpv := created;
      calls := calls + [Create];
      if !hasMpv {
        return false;
      }
      calls := calls + OptionCalls + [RequestLogMessages("warn")];
      calls := calls + [InitializeEngine];
      if initResult < 0 {
        return false;
      }
      calls := calls + [SetWakeupCallback];
      ObserveProperty("time-pos");
      ObserveProperty("duration");
      ObserveProperty("pause");
      ObserveProperty("volume");
      ObserveProperty("eof-reached");
      return true;
    }

    /**
     * MPVCore::initializeRenderer: fails without an engine handle; otherwise
     * frees any existing render context first, then fails on an invalid GL
     * context, and on a failed mpv_render_context_create (`createResult`)
     * emits an error and fails.
     */
    method InitializeRenderer(contextValid: bool, createResult: int) returns (ok: bool)
      modifies this
      ensures ok <==> old(hasMpv) && contextValid && createResult >= 0
      ensures hasMpv == old(hasMpv)
      ensures hasGL == if old(hasMpv) then ok else old(hasGL)
      ensures !old(hasMpv) ==> calls == old(calls) && signals == old(signals)
      ensures old(hasMpv) ==>
        calls == old(calls) + (if old(hasGL) then [RenderContextFree] else [])
                            + (if contextValid then [RenderContextCreate] else [])
                            + (if ok then [SetRenderUpdateCallback] else [])
      ensures old(hasMpv) ==>
        signals == old(signals) + (if contextValid && createResult < 0 then [Error(RenderUnavailable(createResult))] else [])
      ensures nullHandleCalls == old(nullHandleCalls)
    {
      if !hasMpv {
        return false;
      }
      if hasGL {
        calls := calls + [RenderContextFree];
        hasGL := false;
      }
      if !contextValid {
        return false;
      }
      calls := calls + [RenderContextCreate];
      if createResult < 0 {
        signals := signals + [Error(RenderUnavailable(createResult))];
        return false;
      }
      hasGL := true;
      calls := calls + [SetRenderUpdateCallback];
      return true;
    }

    /** MPVCore::renderFrame: nothing without a render context; the fbo id is cast to a signed int. */
    method RenderFrame(fbo: nat, width: Int32, height: Int32)
      requires fbo < 0x1_0000_0000
      modifies this
      ensures Snapshot() == old(Snapshot()) && signals == old(signals)
      ensures calls == old(calls) + (if hasGL then [Render(Wrap32(fbo), width, height)] else [])
    {
      if !hasGL {
        return;
      }
      calls := calls + [Render(Wrap32(fbo), width, height)];
    }

    /** MPVCore::loadFile: `loadfile "<path>"`, the path inserted verbatim. */
    method LoadFile(path: string)
      modifies this
      ensures Snapshot() == old(Snapshot()) && signals == old(signals)
      ensures calls == old(calls) + (if hasMpv then [CommandString("loadfile \"" + path + "\"")] else [])
    {
      if !hasMpv {
        return;
      }
      calls := calls + [CommandString("loadfile \"" + path + "\"")];
    }

    /** MPVCore::stop: sends "stop" without checking the engine handle. */
    method Stop()
      modifies this
      ensures hasMpv == old(hasMpv) && hasGL == old(hasGL) && signals == old(signals)
      ensures calls == old(calls) + [CommandString("stop")]
      ensures nullHandleCalls == old(nullHandleCalls) + (if hasMpv then 0 else 1)
    {
      calls := calls + [CommandString("stop")];
      if !hasMpv {
        nullHandleCalls := nullHandleCalls + 1;
      }
    }

    /** MPVCore::seek: the time-pos property as a double. */
    method Seek(position: real)
      modifies this
      ensures Snapshot() == old(Snapshot()) && signals == old(signals)
      ensures calls == old(calls) + (if hasMpv then [SetPropertyDouble("time-pos", position)] else [])
    {
      if !hasMpv {
        return;
      }
      calls := calls + [SetPropertyDouble("time-pos", position)];
    }

    /** MPVCore::observeProperty. */
    method ObserveProperty(name: string)
      modifies this
      ensures Snapshot() == old(Snapshot()) && signals == old(signals)
      ensures calls == old(calls) + (if hasMpv then [Observe(name)] else [])
    {
      if !hasMpv {
        return;
      }
      calls := calls + [Observe(name)];
    }

    /**
     * MPVCore::setProperty: nothing without a handle; a value that cannot be
     * encoded is dropped; otherwise the encoded node is submitted and then
     * freed once, so the heap ends as it began.
     */
    method SetProperty(name: string, value: Value)
      requires Valid()
      modifies this, heap
      ensures Valid()
      ensures Snapshot() == old(Snapshot()) && signals == old(signals)
      ensures calls == old(calls) + (if hasMpv then Submission(name, value, old(heap.State())) else [])
      ensures heap.State() == if hasMpv then AfterSet(old(heap.State()), value) else old(heap.State())
      ensures heap.live == old(heap.live) && heap.faulted == old(heap.faulted)
    {
      if !hasMpv {
        return;
      }
      ghost var h0 := heap.State();
      SetPropertyFreesOnce(value, h0);
      var ok, node := heap.VariantToMpvNode(value, Uninit, ValueInit);
      EncodeOkIffEncodable(value, Uninit, h0, ValueInit);
      if !ok {
        return;
      }
      calls := calls + [SetPropertyAsync(name, node)];
      var cleared := heap.FreeMpvNode(node);
    }

    /**
     * MPVCore::getProperty: `result` and `node` are mpv_get_property's answer.
     * Invalid without a handle or on a negative result; otherwise the decoded
     * node, which is then handed back to libmpv's own free.
     */
    method GetProperty(name: string, result: int, node: Slot) returns (v: Value)
      requires result >= 0 ==> Readable(node)
      modifies this
      ensures Snapshot() == old(Snapshot()) && signals == old(signals)
      ensures v == if !hasMpv || result < 0 then Invalid else Decode(node)
      ensures calls == old(calls) + GetCalls(hasMpv, name, result)
    {
      if !hasMpv {
        return Invalid;
      }
      calls := calls + [GetPropertyNode(name)];
      if result < 0 {
        return Invalid;
      }
      v := Decode(node);
      calls := calls + [FreeNodeContents];
    }

    /** MPVCore::play: pause := false. */
    method Play()
      requires Valid()
      modifies this, heap
      ensures Valid()
      ensures Snapshot() == old(Snapshot()) && signals == old(signals)
      ensures calls == old(calls) + FlagCall(hasMpv, "pause", false)
      ensures heap.State() == old(heap.State())
    {
      SetProperty("pause", Bool(false));
    }

    /** MPVCore::pause: pause := true. */
    method Pause()
      requires Valid()
      modifies this, heap
      ensures Valid()
      ensures Snapshot() == old(Snapshot()) && signals == old(signals)
      ensures calls == old(calls) + FlagCall(hasMpv, "pause", true)
      ensures heap.State() == old(heap.State())
    {
      SetProperty("pause", Bool(true));
    }

    /**
     * MPVCore::togglePause: reads pause (`result`/`node` are libmpv's answer)
     * and writes its negation; an unreadable pause counts as false, so the
     * player is paused.
     */
    method TogglePause(result: int, node: Slot)
      requires Valid()
      requires result >= 0 ==> Readable(node)
      modifies this, heap
      ensures Valid()
      ensures Snapshot() == old(Snapshot()) && signals == old(signals)
      ensures var paused := if !hasMpv || result < 0 then false else ToBool(Decode(node));
        calls == old(calls) + GetCalls(hasMpv, "pause", result) + FlagCall(hasMpv, "pause", !paused)
      ensures heap.State() == old(heap.State())
    {
      var paused := GetProperty("pause", result, node);
      SetProperty("pause", Bool(!ToBool(paused)));
    }

    /** MPVCore::setVolume: volume as an integer node. */
    method SetVolume(volume: Int32)
      requires Valid()
      modifies this, heap
      ensures Valid()
      ensures Snapshot() == old(Snapshot()) && signals == old(signals)
      ensures calls == old(calls) + IntCall(hasMpv, "volume", volume)
      ensures heap.State() == old(heap.State())
    {
      SetProperty("volume", Int(volume));
    }

    /** MPVCore::setupHardwareAcceleration: hwdec := method, when there is a handle. */
    method SetupHardwareAcceleration(hwdec: string)
      requires Valid()
      modifies this, heap
      ensures Valid()
      ensures Snapshot() == old(Snapshot()) && signals == old(signals)
      ensures calls == old(calls) + (if hasMpv then Submission("hwdec", Str(hwdec), old(heap.State())) else [])
      ensures heap.live == old(heap.live) && heap.faulted == old(heap.faulted)
    {
      if !hasMpv {
        return;
      }
      SetProperty("hwdec", Str(hwdec));
    }

    /** MPVCore::command: nothing without a handle or arguments; otherwise the built command string. */
    method Command(args: seq<Value>)
      modifies this
      ensures Snapshot() == old(Snapshot()) && signals == old(signals)
      ensures calls == old(calls) + (if hasMpv && |args| > 0 then [CommandString(CommandText(Texts(args)))] else [])
    {
      if !hasMpv || |args| == 0 {
        return;
      }
      var cmd := BuildCommand(args);
      calls := calls + [CommandString(cmd)];
    }

    /**
     * MPVCore::handleEvents: `pending` is the engine's queue (an exhausted
     * queue answers MPV_EVENT_NONE); events are taken until a null event or
     * NONE and their signals emitted in order. `left` is what stays queued.
     */
    method HandleEvents(pending: seq<Option<Event>>) returns (left: seq<Option<Event>>)
      requires QueueReadable(pending)
      modifies this
      ensures Snapshot() == old(Snapshot()) && calls == old(calls)
      ensures !hasMpv ==> signals == old(signals) && left == pending
      ensures hasMpv ==> signals == old(signals) + Drain(pending) && left == pending[Consumed(pending)..]
    {
      left := pending;
      if !hasMpv {
        return;
      }
      // m_mpv is not changed inside the loop, so `while (m_mpv)` runs until a break.
      ghost var k := 0;
      while true
        invariant k <= |pending| && left == pending[k..]
        invariant QueueReadable(left)
        invariant Snapshot() == old(Snapshot()) && calls == old(calls)
        invariant old(signals) + Drain(pending) == signals + Drain(left)
        invariant Consumed(pending) == k + Consumed(left)
        decreases |left|
      {
        var event: Option<Event>;
        if |left| == 0 {
          event := Some(NoEvent);
        } else {
          event := left[0];
        }
        if event.None? || event.value.NoEvent? {
          if |left| > 0 {
            k := k + 1;
            left := left[1..];
          }
          break;
        }
        DrainUnfold(left);
        ghost var rest := Drain(left[1..]);
        assert (signals + Emit(event.value)) + rest == signals + (Emit(event.value) + rest);
        signals := signals + Emit(event.value);
        k := k + 1;
        left := left[1..];
      }
    }
  }
}
