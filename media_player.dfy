/**
 * MediaPlayer: the glue between the settings, the engine bridge and the
 * playback controller. Loading media configures the engine cache by the kind
 * of path, then loads the file; applying the settings pushes the volume, every
 * engine setting in key order, and the hardware decoder.
 */
module Player {
  import opened Values
  import opened Native
  import opened MarshalProofs
  import opened Core
  import opened Playback
  import opened AppSettings
  import opened Channel

  datatype PlayerSignal = MediaLoaded(path: string) | PlayerError(message: string)

  /** The URL schemes played as network streams. */
  const NetworkSchemes: set<string> := {"http", "https", "rtmp", "rtsp", "mms", "rtp"}

  /** isNetworkUrl, given the scheme QUrl extracts from the path. */
  function IsNetworkUrl(scheme: string): (r: bool)
    ensures r <==> scheme in NetworkSchemes
  {
    scheme == "http" || scheme == "https" ||
    scheme == "rtmp" || scheme == "rtsp" ||
    scheme == "mms" || scheme == "rtp"
  }

  /** The cache configuration loadMedia sends before loading. */
  function CacheCalls(hasMpv: bool, network: bool, secs: Int32): seq<Call>
  {
    if network then FlagCall(hasMpv, "cache", true) + IntCall(hasMpv, "cache-secs", secs)
    else FlagCall(hasMpv, "cache", false)
  }

  /** What PlaybackController::setVolume(v) sends, given the current volume and mute flag. */
  function VolumeCalls(hasMpv: bool, current: Int32, muted: bool, v: Int32): seq<Call>
  {
    if v == current then []
    else IntCall(hasMpv, "volume", Clamp(v)) + (if Clamp(v) > 0 && muted then FlagCall(hasMpv, "mute", false) else [])
  }

  // ---------------------------------------------------------------------
  // A run of setProperty calls, one per engine setting, in key order.
  // ---------------------------------------------------------------------

  /** The heap after setProperty for each entry in turn. */
  function PushHeap(es: seq<Entry>, h: Heap): Heap
  {
    if |es| == 0 then h else AfterSet(PushHeap(es[..|es| - 1], h), es[|es| - 1].value)
  }

  /** The calls setProperty makes for each entry in turn. */
  function PushCalls(es: seq<Entry>, h: Heap): seq<Call>
  {
    if |es| == 0 then []
    else
      var n := |es| - 1;
      PushCalls(es[..n], h) + Submission(es[n].key, es[n].value, PushHeap(es[..n], h))
  }

  /** One more setting at the end of the run. */
  lemma PushStep(es: seq<Entry>, i: nat, h: Heap)
    requires i < |es|
    ensures PushHeap(es[..i + 1], h) == AfterSet(PushHeap(es[..i], h), es[i].value)
    ensures PushCalls(es[..i + 1], h) == PushCalls(es[..i], h) + Submission(es[i].key, es[i].value, PushHeap(es[..i], h))
  {
    assert es[..i + 1][..i] == es[..i];
  }

  /** The run leaks nothing and faults nothing. */
  lemma {:induction false} PushHeapOk(es: seq<Entry>, h: Heap)
    requires HeapOk(h)
    ensures HeapOk(PushHeap(es, h))
    ensures PushHeap(es, h).live == h.live && PushHeap(es, h).faulted == h.faulted
  {
    if |es| > 0 {
      PushHeapOk(es[..|es| - 1], h);
      SetPropertyFreesOnce(es[|es| - 1].value, PushHeap(es[..|es| - 1], h));
    }
  }

  /** A call that submits the setting `e` with its value intact. */
  ghost predicate Submits(c: Call, e: Entry)
  {
    c.SetPropertyAsync? && c.property == e.key && Readable(c.node) && Decode(c.node) == Widen(e.value)
  }

  /**
   * When every setting can cross the bridge, the run submits one property per
   * setting, in key order, each carrying that setting's value.
   */
  lemma {:induction false} PushedInOrder(es: seq<Entry>, h: Heap)
    requires forall i :: 0 <= i < |es| ==> Transportable(es[i].value)
    ensures |PushCalls(es, h)| == |es|
    ensures forall i :: 0 <= i < |es| ==> Submits(PushCalls(es, h)[i], es[i])
  {
    if |es| > 0 {
      var n := |es| - 1;
      var front := es[..n];
      var at := PushHeap(front, h);
      PushedInOrder(front, h);
      SubmittedValue(es[n].key, es[n].value, at);
      var prefix := PushCalls(front, h);
      var last := Submission(es[n].key, es[n].value, at);
      assert PushCalls(es, h) == prefix + last;
      forall i | 0 <= i < n ensures Submits(prefix[i], es[i]) {
        assert front[i] == es[i];
      }
      SubmitsAppend(prefix, last, es);
    }
  }

  lemma SubmitsAppend(prefix: seq<Call>, last: seq<Call>, es: seq<Entry>)
    requires |es| > 0 && |prefix| == |es| - 1 && |last| == 1
    requires forall i :: 0 <= i < |prefix| ==> Submits(prefix[i], es[i])
    requires Submits(last[0], es[|es| - 1])
    ensures forall i :: 0 <= i < |es| ==> Submits((prefix + last)[i], es[i])
  {
  }

  class MediaPlayer {
    const settings: Settings
    const core: MpvCore
    const controller: PlaybackController
    var currentMedia: string
    var isNetworkStream: bool
    /** Every signal emitted, in order. */
    var emitted: seq<PlayerSignal>

    ghost predicate Valid()
      reads this, core, core.heap, controller, settings
    {
      controller.core == core && core.Valid() && settings.Valid()
    }

    /** The player after initialize: the created core and controller, no media yet. */
    constructor (settings: Settings, core: MpvCore, controller: PlaybackController)
      requires controller.core == core && core.Valid() && settings.Valid()
      ensures Valid()
      ensures this.settings == settings && this.core == core && this.controller == controller
      ensures currentMedia == "" && !isNetworkStream && emitted == []
    {
      this.settings := settings;
      this.core := core;
      this.controller := controller;
      currentMedia := "";
      isNetworkStream := false;
      emitted := [];
    }

    /** The seconds of cache loadMedia asks for on a network stream. */
    function CacheSecs(): Int32
      reads this, settings
    {
      ToInt(settings.MpvValue("cache-secs", Int(10)))
    }

    /**
     * The effect of loadMedia(path): nothing for an empty path; otherwise the
     * path and its kind recorded, the cache configured, the file loaded last,
     * and mediaLoaded emitted.
     */
    twostate predicate Loaded(path: string, scheme: string)
      reads this, core, core.heap, settings
    {
      core.Snapshot() == old(core.Snapshot()) && core.signals == old(core.signals) &&
      core.heap.State() == old(core.heap.State()) &&
      if path == "" then
        currentMedia == old(currentMedia) && isNetworkStream == old(isNetworkStream) &&
        emitted == old(emitted) && core.calls == old(core.calls)
      else
        currentMedia == path && isNetworkStream == IsNetworkUrl(scheme) &&
        emitted == old(emitted) + [MediaLoaded(path)] &&
        core.calls == old(core.calls) + CacheCalls(core.hasMpv, isNetworkStream, CacheSecs())
                      + (if core.hasMpv then [CommandString("loadfile \"" + path + "\"")] else [])
    }

    /** loadMedia; `scheme` is the scheme QUrl reads from `path`. */
    method LoadMedia(path: string, scheme: string)
      requires Valid()
      modifies this, core, core.heap
      ensures Valid()
      ensures Loaded(path, scheme)
      ensures path != "" && core.hasMpv ==> core.calls[|core.calls| - 1] == CommandString("loadfile \"" + path + "\"")
    {
      if path == "" {
        return;
      }
      currentMedia := path;
      isNetworkStream := IsNetworkUrl(scheme);
      if isNetworkStream {
        core.SetProperty("cache", Bool(true));
        core.SetProperty("cache-secs", Int(ToInt(settings.MpvValue("cache-secs", Int(10)))));
      } else {
        core.SetProperty("cache", Bool(false));
      }
      core.LoadFile(path);
      emitted := emitted + [MediaLoaded(path)];
    }

    /** loadChannel(c): exactly loadMedia(c.url). */
    method LoadChannel(c: ChannelData, scheme: string)
      requires Valid()
      modifies this, core, core.heap
      ensures Valid()
      ensures Loaded(c.url, scheme)
    {
      LoadMedia(c.url, scheme);
    }

    /** onSettingsChanged: the stored volume (default 100) handed to the controller. */
    method OnSettingsChanged()
      requires Valid()
      modifies controller, core, core.heap
      ensures Valid()
      ensures core.Snapshot() == old(core.Snapshot()) && core.signals == old(core.signals)
      ensures core.heap.State() == old(core.heap.State())
      ensures controller.VolumeApplied(ToInt(settings.Value("volume", Int(100))))
      ensures var v := ToInt(settings.Value("volume", Int(100)));
        controller.volume == (if v == old(controller.volume) then v else Clamp(v)) &&
        core.calls == old(core.calls) + VolumeCalls(core.hasMpv, old(controller.volume), old(controller.isMuted), v)
    {
      var volume := ToInt(settings.Value("volume", Int(100)));
      controller.SetVolume(volume);
    }

    /**
     * onMpvSettingsChanged: every engine setting submitted in key order, then
     * the hardware decoder (default "auto").
     */
    method OnMpvSettingsChanged()
      requires Valid()
      modifies core, core.heap
      ensures Valid()
      ensures core.Snapshot() == old(core.Snapshot()) && core.signals == old(core.signals)
      ensures core.heap.live == old(core.heap.live) && core.heap.faulted == old(core.heap.faulted)
      ensures var h := old(core.heap.State());
        var hwdec := ToText(settings.MpvValue("hwdec", Str("auto")));
        core.calls == old(core.calls) +
          (if core.hasMpv then PushCalls(settings.mpv, h) + Submission("hwdec", Str(hwdec), PushHeap(settings.mpv, h)) else [])
    {
      ghost var h := core.heap.State();
      ghost var c0 := core.calls;
      var entries := settings.AllMpvSettings();
      for i := 0 to |entries|
        invariant core.Valid() && core.Snapshot() == old(core.Snapshot()) && core.signals == old(core.signals)
        invariant core.heap.live == old(core.heap.live) && core.heap.faulted == old(core.heap.faulted)
        invariant core.calls == c0 + (if core.hasMpv then PushCalls(entries[..i], h) else [])
        invariant core.heap.State() == if core.hasMpv then PushHeap(entries[..i], h) else h
      {
        PushStep(entries, i, h);
        core.SetProperty(entries[i].key, entries[i].value);
      }
      assert entries[..|entries|] == entries;
      var hwdec := ToText(settings.MpvValue("hwdec", Str("auto")));
      core.SetupHardwareAcceleration(hwdec);
    }

    /** applySettings: the volume, then the engine settings and the hardware decoder. */
    method ApplySettings()
      requires Valid()
      modifies controller, core, core.heap
      ensures Valid()
      ensures core.Snapshot() == old(core.Snapshot()) && core.signals == old(core.signals)
      ensures core.heap.live == old(core.heap.live) && core.heap.faulted == old(core.heap.faulted)
      ensures controller.VolumeApplied(ToInt(settings.Value("volume", Int(100))))
      ensures var v := ToInt(settings.Value("volume", Int(100)));
        var h := old(core.heap.State());
        var hwdec := ToText(settings.MpvValue("hwdec", Str("auto")));
        controller.volume == (if v == old(controller.volume) then v else Clamp(v)) &&
        core.calls == old(core.calls) + VolumeCalls(core.hasMpv, old(controller.volume), old(controller.isMuted), v) +
          (if core.hasMpv then PushCalls(settings.mpv, h) + Submission("hwdec", Str(hwdec), PushHeap(settings.mpv, h)) else [])
    {
      OnSettingsChanged();
      OnMpvSettingsChanged();
    }

    /** onMpvError: the core's error passed on. */
    method OnMpvError(message: string)
      modifies this
      ensures emitted == old(emitted) + [PlayerError(message)]
      ensures currentMedia == old(currentMedia) && isNetworkStream == old(isNetworkStream)
    {
      emitted := emitted + [PlayerError(message)];
    }
  }
}
