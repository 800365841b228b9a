/**
 * PlaybackController: a cache of the player's state (playing, duration,
 * position, volume, mute) kept up to date from the core's property-change
 * signals, and the user-facing setters that forward requests to the core.
 */
module Playback {
  import opened Values
  import opened Native
  import opened Core

  /** The signals the controller emits. */
  datatype Notice =
    | PositionChanged(position: real)
    | DurationChanged(duration: real)
    | PlaybackStateChanged(playing: bool)
    | VolumeChanged(volume: Int32)
    | MuteChanged(muted: bool)
    | Finished

  /** The cached fields, as one value. */
  datatype Cached = Cached(playing: bool, duration: real, position: real, volume: Int32, muted: bool)

  /** libmpv's answer to one property read: a result code and, when it is not negative, a node. */
  datatype Reply = Reply(result: int, node: Slot)

  ghost predicate ReplyReadable(r: Reply)
  {
    r.result >= 0 ==> Readable(r.node)
  }

  /** What getProperty returns for that answer. */
  function ReadValue(hasMpv: bool, r: Reply): Value
    requires ReplyReadable(r)
  {
    if !hasMpv || r.result < 0 then Invalid else Decode(r.node)
  }

  /** qBound(0, v, 100). */
  function Clamp(v: Int32): (r: Int32)
    ensures 0 <= r <= 100
    ensures 0 <= v <= 100 ==> r == v
    ensures v < 0 ==> r == 0
    ensures v > 100 ==> r == 100
  {
    if v < 0 then 0 else if v > 100 then 100 else v
  }

  /** The target of seekForward: `seconds` ahead, but not past a known (positive) duration. */
  function ForwardTarget(position: real, duration: real, seconds: real): (t: real)
    ensures t <= position + seconds
    ensures duration > 0.0 ==> t <= duration
    ensures t == position + seconds || (duration > 0.0 && t == duration)
  {
    var p := position + seconds;
    if duration > 0.0 && duration < p then duration else p
  }

  /** The target of seekBackward: `seconds` back, but not before zero. */
  function BackwardTarget(position: real, seconds: real): (t: real)
    ensures t >= 0.0 && t >= position - seconds
    ensures t == position - seconds || t == 0.0
  {
    var p := position - seconds;
    if p < 0.0 then 0.0 else p
  }

  /**
   * The cached state those reads give: a read that yields no value falls back
   * to playing=false, duration=0, position=0, volume=100, muted=false; a
   * pause that reads true means not playing.
   */
  function Initial(hasMpv: bool, pause: Reply, dur: Reply, pos: Reply, vol: Reply, mute: Reply): (c: Cached)
    requires ReplyReadable(pause) && ReplyReadable(dur) && ReplyReadable(pos)
    requires ReplyReadable(vol) && ReplyReadable(mute)
    ensures !hasMpv ==> c == Cached(false, 0.0, 0.0, 100, false)
    ensures pause.result < 0 ==> !c.playing
    ensures dur.result < 0 ==> c.duration == 0.0
    ensures pos.result < 0 ==> c.position == 0.0
    ensures vol.result < 0 ==> c.volume == 100
    ensures mute.result < 0 ==> !c.muted
    ensures hasMpv && pause.result >= 0 ==>
      c.playing == (Decode(pause.node) != Invalid && !ToBool(Decode(pause.node)))
    ensures hasMpv && dur.result >= 0 ==>
      c.duration == (if Decode(dur.node) != Invalid then ToDouble(Decode(dur.node)) else 0.0)
    ensures hasMpv && pos.result >= 0 ==>
      c.position == (if Decode(pos.node) != Invalid then ToDouble(Decode(pos.node)) else 0.0)
    ensures hasMpv && vol.result >= 0 ==>
      c.volume == (if Decode(vol.node) != Invalid then ToInt(Decode(vol.node)) else 100)
    ensures hasMpv && mute.result >= 0 ==>
      c.muted == (Decode(mute.node) != Invalid && ToBool(Decode(mute.node)))
  {
    var p := ReadValue(hasMpv, pause);
    var d := ReadValue(hasMpv, dur);
    var t := ReadValue(hasMpv, pos);
    var v := ReadValue(hasMpv, vol);
    var m := ReadValue(hasMpv, mute);
    Cached(p != Invalid && !ToBool(p),
           if d != Invalid then ToDouble(d) else 0.0,
           if t != Invalid then ToDouble(t) else 0.0,
           if v != Invalid then ToInt(v) else 100,
           m != Invalid && ToBool(m))
  }

  /**
   * The reads of PlaybackController::PlaybackController: pause, duration,
   * time-pos, volume and mute (the five replies are libmpv's answers).
   */
  method ReadInitial(core: MpvCore, pause: Reply, dur: Reply, pos: Reply, vol: Reply, mute: Reply) returns (c: Cached)
    requires ReplyReadable(pause) && ReplyReadable(dur) && ReplyReadable(pos)
    requires ReplyReadable(vol) && ReplyReadable(mute)
    modifies core
    ensures core.Snapshot() == old(core.Snapshot()) && core.signals == old(core.signals)
    ensures core.calls == old(core.calls)
      + GetCalls(core.hasMpv, "pause", pause.result) + GetCalls(core.hasMpv, "duration", dur.result)
      + GetCalls(core.hasMpv, "time-pos", pos.result) + GetCalls(core.hasMpv, "volume", vol.result)
      + GetCalls(core.hasMpv, "mute", mute.result)
    ensures c == Initial(core.hasMpv, pause, dur, pos, vol, mute)
  {
    var pauseVar := core.GetProperty("pause", pause.result, pause.node);
    var durationVar := core.GetProperty("duration", dur.result, dur.node);
    var positionVar := core.GetProperty("time-pos", pos.result, pos.node);
    var volumeVar := core.GetProperty("volume", vol.result, vol.node);
    var muteVar := core.GetProperty("mute", mute.result, mute.node);
    c := Cached(if pauseVar != Invalid then !ToBool(pauseVar) else false,
                if durationVar != Invalid then ToDouble(durationVar) else 0.0,
                if positionVar != Invalid then ToDouble(positionVar) else 0.0,
                if volumeVar != Invalid then ToInt(volumeVar) else 100,
                if muteVar != Invalid then ToBool(muteVar) else false);
  }

  class PlaybackController {
    const core: MpvCore
    var isPlaying: bool
    var duration: real
    var position: real
    var volume: Int32
    var isMuted: bool
    /** m_lastVolume: set once, never read. */
    var lastVolume: Int32
    /** Every signal emitted, in order. */
    var notices: seq<Notice>

    ghost predicate Valid()
      reads this, core, core.heap
    {
      core.Valid()
    }

    function State(): Cached
      reads this
    {
      Cached(isPlaying, duration, position, volume, isMuted)
    }

    /**
     * PlaybackController::PlaybackController: the cached state read from the
     * core (see `ReadInitial`).
     */
    constructor (core: MpvCore, pause: Reply, dur: Reply, pos: Reply, vol: Reply, mute: Reply)
      requires ReplyReadable(pause) && ReplyReadable(dur) && ReplyReadable(pos)
      requires ReplyReadable(vol) && ReplyReadable(mute)
      modifies core
      ensures this.core == core
      ensures core.Snapshot() == old(core.Snapshot()) && core.signals == old(core.signals)
      ensures core.calls == old(core.calls)
      + GetCalls(core.hasMpv, "pause", pause.result) + GetCalls(core.hasMpv, "duration", dur.result)
      + GetCalls(core.hasMpv, "time-pos", pos.result) + GetCalls(core.hasMpv, "volume", vol.result)
      + GetCalls(core.hasMpv, "mute", mute.result)
      ensures State() == Initial(core.hasMpv, pause, dur, pos, vol, mute)
      ensures lastVolume == 100 && notices == []
    {
      this.core := core;
      lastVolume := 100;
      notices := [];
      var c := ReadInitial(core, pause, dur, pos, vol, mute);
      isPlaying := c.playing;
      duration := c.duration;
      position := c.position;
      volume := c.volume;
      isMuted := c.muted;
    }

    /**
     * What setVolume(v) does to the controller itself: nothing for the cached
     * volume; otherwise the clamped volume cached and emitted, and a positive
     * volume unmutes (emitting muteChanged). Nothing else changes.
     */
    twostate predicate VolumeApplied(v: Int32)
      reads this
    {
      lastVolume == old(lastVolume) &&
      (v == old(volume) ==> State() == old(State()) && notices == old(notices)) &&
      (v != old(volume) ==>
        var unmute := Clamp(v) > 0 && old(isMuted);
        State() == old(State()).(volume := Clamp(v), muted := old(isMuted) && !unmute) &&
        notices == old(notices) + [VolumeChanged(Clamp(v))] + (if unmute then [MuteChanged(false)] else []))
    }

    /**
     * setVolume: a volume different from the cached one is clamped to 0..100,
     * cached, sent to the core and emitted; a positive volume also unmutes.
     */
    method SetVolume(v: Int32)
      requires Valid()
      modifies this, core, core.heap
      ensures Valid()
      ensures core.Snapshot() == old(core.Snapshot()) && core.signals == old(core.signals)
      ensures core.heap.State() == old(core.heap.State())
      ensures VolumeApplied(v)
      ensures v == old(volume) ==> core.calls == old(core.calls)
      ensures v != old(volume) ==>
        var unmute := Clamp(v) > 0 && old(isMuted);
        core.calls == old(core.calls) + IntCall(core.hasMpv, "volume", Clamp(v))
                                      + (if unmute then FlagCall(core.hasMpv, "mute", false) else [])
    {
      if v != volume {
        volume := Clamp(v);
        core.SetVolume(volume);
        notices := notices + [VolumeChanged(volume)];
        if volume > 0 && isMuted {
          SetMute(false);
        }
      }
    }

    /** setMute: when the flag changes, caches it, sends "mute" to the core and emits it once. */
    method SetMute(m: bool)
      requires Valid()
      modifies this, core, core.heap
      ensures Valid()
      ensures core.Snapshot() == old(core.Snapshot()) && core.signals == old(core.signals)
      ensures core.heap.State() == old(core.heap.State())
      ensures lastVolume == old(lastVolume)
      ensures State() == old(State()).(muted := m)
      ensures notices == old(notices) + (if m != old(isMuted) then [MuteChanged(m)] else [])
      ensures core.calls == old(core.calls) + (if m != old(isMuted) then FlagCall(core.hasMpv, "mute", m) else [])
    {
      if m != isMuted {
        isMuted := m;
        core.SetProperty("mute", Bool(isMuted));
        notices := notices + [MuteChanged(isMuted)];
      }
    }

    /** toggleMute: flips the flag (so two toggles restore it), sends it and emits it. */
    method ToggleMute()
      requires Valid()
      modifies this, core, core.heap
      ensures Valid()
      ensures core.Snapshot() == old(core.Snapshot()) && core.signals == old(core.signals)
      ensures core.heap.live == old(core.heap.live) && core.heap.faulted == old(core.heap.faulted)
      ensures lastVolume == old(lastVolume)
      ensures State() == old(State()).(muted := !old(isMuted))
      ensures notices == old(notices) + [MuteChanged(isMuted)]
      ensures core.calls == old(core.calls) + FlagCall(core.hasMpv, "mute", isMuted)
    {
      SetMute(!isMuted);
    }

    /** setPosition: seeks only to a target different from the cached position, which it leaves alone. */
    method SetPosition(p: real)
      modifies core
      ensures core.Snapshot() == old(core.Snapshot()) && core.signals == old(core.signals)
      ensures core.calls == old(core.calls) +
        (if p != position && core.hasMpv then [SetPropertyDouble("time-pos", p)] else [])
    {
      if p != position {
        core.Seek(p);
      }
    }

    /** seekForward: seeks to ForwardTarget(position, duration, seconds). */
    method SeekForward(seconds: real)
      modifies core
      ensures core.Snapshot() == old(core.Snapshot()) && core.signals == old(core.signals)
      ensures var t := ForwardTarget(position, duration, seconds);
        core.calls == old(core.calls) + (if t != position && core.hasMpv then [SetPropertyDouble("time-pos", t)] else [])
    {
      var newPosition := position + seconds;
      if duration > 0.0 {
        newPosition := if newPosition < duration then newPosition else duration;
      }
      SetPosition(newPosition);
    }

    /** seekBackward: seeks to BackwardTarget(position, seconds). */
    method SeekBackward(seconds: real)
      modifies core
      ensures core.Snapshot() == old(core.Snapshot()) && core.signals == old(core.signals)
      ensures var t := BackwardTarget(position, seconds);
        core.calls == old(core.calls) + (if t != position && core.hasMpv then [SetPropertyDouble("time-pos", t)] else [])
    {
      var newPosition := position - seconds;
      newPosition := if 0.0 < newPosition then newPosition else 0.0;
      SetPosition(newPosition);
    }

    /** play, pause, togglePlayPause and stop are forwarded to the core unchanged. */
    method Play()
      requires Valid()
      modifies core, core.heap
      ensures Valid()
      ensures core.Snapshot() == old(core.Snapshot()) && core.signals == old(core.signals)
      ensures core.calls == old(core.calls) + FlagCall(core.hasMpv, "pause", false)
    {
      core.Play();
    }

    method Pause()
      requires Valid()
      modifies core, core.heap
      ensures Valid()
      ensures core.Snapshot() == old(core.Snapshot()) && core.signals == old(core.signals)
      ensures core.calls == old(core.calls) + FlagCall(core.hasMpv, "pause", true)
    {
      core.Pause();
    }

    method TogglePlayPause(reply: Reply)
      requires Valid() && ReplyReadable(reply)
      modifies core, core.heap
      ensures Valid()
      ensures core.Snapshot() == old(core.Snapshot()) && core.signals == old(core.signals)
      ensures core.calls == old(core.calls) + GetCalls(core.hasMpv, "pause", reply.result)
        + FlagCall(core.hasMpv, "pause", !ToBool(ReadValue(core.hasMpv, reply)))
    {
      core.TogglePause(reply.result, reply.node);
    }

    method Stop()
      modifies core
      ensures core.hasMpv == old(core.hasMpv) && core.signals == old(core.signals)
      ensures core.calls == old(core.calls) + [CommandString("stop")]
    {
      core.Stop();
    }

    /**
     * onPropertyChanged: "time-pos", "duration", "volume" and "mute" set their
     * own field, "pause" sets playing to the opposite; each emits the new
     * field. Every other name is ignored.
     */
    method OnPropertyChanged(name: string, value: Value)
      modifies this
      ensures lastVolume == old(lastVolume)
      ensures name == "time-pos" ==>
        State() == old(State()).(position := ToDouble(value)) && notices == old(notices) + [PositionChanged(position)]
      ensures name == "duration" ==>
        State() == old(State()).(duration := ToDouble(value)) && notices == old(notices) + [DurationChanged(duration)]
      ensures name == "pause" ==>
        State() == old(State()).(playing := !ToBool(value)) && notices == old(notices) + [PlaybackStateChanged(isPlaying)]
      ensures name == "volume" ==>
        State() == old(State()).(volume := ToInt(value)) && notices == old(notices) + [VolumeChanged(volume)]
      ensures name == "mute" ==>
        State() == old(State()).(muted := ToBool(value)) && notices == old(notices) + [MuteChanged(isMuted)]
      ensures name !in {"time-pos", "duration", "pause", "volume", "mute"} ==>
        State() == old(State()) && notices == old(notices)
    {
      if name == "time-pos" {
        position := ToDouble(value);
        notices := notices + [PositionChanged(position)];
      } else if name == "duration" {
        duration := ToDouble(value);
        notices := notices + [DurationChanged(duration)];
      } else if name == "pause" {
        isPlaying := !ToBool(value);
        notices := notices + [PlaybackStateChanged(isPlaying)];
      } else if name == "volume" {
        volume := ToInt(value);
        notices := notices + [VolumeChanged(volume)];
      } else if name == "mute" {
        isMuted := ToBool(value);
        notices := notices + [MuteChanged(isMuted)];
      }
    }

    /** onPlaybackFinished: not playing; playbackStateChanged(false) then playbackFinished. */
    method OnPlaybackFinished()
      modifies this
      ensures lastVolume == old(lastVolume)
      ensures State() == old(State()).(playing := false)
      ensures notices == old(notices) + [PlaybackStateChanged(false), Finished]
    {
      isPlaying := false;
      notices := notices + [PlaybackStateChanged(isPlaying)];
      notices := notices + [Finished];
    }
  }
}
