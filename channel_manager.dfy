/**
 * ChannelManager: the channel list and the index of the selected channel,
 * -1 exactly when the list is empty.
 */
module Channels {
  import opened JsonValue
  import opened Channel
  import opened JsonChannels

  /** The signals the manager emits. */
  datatype ListSignal =
    | ChannelsLoaded
    | ChannelListChanged
    | CurrentChannelChanged(channel: ChannelData)

  class ChannelManager {
    var channels: seq<ChannelData>
    var currentIndex: int
    /** Every signal emitted, in order. */
    var emitted: seq<ListSignal>

    /** The selection invariant. */
    ghost predicate Valid()
      reads this
    {
      (|channels| == 0 ==> currentIndex == -1) &&
      (|channels| > 0 ==> 0 <= currentIndex < |channels|)
    }

    constructor ()
      ensures Valid()
      ensures channels == [] && currentIndex == -1 && emitted == []
    {
      channels, currentIndex, emitted := [], -1, [];
    }

    /** count(). */
    function Count(): (n: nat)
      reads this
    {
      |channels|
    }

    /** currentChannel: the selected channel, or an empty one when the index is out of range. */
    function CurrentChannel(): (c: ChannelData)
      reads this
      ensures 0 <= currentIndex < |channels| ==> c == channels[currentIndex]
      ensures !(0 <= currentIndex < |channels|) ==> c == Empty()
    {
      if currentIndex >= 0 && currentIndex < |channels| then channels[currentIndex] else ChannelData("", "")
    }

    /**
     * loadFromFile: `file` is the document read and parsed from the file, or
     * the error raised on the way. On any error nothing changes; otherwise
     * the list is replaced and the first channel (if any) selected.
     */
    method LoadFromFile(file: Result<Json>) returns (ok: bool)
      requires Valid()
      modifies this
      ensures Valid()
      ensures ok <==> file.Success? && file.value.JArray?
      ensures !ok ==> channels == old(channels) && currentIndex == old(currentIndex) && emitted == old(emitted)
      ensures ok ==> channels == Kept(file.value.items)
      ensures ok ==> currentIndex == (if |channels| == 0 then -1 else 0)
      ensures ok ==> emitted == old(emitted) + [ChannelsLoaded, ChannelListChanged]
                                + (if |channels| > 0 then [CurrentChannelChanged(channels[0])] else [])
    {
      if file.Failure? {
        return false;
      }
      var parsed := ParseDocument(file.value);
      if parsed.Failure? {
        return false;
      }
      channels := parsed.value;
      currentIndex := if |channels| == 0 then -1 else 0;
      emitted := emitted + [ChannelsLoaded, ChannelListChanged];
      if currentIndex >= 0 {
        emitted := emitted + [CurrentChannelChanged(channels[currentIndex])];
      }
      return true;
    }

    /** saveToFile: writes the list through the parser; `canOpen` says whether the file opens. */
    method SaveToFile(canOpen: bool) returns (ok: bool, doc: Json)
      ensures ok == canOpen
      ensures doc.JArray? && Kept(doc.items) == channels
    {
      ok, doc := JsonChannels.SaveToFile(channels, canOpen);
      ParseSerialised(doc.items, channels);
    }

    /**
     * setCurrentIndex: out of range, false and no change; otherwise true, the
     * index set, and a signal only when it actually changed.
     */
    method SetCurrentIndex(index: int) returns (ok: bool)
      requires Valid()
      modifies this
      ensures Valid() && channels == old(channels)
      ensures ok <==> 0 <= index < |channels|
      ensures currentIndex == if ok then index else old(currentIndex)
      ensures emitted == old(emitted) +
        (if ok && index != old(currentIndex) then [CurrentChannelChanged(channels[index])] else [])
    {
      if index < 0 || index >= |channels| {
        return false;
      }
      if currentIndex != index {
        currentIndex := index;
        emitted := emitted + [CurrentChannelChanged(channels[currentIndex])];
      }
      return true;
    }

    /** addChannel: appends; with nothing selected, selects the first entry. */
    method AddChannel(channel: ChannelData)
      requires Valid()
      modifies this
      ensures Valid()
      ensures channels == old(channels) + [channel]
      ensures currentIndex == if old(currentIndex) < 0 then 0 else old(currentIndex)
      ensures emitted == old(emitted) +
        (if old(currentIndex) < 0 then [CurrentChannelChanged(channels[0])] else []) + [ChannelListChanged]
    {
      channels := channels + [channel];
      if currentIndex < 0 {
        currentIndex := 0;
        emitted := emitted + [CurrentChannelChanged(channels[currentIndex])];
      }
      emitted := emitted + [ChannelListChanged];
    }

    /**
     * removeChannel: out of range, false and no change. Otherwise the entry is
     * removed and the index keeps its number unless it falls off the end,
     * where it becomes the last position (or -1 for an empty list). Removing
     * an entry before the selected one therefore moves the selection to the
     * following channel, and that emits no currentChannelChanged.
     */
    method RemoveChannel(index: int) returns (ok: bool)
      requires Valid()
      modifies this
      ensures Valid()
      ensures ok <==> 0 <= index < |old(channels)|
      ensures !ok ==> channels == old(channels) && currentIndex == old(currentIndex) && emitted == old(emitted)
      ensures ok ==> channels == old(channels[..index] + channels[index + 1..])
      ensures ok ==> (currentIndex ==
        if |channels| == 0 then -1
        else if old(currentIndex) >= |channels| then |channels| - 1
        else old(currentIndex))
      ensures ok ==> (emitted == old(emitted) +
        (if |channels| > 0 && (old(currentIndex) >= |channels| || old(currentIndex) == index)
         then [CurrentChannelChanged(channels[currentIndex])] else []) + [ChannelListChanged])
    {
      if index < 0 || index >= |channels| {
        return false;
      }
      channels := channels[..index] + channels[index + 1..];
      if |channels| == 0 {
        currentIndex := -1;
      } else if currentIndex >= |channels| {
        currentIndex := |channels| - 1;
        emitted := emitted + [CurrentChannelChanged(channels[currentIndex])];
      } else if currentIndex == index {
        emitted := emitted + [CurrentChannelChanged(channels[currentIndex])];
      }
      emitted := emitted + [ChannelListChanged];
      return true;
    }

    /** updateChannel: out of range, false; otherwise only that slot is replaced. */
    method UpdateChannel(index: int, channel: ChannelData) returns (ok: bool)
      requires Valid()
      modifies this
      ensures Valid() && currentIndex == old(currentIndex)
      ensures ok <==> 0 <= index < |old(channels)|
      ensures !ok ==> channels == old(channels) && emitted == old(emitted)
      ensures ok ==> channels == old(channels)[index := channel]
      ensures ok ==> (emitted == old(emitted) +
        (if currentIndex == index then [CurrentChannelChanged(channel)] else []) + [ChannelListChanged])
    {
      if index < 0 || index >= |channels| {
        return false;
      }
      channels := channels[index := channel];
      if currentIndex == index {
        emitted := emitted + [CurrentChannelChanged(channels[currentIndex])];
      }
      emitted := emitted + [ChannelListChanged];
      return true;
    }
  }
}
