# A verified model of the HarperTV player core

HarperTV is a Qt desktop player built on libmpv. This project models its
engine bridge (`MPVCore`) and the small classes around it in Dafny, and
proves what they promise:

- the playback-state cache (`PlaybackController`);
- the channel list (`ChannelManager`, `JSONParser`, `ChannelData`);
- the settings store (`Settings`);
- the media-loading logic (`MediaPlayer`);
- the time label format (`PlayerControls::formatTime`).

libmpv is an abstract recorder. Every request the bridge makes of it is
appended to `MpvCore.calls`. Whatever libmpv answers is a parameter of the
operation that asks for it: a created handle, a result code, a property node,
the pending event queue. The C heap that `variantToMpvNode` and `freeMpvNode`
work on is a map from live addresses to the allocator that made each block
(`malloc`, `new`, `new[]`). It also carries a flag recording undefined
behaviour, raised by a read of an uninitialised slot or a mismatched free.

Modules, in dependency order:

- `Values`: a `QVariant` as a datatype (bool, int, long long, double, string, list, string-keyed map, other), with `QMap` as a key-ascending sequence of entries. It also holds the conversions `toBool`, `toInt`, `toDouble` and `toString` that the core relies on.
- `Native`: `mpv_node` trees whose every slot records whether it was ever initialised; the heap; `mpvPropertyToVariant` (`Decode`); the free sequence `freeMpvNode` performs (`FreeSeq`).
- `Marshal`: `variantToMpvNode` as a specification function (`EncodeSpec`), and the `NativeHeap` class whose recursive methods allocate, fill and free in place exactly as the C++ does.
- `MarshalProofs`: the round trip, success exactly for encodable values, encode-then-free releasing every block once, and the behaviour on failure.
- `Events`, `CommandLine`: the event drain and the command string, as specification functions with their properties.
- `Core`: the `MpvCore` class.
- `Playback`: the `PlaybackController` class.
- `Channel`, `JsonValue`, `JsonChannels`, `Channels`: `ChannelData`, an abstract JSON value, the parser's record filter and serialisation, and the `ChannelManager` class.
- `AppSettings`: the `Settings` class.
- `Player`: the `MediaPlayer` class.
- `TimeFormat`: `formatTime`.

`ChannelData` is modelled as a datatype with update functions, because the
C++ class is a value type that is always copied (into and out of `QList`, and
through signals). The classes whose fields change in place (`MPVCore`,
`PlaybackController`, `ChannelManager`, `Settings`, `MediaPlayer`) are Dafny
classes. Each method's `ensures` gives the whole new state in terms of the
old one.

## Model

| member | source | states |
|---|---|---|
| Values.Wrap32 | src/core/mpvcore.cpp:354 | `static_cast<int>` of an unsigned value: the identity inside the int range, and otherwise equal modulo 2^32 |
| Values.InsertAscending | src/core/mpvcore.cpp:500 | inserting into a `QMap` keeps its keys strictly ascending |
| Values.LookupInsert | src/data/settings.cpp:69 | after `map[k] = v`, looking up k gives v and every other key gives what it gave before |
| Values.InsertPresent | src/data/settings.cpp:27 | writing back a value a key already holds leaves the map unchanged |
| Values.InsertAllAscending | src/core/mpvcore.cpp:497-503 | inserting an ascending run of fresh keys in order appends them |
| Values.LookupAt | src/data/settings.cpp:64 | in an ascending map, looking up the key of entry m gives that entry's value |
| Values.ParseDecimal | src/core/mediaplayer.cpp:95 | a number stored as its decimal text converts back: the decimal reader behind `toInt` reads `QString::number(n)` as n for every integer n, negative ones included; `toInt` itself gives n inside the `int` range and 0 outside it |
| Values.TextRoundTrip | src/core/playbackcontroller.cpp:17-23 | an int or qlonglong turned into text and back gives the same `toDouble`, and the same `toInt` when it lies in the int range |
| Native.Decode | src/core/mpvcore.cpp:472-508 | decoding gives an invalid value exactly when the node's format is none of STRING, FLAG, INT64, DOUBLE, NODE_ARRAY or NODE_MAP |
| Native.DecodeItems | src/core/mpvcore.cpp:488-491 | an array decodes to one value per element |
| Native.DecodePairs | src/core/mpvcore.cpp:498-502 | a map decodes to one entry per element |
| Native.CString | src/core/mpvcore.cpp:477 | reading a C string stops at the first NUL; a NUL-free string reads back unchanged |
| Native.ReleasesOwned | src/core/mpvcore.cpp:597-632 | a free sequence that releases each owned block once, with its own deallocator, removes exactly those blocks and leaves the undefined-behaviour flag as it was |
| Native.ReleasesKeepsFault | src/core/mpvcore.cpp:610-617 | once a free sequence reads an uninitialised slot, the undefined-behaviour flag stays raised |
| Native.FreeSeqArray | src/core/mpvcore.cpp:604-625 | freeing an array node frees every child in index order, then the values array (`delete[]`), then the list (`delete`) |
| Native.FreeSeqMap | src/core/mpvcore.cpp:604-625 | freeing a map node frees key i then child i for every i, then the values array, the keys array and the list |
| Marshal.NativeHeap.Allocate | src/core/mpvcore.cpp:546-548 | allocation hands out a fresh address and records its allocator |
| Marshal.NativeHeap.FreeMpvNode | src/core/mpvcore.cpp:597-632 | the heap after freeing is the old heap after the node's free sequence, and the node is reset to NONE |
| Marshal.NativeHeap.FreeItems | src/core/mpvcore.cpp:610-617 | the child loop of `freeMpvNode` performs the children's free sequences in index order |
| Marshal.NativeHeap.FreeKey | src/core/mpvcore.cpp:612-615 | a map's key i is freed with `free` |
| Marshal.NativeHeap.VariantToMpvNode | src/core/mpvcore.cpp:510-595 | the result, the node and the heap are exactly those of the encoding specification |
| Marshal.NativeHeap.EncodeList | src/core/mpvcore.cpp:541-560 | filling a new list by an index loop, and freeing it on the first failing element, matches the specification |
| Marshal.NativeHeap.EncodeMap | src/core/mpvcore.cpp:561-588 | filling a new map in key order (key copy, then value), and freeing it on the first failure, matches the specification |
| Marshal.EncodeListUnfold | src/core/mpvcore.cpp:541-560 | a list is encoded as a new list and a values array, then filled from index 0, then closed |
| Marshal.EncodeMapUnfold | src/core/mpvcore.cpp:561-588 | a map is encoded as a new list, a values array and a keys array, then filled from index 0, then closed |
| MarshalProofs.EncodeOkIffEncodable | src/core/mpvcore.cpp:510-595 | encoding succeeds exactly for values built from bool, int, long long, double, string, list and map. An unsupported scalar fails and leaves the node untouched. A list or map with an unsupported element anywhere fails, and the container is left NONE |
| MarshalProofs.ItemsOk | src/core/mpvcore.cpp:552-559 | the list loop succeeds exactly when every remaining element is encodable |
| MarshalProofs.EntriesOk | src/core/mpvcore.cpp:572-587 | the map loop succeeds exactly when every remaining value is encodable |
| MarshalProofs.RoundTrip | src/core/mpvcore.cpp:472-595 | for an encodable value (with a NUL-free string and keys), decoding the encoded node gives the value back, every int widened to 64 bits |
| MarshalProofs.ListRoundTrip | src/core/mpvcore.cpp:484-493 | the same, for a list: element i decodes to element i |
| MarshalProofs.MapRoundTrip | src/core/mpvcore.cpp:494-504 | the same, for a map: key order and values survive |
| MarshalProofs.EncodeOwns | src/core/mpvcore.cpp:510-632 | encoding only adds blocks to the heap, and the node's free sequence releases exactly the blocks the encoding added, each once with its own deallocator (on success, or on any failure once slots are value-initialised) |
| MarshalProofs.EncodeThenFree | src/core/mpvcore.cpp:510-632 | encoding and then freeing an encodable value leaves the live heap as it was, with no undefined behaviour |
| MarshalProofs.UnsupportedFirstElementFaults | src/core/mpvcore.cpp:548-556 | as written, a list whose first element is unsupported fails, and the clean-up reads an uninitialised node |
| MarshalProofs.EncodeFailureLeavesHeap | src/core/mpvcore.cpp:554-592 | with value-initialised arrays, a failed encode leaves the heap's live blocks as they were, raises no fault, and leaves a container NONE and a scalar's node untouched |
| MarshalProofs.InitIrrelevant | src/core/mpvcore.cpp:548-584 | on every supported value, the arrays as written (`new mpv_node[n]`) and value-initialised ones give the same node and the same heap |
| MarshalProofs.FailingContainerFaults | src/core/mpvcore.cpp:548-592 | as written, every list or map that holds an unsupported value, at any depth, fails and reads uninitialised memory while being freed |
| Events.Consumed | src/core/mpvcore.cpp:400-406 | the drain never takes more events than are queued |
| Events.DrainUnfold | src/core/mpvcore.cpp:400-460 | one loop step: a handled event's signals come first, then those of the rest of the queue |
| Events.EmitNodeChange | src/core/mpvcore.cpp:410-425 | a NODE property change emits exactly one propertyChanged with the decoded value, followed by playbackFinished exactly when the name is "eof-reached" and the value converts to true |
| Events.EmitSilent | src/core/mpvcore.cpp:410-458 | a property change in any other format, a log message of any level other than "error" ("fatal" included), a command reply that did not fail, and every other event kind emit nothing |
| Events.DrainAppend | src/core/mpvcore.cpp:400-460 | signals come out in dequeue order |
| Events.DrainIgnoresRest | src/core/mpvcore.cpp:402-406 | the drain stops at the first null event or MPV_EVENT_NONE, and nothing behind it is taken or emitted |
| Events.DrainChangeCount | src/core/mpvcore.cpp:413-416 | a drain emits exactly one propertyChanged per NODE property change it handles |
| Events.DrainFinishedAfterEof | src/core/mpvcore.cpp:416-422 | in a drain's signals, playbackFinished occurs exactly immediately after each propertyChanged reporting end of file |
| CommandLine.BuildCommand | src/core/mpvcore.cpp:318-333 | the builder loop produces the arguments joined by single spaces in order, each argument containing a space wrapped in double quotes |
| CommandLine.JoinSnoc | src/core/mpvcore.cpp:321-322 | appending one more word adds one space and the word |
| CommandLine.TokensOfCommand | src/core/mpvcore.cpp:319-333 | when no argument contains a double quote, reading the command string back (quoted words to the next quote, others to the next space) gives exactly the arguments |
| CommandLine.QuoteCollision | src/core/mpvcore.cpp:325-328 | an embedded double quote is not escaped: `["a b"]` and `["\"a", "b\""]` produce the same string |
| Core.SetPropertyFreesOnce | src/core/mpvcore.cpp:239-247 | with the corrected encoder, `setProperty` leaks nothing and faults nothing on any value: every block it allocates it frees once |
| Core.SetPropertyAsWritten | src/core/mpvcore.cpp:232-247 | the source as written submits the same node and leaves the same heap as the corrected encoder on every supported value; it submits nothing for an unsupported one, leaving the heap untouched for a scalar and faulting for a list or map |
| Core.SubmittedValue | src/core/mpvcore.cpp:239-246 | `setProperty` submits exactly one node, under the given name, which decodes to the value with ints widened |
| Core.MpvCore.constructor | src/core/mpvcore.cpp:30-35 | both handles start null and nothing has been asked of libmpv |
| Core.MpvCore.Destroy | src/core/mpvcore.cpp:37-50 | teardown frees the render context before the engine handle, each only if present, and nulls both |
| Core.MpvCore.Initialize | src/core/mpvcore.cpp:52-94 | the result is true exactly when `mpv_create` returns a handle and `mpv_initialize` does not fail; the options, the log level, the callback and the five observed properties are requested in source order, and each stage only after the one before it succeeded |
| Core.MpvCore.InitializeRenderer | src/core/mpvcore.cpp:96-161 | fails with no engine handle and asks nothing; otherwise frees any existing render context before creating one. Success requires a valid GL context and a non-negative create result, and only a failed create emits the "OpenGL rendering not available" error |
| Core.MpvCore.RenderFrame | src/core/mpvcore.cpp:342-379 | a no-op without a render context; otherwise one render call with the framebuffer id cast to int |
| Core.MpvCore.LoadFile | src/core/mpvcore.cpp:163-180 | with an engine handle, one command `loadfile "<path>"`; without one, nothing |
| Core.MpvCore.Stop | src/core/mpvcore.cpp:198-207 | `stop` is sent whether or not there is an engine handle; a null handle is counted |
| Core.MpvCore.Seek | src/core/mpvcore.cpp:209-225 | with an engine handle, one DOUBLE write of "time-pos"; without one, nothing |
| Core.MpvCore.ObserveProperty | src/core/mpvcore.cpp:286-294 | with an engine handle, one observe request in NODE format; without one, nothing |
| Core.MpvCore.SetProperty | src/core/mpvcore.cpp:232-253 | with no handle, nothing. Otherwise the encoded node is submitted only if encoding succeeded, and is freed once after submission. With the corrected encoder the heap's live blocks are unchanged |
| Core.MpvCore.GetProperty | src/core/mpvcore.cpp:255-284 | with no handle or a failed read, the invalid value; otherwise the decoded node, which libmpv's own free then releases |
| Core.MpvCore.Play | src/core/mpvcore.cpp:182-185 | submits pause=false |
| Core.MpvCore.Pause | src/core/mpvcore.cpp:187-190 | submits pause=true |
| Core.MpvCore.TogglePause | src/core/mpvcore.cpp:192-196 | reads "pause" and submits its negation (an unreadable pause counts as false) |
| Core.MpvCore.SetVolume | src/core/mpvcore.cpp:227-230 | submits the volume as a 64-bit int |
| Core.MpvCore.SetupHardwareAcceleration | src/core/mpvcore.cpp:381-389 | with an engine handle, submits "hwdec" as a string |
| Core.MpvCore.Command | src/core/mpvcore.cpp:296-340 | with no handle or no arguments, nothing is sent; otherwise exactly one command string, built from the arguments' text |
| Core.MpvCore.HandleEvents | src/core/mpvcore.cpp:391-470 | with no handle, nothing; otherwise the emitted signals are those of the drain specification, and the queue is left exactly behind the stopping event |
| Playback.Clamp | src/core/playbackcontroller.cpp:65 | the result lies in 0..100, equals a value already in range, and is 0 below and 100 above |
| Playback.ForwardTarget | src/core/playbackcontroller.cpp:99-107 | the target is position+s, capped at the duration when the duration is positive |
| Playback.BackwardTarget | src/core/playbackcontroller.cpp:109-114 | the target is position−s, and never below 0 |
| Playback.Initial | src/core/playbackcontroller.cpp:12-26 | without a handle, or for any read that yields no value, the defaults playing=false, duration=0, position=0, volume=100, muted=false; every successful read sets its field: playing is the negation of pause, duration and position its `toDouble`, volume its `toInt`, muted its `toBool` |
| Playback.ReadInitial | src/core/playbackcontroller.cpp:12-26 | reads pause, duration, time-pos, volume and mute in that order, and caches what `Initial` gives |
| Playback.PlaybackController.constructor | src/core/playbackcontroller.cpp:4-32 | the cached state is `Initial` of the five reads, made in order; lastVolume is 100 |
| Playback.PlaybackController.SetVolume | src/core/playbackcontroller.cpp:63-77 | the same volume changes nothing. A different one is clamped, cached, sent and emitted, and a positive volume while muted also unmutes (sending mute=false and emitting it) |
| Playback.PlaybackController.SetMute | src/core/playbackcontroller.cpp:116-124 | a matching flag changes nothing; otherwise it flips the flag, sends "mute" once and emits once |
| Playback.PlaybackController.ToggleMute | src/core/playbackcontroller.cpp:126-129 | flips the mute flag and changes nothing else, so toggling twice restores the original state |
| Playback.PlaybackController.SetPosition | src/core/playbackcontroller.cpp:49-56 | a seek is issued only when the target differs from the cached position, and the cache is left alone |
| Playback.PlaybackController.SeekForward | src/core/playbackcontroller.cpp:99-107 | seeks to `ForwardTarget` when it differs from the position |
| Playback.PlaybackController.SeekBackward | src/core/playbackcontroller.cpp:109-114 | seeks to `BackwardTarget` when it differs from the position |
| Playback.PlaybackController.Play | src/core/playbackcontroller.cpp:79-82 | forwards to the core's play |
| Playback.PlaybackController.Pause | src/core/playbackcontroller.cpp:84-87 | forwards to the core's pause |
| Playback.PlaybackController.TogglePlayPause | src/core/playbackcontroller.cpp:89-92 | forwards to the core's togglePause |
| Playback.PlaybackController.Stop | src/core/playbackcontroller.cpp:94-97 | forwards to the core's stop |
| Playback.PlaybackController.OnPropertyChanged | src/core/playbackcontroller.cpp:131-158 | exactly one cached field, chosen by name, is updated and emitted: "pause" sets playing to the negation; any other name changes nothing |
| Playback.PlaybackController.OnPlaybackFinished | src/core/playbackcontroller.cpp:160-165 | playing becomes false; playbackStateChanged(false) is emitted, then playbackFinished |
| Channel.Empty | src/data/channeldata.cpp:4-7 | the default channel has an empty name and an empty url |
| Channel.SetName | src/data/channeldata.cpp:19-22 | changes the name only |
| Channel.SetUrl | src/data/channeldata.cpp:29-32 | changes the url only |
| Channel.ToJson | src/data/channeldata.cpp:34-40 | produces an object |
| Channel.ToJsonShape | src/data/channeldata.cpp:34-40 | the object has exactly the keys "name" and "url", holding the two fields as strings |
| Channel.FromJsonToJson | src/data/channeldata.cpp:34-47 | `fromJson(toJson(c)) == c` |
| Channel.FromJson | src/data/channeldata.cpp:42-47 | `fromJson`: each field is the string stored under its key, or empty when the key is missing or holds a non-string |
| JsonChannels.IsValidChannel | src/core/jsonparser.cpp:65-69 | `isValidChannel`: an object it accepts holds "name" and "url" as strings, and `fromJson` reads exactly those two strings from it; an object missing either key is rejected |
| JsonChannels.ParseDocument | src/core/jsonparser.cpp:38-63 | a document that is not an array is rejected; otherwise the result is the kept records |
| JsonChannels.KeptExactly | src/core/jsonparser.cpp:47-69 | the kept records are `fromJson` of the array's objects holding string "name" and "url", one per such object, in input order, and no others |
| JsonChannels.Serialise | src/core/jsonparser.cpp:73-77 | one `toJson` object per channel, in list order |
| JsonChannels.SaveToFile | src/core/jsonparser.cpp:71-91 | succeeds exactly when the file opens, and writes the serialised array |
| JsonChannels.ParseSerialised | src/core/jsonparser.cpp:47-77 | parsing the array that serialisation produces gives back the original list |
| Channels.ChannelManager.constructor | src/core/channelmanager.cpp:4-7 | an empty list with index −1 |
| Channels.ChannelManager.CurrentChannel | src/core/channelmanager.cpp:47-55 | the selected channel, or an empty one when the index is out of range |
| Channels.ChannelManager.LoadFromFile | src/core/channelmanager.cpp:13-35 | on a parse error, returns false and changes nothing; otherwise replaces the list with the kept records, selects 0 (or −1 if empty), and emits channelsLoaded, channelListChanged and, if a channel is selected, currentChannelChanged |
| Channels.ChannelManager.SaveToFile | src/core/channelmanager.cpp:37-40 | writes an array that reads back as the list |
| Channels.ChannelManager.SetCurrentIndex | src/core/channelmanager.cpp:62-76 | out of range, returns false and changes nothing; in range, selects the index and emits only if it changed |
| Channels.ChannelManager.AddChannel | src/core/channelmanager.cpp:78-89 | appends at the end, keeping earlier entries; selects 0 if nothing was selected |
| Channels.ChannelManager.RemoveChannel | src/core/channelmanager.cpp:91-116 | out of range, returns false and changes nothing; otherwise the list loses that position, and the index keeps its value unless it falls off the end (then count−1, or −1 when empty) |
| Channels.ChannelManager.UpdateChannel | src/core/channelmanager.cpp:118-134 | out of range, returns false; otherwise replaces only that slot and keeps the index |
| AppSettings.Records | src/data/settings.cpp:38-46 | `save` writes one record per map entry |
| AppSettings.EngineDefaultInserts | src/data/settings.cpp:107-124 | the eight engine-default writes produce an ascending map holding exactly vo=gpu, hwdec=auto, audio-channels=auto, audio-device=auto, cache=true, cache-secs=10, network-timeout=5, user-agent=HarperTV/1.0 |
| AppSettings.NewEngineDefaults | src/data/settings.cpp:107-124 | the same, written as the source writes them, one key after another |
| AppSettings.InsertAllSnoc | src/data/settings.cpp:22-28 | the load loop's effect after one more record is that of the earlier records followed by one more `map[key] = value` |
| AppSettings.LookupInsertAll | src/data/settings.cpp:22-28 | after loading, a key holds the value of its last stored record, or what it held before when no record names it |
| AppSettings.InsertAllPresent | src/data/settings.cpp:22-28 | loading records that the map already holds leaves it unchanged |
| AppSettings.SaveThenLoad | src/data/settings.cpp:15-49 | saving a map and loading the records back into the same map leaves it unchanged |
| AppSettings.Settings.constructor | src/data/settings.cpp:3-8 | existing application values are kept and the missing defaults filled in; each engine key holds its last stored record, else its engine default; both change signals are emitted |
| AppSettings.Settings.Value | src/data/settings.cpp:51-54 | the stored value, or the given default when the key is missing |
| AppSettings.Settings.SetValue | src/data/settings.cpp:56-60 | stores the value and emits settingsChanged |
| AppSettings.Settings.MpvValue | src/data/settings.cpp:62-65 | the stored engine value, or the given default when the key is missing |
| AppSettings.Settings.SetMpvValue | src/data/settings.cpp:67-71 | afterwards `mpvValue(k, _)` is v and every other key is unchanged; emits mpvSettingsChanged |
| AppSettings.Settings.InitDefaults | src/data/settings.cpp:88-125 | volume=100, lastChannelIndex=0 and channelsFile=":/default_channels.json" are written only where missing, with other values untouched; the engine defaults are written only into an empty engine map, and a non-empty one is left as it is |
| AppSettings.Settings.ResetToDefaults | src/data/settings.cpp:78-86 | both maps become exactly their defaults, and both change signals are emitted |
| AppSettings.Settings.Save | src/data/settings.cpp:35-49 | the store holds one record per entry, at indices 0..n−1, in key order |
| AppSettings.Settings.Load | src/data/settings.cpp:15-33 | every stored record is written into the engine map in index order, overwriting by key; both change signals are emitted |
| Player.IsNetworkUrl | src/core/mediaplayer.cpp:137-143 | true exactly for the schemes http, https, rtmp, rtsp, mms and rtp |
| Player.PushStep | src/core/mediaplayer.cpp:127-130 | one more loop step submits one more setting on the heap the earlier ones left |
| Player.PushHeapOk | src/core/mediaplayer.cpp:127-130 | with the corrected encoder, pushing every engine setting leaves the heap's live blocks as they were |
| Player.PushedInOrder | src/core/mediaplayer.cpp:99-103 | the i-th submission carries the i-th engine setting, in key order, and decodes to its value |
| Player.MediaPlayer.constructor | src/core/mediaplayer.cpp:5-8 | no current media, not a network stream, nothing emitted |
| Player.MediaPlayer.LoadMedia | src/core/mediaplayer.cpp:50-75 | an empty path changes nothing and calls nothing. Otherwise the path is recorded, with its network kind. A network stream gets cache=true then cache-secs (default 10), anything else cache=false. `loadfile` is the last core call, and mediaLoaded is emitted |
| Player.MediaPlayer.LoadChannel | src/core/mediaplayer.cpp:77-80 | exactly the effect of `loadMedia(channel.url())` |
| Player.MediaPlayer.OnSettingsChanged | src/core/mediaplayer.cpp:116-121 | the stored volume (default 100) is handed to the controller, with the whole effect of `setVolume`: the same volume changes nothing; a different one is clamped, cached and emitted, unmutes when positive (emitting muteChanged), and the controller's other fields are unchanged |
| Player.MediaPlayer.OnMpvSettingsChanged | src/core/mediaplayer.cpp:123-135 | every engine setting is submitted in key order, then the hardware decoder (default "auto"); with the corrected encoder the heap's live blocks are unchanged |
| Player.MediaPlayer.ApplySettings | src/core/mediaplayer.cpp:92-108 | the volume first, with the whole effect of `setVolume` on the controller, then every engine setting in key order, then hwdec; with the corrected encoder the heap's live blocks are unchanged |
| Player.MediaPlayer.OnMpvError | src/core/mediaplayer.cpp:110-114 | the core's error message is passed on |
| TimeFormat.CMod | src/ui/playercontrols.cpp:230-232 | C++ `%`: the division identity holds, the remainder lies in 0..b−1 for a non-negative dividend and in −(b−1)..0 for a negative one |
| TimeFormat.SplitFields | src/ui/playercontrols.cpp:229-232 | hours·3600 + minutes·60 + secs equals the total, with minutes and secs in 0..59 for a non-negative total and in −59..0 for a negative one |
| TimeFormat.Pad2 | src/ui/playercontrols.cpp:234-237 | a field is left-padded with '0' to at least two characters |
| TimeFormat.PadTwoDigits | src/ui/playercontrols.cpp:234-237 | a number below 100 is padded to exactly its two decimal digits |
| TimeFormat.FormatTime | src/ui/playercontrols.cpp:227-238 | `formatTime`: hours, minutes and seconds, each padded to at least two characters and joined by ':', so the label is never shorter than eight characters |
| TimeFormat.FormatTimeRoundTrip | src/ui/playercontrols.cpp:227-238 | for 0 ≤ total < 360000 the label has length 8, with ':' at positions 2 and 5, and reads back as the total |

## Left out

- libmpv itself, OpenGL, the render parameters and the wakeup/render-update callbacks (`mpvcore.cpp:17-28`, `118-160`, `353-378`). These are foreign calls; their results are parameters, and `handleEvents` is called directly.
- The JSON text parser and file I/O (`jsonparser.cpp:10-36`, `79-90`). A parse result is `Result<Json>`, and whether a file opens is a boolean.
- QSettings persistence. The application settings are a map, and the stored engine-settings array is a sequence of records. QSettings' INI type conversions are not modelled.
- QUrl (`mediaplayer.cpp:139`): the scheme of a path is a parameter of `LoadMedia`.
- `MediaPlayer::initialize`, the destructors of `MediaPlayer` and `Settings`, and signal wiring. The model gives the objects to `MediaPlayer`'s constructor and calls the slots directly.
- Allocation failure (`mpvcore.cpp:535-539`, `577-581`): allocation always succeeds.
- `QString::toUtf8`/`fromUtf8`: strings are sequences of characters, with no encoding step.
- Text and number conversions of `QVariant` are modelled in part. `Values.ToInt` of a string reads an optional sign and decimal digits; `Values.ToDouble` of a string reads an optional sign, digits and an optional fraction. Any other text gives 0, where Qt also accepts surrounding whitespace and, for doubles, exponents, `inf` and `nan`.
- Values.ToText: for a double, and for kinds the bridge does not handle (QUrl, QByteArray, ...), it gives the empty string, where Qt gives their text (`"10.5"` for 10.5). `Core.MpvCore.Command` and `CommandLine.BuildCommand` therefore turn a double argument into an empty word. The hwdec value read in `Player.MediaPlayer.OnMpvSettingsChanged` and `Player.MediaPlayer.ApplySettings` is affected the same way if a double is stored there.
- Core.MpvCore.Command: a double argument becomes an empty word in the command string, where Qt writes its text (`"10.5"` for 10.5).
- CommandLine.BuildCommand: a double argument becomes an empty word, where Qt writes its text (`"10.5"` for 10.5).
- Values.ToDouble: a C++ `double` is modelled as an exact, unbounded `real`, with no NaN, no infinities and no rounding. So the conversion of a `qlonglong` above 2^53 is exact, and the double case of `Values.ToInt` rounds an exact value. `Playback.ForwardTarget` and `Playback.BackwardTarget` add and subtract exactly, where `m_position + seconds` rounds (`playbackcontroller.cpp:101`, `111`). `Playback.PlaybackController.SetPosition`, `SeekForward` and `SeekBackward` therefore never see a NaN duration that skips the cap, or a NaN position that always differs from the cached one.
- TimeFormat.FormatTime: the input is an `int`; the `static_cast<int>` of the double argument (`playercontrols.cpp:229`) is not modelled.
- Core.MpvCore.SetProperty: its heap clauses describe the corrected, value-initialised encoder. As written they hold for every supported value (`Core.SetPropertyAsWritten`); a list or map holding an unsupported value faults instead (`MarshalProofs.FailingContainerFaults`).
- Core.SetPropertyFreesOnce: states the corrected encoder's behaviour on every value. The source as written agrees on supported values only, as `Core.SetPropertyAsWritten` states.
- Player.PushHeapOk: uses the corrected encoder. As written it holds when every engine-setting value is supported.
- Player.MediaPlayer.OnMpvSettingsChanged: its heap clause holds as written only when every engine-setting value is supported.
- Player.MediaPlayer.ApplySettings: its heap clause holds as written only when every engine-setting value is supported.
- Logging (`qDebug`, `qWarning`), the unused `snprintf` in `seek`, and the `try`/`catch` blocks (no modelled operation throws).
- Core.MpvCore.Initialize: a second call overwrites a live engine handle without destroying it. The model records only the new handle, so the leak of the old one is not represented.
- TimeFormat.FormatTimeRoundTrip: the input is an `int`. The `static_cast<int>` of the double argument (`playercontrols.cpp:229`) is not modelled.
- Native.CString: a string containing NUL reads back truncated, so the round trips require NUL-free strings and keys.
- Playback.PlaybackController.ToggleMute: "twice restores the state" follows from its single-call contract. No lemma states it, because a lemma cannot call a method.
- Channels.ChannelManager.Count and AppSettings.Settings.AllMpvSettings are plain getters and carry no contract.

## Findings

| source | as written | input that shows it | evidently intended | confidence | as-written member | corrected member |
|---|---|---|---|---|---|---|
| src/core/mpvcore.cpp:548, 556, 568-569, 584 | `new mpv_node[n]` and `new char *[n]` leave the slots uninitialised. When an element fails to encode, `freeMpvNode` walks all n slots, reading the failed element's node, which was never given a format, and every later slot | `setProperty("x", QVariantList{QVariant()})`: the first element is invalid, and the clean-up reads `values[0].format` uninitialised | value-initialised arrays (`new mpv_node[n]()`, `new char *[n]()`). A failed encode then frees only what it allocated, and leaves the container NONE | not executed | MarshalProofs.UnsupportedFirstElementFaults | MarshalProofs.EncodeFailureLeavesHeap |

The rest of the model uses the corrected, value-initialised form: `Core.Submission`
and `Core.AfterSet` encode with `ValueInit`. `MarshalProofs.InitIrrelevant` shows the two
forms agree on every supported value, and `MarshalProofs.FailingContainerFaults` shows that,
as written, every failing list or map faults, not only the one in the example.
