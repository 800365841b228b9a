/**
 * JSONParser: the channel list read from, and written to, a JSON array of
 * objects. File access and JSON text are library code; the parser works on
 * an already parsed document.
 */
module JsonChannels {
  import opened JsonValue
  import opened Channel

  const NOT_AN_ARRAY := "JSON document is not an array"

  /**
   * isValidChannel: both "name" and "url" are present and are strings, so
   * fromJson reads both exactly; a missing key makes the object invalid.
   */
  predicate IsValidChannel(fields: map<string, Json>): (r: bool)
    ensures r ==> "name" in fields && fields["name"].JString? && "url" in fields && fields["url"].JString? &&
                  FromJson(fields) == ChannelData(fields["name"].s, fields["url"].s)
    ensures "name" !in fields || "url" !in fields ==> !r
  {
    "name" in fields && "url" in fields && fields["name"].JString? && fields["url"].JString?
  }

  /** An array element parseDocument keeps: an object that is a valid channel. */
  predicate Keeps(j: Json)
  {
    j.JObject? && IsValidChannel(j.fields)
  }

  /** The channels of an array: its kept elements through fromJson, in order. */
  function Kept(items: seq<Json>): seq<ChannelData>
  {
    if |items| == 0 then []
    else Kept(items[..|items| - 1]) +
         (if Keeps(items[|items| - 1]) then [FromJson(items[|items| - 1].fields)] else [])
  }

  /** The positions of the kept elements, in order. */
  function KeptAt(items: seq<Json>): seq<nat>
  {
    if |items| == 0 then []
    else KeptAt(items[..|items| - 1]) + (if Keeps(items[|items| - 1]) then [|items| - 1] else [])
  }

  /**
   * parseDocument: a document that is not an array is an error; otherwise
   * the elements that are objects and valid channels, through fromJson, in
   * input order.
   */
  method ParseDocument(doc: Json) returns (r: Result<seq<ChannelData>>)
    ensures !doc.JArray? ==> r == Failure(NOT_AN_ARRAY)
    ensures doc.JArray? ==> r == Success(Kept(doc.items))
  {
    if !doc.JArray? {
      return Failure(NOT_AN_ARRAY);
    }
    var elements := doc.items;
    var channels: seq<ChannelData> := [];
    var i := 0;
    while i < |elements|
      invariant 0 <= i <= |elements|
      invariant channels == Kept(elements[..i])
    {
      assert elements[..i + 1][..i] == elements[..i];
      if !elements[i].JObject? {
        i := i + 1;
        continue;
      }
      var obj := elements[i].fields;
      if IsValidChannel(obj) {
        channels := channels + [FromJson(obj)];
      }
      i := i + 1;
    }
    assert elements[..|elements|] == elements;
    return Success(channels);
  }

  /** The serialisation loop of saveToFile: one toJson object per channel, in list order. */
  method Serialise(channels: seq<ChannelData>) returns (elements: seq<Json>)
    ensures |elements| == |channels|
    ensures forall i :: 0 <= i < |channels| ==> elements[i] == ToJson(channels[i])
  {
    elements := [];
    for i := 0 to |channels|
      invariant |elements| == i
      invariant forall j :: 0 <= j < i ==> elements[j] == ToJson(channels[j])
    {
      elements := elements + [ToJson(channels[i])];
    }
  }

  /**
   * saveToFile: `canOpen` says whether the file could be opened for writing;
   * `doc` is the array written to it then.
   */
  method SaveToFile(channels: seq<ChannelData>, canOpen: bool) returns (ok: bool, doc: Json)
    ensures ok == canOpen
    ensures doc.JArray? && |doc.items| == |channels|
    ensures forall i :: 0 <= i < |channels| ==> doc.items[i] == ToJson(channels[i])
  {
    var elements := Serialise(channels);
    doc := JArray(elements);
    ok := canOpen;
  }

  /**
   * The kept channels are exactly the kept elements: positions strictly
   * increasing, each a kept element read by fromJson, and every kept element
   * among them.
   */
  lemma {:induction false} KeptExactly(items: seq<Json>)
    ensures |KeptAt(items)| == |Kept(items)|
    ensures forall k :: 0 <= k < |KeptAt(items)| ==>
      KeptAt(items)[k] < |items| && Keeps(items[KeptAt(items)[k]]) &&
      Kept(items)[k] == FromJson(items[KeptAt(items)[k]].fields)
    ensures forall k, m :: 0 <= k < m < |KeptAt(items)| ==> KeptAt(items)[k] < KeptAt(items)[m]
    ensures forall i :: 0 <= i < |items| && Keeps(items[i]) ==> i in KeptAt(items)
    decreases |items|
  {
    if |items| > 0 {
      var n := |items| - 1;
      var pre := items[..n];
      KeptExactly(pre);
      var at := KeptAt(pre);
      forall k | 0 <= k < |at| ensures items[at[k]] == pre[at[k]] {
      }
      if Keeps(items[n]) {
        assert KeptAt(items) == at + [n];
        assert Kept(items) == Kept(pre) + [FromJson(items[n].fields)];
      } else {
        assert KeptAt(items) == at;
        assert Kept(items) == Kept(pre);
      }
      forall i | 0 <= i < |items| && Keeps(items[i]) ensures i in KeptAt(items) {
        if i < n {
          assert pre[i] == items[i];
        }
      }
    }
  }

  /** parseDocument of what saveToFile writes gives the channels back. */
  lemma {:induction false} ParseSerialised(elements: seq<Json>, channels: seq<ChannelData>)
    requires |elements| == |channels|
    requires forall i :: 0 <= i < |channels| ==> elements[i] == ToJson(channels[i])
    ensures Kept(elements) == channels
    decreases |elements|
  {
    if |elements| > 0 {
      var n := |elements| - 1;
      ParseSerialised(elements[..n], channels[..n]);
      FromJsonToJson(channels[n]);
      ToJsonShape(channels[n]);
      assert channels[..n] + [channels[n]] == channels;
    }
  }
}
