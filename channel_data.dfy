/**
 * ChannelData: a named stream URL. It is a value type (copied on
 * assignment), so its setters are functional updates here.
 */
module Channel {
  import opened JsonValue

  datatype ChannelData = ChannelData(name: string, url: string)

  /** The default constructor. */
  function Empty(): (c: ChannelData)
    ensures c.name == "" && c.url == ""
  {
    ChannelData("", "")
  }

  /** setName: only the name changes. */
  function SetName(c: ChannelData, name: string): (r: ChannelData)
    ensures r.name == name && r.url == c.url
  {
    c.(name := name)
  }

  /** setUrl: only the url changes. */
  function SetUrl(c: ChannelData, url: string): (r: ChannelData)
    ensures r.url == url && r.name == c.name
  {
    c.(url := url)
  }

  /** toJson: an object holding the two fields under "name" and "url". */
  function ToJson(c: ChannelData): (j: Json)
    ensures j.JObject?
  {
    JObject(map["name" := JString(c.name), "url" := JString(c.url)])
  }

  /**
   * fromJson: a string field is read as it is; a missing or non-string field
   * reads as the empty string.
   */
  function FromJson(fields: map<string, Json>): (c: ChannelData)
    ensures "name" in fields && fields["name"].JString? ==> c.name == fields["name"].s
    ensures "url" in fields && fields["url"].JString? ==> c.url == fields["url"].s
    ensures !("name" in fields && fields["name"].JString?) ==> c.name == ""
    ensures !("url" in fields && fields["url"].JString?) ==> c.url == ""
  {
    ChannelData(StringField(fields, "name"), StringField(fields, "url"))
  }

  /** toJson has exactly the keys "name" and "url", holding the two fields as strings. */
  lemma ToJsonShape(c: ChannelData)
    ensures ToJson(c).fields.Keys == {"name", "url"}
    ensures ToJson(c).fields["name"] == JString(c.name) && ToJson(c).fields["url"] == JString(c.url)
  {
    assert "name" != "url";
  }

  /** fromJson undoes toJson. */
  lemma FromJsonToJson(c: ChannelData)
    ensures FromJson(ToJson(c).fields) == c
  {
    ToJsonShape(c);
  }
}
