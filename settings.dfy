/**
 * Settings: the application settings (a QSettings store, here a map from
 * key to value) and the engine settings map pushed to libmpv, persisted in
 * the store as the "MPVSettings" array of key/value records.
 */
module AppSettings {
  import opened Values

  /** One record of the "MPVSettings" array: the values stored under "key" and "value". */
  datatype Record = Record(key: Value, value: Value)

  datatype SettingsSignal = SettingsChanged | MpvSettingsChanged

  /** The application defaults initDefaults fills in. */
  const AppDefaults: map<string, Value> :=
    map["volume" := Int(100), "lastChannelIndex" := Int(0), "channelsFile" := Str(":/default_channels.json")]

  /** The default for each engine setting. */
  function EngineDefault(k: string): Option<Value>
  {
    if k == "vo" then Some(Str("gpu"))
    else if k == "hwdec" || k == "audio-channels" || k == "audio-device" then Some(Str("auto"))
    else if k == "cache" then Some(Bool(true))
    else if k == "cache-secs" then Some(Int(10))
    else if k == "network-timeout" then Some(Int(5))
    else if k == "user-agent" then Some(Str("HarperTV/1.0"))
    else None
  }

  /** The records save writes for a map: one per entry, in key order. */
  function Records(es: seq<Entry>): (rs: seq<Record>)
    ensures |rs| == |es|
  {
    seq(|es|, i requires 0 <= i < |es| => Record(Str(es[i].key), es[i].value))
  }

  /** The pairs load reads from records: the key converted to text. */
  function Pairs(rs: seq<Record>): (ps: seq<Entry>)
    ensures |ps| == |rs|
  {
    seq(|rs|, i requires 0 <= i < |rs| => Entry(ToText(rs[i].key), rs[i].value))
  }

  /** The value the last pair with key `k` carries, if any. */
  function LastFor(ps: seq<Entry>, k: string): Option<Value>
  {
    if |ps| == 0 then None
    else
      var later := LastFor(ps[1..], k);
      if later.Some? then later else if ps[0].key == k then Some(ps[0].value) else None
  }

  /** A map holding exactly the eight engine defaults, in key order. */
  ghost predicate IsEngineDefaults(m: seq<Entry>)
  {
    Ascending(m) && forall k :: Lookup(m, k) == EngineDefault(k)
  }

  /** The eight inserts of initDefaults, in source order, into an empty map. */
  lemma EngineDefaultInserts()
    ensures IsEngineDefaults(
      Insert(Insert(Insert(Insert(Insert(Insert(Insert(Insert([],
        "vo", Str("gpu")), "hwdec", Str("auto")), "audio-channels", Str("auto")),
        "audio-device", Str("auto")), "cache", Bool(true)), "cache-secs", Int(10)),
        "network-timeout", Int(5)), "user-agent", Str("HarperTV/1.0")))
  {
    var m1 := Insert([], "vo", Str("gpu"));
    var m2 := Insert(m1, "hwdec", Str("auto"));
    var m3 := Insert(m2, "audio-channels", Str("auto"));
    var m4 := Insert(m3, "audio-device", Str("auto"));
    var m5 := Insert(m4, "cache", Bool(true));
    var m6 := Insert(m5, "cache-secs", Int(10));
    var m7 := Insert(m6, "network-timeout", Int(5));
    InsertAscending([], "vo", Str("gpu"));
    InsertAscending(m1, "hwdec", Str("auto"));
    InsertAscending(m2, "audio-channels", Str("auto"));
    InsertAscending(m3, "audio-device", Str("auto"));
    InsertAscending(m4, "cache", Bool(true));
    InsertAscending(m5, "cache-secs", Int(10));
    InsertAscending(m6, "network-timeout", Int(5));
    InsertAscending(m7, "user-agent", Str("HarperTV/1.0"));
    forall x ensures Lookup(Insert(m7, "user-agent", Str("HarperTV/1.0")), x) == EngineDefault(x) {
      LookupInsert([], "vo", Str("gpu"), x);
      LookupInsert(m1, "hwdec", Str("auto"), x);
      LookupInsert(m2, "audio-channels", Str("auto"), x);
      LookupInsert(m3, "audio-device", Str("auto"), x);
      LookupInsert(m4, "cache", Bool(true), x);
      LookupInsert(m5, "cache-secs", Int(10), x);
      LookupInsert(m6, "network-timeout", Int(5), x);
      LookupInsert(m7, "user-agent", Str("HarperTV/1.0"), x);
    }
  }

  /**
   * The engine half of initDefaults: the eight inserts into an empty map.
   * The result holds exactly the eight settings with their defaults, in key
   * order (an ascending map is determined by its lookups).
   */
  method NewEngineDefaults() returns (m: seq<Entry>)
    ensures IsEngineDefaults(m)
  {
    m := [];
    m := Insert(m, "vo", Str("gpu"));
    m := Insert(m, "hwdec", Str("auto"));
    m := Insert(m, "audio-channels", Str("auto"));
    m := Insert(m, "audio-device", Str("auto"));
    m := Insert(m, "cache", Bool(true));
    m := Insert(m, "cache-secs", Int(10));
    m := Insert(m, "network-timeout", Int(5));
    m := Insert(m, "user-agent", Str("HarperTV/1.0"));
    EngineDefaultInserts();
  }

  /** One more pair inserted at the end of a run of inserts. */
  lemma {:induction false} InsertAllSnoc(acc: seq<Entry>, ps: seq<Entry>, p: Entry)
    ensures InsertAll(acc, ps + [p]) == Insert(InsertAll(acc, ps), p.key, p.value)
    decreases |ps|
  {
    if |ps| == 0 {
      assert (ps + [p])[1..] == [];
    } else {
      assert (ps + [p])[1..] == ps[1..] + [p];
      InsertAllSnoc(Insert(acc, ps[0].key, ps[0].value), ps[1..], p);
    }
  }

  /** Loading overwrites by key: the last record for a key wins, other keys keep their value. */
  lemma {:induction false} LookupInsertAll(acc: seq<Entry>, ps: seq<Entry>, k: string)
    ensures Lookup(InsertAll(acc, ps), k) == if LastFor(ps, k).Some? then LastFor(ps, k) else Lookup(acc, k)
    decreases |ps|
  {
    if |ps| > 0 {
      LookupInsertAll(Insert(acc, ps[0].key, ps[0].value), ps[1..], k);
      LookupInsert(acc, ps[0].key, ps[0].value, k);
    }
  }

  /** Inserting pairs a map already holds leaves it unchanged. */
  lemma {:induction false} InsertAllPresent(acc: seq<Entry>, ps: seq<Entry>)
    requires Ascending(acc)
    requires forall i :: 0 <= i < |ps| ==> Lookup(acc, ps[i].key) == Some(ps[i].value)
    ensures InsertAll(acc, ps) == acc
    decreases |ps|
  {
    if |ps| > 0 {
      InsertPresent(acc, ps[0].key, ps[0].value);
      InsertAllPresent(acc, ps[1..]);
    }
  }

  /** Reading back what save wrote, into the same map, changes nothing. */
  lemma SaveThenLoad(m: seq<Entry>)
    requires Ascending(m)
    ensures Pairs(Records(m)) == m
    ensures InsertAll(m, Pairs(Records(m))) == m
  {
    assert Pairs(Records(m)) == m;
    forall i | 0 <= i < |m| ensures Lookup(m, m[i].key) == Some(m[i].value) {
      LookupAt(m, i);
    }
    InsertAllPresent(m, m);
  }

  class Settings {
    /** The QSettings store's plain keys. */
    var app: map<string, Value>
    /** The store's "MPVSettings" array. */
    var saved: seq<Record>
    /** m_mpvSettings: a QMap, so keys ascending. */
    var mpv: seq<Entry>
    /** Every signal emitted, in order. */
    var emitted: seq<SettingsSignal>

    ghost predicate Valid()
      reads this
    {
      Ascending(mpv)
    }

    /**
     * Settings::Settings over a store holding `app` and `saved`: defaults
     * filled in, then the saved engine settings loaded over them.
     */
    constructor (app: map<string, Value>, saved: seq<Record>)
      ensures Valid()
      ensures this.saved == saved
      ensures forall k :: k in app ==> k in this.app && this.app[k] == app[k]
      ensures forall k :: k in AppDefaults && k !in app ==> k in this.app && this.app[k] == AppDefaults[k]
      ensures this.app.Keys == app.Keys + AppDefaults.Keys
      ensures forall k :: Lookup(mpv, k) == if LastFor(Pairs(saved), k).Some? then LastFor(Pairs(saved), k) else EngineDefault(k)
      ensures emitted == [SettingsChanged, MpvSettingsChanged]
    {
      this.app := app;
      this.saved := saved;
      mpv := [];
      emitted := [];
      new;
      InitDefaults();
      ghost var defaults := mpv;
      Load();
      forall k ensures Lookup(mpv, k) == if LastFor(Pairs(saved), k).Some? then LastFor(Pairs(saved), k) else EngineDefault(k) {
        LookupInsertAll(defaults, Pairs(saved), k);
      }
    }

    /** value(key, default). */
    function Value(key: string, default: Value): (v: Value)
      reads this
      ensures key in app ==> v == app[key]
      ensures key !in app ==> v == default
    {
      if key in app then app[key] else default
    }

    /** setValue. */
    method SetValue(key: string, value: Value)
      modifies this
      ensures app == old(app)[key := value] && mpv == old(mpv) && saved == old(saved)
      ensures emitted == old(emitted) + [SettingsChanged]
    {
      app := app[key := value];
      emitted := emitted + [SettingsChanged];
    }

    /** mpvValue(k, d): the stored value when k is present, d otherwise. */
    function MpvValue(key: string, default: Value): (v: Value)
      reads this
      ensures Lookup(mpv, key).Some? ==> v == Lookup(mpv, key).value
      ensures Lookup(mpv, key).None? ==> v == default
    {
      match Lookup(mpv, key)
      case Some(v) => v
      case None => default
    }

    /** setMpvValue(k, v): k now reads v; every other key reads as before. */
    method SetMpvValue(key: string, value: Value)
      requires Valid()
      modifies this
      ensures Valid()
      ensures mpv == Insert(old(mpv), key, value)
      ensures forall d :: MpvValue(key, d) == value
      ensures forall k, d :: k != key ==> MpvValue(k, d) == old(MpvValue(k, d))
      ensures app == old(app) && saved == old(saved)
      ensures emitted == old(emitted) + [MpvSettingsChanged]
    {
      ghost var before := mpv;
      InsertAscending(mpv, key, value);
      mpv := Insert(mpv, key, value);
      forall k | true ensures Lookup(mpv, k) == if k == key then Some(value) else Lookup(before, k) {
        LookupInsert(before, key, value, k);
      }
      emitted := emitted + [MpvSettingsChanged];
    }

    /** allMpvSettings: the whole engine map, in key order. */
    function AllMpvSettings(): seq<Entry>
      reads this
    {
      mpv
    }

    /**
     * initDefaults: each application default only where its key is missing;
     * the eight engine defaults only when the engine map is empty.
     */
    method InitDefaults()
      requires Valid()
      modifies this
      ensures Valid()
      ensures forall k :: k in old(app) ==> k in app && app[k] == old(app)[k]
      ensures forall k :: k in AppDefaults && k !in old(app) ==> k in app && app[k] == AppDefaults[k]
      ensures app.Keys == old(app).Keys + AppDefaults.Keys
      ensures |old(mpv)| == 0 ==> IsEngineDefaults(mpv)
      ensures |old(mpv)| > 0 ==> mpv == old(mpv)
      ensures saved == old(saved) && emitted == old(emitted)
    {
      var general := app;
      if "volume" !in general {
        general := general["volume" := Int(100)];
      }
      if "lastChannelIndex" !in general {
        general := general["lastChannelIndex" := Int(0)];
      }
      if "channelsFile" !in general {
        general := general["channelsFile" := Str(":/default_channels.json")];
      }
      app := general;
      if |mpv| == 0 {
        mpv := NewEngineDefaults();
      }
    }

    /** resetToDefaults: the store cleared, then exactly the defaults. */
    method ResetToDefaults()
      requires Valid()
      modifies this
      ensures Valid()
      ensures app == AppDefaults && saved == [] && IsEngineDefaults(mpv)
      ensures emitted == old(emitted) + [SettingsChanged, MpvSettingsChanged]
    {
      app := map[];
      saved := [];
      mpv := [];
      InitDefaults();
      emitted := emitted + [SettingsChanged, MpvSettingsChanged];
    }

    /** save: one record per engine setting, at indices 0..n-1, in key order. */
    method Save()
      modifies this
      ensures saved == Records(mpv)
      ensures app == old(app) && mpv == old(mpv) && emitted == old(emitted)
    {
      var written: seq<Record> := [];
      var i := 0;
      while i < |mpv|
        invariant 0 <= i <= |mpv|
        invariant written == Records(mpv[..i])
      {
        written := written + [Record(Str(mpv[i].key), mpv[i].value)];
        i := i + 1;
      }
      assert mpv[..|mpv|] == mpv;
      saved := written;
    }

    /** load: every saved record inserted into the engine map in array order. */
    method Load()
      requires Valid()
      modifies this
      ensures Valid()
      ensures mpv == InsertAll(old(mpv), Pairs(saved))
      ensures app == old(app) && saved == old(saved)
      ensures emitted == old(emitted) + [SettingsChanged, MpvSettingsChanged]
    {
      ghost var ps := Pairs(saved);
      ghost var m0 := mpv;
      var size := |saved|;
      for i := 0 to size
        invariant Valid()
        invariant app == old(app) && saved == old(saved) && emitted == old(emitted)
        invariant mpv == InsertAll(m0, ps[..i])
      {
        var key := ToText(saved[i].key);
        var value := saved[i].value;
        assert ps[..i + 1] == ps[..i] + [Entry(key, value)];
        InsertAllSnoc(m0, ps[..i], Entry(key, value));
        InsertAscending(mpv, key, value);
        mpv := Insert(mpv, key, value);
      }
      assert ps[..size] == ps;
      emitted := emitted + [SettingsChanged, MpvSettingsChanged];
    }
  }
}
