/**
 * Reading the two settings out of the parsed `pref.json` (src/main.rs:53-60).
 * `conf["key"]` yields JSON null when the document is not an object or has no
 * such key, and `.as_str()` accepts only a JSON string, so a missing key and a
 * key holding a number, boolean, array, object or null are the same error.
 */
module Config {
  import opened Wrappers
  import opened Errors

  /** A parsed JSON document; `JOther` stands for null, booleans, numbers and arrays. */
  datatype Json = JString(s: string) | JObject(fields: map<string, Json>) | JOther

  /** The two paths the installer needs. */
  datatype Settings = Settings(gameDir: string, modsDir: string)

  /** `conf[key]`: the member's value, or null. */
  function Index(conf: Json, key: string): (r: Json)
    ensures conf.JObject? && key in conf.fields ==> r == conf.fields[key]
    ensures !(conf.JObject? && key in conf.fields) ==> r == JOther
  {
    match conf
    case JObject(fields) => if key in fields then fields[key] else JOther
    case _ => JOther
  }

  /** `.as_str()` */
  function AsStr(v: Json): (r: Option<string>)
    ensures r.Some? <==> v.JString?
    ensures r.Some? ==> v == JString(r.value)
  {
    match v
    case JString(s) => Some(s)
    case _ => None
  }

  /** The document is an object whose member `key` is a string. */
  predicate HasString(conf: Json, key: string)
  {
    conf.JObject? && key in conf.fields && conf.fields[key].JString?
  }

  /** `conf[key].as_str().ok_or(Error::ConfKeyMissing(key))` */
  function StringField(conf: Json, key: string): (r: Result<string, Error>)
    ensures r.Ok? <==> HasString(conf, key)
    ensures r.Ok? ==> conf.fields[key] == JString(r.value)
    ensures r.Err? ==> r.error == ConfKeyMissing(key)
  {
    match AsStr(Index(conf, key))
    case Some(s) => Ok(s)
    case None => Err(ConfKeyMissing(key))
  }

  /**
   * `gameDir` first, then `modsDir`: the first one that is missing or not a
   * string is the one reported.
   */
  function ReadSettings(conf: Json): (r: Result<Settings, Error>)
    ensures r.Ok? <==> HasString(conf, "gameDir") && HasString(conf, "modsDir")
    ensures r.Ok? ==>
      conf.fields["gameDir"] == JString(r.value.gameDir) && conf.fields["modsDir"] == JString(r.value.modsDir)
    ensures !HasString(conf, "gameDir") ==> r == Err(ConfKeyMissing("gameDir"))
    ensures r == Err(ConfKeyMissing("modsDir")) <==> HasString(conf, "gameDir") && !HasString(conf, "modsDir")
    ensures r.Err? ==> r.error == ConfKeyMissing("gameDir") || r.error == ConfKeyMissing("modsDir")
  {
    match StringField(conf, "gameDir")
    case Err(e) => Err(e)
    case Ok(gameDir) =>
      match StringField(conf, "modsDir")
      case Err(e) => Err(e)
      case Ok(modsDir) => Ok(Settings(gameDir, modsDir))
  }

  /** Only the members `gameDir` and `modsDir` are looked at. */
  lemma ReadSettingsReadsTwoKeys(f1: map<string, Json>, f2: map<string, Json>)
    requires forall k :: k == "gameDir" || k == "modsDir" ==> (k in f1 <==> k in f2) && (k in f1 ==> f1[k] == f2[k])
    ensures ReadSettings(JObject(f1)) == ReadSettings(JObject(f2))
  {
    assert "gameDir" in f1 <==> "gameDir" in f2;
    assert "modsDir" in f1 <==> "modsDir" in f2;
  }

  lemma ExampleNumberIsNotAPath()
    ensures ReadSettings(JObject(map["gameDir" := JOther, "modsDir" := JString("mods")]))
         == Err(ConfKeyMissing("gameDir"))
    ensures ReadSettings(JObject(map["gameDir" := JString("C:\\WoWS")]))
         == Err(ConfKeyMissing("modsDir"))
    ensures ReadSettings(JOther) == Err(ConfKeyMissing("gameDir"))
  {
  }
}
