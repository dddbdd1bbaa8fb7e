/**
 * The persisted form of the configuration (fabricdw/common/config.py):
 * `Installation`, `Defaults` and `Config` records and their `from_dict` /
 * `to_dict` conversions over plain JSON values.
 *
 * Python's exceptions are `Failure` values: a missing dict key is a
 * `KeyError(key)`, subscripting or iterating a value of the wrong kind is a
 * `TypeError`, and `list.remove` of a non-member is a `ValueError`.
 */
module Serialization {
  import opened Wrappers
  import opened JsonValue

  /** One named installation and the directory it lives in. */
  datatype Installation = Installation(name: string, root: string)

  /** `Installation.__eq__`: two records are the same installation when their names agree. */
  predicate SameInstallation(a: Installation, b: Installation): (r: bool)
    ensures r <==> a == b.(root := a.root)
  {
    a.name == b.name
  }

  /**
   * The four default settings. Python keeps whatever value the dict held,
   * so each field is an arbitrary JSON value.
   */
  datatype Defaults = Defaults(minRam: JVal, maxRam: JVal, idleTime: JVal, backups: JVal)

  /** The value of a `Config` object: its defaults and its ordered installations. */
  datatype ConfigRecord = ConfigRecord(defaults: Defaults, installations: seq<Installation>)

  /** The exceptions the registry raises or lets escape. */
  datatype Error =
    | KeyError(key: string)
    | TypeError
    | ValueError
    | InstallationDoesNotExist(name: string)
    | InstallationAlreadyExist(existing: Installation)
    | OSError(path: string)

  const MinRamKey: string := "min-ram"
  const MaxRamKey: string := "max-ram"
  const IdleTimeKey: string := "idle_time"
  const BackupsKey: string := "backups"
  const DefaultsKeys: set<string> := {MinRamKey, MaxRamKey, IdleTimeKey, BackupsKey}

  /** The hard-coded fallback of each setting: 0.5, 6, 0 and 5. */
  const FallbackDefaults: Defaults := Defaults(JNum(0.5), JNum(6.0), JNum(0.0), JNum(5.0))

  /** `_default_get`: the value under `key`, or `fallback` when the key is missing. */
  function DefaultGet<T>(source: map<string, T>, key: string, fallback: T): (r: T)
    ensures key in source ==> r == source[key]
    ensures key !in source ==> r == fallback
  {
    if key in source then source[key] else fallback
  }

  /** `Defaults.__init__` on a dict: each field falls back on its own. */
  function DefaultsFromDict(data: map<string, JVal>): (d: Defaults)
    ensures forall k :: k in DefaultsKeys && k in data ==> DefaultsToDict(d)[k] == data[k]
    ensures forall k :: k in DefaultsKeys && k !in data ==> DefaultsToDict(d)[k] == DefaultsToDict(FallbackDefaults)[k]
  {
    Defaults(
      DefaultGet(data, MinRamKey, FallbackDefaults.minRam),
      DefaultGet(data, MaxRamKey, FallbackDefaults.maxRam),
      DefaultGet(data, IdleTimeKey, FallbackDefaults.idleTime),
      DefaultGet(data, BackupsKey, FallbackDefaults.backups))
  }

  /** Python's `sub in s` on strings: `sub` occurs contiguously in `s`. */
  predicate Contains(s: string, sub: string)
    decreases |s|
  {
    |sub| <= |s| && (s[..|sub|] == sub || (|s| > 0 && Contains(s[1..], sub)))
  }

  /**
   * `Defaults.from_dict(v)` on whatever `data['defaults']` holds. `key in v`
   * is evaluated for every key; on a list it tests membership and on a string
   * it tests for a substring, and when it holds, `v[key]` raises TypeError.
   * On a number, a boolean or None, `key in v` itself raises TypeError.
   */
  function DefaultsFromValue(v: JVal): (r: Result<Defaults, Error>)
    ensures v.JObj? ==> r == Success(DefaultsFromDict(v.obj))
    ensures (v.JNum? || v.JBool? || v.JNull?) ==> r == Failure(TypeError)
    ensures r.Failure? ==> r.error == TypeError
    ensures r.Success? && !v.JObj? ==> r.value == FallbackDefaults
  {
    match v
    case JObj(m) => Success(DefaultsFromDict(m))
    case JArr(xs) =>
      if JStr(MinRamKey) in xs || JStr(MaxRamKey) in xs || JStr(IdleTimeKey) in xs || JStr(BackupsKey) in xs
      then Failure(TypeError)
      else Success(FallbackDefaults)
    case JStr(s) =>
      if Contains(s, MinRamKey) || Contains(s, MaxRamKey) || Contains(s, IdleTimeKey) || Contains(s, BackupsKey)
      then Failure(TypeError)
      else Success(FallbackDefaults)
    case _ => Failure(TypeError)
  }

  /** `Defaults.to_dict`: always all four keys. */
  function DefaultsToDict(d: Defaults): (r: map<string, JVal>)
    ensures r.Keys == DefaultsKeys
  {
    map[MinRamKey := d.minRam, MaxRamKey := d.maxRam, IdleTimeKey := d.idleTime, BackupsKey := d.backups]
  }

  /** An installation entry that `Installation.from_dict` accepts. */
  ghost predicate EntryWellFormed(v: JVal)
  {
    v.JObj? && "name" in v.obj && "root" in v.obj && v.obj["name"].JStr? && v.obj["root"].JStr?
  }

  /** `Installation.from_dict`: `data["name"]` is read before `data["root"]`. */
  function InstallationFromDict(v: JVal): (r: Result<Installation, Error>)
    ensures r.Success? <==> EntryWellFormed(v)
    ensures r.Success? ==> r.value == Installation(v.obj["name"].str, v.obj["root"].str)
    ensures v.JObj? && "name" !in v.obj ==> r == Failure(KeyError("name"))
    ensures v.JObj? && "name" in v.obj && "root" !in v.obj ==> r == Failure(KeyError("root"))
    ensures !v.JObj? ==> r == Failure(TypeError)
  {
    match v
    case JObj(m) =>
      if "name" !in m then Failure(KeyError("name"))
      else if "root" !in m then Failure(KeyError("root"))
      else if m["name"].JStr? && m["root"].JStr? then Success(Installation(m["name"].str, m["root"].str))
      else Failure(TypeError)
    case _ => Failure(TypeError)
  }

  /** `Installation.to_dict`. */
  function InstallationToDict(i: Installation): (v: JVal)
    ensures v.JObj? && v.obj.Keys == {"name", "root"}
  {
    JObj(map["root" := JStr(i.root), "name" := JStr(i.name)])
  }

  lemma InstallationRoundTrip(i: Installation)
    ensures InstallationFromDict(InstallationToDict(i)) == Success(i)
  {
  }

  /**
   * The list comprehension of `Config.from_dict`: every entry is converted in
   * order, and the first entry that fails raises, leaving no partial list.
   */
  function InstallationsFromList(xs: seq<JVal>): (r: Result<seq<Installation>, Error>)
    ensures r.Success? <==> forall i :: 0 <= i < |xs| ==> EntryWellFormed(xs[i])
    ensures r.Success? ==> |r.value| == |xs|
    ensures r.Success? ==> forall i :: 0 <= i < |xs| ==> InstallationFromDict(xs[i]) == Success(r.value[i])
    ensures r.Failure? ==> exists i :: 0 <= i < |xs| && InstallationFromDict(xs[i]) == Failure(r.error)
                                      && forall j :: 0 <= j < i ==> EntryWellFormed(xs[j])
  {
    if xs == [] then Success([])
    else
      match InstallationFromDict(xs[0])
      case Failure(e) => Failure(e)
      case Success(first) =>
        match InstallationsFromList(xs[1..])
        case Failure(e) =>
          assert forall i :: 0 <= i < |xs[1..]| ==> xs[1..][i] == xs[i + 1];
          Failure(e)
        case Success(rest) => Success([first] + rest)
  }

  /**
   * Iterating `data['installations']`: a list is converted entry by entry;
   * an empty dict or string yields no entries; a non-empty one yields string
   * keys or characters, which `data["name"]` rejects with TypeError; other
   * values are not iterable.
   */
  function InstallationsFromValue(v: JVal): (r: Result<seq<Installation>, Error>)
    ensures v.JArr? ==> r == InstallationsFromList(v.arr)
    ensures (v.JObj? && v.obj != map[]) || (v.JStr? && v.str != []) ==> r == Failure(TypeError)
    ensures (v.JObj? && v.obj == map[]) || (v.JStr? && v.str == []) ==> r == Success([])
    ensures (v.JNum? || v.JBool? || v.JNull?) ==> r == Failure(TypeError)
  {
    match v
    case JArr(xs) => InstallationsFromList(xs)
    case JObj(m) => if m == map[] then Success([]) else Failure(TypeError)
    case JStr(s) => if s == [] then Success([]) else Failure(TypeError)
    case _ => Failure(TypeError)
  }

  /** The list comprehension of `Config.to_dict`, order kept. */
  function InstallationsToList(s: seq<Installation>): (xs: seq<JVal>)
    ensures |xs| == |s|
    ensures forall i :: 0 <= i < |s| ==> InstallationFromDict(xs[i]) == Success(s[i])
  {
    seq(|s|, i requires 0 <= i < |s| => InstallationToDict(s[i]))
  }

  /**
   * `Config.from_dict`: `data['defaults']` is read and converted first, then
   * `data['installations']`. Any exception escapes and no record is built.
   */
  function ConfigFromDict(v: JVal): (r: Result<ConfigRecord, Error>)
    ensures !v.JObj? ==> r == Failure(TypeError)
    ensures v.JObj? && "defaults" !in v.obj ==> r == Failure(KeyError("defaults"))
    ensures (v.JObj? && "defaults" in v.obj && DefaultsFromValue(v.obj["defaults"]).Success?
             && "installations" !in v.obj) ==> r == Failure(KeyError("installations"))
    ensures r.Success? <==>
            v.JObj? && "defaults" in v.obj && "installations" in v.obj
            && DefaultsFromValue(v.obj["defaults"]).Success?
            && InstallationsFromValue(v.obj["installations"]).Success?
    ensures r.Success? ==>
            r.value.defaults == DefaultsFromValue(v.obj["defaults"]).value
            && r.value.installations == InstallationsFromValue(v.obj["installations"]).value
  {
    match v
    case JObj(m) =>
      if "defaults" !in m then Failure(KeyError("defaults"))
      else
        (match DefaultsFromValue(m["defaults"])
         case Failure(e) => Failure(e)
         case Success(d) =>
           if "installations" !in m then Failure(KeyError("installations"))
           else
             (match InstallationsFromValue(m["installations"])
              case Failure(e) => Failure(e)
              case Success(insts) => Success(ConfigRecord(d, insts))))
    case _ => Failure(TypeError)
  }

  /** `Config.to_dict`. */
  function ConfigToDict(c: ConfigRecord): (v: JVal)
    ensures v.JObj? && v.obj.Keys == {"defaults", "installations"}
    ensures v.obj["defaults"].JObj? && v.obj["defaults"].obj.Keys == DefaultsKeys
    ensures v.obj["installations"].JArr? && |v.obj["installations"].arr| == |c.installations|
  {
    JObj(map[
      "defaults" := JObj(DefaultsToDict(c.defaults)),
      "installations" := JArr(InstallationsToList(c.installations))])
  }

  /** The dict `_load_config` synthesizes when the configuration file is missing. */
  const MissingFileDict: JVal := JObj(map["defaults" := JObj(map[]), "installations" := JArr([])])

  /** Reading `{}` gives every setting its fallback: (0.5, 6, 0, 5). */
  lemma DefaultsFromEmpty()
    ensures DefaultsFromDict(map[]) == FallbackDefaults
  {
  }

  /** A dict with only one key overrides that one setting and no other. */
  lemma DefaultsOverrideOne(key: string, v: JVal)
    requires key in DefaultsKeys
    ensures var d := DefaultsFromDict(map[key := v]);
            d.minRam == (if key == MinRamKey then v else FallbackDefaults.minRam)
            && d.maxRam == (if key == MaxRamKey then v else FallbackDefaults.maxRam)
            && d.idleTime == (if key == IdleTimeKey then v else FallbackDefaults.idleTime)
            && d.backups == (if key == BackupsKey then v else FallbackDefaults.backups)
  {
  }

  /** Keys other than the four settings are ignored. */
  lemma DefaultsIgnoreOtherKeys(data: map<string, JVal>, key: string, v: JVal)
    requires key !in DefaultsKeys
    ensures DefaultsFromDict(data[key := v]) == DefaultsFromDict(data)
  {
  }

  lemma DefaultsRoundTrip(d: Defaults)
    ensures DefaultsFromValue(JObj(DefaultsToDict(d))) == Success(d)
  {
  }

  lemma InstallationsRoundTrip(s: seq<Installation>)
    ensures InstallationsFromList(InstallationsToList(s)) == Success(s)
  {
    var xs := InstallationsToList(s);
    forall i | 0 <= i < |xs|
      ensures EntryWellFormed(xs[i])
    {
      assert InstallationFromDict(xs[i]).Success?;
    }
    var r := InstallationsFromList(xs);
    assert r.Success?;
    forall i | 0 <= i < |s|
      ensures r.value[i] == s[i]
    {
      assert InstallationFromDict(xs[i]) == Success(s[i]);
    }
    assert |r.value| == |s|;
    assert r.value == s;
  }

  /**
   * `Config.from_dict(c.to_dict())` gives back the same defaults and the same
   * installations in the same order.
   */
  lemma ConfigRoundTrip(c: ConfigRecord)
    ensures ConfigFromDict(ConfigToDict(c)) == Success(c)
  {
    DefaultsRoundTrip(c.defaults);
    InstallationsRoundTrip(c.installations);
  }

  /** Loading with no configuration file gives the fallback defaults and no installations. */
  lemma MissingFileConfig()
    ensures ConfigFromDict(MissingFileDict) == Success(ConfigRecord(FallbackDefaults, []))
  {
  }
}
