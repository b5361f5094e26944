/** electron/config.ts: the settings record, its overlay semantics, and the store that
    reads and writes `app-config.json` and fills empty fields on start-up. */
module AppConfig {
  import opened Wrappers
  import opened Strings

  /** The `Config` record; `dbPath` is optional. */
  datatype Config = Config(decryptionKey: string, employeeId: string, dbPath: Option<string>)

  /** The fields a parsed `app-config.json`, or an argument of `setConfig`, supplies. */
  datatype Partial = Partial(decryptionKey: Option<string>, employeeId: Option<string>, dbPath: Option<string>)

  /** `DEFAULT_CONFIG` as declared. */
  const Defaults := Config("", "", None)

  const NoFields := Partial(None, None, None)

  /** `{ ...base, ...p }`. */
  function Overlay(base: Config, p: Partial): Config {
    Config(p.decryptionKey.GetOr(base.decryptionKey), p.employeeId.GetOr(base.employeeId),
      if p.dbPath.Some? then p.dbPath else base.dbPath)
  }

  /** The fields `JSON.stringify` writes for a whole record: both strings, and `dbPath`
      only when it is set. */
  function Full(c: Config): Partial {
    Partial(Some(c.decryptionKey), Some(c.employeeId), c.dbPath)
  }

  /** `{ ...p, ...q }` on partial records. */
  function Merge(p: Partial, q: Partial): Partial {
    Partial(if q.decryptionKey.Some? then q.decryptionKey else p.decryptionKey,
      if q.employeeId.Some? then q.employeeId else p.employeeId,
      if q.dbPath.Some? then q.dbPath else p.dbPath)
  }

  /** A field the overlay does not supply keeps its old value; one it supplies wins. */
  lemma OverlayFieldwise(base: Config, p: Partial)
    ensures p.decryptionKey.None? ==> Overlay(base, p).decryptionKey == base.decryptionKey
    ensures p.employeeId.None? ==> Overlay(base, p).employeeId == base.employeeId
    ensures p.dbPath.None? ==> Overlay(base, p).dbPath == base.dbPath
    ensures p.decryptionKey.Some? ==> Overlay(base, p).decryptionKey == p.decryptionKey.value
    ensures p.employeeId.Some? ==> Overlay(base, p).employeeId == p.employeeId.value
    ensures p.dbPath.Some? ==> Overlay(base, p).dbPath == p.dbPath
  {
  }

  /** Overlaying nothing is the identity, and overlaying a whole record written out
      reproduces it whenever its `dbPath` is set or the base has none. */
  lemma OverlayIdentityAndRoundTrip(base: Config, c: Config)
    ensures Overlay(base, NoFields) == base
    ensures c.dbPath.Some? || base.dbPath.None? ==> Overlay(base, Full(c)) == c
  {
  }

  /** Two overlays in a row are one overlay of the merged fields. */
  lemma OverlayCompose(base: Config, p: Partial, q: Partial)
    ensures Overlay(Overlay(base, p), q) == Overlay(base, Merge(p, q))
  {
  }

  /** What `getConfig` yields: the defaults when the file is missing or unparsable,
      otherwise the file's fields over them. */
  function Loaded(defaults: Config, file: Option<Partial>): Config {
    match file
    case None => defaults
    case Some(p) => Overlay(defaults, p)
  }

  /** `key && key.trim()`. */
  predicate UsableKey(key: string) {
    key != "" && Trim(key) != ""
  }

  /** The two fill steps of `initializeConfig` on a config value: the new value and
      the `updated` flag. */
  function FillConfig(c: Config, hostname: Result<string>, keyFile: Option<string>): (Config, bool) {
    var (c1, u1) :=
      if c.employeeId == "" && hostname.Ok? then (c.(employeeId := hostname.value), true) else (c, false);
    var (c2, u2) :=
      if c1.decryptionKey == "" && keyFile.Some? && UsableKey(keyFile.value)
      then (c1.(decryptionKey := Trim(keyFile.value)), true)
      else (c1, false);
    (c2, u1 || u2)
  }

  /** A non-empty field is never overwritten; an empty one is filled only from its
      source: the hostname as given, the key file's contents trimmed and non-empty. */
  lemma FillOnlyEmptyFields(c: Config, hostname: Result<string>, keyFile: Option<string>)
    ensures var (r, _) := FillConfig(c, hostname, keyFile);
      && r.dbPath == c.dbPath
      && (c.employeeId != "" ==> r.employeeId == c.employeeId)
      && (c.decryptionKey != "" ==> r.decryptionKey == c.decryptionKey)
      && (r.employeeId != c.employeeId ==> c.employeeId == "" && hostname == Ok(r.employeeId))
      && (r.decryptionKey != c.decryptionKey ==>
            c.decryptionKey == "" && keyFile.Some? && r.decryptionKey == Trim(keyFile.value) && r.decryptionKey != "")
  {
  }

  /** A write is due exactly when a field was assigned: an empty identifier and a
      hostname (possibly itself empty), or an empty key and a usable key file. */
  lemma FillUpdatedExactly(c: Config, hostname: Result<string>, keyFile: Option<string>)
    ensures FillConfig(c, hostname, keyFile).1 <==>
      (c.employeeId == "" && hostname.Ok?) || (c.decryptionKey == "" && keyFile.Some? && UsableKey(keyFile.value))
    ensures !FillConfig(c, hostname, keyFile).1 ==> FillConfig(c, hostname, keyFile).0 == c
  {
  }

  /** Once both fields are non-empty, filling again changes nothing and writes nothing. */
  lemma FillIdempotent(c: Config, hostname: Result<string>, keyFile: Option<string>,
                       hostname2: Result<string>, keyFile2: Option<string>)
    requires c.employeeId != "" && c.decryptionKey != ""
    ensures FillConfig(c, hostname, keyFile) == (c, false)
    ensures var r := FillConfig(c, hostname, keyFile).0; FillConfig(r, hostname2, keyFile2) == (r, false)
  {
  }

  /** A filled key has no surrounding whitespace. */
  lemma FilledKeyIsTrimmed(c: Config, hostname: Result<string>, keyFile: Option<string>)
    requires c.decryptionKey == "" && keyFile.Some? && UsableKey(keyFile.value)
    ensures var k := FillConfig(c, hostname, keyFile).0.decryptionKey;
      k != "" && !IsJsSpace(k[0]) && !IsJsSpace(k[|k| - 1])
  {
  }

  /** Writing a record back over a config with the same `dbPath` reads back as that record. */
  lemma WriteBack(base: Config, c: Config)
    requires base.dbPath == c.dbPath
    ensures Overlay(base, Full(c)) == c
  {
  }

  /** A JavaScript `Config` object, whose fields `initializeConfig` assigns. */
  class ConfigObject {
    var decryptionKey: string
    var employeeId: string
    var dbPath: Option<string>

    function Value(): Config
      reads this
    {
      Config(decryptionKey, employeeId, dbPath)
    }

    constructor(c: Config)
      ensures Value() == c
    {
      decryptionKey := c.decryptionKey;
      employeeId := c.employeeId;
      dbPath := c.dbPath;
    }
  }

  /** The module's state: the one `DEFAULT_CONFIG` object and the parsed contents of
      `app-config.json` (`None` when it is missing or does not parse). */
  class ConfigStore {
    const defaults: ConfigObject
    var file: Option<Partial>

    constructor(file: Option<Partial>)
      ensures fresh(defaults) && defaults.Value() == Defaults && this.file == file
    {
      defaults := new ConfigObject(Defaults);
      this.file := file;
    }

    /** `getConfig`: the defaults object itself when there is no file, a new object
        otherwise. */
    method GetConfig() returns (c: ConfigObject)
      ensures file.None? ==> c == defaults
      ensures file.Some? ==> fresh(c) && c.Value() == Overlay(defaults.Value(), file.value)
      ensures c.Value() == Loaded(defaults.Value(), file)
    {
      match file {
        case None => c := defaults;
        case Some(p) => c := new ConfigObject(Overlay(defaults.Value(), p));
      }
    }

    /** `setConfig`: the current config with `newConfig` over it, written out; a
        failed write leaves the file as it was. */
    method SetConfig(newConfig: Partial, writeError: Option<string>) returns (r: Outcome)
      modifies this
      ensures r == (if writeError.Some? then Fail(writeError.value) else Pass)
      ensures file == (if writeError.Some? then old(file)
        else Some(Full(Overlay(Loaded(defaults.Value(), old(file)), newConfig))))
    {
      var currentConfig := GetConfig();
      var updatedConfig := Overlay(currentConfig.Value(), newConfig);
      if writeError.Some? {
        return Fail(writeError.value);
      }
      file := Some(Full(updatedConfig));
      r := Pass;
    }

    /** `initializeConfig`. When there is no file the object filled in is
        `DEFAULT_CONFIG` itself, so the defaults keep the filled values. */
    method InitializeConfig(hostname: Result<string>, keyFile: Option<string>, writeError: Option<string>)
      returns (r: Result<ConfigObject>)
      modifies this, defaults
      ensures old(file).None? ==> defaults.Value() == Filled(old(defaults.Value()), old(file), hostname, keyFile)
      ensures old(file).Some? ==> defaults.Value() == old(defaults.Value())
      ensures r.Err? <==> Updated(old(defaults.Value()), old(file), hostname, keyFile) && writeError.Some?
      ensures r.Err? ==> r.error == writeError.value
      ensures r.Ok? ==> r.value.Value() == Filled(old(defaults.Value()), old(file), hostname, keyFile)
      ensures r.Ok? && old(file).None? ==> r.value == defaults
      ensures file == (if Updated(old(defaults.Value()), old(file), hostname, keyFile) && writeError.None?
        then Some(Full(Filled(old(defaults.Value()), old(file), hostname, keyFile))) else old(file))
    {
      var currentConfig := GetConfig();
      var updated := FillFields(currentConfig, hostname, keyFile);
      if updated {
        WriteBack(Loaded(defaults.Value(), file), currentConfig.Value());
        var w := SetConfig(Full(currentConfig.Value()), writeError);
        if w.Fail? {
          return Err(w.error);
        }
      }
      r := Ok(currentConfig);
    }
  }

  /** What `initializeConfig` fills in, starting from the stored defaults and file. */
  function Filled(defaults: Config, file: Option<Partial>, hostname: Result<string>, keyFile: Option<string>): Config {
    FillConfig(Loaded(defaults, file), hostname, keyFile).0
  }

  function Updated(defaults: Config, file: Option<Partial>, hostname: Result<string>, keyFile: Option<string>): bool {
    FillConfig(Loaded(defaults, file), hostname, keyFile).1
  }

  /** Steps 1 and 2 of `initializeConfig`, assigning the fields of `current` in place. */
  method FillFields(current: ConfigObject, hostname: Result<string>, keyFile: Option<string>) returns (updated: bool)
    modifies current
    ensures (current.Value(), updated) == FillConfig(old(current.Value()), hostname, keyFile)
  {
    updated := false;
    if current.employeeId == "" {
      match hostname {
        case Ok(h) =>
          current.employeeId := h;
          updated := true;
        case Err(_) =>
      }
    }
    if current.decryptionKey == "" {
      match keyFile {
        case Some(key) =>
          if UsableKey(key) {
            current.decryptionKey := Trim(key);
            updated := true;
          }
        case None =>
      }
    }
  }
}
