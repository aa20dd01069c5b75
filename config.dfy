/**
 * The application settings: the defaults, the coercion of each value read from
 * `settings.json`, and the default paths. The JSON decoder and float conversion are
 * foreign: the decoded file contents and `float()` are parameters.
 */
module Config {
  import opened Wrappers
  import opened Text
  import opened PyValues
  import OdsStore

  const SettingsFilename := "settings.json"
  const DefaultOutputDirname := "exports"

  /**
   * The instructions sent as the system message when no prompt is configured. Its
   * wording plays no part in any property here, so its text is not reproduced.
   */
  const DefaultSystemPrompt: string

  /**
   * The settings dictionary. Its key set is fixed (the ten keys of `DEFAULT_SETTINGS`,
   * which `load_settings` copies and only ever overwrites), so it is a record with one
   * field per key. The temperature is a float, kept as the value `float()` returned.
   */
  datatype Settings = Settings(
    endpoint: string,
    model: string,
    temperature: PyValue,
    systemPrompt: string,
    dbPath: string,
    normalizeCasefold: bool,
    exportOnProcess: bool,
    exportMode: string,
    consolidatedExportName: string,
    autoImportOds: bool)

  /** `DEFAULT_SETTINGS`. */
  const DefaultSettings := Settings(
    "http://127.0.0.1:1234/v1/chat/completions",
    "mistralai/ministral-3-14b-reasoning",
    Opaque("0.2"),
    DefaultSystemPrompt,
    "vocabulary.db",
    true,
    false,
    "per_category",
    "vocabulary_all.ods",
    true)

  // ---------------------------------------------------------------------------
  // Coercion
  // ---------------------------------------------------------------------------

  /** `settings[key]`: the value held under a key, as the dictionary shows it. */
  function Lookup(s: Settings, key: string): Option<PyValue> {
    if key == "endpoint" then Some(PyStr(s.endpoint))
    else if key == "model" then Some(PyStr(s.model))
    else if key == "temperature" then Some(s.temperature)
    else if key == "system_prompt" then Some(PyStr(s.systemPrompt))
    else if key == "db_path" then Some(PyStr(s.dbPath))
    else if key == "normalize_casefold" then Some(PyBool(s.normalizeCasefold))
    else if key == "export_on_process" then Some(PyBool(s.exportOnProcess))
    else if key == "export_mode" then Some(PyStr(s.exportMode))
    else if key == "consolidated_export_name" then Some(PyStr(s.consolidatedExportName))
    else if key == "auto_import_ods" then Some(PyBool(s.autoImportOds))
    else None
  }

  /** The keys whose values must be non-blank strings. */
  predicate StringKey(key: string) {
    key == "endpoint" || key == "model" || key == "system_prompt" || key == "db_path"
    || key == "export_mode" || key == "consolidated_export_name"
  }

  /** The keys whose values are switches. */
  predicate BoolKey(key: string) {
    key == "normalize_casefold" || key == "export_on_process" || key == "auto_import_ods"
  }
  const TemperatureKey := "temperature"

  // ---------------------------------------------------------------------------
  // Coercion
  // ---------------------------------------------------------------------------

  /** `_coerce_str`: a string with some non-whitespace content, else the default. */
  function CoerceStr(value: PyValue, default: string): (r: string)
    ensures value.PyStr? && !AllSpace(value.s) ==> r == value.s
    ensures !(value.PyStr? && !AllSpace(value.s)) ==> r == default
  {
    if value.PyStr? then
      StripEmptyIffAllSpace(value.s);
      if Strip(value.s) != [] then value.s else default
    else default
  }

  predicate TrueWord(w: string) {
    w == "true" || w == "1" || w == "yes" || w == "y"
  }

  predicate FalseWord(w: string) {
    w == "false" || w == "0" || w == "no" || w == "n"
  }

  /** The word a string stands for as a switch: stripped and lower-cased. */
  function SwitchWord(s: string): string {
    AsciiLower(Strip(s))
  }

  /**
   * `_coerce_bool`: booleans pass through; a string reads as a switch word after
   * stripping and lower-casing; anything else keeps the default.
   */
  function CoerceBool(value: PyValue, default: bool): (r: bool)
    ensures value.PyBool? ==> r == value.b
    ensures value.PyStr? && TrueWord(SwitchWord(value.s)) ==> r
    ensures value.PyStr? && FalseWord(SwitchWord(value.s)) ==> !r
    ensures !value.PyBool? && !(value.PyStr? && (TrueWord(SwitchWord(value.s)) || FalseWord(SwitchWord(value.s))))
            ==> r == default
  {
    match value
    case PyBool(b) => b
    case PyStr(s) =>
      var lowered := SwitchWord(s);
      if TrueWord(lowered) then true
      else if FalseWord(lowered) then false
      else default
    case _ => default
  }

  lemma LowerCapitalised()
    ensures AsciiLower("True") == "true" && AsciiLower("False") == "false"
  {
    var t := AsciiLower("True");
    assert t[0] == 't' && t[1] == 'r' && t[2] == 'u' && t[3] == 'e';
    var f := AsciiLower("False");
    assert f[0] == 'f' && f[1] == 'a' && f[2] == 'l' && f[3] == 's' && f[4] == 'e';
  }

  lemma ShownSwitchWord(b: bool)
    ensures SwitchWord(Show(PyBool(b))) == if b then "true" else "false"
  {
    var s := Show(PyBool(b));
    assert s == if b then "True" else "False";
    assert IsStripped(s);
    StrippedIsFixpoint(s);
    LowerCapitalised();
  }

  /** What Python prints for a switch reads back as that switch, whatever the default. */
  lemma BoolTextRoundTrip(b: bool, default: bool)
    ensures CoerceBool(PyStr(Show(PyBool(b))), default) == b
  {
    ShownSwitchWord(b);
  }

  /** A coerced string passes the same coercion again unchanged when the default itself is valid. */
  lemma CoerceStrIdempotent(value: PyValue, default: string)
    requires !AllSpace(default)
    ensures CoerceStr(PyStr(CoerceStr(value, default)), default) == CoerceStr(value, default)
  {
  }

  /** `_coerce_float`, with `float()` given: its result, or the default where it raises. */
  function CoerceFloat(toFloat: PyValue -> Option<PyValue>, value: PyValue, default: PyValue): (r: PyValue)
    ensures toFloat(value).Some? ==> r == toFloat(value).value
    ensures toFloat(value).None? ==> r == default
  {
    match toFloat(value)
    case Some(f) => f
    case None => default
  }

  // ---------------------------------------------------------------------------
  // Paths
  // ---------------------------------------------------------------------------

  /** `cwd or os.getcwd()`: the given directory unless it is missing or empty. */
  function BaseDir(cwd: Option<string>, currentDir: string): string {
    if cwd.Some? && cwd.value != [] then cwd.value else currentDir
  }

  /** `get_default_settings_path`. */
  function DefaultSettingsPath(cwd: Option<string>, currentDir: string): string {
    OdsStore.JoinPath(BaseDir(cwd, currentDir), SettingsFilename)
  }

  /** `resolve_default_output_dir`. */
  function DefaultOutputDir(cwd: Option<string>, currentDir: string): string {
    OdsStore.JoinPath(BaseDir(cwd, currentDir), DefaultOutputDirname)
  }

  /**
   * Both default paths sit directly in the base directory: the base, a separator when
   * it lacks one, then the file or directory name; the base is the current directory
   * when none is given.
   */
  lemma DefaultPathsInBase(cwd: Option<string>, currentDir: string)
    ensures var base := BaseDir(cwd, currentDir);
      DefaultSettingsPath(cwd, currentDir) == OdsStore.DirPrefix(base) + "settings.json"
      && DefaultOutputDir(cwd, currentDir) == OdsStore.DirPrefix(base) + "exports"
    ensures cwd == None || cwd == Some("") ==> BaseDir(cwd, currentDir) == currentDir
    ensures cwd.Some? && cwd.value != [] ==> BaseDir(cwd, currentDir) == cwd.value
  {
  }

  // ---------------------------------------------------------------------------
  // load_settings
  // ---------------------------------------------------------------------------

  datatype ConfigError = MissingSettings(path: string)

  /** The text of the FileNotFoundError. */
  function ErrorMessage(e: ConfigError): string {
    "Missing settings.json at '" + e.path + "'. Create a settings.json file with "
    + "keys: endpoint, model, temperature, system_prompt, db_path."
  }

  /** The settings after the key-by-key merge of the decoded file contents over the defaults. */
  function Merged(data: PyValue, toFloat: PyValue -> Option<PyValue>): Settings {
    if !data.PyDict? then DefaultSettings
    else
      var e := data.entries;
      var d := DefaultSettings;
      Settings(
        CoerceStr(Get(e, "endpoint", PyNone), d.endpoint),
        CoerceStr(Get(e, "model", PyNone), d.model),
        CoerceFloat(toFloat, Get(e, "temperature", PyNone), d.temperature),
        CoerceStr(Get(e, "system_prompt", PyNone), d.systemPrompt),
        CoerceStr(Get(e, "db_path", PyNone), d.dbPath),
        CoerceBool(Get(e, "normalize_casefold", PyNone), d.normalizeCasefold),
        CoerceBool(Get(e, "export_on_process", PyNone), d.exportOnProcess),
        CoerceStr(Get(e, "export_mode", PyNone), d.exportMode),
        CoerceStr(Get(e, "consolidated_export_name", PyNone), d.consolidatedExportName),
        CoerceBool(Get(e, "auto_import_ods", PyNone), d.autoImportOds))
  }

  /** The path `load_settings` opens: the one given, else `settings.json` in the current directory. */
  function SettingsPath(path: Option<string>, currentDir: string): string {
    if path.Some? && path.value != [] then path.value else DefaultSettingsPath(None, currentDir)
  }

  /**
   * `load_settings`, given the decoded contents of the files that exist: a missing
   * file raises; otherwise the defaults are copied and overwritten key by key.
   */
  method LoadSettings(files: map<string, PyValue>, path: Option<string>, currentDir: string,
                      toFloat: PyValue -> Option<PyValue>)
    returns (r: Result<Settings, ConfigError>)
    ensures SettingsPath(path, currentDir) !in files ==> r == Failure(MissingSettings(SettingsPath(path, currentDir)))
    ensures SettingsPath(path, currentDir) in files ==> r == Success(Merged(files[SettingsPath(path, currentDir)], toFloat))
  {
    var p := SettingsPath(path, currentDir);
    if p !in files {
      return Failure(MissingSettings(p));
    }
    var settings := DefaultSettings;
    var data := files[p];
    if data.PyDict? {
      var e := data.entries;
      settings := settings.(endpoint := CoerceStr(Get(e, "endpoint", PyNone), settings.endpoint));
      settings := settings.(model := CoerceStr(Get(e, "model", PyNone), settings.model));
      settings := settings.(systemPrompt := CoerceStr(Get(e, "system_prompt", PyNone), settings.systemPrompt));
      settings := settings.(temperature := CoerceFloat(toFloat, Get(e, "temperature", PyNone), settings.temperature));
      settings := settings.(dbPath := CoerceStr(Get(e, "db_path", PyNone), settings.dbPath));
      settings := settings.(normalizeCasefold := CoerceBool(Get(e, "normalize_casefold", PyNone), settings.normalizeCasefold));
      settings := settings.(exportOnProcess := CoerceBool(Get(e, "export_on_process", PyNone), settings.exportOnProcess));
      settings := settings.(exportMode := CoerceStr(Get(e, "export_mode", PyNone), settings.exportMode));
      settings := settings.(consolidatedExportName := CoerceStr(Get(e, "consolidated_export_name", PyNone), settings.consolidatedExportName));
      settings := settings.(autoImportOds := CoerceBool(Get(e, "auto_import_ods", PyNone), settings.autoImportOds));
    }
    r := Success(settings);
  }

  /** Every default key is present in any settings value, and no other key is. */
  lemma EveryKeyHeld(s: Settings, key: string)
    ensures Lookup(s, key).Some? <==> StringKey(key) || BoolKey(key) || key == TemperatureKey
  {
  }

  /** Contents that are not a JSON object leave exactly the defaults. */
  lemma NonObjectGivesDefaults(data: PyValue, toFloat: PyValue -> Option<PyValue>, key: string)
    requires !data.PyDict?
    ensures Lookup(Merged(data, toFloat), key) == Lookup(DefaultSettings, key)
  {
  }

  /** A string setting shows the file's value when it is valid text, else the default. */
  lemma StringField(v: PyValue, default: string)
    ensures Some(PyStr(CoerceStr(v, default)))
            == if v.PyStr? && !AllSpace(v.s) then Some(v) else Some(PyStr(default))
  {
  }

  /**
   * Each string key is coerced on its own: it takes the file's value when that is a
   * string with non-whitespace content, and keeps its default otherwise (missing,
   * blank or not a string).
   */
  lemma StringKeyCoerced(entries: seq<(string, PyValue)>, toFloat: PyValue -> Option<PyValue>, key: string)
    requires StringKey(key)
    ensures var v := Get(entries, key, PyNone);
      Lookup(Merged(PyDict(entries), toFloat), key)
        == if v.PyStr? && !AllSpace(v.s) then Some(v) else Lookup(DefaultSettings, key)
  {
    var m := Merged(PyDict(entries), toFloat);
    var d := DefaultSettings;
    var v := Get(entries, key, PyNone);
    if key == "endpoint" {
      assert Lookup(m, key) == Some(PyStr(CoerceStr(v, d.endpoint)));
      StringField(v, d.endpoint);
    } else if key == "model" {
      assert Lookup(m, key) == Some(PyStr(CoerceStr(v, d.model)));
      StringField(v, d.model);
    } else if key == "system_prompt" {
      assert Lookup(m, key) == Some(PyStr(CoerceStr(v, d.systemPrompt)));
      StringField(v, d.systemPrompt);
    } else if key == "db_path" {
      assert Lookup(m, key) == Some(PyStr(CoerceStr(v, d.dbPath)));
      StringField(v, d.dbPath);
    } else if key == "export_mode" {
      assert Lookup(m, key) == Some(PyStr(CoerceStr(v, d.exportMode)));
      StringField(v, d.exportMode);
    } else {
      assert Lookup(m, key) == Some(PyStr(CoerceStr(v, d.consolidatedExportName)));
      StringField(v, d.consolidatedExportName);
    }
  }

  /**
   * Each switch key is coerced on its own: a boolean is taken, a switch word gives
   * its value, and anything else keeps the default.
   */
  lemma BoolKeyCoerced(entries: seq<(string, PyValue)>, toFloat: PyValue -> Option<PyValue>, key: string)
    requires BoolKey(key)
    ensures var v := Get(entries, key, PyNone);
      Lookup(DefaultSettings, key).Some? && Lookup(DefaultSettings, key).value.PyBool?
      && Lookup(Merged(PyDict(entries), toFloat), key)
         == Some(PyBool(CoerceBool(v, Lookup(DefaultSettings, key).value.b)))
  {
    var m := Merged(PyDict(entries), toFloat);
    var d := DefaultSettings;
    var v := Get(entries, key, PyNone);
    if key == "normalize_casefold" {
      assert Lookup(m, key) == Some(PyBool(CoerceBool(v, d.normalizeCasefold)));
    } else if key == "export_on_process" {
      assert Lookup(m, key) == Some(PyBool(CoerceBool(v, d.exportOnProcess)));
    } else {
      assert Lookup(m, key) == Some(PyBool(CoerceBool(v, d.autoImportOds)));
    }
  }

  /** A key missing from the file keeps its default. */
  lemma MissingKeyKeepsDefault(entries: seq<(string, PyValue)>, toFloat: PyValue -> Option<PyValue>, key: string)
    requires StringKey(key) || BoolKey(key)
    requires !HasKey(entries, key)
    ensures Lookup(Merged(PyDict(entries), toFloat), key) == Lookup(DefaultSettings, key)
  {
    if StringKey(key) {
      StringKeyCoerced(entries, toFloat, key);
    } else {
      BoolKeyCoerced(entries, toFloat, key);
    }
  }
}
