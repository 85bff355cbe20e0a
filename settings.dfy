/** SettingsSvc (Core/Services.cs:14-49): the allowed extensions and five
    settings with defaults, overridden one after another from the
    "Behavior" and "ExternalTools" sections of appsettings.json when that
    file exists. Reading and parsing the file are an oracle: the model
    receives what each `Value<T?>(name)` lookup yields. */
module Settings {
  import opened Text

  /** The extensions AddFiles accepts. ".flv" is not among them. */
  const SupportedExtensions: seq<string> := [".mp4", ".m4v", ".mov", ".wmv", ".mkv", ".avi"]

  datatype Settings = Settings(
    createBackup: bool,
    maxBatchDefault: int32,
    atomicParsleyPath: string,
    exifToolPath: string,
    mediaInfoPath: string)

  /** The property initialisers. */
  const Defaults: Settings := Settings(true, 50, "AtomicParsley", "exiftool", "mediainfo")

  /** What one `node.Value<T?>(name)` yields: null (key missing or JSON null),
      a converted value, or an exception (a value that does not convert, or
      a section that is not an object). */
  datatype Lookup<T> = Absent | Present(value: T) | Throws(error: string)

  datatype BehaviorSection = BehaviorSection(createBackup: Lookup<bool>, maxBatchDefault: Lookup<int32>)

  datatype ToolsSection = ToolsSection(atomicParsleyPath: Lookup<string>, exifToolPath: Lookup<string>, mediaInfoPath: Lookup<string>)

  /** appsettings.json as the static constructor sees it. `Unreadable`
      stands for a read or parse exception. */
  datatype ConfigFile =
    | NoFile
    | Unreadable(error: string)
    | Parsed(behavior: Option<BehaviorSection>, tools: Option<ToolsSection>)

  /** `lookup ?? current`. */
  function OrCurrent<T>(current: T, lookup: Lookup<T>): T
  {
    if lookup.Present? then lookup.value else current
  }

  /** The five lookups in the order the constructor performs them; a
      missing section performs no lookup. */
  function Lookups(cfg: ConfigFile): (r: seq<bool>)
    ensures |r| == 5
  {
    match cfg
    case Parsed(b, t) =>
      [ b.Some? && b.value.createBackup.Throws?,
        b.Some? && b.value.maxBatchDefault.Throws?,
        t.Some? && t.value.atomicParsleyPath.Throws?,
        t.Some? && t.value.exifToolPath.Throws?,
        t.Some? && t.value.mediaInfoPath.Throws? ]
    case _ => [false, false, false, false, false]
  }

  /** Position of the first lookup that throws, or 5 when none does. The
      catch block then keeps whatever was assigned before that lookup. */
  function FirstFault(cfg: ConfigFile): (k: nat)
    ensures k <= 5
    ensures k < 5 ==> Lookups(cfg)[k]
    ensures forall j :: 0 <= j < k ==> !Lookups(cfg)[j]
  {
    var l := Lookups(cfg);
    if l[0] then 0 else if l[1] then 1 else if l[2] then 2 else if l[3] then 3 else if l[4] then 4 else 5
  }

  /** The static constructor: start from the defaults, then assign each
      property in turn from its lookup, stopping at the first exception. */
  method LoadSettings(cfg: ConfigFile) returns (s: Settings)
    ensures !cfg.Parsed? ==> s == Defaults
    ensures s.createBackup ==
      if 0 < FirstFault(cfg) && cfg.Parsed? && cfg.behavior.Some?
      then OrCurrent(Defaults.createBackup, cfg.behavior.value.createBackup) else Defaults.createBackup
    ensures s.maxBatchDefault ==
      if 1 < FirstFault(cfg) && cfg.Parsed? && cfg.behavior.Some?
      then OrCurrent(Defaults.maxBatchDefault, cfg.behavior.value.maxBatchDefault) else Defaults.maxBatchDefault
    ensures s.atomicParsleyPath ==
      if 2 < FirstFault(cfg) && cfg.Parsed? && cfg.tools.Some?
      then OrCurrent(Defaults.atomicParsleyPath, cfg.tools.value.atomicParsleyPath) else Defaults.atomicParsleyPath
    ensures s.exifToolPath ==
      if 3 < FirstFault(cfg) && cfg.Parsed? && cfg.tools.Some?
      then OrCurrent(Defaults.exifToolPath, cfg.tools.value.exifToolPath) else Defaults.exifToolPath
    ensures s.mediaInfoPath ==
      if 4 < FirstFault(cfg) && cfg.Parsed? && cfg.tools.Some?
      then OrCurrent(Defaults.mediaInfoPath, cfg.tools.value.mediaInfoPath) else Defaults.mediaInfoPath
    ensures FromDefaultsOrFile(cfg, s)
    ensures FirstFault(cfg) == 0 ==> s == Defaults
  {
    s := Defaults;
    if !cfg.Parsed? {
      return;
    }
    if cfg.behavior.Some? {
      var b := cfg.behavior.value;
      if b.createBackup.Throws? { return; }
      s := s.(createBackup := OrCurrent(s.createBackup, b.createBackup));
      if b.maxBatchDefault.Throws? { return; }
      s := s.(maxBatchDefault := OrCurrent(s.maxBatchDefault, b.maxBatchDefault));
    }
    if cfg.tools.Some? {
      var t := cfg.tools.value;
      if t.atomicParsleyPath.Throws? { return; }
      s := s.(atomicParsleyPath := OrCurrent(s.atomicParsleyPath, t.atomicParsleyPath));
      if t.exifToolPath.Throws? { return; }
      s := s.(exifToolPath := OrCurrent(s.exifToolPath, t.exifToolPath));
      if t.mediaInfoPath.Throws? { return; }
      s := s.(mediaInfoPath := OrCurrent(s.mediaInfoPath, t.mediaInfoPath));
    }
  }

  /** Every setting ends up either at its default or at a value the file
      supplied for it: nothing else can appear. */
  predicate FromDefaultsOrFile(cfg: ConfigFile, s: Settings)
  {
    && (s.createBackup == Defaults.createBackup
        || (cfg.Parsed? && cfg.behavior.Some? && cfg.behavior.value.createBackup == Present(s.createBackup)))
    && (s.maxBatchDefault == Defaults.maxBatchDefault
        || (cfg.Parsed? && cfg.behavior.Some? && cfg.behavior.value.maxBatchDefault == Present(s.maxBatchDefault)))
    && (s.atomicParsleyPath == Defaults.atomicParsleyPath
        || (cfg.Parsed? && cfg.tools.Some? && cfg.tools.value.atomicParsleyPath == Present(s.atomicParsleyPath)))
    && (s.exifToolPath == Defaults.exifToolPath
        || (cfg.Parsed? && cfg.tools.Some? && cfg.tools.value.exifToolPath == Present(s.exifToolPath)))
    && (s.mediaInfoPath == Defaults.mediaInfoPath
        || (cfg.Parsed? && cfg.tools.Some? && cfg.tools.value.mediaInfoPath == Present(s.mediaInfoPath)))
  }
}
