/**
 * The data model of content dimension detection: presets, per-dimension
 * preset configurations, requests, and the collaborators the component
 * delegates to (detectors, the detector resolver and the context-path grammar).
 */
module Dimensions {
  import opened Wrappers

  /** The resolution mode that reads a dimension value from a URI path segment;
      it is also the mode assumed when a configuration names none. */
  const UriPathSegmentMode: string := "uriPathSegment"

  /** The name of the published workspace. */
  const LiveWorkspace: string := "live"

  /** A named set of coordinate values a dimension may take (most specific first). */
  datatype Preset = Preset(identifier: string, values: seq<string>)

  /** The recognised keys of a `resolution.options` map; `None` is an unset key. */
  datatype Options = Options(
    offset: Option<int>,
    delimiter: Option<string>,
    allowEmptyValue: Option<bool>,
    defaultPresetIdentifier: Option<string>)

  /** The `resolution` part of a preset configuration; both keys may be missing. */
  datatype Resolution = Resolution(mode: Option<string>, options: Option<Options>)

  /** The configuration of one dimension. */
  datatype PresetConfiguration = PresetConfiguration(
    presets: map<string, Preset>,
    defaultPreset: string,
    resolution: Resolution)

  /** One entry of the preset source's map, dimension name to configuration;
      the configuration order of a sequence of entries is the map's order. */
  datatype DimensionEntry = DimensionEntry(name: string, config: PresetConfiguration)

  /** The mode a configuration asks for, `uriPathSegment` when unset. */
  function ResolutionMode(config: PresetConfiguration): string {
    config.resolution.mode.GetOr(UriPathSegmentMode)
  }

  predicate IsUriPathSegmentMode(config: PresetConfiguration) {
    ResolutionMode(config) == UriPathSegmentMode
  }

  /** `resolution.options.offset` of an entry, `None` when any level is unset. */
  function Offset(e: DimensionEntry): Option<int> {
    match e.config.resolution.options
    case None => None
    case Some(o) => o.offset
  }

  /** The dimension names of a configuration. */
  function Names(entries: seq<DimensionEntry>): set<string> {
    set e | e in entries :: e.name
  }

  /** Dimension names are keys of a map, so a configuration never repeats one. */
  predicate DistinctNames(entries: seq<DimensionEntry>) {
    forall i, j :: 0 <= i < j < |entries| ==> entries[i].name != entries[j].name
  }

  /** PHP truthiness of a string: the empty string and "0" are false. */
  predicate Truthy(s: string) {
    s != "" && s != "0"
  }

  /** The parts of the incoming HTTP request a detector may look at. */
  datatype Request = Request(path: string, host: string, cookies: map<string, string>)

  /** A detector object handed out by the resolver; the core only distinguishes
      the URI path segment detector class from every other class. */
  datatype Detector = UriPathSegmentDetector | OtherDetector(className: string)

  /** The resolver's exception for a mode or component it cannot map to a detector. */
  datatype InvalidDimensionPresetDetector = InvalidDimensionPresetDetector(message: string)

  /** What the context-path grammar extracts from a context path. */
  datatype ContextPathParts = ContextPathParts(
    nodePath: string,
    workspaceName: string,
    dimensions: map<string, seq<string>>)

  /** The grammar's exception for a malformed context path. */
  datatype InvalidContextPath = InvalidContextPath(message: string)

  /**
   * The collaborators of the component, whose code is not part of this model:
   * the context-path grammar, the detector resolver, `detectPreset` of the
   * resolved detectors and the backend (context path) detector.
   */
  datatype Collaborators = Collaborators(
    isContextPath: string -> bool,
    explodeContextPath: string -> Result<ContextPathParts, InvalidContextPath>,
    resolveDetector: (string, PresetConfiguration) -> Result<Detector, InvalidDimensionPresetDetector>,
    detectPreset: (Detector, string, map<string, Preset>, Request, Option<Options>) -> Option<Preset>,
    backendDetectPreset: (string, map<string, Preset>, Request) -> Option<Preset>)

  /** The two injected configuration values. */
  datatype Settings = Settings(allowEmptyPathSegments: bool, uriPathSegmentDelimiter: string)
}
