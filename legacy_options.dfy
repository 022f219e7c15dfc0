/** Synthesis of `resolution.options` for configurations written before options existed. */
module LegacyOptions {
  import opened Wrappers
  import opened Dimensions

  /**
   * The options of a legacy configuration: none unless the dimension is resolved
   * by URI path segment (the default mode); then the segment offset reached so
   * far, and empty values allowed (with the configured default preset as
   * fallback) exactly when empty path segments are allowed globally.
   */
  function GenerateOptionsFromLegacyConfiguration(
    config: PresetConfiguration, uriPathSegmentOffset: int, allowEmptyPathSegments: bool): (r: Option<Options>)
    ensures r.Some? <==> IsUriPathSegmentMode(config)
    ensures r.Some? ==> r.value.offset == Some(uriPathSegmentOffset)
    ensures r.Some? ==> r.value.delimiter.None?
    ensures r.Some? ==> r.value.allowEmptyValue == Some(allowEmptyPathSegments)
    ensures r.Some? ==>
      r.value.defaultPresetIdentifier == (if allowEmptyPathSegments then Some(config.defaultPreset) else None)
  {
    if ResolutionMode(config) == UriPathSegmentMode then
      if allowEmptyPathSegments then
        Some(Options(Some(uriPathSegmentOffset), None, Some(true), Some(config.defaultPreset)))
      else
        Some(Options(Some(uriPathSegmentOffset), None, Some(false), None))
    else
      None
  }
}
