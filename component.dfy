/**
 * The HTTP component: it detects the dimension coordinate and the workspace of
 * a request, assembles the context properties and hands them, with the
 * "URI path segment used" flag, to the next stage.
 */
module Component {
  import opened Wrappers
  import opened Dimensions
  import opened LegacyOptions
  import opened PresetSort
  import opened DimensionResolution
  import opened ContentStream
  import opened ContextAssembly

  /** The request-scoped parameters this component writes into the component context. */
  class ComponentContext {
    const request: Request
    /** The `uriPathSegmentUsed` parameter; `None` while unset. */
    var uriPathSegmentUsed: Option<bool>
    /** The `detectedContentContext` parameter; `None` while unset. */
    var detectedContentContext: Option<ContextProperties>

    constructor (request: Request)
      ensures this.request == request
      ensures uriPathSegmentUsed == None && detectedContentContext == None
    {
      this.request := request;
      uriPathSegmentUsed := None;
      detectedContentContext := None;
    }
  }

  /**
   * On a context path, every dimension the backend detector resolves keeps the
   * backend's values in the coordinate that `Handle` stores and hands on,
   * whatever the sort does to the configuration's order.
   */
  lemma HandedOnBackendValues(allPresets: seq<DimensionEntry>, e: DimensionEntry, req: Request, s: Settings, c: Collaborators)
    requires DistinctNames(allPresets) && e in allPresets
    requires c.isContextPath(req.path)
    requires c.backendDetectPreset(e.name, e.config.presets, req).Some?
    requires Resolve(SortByOffset(allPresets), req, s, c).Success?
    ensures var properties := BuildContextFromWorkspaceNameAndDimensions(
              DetectContentStream(req.path, c), Resolve(SortByOffset(allPresets), req, s, c).value.coordinates);
      && e.name in properties.dimensions
      && properties.dimensions[e.name] == c.backendDetectPreset(e.name, e.config.presets, req).value.values
  {
    var sorted := SortByOffset(allPresets);
    SortPreservesDistinctNames(allPresets);
    SortPermutation(allPresets);
    assert e in multiset(sorted);
    var i :| 0 <= i < |sorted| && sorted[i] == e;
    ContextPathPrecedence(sorted, i, req, s, c);
  }

  /** What the component hands to the content context container. */
  datatype HandedOn = HandedOn(contentContext: ContextProperties, uriPathSegmentUsed: bool)

  class DetectContentSubgraphComponent {
    /** All preset configurations, in the preset source's order. */
    const allPresets: seq<DimensionEntry>
    const settings: Settings
    const collaborators: Collaborators

    /** The configuration comes from a PHP map, so its dimension names are distinct. */
    constructor (allPresets: seq<DimensionEntry>, settings: Settings, collaborators: Collaborators)
      requires DistinctNames(allPresets)
      ensures this.allPresets == allPresets && this.settings == settings && this.collaborators == collaborators
      ensures DistinctNames(this.allPresets)
    {
      this.allPresets := allPresets;
      this.settings := settings;
      this.collaborators := collaborators;
    }

    /** Raises the flag; it only ever writes `true`, so raising it again changes nothing. */
    method FlagUriPathSegmentUsed(ctx: ComponentContext)
      modifies ctx
      ensures ctx.uriPathSegmentUsed == Some(true)
      ensures ctx.detectedContentContext == old(ctx.detectedContentContext)
    {
      ctx.uriPathSegmentUsed := Some(true);
    }

    /**
     * Resolves the dimension coordinate of the request: sorts the configuration
     * by offset and runs one detection per dimension, raising the flag on the
     * component context as it goes. An unresolvable detector aborts the loop.
     */
    method DetectDimensionSpacePoint(ctx: ComponentContext) returns (r: Result<Coordinates, InvalidDimensionPresetDetector>)
      modifies ctx
      ensures var spec := Resolve(SortByOffset(allPresets), ctx.request, settings, collaborators);
        && (spec.Success? ==> r == Success(spec.value.coordinates))
        && (spec.Success? ==> ctx.uriPathSegmentUsed == if spec.value.uriPathSegmentUsed then Some(true) else old(ctx.uriPathSegmentUsed))
        && (spec.Failure? ==> r == Failure(spec.error))
        && (spec.Failure? ==> var stop := Reached(SortByOffset(allPresets), ctx.request, settings, collaborators);
              ctx.uriPathSegmentUsed == if stop.uriPathSegmentUsed then Some(true) else old(ctx.uriPathSegmentUsed))
      ensures ctx.detectedContentContext == old(ctx.detectedContentContext)
    {
      var coordinates: Coordinates := map[];
      var path := ctx.request.path;
      var isContextPath := collaborators.isContextPath(path);
      var presets := new DimensionEntry[|allPresets|](k requires 0 <= k < |allPresets| => allPresets[k]);
      assert presets[..] == allPresets;
      SortPresetsByOffset(presets);
      var sorted := presets[..];
      var uriPathSegmentOffset: nat := 0;
      ghost var used := false;
      assert sorted[..0] == [];
      for i := 0 to |sorted|
        invariant Resolve(sorted[..i], ctx.request, settings, collaborators) == Success(LoopState(coordinates, uriPathSegmentOffset, used))
        invariant ctx.uriPathSegmentUsed == if used then Some(true) else old(ctx.uriPathSegmentUsed)
        invariant ctx.detectedContentContext == old(ctx.detectedContentContext)
      {
        var e := sorted[i];
        ghost var st := LoopState(coordinates, uriPathSegmentOffset, used);
        var resolved := collaborators.resolveDetector(e.name, e.config);
        if resolved.Failure? {
          assert sorted[..i + 1][..i] == sorted[..i];
          ResolvePrefixFailure(sorted, i + 1, ctx.request, settings, collaborators);
          ReachedAtFailure(sorted, i, ctx.request, settings, collaborators);
          return Failure(resolved.error);
        }
        var detector := resolved.value;
        ResolveExtend(sorted, i, ctx.request, settings, collaborators, st, detector);
        var options := if e.config.resolution.options.Some? then e.config.resolution.options
                       else GenerateOptionsFromLegacyConfiguration(e.config, uriPathSegmentOffset, settings.allowEmptyPathSegments);

        if isContextPath {
          var preset := collaborators.backendDetectPreset(e.name, e.config.presets, ctx.request);
          if preset.Some? {
            coordinates := coordinates[e.name := preset.value.values];
            if detector.UriPathSegmentDetector? {
              // the URI path segment may have to be removed anyway
              var uriPathSegmentPreset := collaborators.detectPreset(detector, e.name, e.config.presets, ctx.request, options);
              if uriPathSegmentPreset.Some? {
                FlagUriPathSegmentUsed(ctx);
                used := true;
              }
            }
            BackendPrecedenceStep(st, e, detector, ctx.request, settings, collaborators);
            continue;
          }
        }

        coordinates, uriPathSegmentOffset := DetectByMode(ctx, e, detector, options, coordinates, uriPathSegmentOffset, used);
        used := used || SegmentConsumed(st, e, detector, ctx.request, settings, collaborators);
      }
      assert sorted[..|sorted|] == sorted;
      return Success(coordinates);
    }

    /**
     * The rest of one iteration when the backend detector did not decide the
     * dimension: detection by the dimension's own mode (with the delimiter
     * injected for `uriPathSegment`), the offset counter, and the default fallback.
     */
    method DetectByMode(ctx: ComponentContext, e: DimensionEntry, detector: Detector, options: Option<Options>,
                        coordinates: Coordinates, uriPathSegmentOffset: nat, ghost used: bool)
      returns (coordinates': Coordinates, uriPathSegmentOffset': nat)
      requires !BackendDecides(e, ctx.request, collaborators)
      requires options == EffectiveOptions(e.config, uriPathSegmentOffset, settings)
      modifies ctx
      ensures var st := LoopState(coordinates, uriPathSegmentOffset, used);
        && Step(st, e, detector, ctx.request, settings, collaborators).coordinates == coordinates'
        && Step(st, e, detector, ctx.request, settings, collaborators).uriPathSegmentOffset == uriPathSegmentOffset'
        && ctx.uriPathSegmentUsed == if SegmentConsumed(st, e, detector, ctx.request, settings, collaborators) then Some(true) else old(ctx.uriPathSegmentUsed)
      ensures ctx.detectedContentContext == old(ctx.detectedContentContext)
    {
      coordinates', uriPathSegmentOffset' := coordinates, uriPathSegmentOffset;
      var options := options;
      var resolutionMode := e.config.resolution.mode.GetOr(UriPathSegmentMode);
      if resolutionMode == UriPathSegmentMode {
        options := Some(WithDelimiter(options, settings.uriPathSegmentDelimiter));
      }
      var preset := collaborators.detectPreset(detector, e.name, e.config.presets, ctx.request, options);
      if preset.Some? && resolutionMode == UriPathSegmentMode {
        FlagUriPathSegmentUsed(ctx);
        uriPathSegmentOffset' := uriPathSegmentOffset' + 1;
      }
      if preset.None? && options.Some? && options.value.allowEmptyValue == Some(true) {
        var id := options.value.defaultPresetIdentifier;
        if id.Some? && Truthy(id.value) && id.value in e.config.presets {
          preset := Some(e.config.presets[id.value]);
        }
      }
      if preset.Some? {
        coordinates' := coordinates'[e.name := preset.value.values];
      }
    }

    /**
     * Handles one request: detects coordinate and workspace, stores the context
     * properties in the component context and hands them on with the flag,
     * which counts as `false` when it was never raised.
     */
    method Handle(ctx: ComponentContext) returns (r: Result<HandedOn, InvalidDimensionPresetDetector>)
      modifies ctx
      ensures var spec := Resolve(SortByOffset(allPresets), ctx.request, settings, collaborators);
        && (spec.Failure? ==> r == Failure(spec.error) && ctx.detectedContentContext == old(ctx.detectedContentContext))
        && (spec.Failure? ==> var stop := Reached(SortByOffset(allPresets), ctx.request, settings, collaborators);
              ctx.uriPathSegmentUsed == if stop.uriPathSegmentUsed then Some(true) else old(ctx.uriPathSegmentUsed))
        && (spec.Success? ==> ctx.uriPathSegmentUsed == if spec.value.uriPathSegmentUsed then Some(true) else old(ctx.uriPathSegmentUsed))
        && (spec.Success? ==>
              var properties := BuildContextFromWorkspaceNameAndDimensions(
                DetectContentStream(ctx.request.path, collaborators), spec.value.coordinates);
              && ctx.detectedContentContext == Some(properties)
              && r == Success(HandedOn(properties,
                                       if spec.value.uriPathSegmentUsed then true else old(ctx.uriPathSegmentUsed).GetOr(false))))
    {
      var dimensionValues := DetectDimensionSpacePoint(ctx);
      if dimensionValues.Failure? {
        return Failure(dimensionValues.error);
      }
      var workspaceName := DetectContentStream(ctx.request.path, collaborators);
      var contentContext := BuildContextFromWorkspaceNameAndDimensions(workspaceName, dimensionValues.value);
      ctx.detectedContentContext := Some(contentContext);
      return Success(HandedOn(ctx.detectedContentContext.value, ctx.uriPathSegmentUsed.GetOr(false)));
    }
  }
}
