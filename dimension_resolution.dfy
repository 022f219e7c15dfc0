/**
 * The dimension coordinate resolution as a fold over the sorted configuration:
 * one `Step` per dimension, threading the coordinate, the URI path segment
 * offset counter and the "URI path segment used" flag.
 */
module DimensionResolution {
  import opened Wrappers
  import opened Dimensions
  import opened LegacyOptions

  /** A dimension coordinate: dimension name to the values of its preset. */
  type Coordinates = map<string, seq<string>>

  /** What the loop over the dimensions keeps between iterations. */
  datatype LoopState = LoopState(coordinates: Coordinates, uriPathSegmentOffset: nat, uriPathSegmentUsed: bool)

  /** Before the first dimension: nothing detected, offset 0, flag not raised. */
  const Initial: LoopState := LoopState(map[], 0, false)

  /** The configured options, or the synthesized legacy ones when none are configured. */
  function EffectiveOptions(config: PresetConfiguration, offset: nat, s: Settings): Option<Options> {
    if config.resolution.options.Some? then config.resolution.options
    else GenerateOptionsFromLegacyConfiguration(config, offset, s.allowEmptyPathSegments)
  }

  /** `$options['delimiter'] = ...`: writing a key into `null` creates the array. */
  function WithDelimiter(options: Option<Options>, delimiter: string): Options {
    match options
    case None => Options(None, Some(delimiter), None, None)
    case Some(o) => o.(delimiter := Some(delimiter))
  }

  /** The options handed to the mode's detector outside the context-path branch. */
  function DetectionOptions(config: PresetConfiguration, offset: nat, s: Settings): Option<Options> {
    var options := EffectiveOptions(config, offset, s);
    if IsUriPathSegmentMode(config) then Some(WithDelimiter(options, s.uriPathSegmentDelimiter)) else options
  }

  /** The default preset used when nothing was detected, if the options allow one. */
  function FallbackPreset(presets: map<string, Preset>, options: Option<Options>): Option<Preset> {
    if && options.Some?
       && options.value.allowEmptyValue == Some(true)
       && options.value.defaultPresetIdentifier.Some?
       && Truthy(options.value.defaultPresetIdentifier.value)
       && options.value.defaultPresetIdentifier.value in presets
    then Some(presets[options.value.defaultPresetIdentifier.value])
    else None
  }

  /** On a context path the backend detector has precedence when it finds a preset. */
  predicate BackendDecides(e: DimensionEntry, req: Request, c: Collaborators) {
    c.isContextPath(req.path) && c.backendDetectPreset(e.name, e.config.presets, req).Some?
  }

  /** The mode's own detection outside the context-path branch. */
  function Detected(st: LoopState, e: DimensionEntry, d: Detector, req: Request, s: Settings, c: Collaborators): Option<Preset> {
    c.detectPreset(d, e.name, e.config.presets, req, DetectionOptions(e.config, st.uriPathSegmentOffset, s))
  }

  /** A URI path segment mode dimension consumed a segment (the counter advances). */
  predicate SegmentConsumed(st: LoopState, e: DimensionEntry, d: Detector, req: Request, s: Settings, c: Collaborators) {
    !BackendDecides(e, req, c) && IsUriPathSegmentMode(e.config) && Detected(st, e, d, req, s, c).Some?
  }

  /** On the context-path branch, the URI path segment detector would still have
      found a segment; its preset is discarded (the options carry no delimiter here). */
  predicate SegmentProbed(st: LoopState, e: DimensionEntry, d: Detector, req: Request, s: Settings, c: Collaborators) {
    && BackendDecides(e, req, c)
    && d.UriPathSegmentDetector?
    && c.detectPreset(d, e.name, e.config.presets, req, EffectiveOptions(e.config, st.uriPathSegmentOffset, s)).Some?
  }

  predicate StepRaisesFlag(st: LoopState, e: DimensionEntry, d: Detector, req: Request, s: Settings, c: Collaborators) {
    SegmentConsumed(st, e, d, req, s, c) || SegmentProbed(st, e, d, req, s, c)
  }

  /** The preset recorded for the dimension of `e`, if any. */
  function ObtainedPreset(st: LoopState, e: DimensionEntry, d: Detector, req: Request, s: Settings, c: Collaborators): Option<Preset> {
    if BackendDecides(e, req, c) then c.backendDetectPreset(e.name, e.config.presets, req)
    else
      var detected := Detected(st, e, d, req, s, c);
      if detected.Some? then detected
      else FallbackPreset(e.config.presets, DetectionOptions(e.config, st.uriPathSegmentOffset, s))
  }

  /** One iteration of the loop, for a dimension whose detector resolved to `d`. */
  function Step(st: LoopState, e: DimensionEntry, d: Detector, req: Request, s: Settings, c: Collaborators): (r: LoopState)
    ensures r.coordinates.Keys == st.coordinates.Keys + (if ObtainedPreset(st, e, d, req, s, c).Some? then {e.name} else {})
    ensures r.uriPathSegmentOffset == st.uriPathSegmentOffset + (if SegmentConsumed(st, e, d, req, s, c) then 1 else 0)
    ensures r.uriPathSegmentUsed <==> st.uriPathSegmentUsed || StepRaisesFlag(st, e, d, req, s, c)
  {
    var preset := ObtainedPreset(st, e, d, req, s, c);
    LoopState(
      if preset.Some? then st.coordinates[e.name := preset.value.values] else st.coordinates,
      if SegmentConsumed(st, e, d, req, s, c) then st.uriPathSegmentOffset + 1 else st.uriPathSegmentOffset,
      st.uriPathSegmentUsed || StepRaisesFlag(st, e, d, req, s, c))
  }

  /** The loop over `entries` in order; it stops at the first dimension whose detector cannot be resolved. */
  function Resolve(entries: seq<DimensionEntry>, req: Request, s: Settings, c: Collaborators): (r: Result<LoopState, InvalidDimensionPresetDetector>)
    ensures r.Success? ==> r.value.uriPathSegmentOffset <= |entries|
    decreases |entries|
  {
    if |entries| == 0 then Success(Initial)
    else
      var last := entries[|entries| - 1];
      match Resolve(entries[..|entries| - 1], req, s, c)
      case Failure(err) => Failure(err)
      case Success(st) =>
        match c.resolveDetector(last.name, last.config)
        case Failure(err) => Failure(err)
        case Success(d) => Success(Step(st, last, d, req, s, c))
  }

  /**
   * The state the loop holds when it finishes or stops at the first dimension
   * whose detector cannot be resolved: the flag written so far lives on in the
   * component context even when detection fails.
   */
  function Reached(entries: seq<DimensionEntry>, req: Request, s: Settings, c: Collaborators): (st: LoopState)
    ensures Resolve(entries, req, s, c).Success? ==> st == Resolve(entries, req, s, c).value
    decreases |entries|
  {
    if |entries| == 0 then Initial
    else
      var last := entries[|entries| - 1];
      match Resolve(entries[..|entries| - 1], req, s, c)
      case Failure(_) => Reached(entries[..|entries| - 1], req, s, c)
      case Success(st) =>
        match c.resolveDetector(last.name, last.config)
        case Failure(_) => st
        case Success(d) => Step(st, last, d, req, s, c)
  }

  /** The loop over `entries[..i]` succeeded and dimension `i` raised the flag. */
  predicate RaisesFlagAt(entries: seq<DimensionEntry>, i: nat, req: Request, s: Settings, c: Collaborators)
    requires i < |entries|
  {
    match Resolve(entries[..i], req, s, c)
    case Failure(_) => false
    case Success(st) =>
      match c.resolveDetector(entries[i].name, entries[i].config)
      case Failure(_) => false
      case Success(d) => StepRaisesFlag(st, entries[i], d, req, s, c)
  }

  /** The loop over `entries[..i]` succeeded and dimension `i` consumed a URI path segment. */
  predicate ConsumesSegmentAt(entries: seq<DimensionEntry>, i: nat, req: Request, s: Settings, c: Collaborators)
    requires i < |entries|
  {
    match Resolve(entries[..i], req, s, c)
    case Failure(_) => false
    case Success(st) =>
      match c.resolveDetector(entries[i].name, entries[i].config)
      case Failure(_) => false
      case Success(d) => SegmentConsumed(st, entries[i], d, req, s, c)
  }

  /** The number of dimensions resolved by URI path segment. */
  function UriPathSegmentDimensions(entries: seq<DimensionEntry>): (n: nat)
    ensures n <= |entries|
    decreases |entries|
  {
    if |entries| == 0 then 0
    else UriPathSegmentDimensions(entries[..|entries| - 1]) + (if IsUriPathSegmentMode(entries[|entries| - 1].config) then 1 else 0)
  }

  // ---------------------------------------------------------------------------
  // Properties of one step
  // ---------------------------------------------------------------------------

  /**
   * The legacy options of a URI path segment dimension, as the mode's detector
   * receives them, and the fallback they allow: the default preset exactly when
   * empty path segments are allowed and the default preset exists.
   */
  lemma LegacyOptionsAsDetected(config: PresetConfiguration, offset: nat, s: Settings)
    requires config.resolution.options.None? && IsUriPathSegmentMode(config)
    ensures DetectionOptions(config, offset, s) ==
      Some(Options(Some(offset), Some(s.uriPathSegmentDelimiter), Some(s.allowEmptyPathSegments),
                   if s.allowEmptyPathSegments then Some(config.defaultPreset) else None))
    ensures FallbackPreset(config.presets, DetectionOptions(config, offset, s)).Some? <==>
      s.allowEmptyPathSegments && Truthy(config.defaultPreset) && config.defaultPreset in config.presets
  {
  }

  /**
   * Default fallback: when the mode's detector finds nothing, the dimension gets
   * a preset only if the options allow empty values and name an existing
   * default preset, and then it gets exactly that one.
   */
  lemma DefaultFallback(st: LoopState, e: DimensionEntry, d: Detector, req: Request, s: Settings, c: Collaborators)
    requires !BackendDecides(e, req, c) && Detected(st, e, d, req, s, c).None?
    ensures var o := DetectionOptions(e.config, st.uriPathSegmentOffset, s);
      ObtainedPreset(st, e, d, req, s, c).Some? <==>
        && o.Some? && o.value.allowEmptyValue == Some(true)
        && o.value.defaultPresetIdentifier.Some?
        && Truthy(o.value.defaultPresetIdentifier.value)
        && o.value.defaultPresetIdentifier.value in e.config.presets
    ensures ObtainedPreset(st, e, d, req, s, c).Some? ==>
      var id := DetectionOptions(e.config, st.uriPathSegmentOffset, s).value.defaultPresetIdentifier.value;
      ObtainedPreset(st, e, d, req, s, c) == Some(e.config.presets[id])
    ensures e.name in Step(st, e, d, req, s, c).coordinates - st.coordinates.Keys ==> ObtainedPreset(st, e, d, req, s, c).Some?
  {
  }

  /**
   * Context-path precedence for one dimension: the backend detector's values are
   * recorded, the offset counter stays, and the URI path segment probe only
   * decides the flag.
   */
  lemma BackendPrecedenceStep(st: LoopState, e: DimensionEntry, d: Detector, req: Request, s: Settings, c: Collaborators)
    requires BackendDecides(e, req, c)
    ensures var st' := Step(st, e, d, req, s, c);
      && st'.coordinates == st.coordinates[e.name := c.backendDetectPreset(e.name, e.config.presets, req).value.values]
      && st'.uriPathSegmentOffset == st.uriPathSegmentOffset
      && (st'.uriPathSegmentUsed <==> st.uriPathSegmentUsed || SegmentProbed(st, e, d, req, s, c))
  {
  }

  /** A step writes at most the coordinate of its own dimension. */
  lemma StepTouchesOnlyItsDimension(st: LoopState, e: DimensionEntry, d: Detector, req: Request, s: Settings, c: Collaborators, name: string)
    requires name != e.name
    ensures var st' := Step(st, e, d, req, s, c);
      (name in st'.coordinates <==> name in st.coordinates)
      && (name in st.coordinates ==> st'.coordinates[name] == st.coordinates[name])
  {
  }

  // ---------------------------------------------------------------------------
  // Properties of the whole loop
  // ---------------------------------------------------------------------------

  /** The loop fails exactly when some dimension's detector cannot be resolved,
      and then with the error of the first such dimension. */
  lemma {:induction false} ResolveFailsIffDetectorInvalid(entries: seq<DimensionEntry>, req: Request, s: Settings, c: Collaborators)
    ensures Resolve(entries, req, s, c).Failure? <==>
      exists i :: 0 <= i < |entries| && c.resolveDetector(entries[i].name, entries[i].config).Failure?
    ensures Resolve(entries, req, s, c).Failure? ==>
      exists i :: && 0 <= i < |entries|
                  && c.resolveDetector(entries[i].name, entries[i].config).Failure?
                  && (forall k :: 0 <= k < i ==> c.resolveDetector(entries[k].name, entries[k].config).Success?)
                  && Resolve(entries, req, s, c).error == c.resolveDetector(entries[i].name, entries[i].config).error
    decreases |entries|
  {
    if |entries| > 0 {
      var n := |entries|;
      var init := entries[..n - 1];
      ResolveFailsIffDetectorInvalid(init, req, s, c);
      forall k | 0 <= k < n - 1 ensures init[k] == entries[k] { }
    }
  }

  /** One more iteration of the loop, for a dimension whose detector resolved. */
  lemma ResolveExtend(entries: seq<DimensionEntry>, i: nat, req: Request, s: Settings, c: Collaborators, st: LoopState, d: Detector)
    requires i < |entries|
    requires Resolve(entries[..i], req, s, c) == Success(st)
    requires c.resolveDetector(entries[i].name, entries[i].config) == Success(d)
    ensures Resolve(entries[..i + 1], req, s, c) == Success(Step(st, entries[i], d, req, s, c))
  {
    assert entries[..i + 1][..i] == entries[..i];
  }

  /** A failure of the loop over a prefix is the failure of the whole loop. */
  lemma {:induction false} ResolvePrefixFailure(entries: seq<DimensionEntry>, i: nat, req: Request, s: Settings, c: Collaborators)
    requires i <= |entries| && Resolve(entries[..i], req, s, c).Failure?
    ensures Resolve(entries, req, s, c) == Resolve(entries[..i], req, s, c)
    decreases |entries|
  {
    if i < |entries| {
      var n := |entries|;
      assert entries[..n - 1][..i] == entries[..i];
      ResolvePrefixFailure(entries[..n - 1], i, req, s, c);
    } else {
      assert entries[..i] == entries;
    }
  }

  /** A successful loop succeeded on every prefix, and the counter and the flag never go back. */
  lemma {:induction false} ResolvePrefixMonotone(entries: seq<DimensionEntry>, i: nat, req: Request, s: Settings, c: Collaborators)
    requires i <= |entries| && Resolve(entries, req, s, c).Success?
    ensures Resolve(entries[..i], req, s, c).Success?
    ensures Resolve(entries[..i], req, s, c).value.uriPathSegmentOffset <= Resolve(entries, req, s, c).value.uriPathSegmentOffset
    ensures Resolve(entries[..i], req, s, c).value.uriPathSegmentUsed ==> Resolve(entries, req, s, c).value.uriPathSegmentUsed
    decreases |entries|
  {
    if i < |entries| {
      var n := |entries|;
      assert entries[..n - 1][..i] == entries[..i];
      ResolvePrefixMonotone(entries[..n - 1], i, req, s, c);
    } else {
      assert entries[..i] == entries;
    }
  }

  /** The offset counter starts at 0 and never exceeds the number of URI path
      segment dimensions, hence never the number of dimensions. */
  lemma {:induction false} ResolveOffsetBound(entries: seq<DimensionEntry>, req: Request, s: Settings, c: Collaborators)
    requires Resolve(entries, req, s, c).Success?
    ensures Resolve(entries, req, s, c).value.uriPathSegmentOffset <= UriPathSegmentDimensions(entries) <= |entries|
    decreases |entries|
  {
    if |entries| > 0 {
      ResolveOffsetBound(entries[..|entries| - 1], req, s, c);
    }
  }

  lemma NamesSnoc(init: seq<DimensionEntry>, e: DimensionEntry)
    ensures Names(init + [e]) == Names(init) + {e.name}
  {
    assert forall x :: x in init + [e] <==> x in init || x == e;
  }

  /** A step adds at most its own dimension to the coordinate. */
  lemma StepKeys(st: LoopState, e: DimensionEntry, d: Detector, req: Request, s: Settings, c: Collaborators)
    ensures Step(st, e, d, req, s, c).coordinates.Keys <= st.coordinates.Keys + {e.name}
  {
  }

  /** Only configured dimensions appear in the coordinate. */
  lemma {:induction false} ResolveKeysAreDimensions(entries: seq<DimensionEntry>, req: Request, s: Settings, c: Collaborators)
    requires Resolve(entries, req, s, c).Success?
    ensures Resolve(entries, req, s, c).value.coordinates.Keys <= Names(entries)
    decreases |entries|
  {
    if |entries| > 0 {
      var n := |entries|;
      var init, last := entries[..n - 1], entries[n - 1];
      ResolveKeysAreDimensions(init, req, s, c);
      var st := Resolve(init, req, s, c).value;
      var d := c.resolveDetector(last.name, last.config).value;
      StepKeys(st, last, d, req, s, c);
      assert entries == init + [last];
      NamesSnoc(init, last);
    }
  }

  /**
   * With distinct dimension names, dimension `i` is in the coordinate exactly
   * when its step obtained a preset, and then with that preset's values.
   */
  lemma {:induction false} ResolveRecordsObtainedPreset(entries: seq<DimensionEntry>, i: nat, req: Request, s: Settings, c: Collaborators)
    requires DistinctNames(entries) && i < |entries| && Resolve(entries, req, s, c).Success?
    ensures Resolve(entries[..i], req, s, c).Success?
    ensures c.resolveDetector(entries[i].name, entries[i].config).Success?
    ensures var p := ObtainedPreset(Resolve(entries[..i], req, s, c).value, entries[i],
                                    c.resolveDetector(entries[i].name, entries[i].config).value, req, s, c);
            var coordinates := Resolve(entries, req, s, c).value.coordinates;
            && (entries[i].name in coordinates <==> p.Some?)
            && (p.Some? ==> coordinates[entries[i].name] == p.value.values)
    decreases |entries|
  {
    var n := |entries|;
    var init := entries[..n - 1];
    assert DistinctNames(init) by {
      forall a, b | 0 <= a < b < |init| ensures init[a].name != init[b].name {
        assert init[a] == entries[a] && init[b] == entries[b];
      }
    }
    if i == n - 1 {
      assert init == entries[..i];
      ResolveKeysAreDimensions(init, req, s, c);
      assert entries[i].name !in Names(init) by {
        forall e | e in init ensures e.name != entries[i].name {
          var k :| 0 <= k < |init| && init[k] == e;
          assert init[k] == entries[k];
        }
      }
    } else {
      ResolveRecordsObtainedPreset(init, i, req, s, c);
      assert init[..i] == entries[..i] && init[i] == entries[i];
      var st := Resolve(init, req, s, c).value;
      var d := c.resolveDetector(entries[n - 1].name, entries[n - 1].config).value;
      assert entries[i].name != entries[n - 1].name;
      StepTouchesOnlyItsDimension(st, entries[n - 1], d, req, s, c, entries[i].name);
    }
  }

  /**
   * Context-path precedence: on a context path, a dimension for which the
   * backend detector finds a preset holds exactly that preset's values,
   * whatever the URI path segment detector would have found.
   */
  lemma ContextPathPrecedence(entries: seq<DimensionEntry>, i: nat, req: Request, s: Settings, c: Collaborators)
    requires DistinctNames(entries) && i < |entries| && Resolve(entries, req, s, c).Success?
    requires c.isContextPath(req.path)
    requires c.backendDetectPreset(entries[i].name, entries[i].config.presets, req).Some?
    ensures entries[i].name in Resolve(entries, req, s, c).value.coordinates
    ensures Resolve(entries, req, s, c).value.coordinates[entries[i].name] ==
      c.backendDetectPreset(entries[i].name, entries[i].config.presets, req).value.values
  {
    ResolveRecordsObtainedPreset(entries, i, req, s, c);
  }

  /**
   * When the backend detector decides every dimension of a context path, the
   * mode detectors do not influence the coordinate, and the offset counter
   * stays 0: the URI path segment probe never advances it.
   */
  lemma {:induction false} ContextPathIgnoresModeDetection(
    entries: seq<DimensionEntry>, req: Request, s: Settings, c: Collaborators,
    otherDetection: (Detector, string, map<string, Preset>, Request, Option<Options>) -> Option<Preset>)
    requires forall k :: 0 <= k < |entries| ==> BackendDecides(entries[k], req, c)
    ensures var r1 := Resolve(entries, req, s, c);
            var r2 := Resolve(entries, req, s, c.(detectPreset := otherDetection));
            && (r1.Success? <==> r2.Success?)
            && (r1.Success? ==> && r1.value.coordinates == r2.value.coordinates
                                && r1.value.uriPathSegmentOffset == 0
                                && r2.value.uriPathSegmentOffset == 0)
    decreases |entries|
  {
    var c2 := c.(detectPreset := otherDetection);
    if |entries| > 0 {
      var n := |entries|;
      var init := entries[..n - 1];
      var e := entries[n - 1];
      assert forall k :: 0 <= k < |init| ==> init[k] == entries[k];
      ContextPathIgnoresModeDetection(init, req, s, c, otherDetection);
      assert BackendDecides(e, req, c);
      match Resolve(init, req, s, c)
      case Failure(_) =>
      case Success(st1) =>
        var st2 := Resolve(init, req, s, c2).value;
        match c.resolveDetector(e.name, e.config)
        case Failure(_) =>
        case Success(d) =>
          BackendPrecedenceStep(st1, e, d, req, s, c);
          BackendPrecedenceStep(st2, e, d, req, s, c2);
    }
  }

  /**
   * The flag is raised exactly when some dimension raised it: a URI path
   * segment mode dimension consumed a segment, or its probe on a context path
   * found one.
   */
  lemma {:induction false} ResolveFlagIffSomeStepRaisesIt(entries: seq<DimensionEntry>, req: Request, s: Settings, c: Collaborators)
    requires Resolve(entries, req, s, c).Success?
    ensures Resolve(entries, req, s, c).value.uriPathSegmentUsed <==>
      exists i :: 0 <= i < |entries| && RaisesFlagAt(entries, i, req, s, c)
    decreases |entries|
  {
    if |entries| > 0 {
      var n := |entries|;
      var init := entries[..n - 1];
      assert init == entries[..n - 1];
      ResolveFlagIffSomeStepRaisesIt(init, req, s, c);
      forall i | 0 <= i < n - 1 ensures RaisesFlagAt(init, i, req, s, c) == RaisesFlagAt(entries, i, req, s, c) {
        assert init[..i] == entries[..i] && init[i] == entries[i];
      }
      var st := Resolve(init, req, s, c).value;
      var d := c.resolveDetector(entries[n - 1].name, entries[n - 1].config).value;
      assert RaisesFlagAt(entries, n - 1, req, s, c) == StepRaisesFlag(st, entries[n - 1], d, req, s, c);
      if Resolve(entries, req, s, c).value.uriPathSegmentUsed {
        if !st.uriPathSegmentUsed {
          assert RaisesFlagAt(entries, n - 1, req, s, c);
        }
      }
    }
  }

  /** The indices below `|entries|` at which a URI path segment was consumed. */
  function ConsumedIndices(entries: seq<DimensionEntry>, req: Request, s: Settings, c: Collaborators): set<nat> {
    set i: nat | i < |entries| && ConsumesSegmentAt(entries, i, req, s, c)
  }

  /** Prefixing does not change what the earlier iterations did. */
  lemma ConsumedIndicesSnoc(entries: seq<DimensionEntry>, req: Request, s: Settings, c: Collaborators)
    requires |entries| > 0
    ensures var n := |entries|;
      ConsumedIndices(entries, req, s, c) ==
        ConsumedIndices(entries[..n - 1], req, s, c) + (if ConsumesSegmentAt(entries, n - 1, req, s, c) then {n - 1} else {})
  {
    var n := |entries|;
    var init := entries[..n - 1];
    forall i: nat | i < n - 1 ensures ConsumesSegmentAt(init, i, req, s, c) == ConsumesSegmentAt(entries, i, req, s, c) {
      assert init[..i] == entries[..i] && init[i] == entries[i];
    }
    var lhs := ConsumedIndices(entries, req, s, c);
    var rhs := ConsumedIndices(init, req, s, c) + (if ConsumesSegmentAt(entries, n - 1, req, s, c) then {n - 1} else {});
    forall i: nat ensures i in lhs <==> i in rhs {
      if i < n - 1 {
        assert ConsumesSegmentAt(init, i, req, s, c) == ConsumesSegmentAt(entries, i, req, s, c);
      }
    }
  }

  /**
   * The counter is the number of dimensions that consumed a URI path segment:
   * it advances exactly once per `uriPathSegment` dimension whose detection,
   * outside the context-path branch, returned a preset, and at no other time.
   */
  lemma {:induction false} ResolveOffsetCountsConsumedSegments(entries: seq<DimensionEntry>, req: Request, s: Settings, c: Collaborators)
    requires Resolve(entries, req, s, c).Success?
    ensures Resolve(entries, req, s, c).value.uriPathSegmentOffset == |ConsumedIndices(entries, req, s, c)|
    decreases |entries|
  {
    var n := |entries|;
    if n == 0 {
      assert ConsumedIndices(entries, req, s, c) == {};
    } else {
      var init := entries[..n - 1];
      ResolveOffsetCountsConsumedSegments(init, req, s, c);
      ConsumedIndicesSnoc(entries, req, s, c);
      var st := Resolve(init, req, s, c).value;
      var d := c.resolveDetector(entries[n - 1].name, entries[n - 1].config).value;
      assert ConsumesSegmentAt(entries, n - 1, req, s, c) == SegmentConsumed(st, entries[n - 1], d, req, s, c) by {
        assert entries[..n - 1] == init;
      }
      assert n - 1 !in ConsumedIndices(init, req, s, c);
    }
  }

  /** A run that stops at dimension `i` holds the state of the loop over the dimensions before it. */
  lemma {:induction false} ReachedAtFailure(entries: seq<DimensionEntry>, i: nat, req: Request, s: Settings, c: Collaborators)
    requires i < |entries| && Resolve(entries[..i], req, s, c).Success?
    requires c.resolveDetector(entries[i].name, entries[i].config).Failure?
    ensures Reached(entries, req, s, c) == Resolve(entries[..i], req, s, c).value
    decreases |entries|
  {
    var n := |entries|;
    var init := entries[..n - 1];
    if n == i + 1 {
      assert init == entries[..i];
    } else {
      assert init[..i] == entries[..i] && init[i] == entries[i];
      assert init[..i + 1][..i] == entries[..i] && init[..i + 1][i] == entries[i];
      assert Resolve(init[..i + 1], req, s, c).Failure?;
      ResolvePrefixFailure(init, i + 1, req, s, c);
      ReachedAtFailure(init, i, req, s, c);
    }
  }

  /**
   * Whether the run succeeds or stops, the flag it leaves raised is raised
   * exactly when some iteration that ran raised it.
   */
  lemma {:induction false} ReachedFlagIffSomeStepRaisesIt(entries: seq<DimensionEntry>, req: Request, s: Settings, c: Collaborators)
    ensures Reached(entries, req, s, c).uriPathSegmentUsed <==>
      exists i :: 0 <= i < |entries| && RaisesFlagAt(entries, i, req, s, c)
    decreases |entries|
  {
    var n := |entries|;
    if n > 0 {
      var init := entries[..n - 1];
      assert init == entries[..n - 1];
      forall i | 0 <= i < n - 1 ensures RaisesFlagAt(init, i, req, s, c) == RaisesFlagAt(entries, i, req, s, c) {
        assert init[..i] == entries[..i] && init[i] == entries[i];
      }
      if Resolve(entries, req, s, c).Success? {
        ResolveFlagIffSomeStepRaisesIt(entries, req, s, c);
      } else {
        ReachedFlagIffSomeStepRaisesIt(init, req, s, c);
        assert !RaisesFlagAt(entries, n - 1, req, s, c);
        if Resolve(init, req, s, c).Success? {
          assert Reached(entries, req, s, c) == Resolve(init, req, s, c).value;
        }
        assert Reached(entries, req, s, c) == Reached(init, req, s, c);
      }
    }
  }

  /**
   * A single URI path segment dimension "language" at offset 0 with presets
   * "en" and "de": when the segment detector finds "en" in "/en/about-us", the
   * coordinate is {language: ["en"]}, one segment is consumed and the flag is raised.
   */
  lemma SingleLanguageDimension(req: Request, s: Settings, c: Collaborators)
    requires req.path == "/en/about-us" && s.uriPathSegmentDelimiter == "/"
    requires !c.isContextPath(req.path)
    requires c.resolveDetector("language", LanguageConfiguration()) == Success(UriPathSegmentDetector)
    requires c.detectPreset(UriPathSegmentDetector, "language", LanguageConfiguration().presets, req,
                            Some(Options(Some(0), Some("/"), None, None))) == Some(Preset("en", ["en"]))
    ensures Resolve([DimensionEntry("language", LanguageConfiguration())], req, s, c) ==
      Success(LoopState(map["language" := ["en"]], 1, true))
  {
    var entries := [DimensionEntry("language", LanguageConfiguration())];
    assert entries[..0] == [];
  }

  function LanguageConfiguration(): PresetConfiguration {
    PresetConfiguration(
      map["en" := Preset("en", ["en"]), "de" := Preset("de", ["de"])],
      "en",
      Resolution(Some(UriPathSegmentMode), Some(Options(Some(0), None, None, None))))
  }
}
