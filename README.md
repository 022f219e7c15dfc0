# Content subgraph detection (Neos `DetectContentSubgraphComponent`), modelled in Dafny

The Neos HTTP component `DetectContentSubgraphComponent` runs once per request.
It turns the request into a *dimension coordinate* and a *workspace*:

- The coordinate maps each content dimension (language, region, ...) to the values of the preset detected for it.
- The workspace is `"live"` unless the path is an editing "context path".

From the two it builds the context properties, and it hands them on together
with the flag that says whether a URI path segment was used for a dimension.

The model follows the component file by file and member by member:

- `Dimensions` (dimensions.dfy) is the data model:
  - presets, the `resolution.options` keys and per-dimension configurations;
  - the configuration as an ordered sequence of `(name, configuration)` entries, in the preset source's order;
  - the request record and the two injected settings;
  - the collaborators as function-valued fields of one record. These are the context-path grammar, the detector resolver (which may fail), `detectPreset` of the resolved detectors and the backend (context path) detector.
- `LegacyOptions` synthesises options for configurations without `resolution.options`.
- `PresetSort` models `uasort` with the offset comparator. `SortByOffset` is a stable insertion sort on sequences, and `SortPresetsByOffset` sorts an array in place to that result.
- `DimensionResolution` specifies the detection loop as a fold (`Step`, `Resolve`) over the sorted configuration. The state is the coordinate, the URI path segment offset counter and the flag. The lemmas state precedence, counter, fallback, flag and failure properties of the fold.
- `ContentStream` chooses the workspace and `ContextAssembly` builds the context properties.
- `Component` holds the classes:
  - `ComponentContext` holds the two request-scoped parameters the component writes.
  - `DetectContentSubgraphComponent` has `Handle`, `DetectDimensionSpacePoint` (the imperative loop, proved equal to `Resolve` of the sorted configuration) and `FlagUriPathSegmentUsed`.

PHP details kept in the model:

- `??` falls back on unset keys. An unset `resolution.mode` means `uriPathSegment`.
- Assigning `$options['delimiter']` to a `null` options value creates an options map that holds only the delimiter.
- PHP truthiness decides the default fallback. `allowEmptyValue` must be `true`, and the default preset identifier must be set, must not be `""` or `"0"`, and must name an existing preset.
- The context-path probe receives `$options` before the delimiter is injected (`DetectContentSubgraphComponent.php` lines 132 and 143), so the probe's options carry no delimiter.
- The detector resolver is called per request, once per dimension, and may throw (same file, line 122). The model treats every call as a possible failure, not a load-time check.

## Model

| member | source | states |
|---|---|---|
| LegacyOptions.GenerateOptionsFromLegacyConfiguration | Neos.Neos/Classes/Http/DetectContentSubgraphComponent.php:198-218 | no options unless the mode (unset meaning `uriPathSegment`) is `uriPathSegment`; then offset = the current counter, no delimiter, `allowEmptyValue` = the global flag, default preset identifier = the configured default preset when the flag is set and unset otherwise |
| DimensionResolution.LegacyOptionsAsDetected | Neos.Neos/Classes/Http/DetectContentSubgraphComponent.php:124-154 | the options a legacy URI path segment dimension hands its detector are offset, configured delimiter, global flag and (if the flag is set) the default preset; the fallback applies exactly when the flag is set and the default preset is truthy and exists |
| PresetSort.SortPermutation | Neos.Neos/Classes/Http/DetectContentSubgraphComponent.php:167-177 | sorting returns the same entries, each as often (a permutation, same length) |
| PresetSort.CompareByOffset | Neos.Neos/Classes/Http/DetectContentSubgraphComponent.php:169-176 | the `uasort` comparator: `<=>` on the two offsets (-1, 0 or 1, following their order) when both are set, and 0 whenever either is unset |
| PresetSort.Insert | Neos.Neos/Classes/Http/DetectContentSubgraphComponent.php:167-177 | one step of the stable sort: `x` goes behind the last entry that does not compare greater than it, so the result is one entry longer (`InsertSplice` and `InsertPositionBounds` give the position) |
| PresetSort.SortByOffset | Neos.Neos/Classes/Http/DetectContentSubgraphComponent.php:167-177 | the sorted configuration: every entry inserted in configuration order, with as many entries as the input |
| PresetSort.SortPreservesDistinctNames | Neos.Neos/Classes/Http/DetectContentSubgraphComponent.php:167-177 | sorting keeps dimension names distinct, as `uasort` keeps the array's unique keys |
| PresetSort.SortPreservesNames | Neos.Neos/Classes/Http/DetectContentSubgraphComponent.php:167-177 | the sorted configuration has exactly the dimension names of the input (`uasort` keeps keys) |
| PresetSort.SortAscendingWhenAllHaveOffsets | Neos.Neos/Classes/Http/DetectContentSubgraphComponent.php:169-173 | when every dimension declares an offset, the result ascends by offset |
| PresetSort.SortKeepsEntriesWithoutOffset | Neos.Neos/Classes/Http/DetectContentSubgraphComponent.php:169-176 | the comparator is 0 when a side lacks an offset, so an entry without offset keeps its index and such entries keep their configuration order |
| PresetSort.SortPresetsByOffset | Neos.Neos/Classes/Http/DetectContentSubgraphComponent.php:167-177 | sorting the array in place leaves it holding `SortByOffset` of its old contents |
| PresetSort.InsertAscending | Neos.Neos/Classes/Http/DetectContentSubgraphComponent.php:169-173 | inserting an entry with an offset into a configuration ascending by offset keeps it ascending |
| PresetSort.InsertInPlace | Neos.Neos/Classes/Http/DetectContentSubgraphComponent.php:167-177 | shifting one entry left in place turns the sorted prefix plus that entry into their stable insertion, and leaves the rest of the array alone |
| DimensionResolution.Step | Neos.Neos/Classes/Http/DetectContentSubgraphComponent.php:122-157 | the body of one iteration: the coordinate gains exactly the dimension's name when a preset was obtained, the counter advances by one exactly when a `uriPathSegment` dimension outside the context-path branch detected a preset and stays put otherwise, and the flag is raised iff it was raised before or this iteration consumed or probed a segment |
| DimensionResolution.Resolve | Neos.Neos/Classes/Http/DetectContentSubgraphComponent.php:113-160 | the loop over the sorted dimensions, stopping at the first resolver error; on success the counter is at most the number of dimensions |
| DimensionResolution.ResolveExtend | Neos.Neos/Classes/Http/DetectContentSubgraphComponent.php:121-158 | one more loop iteration applies `Step` with the dimension's resolved detector |
| DimensionResolution.ResolveFailsIffDetectorInvalid | Neos.Neos/Classes/Http/DetectContentSubgraphComponent.php:121-122 | detection fails exactly when some dimension's detector cannot be resolved, with the error of the first such dimension |
| DimensionResolution.ResolvePrefixFailure | Neos.Neos/Classes/Http/DetectContentSubgraphComponent.php:121-122 | a resolver failure in an early dimension is the failure of the whole detection |
| DimensionResolution.ResolvePrefixMonotone | Neos.Neos/Classes/Http/DetectContentSubgraphComponent.php:120-149 | every prefix of a successful detection succeeds; the offset counter never decreases and a raised flag stays raised |
| DimensionResolution.Reached | Neos.Neos/Classes/Http/DetectContentSubgraphComponent.php:113-160 | the loop state at the point the loop ends or stops at the first unresolvable detector; it is the result of `Resolve` whenever that succeeds |
| DimensionResolution.ResolveOffsetCountsConsumedSegments | Neos.Neos/Classes/Http/DetectContentSubgraphComponent.php:120-148 | the counter equals the number of dimensions that consumed a URI path segment (a `uriPathSegment` dimension outside the context-path branch whose detection returned a preset), so a dimension with no segment leaves later legacy offsets unchanged |
| DimensionResolution.ReachedAtFailure | Neos.Neos/Classes/Http/DetectContentSubgraphComponent.php:121-122 | a run whose detector resolution throws at dimension `i` stops in the state of the loop over the dimensions before `i` |
| DimensionResolution.ReachedFlagIffSomeStepRaisesIt | Neos.Neos/Classes/Http/DetectContentSubgraphComponent.php:121-147 | whether the run succeeds or stops, the flag it leaves is raised iff some iteration that ran raised it |
| DimensionResolution.ResolveOffsetBound | Neos.Neos/Classes/Http/DetectContentSubgraphComponent.php:120-149 | the counter, starting at 0, never exceeds the number of `uriPathSegment` dimensions, hence the number of dimensions |
| DimensionResolution.ResolveKeysAreDimensions | Neos.Neos/Classes/Http/DetectContentSubgraphComponent.php:113-157 | the coordinate's keys are configured dimension names |
| DimensionResolution.ResolveRecordsObtainedPreset | Neos.Neos/Classes/Http/DetectContentSubgraphComponent.php:126-157 | a dimension is in the coordinate iff its iteration obtained a preset (backend, detected or fallback), and then holds that preset's values; otherwise it is absent, which is no error |
| DimensionResolution.ContextPathPrecedence | Neos.Neos/Classes/Http/DetectContentSubgraphComponent.php:126-138 | on a context path, a dimension the backend detector finds a preset for holds exactly that preset's values |
| DimensionResolution.ContextPathIgnoresModeDetection | Neos.Neos/Classes/Http/DetectContentSubgraphComponent.php:126-138 | when the backend detector decides every dimension, replacing the mode detectors changes neither success nor the coordinate, and the counter stays 0 |
| DimensionResolution.BackendPrecedenceStep | Neos.Neos/Classes/Http/DetectContentSubgraphComponent.php:126-138 | on the context-path branch the coordinate gets the backend values, the counter is unchanged and the probe only decides the flag |
| DimensionResolution.DefaultFallback | Neos.Neos/Classes/Http/DetectContentSubgraphComponent.php:150-157 | with nothing detected, a preset is obtained iff `allowEmptyValue` is true and the default identifier is truthy and names an existing preset, and it is that preset |
| DimensionResolution.StepTouchesOnlyItsDimension | Neos.Neos/Classes/Http/DetectContentSubgraphComponent.php:129-156 | an iteration writes only its own dimension's coordinate |
| DimensionResolution.ResolveFlagIffSomeStepRaisesIt | Neos.Neos/Classes/Http/DetectContentSubgraphComponent.php:130-147 | the flag is raised iff some dimension consumed a URI path segment on the normal branch or its URI path segment probe on a context path found a preset |
| DimensionResolution.SingleLanguageDimension | Neos.Neos/Classes/Http/DetectContentSubgraphComponent.php:121-158 | one `uriPathSegment` dimension "language" detected as "en" gives coordinate {language: ["en"]}, counter 1, flag raised |
| ContentStream.DetectContentStream | Neos.Neos/Classes/Http/DetectContentSubgraphComponent.php:224-238 | "live" for the empty path, a non-context path or a malformed context path; otherwise the workspace the context path names |
| ContentStream.NonLiveComesFromContextPath | Neos.Neos/Classes/Http/DetectContentSubgraphComponent.php:226-235 | a workspace other than "live" always comes from a non-empty, well-formed context path |
| ContextAssembly.BuildContextFromWorkspaceNameAndDimensions | Neos.Neos/Classes/Http/DetectContentSubgraphComponent.php:91-98 | invisible and inaccessible content are shown iff the workspace is not "live"; workspace and coordinate are passed on unchanged |
| Component.DetectContentSubgraphComponent.FlagUriPathSegmentUsed | Neos.Neos/Classes/Http/DetectContentSubgraphComponent.php:183-190 | the flag parameter becomes `true` (and only ever `true`, so raising it again changes nothing); nothing else changes |
| Component.DetectContentSubgraphComponent.DetectDimensionSpacePoint | Neos.Neos/Classes/Http/DetectContentSubgraphComponent.php:111-161 | returns the coordinate of `Resolve` over the offset-sorted configuration and leaves the flag raised iff that run raised it, or fails with the first resolver error, leaving the flag raised iff an iteration before that dimension raised it |
| Component.DetectContentSubgraphComponent.DetectByMode | Neos.Neos/Classes/Http/DetectContentSubgraphComponent.php:140-157 | outside the context-path branch, one iteration's coordinates and counter are those of `Step`, and the flag is raised exactly when a `uriPathSegment` dimension detected a preset |
| Component.DetectContentSubgraphComponent.Handle | Neos.Neos/Classes/Http/DetectContentSubgraphComponent.php:68-81 | stores and hands on the context properties of the detected workspace and coordinate; the component context's flag is `true` if the loop raised it and otherwise as before, and the flag handed on is that value or false when unset; on a resolver error nothing is stored and the flag is raised iff an iteration before the failing dimension raised it, otherwise as before |
| Component.DetectContentSubgraphComponent.constructor | Neos.Neos/Classes/Http/DetectContentSubgraphComponent.php:28-62 | the component holds the injected preset configuration, settings and collaborators; the configuration's dimension names are distinct, as the keys of the PHP preset map are |
| Component.HandedOnBackendValues | Neos.Neos/Classes/Http/DetectContentSubgraphComponent.php:119-138 | on a context path, every dimension the backend detector resolves holds the backend's values in the coordinate that `Handle` stores, after sorting |

## Left out

- The detector implementations (URI path segment, host name, cookie, backend context path) and `DimensionPresetDetectorResolver` are not part of this model. They are function-valued parameters. The resolver may return an error.
- `NodePaths::isContextPath` and `NodePaths::explodeContextPath` are not part of this model. They are a predicate and a partial extractor among the collaborators.
- `ContextFactoryInterface::create`, `ContentContext` and `ContentContextContainer` are object construction and injected state. `Handle` stops at the context-properties record. It returns what it would hand to the container instead of calling the container's setters.
- HTTP plumbing is reduced to a `Request` record (path, host, cookies). The component context keeps only the two parameters this component writes, as typed fields.
- Configuration loading is left out. The preset source's result and the two injected settings are constructor inputs of the component.
- PresetSort.SortPresetsByOffset: models `uasort` as a straight stable insertion sort. PHP's own sort is a hybrid (sorting networks and insertion sort for small arrays). With a comparator that is not a total order, it may order dimensions without offsets differently. When every dimension declares an offset, every stable sort gives the same result.
- Loose PHP typing is not modelled. Option values have their documented types, so only `allowEmptyValue == true` enables the fallback. Preset fields other than the identifier and `values` (label, URI segment) are left out.
- Exceptions other than the resolver's (for example, from a detector) are not modelled. Detectors are total functions here.
