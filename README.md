# Realtime profiler panel settings, modelled in Dafny

This project models the `Settings` object of the realtime profiler panel in the
flame-graph extension. That object holds four things:

- the display settings and the step count derived from them;
- a catalog of metrics and an ordered list of enabled metrics;
- the two graph colours;
- a list of change listeners, which it notifies after every change.

The model keeps the object's imperative form. `Settings` is a class whose
fields `changeListeners`, `value`, `enabledMetrics` and `steps` are
reassigned by its methods. Its two outside effects are recorded in ghost logs:
`posted` holds the messages posted to the extension host, and `invoked` holds
the listener calls. The pure parts are functions with lemmas:

- `Sequences.Without`: the `filter(e => e !== x)` used both to turn a metric
  off and to unsubscribe a listener;
- `Metrics.ResolveIndices` and `Metrics.InitialEnabled`: turning the default
  index list into the initial enabled list;
- `Metrics.IndexOf` and `Metrics.Keys`: the `keys` of a SetEnabledMetrics
  message;
- `Metrics.Toggle`: the new enabled list after `toggleMetric`.

Files: `sequences.dfy` (module `Sequences`), `metrics.dfy` (module `Metrics`),
`settings.dfy` (module `RealtimeSettings`).

The enabled list is not always non-empty. The code falls back to `catalog[0]`
only when the default index list itself is empty, so a non-empty default list
whose indices are all out of range yields an empty list
(`Metrics.InitialEmpty`). `toggleMetric` can also empty it, so the model
carries no non-empty invariant.

## Model

| member | source | states |
|---|---|---|
| Sequences.Without | packages/vscode-js-profile-flame/src/realtime/settings.ts:67 | the filtered list never contains the removed element, contains every other element of the input, contains nothing new, and is no longer than the input |
| Sequences.WithoutConcat | packages/vscode-js-profile-flame/src/realtime/settings.ts:67 | filtering distributes over concatenation, so the survivors keep their relative order |
| Sequences.WithoutMultiset | packages/vscode-js-profile-flame/src/realtime/settings.ts:67 | exactly the occurrences of the removed element are lost; every other element keeps its multiplicity |
| Sequences.WithoutAbsent | packages/vscode-js-profile-flame/src/realtime/settings.ts:62 | filtering out an element that is absent leaves the list unchanged |
| Sequences.WithoutIdempotent | packages/vscode-js-profile-flame/src/realtime/settings.ts:62 | calling the unsubscribe closure a second time changes nothing |
| Sequences.AppendThenWithout | packages/vscode-js-profile-flame/src/realtime/settings.ts:60-63 | registering a listener that was not registered, then unsubscribing it, restores the listener list |
| Metrics.IndexOf | packages/vscode-js-profile-flame/src/realtime/settings.ts:74 | `indexOf` is -1 exactly for a non-member; otherwise it is a position holding the metric with no earlier occurrence |
| Metrics.IndexOfAt | packages/vscode-js-profile-flame/src/realtime/settings.ts:74 | in a catalog without repetitions, the index of the entry at position i is i |
| Metrics.Keys | packages/vscode-js-profile-flame/src/realtime/settings.ts:72-75 | the message keys have one entry per enabled metric; a catalog member's key is in 0..catalog length-1 and names that metric; a non-member's key is -1 |
| Metrics.ResolveIndices | packages/vscode-js-profile-flame/src/realtime/settings.ts:34 | the resolved list is no longer than the index list and holds only catalog members |
| Metrics.InitialEnabled | packages/vscode-js-profile-flame/src/realtime/settings.ts:33-35 | the initial enabled list holds only catalog members |
| Metrics.ResolveConcat | packages/vscode-js-profile-flame/src/realtime/settings.ts:34 | resolution distributes over concatenation, so resolved metrics keep the order of the default list |
| Metrics.ResolveMembers | packages/vscode-js-profile-flame/src/realtime/settings.ts:34 | a metric is in the resolved list if and only if some in-range index of the list names it |
| Metrics.ResolveInRange | packages/vscode-js-profile-flame/src/realtime/settings.ts:34 | when every index is in range nothing is dropped, and position k is the catalog entry at index k of the list |
| Metrics.ResolveEmpty | packages/vscode-js-profile-flame/src/realtime/settings.ts:34 | the resolved list is empty if and only if no index is in range, negative and too-large indices both counting as out of range |
| Metrics.InitialEmpty | packages/vscode-js-profile-flame/src/realtime/settings.ts:33-35 | an empty default list yields exactly the first catalog entry; the initial list is empty if and only if the default list is non-empty with no index in range |
| Metrics.KeysResolve | packages/vscode-js-profile-flame/src/realtime/settings.ts:72-75 | resolving the posted keys through the catalog gives back the enabled list, when every enabled metric is a catalog member |
| Metrics.ResolveKeys | packages/vscode-js-profile-flame/src/realtime/settings.ts:74 | with a catalog without repetitions, the keys of a resolved list of in-range indices are those indices |
| Metrics.Toggle | packages/vscode-js-profile-flame/src/realtime/settings.ts:66-70 | the toggled metric is in the new list if and only if it was not in the old one; every other metric is in the new list if and only if it was in the old one |
| Metrics.ToggleTwiceAbsent | packages/vscode-js-profile-flame/src/realtime/settings.ts:66-70 | toggling a metric that is off appends it at the end, and toggling it again restores the original list |
| Metrics.TogglePresent | packages/vscode-js-profile-flame/src/realtime/settings.ts:66-69 | toggling an enabled metric is filtering it out, so all its occurrences go and the others keep their order and multiplicities; toggling it back appends it once at the end |
| RealtimeSettings.Settings.constructor | packages/vscode-js-profile-flame/src/realtime/settings.ts:14-41 | no listeners, default display settings with steps derived from them, enabled list from the default indices, nothing posted and nothing invoked |
| RealtimeSettings.Settings.MetricColor | packages/vscode-js-profile-flame/src/realtime/settings.ts:54-58 | the primary colour when the metric is the first enabled metric, the secondary colour otherwise (including when no metric is enabled); no state changes |
| RealtimeSettings.Settings.OnChange | packages/vscode-js-profile-flame/src/realtime/settings.ts:60-63 | the listener is appended at the end of the list, and the returned unsubscribe capability names it and this settings object |
| RealtimeSettings.Settings.RunUnsubscribe | packages/vscode-js-profile-flame/src/realtime/settings.ts:62 | run on the settings object that issued it, every registration of the listener is removed and the others keep their order; no other field changes |
| RealtimeSettings.Settings.ToggleMetric | packages/vscode-js-profile-flame/src/realtime/settings.ts:65-78 | the enabled list becomes its toggle; exactly one SetEnabledMetrics message with the new list's keys is posted; every listener is invoked once, in registration order; settings, steps and listeners are unchanged |
| RealtimeSettings.Settings.Update | packages/vscode-js-profile-flame/src/realtime/settings.ts:80-84 | value is replaced, steps are recomputed from it, every listener is invoked once in registration order; the enabled list, listeners and posted messages are unchanged |
| RealtimeSettings.Settings.FireChange | packages/vscode-js-profile-flame/src/realtime/settings.ts:86-90 | the invocation log grows by exactly the listener list, in order |

## Left out

- Theme colours: the `observeColors` subscription and the five-colour record it builds are not modelled. The two graph colours are constructor parameters fixed for the object's lifetime. So the window before the first theme event, when `colors` is undefined, is not modelled, and neither is the change notification a theme event fires.
- `postMessage` is a one-way call into the webview API. It is modelled only as an append to the ghost `posted` log.
- Listener bodies are not modelled. Listeners are identities, and calling one appends it to the ghost `invoked` log. A listener that throws, or that registers, unsubscribes or toggles during `fireChange`, is not modelled.
- `getSteps`, `ISettings`, `createMetrics` and the metric descriptors come from other files, which are not part of this model. `getSteps` is a constructor parameter of type `SettingsValue -> int`. The catalog is a constructor parameter, and metrics are opaque values compared by identity.
- `DEFAULT_ENABLED_METRICS`, a global injected at build time, is a constructor parameter.
- RealtimeSettings.Settings.constructor: requires a non-empty catalog without repetitions. This is an assumption about `createMetrics`. With an empty catalog and an empty default list, the source would enable `undefined`.
- `filter(Boolean)` is modelled as dropping only the indices that resolve to nothing. Metric descriptors are objects and never falsy, and the default indices are integers.
- Aliasing is not modelled. `enabledMetrics` is a public array that `push` grows in place, so a reader holding the old array would see the push. The model reassigns a `seq` field, which loses that effect; the resulting value is the same.
- `SettingsValue` fields and `steps` are unbounded integers, while the source's `ISettings` fields and `getSteps` result are JavaScript numbers (doubles). The core does no arithmetic on them, so only their identity matters here.
