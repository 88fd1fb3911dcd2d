# Camera and microphone test page, modelled in Dafny

The page lists the cameras and microphones a browser reports and previews
the chosen camera at a chosen resolution. It also draws a bar whose width
follows the microphone's loudness. All of its logic is in `app.js`.

- A `MediaDeviceManager` object owns three select lists (camera, microphone,
  resolution), the video element's source stream and the volume meter's
  script-processor node.
- The page-level code snapshots the resolution options at load.
- It probes for permission once.
- It runs a capability check on an enumeration.
- It switches the controls between enabled and "Permission needed" with
  `setDisabledState`.

The model takes browser objects as plain values:

- a `Device` record per enumerated device;
- a `Select` with its options, its selected index and its disabled flag, following HTML's single-choice drop-down rules:
  - appending to a list with nothing selected selects its first enabled option;
  - setting `value` selects the first option with that value, or none;
  - `value` is `""` when nothing is selected;
- a `Stream` of `Track`s, each with a stopped flag;
- a `ProcessorNode` with a serial number and a connected flag.

Two classes keep the object state, in `app.dfy`:

- `MediaDeviceManager` holds the three lists (in document order: camera, microphone, resolution), the source stream, the node and the visible page flags.
- `Page` holds the option snapshot, the test button's state and the manager.

Each browser callback is a method that takes the browser's result as a
parameter:

- the enumeration (`UpdateDeviceList`, `CheckPermissions`);
- the capture outcome (`Settle`);
- the probe's outcome (`OnProbeGranted`, `OnProbeDenied`).

The pure parts live in their own modules:

- `Decimal`: numerals, `parseInt` on digit strings.
- `Media`: the data model.
- `Catalog`: the refresh rule.
- `Constraints`: the capture request.
- `AccessErrors`: error messages.
- `LevelMeter`: the volume bar.
- `PermissionGate`: the capability rule and the effect of `setDisabledState` on the lists.

Some behaviours of the code are easy to misread. The model states them as the code has them:

- A stream without an audio track fails: `createMediaStreamSource` throws, after the success message is shown and before a node is installed. The rejection reaches the `catch`, which alerts the generic message. A stream without a video track throws earlier, at `getSettings`.
- The refresh does not deduplicate devices.
- The grant path enables the controls only after the refresh succeeds.
- Disabling renames only each list's selected option. The walk stops at the first list with no selection (see Findings).
- An unset device id is `deviceId: undefined`. The model's `Unset` stands for that.

## Model

| member | source | states |
|---|---|---|
| Decimal.NatToString | app.js:62 | the number in a fallback name is written as a non-empty digit string with no leading zero |
| Decimal.ParseNatToString | app.js:106-108 | `parseInt` of a numeral gives back the number it was written from |
| Decimal.ParseDigits | app.js:107-108 | `parseInt(part, 10)` on a string of decimal digits, most significant first; `ParseNatToString` shows it reads back every numeral |
| Decimal.NatToStringInjective | app.js:62-65 | different numbers give different numerals |
| Decimal.IndexOf | app.js:106 | the result is the first position holding the separator, or the length when there is none |
| Decimal.IndexOfAfterPrefix | app.js:106 | in `W + "x" + H` with digit-only `W`, the split point is right after `W` |
| Media.FirstEnabled | app.js:63 | the drop-down default after an append is the first enabled option, or none when every option is disabled |
| Media.IndexOfValue | app.js:261 | setting `value` finds the first option carrying that value, or none |
| Media.Select.Value | app.js:102-103 | `select.value` is the selected option's value |
| Media.Select.Clear | app.js:54-55 | emptying a list leaves no options and no selection, and keeps its id and disabled flag |
| Media.Select.Append | app.js:63 | appending adds the option at the end; an existing selection stays, and with none the first enabled option is selected |
| Media.Select.SetValue | app.js:261 | after `select.value = v` a selection exists iff some option has value `v`, and then `value` is `v` |
| Media.AppendKeepsDefault | app.js:253-260 | appending options one by one to a list whose selection is the default keeps the default selected |
| Media.StopAllProperties | app.js:122 | stopping every track leaves them all stopped, with the same ids, kinds and order; stopping twice is stopping once |
| Media.StopAll | app.js:122 | `track.stop()` on each track: the same number of tracks, each the original with `stopped` set, so all are stopped |
| Media.HasTrack | app.js:152-171 | whether the stream has a track of the kind, which decides whether `getVideoTracks()[0]` and `createMediaStreamSource` throw; `HandleMediaStream` states both outcomes |
| Catalog.Of | app.js:61-66 | every kept device has the requested kind and comes from the enumeration |
| Catalog.FallbackName | app.js:62-65 | the unlabelled-device name: "Camera " or "Microphone " followed by a non-empty decimal numeral |
| Catalog.EntryFor | app.js:58-66 | the option for one device: valued by its device id, enabled, unstyled, with a non-empty text, the label when there is one, else the fallback name numbered from its 0-based position plus one |
| Catalog.Entries | app.js:54-68 | the options a refresh gives one list: one per device of the kind, in order, each valued by that device's id and enabled |
| Catalog.Label | app.js:58-66 | one option per device, in order, each valued by its device id and enabled; `LabelSnoc` and `EntryNaming` give the text |
| Catalog.Refreshed | app.js:54-68 | a list after the refresh: the same list with exactly the new options, selected on an enabled option iff one exists |
| Catalog.OfConcat | app.js:57-68 | the per-kind list of two enumerations placed one after the other is the concatenation of their lists |
| Catalog.OfAt | app.js:57-68 | every device of the kind is in its list, at the position given by how many same-kind devices precede it |
| Catalog.RankOrder | app.js:57-68 | enumeration order is kept: an earlier same-kind device sits earlier in the list |
| Catalog.OfFrom | app.js:57-68 | nothing else is in the list: each entry is some device of the kind |
| Catalog.EntryNaming | app.js:59-66 | a device's option carries its id; its text is its label when non-empty, else "Camera k+1" / "Microphone k+1", where k counts every earlier device of its kind |
| Catalog.FallbackNamesDistinct | app.js:62-65 | two fallback names are equal only for the same kind and the same number |
| Catalog.UnlabelledNamesDiffer | app.js:62-65 | two unlabelled devices of one kind get different names, the earlier at the lower position |
| Catalog.EntriesSnoc | app.js:57-68 | one more enumerated device adds at most its own option, at the end |
| Catalog.RefreshStep | app.js:57-68 | one step of the walk: a same-kind device appends its option, named from the list's current length; any other device leaves the list unchanged |
| Catalog.RefreshedSelection | app.js:54-68 | after a refresh the list's value is the first device of the kind, or "" when there is none |
| Constraints.ParseResolutionText | app.js:106-108 | a resolution written as `WxH` is well formed and reads back as width W and height H |
| Constraints.ParseResolution | app.js:106-108 | `split('x')` and `parseInt` of both parts on a well-formed resolution; `ParseResolutionText` shows it undoes writing `WxH` |
| Constraints.SourceConstraint | app.js:113 | an empty source leaves the id unconstrained; any other source asks for exactly that id |
| Constraints.BuildConstraints | app.js:102-118 | the video and audio ids are unset iff their source is empty, and exact on that source otherwise; width and height are the parsed resolution |
| Constraints.BuildConstraintsResolution | app.js:106-116 | for the preset `WxH` the video constraint is exactly width W, height H and the source's id constraint |
| Constraints.CamAFullHd | app.js:111-118 | "1920x1080", "camA" and the default microphone give video {exact "camA", 1920, 1080} and audio with the id unset |
| AccessErrors.HandleMediaAccessError | app.js:36-47 | each error name gets exactly one of the four messages; denied, not-found and overconstrained each belong to exactly their names, and all other names get the generic message |
| LevelMeter.Sum | app.js:195-199 | the total of the byte bins lies between 0 and 255 times their count |
| LevelMeter.VolumeWidth | app.js:200-207 | the bar width is the lesser of four times the average and the canvas width: it exceeds neither and equals one of them |
| LevelMeter.OnAudioProcess | app.js:193-207 | the accumulating loop yields exactly min(average * 4, canvas width) |
| LevelMeter.AverageBounds | app.js:193-200 | the average of byte bins lies in [0, 255] |
| LevelMeter.Average | app.js:200 | the total of the bins divided by their count; `AverageBounds` places it in [0, 255] |
| LevelMeter.Min | app.js:207 | `Math.min`: the result exceeds neither argument and equals one of them |
| LevelMeter.WidthBounds | app.js:203-207 | the bar width lies in [0, canvas width] and never exceeds 1020 |
| LevelMeter.WidthMonotone | app.js:200-207 | a larger average never gives a narrower bar |
| LevelMeter.SumUpdate | app.js:197-199 | changing one bin changes the total by exactly the difference |
| LevelMeter.LouderBinWider | app.js:193-207 | raising any one bin never narrows the bar |
| PermissionGate.HasAccessibleInput | app.js:288-289 | true iff some device of the kind has a non-empty id |
| PermissionGate.HasPermissions | app.js:288-292 | the controls are enabled only with an accessible camera and an accessible microphone; `HasPermissionsIff` states it over the device list |
| PermissionGate.HasPermissionsIff | app.js:288-292 | the controls are enabled iff some camera and some microphone have non-empty ids |
| PermissionGate.AnonymousDevicesDisable | app.js:288-295 | an enumeration whose ids are all empty (before permission) never enables the controls |
| PermissionGate.FirstUnselected | app.js:244-249 | the lists before the result all have a selection, and the one at the result has none |
| PermissionGate.AfterDisable | app.js:244-249 | the disabling walk keeps the number of lists |
| PermissionGate.Disabled | app.js:245-249 | one list disabled with a selection: still valid, same id, selection and number of options, the selected option's text "Permission needed", every other option unchanged, so the value is kept |
| PermissionGate.Enabled | app.js:245-262 | one list enabled: its flag cleared and its id kept; the resolution list gets the snapshot with a selection iff some option is "1280x720", which it then shows; any other list keeps its options and selection |
| PermissionGate.AfterEnable | app.js:244-262 | the enabling walk keeps the number of lists |
| PermissionGate.DisableMarksEverySelect | app.js:244-249 | when every list has a selection: every list is disabled and its selected option reads "Permission needed"; ids, selection, values, other options and option counts are unchanged |
| PermissionGate.DisableStopsAtUnselected | app.js:249 | from the first list without a selection on, options are unchanged, and lists after it are entirely unchanged |
| PermissionGate.EnableRestores | app.js:250-262 | enabling clears every disabled flag; the resolution list gets the load-time snapshot back with "1280x720" selected when offered; the camera and microphone lists keep their options and selection |
| PermissionGate.EnableIdempotent | app.js:240-263 | enabling twice is the same as enabling once |
| PermissionGate.AfterDisableIntended | app.js:244-249 | the intended disabling walk keeps the number of lists |
| PermissionGate.DisabledIntended | app.js:245-249 | one list disabled as intended: disabled, same selection and option count, exactly the selected option (if any) renamed "Permission needed", every other option unchanged |
| PermissionGate.DisableIntendedDisablesAll | app.js:244-249 | the intended walk disables every list, keeps each selection and option count, sets the selected option's text to "Permission needed" and leaves every other option as it was (a list's options are unchanged iff it has no selection or already reads so); when every list has a selection it equals the walk as written |
| PermissionGate.EmptyListLeavesLaterEnabled | app.js:244-249 | as written, an empty microphone list leaves the resolution list after it enabled, where the intended walk disables it |
| App.CameraOnlyMachine | app.js:285-296 | with only a camera, the check disables the controls, the walk stops at the empty microphone list, and the resolution list is left as it was |
| App.RefreshedSelects | app.js:54-68 | after a refresh the camera and microphone lists hold exactly the options of their kind, are valid and keep their ids and flags; the resolution list is untouched |
| App.RefreshIdempotent | app.js:54-68 | refreshing twice from the same enumeration gives the lists a single refresh gives |
| App.StopTracks | app.js:122 | the loop over the tracks yields the stream with every track stopped |
| App.RebuildOptions | app.js:252-260 | rebuilding from the snapshot gives exactly the snapshot's options, with the drop-down default selected |
| App.AddDevice | app.js:57-68 | a camera or microphone appends its option, named by label or by list length + 1, to its own list only; other kinds change nothing |
| App.RebuildLists | app.js:54-68 | the walk empties both device lists and hands each device to `AddDevice`; it ends with exactly the refreshed camera and microphone lists of the whole enumeration |
| App.ApplyDisabledState | app.js:244-263 | one select's step: it throws iff disabling a list with no selection; otherwise the result is the disabled or enabled form of the list |
| App.ApplyToSelects | app.js:244-263 | the walk over the lists in document order: the result is exactly the disabling walk (and `completed` iff every list has a selection) or the enabling walk, each list staying valid with its id |
| App.MediaDeviceManager.constructor | app.js:5-22 | three lists, empty device lists, no stream and no node |
| App.MediaDeviceManager.UpdateDeviceList | app.js:50-77 | on a listed enumeration the lists become exactly the refreshed lists: both device lists rebuilt from the enumeration alone (no earlier entry survives; `RefreshIdempotent` shows re-running gives identical lists), the resolution list untouched; on failure nothing changes; the session is untouched |
| App.MediaDeviceManager.GetDeviceMedia | app.js:101-130 | the request is built from the current selections; when it is issued, every track of the current stream is stopped, the node is disconnected and gone, and nothing else changed |
| App.MediaDeviceManager.HandleMediaStream | app.js:142-172 | the stream becomes the muted video source; with no video track a TypeError; with no audio track an InvalidStateError and no new node installed; with both, a fresh connected node |
| App.MediaDeviceManager.Settle | app.js:130-138 | a rejection alerts its classified message and changes nothing; any stream becomes the muted video source; one with a video track hides the start controls and shows the success message; one with video and audio installs the next node, counting it, with no alert; any other stream alerts the generic message and installs no node |
| App.Acquire | app.js:101-139 | teardown precedes the request, and the stream at that moment is exactly the old one with every track stopped; a stream with video and audio installs itself and a fresh node with no alert; a rejection alerts the classified message and leaves the stopped old stream as the video source; a stream lacking video or audio alerts the generic one and stays the video source with its tracks live; both leave no node; the select lists are unchanged; a rejection leaves the muted flag, info text and start/success display as they were, any stream sets them as `handleMediaStream` does, and the node counter grows only for a stream with video and audio |
| App.Page.constructor | app.js:225-236 | the camera and microphone lists start empty, the resolution list holds the options as loaded, nothing plays, no node exists, the counters are zero, the controls are enabled, and the snapshot is those resolution options |
| App.Page.SetDisabledState | app.js:240-264 | the button and its border follow the flag; the lists become exactly the disabling or enabling walk's result; the session is untouched |
| App.Page.OnProbeGranted | app.js:267-274 | the probe's tracks are all stopped; the controls (button, border, lists) are enabled only after a successful refresh, on the refreshed lists; a failed refresh changes none of them |
| App.Page.OnProbeDenied | app.js:275-279 | the error's message is alerted, the button is disabled with the grey border, and the lists take the disabling walk's result, completed iff every list has a selection |
| App.Page.CheckPermissions | app.js:285-296 | the button is disabled, with the grey border, iff the enumeration lacks a camera or a microphone with a non-empty id, and the lists take the disabling or enabling walk's result accordingly |

## Left out

- DOM, console and `alert` are left out. Alerts are returned as strings; logging is not modelled.
- The `navigator.mediaDevices` calls are parameters: each enumeration or capture outcome is passed to the method that handles it.
- `checkMediaDevices` (app.js:25-33) is never called and only probes whether browser objects exist.
- `addEventListeners` (app.js:80-98) and the test-button listener (app.js:282) only wire events to `updateDeviceList` and `getDeviceMedia`. The model calls those methods directly.
- The constructor's first `updateDeviceList` call is async; the model makes it a separate `UpdateDeviceList` call.
- Promise interleaving is not modelled. That covers overlapping `getDeviceMedia` calls, where a superseded stream can be installed after a newer teardown. It also covers the probe racing the capability check, with the last write winning. The model covers one acquisition at a time.
- Web Audio graph details (AudioContext, `resume`, analyser parameters, `connect`) are foreign library behaviour. Only the script-processor node is modelled, as installed or disconnected. The analyser and source nodes are not; `getDeviceMedia` does not disconnect them either.
- The canvas drawing (app.js:209-219) is rendering only. The bin count (512) is the given positive length of the array.
- LevelMeter.VolumeWidth: JavaScript's float arithmetic is modelled with exact reals. The division-free form `width * length == min(sum * 4, canvasWidth * length)` is not stated.
- Constraints.BuildConstraints: it requires a well-formed `digits 'x' digits` resolution. The page's presets always are. `parseInt` on malformed text (NaN, prefix parsing) is not modelled.
- GetDeviceMedia requires the same well-formed resolution.
- The resolution text built from the track settings (app.js:152-155) is never displayed. Only the TypeError that reading the settings raises without a video track is kept.
- The document order of the lists, camera, microphone, resolution, is assumed. index.html is not part of this model. Neither are the lists' initial contents: the device lists start empty, and the resolution list is given to the constructors.
- gulpfile.js holds build tasks only.

## Findings

| source | as written | input that shows it | evidently intended | confidence | as-written member | corrected member |
|---|---|---|---|---|---|---|
| app.js:244-249 | disabling reads `element.options[element.selectedIndex]` for every list; for a list with no options this is `undefined`, so setting its text throws and the walk stops, leaving later lists enabled | a camera and no microphone: the microphone list is empty, the capability check calls `setDisabledState(true)`, and the resolution list stays enabled | every list disabled, and the selected option renamed only where a list has one | medium, not executed | PermissionGate.EmptyListLeavesLaterEnabled | PermissionGate.DisableIntendedDisablesAll |

`Page.SetDisabledState` models the walk as written. `PermissionGate.AfterDisableIntended` is the corrected walk. `DisableIntendedDisablesAll` proves it disables every list, and proves it agrees with the walk as written whenever every list has a selection.
