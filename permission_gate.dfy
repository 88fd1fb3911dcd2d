/** The permission gate: the capability check on an enumeration, and what
    `setDisabledState` does to the page's select lists. */
module PermissionGate {
  import opened Media

  const VIDEO_SELECT_ID := "videoInputSelect"
  const AUDIO_SELECT_ID := "audioInputSelect"
  const RESOLUTION_SELECT_ID := "resolutionSelect"
  const PERMISSION_NEEDED := "Permission needed"
  const DEFAULT_RESOLUTION := "1280x720"
  const DISABLED_BORDER := "2px solid #ffffff4f"

  /** `devices.some(d => d.kind === kind && d.deviceId !== '')`. */
  function HasAccessibleInput(devices: seq<Device>, kind: DeviceKind): (b: bool)
    ensures b <==> exists i :: 0 <= i < |devices| && devices[i].kind == kind && devices[i].deviceId != ""
    decreases |devices|
  {
    if devices == [] then false
    else (devices[0].kind == kind && devices[0].deviceId != "") || HasAccessibleInput(devices[1..], kind)
  }

  /** The controls are enabled iff a camera and a microphone with non-empty ids are visible. */
  function HasPermissions(devices: seq<Device>): bool {
    HasAccessibleInput(devices, VideoInput) && HasAccessibleInput(devices, AudioInput)
  }

  /** Both directions of the capability rule. */
  lemma HasPermissionsIff(devices: seq<Device>)
    ensures HasPermissions(devices) <==>
      (exists i :: 0 <= i < |devices| && devices[i].kind == VideoInput && devices[i].deviceId != "") &&
      (exists j :: 0 <= j < |devices| && devices[j].kind == AudioInput && devices[j].deviceId != "")
  {
  }

  /** Enumerations before permission is granted report ids as "", so they
      never enable the controls, whatever devices they list. */
  lemma AnonymousDevicesDisable(devices: seq<Device>)
    requires forall i :: 0 <= i < |devices| ==> devices[i].deviceId == ""
    ensures !HasPermissions(devices)
  {
  }

  /** The first select that has no selected option, or `|selects|`. */
  function FirstUnselected(selects: seq<Select>): (k: nat)
    ensures k <= |selects|
    ensures forall j :: 0 <= j < k ==> selects[j].HasSelection()
    ensures k < |selects| ==> !selects[k].HasSelection()
    decreases |selects|
  {
    if selects == [] then 0
    else if !selects[0].HasSelection() then 0
    else 1 + FirstUnselected(selects[1..])
  }

  /** One select disabled, its selected option's text replaced. */
  function Disabled(s: Select): (r: Select)
    requires s.HasSelection()
    ensures r.Valid() && r.disabled && r.id == s.id && r.selectedIndex == s.selectedIndex
    ensures |r.options| == |s.options|
    ensures r.options[s.selectedIndex].text == PERMISSION_NEEDED
    ensures r.Value() == s.Value()
    ensures forall o :: 0 <= o < |s.options| && o != s.selectedIndex ==> r.options[o] == s.options[o]
  {
    s.(disabled := true,
       options := s.options[s.selectedIndex := s.options[s.selectedIndex].(text := PERMISSION_NEEDED)])
  }

  /** `setDisabledState(true)` on the selects in document order: reading the
      selected option of a list with no selection throws, so the walk stops at
      the first such list, which is left disabled and unrenamed, and every
      list after it is left as it was. */
  function AfterDisable(selects: seq<Select>): (r: seq<Select>)
    ensures |r| == |selects|
  {
    var k := FirstUnselected(selects);
    seq(|selects|, j requires 0 <= j < |selects| =>
      if j < k then Disabled(selects[j])
      else if j == k then selects[j].(disabled := true)
      else selects[j])
  }

  /** One select enabled: the resolution list gets the option snapshot back
      with "1280x720" selected; any other list keeps its options and selection. */
  function Enabled(s: Select, snapshot: seq<Entry>): (r: Select)
    ensures !r.disabled && r.id == s.id && (s.Valid() ==> r.Valid())
    ensures s.id == RESOLUTION_SELECT_ID ==> r.options == snapshot
    ensures s.id == RESOLUTION_SELECT_ID ==>
      (r.HasSelection() <==> exists j :: 0 <= j < |snapshot| && snapshot[j].value == DEFAULT_RESOLUTION)
    ensures s.id == RESOLUTION_SELECT_ID && r.HasSelection() ==> r.Value() == DEFAULT_RESOLUTION
    ensures s.id != RESOLUTION_SELECT_ID ==> r.options == s.options && r.selectedIndex == s.selectedIndex
  {
    if s.id == RESOLUTION_SELECT_ID
    then s.(disabled := false, options := snapshot, selectedIndex := IndexOfValue(snapshot, DEFAULT_RESOLUTION))
    else s.(disabled := false)
  }

  /** `setDisabledState(false)` on the selects. */
  function AfterEnable(selects: seq<Select>, snapshot: seq<Entry>): (r: seq<Select>)
    ensures |r| == |selects|
  {
    seq(|selects|, j requires 0 <= j < |selects| => Enabled(selects[j], snapshot))
  }

  /** When every list has a selection, disabling marks every list disabled,
      renames its selected option "Permission needed", and changes nothing else
      (the selection, the other options, the values). */
  lemma DisableMarksEverySelect(selects: seq<Select>, j: nat, o: nat)
    requires FirstUnselected(selects) == |selects|
    requires j < |selects| && o < |selects[j].options|
    ensures AfterDisable(selects)[j].disabled
    ensures AfterDisable(selects)[j].id == selects[j].id
    ensures AfterDisable(selects)[j].selectedIndex == selects[j].selectedIndex
    ensures |AfterDisable(selects)[j].options| == |selects[j].options|
    ensures AfterDisable(selects)[j].options[o] ==
      if o == selects[j].selectedIndex then selects[j].options[o].(text := PERMISSION_NEEDED)
      else selects[j].options[o]
    ensures AfterDisable(selects)[j].Value() == selects[j].Value()
  {
  }

  /** A list with no selection stops the walk: it and every list after it
      keep their options, and the lists after it stay as they were. */
  lemma DisableStopsAtUnselected(selects: seq<Select>, j: nat)
    requires FirstUnselected(selects) <= j < |selects|
    ensures AfterDisable(selects)[j].options == selects[j].options
    ensures j > FirstUnselected(selects) ==> AfterDisable(selects)[j] == selects[j]
  {
  }

  /** Enabling clears every disabled flag; the resolution list is the snapshot
      again with "1280x720" selected when the snapshot offers it; the camera and
      microphone lists keep their options and their selection. */
  lemma EnableRestores(selects: seq<Select>, snapshot: seq<Entry>, j: nat)
    requires j < |selects|
    ensures !AfterEnable(selects, snapshot)[j].disabled
    ensures AfterEnable(selects, snapshot)[j].id == selects[j].id
    ensures selects[j].id == RESOLUTION_SELECT_ID ==>
      AfterEnable(selects, snapshot)[j].options == snapshot &&
      ((exists o :: 0 <= o < |snapshot| && snapshot[o].value == DEFAULT_RESOLUTION) ==>
        AfterEnable(selects, snapshot)[j].Value() == DEFAULT_RESOLUTION)
    ensures selects[j].id != RESOLUTION_SELECT_ID ==>
      AfterEnable(selects, snapshot)[j].options == selects[j].options &&
      AfterEnable(selects, snapshot)[j].selectedIndex == selects[j].selectedIndex
  {
  }

  /** Enabling twice is enabling once. */
  lemma EnableIdempotent(selects: seq<Select>, snapshot: seq<Entry>)
    ensures AfterEnable(AfterEnable(selects, snapshot), snapshot) == AfterEnable(selects, snapshot)
  {
  }

  /** Disabling as evidently intended: every list disabled, and the selected
      option renamed wherever there is one. */
  function DisabledIntended(s: Select): (r: Select)
    ensures (s.Valid() ==> r.Valid()) && r.disabled && r.id == s.id && r.selectedIndex == s.selectedIndex
    ensures |r.options| == |s.options|
    ensures forall o :: 0 <= o < |s.options| ==>
      r.options[o] == if s.HasSelection() && o == s.selectedIndex
                      then s.options[o].(text := PERMISSION_NEEDED) else s.options[o]
  {
    if s.HasSelection() then Disabled(s) else s.(disabled := true)
  }

  function AfterDisableIntended(selects: seq<Select>): (r: seq<Select>)
    ensures |r| == |selects|
  {
    seq(|selects|, j requires 0 <= j < |selects| => DisabledIntended(selects[j]))
  }

  /** The intended walk disables every list, renames every selected option,
      and agrees with the walk as written whenever no list lacks a selection. */
  lemma DisableIntendedDisablesAll(selects: seq<Select>, j: nat)
    requires j < |selects|
    ensures AfterDisableIntended(selects)[j].disabled
    ensures AfterDisableIntended(selects)[j].selectedIndex == selects[j].selectedIndex
    ensures |AfterDisableIntended(selects)[j].options| == |selects[j].options|
    ensures forall o :: 0 <= o < |selects[j].options| ==>
      AfterDisableIntended(selects)[j].options[o] ==
        if selects[j].HasSelection() && o == selects[j].selectedIndex
        then selects[j].options[o].(text := PERMISSION_NEEDED) else selects[j].options[o]
    ensures AfterDisableIntended(selects)[j].options == selects[j].options <==>
      (!selects[j].HasSelection() || selects[j].options[selects[j].selectedIndex].text == PERMISSION_NEEDED)
    ensures FirstUnselected(selects) == |selects| ==> AfterDisable(selects) == AfterDisableIntended(selects)
  {
    if selects[j].HasSelection() {
      var k := selects[j].selectedIndex;
      var o := selects[j].options;
      assert o[k := o[k].(text := PERMISSION_NEEDED)] == o <==> o[k].text == PERMISSION_NEEDED by {
        if o[k := o[k].(text := PERMISSION_NEEDED)] == o {
          assert o[k := o[k].(text := PERMISSION_NEEDED)][k] == o[k];
        }
      }
    }
  }

  /** As written, an empty list before another one leaves that later list
      enabled: here an empty microphone list keeps the resolution list usable,
      which the intended walk would have disabled. */
  lemma EmptyListLeavesLaterEnabled(camera: Entry, resolution: Entry)
    ensures var selects := [Select(VIDEO_SELECT_ID, [camera], 0, false),
                            Select(AUDIO_SELECT_ID, [], -1, false),
                            Select(RESOLUTION_SELECT_ID, [resolution], 0, false)];
      && !AfterDisable(selects)[2].disabled
      && AfterDisableIntended(selects)[2].disabled
  {
    var selects := [Select(VIDEO_SELECT_ID, [camera], 0, false),
                    Select(AUDIO_SELECT_ID, [], -1, false),
                    Select(RESOLUTION_SELECT_ID, [resolution], 0, false)];
    assert selects[0].HasSelection() && !selects[1].HasSelection();
    assert FirstUnselected(selects) == 1;
  }
}
