/** The page: the `MediaDeviceManager` object with the select lists it fills,
    the video element's source stream and the volume meter's processing node,
    and the page-level controls that `setDisabledState` switches. Whatever the
    browser delivers asynchronously (an enumeration, the outcome of a capture
    request) is a parameter of the method that models the callback. */
module App {
  import opened Media
  import Catalog
  import Constraints
  import AccessErrors
  import opened PermissionGate

  /** Positions of the three lists in `MediaDeviceManager.selects`, which is
      also their order in the document. */
  const VIDEO: nat := 0
  const AUDIO: nat := 1
  const RESOLUTION: nat := 2

  /** The outcome of `enumerateDevices()`. */
  datatype Enumeration = Listed(devices: seq<Device>) | EnumerationFailed(name: string)

  /** The outcome of `getUserMedia(constraints)`: a stream, or an error name. */
  datatype Settlement = Fulfilled(stream: Stream) | Rejected(name: string)

  /** The manager's state besides its select lists. */
  datatype Session = Session(
    srcObject: Option<Stream>, muted: bool, infoText: string,
    node: Option<ProcessorNode>, nodesCreated: nat,
    startHidden: bool, successShown: bool)

  /** The select lists after a refresh from `devices`: the camera and
      microphone lists rebuilt, the resolution list untouched. */
  function RefreshedSelects(selects: seq<Select>, devices: seq<Device>): (r: seq<Select>)
    requires |selects| == 3
    ensures |r| == 3 && r[RESOLUTION] == selects[RESOLUTION]
    ensures forall j :: 0 <= j < 3 ==> r[j].id == selects[j].id && r[j].disabled == selects[j].disabled
    ensures r[VIDEO].options == Catalog.Entries(devices, VideoInput) && r[VIDEO].Valid()
    ensures r[AUDIO].options == Catalog.Entries(devices, AudioInput) && r[AUDIO].Valid()
  {
    selects[VIDEO := Catalog.Refreshed(selects[VIDEO], Catalog.Entries(devices, VideoInput))]
           [AUDIO := Catalog.Refreshed(selects[AUDIO], Catalog.Entries(devices, AudioInput))]
  }

  /** A refresh depends on the enumeration alone: refreshing twice from the
      same devices gives the lists a single refresh gives. */
  lemma RefreshIdempotent(selects: seq<Select>, devices: seq<Device>)
    requires |selects| == 3
    ensures RefreshedSelects(RefreshedSelects(selects, devices), devices) == RefreshedSelects(selects, devices)
  {
  }

  /** A machine with a camera and no microphone: after the refresh the
      microphone list is empty, the capability check disables the controls,
      and the disabling walk stops at the microphone list, so the resolution
      list after it keeps its enabled state. */
  lemma CameraOnlyMachine(selects: seq<Select>, camera: Device)
    requires |selects| == 3 && selects[VIDEO].Valid()
    requires camera.kind == VideoInput && camera.deviceId != ""
    ensures !HasPermissions([camera])
    ensures var refreshed := RefreshedSelects(selects, [camera]);
      && FirstUnselected(refreshed) == AUDIO
      && AfterDisable(refreshed)[RESOLUTION] == selects[RESOLUTION]
      && AfterDisableIntended(refreshed)[RESOLUTION].disabled
  {
    var devices := [camera];
    assert !HasAccessibleInput(devices[1..], AudioInput);
    CameraOnlyEntries(camera);
    var refreshed := RefreshedSelects(selects, devices);
    assert !refreshed[VIDEO].options[0].disabled;
    assert refreshed[VIDEO].HasSelection();
    assert !refreshed[AUDIO].HasSelection();
    assert refreshed[1..][0] == refreshed[AUDIO];
    assert FirstUnselected(refreshed) == AUDIO;
  }

  /** The refresh of a lone camera: one camera option and no microphone option. */
  lemma CameraOnlyEntries(camera: Device)
    requires camera.kind == VideoInput
    ensures |Catalog.Entries([camera], VideoInput)| == 1
    ensures Catalog.Entries([camera], AudioInput) == []
  {
    var devices := [camera];
    assert devices[..|devices| - 1] == [];
    assert Catalog.Of([], VideoInput) == [] && Catalog.Of([], AudioInput) == [];
    assert Catalog.Of(devices, VideoInput) == Catalog.Of([], VideoInput) + [camera];
    assert Catalog.Of(devices, AudioInput) == Catalog.Of([], AudioInput);
  }

  /** The same stream once `track.stop()` has run on each of its tracks. */
  method StopTracks(stream: Stream) returns (r: Stream)
    ensures r == stream.(tracks := StopAll(stream.tracks))
  {
    r := stream;
    var i := 0;
    while i < |r.tracks|
      invariant 0 <= i <= |r.tracks| == |stream.tracks| && r.id == stream.id
      invariant forall j :: 0 <= j < i ==> r.tracks[j] == stream.tracks[j].(stopped := true)
      invariant forall j :: i <= j < |r.tracks| ==> r.tracks[j] == stream.tracks[j]
    {
      r := r.(tracks := r.tracks[i := r.tracks[i].(stopped := true)]);
      i := i + 1;
    }
    assert r.tracks == StopAll(stream.tracks);
  }

  /** Empties a select and appends a copy of each snapshot option in turn. */
  method RebuildOptions(s: Select, snapshot: seq<Entry>) returns (r: Select)
    requires s.Valid()
    ensures r == s.(options := snapshot, selectedIndex := FirstEnabled(snapshot))
  {
    r := s.Clear();
    for k := 0 to |snapshot|
      invariant r == s.(options := snapshot[..k], selectedIndex := FirstEnabled(snapshot[..k]))
    {
      AppendKeepsDefault(r, snapshot[k]);
      assert snapshot[..k] + [snapshot[k]] == snapshot[..k + 1];
      r := r.Append(snapshot[k]);
    }
    assert snapshot[..|snapshot|] == snapshot;
  }

  /** The body of `updateDeviceList`'s walk for one device: a camera or a
      microphone gets an option valued by its id and named by its label, or by
      "Camera N" / "Microphone N" with N one more than the list's current
      length; a device of any other kind is skipped. */
  method AddDevice(video: Select, audio: Select, device: Device) returns (video': Select, audio': Select)
    requires video.Valid() && audio.Valid()
    ensures device.kind == VideoInput ==>
      video' == video.Append(Catalog.EntryFor(device, VideoInput, |video.options|)) && audio' == audio
    ensures device.kind == AudioInput ==>
      audio' == audio.Append(Catalog.EntryFor(device, AudioInput, |audio.options|)) && video' == video
    ensures device.kind == AudioOutput ==> video' == video && audio' == audio
  {
    video', audio' := video, audio;
    if device.kind == VideoInput {
      var option := Entry(device.deviceId,
                          if device.deviceLabel != "" then device.deviceLabel
                          else Catalog.FallbackName(VideoInput, |video.options| + 1),
                          false, "");
      video' := video.Append(option);
    } else if device.kind == AudioInput {
      var option := Entry(device.deviceId,
                          if device.deviceLabel != "" then device.deviceLabel
                          else Catalog.FallbackName(AudioInput, |audio.options| + 1),
                          false, "");
      audio' := audio.Append(option);
    }
  }

  /** The body of `setDisabledState`'s walk for one select. `threw` is set
      when disabling a list with no selected option: `options[selectedIndex]`
      is then undefined and setting its text throws, after the list itself has
      been disabled. */
  method ApplyDisabledState(element: Select, isDisabled: bool, snapshot: seq<Entry>)
      returns (r: Select, threw: bool)
    requires element.Valid()
    ensures r.Valid() && r.id == element.id
    ensures threw <==> isDisabled && !element.HasSelection()
    ensures threw ==> r == element.(disabled := true)
    ensures isDisabled && !threw ==> r == Disabled(element)
    ensures !isDisabled ==> r == Enabled(element, snapshot)
  {
    r := element.(disabled := isDisabled);
    threw := false;
    if isDisabled {
      if !r.HasSelection() {
        threw := true;
        return;
      }
      var k := r.selectedIndex;
      r := r.(options := r.options[k := r.options[k].(text := PERMISSION_NEEDED)]);
    } else if r.id == RESOLUTION_SELECT_ID {
      r := RebuildOptions(r, snapshot);
      r := r.SetValue(DEFAULT_RESOLUTION);
    }
  }

  /** The `forEach` of `setDisabledState` over the selects in document order,
      on values: it stops at the first list whose selected-option lookup throws. */
  method ApplyToSelects(selects: seq<Select>, isDisabled: bool, snapshot: seq<Entry>)
      returns (r: seq<Select>, completed: bool)
    requires forall j :: 0 <= j < |selects| ==> selects[j].Valid()
    ensures |r| == |selects|
    ensures forall j :: 0 <= j < |r| ==> r[j].Valid() && r[j].id == selects[j].id
    ensures isDisabled ==> r == AfterDisable(selects) && (completed <==> FirstUnselected(selects) == |selects|)
    ensures !isDisabled ==> r == AfterEnable(selects, snapshot) && completed
  {
    ghost var target := if isDisabled then AfterDisable(selects) else AfterEnable(selects, snapshot);
    r := selects;
    var i, threw := 0, false;
    while i < |selects| && !threw
      decreases |selects| - i + (if threw then 0 else 1)
      invariant 0 <= i <= |selects| == |r| == |target|
      invariant forall j :: 0 <= j < |r| ==> r[j].Valid() && r[j].id == selects[j].id
      invariant isDisabled && !threw ==> i <= FirstUnselected(selects)
      invariant !threw ==> forall j :: 0 <= j < i ==> r[j] == target[j]
      invariant !threw ==> forall j :: i <= j < |r| ==> r[j] == selects[j]
      invariant threw ==> isDisabled && r == target && FirstUnselected(selects) < |selects|
    {
      var element;
      element, threw := ApplyDisabledState(selects[i], isDisabled, snapshot);
      if threw {
        assert FirstUnselected(selects) == i;
        var next := r[i := element];
        assert forall j :: 0 <= j < |r| ==> next[j] == target[j];
        r := next;
      } else {
        r := r[i := element];
        i := i + 1;
      }
    }
    completed := !threw;
  }

  /** The walk of `updateDeviceList` over the enumeration: both device lists
      are emptied, and each device in turn is handed to `AddDevice`. */
  method RebuildLists(video0: Select, audio0: Select, devices: seq<Device>) returns (video: Select, audio: Select)
    ensures video == Catalog.Refreshed(video0, Catalog.Entries(devices, VideoInput))
    ensures audio == Catalog.Refreshed(audio0, Catalog.Entries(devices, AudioInput))
  {
    video, audio := video0.Clear(), audio0.Clear();
    WalkBounds(video0, audio0, devices);
    for i := 0 to |devices|
      invariant Walked(video0, audio0, devices, i, video, audio)
    {
      var video', audio' := AddDevice(video, audio, devices[i]);
      RefreshStepBoth(video0, audio0, devices, i, video, audio, video', audio');
      video, audio := video', audio';
    }
  }

  /** The two device lists as the walk leaves them after the first `i` devices. */
  ghost predicate Walked(video0: Select, audio0: Select, devices: seq<Device>, i: nat, video: Select, audio: Select)
    requires i <= |devices|
  {
    && video == Catalog.Refreshed(video0, Catalog.Entries(devices[..i], VideoInput))
    && audio == Catalog.Refreshed(audio0, Catalog.Entries(devices[..i], AudioInput))
  }

  /** The walk starts from the two emptied lists and, once every device has
      been handed over, has made the refreshed lists of the whole enumeration. */
  lemma WalkBounds(video0: Select, audio0: Select, devices: seq<Device>)
    ensures Walked(video0, audio0, devices, 0, video0.Clear(), audio0.Clear())
    ensures forall video, audio :: Walked(video0, audio0, devices, |devices|, video, audio) ==>
      video == Catalog.Refreshed(video0, Catalog.Entries(devices, VideoInput)) &&
      audio == Catalog.Refreshed(audio0, Catalog.Entries(devices, AudioInput))
  {
    assert devices[..0] == [];
    assert devices[..|devices|] == devices;
  }

  /** One device of the walk: whatever its kind, the two lists after `AddDevice`
      are the refreshed lists of the enumeration up to and including it. */
  lemma RefreshStepBoth(video0: Select, audio0: Select, devices: seq<Device>, i: nat,
                        video: Select, audio: Select, video': Select, audio': Select)
    requires i < |devices| && Walked(video0, audio0, devices, i, video, audio)
    requires devices[i].kind == VideoInput ==>
      video' == video.Append(Catalog.EntryFor(devices[i], VideoInput, |video.options|)) && audio' == audio
    requires devices[i].kind == AudioInput ==>
      audio' == audio.Append(Catalog.EntryFor(devices[i], AudioInput, |audio.options|)) && video' == video
    requires devices[i].kind == AudioOutput ==> video' == video && audio' == audio
    ensures Walked(video0, audio0, devices, i + 1, video', audio')
  {
    Catalog.RefreshStep(video0, devices, i, VideoInput);
    Catalog.RefreshStep(audio0, devices, i, AudioInput);
  }

  class MediaDeviceManager {
    var selects: seq<Select>
    /** `videoOutput.srcObject` and `videoOutput.muted`. */
    var srcObject: Option<Stream>
    var muted: bool
    var infoText: string
    var javascriptNode: Option<ProcessorNode>
    /** How many processing nodes have been installed so far. */
    var nodesCreated: nat
    /** The start button and start message are hidden. */
    var startHidden: bool
    /** The success message is shown. */
    var successShown: bool

    ghost predicate Valid()
      reads this
    {
      && |selects| == 3
      && selects[VIDEO].id == VIDEO_SELECT_ID
      && selects[AUDIO].id == AUDIO_SELECT_ID
      && selects[RESOLUTION].id == RESOLUTION_SELECT_ID
      && selects[VIDEO].Valid() && selects[AUDIO].Valid() && selects[RESOLUTION].Valid()
      && (javascriptNode.Some? ==> javascriptNode.value.connected && javascriptNode.value.serial < nodesCreated)
    }

    function SessionState(): Session
      reads this
    {
      Session(srcObject, muted, infoText, javascriptNode, nodesCreated, startHidden, successShown)
    }

    /** The page's resolution list as loaded (its options and selected index);
        the camera and microphone lists start empty, nothing is playing. */
    constructor(resolutionOptions: seq<Entry>, resolutionIndex: int)
      requires -1 <= resolutionIndex < |resolutionOptions|
      ensures Valid()
      ensures selects == [Select(VIDEO_SELECT_ID, [], -1, false),
                          Select(AUDIO_SELECT_ID, [], -1, false),
                          Select(RESOLUTION_SELECT_ID, resolutionOptions, resolutionIndex, false)]
      ensures SessionState() == Session(None, false, "", None, 0, false, false)
    {
      selects := [Select(VIDEO_SELECT_ID, [], -1, false),
                  Select(AUDIO_SELECT_ID, [], -1, false),
                  Select(RESOLUTION_SELECT_ID, resolutionOptions, resolutionIndex, false)];
      srcObject := None;
      muted := false;
      infoText := "";
      javascriptNode := None;
      nodesCreated := 0;
      startHidden := false;
      successShown := false;
    }

    /** `updateDeviceList` once the enumeration has settled: on success both
        device lists are rebuilt from nothing, in enumeration order; on failure
        (logged, promise rejected) nothing changes. */
    method UpdateDeviceList(enumeration: Enumeration) returns (ok: bool)
      requires Valid()
      modifies this
      ensures Valid()
      ensures ok == enumeration.Listed?
      ensures ok ==> selects == RefreshedSelects(old(selects), enumeration.devices)
      ensures !ok ==> selects == old(selects)
      ensures SessionState() == old(SessionState())
    {
      if enumeration.EnumerationFailed? {
        return false;
      }
      var video, audio := RebuildLists(selects[VIDEO], selects[AUDIO], enumeration.devices);
      selects := selects[VIDEO := video][AUDIO := audio];
      ok := true;
    }

    /** The synchronous part of `getDeviceMedia`, up to the `getUserMedia`
        call: it builds the request from the current selections, then stops
        every track of the current source stream and disconnects and drops the
        processing node. `request` is what is passed to `getUserMedia`;
        `released` is the dropped node, now disconnected. */
    method GetDeviceMedia() returns (request: Constraints.MediaConstraints, released: Option<ProcessorNode>)
      requires Valid()
      requires Constraints.IsResolution(selects[RESOLUTION].Value())
      modifies this
      ensures Valid()
      ensures selects == old(selects)
      ensures request == Constraints.BuildConstraints(
                selects[VIDEO].Value(), selects[AUDIO].Value(), selects[RESOLUTION].Value())
      ensures srcObject == if old(srcObject).Some?
                           then Some(old(srcObject).value.(tracks := StopAll(old(srcObject).value.tracks)))
                           else None
      ensures javascriptNode == None
      ensures released == if old(javascriptNode).Some?
                          then Some(old(javascriptNode).value.(connected := false))
                          else None
      ensures muted == old(muted) && infoText == old(infoText) && nodesCreated == old(nodesCreated)
      ensures startHidden == old(startHidden) && successShown == old(successShown)
    {
      var videoSource := selects[VIDEO].Value();
      var audioSource := selects[AUDIO].Value();
      request := Constraints.BuildConstraints(videoSource, audioSource, selects[RESOLUTION].Value());
      if srcObject.Some? {
        var stopped := StopTracks(srcObject.value);
        srcObject := Some(stopped);
      }
      released := None;
      if javascriptNode.Some? {
        released := Some(javascriptNode.value.(connected := false));
        javascriptNode := None;
      }
    }

    /** `handleMediaStream`: the stream becomes the video source, muted; then
        the first video track's settings are read, which throws a TypeError
        when there is none; then the start controls are hidden and the success
        message shown; then the microphone source node is made, which throws an
        InvalidStateError when the stream has no audio track; only then is a
        new, connected processing node installed. `thrown` names the error. */
    method HandleMediaStream(stream: Stream) returns (thrown: Option<string>)
      requires Valid()
      modifies this
      ensures Valid()
      ensures selects == old(selects)
      ensures srcObject == Some(stream) && muted && infoText == ""
      ensures !HasTrack(stream, Video) ==>
        thrown == Some("TypeError") && startHidden == old(startHidden) && successShown == old(successShown)
      ensures HasTrack(stream, Video) ==> startHidden && successShown
      ensures HasTrack(stream, Video) && !HasTrack(stream, Audio) ==> thrown == Some("InvalidStateError")
      ensures HasTrack(stream, Video) && HasTrack(stream, Audio) ==>
        thrown == None &&
        javascriptNode == Some(ProcessorNode(old(nodesCreated), true)) &&
        nodesCreated == old(nodesCreated) + 1
      ensures thrown.Some? ==> javascriptNode == old(javascriptNode) && nodesCreated == old(nodesCreated)
    {
      srcObject := Some(stream);
      muted := true;
      infoText := "";
      if !exists i :: 0 <= i < |stream.tracks| && stream.tracks[i].kind == Video {
        return Some("TypeError");
      }
      startHidden := true;
      successShown := true;
      if !exists i :: 0 <= i < |stream.tracks| && stream.tracks[i].kind == Audio {
        return Some("InvalidStateError");
      }
      javascriptNode := Some(ProcessorNode(nodesCreated, true));
      nodesCreated := nodesCreated + 1;
      thrown := None;
    }

    /** The `then`/`catch` of the capture request: a stream goes to
        `handleMediaStream`, and an error, whether the request's or one thrown
        while handling the stream, becomes an alert. */
    method Settle(outcome: Settlement) returns (alert: Option<string>)
      requires Valid()
      modifies this
      ensures Valid()
      ensures selects == old(selects)
      ensures outcome.Rejected? ==>
        alert == Some(AccessErrors.HandleMediaAccessError(outcome.name)) &&
        SessionState() == old(SessionState())
      ensures outcome.Fulfilled? ==> srcObject == Some(outcome.stream) && muted && infoText == ""
      ensures outcome.Fulfilled? && HasTrack(outcome.stream, Video) && HasTrack(outcome.stream, Audio) ==>
        alert == None && javascriptNode == Some(ProcessorNode(old(nodesCreated), true))
      ensures outcome.Fulfilled? && !(HasTrack(outcome.stream, Video) && HasTrack(outcome.stream, Audio)) ==>
        alert == Some(AccessErrors.GENERIC) && javascriptNode == old(javascriptNode)
      ensures outcome.Fulfilled? && HasTrack(outcome.stream, Video) ==> startHidden && successShown
      ensures outcome.Fulfilled? && !HasTrack(outcome.stream, Video) ==>
        startHidden == old(startHidden) && successShown == old(successShown)
      ensures nodesCreated == old(nodesCreated) +
        if outcome.Fulfilled? && HasTrack(outcome.stream, Video) && HasTrack(outcome.stream, Audio) then 1 else 0
    {
      match outcome
      case Fulfilled(stream) =>
        var thrown := HandleMediaStream(stream);
        alert := if thrown.Some? then Some(AccessErrors.HandleMediaAccessError(thrown.value)) else None;
      case Rejected(name) =>
        alert := Some(AccessErrors.HandleMediaAccessError(name));
    }
  }

  /** One acquisition from start to end, as the change listeners and the test
      button run it when it is not overlapped by another: the old session is
      torn down before the request is issued (every old track stopped at that
      moment, no node); afterwards a fulfilled request with video and audio has
      the new stream and a fresh connected node, and a rejected one leaves no
      node and the old stream's tracks stopped, and so does a stream that
      lacks a video or an audio track, which alerts the generic message. */
  method Acquire(m: MediaDeviceManager, outcome: Settlement)
      returns (request: Constraints.MediaConstraints, issuedWith: Session, alert: Option<string>)
    requires m.Valid()
    requires Constraints.IsResolution(m.selects[RESOLUTION].Value())
    modifies m
    ensures m.Valid()
    ensures m.selects == old(m.selects)
    ensures issuedWith.node == None
    ensures issuedWith.srcObject ==
      if old(m.srcObject).Some? then Some(old(m.srcObject).value.(tracks := StopAll(old(m.srcObject).value.tracks)))
      else None
    ensures issuedWith.srcObject.Some? ==> AllStopped(issuedWith.srcObject.value.tracks)
    ensures outcome.Rejected? ==> m.javascriptNode == None && m.srcObject == issuedWith.srcObject
    ensures outcome.Rejected? ==> alert == Some(AccessErrors.HandleMediaAccessError(outcome.name))
    ensures outcome.Fulfilled? ==> m.srcObject == Some(outcome.stream)
    ensures outcome.Fulfilled? && !(HasTrack(outcome.stream, Video) && HasTrack(outcome.stream, Audio)) ==>
      m.javascriptNode == None && alert == Some(AccessErrors.GENERIC)
    ensures outcome.Fulfilled? && HasTrack(outcome.stream, Video) && HasTrack(outcome.stream, Audio) ==>
      m.srcObject == Some(outcome.stream) && m.javascriptNode == Some(ProcessorNode(old(m.nodesCreated), true)) &&
      alert == None
    ensures outcome.Rejected? ==>
      m.muted == old(m.muted) && m.infoText == old(m.infoText) &&
      m.startHidden == old(m.startHidden) && m.successShown == old(m.successShown)
    ensures outcome.Fulfilled? ==> m.muted && m.infoText == ""
    ensures outcome.Fulfilled? && HasTrack(outcome.stream, Video) ==> m.startHidden && m.successShown
    ensures outcome.Fulfilled? && !HasTrack(outcome.stream, Video) ==>
      m.startHidden == old(m.startHidden) && m.successShown == old(m.successShown)
    ensures m.nodesCreated == old(m.nodesCreated) +
      if outcome.Fulfilled? && HasTrack(outcome.stream, Video) && HasTrack(outcome.stream, Audio) then 1 else 0
  {
    var released;
    request, released := m.GetDeviceMedia();
    issuedWith := m.SessionState();
    if old(m.srcObject).Some? {
      StopAllProperties(old(m.srcObject).value.tracks);
    }
    alert := m.Settle(outcome);
  }

  class Page {
    const manager: MediaDeviceManager
    /** The resolution options as loaded, taken right after the manager is made. */
    const originalResolutions: seq<Entry>
    /** `testButton.disabled`, which the button container's `disabled` class follows. */
    var buttonDisabled: bool
    var containerBorder: string

    ghost predicate Valid()
      reads this, manager
    {
      manager.Valid()
    }

    constructor(resolutionOptions: seq<Entry>, resolutionIndex: int)
      requires -1 <= resolutionIndex < |resolutionOptions|
      ensures Valid() && fresh(manager)
      ensures manager.selects == [Select(VIDEO_SELECT_ID, [], -1, false),
                                  Select(AUDIO_SELECT_ID, [], -1, false),
                                  Select(RESOLUTION_SELECT_ID, resolutionOptions, resolutionIndex, false)]
      ensures manager.SessionState() == Session(None, false, "", None, 0, false, false)
      ensures originalResolutions == resolutionOptions
      ensures !buttonDisabled && containerBorder == ""
    {
      manager := new MediaDeviceManager(resolutionOptions, resolutionIndex);
      originalResolutions := resolutionOptions;
      buttonDisabled := false;
      containerBorder := "";
    }

    /** `setDisabledState`: the test button and its container first, then
        every select in document order. `completed` is false when the walk
        was cut short by the TypeError of a list with no selected option. */
    method SetDisabledState(isDisabled: bool) returns (completed: bool)
      requires Valid()
      modifies this, manager
      ensures Valid()
      ensures buttonDisabled == isDisabled
      ensures containerBorder == if isDisabled then DISABLED_BORDER else ""
      ensures isDisabled ==>
        manager.selects == AfterDisable(old(manager.selects)) &&
        completed == (FirstUnselected(old(manager.selects)) == |old(manager.selects)|)
      ensures !isDisabled ==> manager.selects == AfterEnable(old(manager.selects), originalResolutions) && completed
      ensures manager.SessionState() == old(manager.SessionState())
    {
      buttonDisabled := isDisabled;
      containerBorder := if isDisabled then DISABLED_BORDER else "";
      var lists;
      lists, completed := ApplyToSelects(manager.selects, isDisabled, originalResolutions);
      manager.selects := lists;
    }

    /** The permission probe granted: its tracks are stopped at once, the
        device lists are refreshed, and only once that refresh has succeeded
        are the controls enabled. */
    method OnProbeGranted(probe: Stream, enumeration: Enumeration) returns (stoppedProbe: Stream, enabled: bool)
      requires Valid()
      modifies this, manager
      ensures Valid()
      ensures stoppedProbe == probe.(tracks := StopAll(probe.tracks))
      ensures enabled == enumeration.Listed?
      ensures enabled ==>
        manager.selects == AfterEnable(RefreshedSelects(old(manager.selects), enumeration.devices), originalResolutions) &&
        !buttonDisabled && containerBorder == ""
      ensures !enabled ==>
        manager.selects == old(manager.selects) && buttonDisabled == old(buttonDisabled) &&
        containerBorder == old(containerBorder)
      ensures manager.SessionState() == old(manager.SessionState())
    {
      stoppedProbe := StopTracks(probe);
      enabled := manager.UpdateDeviceList(enumeration);
      if enabled {
        var _ := SetDisabledState(false);
      }
    }

    /** The permission probe refused: the error's alert and disabled controls. */
    method OnProbeDenied(name: string) returns (alert: string, completed: bool)
      requires Valid()
      modifies this, manager
      ensures Valid()
      ensures alert == AccessErrors.HandleMediaAccessError(name)
      ensures buttonDisabled && containerBorder == DISABLED_BORDER
      ensures manager.selects == AfterDisable(old(manager.selects))
      ensures completed <==> FirstUnselected(old(manager.selects)) == |old(manager.selects)|
      ensures manager.SessionState() == old(manager.SessionState())
    {
      alert := AccessErrors.HandleMediaAccessError(name);
      completed := SetDisabledState(true);
    }

    /** The capability check: the controls are enabled iff the enumeration
        shows a camera and a microphone with non-empty ids. */
    method CheckPermissions(devices: seq<Device>) returns (completed: bool)
      requires Valid()
      modifies this, manager
      ensures Valid()
      ensures buttonDisabled == !HasPermissions(devices)
      ensures containerBorder == if buttonDisabled then DISABLED_BORDER else ""
      ensures HasPermissions(devices) ==> manager.selects == AfterEnable(old(manager.selects), originalResolutions)
      ensures !HasPermissions(devices) ==> manager.selects == AfterDisable(old(manager.selects))
      ensures manager.SessionState() == old(manager.SessionState())
    {
      var hasVideoInput := HasAccessibleInput(devices, VideoInput);
      var hasAudioInput := HasAccessibleInput(devices, AudioInput);
      var hasPermissions := hasVideoInput && hasAudioInput;
      completed := SetDisabledState(!hasPermissions);
    }
  }
}
