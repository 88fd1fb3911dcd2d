/** The browser objects the page works with, as plain values: enumerated
    devices, `<select>` lists and their options, capture tracks and streams,
    and the script-processor node of the volume meter. */
module Media {

  datatype Option<T> = None | Some(value: T)

  /** The `kind` of an enumerated media device. */
  datatype DeviceKind = VideoInput | AudioInput | AudioOutput

  /** The two kinds the device lists are built from. */
  type InputKind = k: DeviceKind | k != AudioOutput witness VideoInput

  /** One entry of `enumerateDevices()`; the label is empty until permission is granted. */
  datatype Device = Device(deviceId: string, kind: DeviceKind, deviceLabel: string)

  /** An `<option>`: its value, its text, whether it is disabled, and its colour style. */
  datatype Entry = Entry(value: string, text: string, disabled: bool, color: string)

  /** The first option that is not disabled, or -1 when every option is. */
  function FirstEnabled(options: seq<Entry>): (k: int)
    ensures -1 <= k < |options|
    ensures k >= 0 ==> !options[k].disabled
    ensures forall j :: 0 <= j < |options| && (k == -1 || j < k) ==> options[j].disabled
    decreases |options|
  {
    if options == [] then -1
    else if !options[0].disabled then 0
    else
      var k := FirstEnabled(options[1..]);
      if k == -1 then -1 else k + 1
  }

  /** The first option whose value is `v`, or -1 when no option has it. */
  function IndexOfValue(options: seq<Entry>, v: string): (k: int)
    ensures -1 <= k < |options|
    ensures k >= 0 ==> options[k].value == v
    ensures forall j :: 0 <= j < |options| && (k == -1 || j < k) ==> options[j].value != v
    decreases |options|
  {
    if options == [] then -1
    else if options[0].value == v then 0
    else
      var k := IndexOfValue(options[1..], v);
      if k == -1 then -1 else k + 1
  }

  /** A single-choice `<select>` shown as a drop-down: its element id, its
      options, the index of the selected option (-1 for none) and its
      `disabled` flag (the `disabled` CSS class is toggled with it). */
  datatype Select = Select(id: string, options: seq<Entry>, selectedIndex: int, disabled: bool) {

    predicate Valid() {
      -1 <= selectedIndex < |options|
    }

    predicate HasSelection() {
      0 <= selectedIndex < |options|
    }

    /** `select.value`: the selected option's value, or "" when none is selected. */
    function Value(): (v: string)
      ensures HasSelection() ==> v == options[selectedIndex].value
    {
      if HasSelection() then options[selectedIndex].value else ""
    }

    /** `select.innerHTML = ''`. */
    function Clear(): (s: Select)
      ensures s.Valid() && s.options == [] && !s.HasSelection()
      ensures s.id == id && s.disabled == disabled
    {
      this.(options := [], selectedIndex := -1)
    }

    /** `select.appendChild(option)`: when nothing is selected, a drop-down
        selects its first option that is not disabled. */
    function Append(e: Entry): (s: Select)
      requires Valid()
      ensures s.Valid() && s.options == options + [e]
      ensures s.id == id && s.disabled == disabled
      ensures HasSelection() ==> s.selectedIndex == selectedIndex
      ensures !HasSelection() ==> s.selectedIndex == FirstEnabled(options + [e])
    {
      var opts := options + [e];
      this.(options := opts, selectedIndex := if selectedIndex == -1 then FirstEnabled(opts) else selectedIndex)
    }

    /** `select.value = v`: selects the first option with value `v`, or none. */
    function SetValue(v: string): (s: Select)
      ensures s.Valid() && s.options == options && s.id == id && s.disabled == disabled
      ensures s.HasSelection() <==> exists j :: 0 <= j < |options| && options[j].value == v
      ensures s.HasSelection() ==> s.Value() == v
    {
      this.(selectedIndex := IndexOfValue(options, v))
    }
  }

  /** A select whose selection is still the drop-down default keeps it as
      options are appended one by one. */
  lemma AppendKeepsDefault(s: Select, e: Entry)
    requires s.Valid() && s.selectedIndex == FirstEnabled(s.options)
    ensures s.Append(e) == s.(options := s.options + [e], selectedIndex := FirstEnabled(s.options + [e]))
  {
    var opts := s.options + [e];
    var k := FirstEnabled(s.options);
    if k >= 0 {
      assert opts[k] == s.options[k];
      assert forall j :: 0 <= j < k ==> opts[j] == s.options[j];
    }
  }

  /** The kind of a `MediaStreamTrack`. */
  datatype TrackKind = Video | Audio

  datatype Track = Track(id: string, kind: TrackKind, stopped: bool)

  /** A `MediaStream`: its id and its tracks. */
  datatype Stream = Stream(id: string, tracks: seq<Track>)

  predicate HasTrack(s: Stream, kind: TrackKind) {
    exists i :: 0 <= i < |s.tracks| && s.tracks[i].kind == kind
  }

  predicate AllStopped(tracks: seq<Track>) {
    forall i :: 0 <= i < |tracks| ==> tracks[i].stopped
  }

  /** The tracks after `track.stop()` on each of them. */
  function StopAll(tracks: seq<Track>): (r: seq<Track>)
    ensures |r| == |tracks| && AllStopped(r)
    ensures forall i :: 0 <= i < |tracks| ==> r[i] == tracks[i].(stopped := true)
  {
    seq(|tracks|, i requires 0 <= i < |tracks| => tracks[i].(stopped := true))
  }

  /** Stopping every track ends them all and forgets no track, keeping each
      one's id, kind and position; stopping again changes nothing. */
  lemma StopAllProperties(tracks: seq<Track>)
    ensures AllStopped(StopAll(tracks))
    ensures |StopAll(tracks)| == |tracks|
    ensures forall i :: 0 <= i < |tracks| ==>
      StopAll(tracks)[i].id == tracks[i].id && StopAll(tracks)[i].kind == tracks[i].kind
    ensures StopAll(StopAll(tracks)) == StopAll(tracks)
  {
  }

  /** A script-processor node: which one it is (in order of creation) and
      whether it is still connected into the audio graph. */
  datatype ProcessorNode = ProcessorNode(serial: nat, connected: bool)
}
