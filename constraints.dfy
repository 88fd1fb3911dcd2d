/** The request `getDeviceMedia` passes to `getUserMedia`: exact device ids
    when a device is chosen, and always an exact width and height. */
module Constraints {
  import opened Decimal

  /** `deviceId: undefined` or `deviceId: { exact: id }`. */
  datatype DeviceIdConstraint = Unset | Exact(id: string)

  /** `{ deviceId, width: { exact: W }, height: { exact: H } }`. */
  datatype VideoConstraints = VideoConstraints(deviceId: DeviceIdConstraint, exactWidth: nat, exactHeight: nat)

  /** `{ deviceId }`: audio carries no resolution. */
  datatype AudioConstraints = AudioConstraints(deviceId: DeviceIdConstraint)

  datatype MediaConstraints = MediaConstraints(video: VideoConstraints, audio: AudioConstraints)

  /** A resolution option value: digits, one 'x', digits. */
  predicate IsResolution(s: string) {
    var i := IndexOf(s, 'x');
    0 < i < |s| - 1 && IsDigits(s[..i]) && IsDigits(s[i + 1..])
  }

  /** `value.split('x')` followed by `parseInt` of the two parts. */
  function ParseResolution(s: string): (r: (nat, nat))
    requires IsResolution(s)
  {
    var i := IndexOf(s, 'x');
    (ParseDigits(s[..i]), ParseDigits(s[i + 1..]))
  }

  /** The resolution option value for a width and a height, such as "1280x720". */
  function ResolutionText(width: nat, height: nat): string {
    NatToString(width) + "x" + NatToString(height)
  }

  /** Writing a resolution and reading it back gives the same width and height. */
  lemma ParseResolutionText(width: nat, height: nat)
    ensures IsResolution(ResolutionText(width, height))
    ensures ParseResolution(ResolutionText(width, height)) == (width, height)
  {
    var w, h := NatToString(width), NatToString(height);
    var s := ResolutionText(width, height);
    IndexOfAfterPrefix(w, 'x', h);
    assert s[..|w|] == w;
    assert s[|w| + 1..] == h;
    ParseNatToString(width);
    ParseNatToString(height);
  }

  /** A selected source: an empty value (no device, or the default) leaves the
      id unconstrained, any other value asks for exactly that device. */
  function SourceConstraint(source: string): (c: DeviceIdConstraint)
    ensures c.Unset? <==> source == ""
    ensures c.Exact? ==> c.id == source
  {
    if source != "" then Exact(source) else Unset
  }

  /** The constraints for the selected video source, audio source and resolution. */
  function BuildConstraints(videoSource: string, audioSource: string, resolution: string): (c: MediaConstraints)
    requires IsResolution(resolution)
    ensures c.video.deviceId.Unset? <==> videoSource == ""
    ensures c.video.deviceId.Exact? ==> c.video.deviceId.id == videoSource
    ensures c.audio.deviceId.Unset? <==> audioSource == ""
    ensures c.audio.deviceId.Exact? ==> c.audio.deviceId.id == audioSource
    ensures (c.video.exactWidth, c.video.exactHeight) == ParseResolution(resolution)
  {
    var (width, height) := ParseResolution(resolution);
    MediaConstraints(
      VideoConstraints(SourceConstraint(videoSource), width, height),
      AudioConstraints(SourceConstraint(audioSource)))
  }

  /** The preset "WxH" yields exactly width W and height H. */
  lemma BuildConstraintsResolution(videoSource: string, audioSource: string, width: nat, height: nat)
    ensures IsResolution(ResolutionText(width, height))
    ensures BuildConstraints(videoSource, audioSource, ResolutionText(width, height)).video
            == VideoConstraints(SourceConstraint(videoSource), width, height)
  {
    ParseResolutionText(width, height);
  }

  /** "1920x1080" with camera "camA" and the default microphone. */
  lemma CamAFullHd()
    ensures IsResolution("1920x1080")
    ensures BuildConstraints("camA", "", "1920x1080") ==
      MediaConstraints(VideoConstraints(Exact("camA"), 1920, 1080), AudioConstraints(Unset))
  {
    assert ResolutionText(1920, 1080) == "1920x1080";
    BuildConstraintsResolution("camA", "", 1920, 1080);
  }
}
