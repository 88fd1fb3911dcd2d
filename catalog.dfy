/** The device catalog refresh: an enumeration is split into the camera list
    and the microphone list, each in enumeration order, each option valued by
    its device id and named by its label or by a 1-based fallback name. */
module Catalog {
  import opened Media
  import Decimal

  /** The devices of one kind, in enumeration order. */
  function Of(devices: seq<Device>, kind: DeviceKind): (r: seq<Device>)
    ensures |r| <= |devices|
    ensures forall j :: 0 <= j < |r| ==> r[j].kind == kind && r[j] in devices
    decreases |devices|
  {
    if devices == [] then []
    else
      var last := devices[|devices| - 1];
      Of(devices[..|devices| - 1], kind) + (if last.kind == kind then [last] else [])
  }

  /** How many devices of `kind` come before position `i`, labelled or not. */
  function Rank(devices: seq<Device>, i: nat, kind: DeviceKind): nat
    requires i <= |devices|
  {
    |Of(devices[..i], kind)|
  }

  /** "Camera N" or "Microphone N". */
  function FallbackName(kind: InputKind, n: nat): (name: string)
    ensures var prefix := if kind == VideoInput then "Camera " else "Microphone ";
      |prefix| < |name| && name[..|prefix|] == prefix && Decimal.IsDigits(name[|prefix|..])
  {
    (if kind == VideoInput then "Camera " else "Microphone ") + Decimal.NatToString(n)
  }

  /** The option for a device at 0-based `position` among the devices of its kind. */
  function EntryFor(device: Device, kind: InputKind, position: nat): (e: Entry)
    ensures e.value == device.deviceId && !e.disabled && e.color == "" && e.text != ""
    ensures device.deviceLabel != "" ==> e.text == device.deviceLabel
    ensures device.deviceLabel == "" ==> e.text == FallbackName(kind, position + 1)
  {
    Entry(device.deviceId,
          if device.deviceLabel != "" then device.deviceLabel else FallbackName(kind, position + 1),
          false, "")
  }

  function Label(ds: seq<Device>, kind: InputKind): (entries: seq<Entry>)
    ensures |entries| == |ds|
    ensures forall j :: 0 <= j < |ds| ==> entries[j].value == ds[j].deviceId && !entries[j].disabled
  {
    seq(|ds|, j requires 0 <= j < |ds| => EntryFor(ds[j], kind, j))
  }

  /** The options a refresh puts into the list for `kind`. */
  function Entries(devices: seq<Device>, kind: InputKind): (entries: seq<Entry>)
    ensures |entries| == |Of(devices, kind)|
    ensures forall j :: 0 <= j < |entries| ==>
      entries[j].value == Of(devices, kind)[j].deviceId && !entries[j].disabled
  {
    Label(Of(devices, kind), kind)
  }

  /** A select list after a refresh has replaced its options with `entries`. */
  function Refreshed(s: Select, entries: seq<Entry>): (r: Select)
    ensures r.Valid() && r.id == s.id && r.disabled == s.disabled && r.options == entries
    ensures r.HasSelection() <==> exists j :: 0 <= j < |entries| && !entries[j].disabled
    ensures r.HasSelection() ==> !entries[r.selectedIndex].disabled
  {
    s.(options := entries, selectedIndex := FirstEnabled(entries))
  }

  lemma {:induction false} OfConcat(a: seq<Device>, b: seq<Device>, kind: DeviceKind)
    ensures Of(a + b, kind) == Of(a, kind) + Of(b, kind)
    decreases |b|
  {
    if b == [] {
      assert a + b == a;
    } else {
      var b' := b[..|b| - 1];
      assert (a + b)[..|a + b| - 1] == a + b';
      OfConcat(a, b', kind);
    }
  }

  /** Every device of the kind is in the list, at the position given by the
      number of same-kind devices enumerated before it. */
  lemma OfAt(devices: seq<Device>, i: nat, kind: DeviceKind)
    requires i < |devices| && devices[i].kind == kind
    ensures Rank(devices, i, kind) < |Of(devices, kind)|
    ensures Of(devices, kind)[Rank(devices, i, kind)] == devices[i]
  {
    var rest := devices[i + 1..];
    assert devices == devices[..i] + ([devices[i]] + rest);
    OfConcat(devices[..i], [devices[i]] + rest, kind);
    OfConcat([devices[i]], rest, kind);
    assert [devices[i]][..0] == [];
  }

  /** Enumeration order is kept: an earlier device of the kind comes earlier in the list. */
  lemma RankOrder(devices: seq<Device>, i: nat, j: nat, kind: DeviceKind)
    requires i < j <= |devices| && devices[i].kind == kind
    ensures Rank(devices, i, kind) < Rank(devices, j, kind)
  {
    var d := devices[..j];
    assert d == d[..i] + d[i..];
    assert d[..i] == devices[..i];
    OfConcat(d[..i], d[i..], kind);
    OfAt(d[i..], 0, kind);
  }

  /** Nothing else is in the list: each entry is some device of the kind. */
  lemma {:induction false} OfFrom(devices: seq<Device>, j: nat, kind: DeviceKind)
    requires j < |Of(devices, kind)|
    ensures exists i :: 0 <= i < |devices| && devices[i].kind == kind && Rank(devices, i, kind) == j
    decreases |devices|
  {
    var n := |devices| - 1;
    var init := devices[..n];
    if j < |Of(init, kind)| {
      OfFrom(init, j, kind);
      var i :| 0 <= i < |init| && init[i].kind == kind && Rank(init, i, kind) == j;
      assert init[..i] == devices[..i];
      assert devices[i].kind == kind && Rank(devices, i, kind) == j;
    } else {
      assert devices[..n] == init;
      assert devices[n].kind == kind && Rank(devices, n, kind) == j;
    }
  }

  /** The naming rule: a device keeps a non-empty label verbatim; an unlabelled
      one at 0-based position k among its kind is named "Camera k+1" or
      "Microphone k+1", counting every earlier device of the kind. Its option's
      value is its id, and it stands at position k of its list. */
  lemma EntryNaming(devices: seq<Device>, i: nat, kind: InputKind)
    requires i < |devices| && devices[i].kind == kind
    ensures Rank(devices, i, kind) < |Entries(devices, kind)|
    ensures Entries(devices, kind)[Rank(devices, i, kind)] ==
      Entry(devices[i].deviceId,
            if devices[i].deviceLabel != "" then devices[i].deviceLabel
            else FallbackName(kind, Rank(devices, i, kind) + 1),
            false, "")
  {
    OfAt(devices, i, kind);
  }

  /** Fallback names never repeat: inside one list, two unlabelled devices get
      different names, and a camera's never equals a microphone's. */
  lemma FallbackNamesDistinct(k1: InputKind, m: nat, k2: InputKind, n: nat)
    ensures FallbackName(k1, m) == FallbackName(k2, n) ==> k1 == k2 && m == n
  {
    var a, b := FallbackName(k1, m), FallbackName(k2, n);
    assert a[0] == (if k1 == VideoInput then 'C' else 'M');
    assert b[0] == (if k2 == VideoInput then 'C' else 'M');
    var p := if k1 == VideoInput then |"Camera "| else |"Microphone "|;
    assert a[p..] == Decimal.NatToString(m);
    assert k1 == k2 ==> b[p..] == Decimal.NatToString(n);
    Decimal.NatToStringInjective(m, n);
  }

  /** Two unlabelled devices of one kind show different names. */
  lemma UnlabelledNamesDiffer(devices: seq<Device>, i: nat, j: nat, kind: InputKind)
    requires i < j < |devices| && devices[i].kind == kind && devices[j].kind == kind
    requires devices[i].deviceLabel == "" && devices[j].deviceLabel == ""
    ensures Rank(devices, i, kind) < Rank(devices, j, kind) < |Entries(devices, kind)|
    ensures Entries(devices, kind)[Rank(devices, i, kind)].text != Entries(devices, kind)[Rank(devices, j, kind)].text
  {
    EntryNaming(devices, i, kind);
    EntryNaming(devices, j, kind);
    RankOrder(devices, i, j, kind);
    FallbackNamesDistinct(kind, Rank(devices, i, kind) + 1, kind, Rank(devices, j, kind) + 1);
  }

  /** One more enumerated device adds at most one option, at the end. */
  lemma EntriesSnoc(devices: seq<Device>, i: nat, kind: InputKind)
    requires i < |devices|
    ensures Entries(devices[..i + 1], kind) ==
      Entries(devices[..i], kind) +
      (if devices[i].kind == kind then [EntryFor(devices[i], kind, |Of(devices[..i], kind)|)] else [])
  {
    var prefix := devices[..i + 1];
    assert prefix[..|prefix| - 1] == devices[..i];
    var before := Of(devices[..i], kind);
    if devices[i].kind == kind {
      assert Of(prefix, kind) == before + [devices[i]];
      LabelSnoc(before, devices[i], kind);
    } else {
      assert Of(prefix, kind) == before;
    }
  }

  /** Labelling one more device appends its option, named from its position. */
  lemma LabelSnoc(ds: seq<Device>, d: Device, kind: InputKind)
    ensures Label(ds + [d], kind) == Label(ds, kind) + [EntryFor(d, kind, |ds|)]
  {
    var l, r := Label(ds + [d], kind), Label(ds, kind) + [EntryFor(d, kind, |ds|)];
    assert |l| == |r|;
    forall j | 0 <= j < |l|
      ensures l[j] == r[j]
    {
      if j < |ds| {
        assert (ds + [d])[j] == ds[j];
        assert l[j] == EntryFor(ds[j], kind, j) == Label(ds, kind)[j];
      } else {
        assert (ds + [d])[j] == d;
      }
    }
  }

  /** One step of the refresh walk: a device of the kind appends its option
      (named from the current list length) to the list built so far; a device
      of another kind leaves the list as it is. */
  lemma RefreshStep(s: Select, devices: seq<Device>, i: nat, kind: InputKind)
    requires i < |devices|
    ensures Refreshed(s, Entries(devices[..i], kind)).Valid()
    ensures devices[i].kind == kind ==>
      var list := Refreshed(s, Entries(devices[..i], kind));
      list.Append(EntryFor(devices[i], kind, |list.options|)) == Refreshed(s, Entries(devices[..i + 1], kind))
    ensures devices[i].kind != kind ==>
      Refreshed(s, Entries(devices[..i + 1], kind)) == Refreshed(s, Entries(devices[..i], kind))
  {
    var list := Refreshed(s, Entries(devices[..i], kind));
    EntriesSnoc(devices, i, kind);
    AppendKeepsDefault(list, EntryFor(devices[i], kind, |list.options|));
  }

  /** After a refresh the first device of the kind is selected, or none when
      there is no such device. */
  lemma RefreshedSelection(s: Select, devices: seq<Device>, kind: InputKind)
    ensures Refreshed(s, Entries(devices, kind)).Valid()
    ensures Refreshed(s, Entries(devices, kind)).Value() ==
      (if Of(devices, kind) == [] then "" else Of(devices, kind)[0].deviceId)
  {
  }
}
