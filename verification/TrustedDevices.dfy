/** The trusted device store and fingerprints of `src/mvp.rs`. */
module TrustedDevices {
  import opened Wrappers
  import opened Bytes
  import opened Text

  datatype TrustedDevice = TrustedDevice(deviceId: string, displayName: string, fingerprint: string, pairedAt: string)

  type Devices = map<string, TrustedDevice>

  function Added(devices: Devices, device: TrustedDevice): Devices {
    devices[device.deviceId := device]
  }

  /** The loop of `load_trusted_devices`. */
  function AddedAll(devices: Devices, list: seq<TrustedDevice>): Devices {
    if list == [] then devices else Added(AddedAll(devices, list[..|list| - 1]), list[|list| - 1])
  }

  predicate Keyed(devices: Devices) {
    forall id | id in devices :: devices[id].deviceId == id
  }

  /** `list` names every device once, in some order: what listing a hash map's values gives. */
  predicate IsListing(devices: Devices, list: seq<TrustedDevice>) {
    && (forall i, j | 0 <= i < j < |list| :: list[i].deviceId != list[j].deviceId)
    && (forall d | d in list :: d.deviceId in devices && devices[d.deviceId] == d)
    && (forall id | id in devices :: devices[id] in list)
  }

  /** Storage as a text, known by its law only. */
  datatype JsonCodec = JsonCodec(write: seq<TrustedDevice> -> string, read: string -> Option<seq<TrustedDevice>>)

  ghost predicate Lawful(json: JsonCodec) {
    forall list :: json.read(json.write(list)) == Some(list)
  }

  class TrustedDeviceStore {
    var devices: Devices

    ghost predicate Valid()
      reads this
    {
      Keyed(devices)
    }

    constructor ()
      ensures Valid() && devices == map[]
    {
      devices := map[];
    }

    method Add(device: TrustedDevice)
      requires Valid()
      modifies this
      ensures Valid() && devices == Added(old(devices), device)
    {
      devices := devices[device.deviceId := device];
    }

    method Remove(deviceId: string)
      requires Valid()
      modifies this
      ensures Valid() && devices == old(devices) - {deviceId}
    {
      devices := devices - {deviceId};
    }

    method Get(deviceId: string) returns (device: Option<TrustedDevice>)
      requires Valid()
      ensures device.Some? <==> deviceId in devices
      ensures device.Some? ==> device.value == devices[deviceId] && device.value.deviceId == deviceId
    {
      device := if deviceId in devices then Some(devices[deviceId]) else None;
    }

    /** The values, in an order nothing is known about. */
    method List() returns (list: seq<TrustedDevice>)
      requires Valid()
      ensures IsListing(devices, list)
    {
      list := [];
      var unlisted := devices.Keys;
      while unlisted != {}
        invariant unlisted <= devices.Keys
        invariant forall i, j | 0 <= i < j < |list| :: list[i].deviceId != list[j].deviceId
        invariant forall d | d in list :: d.deviceId in devices && d.deviceId !in unlisted && devices[d.deviceId] == d
        invariant forall id | id in devices && id !in unlisted :: devices[id] in list
        decreases unlisted
      {
        var id :| id in unlisted;
        unlisted := unlisted - {id};
        list := list + [devices[id]];
      }
    }
  }

  /** `save_trusted_devices`. */
  method Save(store: TrustedDeviceStore, json: JsonCodec) returns (text: string)
    requires store.Valid()
    ensures exists list :: IsListing(store.devices, list) && text == json.write(list)
  {
    var list := store.List();
    text := json.write(list);
  }

  /** `load_trusted_devices`; `None` is a file that does not exist. Devices are added one by one. */
  method Load(text: Option<string>, json: JsonCodec) returns (r: Result<TrustedDeviceStore>)
    ensures text.None? ==> r.Ok? && r.value.devices == map[]
    ensures text.Some? ==> (r.Ok? <==> json.read(text.value).Some?)
    ensures r.Ok? ==> fresh(r.value) && r.value.Valid()
    ensures r.Ok? && text.Some? ==> r.value.devices == AddedAll(map[], json.read(text.value).value)
  {
    var store := new TrustedDeviceStore();
    if text.None? {
      return Ok(store);
    }
    var read := json.read(text.value);
    if read.None? {
      return Err("invalid JSON");
    }
    var list := read.value;
    for i := 0 to |list|
      invariant fresh(store) && store.Valid() && store.devices == AddedAll(map[], list[..i])
    {
      assert list[..i + 1][..i] == list[..i];
      store.Add(list[i]);
    }
    assert list[..|list|] == list;
    r := Ok(store);
  }

  /** Saving a store and loading it again gives the same store. */
  method SaveAndLoad(store: TrustedDeviceStore, json: JsonCodec) returns (again: TrustedDeviceStore)
    requires store.Valid() && Lawful(json)
    ensures again.devices == store.devices
  {
    var text := Save(store, json);
    ghost var list :| IsListing(store.devices, list) && text == json.write(list);
    ReloadRebuilds(store.devices, list);
    var r := Load(Some(text), json);
    again := r.value;
  }

  /** The position of the last device with the given id. */
  function LastIndex(list: seq<TrustedDevice>, id: string): (i: Option<nat>)
    ensures i.Some? ==> i.value < |list| && list[i.value].deviceId == id
    ensures i.Some? ==> forall j | i.value < j < |list| :: list[j].deviceId != id
    ensures i.None? ==> forall j | 0 <= j < |list| :: list[j].deviceId != id
  {
    if list == [] then None
    else if list[|list| - 1].deviceId == id then Some(|list| - 1)
    else LastIndex(list[..|list| - 1], id)
  }

  /** Loading a list keeps, for every id, the last device with that id and nothing else. */
  lemma {:induction false} LastOneWins(list: seq<TrustedDevice>, id: string)
    ensures var loaded := AddedAll(map[], list);
      && (id in loaded <==> LastIndex(list, id).Some?)
      && (id in loaded ==> loaded[id] == list[LastIndex(list, id).value])
  {
    if list != [] {
      LastOneWins(list[..|list| - 1], id);
    }
  }

  /** Any order of a store's values rebuilds the store. */
  lemma ReloadRebuilds(devices: Devices, list: seq<TrustedDevice>)
    requires Keyed(devices) && IsListing(devices, list)
    ensures AddedAll(map[], list) == devices
  {
    forall id
      ensures id in AddedAll(map[], list) <==> id in devices
      ensures id in devices ==> AddedAll(map[], list)[id] == devices[id]
    {
      LastOneWins(list, id);
      if id in devices {
        assert devices[id] in list;
      }
      if id in AddedAll(map[], list) {
        assert list[LastIndex(list, id).value] in list;
      }
    }
  }

  // ---- Fingerprints

  /** What the loop of `format_fingerprint` has built after `bytes`. */
  function Grouped(bytes: seq<byte>): string {
    if bytes == [] then ""
    else
      var last := |bytes| - 1;
      Grouped(bytes[..last]) + (if last > 0 && last % 4 == 0 then " " else "") + HexByte(bytes[last])
  }

  method FormatFingerprint(input: seq<byte>) returns (out: string)
    ensures out == Trim(Grouped(input))
  {
    out := "";
    for idx := 0 to |input|
      invariant out == Grouped(input[..idx])
    {
      assert input[..idx + 1][..idx] == input[..idx];
      if idx > 0 && idx % 4 == 0 {
        out := out + " ";
      }
      out := out + HexByte(input[idx]);
    }
    assert input[..|input|] == input;
    out := Trim(out);
  }

  lemma {:induction false} GroupedLength(bytes: seq<byte>)
    requires bytes != []
    ensures |Grouped(bytes)| == 2 * |bytes| + (|bytes| - 1) / 4
  {
    if |bytes| > 1 {
      GroupedLength(bytes[..|bytes| - 1]);
    }
  }

  /** Where byte `i` stands: one blank before every fourth byte but the first, two digits each. */
  lemma {:induction false} GroupedAt(bytes: seq<byte>, i: nat)
    requires i < |bytes|
    ensures var s, at := Grouped(bytes), 2 * i + i / 4;
      && at + 2 <= |s|
      && s[at] == "0123456789abcdef"[bytes[i] / 16] && s[at + 1] == "0123456789abcdef"[bytes[i] % 16]
      && (i > 0 && i % 4 == 0 ==> s[at - 1] == ' ')
  {
    var last := |bytes| - 1;
    if last > 0 {
      GroupedLength(bytes[..last]);
    }
    if i < last {
      GroupedAt(bytes[..last], i);
    } else {
      DigitTable((bytes[i] / 16) as nat);
      DigitTable((bytes[i] % 16) as nat);
      hide HexDigit;
      var blank := if last > 0 && last % 4 == 0 then " " else "";
      var most := Grouped(bytes[..last]);
      assert |most + blank| == 2 * i + i / 4;
      assert Grouped(bytes) == most + blank + HexByte(bytes[last]);
    }
  }

  lemma {:induction false} GroupedStartsWithHex(bytes: seq<byte>)
    requires bytes != []
    ensures Grouped(bytes) != "" && Grouped(bytes)[0] == HexByte(bytes[0])[0]
  {
    if |bytes| == 1 {
      assert bytes[..0] == [] && Grouped(bytes) == "" + "" + HexByte(bytes[0]);
    } else {
      GroupedStartsWithHex(bytes[..|bytes| - 1]);
    }
  }

  /** A fingerprint is as long as its digits and separators, and trimming it changes nothing. */
  lemma FingerprintShape(bytes: seq<byte>)
    requires bytes != []
    ensures Trim(Grouped(bytes)) == Grouped(bytes)
    ensures |Grouped(bytes)| == 2 * |bytes| + (|bytes| - 1) / 4
  {
    GroupedLength(bytes);
    GroupedStartsWithHex(bytes);
    var s := Grouped(bytes);
    assert s[|s| - 1] == HexByte(bytes[|bytes| - 1])[1];
  }

  /** The digits of the last byte, and what stands before them and their separator. */
  lemma GroupedSplits(bytes: seq<byte>)
    requires bytes != []
    ensures var s, last := Grouped(bytes), |bytes| - 1;
      var before := if last == 0 then 0 else 2 * last + (last - 1) / 4;
      && before <= |s| - 2
      && s[..before] == Grouped(bytes[..last]) && s[|s| - 2..] == HexByte(bytes[last])
  {
    hide HexByte;
    var last := |bytes| - 1;
    if last > 0 {
      GroupedLength(bytes[..last]);
    }
  }

  lemma GroupedSameLength(a: seq<byte>, b: seq<byte>)
    requires Grouped(a) == Grouped(b)
    ensures |a| == |b|
  {
    hide HexByte;
    if a != [] {
      GroupedLength(a);
    }
    if b != [] {
      GroupedLength(b);
    }
  }

  lemma {:induction false} GroupedInjective(a: seq<byte>, b: seq<byte>)
    requires Grouped(a) == Grouped(b)
    ensures a == b
  {
    GroupedSameLength(a, b);
    hide HexByte, Grouped;
    if a != [] {
      var last := |a| - 1;
      GroupedSplits(a);
      GroupedSplits(b);
      HexByteInjective(a[last], b[last]);
      GroupedInjective(a[..last], b[..last]);
    }
  }

  /** Different byte strings have different fingerprints. */
  lemma FingerprintInjective(a: seq<byte>, b: seq<byte>)
    requires Trim(Grouped(a)) == Trim(Grouped(b))
    ensures a == b
  {
    if a != [] {
      FingerprintShape(a);
    }
    if b != [] {
      FingerprintShape(b);
    }
    if a != [] && b != [] {
      GroupedInjective(a, b);
    }
  }
}
