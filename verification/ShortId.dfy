/** Short device ids of the command line (cli/src/utils.rs). */
module ShortId {
  import opened Wrappers

  /** A 128-bit id, most significant bit first. */
  type DeviceId = bits: seq<bool> | |bits| == 128 witness seq(128, _ => false)

  datatype Device = Device(
    id: DeviceId, organizationId: string, humanHandle: string, deviceLabel: string, serverUrl: string)

  const MINIMAL_SHORT_ID_SIZE: nat := 3
  const MAXIMAL_SHORT_ID_SIZE: nat := 32

  const YELLOW: string := "\U{1B}[33m"
  const RESET: string := "\U{1B}[39m"

  // ---------- hexadecimal form ----------

  function HexDigit(a: bool, b: bool, c: bool, d: bool): char
  {
    "0123456789abcdef"[(if a then 8 else 0) + (if b then 4 else 0) + (if c then 2 else 0) + (if d then 1 else 0)]
  }

  function Hex(id: DeviceId): (hex: string)
    ensures |hex| == 32
  {
    seq(32, k requires 0 <= k < 32 => HexDigit(id[4 * k], id[4 * k + 1], id[4 * k + 2], id[4 * k + 3]))
  }

  predicate SameNibble(a: DeviceId, b: DeviceId, k: nat)
    requires k < 32
  {
    && a[4 * k] == b[4 * k] && a[4 * k + 1] == b[4 * k + 1]
    && a[4 * k + 2] == b[4 * k + 2] && a[4 * k + 3] == b[4 * k + 3]
  }

  lemma NibbleIsDigit(a: DeviceId, b: DeviceId, k: nat)
    requires k < 32
    ensures Hex(a)[k] == Hex(b)[k] <==> SameNibble(a, b, k)
  {
  }

  lemma HexIsInjective(a: DeviceId, b: DeviceId)
    ensures Hex(a) == Hex(b) <==> a == b
  {
    hide Hex;
    if Hex(a) == Hex(b) {
      forall i | 0 <= i < 128 ensures a[i] == b[i] {
        NibbleIsDigit(a, b, i / 4);
        assert SameNibble(a, b, i / 4);
        assert i == 4 * (i / 4) + i % 4;
      }
    }
  }

  // ---------- the size of a short id ----------

  function Xor(a: DeviceId, b: DeviceId): DeviceId { seq(128, i requires 0 <= i < 128 => a[i] != b[i]) }

  function LeadingZeros(bits: seq<bool>): (n: nat)
    ensures n <= |bits| && (forall i | 0 <= i < n :: !bits[i]) && (n < |bits| ==> bits[n])
  {
    if bits == [] || bits[0] then 0 else 1 + LeadingZeros(bits[1..])
  }

  function PairSize(a: DeviceId, b: DeviceId): nat { LeadingZeros(Xor(a, b)) / 4 + 1 }

  /** Over all combinations of two ids. */
  function PairSizes(ids: seq<DeviceId>): seq<nat>
  {
    if ids == [] then []
    else seq(|ids| - 1, i requires 0 <= i < |ids| - 1 => PairSize(ids[0], ids[i + 1])) + PairSizes(ids[1..])
  }

  function Max(sizes: seq<nat>): (max: Option<nat>)
    ensures max.None? <==> sizes == []
    ensures max.Some? ==> max.value in sizes && forall i | 0 <= i < |sizes| :: sizes[i] <= max.value
  {
    if sizes == [] then None
    else
      var rest := Max(sizes[1..]);
      if rest.None? || rest.value <= sizes[0] then Some(sizes[0]) else rest
  }

  function Clamp(n: nat): nat
  {
    if n < MINIMAL_SHORT_ID_SIZE then MINIMAL_SHORT_ID_SIZE
    else if n > MAXIMAL_SHORT_ID_SIZE then MAXIMAL_SHORT_ID_SIZE
    else n
  }

  /** `get_minimal_short_id_size`. */
  function MinimalShortIdSize(ids: seq<DeviceId>): nat
  {
    var max := Max(PairSizes(ids));
    Clamp(if max.Some? then max.value else MINIMAL_SHORT_ID_SIZE)
  }

  function CommonPrefix(a: string, b: string): (n: nat)
    ensures n <= |a| && n <= |b| && a[..n] == b[..n]
    ensures n < |a| && n < |b| ==> a[n] != b[n]
  {
    if a == "" || b == "" || a[0] != b[0] then 0
    else
      var n := 1 + CommonPrefix(a[1..], b[1..]);
      assert a[..n] == [a[0]] + a[1..][..n - 1] && b[..n] == [b[0]] + b[1..][..n - 1];
      n
  }

  lemma PrefixAgrees(x: string, y: string, p: nat, k: nat)
    requires p <= |x| && p <= |y| && x[..p] == y[..p]
    ensures k < p ==> x[k] == y[k]
  {
  }

  /** Counting the zero bits finds the first hexadecimal digit that differs. */
  lemma PairSizeIsPrefix(a: DeviceId, b: DeviceId)
    ensures PairSize(a, b) == CommonPrefix(Hex(a), Hex(b)) + 1
  {
    hide Hex, CommonPrefix;
    var n, p := LeadingZeros(Xor(a, b)), CommonPrefix(Hex(a), Hex(b));
    forall k: nat | k < n / 4 ensures Hex(a)[k] == Hex(b)[k] {
      NibbleIsDigit(a, b, k);
      var x := Xor(a, b);
      assert !x[4 * k] && !x[4 * k + 1] && !x[4 * k + 2] && !x[4 * k + 3];
    }
    if n < 128 {
      var k := n / 4;
      NibbleIsDigit(a, b, k);
      assert Xor(a, b)[n] && n == 4 * k + n % 4;
      PrefixAgrees(Hex(a), Hex(b), p, k);
    }
  }

  predicate SameShort(a: DeviceId, b: DeviceId, n: nat)
    requires n <= 32
  {
    Hex(a)[..n] == Hex(b)[..n]
  }

  lemma SameShortIff(a: DeviceId, b: DeviceId, n: nat)
    requires n <= 32
    ensures SameShort(a, b, n) <==> n < PairSize(a, b)
  {
    hide Hex, PairSize;
    PairSizeIsPrefix(a, b);
    var x, y, p := Hex(a), Hex(b), CommonPrefix(Hex(a), Hex(b));
    if n <= p {
      assert x[..n] == x[..p][..n] && y[..n] == y[..p][..n];
    } else {
      assert x[..n][p] != y[..n][p];
    }
  }

  lemma {:induction false} PairSizesCover(ids: seq<DeviceId>, i: nat, j: nat)
    requires i < j < |ids|
    ensures PairSize(ids[i], ids[j]) in PairSizes(ids)
  {
    hide PairSize;
    var first := seq(|ids| - 1, k requires 0 <= k < |ids| - 1 => PairSize(ids[0], ids[k + 1]));
    if i == 0 {
      assert first[j - 1] == PairSize(ids[i], ids[j]);
    } else {
      PairSizesCover(ids[1..], i - 1, j - 1);
    }
  }

  lemma {:induction false} PairSizesArePairs(ids: seq<DeviceId>, size: nat) returns (i: nat, j: nat)
    requires size in PairSizes(ids)
    ensures i < j < |ids| && PairSize(ids[i], ids[j]) == size
  {
    hide PairSize;
    var first := seq(|ids| - 1, k requires 0 <= k < |ids| - 1 => PairSize(ids[0], ids[k + 1]));
    if size in first {
      var k :| 0 <= k < |first| && first[k] == size;
      i, j := 0, k + 1;
    } else {
      i, j := PairSizesArePairs(ids[1..], size);
      i, j := i + 1, j + 1;
    }
  }

  ghost predicate Distinct(ids: seq<DeviceId>) { forall i, j | 0 <= i < j < |ids| :: ids[i] != ids[j] }

  /** No two ids share their first `n` digits. */
  ghost predicate Separates(ids: seq<DeviceId>, n: nat)
    requires n <= 32
  {
    forall i, j | 0 <= i < j < |ids| :: !SameShort(ids[i], ids[j], n)
  }

  /** What the size means: the longest common prefix of two ids plus one, kept within bounds. */
  lemma SizeIsLongestPrefix(ids: seq<DeviceId>, i: nat, j: nat)
    requires i < j < |ids|
    ensures Clamp(CommonPrefix(Hex(ids[i]), Hex(ids[j])) + 1) <= MinimalShortIdSize(ids)
    ensures exists a, b | 0 <= a < b < |ids| ::
              Clamp(CommonPrefix(Hex(ids[a]), Hex(ids[b])) + 1) == MinimalShortIdSize(ids)
  {
    hide PairSize, PairSizes, CommonPrefix, Hex;
    PairSizesCover(ids, i, j);
    PairSizeIsPrefix(ids[i], ids[j]);
    var a, b := PairSizesArePairs(ids, Max(PairSizes(ids)).value);
    PairSizeIsPrefix(ids[a], ids[b]);
  }

  /** Among the allowed sizes, those that separate distinct ids are exactly those from the computed
      one on. */
  lemma SizeIsLeastSeparating(ids: seq<DeviceId>, n: nat)
    requires Distinct(ids) && MINIMAL_SHORT_ID_SIZE <= n <= MAXIMAL_SHORT_ID_SIZE
    ensures MINIMAL_SHORT_ID_SIZE <= MinimalShortIdSize(ids) <= MAXIMAL_SHORT_ID_SIZE
    ensures Separates(ids, n) <==> MinimalShortIdSize(ids) <= n
  {
    hide PairSize, PairSizes, SameShort;
    var max := Max(PairSizes(ids));
    if max.None? || max.value <= n {
      forall i, j | 0 <= i < j < |ids| ensures !SameShort(ids[i], ids[j], n) {
        PairSizesCover(ids, i, j);
        SameShortIff(ids[i], ids[j], n);
      }
    } else {
      var i, j := PairSizesArePairs(ids, max.value);
      SameShortIff(ids[i], ids[j], n);
      SameShortIff(ids[i], ids[j], 32);
      DifferentIdsDiffer(ids[i], ids[j]);
    }
  }

  lemma DifferentIdsDiffer(a: DeviceId, b: DeviceId)
    requires a != b
    ensures !SameShort(a, b, 32)
  {
    HexIsInjective(a, b);
    assert Hex(a)[..32] == Hex(a) && Hex(b)[..32] == Hex(b);
  }

  // ---------- listing devices ----------

  function Ids(devices: seq<Device>): seq<DeviceId> { seq(|devices|, i requires 0 <= i < |devices| => devices[i].id) }

  function ShortSize(devices: seq<Device>): (size: nat)
    ensures 3 <= size <= 32
  {
    MinimalShortIdSize(Ids(devices))
  }

  function Line(device: Device, size: nat): string
    requires size <= 32
  {
    YELLOW + Hex(device.id)[..size] + RESET + " - " + device.organizationId + ": " + device.humanHandle
    + " @ " + device.deviceLabel + " (" + device.serverUrl + ")\n"
  }

  function Lines(devices: seq<Device>, size: nat): string
    requires size <= 32
  {
    if devices == [] then ""
    else Lines(devices[..|devices| - 1], size) + Line(devices[|devices| - 1], size)
  }

  method FormatDevices(devices: seq<Device>, f: string) returns (out: string)
    ensures out == f + Lines(devices, ShortSize(devices))
  {
    hide Line, Lines, ShortSize;
    var size := ShortSize(devices);
    out := f;
    NoLines(size);
    assert devices[..0] == [];
    for i := 0 to |devices|
      invariant out == f + Lines(devices[..i], size)
    {
      OneMoreLine(devices, size, i);
      out := out + Line(devices[i], size);
    }
    assert devices[..|devices|] == devices;
  }

  lemma NoLines(size: nat)
    requires size <= 32
    ensures Lines([], size) == ""
  {
  }

  lemma OneMoreLine(devices: seq<Device>, size: nat, i: nat)
    requires size <= 32 && i < |devices|
    ensures Lines(devices[..i + 1], size) == Lines(devices[..i], size) + Line(devices[i], size)
  {
    hide Line;
    assert devices[..i + 1][..i] == devices[..i];
  }

  // ---------- choosing a device ----------

  datatype LoadError =
    | StorageNotAvailable
    | DeviceNotFound(shortDevId: string, devices: seq<Device>)
    | MultipleDevicesFound(shortDevId: string, devices: seq<Device>)
    | MissingDeviceOption(devices: seq<Device>)

  datatype Loaded = Found(device: Device) | Failed(error: LoadError)

  predicate Matches(device: Device, prefix: string) { prefix <= Hex(device.id) }

  function Possible(devices: seq<Device>, prefix: string): seq<Device>
  {
    if devices == [] then []
    else (if Matches(devices[0], prefix) then [devices[0]] else []) + Possible(devices[1..], prefix)
  }

  /** `load_device_file`; `available` is None when the storage cannot be listed. */
  function LoadDeviceFile(available: Option<seq<Device>>, shortId: Option<string>): Loaded
  {
    if available.None? then Failed(StorageNotAvailable)
    else if shortId.None? then Failed(MissingDeviceOption(available.value))
    else
      var possible := Possible(available.value, shortId.value);
      match |possible|
      case 0 => Failed(DeviceNotFound(shortId.value, available.value))
      case 1 => Found(possible[0])
      case _ => Failed(MultipleDevicesFound(shortId.value, possible))
  }

  lemma {:induction false} PossibleIff(devices: seq<Device>, prefix: string, device: Device)
    ensures device in Possible(devices, prefix) <==> device in devices && Matches(device, prefix)
  {
    if devices != [] {
      PossibleIff(devices[1..], prefix, device);
      assert device in devices <==> device == devices[0] || device in devices[1..];
    }
  }

  ghost predicate DistinctDevices(devices: seq<Device>)
  {
    forall i, j | 0 <= i < j < |devices| :: devices[i].id != devices[j].id
  }

  lemma {:induction false} PossibleIsDistinct(devices: seq<Device>, prefix: string)
    requires DistinctDevices(devices)
    ensures DistinctDevices(Possible(devices, prefix))
  {
    if devices != [] {
      PossibleIsDistinct(devices[1..], prefix);
      var rest := Possible(devices[1..], prefix);
      forall j | 0 <= j < |rest| ensures rest[j].id != devices[0].id {
        PossibleIff(devices[1..], prefix, rest[j]);
      }
    }
  }

  /** A prefix finds a device exactly when that device alone has it. */
  lemma FoundIff(devices: seq<Device>, prefix: string, device: Device)
    requires DistinctDevices(devices)
    ensures LoadDeviceFile(Some(devices), Some(prefix)) == Found(device)
            <==> && device in devices && Matches(device, prefix)
                 && forall other | other in devices && Matches(other, prefix) :: other == device
  {
    hide Matches;
    var possible := Possible(devices, prefix);
    PossibleIsDistinct(devices, prefix);
    forall other: Device
      ensures other in possible <==> other in devices && Matches(other, prefix)
    {
      PossibleIff(devices, prefix, other);
    }
    if |possible| >= 2 {
      assert possible[0] in possible && possible[1] in possible && possible[0].id != possible[1].id;
    }
  }

  /** Within a list of distinct devices, a device's short id belongs to no other. */
  lemma ShortIdIsUnique(devices: seq<Device>, device: Device, other: Device)
    requires DistinctDevices(devices) && device in devices && other in devices
    requires Matches(other, Hex(device.id)[..ShortSize(devices)])
    ensures other == device
  {
    hide Hex, MinimalShortIdSize;
    var ids, n := Ids(devices), ShortSize(devices);
    SizeIsLeastSeparating(ids, n);
    MatchesShort(device, other, n);
    hide SameShort, Matches;
    var i :| 0 <= i < |devices| && devices[i] == device;
    var j :| 0 <= j < |devices| && devices[j] == other;
    assert ids[i] == device.id && ids[j] == other.id;
  }

  lemma MatchesShort(device: Device, other: Device, n: nat)
    requires n <= 32 && Matches(other, Hex(device.id)[..n])
    ensures SameShort(device.id, other.id, n) && SameShort(other.id, device.id, n)
  {
  }

  /** The short ids of the devices that share a prefix are longer than the prefix. */
  lemma SublistIdsExtendPrefix(devices: seq<Device>, prefix: string)
    requires DistinctDevices(devices) && |devices| >= 2
    requires forall i | 0 <= i < |devices| :: Matches(devices[i], prefix)
    ensures |prefix| < ShortSize(devices)
  {
    var ids, a, b := Ids(devices), devices[0].id, devices[1].id;
    assert ids[0] == a && ids[1] == b;
    DifferentIdsDiffer(a, b);
    var n := |prefix|;
    assert Hex(a)[..n] == prefix && Hex(b)[..n] == prefix;
    if n >= 3 {
      SizeIsLeastSeparating(ids, n);
      assert SameShort(ids[0], ids[1], n);
    }
  }

  /** Every short id that a failed look-up displays, whether for all devices or for those that share
      the given prefix, finds its own device among all devices. */
  lemma DisplayedShortIdResolves(devices: seq<Device>, shortId: Option<string>, i: nat)
    requires DistinctDevices(devices) && LoadDeviceFile(Some(devices), shortId).Failed?
    requires i < |LoadDeviceFile(Some(devices), shortId).error.devices|
    ensures var shown := LoadDeviceFile(Some(devices), shortId).error.devices;
            LoadDeviceFile(Some(devices), Some(Hex(shown[i].id)[..ShortSize(shown)])) == Found(shown[i])
  {
    hide Possible, Hex, ShortSize, Matches;
    var shown := LoadDeviceFile(Some(devices), shortId).error.devices;
    var short := Hex(shown[i].id)[..ShortSize(shown)];
    ShownIsDistinct(devices, shortId);
    OnlyShownMatch(devices, shortId, i, shown[i]);
    forall other | other in devices && Matches(other, short) ensures other == shown[i] {
      OnlyShownMatch(devices, shortId, i, other);
      ShortIdIsUnique(shown, shown[i], other);
    }
    PrefixMatches(shown[i], ShortSize(shown));
    FoundIff(devices, short, shown[i]);
  }

  lemma PrefixMatches(device: Device, n: nat)
    requires n <= 32
    ensures Matches(device, Hex(device.id)[..n])
  {
  }

  /** Only displayed devices can match a displayed short id. */
  lemma OnlyShownMatch(devices: seq<Device>, shortId: Option<string>, i: nat, other: Device)
    requires DistinctDevices(devices) && LoadDeviceFile(Some(devices), shortId).Failed?
    requires i < |LoadDeviceFile(Some(devices), shortId).error.devices|
    ensures var shown := LoadDeviceFile(Some(devices), shortId).error.devices;
            && shown[i] in devices
            && (other in devices && Matches(other, Hex(shown[i].id)[..ShortSize(shown)]) ==> other in shown)
  {
    hide Possible, Hex, ShortSize;
    var error := LoadDeviceFile(Some(devices), shortId).error;
    if error.MultipleDevicesFound? {
      var shown, prefix := error.devices, shortId.value;
      ShownIsDistinct(devices, shortId);
      forall k | 0 <= k < |shown| ensures shown[k] in devices && Matches(shown[k], prefix) {
        PossibleIff(devices, prefix, shown[k]);
      }
      SublistIdsExtendPrefix(shown, prefix);
      PossibleIff(devices, prefix, other);
    }
  }

  lemma ShownIsDistinct(devices: seq<Device>, shortId: Option<string>)
    requires DistinctDevices(devices) && LoadDeviceFile(Some(devices), shortId).Failed?
    ensures DistinctDevices(LoadDeviceFile(Some(devices), shortId).error.devices)
  {
    if shortId.Some? { PossibleIsDistinct(devices, shortId.value); }
  }

  // ---------- what the user reads and types ----------

  const ESCAPE: char := '\U{1B}'

  function UpToEscape(text: string): string
  {
    if text == "" || text[0] == ESCAPE then "" else [text[0]] + UpToEscape(text[1..])
  }

  /** The coloured text at the beginning of a line: what stands between the two escape sequences. */
  function Coloured(line: string): string
  {
    if |line| < 5 then "" else UpToEscape(line[5..])
  }

  lemma {:induction false} UpToEscapeStops(text: string, rest: string)
    requires ESCAPE !in text && rest != "" && rest[0] == ESCAPE
    ensures UpToEscape(text + rest) == text
  {
    if text == "" {
      assert text + rest == rest;
    } else {
      assert (text + rest)[1..] == text[1..] + rest;
      UpToEscapeStops(text[1..], rest);
    }
  }

  lemma HexHasNoEscape(id: DeviceId, n: nat)
    requires n <= 32
    ensures ESCAPE !in Hex(id)[..n]
  {
    forall k | 0 <= k < n ensures Hex(id)[k] != ESCAPE {
      DigitIsNoEscape(id[4 * k], id[4 * k + 1], id[4 * k + 2], id[4 * k + 3]);
    }
  }

  lemma DigitIsNoEscape(a: bool, b: bool, c: bool, d: bool)
    ensures HexDigit(a, b, c, d) != ESCAPE
  {
  }

  /** The coloured text of a device's line is the beginning of its id. */
  lemma ColouredIsShortId(device: Device, size: nat)
    requires size <= 32
    ensures Coloured(Line(device, size)) == Hex(device.id)[..size]
  {
    hide Hex, UpToEscape;
    var short := Hex(device.id)[..size];
    var rest := RESET + " - " + device.organizationId + ": " + device.humanHandle + " @ " + device.deviceLabel
                + " (" + device.serverUrl + ")\n";
    assert Line(device, size) == YELLOW + (short + rest);
    assert (YELLOW + (short + rest))[5..] == short + rest;
    HexHasNoEscape(device.id, size);
    UpToEscapeStops(short, rest);
  }

  /** The listing is the devices' lines, in order. */
  lemma {:induction false} ListingHasLines(devices: seq<Device>, size: nat, i: nat) returns (after: string)
    requires size <= 32 && i < |devices|
    ensures Lines(devices, size) == Lines(devices[..i], size) + Line(devices[i], size) + after
  {
    var n := |devices| - 1;
    hide Line;
    if i == n {
      after := "";
    } else {
      var rest := ListingHasLines(devices[..n], size, i);
      assert devices[..n][..i] == devices[..i];
      after := rest + Line(devices[n], size);
    }
  }

  /** What is coloured in the listing of a failed look-up, typed in again, finds the device of that line
      among all devices. */
  lemma ColouredTextResolves(devices: seq<Device>, shortId: Option<string>, i: nat)
    requires DistinctDevices(devices) && LoadDeviceFile(Some(devices), shortId).Failed?
    requires i < |LoadDeviceFile(Some(devices), shortId).error.devices|
    ensures var shown := LoadDeviceFile(Some(devices), shortId).error.devices;
            LoadDeviceFile(Some(devices), Some(Coloured(Line(shown[i], ShortSize(shown))))) == Found(shown[i])
  {
    hide Line, Coloured, Possible, Hex, ShortSize;
    var shown := LoadDeviceFile(Some(devices), shortId).error.devices;
    ColouredIsShortId(shown[i], ShortSize(shown));
    DisplayedShortIdResolves(devices, shortId, i);
  }

  /** Exactly when each error is returned, and with which devices. */
  lemma ErrorsMean(available: Option<seq<Device>>, shortId: Option<string>)
    requires available.Some? ==> DistinctDevices(available.value)
    ensures var loaded := LoadDeviceFile(available, shortId);
            && (loaded == Failed(StorageNotAvailable) <==> available.None?)
            && (available.Some? && shortId.None? ==> loaded == Failed(MissingDeviceOption(available.value)))
            && (available.Some? && shortId.Some? ==>
                  var devices, prefix := available.value, shortId.value;
                  && ((forall d | d in devices ::
                       !Matches(d, prefix)) <==> loaded == Failed(DeviceNotFound(prefix, devices)))
                  && ((exists d, e | d in devices && e in devices ::
                       d != e && Matches(d, prefix) && Matches(e, prefix)) <==>
                        loaded == Failed(MultipleDevicesFound(prefix, Possible(devices, prefix)))))
  {
    hide Matches;
    if available.Some? && shortId.Some? {
      var devices, prefix := available.value, shortId.value;
      var possible := Possible(devices, prefix);
      PossibleIsDistinct(devices, prefix);
      forall d: Device ensures d in possible <==> d in devices && Matches(d, prefix) {
        PossibleIff(devices, prefix, d);
      }
      if |possible| >= 1 { assert possible[0] in possible; }
      if |possible| >= 2 { assert possible[1] in possible && possible[0].id != possible[1].id; }
      if |possible| == 1 { assert forall d | d in possible :: d == possible[0]; }
    }
  }

  /** `part` is `whole` with some elements left out. */
  predicate IsPart(part: seq<Device>, whole: seq<Device>)
  {
    if part == [] then true
    else whole != []
         && (if part[0] == whole[0] then IsPart(part[1..], whole[1..]) else IsPart(part, whole[1..]))
  }

  /** The devices that share a prefix are listed in the order of all devices. */
  lemma {:induction false} PossibleKeepsOrder(devices: seq<Device>, prefix: string)
    requires DistinctDevices(devices)
    ensures IsPart(Possible(devices, prefix), devices)
  {
    if devices != [] {
      var rest := Possible(devices[1..], prefix);
      PossibleKeepsOrder(devices[1..], prefix);
      if Matches(devices[0], prefix) {
        assert ([devices[0]] + rest)[1..] == rest;
      } else {
        assert [] + rest == rest;
        if rest != [] {
          PossibleIff(devices[1..], prefix, rest[0]);
        }
      }
    }
  }
}
