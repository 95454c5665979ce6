/** The three on-demand probes of the module: getBatteryLevel, getIpAddress
    and isPinOrFingerprintSet. The platform's answers are parameters; a
    promise that is resolved or rejected is a Result, a callback's argument
    is the returned value. */
module Probes {
  import opened Wrappers

  /** A rejected promise: the module always rejects with an
      InvalidOperationException carrying one of the messages below. */
  datatype Rejection = InvalidOperation(message: string)

  const BatteryMessage := "Could not fetch battery information."
  const AdapterMessage := "Network adapter not found."

  // ---------------------------------------------------------------------
  // Battery probe

  /** The aggregate battery report; either capacity may be missing (null). */
  datatype BatteryReport = BatteryReport(
    fullChargeCapacityMwh: Option<int>,
    remainingCapacityMwh: Option<int>)

  /** What the probe resolves with: `remaining / full`, or the infinity or
      NaN that the double division yields when `full` is 0. */
  datatype BatteryLevel = Ratio(value: real) | NotFinite

  function GetBatteryLevel(report: BatteryReport): (r: Result<BatteryLevel, Rejection>)
    ensures r.Err? <==> report.fullChargeCapacityMwh.None? || report.remainingCapacityMwh.None?
    ensures r.Err? ==> r.error == InvalidOperation(BatteryMessage)
    ensures r.Ok? && report.fullChargeCapacityMwh.value != 0 ==>
              r.value.Ratio? &&
              r.value.value * report.fullChargeCapacityMwh.value as real
                == report.remainingCapacityMwh.value as real
    ensures r.Ok? && report.fullChargeCapacityMwh.value == 0 ==> r.value == NotFinite
  {
    match (report.fullChargeCapacityMwh, report.remainingCapacityMwh)
    case (Some(full), Some(remaining)) =>
      if full == 0 then Ok(NotFinite) else Ok(Ratio(remaining as real / full as real))
    case _ => Err(InvalidOperation(BatteryMessage))
  }

  /** A remaining charge between 0 and the full capacity gives a level in
      [0, 1]. */
  lemma BatteryLevelInUnitInterval(full: int, remaining: int)
    requires 0 <= remaining <= full && full > 0
    ensures var r := GetBatteryLevel(BatteryReport(Some(full), Some(remaining)));
            r.Ok? && r.value.Ratio? && 0.0 <= r.value.value <= 1.0
  {
    var r := GetBatteryLevel(BatteryReport(Some(full), Some(remaining)));
    var q := r.value.value;
    assert q * full as real == remaining as real;
  }

  /** The level is not clamped: more remaining charge than full capacity
      gives a level above 1. */
  lemma BatteryLevelNotClamped(full: int, remaining: int)
    requires 0 < full < remaining
    ensures var r := GetBatteryLevel(BatteryReport(Some(full), Some(remaining)));
            r.Ok? && r.value.Ratio? && r.value.value > 1.0
  {
    var r := GetBatteryLevel(BatteryReport(Some(full), Some(remaining)));
    var q := r.value.value;
    assert q * full as real == remaining as real;
  }

  lemma BatteryExamples()
    ensures GetBatteryLevel(BatteryReport(Some(2000), Some(1000))) == Ok(Ratio(0.5))
    ensures GetBatteryLevel(BatteryReport(Some(0), Some(0))) == Ok(NotFinite)
    ensures GetBatteryLevel(BatteryReport(None, Some(1000))).Err?
    ensures GetBatteryLevel(BatteryReport(Some(2000), None)).Err?
  {
  }

  // ---------------------------------------------------------------------
  // IP address probe

  datatype HostNameType = DomainName | Ipv4 | Ipv6 | Bluetooth

  /** The network adapter identifier (a GUID on the platform). */
  type AdapterId = string

  /** One host-name record. `adapterId` is None when the record has no IP
      information or its IP information has no network adapter. */
  datatype HostName = HostName(kind: HostNameType, adapterId: Option<AdapterId>, canonicalName: string)

  /** The internet connection profile; its network adapter may be missing. */
  datatype ConnectionProfile = ConnectionProfile(adapterId: Option<AdapterId>)

  /** The search condition: an IPv4 record owned by the adapter `id`. */
  predicate OnAdapter(h: HostName, id: AdapterId)
  {
    h.kind == Ipv4 && h.adapterId == Some(id)
  }

  /** Position of the first record, in list order, that satisfies the search
      condition (where LINQ's FirstOrDefault stops), or None. */
  function FirstMatch(hosts: seq<HostName>, id: AdapterId): (r: Option<nat>)
    ensures r.Some? ==> r.value < |hosts| && OnAdapter(hosts[r.value], id)
    ensures r.Some? ==> forall j :: 0 <= j < r.value ==> !OnAdapter(hosts[j], id)
    ensures r.None? <==> forall j :: 0 <= j < |hosts| ==> !OnAdapter(hosts[j], id)
    decreases |hosts|
  {
    if hosts == [] then None
    else if OnAdapter(hosts[0], id) then Some(0)
    else
      match FirstMatch(hosts[1..], id)
      case None => None
      case Some(k) => Some(k + 1)
  }

  function GetIpAddress(profile: Option<ConnectionProfile>, hosts: seq<HostName>): (r: Result<Option<string>, Rejection>)
    ensures r.Err? <==> profile.None? || profile.value.adapterId.None?
    ensures r.Err? ==> r.error == InvalidOperation(AdapterMessage)
    ensures r.Ok? && r.value.Some? ==>
              exists i :: 0 <= i < |hosts| && OnAdapter(hosts[i], profile.value.adapterId.value) &&
                (forall j :: 0 <= j < i ==> !OnAdapter(hosts[j], profile.value.adapterId.value)) &&
                r.value.value == hosts[i].canonicalName
    ensures r.Ok? ==>
              (r.value.None? <==>
                forall j :: 0 <= j < |hosts| ==> !OnAdapter(hosts[j], profile.value.adapterId.value))
  {
    if profile.None? || profile.value.adapterId.None? then
      Err(InvalidOperation(AdapterMessage))
    else
      match FirstMatch(hosts, profile.value.adapterId.value)
      case None => Ok(None)
      case Some(i) => Ok(Some(hosts[i].canonicalName))
  }

  /** First match wins: records added after a matching record never change
      the result. */
  lemma {:induction false} FirstMatchIgnoresLaterRecords(hosts: seq<HostName>, later: seq<HostName>, id: AdapterId)
    requires FirstMatch(hosts, id).Some?
    ensures FirstMatch(hosts + later, id) == FirstMatch(hosts, id)
    decreases |hosts|
  {
    if !OnAdapter(hosts[0], id) {
      assert (hosts + later)[1..] == hosts[1..] + later;
      FirstMatchIgnoresLaterRecords(hosts[1..], later, id);
    }
  }

  /** Records that do not match can be put in front without changing which
      record is found. */
  lemma {:induction false} FirstMatchSkipsNonMatching(skipped: seq<HostName>, hosts: seq<HostName>, id: AdapterId)
    requires forall j :: 0 <= j < |skipped| ==> !OnAdapter(skipped[j], id)
    ensures FirstMatch(skipped + hosts, id) ==
              match FirstMatch(hosts, id)
              case None => None
              case Some(k) => Some(|skipped| + k)
    decreases |skipped|
  {
    if skipped != [] {
      assert (skipped + hosts)[0] == skipped[0];
      assert (skipped + hosts)[1..] == skipped[1..] + hosts;
      FirstMatchSkipsNonMatching(skipped[1..], hosts, id);
    } else {
      assert skipped + hosts == hosts;
    }
  }

  lemma IpAddressExamples()
    ensures GetIpAddress(None, []) == Err(InvalidOperation(AdapterMessage))
    ensures GetIpAddress(Some(ConnectionProfile(None)), []) == Err(InvalidOperation(AdapterMessage))
    ensures GetIpAddress(Some(ConnectionProfile(Some("eth0"))), []) == Ok(None)
    ensures GetIpAddress(Some(ConnectionProfile(Some("eth0"))),
              [HostName(Ipv4, Some("wifi1"), "10.0.0.7"), HostName(Ipv4, Some("eth0"), "192.168.1.20")])
            == Ok(Some("192.168.1.20"))
    ensures GetIpAddress(Some(ConnectionProfile(Some("eth0"))),
              [HostName(Ipv6, Some("eth0"), "fe80::1"), HostName(Ipv4, None, "127.0.0.1")])
            == Ok(None)
  {
  }

  // ---------------------------------------------------------------------
  // Screen-lock capability probe

  /** The platform's user-verification availability values. */
  datatype Availability = Available | DeviceNotPresent | NotConfiguredForUser | DisabledByPolicy | DeviceBusy

  /** The platform check either returns an availability or throws. */
  datatype AvailabilityCheck = Returned(availability: Availability) | Threw

  /** The callback's argument: true only when the check returned Available;
      a thrown exception is reported as false, never as a failure. */
  function IsPinOrFingerprintSet(check: AvailabilityCheck): (r: bool)
    ensures r <==> check == Returned(Available)
    ensures check.Threw? ==> !r
  {
    match check
    case Threw => false
    case Returned(a) => a == Available
  }
}
