/** The `Constants` getter of RNDeviceInfoModule: the device snapshot, a
    dictionary from field name to value that is rebuilt on every call.

    The platform's answers are one input value (`Platform`). Each of the two
    try blocks of the getter may throw part-way; where it throws is part of
    the input (`appVersionThrowsAt`, `identityThrowsAt`), and
    `deviceFamilyVersion` is the outcome of `ulong.Parse` on the
    DeviceFamilyVersion string, None when the parse throws. */
module Snapshot {
  import opened Wrappers
  import opened Text
  import opened DevicePredicates
  import opened OsVersion

  const NotAvailable := "not available"

  /** The dictionary's values are boxed strings, integers and booleans. */
  datatype Value = Str(s: string) | Int(i: int) | Bool(b: bool)

  type UInt16 = n: nat | n < 0x1_0000
  type UInt64 = n: nat | n < 0x1_0000_0000_0000_0000

  datatype PackageVersion = PackageVersion(major: UInt16, minor: UInt16, build: UInt16, revision: UInt16)

  /** The application package: version, name (the bundle id), display name
      and install time in Unix milliseconds. */
  datatype Package = Package(version: PackageVersion, name: string, displayName: string, installedUnixMillis: int)

  /** The statements of the app-version try block, in execution order. */
  datatype AppVersionStep = FormatAppVersion | FormatBuildNumber | FormatBuildVersion

  /** The platform calls of the device-identity try block, in execution
      order; a failure of ulong.Parse is given by `deviceFamilyVersion`. */
  datatype IdentityStep =
    | CreateDeviceInfo
    | ReadFriendlyName
    | ReadManufacturer
    | ReadId
    | ReadProductName
    | ReadHardwareVersion
    | ReadOperatingSystem
    | ReadDeviceFamilyVersion

  /** EasClientDeviceInformation's properties; `id` is the GUID's string. */
  datatype DeviceInformation = DeviceInformation(
    friendlyName: string,
    systemManufacturer: string,
    id: string,
    systemProductName: string,
    systemHardwareVersion: string,
    operatingSystem: string)

  /** The current culture: its name, English name and short-time pattern. */
  datatype Culture = Culture(name: string, englishName: string, shortTimePattern: string)

  datatype Platform = Platform(
    package: Package,
    appVersionThrowsAt: Option<AppVersionStep>,
    device: DeviceInformation,
    identityThrowsAt: Option<IdentityStep>,
    deviceFamilyVersion: Option<bv64>,
    culture: Culture,
    appMemoryUsageLimit: UInt64)

  function IdentityOrdinal(step: IdentityStep): nat
  {
    match step
    case CreateDeviceInfo => 0
    case ReadFriendlyName => 1
    case ReadManufacturer => 2
    case ReadId => 3
    case ReadProductName => 4
    case ReadHardwareVersion => 5
    case ReadOperatingSystem => 6
    case ReadDeviceFamilyVersion => 7
  }

  /** The identity block got past `step`: it did not throw there or
      earlier. */
  predicate IdentityPassed(throwsAt: Option<IdentityStep>, step: IdentityStep)
  {
    throwsAt.None? || IdentityOrdinal(step) < IdentityOrdinal(throwsAt.value)
  }

  /** The value a local of the identity block ends with: the platform's
      reading when the block got past the call that produced it, otherwise
      the "not available" it was initialised with. */
  function IdentityLocal(p: Platform, step: IdentityStep, reading: string): string
  {
    if IdentityPassed(p.identityThrowsAt, step) then reading else NotAvailable
  }

  function DeviceNameOf(p: Platform): string { IdentityLocal(p, ReadFriendlyName, p.device.friendlyName) }
  function ManufacturerOf(p: Platform): string { IdentityLocal(p, ReadManufacturer, p.device.systemManufacturer) }
  function DeviceIdOf(p: Platform): string { IdentityLocal(p, ReadId, p.device.id) }
  function ModelOf(p: Platform): string { IdentityLocal(p, ReadProductName, p.device.systemProductName) }
  function HardwareVersionOf(p: Platform): string { IdentityLocal(p, ReadHardwareVersion, p.device.systemHardwareVersion) }
  function OsOf(p: Platform): string { IdentityLocal(p, ReadOperatingSystem, p.device.operatingSystem) }

  /** osVersion is written last, only when the whole block completes. */
  function OsVersionOf(p: Platform): string
  {
    if p.identityThrowsAt.None? && p.deviceFamilyVersion.Some?
    then FormatOsVersion(p.deviceFamilyVersion.value)
    else NotAvailable
  }

  /** The seven locals of the identity block once it is over. */
  datatype IdentityLocals = IdentityLocals(
    deviceName: string,
    manufacturer: string,
    deviceId: string,
    model: string,
    hardwareVersion: string,
    osVersion: string,
    os: string)

  function IdentityLocalsOf(p: Platform): IdentityLocals
  {
    IdentityLocals(DeviceNameOf(p), ManufacturerOf(p), DeviceIdOf(p), ModelOf(p),
                   HardwareVersionOf(p), OsVersionOf(p), OsOf(p))
  }

  /** The snapshot's keys; `Name` gives the string each one is stored
      under in the dictionary. */
  datatype Key =
    | AppVersion | BuildVersion | BuildNumber | InstanceId | DeviceName
    | SystemName | SystemVersion | ApiLevel | Model | Brand | DeviceId
    | DeviceLocale | DeviceCountry | UniqueId | SystemManufacturer
    | BundleId | AppName | UserAgent | IsEmulatorKey | IsTabletKey | Carrier
    | Is24HourKey | MaxMemory | FirstInstallTime

  function Name(k: Key): string
  {
    match k
    case AppVersion => "appVersion"
    case BuildVersion => "buildVersion"
    case BuildNumber => "buildNumber"
    case InstanceId => "instanceId"
    case DeviceName => "deviceName"
    case SystemName => "systemName"
    case SystemVersion => "systemVersion"
    case ApiLevel => "apiLevel"
    case Model => "model"
    case Brand => "brand"
    case DeviceId => "deviceId"
    case DeviceLocale => "deviceLocale"
    case DeviceCountry => "deviceCountry"
    case UniqueId => "uniqueId"
    case SystemManufacturer => "systemManufacturer"
    case BundleId => "bundleId"
    case AppName => "appName"
    case UserAgent => "userAgent"
    case IsEmulatorKey => "isEmulator"
    case IsTabletKey => "isTablet"
    case Carrier => "carrier"
    case Is24HourKey => "is24Hour"
    case MaxMemory => "maxMemory"
    case FirstInstallTime => "firstInstallTime"
  }

  /** Different keys are stored under different names, so the twenty-four
      writes fill twenty-four distinct dictionary entries. */
  lemma NamesAreDistinct(a: Key, b: Key)
    ensures Name(a) == Name(b) ==> a == b
  {
  }

  /** Every key of the snapshot. */
  const SnapshotKeys: set<Key> := {
    AppVersion, BuildVersion, BuildNumber, InstanceId, DeviceName,
    SystemName, SystemVersion, ApiLevel, Model, Brand, DeviceId,
    DeviceLocale, DeviceCountry, UniqueId, SystemManufacturer,
    BundleId, AppName, UserAgent, IsEmulatorKey, IsTabletKey, Carrier,
    Is24HourKey, MaxMemory, FirstInstallTime}

  /** The keys written after the identity block. */
  const RemainingKeys: set<Key> := {
    InstanceId, DeviceName, SystemName, SystemVersion, ApiLevel, Model, Brand,
    DeviceId, DeviceLocale, DeviceCountry, UniqueId, SystemManufacturer,
    BundleId, AppName, UserAgent, IsEmulatorKey, IsTabletKey, Carrier,
    Is24HourKey, MaxMemory, FirstInstallTime}

  /** The keys written by the app-version block. */
  const AppVersionKeys: set<Key> := {AppVersion, BuildVersion, BuildNumber}

  /** The keys written from, or derived from, the identity block. */
  const IdentityKeys: set<Key> := {
    DeviceName, SystemVersion, Model, Brand, DeviceId, UniqueId,
    SystemManufacturer, IsEmulatorKey, IsTabletKey}

  /** string.Format("{0}.{1}.{2}.{3}", ...) on the package version: the four
      parts as canonical numerals joined by dots, so reading it back as a
      dotted version yields the four parts in order. */
  function AppVersionString(v: PackageVersion): (s: string)
    ensures s == JoinDotted([v.major, v.minor, v.build, v.revision])
    ensures ParseDotted(s) == Some([v.major, v.minor, v.build, v.revision])
  {
    JoinFour(v.major, v.minor, v.build, v.revision);
    JoinDottedRoundTrip([v.major, v.minor, v.build, v.revision]);
    Decimal(v.major) + "." + Decimal(v.minor) + "." + Decimal(v.build) + "." + Decimal(v.revision)
  }

  /** The dictionary after its three default entries are written. */
  function Defaults(): map<Key, Value>
  {
    map[AppVersion := Str(NotAvailable), BuildVersion := Str(NotAvailable), BuildNumber := Int(0)]
  }

  /** The dictionary after the app-version block, which writes appVersion,
      buildNumber and buildVersion in that order and stops at the statement
      that throws. */
  function AfterAppVersion(m: map<Key, Value>, version: PackageVersion, fault: Option<AppVersionStep>): map<Key, Value>
  {
    var appVersion := Str(AppVersionString(version));
    var build := Str(Decimal(version.build));
    match fault
    case Some(FormatAppVersion) => m
    case Some(FormatBuildNumber) => m[AppVersion := appVersion]
    case Some(FormatBuildVersion) => m[AppVersion := appVersion][BuildNumber := build]
    case None => m[AppVersion := appVersion][BuildNumber := build][BuildVersion := build]
  }

  /** The dictionary after the twenty-one writes that follow the identity
      block, in the getter's order, from the identity locals `l`, the
      culture and the package; the three booleans are the results of
      IsEmulator(model), IsTablet(os) and is24Hour(). */
  function AfterRemainingWrites(m: map<Key, Value>, p: Platform, l: IdentityLocals,
                                isEmulator: bool, isTablet: bool, is24Hour: bool)
    : map<Key, Value>
  {
    m[InstanceId := Str(NotAvailable)]
     [DeviceName := Str(l.deviceName)]
     [SystemName := Str("Windows")]
     [SystemVersion := Str(l.osVersion)]
     [ApiLevel := Str(NotAvailable)]
     [Model := Str(l.model)]
     [Brand := Str(l.model)]
     [DeviceId := Str(l.hardwareVersion)]
     [DeviceLocale := Str(p.culture.name)]
     [DeviceCountry := Str(p.culture.englishName)]
     [UniqueId := Str(l.deviceId)]
     [SystemManufacturer := Str(l.manufacturer)]
     [BundleId := Str(p.package.name)]
     [AppName := Str(p.package.displayName)]
     [UserAgent := Str(NotAvailable)]
     [IsEmulatorKey := Bool(isEmulator)]
     [IsTabletKey := Bool(isTablet)]
     [Carrier := Str(NotAvailable)]
     [Is24HourKey := Bool(is24Hour)]
     [MaxMemory := Int(p.appMemoryUsageLimit)]
     [FirstInstallTime := Int(p.package.installedUnixMillis)]
  }

  /** The dictionary when the app-version block is over. */
  function AppVersionStage(p: Platform): map<Key, Value>
  {
    AfterAppVersion(Defaults(), p.package.version, p.appVersionThrowsAt)
  }

  /** The dictionary the getter returns, as a function of the platform's
      answers. */
  function Snapshot(p: Platform): map<Key, Value>
  {
    AfterRemainingWrites(AppVersionStage(p), p, IdentityLocalsOf(p),
      IsEmulator(ModelOf(p)), IsTablet(OsOf(p)), Is24Hour(p.culture.shortTimePattern))
  }

  /** The first try block: it overwrites the three app-version defaults in
      order and stops at the statement that throws; the catch is empty. */
  method TryWriteAppVersion(constants: map<Key, Value>, version: PackageVersion, fault: Option<AppVersionStep>)
    returns (result: map<Key, Value>)
    ensures result == AfterAppVersion(constants, version, fault)
  {
    result := constants;
    label tryBlock: {
      if fault == Some(FormatAppVersion) { break tryBlock; }
      result := result[AppVersion := Str(AppVersionString(version))];
      if fault == Some(FormatBuildNumber) { break tryBlock; }
      result := result[BuildNumber := Str(Decimal(version.build))];
      if fault == Some(FormatBuildVersion) { break tryBlock; }
      result := result[BuildVersion := Str(Decimal(version.build))];
    }
  }

  /** The second try block: the seven locals start as "not available" and
      take the platform's readings one after another until a call throws;
      osVersion is written only when the block completes. */
  method TryReadIdentity(p: Platform)
    returns (deviceName: string, manufacturer: string, deviceId: string, model: string,
             hardwareVersion: string, osVersion: string, os: string)
    ensures deviceName == DeviceNameOf(p) && manufacturer == ManufacturerOf(p)
    ensures deviceId == DeviceIdOf(p) && model == ModelOf(p)
    ensures hardwareVersion == HardwareVersionOf(p) && os == OsOf(p)
    ensures osVersion == OsVersionOf(p)
  {
    deviceName := NotAvailable;
    manufacturer := NotAvailable;
    deviceId := NotAvailable;
    model := NotAvailable;
    hardwareVersion := NotAvailable;
    osVersion := NotAvailable;
    os := NotAvailable;

    var fault := p.identityThrowsAt;
    label tryBlock: {
      if fault == Some(CreateDeviceInfo) { break tryBlock; }
      var deviceInfo := p.device;
      if fault == Some(ReadFriendlyName) { break tryBlock; }
      deviceName := deviceInfo.friendlyName;
      if fault == Some(ReadManufacturer) { break tryBlock; }
      manufacturer := deviceInfo.systemManufacturer;
      if fault == Some(ReadId) { break tryBlock; }
      deviceId := deviceInfo.id;
      if fault == Some(ReadProductName) { break tryBlock; }
      model := deviceInfo.systemProductName;
      if fault == Some(ReadHardwareVersion) { break tryBlock; }
      hardwareVersion := deviceInfo.systemHardwareVersion;
      if fault == Some(ReadOperatingSystem) { break tryBlock; }
      os := deviceInfo.operatingSystem;

      if fault == Some(ReadDeviceFamilyVersion) { break tryBlock; }
      if p.deviceFamilyVersion.None? { break tryBlock; }
      var version2 := p.deviceFamilyVersion.value;
      var major := Major(version2);
      var minor := Minor(version2);
      osVersion := Decimal(major) + "." + Decimal(minor);
    }
  }

  /** The getter itself: defaults first, then the two try blocks, then the
      remaining writes. */
  method Constants(p: Platform) returns (constants: map<Key, Value>)
    ensures constants == Snapshot(p)
  {
    constants := map[];
    constants := constants[AppVersion := Str(NotAvailable)];
    constants := constants[BuildVersion := Str(NotAvailable)];
    constants := constants[BuildNumber := Int(0)];

    var version := p.package.version;
    var bundleId := p.package.name;
    var appName := p.package.displayName;

    constants := TryWriteAppVersion(constants, version, p.appVersionThrowsAt);

    var culture := p.culture;
    var deviceName, manufacturer, deviceId, model, hardwareVersion, osVersion, os := TryReadIdentity(p);

    constants := constants[InstanceId := Str(NotAvailable)];
    constants := constants[DeviceName := Str(deviceName)];
    constants := constants[SystemName := Str("Windows")];
    constants := constants[SystemVersion := Str(osVersion)];
    constants := constants[ApiLevel := Str(NotAvailable)];
    constants := constants[Model := Str(model)];
    constants := constants[Brand := Str(model)];
    constants := constants[DeviceId := Str(hardwareVersion)];
    constants := constants[DeviceLocale := Str(culture.name)];
    constants := constants[DeviceCountry := Str(culture.englishName)];
    constants := constants[UniqueId := Str(deviceId)];
    constants := constants[SystemManufacturer := Str(manufacturer)];
    constants := constants[BundleId := Str(bundleId)];
    constants := constants[AppName := Str(appName)];
    constants := constants[UserAgent := Str(NotAvailable)];
    constants := constants[IsEmulatorKey := Bool(IsEmulator(model))];
    constants := constants[IsTabletKey := Bool(IsTablet(os))];
    constants := constants[Carrier := Str(NotAvailable)];
    constants := constants[Is24HourKey := Bool(Is24Hour(culture.shortTimePattern))];
    constants := constants[MaxMemory := Int(p.appMemoryUsageLimit)];
    constants := constants[FirstInstallTime := Int(p.package.installedUnixMillis)];
  }

  // ---------------------------------------------------------------------
  // The twenty-one writes, whatever the dictionary held before them

  lemma RemainingWritesKeys(m: map<Key, Value>, p: Platform, l: IdentityLocals, e: bool, t: bool, h: bool)
    ensures AfterRemainingWrites(m, p, l, e, t, h).Keys == m.Keys + RemainingKeys
  {
  }

  /** The entries the writes take from the identity block. */
  lemma RemainingWritesIdentityEntries(m: map<Key, Value>, p: Platform, l: IdentityLocals, e: bool, t: bool, h: bool)
    ensures AfterRemainingWrites(m, p, l, e, t, h)[DeviceName] == Str(l.deviceName)
    ensures AfterRemainingWrites(m, p, l, e, t, h)[SystemVersion] == Str(l.osVersion)
    ensures AfterRemainingWrites(m, p, l, e, t, h)[Model] == Str(l.model)
    ensures AfterRemainingWrites(m, p, l, e, t, h)[Brand] == Str(l.model)
    ensures AfterRemainingWrites(m, p, l, e, t, h)[DeviceId] == Str(l.hardwareVersion)
    ensures AfterRemainingWrites(m, p, l, e, t, h)[UniqueId] == Str(l.deviceId)
    ensures AfterRemainingWrites(m, p, l, e, t, h)[SystemManufacturer] == Str(l.manufacturer)
    ensures AfterRemainingWrites(m, p, l, e, t, h)[IsEmulatorKey] == Bool(e)
    ensures AfterRemainingWrites(m, p, l, e, t, h)[IsTabletKey] == Bool(t)
  {
  }

  /** The entries the writes take from no input at all. */
  lemma RemainingWritesConstantEntries(m: map<Key, Value>, p: Platform, l: IdentityLocals, e: bool, t: bool, h: bool)
    ensures AfterRemainingWrites(m, p, l, e, t, h)[InstanceId] == Str(NotAvailable)
    ensures AfterRemainingWrites(m, p, l, e, t, h)[SystemName] == Str("Windows")
    ensures AfterRemainingWrites(m, p, l, e, t, h)[ApiLevel] == Str(NotAvailable)
    ensures AfterRemainingWrites(m, p, l, e, t, h)[UserAgent] == Str(NotAvailable)
    ensures AfterRemainingWrites(m, p, l, e, t, h)[Carrier] == Str(NotAvailable)
  {
  }

  /** The entries the writes take from the culture, the package and the
      memory limit. */
  lemma RemainingWritesPlatformEntries(m: map<Key, Value>, p: Platform, l: IdentityLocals, e: bool, t: bool, h: bool)
    ensures AfterRemainingWrites(m, p, l, e, t, h)[DeviceLocale] == Str(p.culture.name)
    ensures AfterRemainingWrites(m, p, l, e, t, h)[DeviceCountry] == Str(p.culture.englishName)
    ensures AfterRemainingWrites(m, p, l, e, t, h)[BundleId] == Str(p.package.name)
    ensures AfterRemainingWrites(m, p, l, e, t, h)[AppName] == Str(p.package.displayName)
    ensures AfterRemainingWrites(m, p, l, e, t, h)[Is24HourKey] == Bool(h)
    ensures AfterRemainingWrites(m, p, l, e, t, h)[MaxMemory] == Int(p.appMemoryUsageLimit)
    ensures AfterRemainingWrites(m, p, l, e, t, h)[FirstInstallTime] == Int(p.package.installedUnixMillis)
  {
  }

  /** Keys the twenty-one writes do not touch keep their entries. */
  lemma RemainingWritesKeepAppVersion(m: map<Key, Value>, p: Platform, l: IdentityLocals, e: bool, t: bool, h: bool)
    requires AppVersionKeys <= m.Keys
    ensures AfterRemainingWrites(m, p, l, e, t, h)[AppVersion] == m[AppVersion]
    ensures AfterRemainingWrites(m, p, l, e, t, h)[BuildNumber] == m[BuildNumber]
    ensures AfterRemainingWrites(m, p, l, e, t, h)[BuildVersion] == m[BuildVersion]
  {
  }

  /** The entries under the written keys do not depend on the dictionary
      the writes start from. */
  lemma RemainingWritesOverwrite(m1: map<Key, Value>, m2: map<Key, Value>, p: Platform, l: IdentityLocals,
                                 e: bool, t: bool, h: bool, k: Key)
    requires k in RemainingKeys
    ensures AfterRemainingWrites(m1, p, l, e, t, h)[k] == AfterRemainingWrites(m2, p, l, e, t, h)[k]
  {
  }

  /** The entries the writes take from the culture, the package and
      constants do not depend on the identity locals or on the two
      booleans derived from them. */
  lemma RemainingWritesIgnoreIdentity(m: map<Key, Value>, p1: Platform, p2: Platform,
                                      l1: IdentityLocals, l2: IdentityLocals,
                                      e1: bool, e2: bool, t1: bool, t2: bool, h: bool, k: Key)
    requires p1.culture == p2.culture && p1.package == p2.package
    requires p1.appMemoryUsageLimit == p2.appMemoryUsageLimit
    requires k in RemainingKeys && k !in IdentityKeys
    ensures AfterRemainingWrites(m, p1, l1, e1, t1, h)[k] == AfterRemainingWrites(m, p2, l2, e2, t2, h)[k]
  {
  }

  // ---------------------------------------------------------------------
  // Properties of the snapshot

  /** The dictionary always has the same twenty-four keys, whichever
      statement throws. */
  lemma SnapshotHasFixedKeys(p: Platform)
    ensures Snapshot(p).Keys == SnapshotKeys
  {
    assert AppVersionStage(p).Keys == AppVersionKeys;
    RemainingWritesKeys(AppVersionStage(p), p, IdentityLocalsOf(p),
      IsEmulator(ModelOf(p)), IsTablet(OsOf(p)), Is24Hour(p.culture.shortTimePattern));
  }

  /** Entries that are the same on every platform. */
  lemma SnapshotConstantEntries(p: Platform)
    ensures Snapshot(p)[InstanceId] == Str(NotAvailable)
    ensures Snapshot(p)[ApiLevel] == Str(NotAvailable)
    ensures Snapshot(p)[UserAgent] == Str(NotAvailable)
    ensures Snapshot(p)[Carrier] == Str(NotAvailable)
    ensures Snapshot(p)[SystemName] == Str("Windows")
  {
    RemainingWritesConstantEntries(AppVersionStage(p), p, IdentityLocalsOf(p),
      IsEmulator(ModelOf(p)), IsTablet(OsOf(p)), Is24Hour(p.culture.shortTimePattern));
  }

  /** brand repeats model; uniqueId is the device id and deviceId the
      hardware version; systemVersion is the decoded DeviceFamilyVersion. */
  lemma SnapshotIdentityEntries(p: Platform)
    ensures Snapshot(p)[Brand] == Snapshot(p)[Model] == Str(ModelOf(p))
    ensures Snapshot(p)[UniqueId] == Str(DeviceIdOf(p))
    ensures Snapshot(p)[DeviceId] == Str(HardwareVersionOf(p))
    ensures Snapshot(p)[DeviceName] == Str(DeviceNameOf(p))
    ensures Snapshot(p)[SystemManufacturer] == Str(ManufacturerOf(p))
    ensures Snapshot(p)[SystemVersion] == Str(OsVersionOf(p))
  {
    RemainingWritesIdentityEntries(AppVersionStage(p), p, IdentityLocalsOf(p),
      IsEmulator(ModelOf(p)), IsTablet(OsOf(p)), Is24Hour(p.culture.shortTimePattern));
  }

  /** isEmulator is computed from the model string the snapshot reports,
      isTablet from the operating-system name the identity block read. */
  lemma SnapshotDerivedFlags(p: Platform)
    ensures Snapshot(p)[Model].Str?
    ensures Snapshot(p)[IsEmulatorKey] == Bool(IsEmulator(Snapshot(p)[Model].s))
    ensures Snapshot(p)[IsEmulatorKey] == Bool(IsEmulator(ModelOf(p)))
    ensures Snapshot(p)[IsTabletKey] == Bool(IsTablet(OsOf(p)))
  {
    RemainingWritesIdentityEntries(AppVersionStage(p), p, IdentityLocalsOf(p),
      IsEmulator(ModelOf(p)), IsTablet(OsOf(p)), Is24Hour(p.culture.shortTimePattern));
  }

  /** The culture entries, the package entries and the memory limit. */
  lemma SnapshotPlatformEntries(p: Platform)
    ensures Snapshot(p)[DeviceLocale] == Str(p.culture.name)
    ensures Snapshot(p)[DeviceCountry] == Str(p.culture.englishName)
    ensures Snapshot(p)[Is24HourKey] ==
              Bool(exists i :: 0 <= i < |p.culture.shortTimePattern| && p.culture.shortTimePattern[i] == 'H')
    ensures Snapshot(p)[BundleId] == Str(p.package.name)
    ensures Snapshot(p)[AppName] == Str(p.package.displayName)
    ensures Snapshot(p)[MaxMemory] == Int(p.appMemoryUsageLimit)
    ensures Snapshot(p)[FirstInstallTime] == Int(p.package.installedUnixMillis)
  {
    RemainingWritesPlatformEntries(AppVersionStage(p), p, IdentityLocalsOf(p),
      IsEmulator(ModelOf(p)), IsTablet(OsOf(p)), Is24Hour(p.culture.shortTimePattern));
  }

  lemma AppVersionStageEntries(p: Platform)
    ensures var m := AppVersionStage(p);
      var appVersion := Str(AppVersionString(p.package.version));
      var build := Str(Decimal(p.package.version.build));
      match p.appVersionThrowsAt
      case Some(FormatAppVersion) =>
        m[AppVersion] == Str(NotAvailable) && m[BuildNumber] == Int(0) && m[BuildVersion] == Str(NotAvailable)
      case Some(FormatBuildNumber) =>
        m[AppVersion] == appVersion && m[BuildNumber] == Int(0) && m[BuildVersion] == Str(NotAvailable)
      case Some(FormatBuildVersion) =>
        m[AppVersion] == appVersion && m[BuildNumber] == build && m[BuildVersion] == Str(NotAvailable)
      case None =>
        m[AppVersion] == appVersion && m[BuildNumber] == build && m[BuildVersion] == build
  {
  }

  /** The three app-version entries for each place the block can stop:
      the defaults survive exactly from the throwing statement on, and a
      completed block reports the build number twice, as a string. */
  lemma AppVersionEntries(p: Platform)
    ensures p.appVersionThrowsAt == Some(FormatAppVersion) ==>
              Snapshot(p)[AppVersion] == Str(NotAvailable) &&
              Snapshot(p)[BuildNumber] == Int(0) &&
              Snapshot(p)[BuildVersion] == Str(NotAvailable)
    ensures p.appVersionThrowsAt == Some(FormatBuildNumber) ==>
              Snapshot(p)[AppVersion] == Str(AppVersionString(p.package.version)) &&
              Snapshot(p)[BuildNumber] == Int(0) &&
              Snapshot(p)[BuildVersion] == Str(NotAvailable)
    ensures p.appVersionThrowsAt == Some(FormatBuildVersion) ==>
              Snapshot(p)[AppVersion] == Str(AppVersionString(p.package.version)) &&
              Snapshot(p)[BuildNumber] == Str(Decimal(p.package.version.build)) &&
              Snapshot(p)[BuildVersion] == Str(NotAvailable)
    ensures p.appVersionThrowsAt.None? ==>
              Snapshot(p)[AppVersion] == Str(AppVersionString(p.package.version)) &&
              Snapshot(p)[BuildNumber] == Snapshot(p)[BuildVersion] == Str(Decimal(p.package.version.build))
  {
    AppVersionStageEntries(p);
    RemainingWritesKeepAppVersion(AppVersionStage(p), p, IdentityLocalsOf(p),
      IsEmulator(ModelOf(p)), IsTablet(OsOf(p)), Is24Hour(p.culture.shortTimePattern));
  }

  /** A completed app-version block stores a version string that reads
      back as the package's four version parts, and a build number that
      reads back as the build part. */
  lemma AppVersionRoundTrip(p: Platform)
    requires p.appVersionThrowsAt.None?
    ensures Snapshot(p)[AppVersion].Str?
    ensures ParseDotted(Snapshot(p)[AppVersion].s) ==
              Some([p.package.version.major, p.package.version.minor, p.package.version.build, p.package.version.revision])
    ensures Snapshot(p)[BuildNumber].Str? && AllDigits(Snapshot(p)[BuildNumber].s)
    ensures DecimalValue(Snapshot(p)[BuildNumber].s) == p.package.version.build
  {
    AppVersionEntries(p);
    DecimalRoundTrip(p.package.version.build);
  }

  /** A throw in the app-version block changes nothing outside the three
      app-version entries. */
  lemma AppVersionFailureIsolated(p: Platform, fault: Option<AppVersionStep>, k: Key)
    requires k in RemainingKeys
    ensures Snapshot(p.(appVersionThrowsAt := fault))[k] == Snapshot(p)[k]
  {
    var q := p.(appVersionThrowsAt := fault);
    assert IdentityLocalsOf(q) == IdentityLocalsOf(p);
    RemainingWritesOverwrite(AppVersionStage(q), AppVersionStage(p), p, IdentityLocalsOf(p),
      IsEmulator(ModelOf(p)), IsTablet(OsOf(p)), Is24Hour(p.culture.shortTimePattern), k);
  }

  /** "not available" contains neither "virtual" nor "windowsphone" in any
      letter case. */
  lemma NotAvailableFlags()
    ensures !IsEmulator(NotAvailable)
    ensures IsTablet(NotAvailable)
  {
    NoMatchWithoutFirstLetter(NotAvailable, "windowsphone");
    forall i | 0 <= i < |NotAvailable|
      ensures !MatchesIgnoringCaseAt(NotAvailable, "virtual", i)
    {
      if i == 5 {
        MismatchAt(NotAvailable, "virtual", i, 1);
      } else {
        MismatchAt(NotAvailable, "virtual", i, 0);
      }
    }
  }

  /** A throw in the identity block keeps the readings taken before it,
      leaves the rest at "not available" and always loses systemVersion:
      the block's writes are neither undone nor all-or-nothing. */
  lemma IdentityFailureKeepsEarlierReads(p: Platform, step: IdentityStep)
    requires p.identityThrowsAt == Some(step)
    ensures var full := Snapshot(p.(identityThrowsAt := None));
      var r := Snapshot(p);
      r[SystemVersion] == Str(NotAvailable) &&
      r[DeviceName] == (if IdentityPassed(Some(step), ReadFriendlyName) then full[DeviceName] else Str(NotAvailable)) &&
      r[SystemManufacturer] == (if IdentityPassed(Some(step), ReadManufacturer) then full[SystemManufacturer] else Str(NotAvailable)) &&
      r[UniqueId] == (if IdentityPassed(Some(step), ReadId) then full[UniqueId] else Str(NotAvailable)) &&
      r[Model] == (if IdentityPassed(Some(step), ReadProductName) then full[Model] else Str(NotAvailable)) &&
      r[DeviceId] == (if IdentityPassed(Some(step), ReadHardwareVersion) then full[DeviceId] else Str(NotAvailable))
  {
    var q := p.(identityThrowsAt := None);
    SnapshotIdentityEntries(p);
    SnapshotIdentityEntries(q);
  }

  /** When the identity block throws before the model is read, the
      snapshot reports no emulator and a tablet. */
  lemma EarlyIdentityFailureFlags(p: Platform)
    requires p.identityThrowsAt.Some?
    requires IdentityOrdinal(p.identityThrowsAt.value) <= IdentityOrdinal(ReadProductName)
    ensures Snapshot(p)[IsEmulatorKey] == Bool(false)
    ensures Snapshot(p)[IsTabletKey] == Bool(true)
  {
    assert ModelOf(p) == NotAvailable && OsOf(p) == NotAvailable;
    NotAvailableFlags();
    SnapshotDerivedFlags(p);
  }

  /** When only the DeviceFamilyVersion parse fails, all six readings of
      the block are kept and only systemVersion is "not available". */
  lemma ParseFailureKeepsIdentity(p: Platform)
    requires p.identityThrowsAt.None? && p.deviceFamilyVersion.None?
    ensures Snapshot(p)[SystemVersion] == Str(NotAvailable)
    ensures Snapshot(p)[DeviceName] == Str(p.device.friendlyName)
    ensures Snapshot(p)[SystemManufacturer] == Str(p.device.systemManufacturer)
    ensures Snapshot(p)[UniqueId] == Str(p.device.id)
    ensures Snapshot(p)[Model] == Str(p.device.systemProductName)
    ensures Snapshot(p)[DeviceId] == Str(p.device.systemHardwareVersion)
    ensures Snapshot(p)[IsTabletKey] == Bool(IsTablet(p.device.operatingSystem))
  {
    SnapshotIdentityEntries(p);
    SnapshotDerivedFlags(p);
  }

  /** A completed identity block stores a systemVersion that reads back as
      the decoded major and minor fields. */
  lemma SystemVersionRoundTrip(p: Platform)
    requires p.identityThrowsAt.None? && p.deviceFamilyVersion.Some?
    ensures Snapshot(p)[SystemVersion].Str?
    ensures ParseDotted(Snapshot(p)[SystemVersion].s) ==
              Some([Major(p.deviceFamilyVersion.value), Minor(p.deviceFamilyVersion.value)])
  {
    SnapshotIdentityEntries(p);
  }

  /** A throw in the identity block changes none of the entries the
      getter writes from other sources. */
  lemma IdentityFailureIsolated(p: Platform, fault: Option<IdentityStep>, version: Option<bv64>, k: Key)
    requires k in RemainingKeys && k !in IdentityKeys
    ensures Snapshot(p.(identityThrowsAt := fault, deviceFamilyVersion := version))[k] == Snapshot(p)[k]
  {
    var q := p.(identityThrowsAt := fault, deviceFamilyVersion := version);
    assert AppVersionStage(q) == AppVersionStage(p);
    RemainingWritesIgnoreIdentity(AppVersionStage(p), p, q, IdentityLocalsOf(p), IdentityLocalsOf(q),
      IsEmulator(ModelOf(p)), IsEmulator(ModelOf(q)), IsTablet(OsOf(p)), IsTablet(OsOf(q)),
      Is24Hour(p.culture.shortTimePattern), k);
  }
}
