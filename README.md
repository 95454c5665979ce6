# RNDeviceInfo (Windows) in Dafny

This project models `RNDeviceInfoModule`, the Windows native module of
react-native-device-info. It covers two parts:

- the `Constants` getter, which builds the device snapshot dictionary;
- the three on-demand probes: `getBatteryLevel`, `getIpAddress` and `isPinOrFingerprintSet`.

Every answer the platform gives becomes an input value:

- the package, the device information, the culture and the memory limit;
- the packed DeviceFamilyVersion;
- the battery report, the connection profile and the host-name list;
- the user-verification availability.

Each try block of the getter may throw part-way. The statement where it throws is also an input. So for every statement inside the two try blocks that can throw, the model covers the case where the throw stops the block there. Throws outside those blocks are not modelled (see "## Left out").

Modules:

- `Wrappers`: `Option` and `Result`. They stand for a null reference and for a promise that is resolved or rejected.
- `Text`: string helpers.
  - ASCII lower-casing.
  - Ordinal and case-insensitive substring search.
  - Decimal rendering of unsigned integers, with its inverse.
  - Dot-separated version strings, with a parser that is proved to undo the join.
- `DevicePredicates`: `IsEmulator`, `IsTablet` and `is24Hour`.
- `OsVersion`: decodes the packed 64-bit DeviceFamilyVersion into `"major.minor"`.
- `Probes`: the battery, IP-address and screen-lock probes.
- `Snapshot`: the getter.
  - `Snapshot(p)` is the dictionary as a function of the platform, built from the getter's three phases:
    1. three default entries;
    2. the app-version try block;
    3. twenty-one writes after the identity try block.
  - `Constants` is the imperative getter. It writes into a `map` variable, and its try blocks are labelled blocks left with `break` at the throwing statement.
  - `Constants` is proved to return `Snapshot(p)`.
  - Dictionary keys are the datatype `Key`. `Name` gives each key's string, and `NamesAreDistinct` shows that no two keys share a name.

## Behaviour worth knowing

- The identity block is not all-or-nothing. Locals are assigned one after another, and a throw keeps the readings taken before it (`IdentityFailureKeepsEarlierReads`). A failed `ulong.Parse` loses only `systemVersion` (`ParseFailureKeepsIdentity`).
- The OS version and manufacturer are stored under the keys `systemVersion` and `systemManufacturer`.
- `deviceId` holds the hardware version, and `uniqueId` holds the device id.
- `buildNumber` defaults to the integer 0. A completed app-version block replaces it with the build number as a string.
- A battery report whose full capacity is 0 is not rejected: the division yields an infinity or NaN (`NotFinite`). Only a missing capacity rejects.
- The battery level is not clamped to [0, 1] (`BatteryLevelNotClamped`).

## Model

| member | source | states |
|---|---|---|
| Text.Contains | windows/RNDeviceInfo/RNDeviceInfoModule.cs:48 | `string.Contains`: true exactly when the pattern occurs at some position |
| Text.ContainsIgnoringCase | windows/RNDeviceInfo/RNDeviceInfoModule.cs:36-37 | a `(?i:word)` regex match for a word with no capitals: true exactly when some position matches the word letter for letter, ignoring ASCII case |
| Text.ToLower | windows/RNDeviceInfo/RNDeviceInfoModule.cs:36 | the folded string has the same length and no ASCII capital left; it equals the input once case is ignored; it keeps every character that is not a capital |
| Text.ToLowerIdempotent | windows/RNDeviceInfo/RNDeviceInfoModule.cs:36 | folding an already folded string changes nothing |
| Text.ToLowerUnique | windows/RNDeviceInfo/RNDeviceInfoModule.cs:36 | the folded string is the only capital-free string of that length that equals the input ignoring case |
| Text.LowerOccursIffMatchesIgnoringCase | windows/RNDeviceInfo/RNDeviceInfoModule.cs:36-37 | a lower-case word occurs at a position of the folded string iff it matches there case-insensitively in the original |
| Text.Decimal | windows/RNDeviceInfo/RNDeviceInfoModule.cs:136 | `ToString()` of an unsigned number: non-empty, digits only, and a leading zero only in the numeral "0" itself |
| Text.DecimalRoundTrip | windows/RNDeviceInfo/RNDeviceInfoModule.cs:136 | reading a rendered number back gives the number |
| Text.DecimalInjective | windows/RNDeviceInfo/RNDeviceInfoModule.cs:136 | different numbers never render to the same string |
| Text.JoinDottedRoundTrip | windows/RNDeviceInfo/RNDeviceInfoModule.cs:135 | parsing numbers joined by dots gives back the same non-empty list |
| DevicePredicates.IsEmulator | windows/RNDeviceInfo/RNDeviceInfoModule.cs:34-38 | true iff "virtual" occurs in the model name in any letter case |
| DevicePredicates.IsTablet | windows/RNDeviceInfo/RNDeviceInfoModule.cs:40-44 | true iff "windowsphone" does NOT occur in the OS name in any letter case |
| DevicePredicates.Is24Hour | windows/RNDeviceInfo/RNDeviceInfoModule.cs:46-49 | true iff the short-time pattern contains an upper-case 'H' |
| DevicePredicates.LowerCaseHourIsNot24Hour | windows/RNDeviceInfo/RNDeviceInfoModule.cs:46-49 | the test is case-sensitive: a pattern without 'H' (such as `h:mm tt`) is not 24-hour |
| DevicePredicates.IsEmulatorIgnoresCase | windows/RNDeviceInfo/RNDeviceInfoModule.cs:34-38 | two model names equal up to ASCII case get the same answer |
| DevicePredicates.EmulatorExamples | windows/RNDeviceInfo/RNDeviceInfoModule.cs:34-38 | "Virtual Machine" and "Microsoft VIRTUAL Machine" are emulators; "Surface Pro" is not |
| DevicePredicates.TabletExamples | windows/RNDeviceInfo/RNDeviceInfoModule.cs:40-44 | "WindowsPhone 10" is not a tablet; "Windows 10" is |
| DevicePredicates.Is24HourExamples | windows/RNDeviceInfo/RNDeviceInfoModule.cs:46-49 | "HH:mm" is 24-hour; "h:mm tt" is not |
| OsVersion.Major | windows/RNDeviceInfo/RNDeviceInfoModule.cs:166 | the major field is below 65536 |
| OsVersion.Minor | windows/RNDeviceInfo/RNDeviceInfoModule.cs:167 | the minor field is below 65536 |
| OsVersion.DecodePacked | windows/RNDeviceInfo/RNDeviceInfoModule.cs:166-167 | decoding a packed value returns its major and minor fields, whatever the low 32 bits hold |
| OsVersion.PackDecoded | windows/RNDeviceInfo/RNDeviceInfoModule.cs:166-167 | every 64-bit value packs back from its two decoded fields and its low 32 bits |
| OsVersion.LowBitsIgnored | windows/RNDeviceInfo/RNDeviceInfoModule.cs:166-167 | values that differ only in the low 32 bits decode to the same major and minor |
| OsVersion.FormatOsVersion | windows/RNDeviceInfo/RNDeviceInfoModule.cs:168 | the `"{major}.{minor}"` string is the two decoded fields as canonical numerals joined by a dot, and parses back to exactly those fields |
| OsVersion.FormatOsVersionExample | windows/RNDeviceInfo/RNDeviceInfoModule.cs:164-168 | DeviceFamilyVersion 2814751014977537 renders as "10.0" |
| Probes.GetBatteryLevel | windows/RNDeviceInfo/RNDeviceInfoModule.cs:89-108 | rejects with "Could not fetch battery information." iff either capacity is missing; otherwise resolves with `remaining / full`, or not-finite when full is 0 |
| Probes.BatteryLevelInUnitInterval | windows/RNDeviceInfo/RNDeviceInfoModule.cs:104-106 | 0 <= remaining <= full with full > 0 gives a level in [0, 1] |
| Probes.BatteryLevelNotClamped | windows/RNDeviceInfo/RNDeviceInfoModule.cs:104-106 | remaining above a positive full gives a level above 1 |
| Probes.BatteryExamples | windows/RNDeviceInfo/RNDeviceInfoModule.cs:97-106 | 1000/2000 gives 0.5; 0/0 resolves not-finite; a missing capacity rejects |
| Probes.FirstMatch | windows/RNDeviceInfo/RNDeviceInfoModule.cs:78-83 | `FirstOrDefault`: the index of the first IPv4 record on the adapter, with none before it; None iff no record matches |
| Probes.GetIpAddress | windows/RNDeviceInfo/RNDeviceInfoModule.cs:67-86 | rejects with "Network adapter not found." iff the profile or its adapter is missing; otherwise resolves with the first matching record's canonical name, or null iff none matches |
| Probes.FirstMatchIgnoresLaterRecords | windows/RNDeviceInfo/RNDeviceInfoModule.cs:78-83 | records appended after a match never change the result |
| Probes.FirstMatchSkipsNonMatching | windows/RNDeviceInfo/RNDeviceInfoModule.cs:78-83 | non-matching records put in front shift the found index and change nothing else |
| Probes.IpAddressExamples | windows/RNDeviceInfo/RNDeviceInfoModule.cs:67-86 | no profile or no adapter rejects; no IPv4 record on the adapter resolves null; an IPv6 record on the adapter is not taken |
| Probes.IsPinOrFingerprintSet | windows/RNDeviceInfo/RNDeviceInfoModule.cs:52-64 | the callback gets true iff the check returned Available; a thrown exception gives false |
| Snapshot.AppVersionString | windows/RNDeviceInfo/RNDeviceInfoModule.cs:135 | the app version string is major, minor, build and revision as canonical numerals joined by dots, and parses back to those four parts |
| Snapshot.TryWriteAppVersion | windows/RNDeviceInfo/RNDeviceInfoModule.cs:133-141 | the app-version try block leaves the dictionary as `AfterAppVersion` describes |
| Snapshot.TryReadIdentity | windows/RNDeviceInfo/RNDeviceInfoModule.cs:143-172 | each of the seven locals ends with the platform reading if the block got past that read, else "not available"; osVersion is set only if the whole block completes |
| Snapshot.Constants | windows/RNDeviceInfo/RNDeviceInfoModule.cs:116-198 | the getter returns exactly `Snapshot(p)` |
| Snapshot.NamesAreDistinct | windows/RNDeviceInfo/RNDeviceInfoModule.cs:123-194 | the twenty-four key strings are pairwise different |
| Snapshot.SnapshotHasFixedKeys | windows/RNDeviceInfo/RNDeviceInfoModule.cs:121-196 | the dictionary has the same twenty-four keys whichever statement throws |
| Snapshot.SnapshotConstantEntries | windows/RNDeviceInfo/RNDeviceInfoModule.cs:174-191 | instanceId, apiLevel, userAgent and carrier are always "not available"; systemName is always "Windows" |
| Snapshot.SnapshotIdentityEntries | windows/RNDeviceInfo/RNDeviceInfoModule.cs:175-185 | brand equals model; uniqueId is the device id; deviceId is the hardware version; deviceName, systemManufacturer and systemVersion are the identity block's locals |
| Snapshot.SnapshotDerivedFlags | windows/RNDeviceInfo/RNDeviceInfoModule.cs:189-190 | isEmulator is computed from the model string stored in the dictionary; isTablet is computed from the OS string the block read |
| Snapshot.SnapshotPlatformEntries | windows/RNDeviceInfo/RNDeviceInfoModule.cs:182-194 | deviceLocale, deviceCountry, bundleId, appName, maxMemory and firstInstallTime come from the culture, package and memory limit; is24Hour is true iff the pattern has an 'H' |
| Snapshot.AppVersionStageEntries | windows/RNDeviceInfo/RNDeviceInfoModule.cs:123-141 | the three app-version entries after the try block, for each statement where it can stop |
| Snapshot.AppVersionEntries | windows/RNDeviceInfo/RNDeviceInfoModule.cs:123-141 | a throw at the format keeps "not available", "not available" and 0; a later throw keeps only the entries from the throwing statement on; success stores the version string and the build number twice |
| Snapshot.AppVersionRoundTrip | windows/RNDeviceInfo/RNDeviceInfoModule.cs:135-137 | after success, appVersion parses back to the four parts and buildNumber reads back as the build number |
| Snapshot.AppVersionFailureIsolated | windows/RNDeviceInfo/RNDeviceInfoModule.cs:133-141 | where the app-version block throws changes no entry outside the three app-version keys |
| Snapshot.NotAvailableFlags | windows/RNDeviceInfo/RNDeviceInfoModule.cs:143-149 | the "not available" default is not an emulator and is a tablet |
| Snapshot.IdentityFailureKeepsEarlierReads | windows/RNDeviceInfo/RNDeviceInfoModule.cs:153-172 | after a throw, each entry read before it matches the completed run, each entry read from it on is "not available", and systemVersion is "not available" |
| Snapshot.EarlyIdentityFailureFlags | windows/RNDeviceInfo/RNDeviceInfoModule.cs:143-190 | a throw before the model is read yields isEmulator false and isTablet true |
| Snapshot.ParseFailureKeepsIdentity | windows/RNDeviceInfo/RNDeviceInfoModule.cs:153-172 | when only the parse fails, all six readings are kept and only systemVersion is "not available" |
| Snapshot.SystemVersionRoundTrip | windows/RNDeviceInfo/RNDeviceInfoModule.cs:164-177 | after a completed block, systemVersion parses back to the decoded major and minor |
| Snapshot.IdentityFailureIsolated | windows/RNDeviceInfo/RNDeviceInfoModule.cs:153-194 | where the identity block throws, and what the parse yields, change none of the entries written from other sources |
| Snapshot.RemainingWritesOverwrite | windows/RNDeviceInfo/RNDeviceInfoModule.cs:174-194 | the entries of the final twenty-one writes do not depend on the dictionary they start from |

## Left out

- getTimezone (lines 110-114) returns the platform's time-zone id unchanged, so there is nothing to decide in it. The module name property (lines 26-32) and the constructor are not modelled either.
- The React Native bridge is not modelled: async methods, promise and callback objects, and attribute registration. A resolved or rejected promise is a `Result`, and a callback's argument is a return value.
- Probes.IsPinOrFingerprintSet: gives the value passed to the callback. If the first `Invoke` throws, the catch block invokes the callback a second time. That second invocation is not modelled.
- Snapshot.Constants: the package, its id, version, name and display name (lines 127-131), the culture (line 151), the memory limit and the install date (lines 193-194) are read outside any try block. A throw there leaves the getter, and the model has no such path: the platform always answers them.
- Null strings: strings from the platform are never null. With a null model or OS string, `Regex.IsMatch` would throw outside any try block. That path is not modelled.
- DevicePredicates.IsEmulator: folds only ASCII A-Z. It assumes a culture in which the ASCII capitals fold to their ASCII lower-case letters. .NET's case-insensitive regex folds with the current culture. Under tr-TR or az-AZ, 'I' folds to dotless 'ı', so the source answers false for "VIRTUAL PC" where the model answers true. Other cultures also fold non-ASCII letters, which the model leaves unchanged.
- DevicePredicates.IsTablet: folds only ASCII A-Z, with the same culture assumption as IsEmulator. Under tr-TR or az-AZ the source does not match "WINDOWSPHONE", so it answers true where the model answers false.
- Snapshot.TryReadIdentity: the text of DeviceFamilyVersion and `ulong.Parse` are not modelled. The parse's outcome is an input: a 64-bit value, or None when it throws. The Guid's string form is taken as given.
- Probes.GetBatteryLevel, Probes.GetIpAddress: the platform calls of these two probes sit outside any try block. They are `Battery.AggregateBattery` and `GetReport()` (lines 92-95), `GetInternetConnectionProfile()` (line 70) and `GetHostNames()` (line 78). A throw from one of them escapes the `async void` method and leaves the promise neither resolved nor rejected. The model has no such path: the platform always answers, and "rejects iff" covers only the missing capacity, profile or adapter.
- Probes.GetBatteryLevel: the level is an exact rational, not a double. `NotFinite` stands for both infinity (x/0) and NaN (0/0).
- Dictionary keys: the dictionary's string keys are represented by the datatype `Key`, and `Name` gives each key's string. `Value` boxes the objects stored in the dictionary. Its one integer case `Int` stands for three .NET types: the `int` 0 default of buildNumber (line 125), the `ulong` AppMemoryUsageLimit (line 193) and the `long` from ToUnixTimeMilliseconds (line 194). The widths are merged because no stored number is computed in the getter, so no value can overflow.
