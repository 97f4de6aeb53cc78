# Verification of the external device manager

This project models the core of the external device manager in Dafny and proves properties of the model.
`dafny verify dfyconfig.toml` checks everything.

**Matching drivers to devices.** The manager keeps the attached devices, each with the driver it is matched to, and a
match table from "bundle-ability" keys to device ids. Driver packages live in a database table, searched for the first
row that matches a device. A package update is committed to the table first and reaches the manager later, from a thread
of its own. `DriverPackages` holds rows, names and the search; `DeviceSpec` one device and its connection; `MatchSpec`
the manager's steps, the guard of each and the runs of the service; `MatchState` and `MatchInvariant` what every run
keeps; `MatchExact` that the guards are exact; `MatchRefresh` a refresh with nothing in between. From the history of a
run alone, `DevicePresence` tells which devices are there and which a driver holds, `DriverStart` which drivers are
started and stopped, `BoundCallers` which clients are bound, and `DriverRecord` when the record of a former driver
remains; `MatchExamples` runs that show what the conditions are for. `DeviceObject`, `DeviceManager`, `PackageStore` and
`BundleState` are the objects of the service, with the fields the service updates in place; each method is proved to
take the corresponding step.

**The USB configuration descriptor parser** (sections 9.6.3, 9.6.5 and 9.6.6 of the USB 2.0 specification). `UsbSpec`
gives both passes as functions of the buffer, with the integer return codes of the code. `UsbParser`, `UsbRelease` and
`UsbDescriptor` are the parser as it runs, over allocated blocks (`UsbMemory`), proved to compute these functions and to
own exactly the blocks of the tree they build. `UsbCounting` and `UsbAccounting` say what becomes of every buffer.
`UsbGrammar` gives the descriptor trees and `UsbLayout` their encoding; `UsbFirstPass`, `UsbSecondPass` and `UsbOutcome`
say what the parser does with the bytes of any tree whose lengths and types are right, whatever its endpoint counts and
whatever stray bytes follow it; `UsbRoundTrip` and `UsbLimits` which trees come back; `UsbFailures` when the parser does
not return.

**SCSI** sense decoding (sections 4.5.2 and 4.5.3 of SPC-4, `ScsiSense`, `ScsiFormats`) and buffers with an offset
(`ScsiMemMap`), **marshalling** of USB device infos (`DeviceParcel`) and the **launch configuration** (`LaunchConfig`)
are smaller models of the same kind.

## What the code does where its documentation or intent says otherwise

- The comment at frameworks/ddk/usb/usb_config_desc_parser.cpp:488-490 promises negative error codes. The codes are
  positive (401, 27400002) and callers test for less than zero, so a refused header is reported with a positive code
  and an empty configuration is handed out, and an error code returned below the outer loop is added to the cursor and
  surfaces as a negative remainder. `UsbAccounting.ParseResults` states this exactly.
- The parser does not always return. A setting may be written past the slots counted for its interface
  (frameworks/ddk/usb/usb_config_desc_parser.cpp:325-334), and an iteration that consumes nothing is repeated for ever
  (frameworks/ddk/usb/usb_config_desc_parser.cpp:443-483). `UsbAccounting.ParseResults` has the exact condition for any
  buffer shorter than 27400002 bytes; `UsbFailures.NeverReturnsExactly`, `UsbFailures.SurplusOutcome` and
  `UsbRoundTrip.StrayTail` for trees; `UsbFailures.ZeroLengthExample` and `UsbFailures.UndeclaredEndpointExample` are
  two such buffers.
- Unbinding the last client of a driver launched on bind reports success without doing anything when the connection
  record was cleared before (services/native/driver_extension_manager/src/device_manager/device.cpp:150-157); the client
  stays recorded. `BoundCallers.LeftBehindStays` and `MatchExamples.LeftBehindExample` show this.
- Between erasing the entries of a bundle and matching the devices again the lock is free
  (services/native/driver_extension_manager/src/device_manager/bundle_update_callback.cpp:23-24), and neither
  a package commit nor the erasure takes the lock under which a search is made and filed. Three steps can then leave
  something behind that no refresh puts right: announcing a device again, detaching one, and filing what was found
  before an update. `MatchSpec.Guarded` says when they do not, `MatchExact.GuardExactly` that it says so exactly, and
  `MatchExamples.AnnouncedWhileErased`, `MatchExamples.DetachedWhileDisplaced` and `MatchExamples.FiledTooLate` are runs
  in which they do.
- The record of a former driver is dropped only when a driver change callback is registered
  (services/native/driver_extension_manager/src/device_manager/etx_device_mgr.cpp:193-196). Without one it remains for
  good, though no key and no entry go with it (`DriverRecord.RecordStays`).
- The walk over sense descriptors reads the length byte of a descriptor before it knows that the descriptor has one
  (frameworks/ddk/scsi/scsi_ddk_api.cpp:276-282). When the last byte of the buffer is the type of a descriptor, that is
  the byte behind the buffer. `ScsiSense.OverReads` is the exact condition.
- The header test compares the header length with the buffer size truncated to eight bits
  (frameworks/ddk/usb/usb_config_desc_parser.cpp:502): `UsbLimits.RoundTripExactly` has this as part of its condition,
  and `UsbLimits.SizeTruncationRefuses` gives a configuration it refuses.
- Row ids are 64-bit and are tested in 32 bits
  (services/native/driver_extension_manager/src/drivers_pkg_manager/pkg_db_helper.cpp:113-114), so an insert can succeed
  and be taken for a failure; the update is then rolled back. This is part of the condition for success.
- Versions whose first difference is one of leading zeros compare as "preset is higher" even when they are equal
  (services/native/driver_extension_manager/src/app_launch_manager/app_launch_config.cpp:119-136);
  `LaunchConfig.UsesCloudMeaning` has the exact condition.
- The mask that reads the bus type off a device id keeps 28 bits instead of 32
  (services/native/driver_extension_manager/src/driver_ext_mgr_types.cpp:277); `DeviceParcel.MaskReadsBusType` says when
  that matters.

## Assumptions on the environment

The steps of the matching service are those of `MatchSpec.Plausible`: a device is announced again only as the same
device and not while its detach still waits for the driver to disconnect; it is detached once; a live remote is
delivered only to a device that has a driver; rows written for a bundle carry its name, which is not empty and has no
dash; a refresh always names a bundle and visits every device before it ends. A method that holds the manager's lock is
one step, with two exceptions. A refresh is an erasure, a step per device and an end, and any other step may come
between two of them, more than the lock allows. A search may be a step of its own; until it is filed, the steps that
need the lock wait, while package commits, erasures and the answers of drivers may come in between. Runs are made of the
plausible steps that meet `MatchSpec.Guarded`, which is no assumption but the exact condition for runs to end right.
Table reads during a match succeed. What the ability manager answers, what access checks and callback registrations
return, and which database operations fail are arbitrary parameters. Rolling back an open transaction always closes it.

## Model

| member | source | states |
|---|---|---|
| MatchInvariant.QuiescentRun | services/native/driver_extension_manager/src/device_manager/etx_device_mgr.cpp:222-374 | in every run of the service, with each refresh split into an erasure and one step per device, searches split from their filing, and every other step in between, whenever nothing is on its way each attached device has exactly the first matching row of the table, or no key and no uid when no row matches (and then no driver either if a driver change callback is registered), and an id is under a key of the match table if and only if that device is attached and its first match has that key |
| MatchExact.GuardExactly | services/native/driver_extension_manager/src/device_manager/etx_device_mgr.cpp:222-415 | the guards on the steps of a run are exact: from every state of the invariant, a step that can happen meets its guard if and only if, however the service goes on after it, drivers and match table are right whenever nothing is on its way |
| MatchExact.RefiledForGood | services/native/driver_extension_manager/src/device_manager/etx_device_mgr.cpp:315-374 | announcing a keyed device against the guard (it is in no entry under its key, no update of its bundle is pending, its first match has another key or none) leaves it under that key through every refresh, and wrong whenever nothing is on its way |
| MatchExact.BadForGood | services/native/driver_extension_manager/src/device_manager/etx_device_mgr.cpp:222-275 | an attached device that stands under a wrong key, or runs its driver without being filed or with a driver that is not its first match, or has no driver though a row matches, and that no refresh is coming for, stays so through any sequence of refreshes |
| MatchExact.UpdatesEnd | services/native/driver_extension_manager/src/device_manager/etx_device_mgr.cpp:222-275 | from every state without an unfiled search refreshes alone lead, by steps that meet their guards, to one in which nothing is on its way |
| MatchExact.SearchThenFile | services/native/driver_extension_manager/src/device_manager/etx_device_mgr.cpp:344-366 | a search and its filing go wrong only if an erasure comes between them: whatever run without one does, commits and drivers' answers included, the filing meets its guard, for an announced device as for a visited one |
| DevicePresence.PresentExactly | services/native/driver_extension_manager/src/device_manager/etx_device_mgr.cpp:315-415 | in every run the manager knows exactly the devices announced that have not left since, told from the events: a device leaves at a detach without a live driver, or at the disconnect-done after a detach with one, and is marked in between; its remote is there exactly while a driver holds it |
| DevicePresence.GoneAndBack | services/native/driver_extension_manager/src/device_manager/device.cpp:195-220 | in every state, a device that is detached and whose driver has disconnected is gone, stays away through any run in which it is not announced, and can then be announced again, which attaches it |
| DriverStart.StartedInEveryRun | services/native/driver_extension_manager/src/device_manager/etx_device_mgr.cpp:70-117 | in every run, an attached device whose driver is not launched on bind has had it started: the recorded connection has the driver's own bundle and ability name and the number of the device, or, only once a driver of the device has disconnected, there is none |
| DriverStart.AttachStarts | services/native/driver_extension_manager/src/device_manager/etx_device_mgr.cpp:315-374 | what an announcement starts and answers: a driver launched on bind is left alone, any other is started and the answer is OK exactly when one of the 31 attempts succeeds |
| DriverStart.VisitStarts | services/native/driver_extension_manager/src/device_manager/etx_device_mgr.cpp:244-275 | a refresh starts the driver it finds for a device unless it is launched on bind, and otherwise leaves the connection alone |
| DriverStart.DetachAsks | services/native/driver_extension_manager/src/device_manager/etx_device_mgr.cpp:119-158 | in every run without a disconnect-done, the detach of a device that is alone in its entry, with a driver the manager started, asks the ability manager to stop it and returns its answer |
| DriverStart.DetachStops | services/native/driver_extension_manager/src/device_manager/etx_device_mgr.cpp:119-158 | a detach that takes the last id of an entry succeeds exactly when the connection was cleared or is the driver's own and the ability manager agrees; any other succeeds without asking |
| DriverStart.DisconnectForgets | services/native/driver_extension_manager/src/device_manager/device.cpp:195-220 | when the driver of an attached device disconnects, remote, clients and recorded connection go, so that the next start makes its first attempt; key, driver and entries stay |
| DriverRecord.RecordStays | services/native/driver_extension_manager/src/device_manager/etx_device_mgr.cpp:181-201 | without a driver change callback, in every sequence of steps, a device has the record of a driver exactly when it has been matched to one since it came, whether or not a row still matches it |
| MatchInvariant.TableInEveryRun | services/native/driver_extension_manager/src/device_manager/etx_device_mgr.cpp:70-158 | at every moment of every run the match table has no empty entry; each attached device that has a driver has its first match and is under its own key, or a refresh is due to release it and match it again; and any other id is only under a bundle whose update is pending |
| MatchInvariant.RunningUntouched | services/native/driver_extension_manager/src/device_manager/etx_device_mgr.cpp:222-275 | in every run, a refresh of one bundle leaves a device alone whose driver runs and that is in no entry of that bundle: driver, connection and clients stay, and it is in the same entries as before |
| MatchInvariant.EraseMeaning | services/native/driver_extension_manager/src/device_manager/etx_device_mgr.cpp:222-242 | an erasure takes the entries of exactly one bundle and returns exactly the ids they held |
| MatchInvariant.StepKeeps | services/native/driver_extension_manager/src/device_manager/etx_device_mgr.cpp:244-415 | every step that can happen and meets its guard (search, attach, detach, package commit, erasure, visit, end of a refresh, bind, unbind, connect-done, disconnect-done) keeps the invariant |
| MatchRefresh.RefreshIsSteps | services/native/driver_extension_manager/src/device_manager/bundle_update_callback.cpp:21-25 | the erasure, the visits in any order of the devices and the end, with nothing in between, are steps the service can take and amount to the whole refresh |
| MatchExamples.AnnouncedWhileErased | services/native/driver_extension_manager/src/device_manager/etx_device_mgr.cpp:315-374 | an announcement the guard excludes: a device whose entry is erased is announced again and is left under the key of a removed bundle once nothing is on its way |
| MatchExamples.DetachedWhileDisplaced | services/native/driver_extension_manager/src/device_manager/etx_device_mgr.cpp:119-158 | a detach the guard excludes: while another device is alone in the new entry, a device whose entry was erased is detached, which leaves the other with a running driver and without an entry |
| MatchExamples.FiledTooLate | services/native/driver_extension_manager/src/device_manager/etx_device_mgr.cpp:344-366 | a filing the guard excludes: a removal is committed and its erasure comes between search and filing, and the device keeps a driver that is gone once nothing is on its way |
| MatchExamples.RecordKeptExample | services/native/driver_extension_manager/src/device_manager/etx_device_mgr.cpp:181-201 | without a callback, a run after which a device that no row matches has no key but still the record of its former driver |
| UsbLimits.RoundTripExactly | frameworks/ddk/usb/usb_config_desc_parser.cpp:491-571 | a framed descriptor tree of any size, with any endpoint counts, comes back from the parse of its bytes with return value 0 if and only if its endpoint counts are exact and it is within the limits: at most 32 interfaces announced, 1 to 31 present, 128 settings each, 32 endpoints each, and a total size whose low eight bits are not below the header length |
| UsbLimits.EndpointBoundary | frameworks/ddk/usb/usb_config_desc_parser.cpp:215-235 | with an accepted header and an exact count, a tree of one setting comes back with value 0 when it has at most 32 endpoints, and is refused with a negative value when it has more |
| UsbOutcome.TreeOutcome | frameworks/ddk/usb/usb_config_desc_parser.cpp:441-571 | every outcome of the parser on every framed tree, whatever its endpoint counts, that is shorter than 27400002 bytes or declares at most 32 endpoints per setting: refused header, too many interfaces, whole, refused, negative, overrun or loop, as the run over the tree says |
| UsbOutcome.TailOutcome | frameworks/ddk/usb/usb_config_desc_parser.cpp:441-571 | every outcome of the parser on every framed tree followed by any bytes that start no descriptor, under the same bounds: refused header, too many interfaces, left over, refused, negative, overrun or loop, as the run over tree and bytes says |
| UsbRoundTrip.StrayTail | frameworks/ddk/usb/usb_config_desc_parser.cpp:441-486 | a tree with no more endpoints than declared, followed by bytes that start no descriptor: negative if the last setting lacks an endpoint and the search for it fails; else the tree comes back with up to two bytes left over; with more, the third is taken for an interface number: 401 if it is none, a loop if fewer than nine bytes are left, an overrun otherwise |
| UsbFailures.NeverReturnsExactly | frameworks/ddk/usb/usb_config_desc_parser.cpp:441-486 | a tree without surplus endpoints never makes the parser loop, and makes it write past the allocated slots if and only if the header is accepted, fewer than 32 interfaces are present, and some setting comes after 128 others of its interface with no setting before it declaring more than 32 endpoints |
| UsbFailures.SurplusOutcome | frameworks/ddk/usb/usb_config_desc_parser.cpp:448-483 | the first endpoint beyond the declared count is taken for an interface: if its address byte is not an interface number the parser returns 401, otherwise it does not return; it overruns when all settings of that interface are stored and an interface descriptor would fit in what is left, and loops when not |
| UsbFailures.UndeclaredEndpointExample | frameworks/ddk/usb/usb_config_desc_parser.cpp:325-334 | 27 bytes with one undeclared endpoint: an overrun with address 1, return value 401 with address 0x81 |
| UsbFailures.ZeroLengthExample | frameworks/ddk/usb/usb_config_desc_parser.cpp:324-376 | 21 bytes, a tree and three stray bytes that begin with zero and end with the number of an interface: the parser loops |
| UsbFailures.MissingEndpointExample | frameworks/ddk/usb/usb_config_desc_parser.cpp:181-185 | 18 bytes that end in a setting with one declared endpoint: a call below fails, the result is negative, nothing is handed out |
| UsbLimits.SucceedsExactly | frameworks/ddk/usb/usb_config_desc_parser.cpp:491-571 | the parser reports success with nothing left over for exactly those trees within the limits that have no surplus endpoint and an exact count in the last setting |
| UsbRoundTrip.LenientRoundTrip | frameworks/ddk/usb/usb_config_desc_parser.cpp:237-265 | a tree with no more endpoints than declared comes back with each count cut to the endpoints present if the last count is exact; otherwise the result is negative and nothing is handed out |
| UsbRoundTrip.RoundTrip | frameworks/ddk/usb/usb_config_desc_parser.cpp:320-376 | parsing the encoding of any well-formed tree, interfaces interleaved or not, ends, writes no slot past the allocated ones, returns 0, and yields the tree: interfaces by first appearance, settings in wire order, extra bytes, endpoints, little-endian fields |
| UsbDescriptor.ParseUsbConfigDescriptor | frameworks/ddk/usb/usb_config_desc_parser.cpp:550-571 | computes the functional parse; a caller handed a configuration owns exactly its blocks, a caller handed none finds the heap as it was |
| UsbDescriptor.ParseThenFree | frameworks/ddk/usb/usb_config_desc_parser.cpp:378-439 | for every buffer on which the parse returns (`UsbAccounting.ParseResults` says exactly which), parsing and releasing leaves the heap as it was: each block is deleted once, replaced extra buffers included |
| UsbDescriptor.ParseThenFreeTree | frameworks/ddk/usb/usb_config_desc_parser.cpp:378-439 | on the bytes of any tree with no more endpoints than declared the parse returns and releasing leaves the heap as it was; the return value is 0 if the last count is exact and negative if not |
| UsbDescriptor.ParseTree | frameworks/ddk/usb/usb_config_desc_parser.cpp:550-571 | on the bytes of a well-formed tree the caller gets 0 and that tree, and owns exactly its blocks |
| UsbAccounting.ParseResults | frameworks/ddk/usb/usb_config_desc_parser.cpp:491-571 | what becomes of every buffer shorter than 27400002 bytes: an overrun exactly when some call comes to a setting without a slot, a loop exactly when some iteration makes no progress; otherwise 27400002, with nothing but the header handed out, exactly when one of the five tests of the header fails or no interface descriptor is met; negative exactly when a call below returned an error code, 401 exactly when 32 interfaces are present or an unrecorded number is met, and else 0 to 2 leftover bytes with every other byte accounted for |
| UsbCounting.FirstPassCounts | frameworks/ddk/usb/usb_config_desc_parser.cpp:267-318 | on any buffer the first pass finds the interface numbers met on the walk over it, by first appearance and up to 32, and counts each as often as it was met, up to 128 times; it finds none exactly when none is met |
| UsbAccounting.SizesFit | frameworks/ddk/usb/usb_config_desc_parser.cpp:320-486 | no remaining size and no result computed by the second pass leaves the range of a 32-bit integer, however many error codes are added to the cursor |
| UsbAccounting.IdleMeaning | frameworks/ddk/usb/usb_config_desc_parser.cpp:320-376 | ParseInterface consumes nothing exactly when fewer than nine bytes are left, or what it meets with a slot to spare is no interface descriptor or is longer than what is left |
| PackageStore.PkgDbHelper.AddOrUpdatePkgInfo | services/native/driver_extension_manager/src/drivers_pkg_manager/pkg_db_helper.cpp:80-126 | whatever operations fail: either a negative result and the table unchanged, or the old rows without the bundle followed by the new ones; success exactly when none of its operations fails, three and one for each row, and every row id is non-negative in 32 bits; no transaction left open |
| PackageStore.FirstIdTooLarge | services/native/driver_extension_manager/src/drivers_pkg_manager/pkg_db_helper.cpp:113-118 | the first row id past 31 bits is taken for an error code |
| DriverPackages.CommitKeepsOtherMatches | services/native/driver_extension_manager/src/drivers_pkg_manager/pkg_db_helper.cpp:80-126 | replacing the rows of bundle X never changes the first match of a device that another bundle serves |
| BoundCallers.UnbindAsks | services/native/driver_extension_manager/src/device_manager/etx_device_mgr.cpp:556-644 | after every run, an unbind calls the controller to disconnect the driver exactly when the driver is launched on bind, the client is the only one recorded, told from the history of requests, and the connection is not cleared already; never while another client is active |
| BoundCallers.CallersAsked | services/native/driver_extension_manager/src/device_manager/etx_device_mgr.cpp:584-607 | in every run, each client a device records has asked to be bound, with access and with a registered callback, in a bind that succeeded and after which the driver has not disconnected |
| BoundCallers.RefusedBind | services/native/driver_extension_manager/src/device_manager/etx_device_mgr.cpp:596-607 | in every state, a bind without access or without a registered callback changes nothing and returns the error of the check that failed |
| BoundCallers.StatusTold | services/native/driver_extension_manager/src/device_manager/etx_device_mgr.cpp:556-644 | a bind succeeds exactly when the device is known, the client has access and a registered callback, and the driver runs or is started; an unbind exactly when the device is known and has a driver, the client is bound if it asks as the driver, and the driver can be stopped if this was its last client |
| BoundCallers.LeftBehindStays | services/native/driver_extension_manager/src/device_manager/device.cpp:144-157 | when the connection is cleared already, the unbind of the last client succeeds whatever the ability manager would answer, changes nothing, and leaves the client recorded |
| MatchExamples.LeftBehindExample | services/native/driver_extension_manager/src/device_manager/device.cpp:144-220 | a run that leaves a client behind: it disconnects and reconnects the driver between two binds |
| BoundCallers.CallersExactly | services/native/driver_extension_manager/src/device_manager/device.cpp:96-220 | in every run the callers a device records are the active ones of the history together with those that were the last client of a driver launched on bind when they unbound with success, which the device does not forget; and those it has as bound are the ones that found the driver running or were there when it connected |
| DeviceSpec.ConnectMeaning | services/native/driver_extension_manager/src/device_manager/device.cpp:61-94 | at most 31 attempts; the result is positive exactly when the first attempt was not refused as stale and succeeded, or one of the 30 retries succeeded; in the end the recorded connection is that of the current bundle whether or not an attempt succeeded, the remote is lost after the first, and nothing else changes |
| DeviceSpec.DisconnectAfterConnect | services/native/driver_extension_manager/src/device_manager/driver_extension_controller.cpp:154-189 | after a successful connect and no rematch, a disconnect passes the check of names and gets the ability manager's own answer |
| DeviceSpec.DisconnectMeaning | services/native/driver_extension_manager/src/device_manager/driver_extension_controller.cpp:154-189 | a disconnect succeeds exactly when the connection was cleared already or is that of the current bundle and the ability manager agrees; the error of every other case |
| ScsiFormats.FormatIndependence | frameworks/ddk/scsi/scsi_ddk_api.cpp:177-327 | the same data in fixed and in descriptor format decodes to the same result apart from the response code if and only if the information is marked valid or the caller's record already held it |
| ScsiFormats.InvalidInformationDiffers | frameworks/ddk/scsi/scsi_ddk_api.cpp:260-327 | information that is not marked valid: the fixed format keeps 7 from the caller's record, the descriptor format takes 5 from the device |
| ScsiFormats.StandardDescriptors | frameworks/ddk/scsi/scsi_ddk_api.cpp:284-301 | the three descriptors a device writes for such data, behind an unknown one, meet the conditions of format independence |
| ScsiFormats.DescriptorRoundTrip | frameworks/ddk/scsi/scsi_ddk_api.cpp:260-308 | decoding any list of descriptors, in any order and with unknown ones between, gives what the descriptors say, whatever lies behind the data and however much of it the length passed takes in, and without reading past the buffer |
| ScsiFormats.CompleteOnesCount | frameworks/ddk/scsi/scsi_ddk_api.cpp:260-308 | on any buffer, what the descriptors say that are complete by the end of the data, where the length passed or the length announced ends it; a descriptor cut off there and everything behind it is ignored |
| ScsiFormats.CutOffOverReads | frameworks/ddk/scsi/scsi_ddk_api.cpp:276-282 | any list of descriptors followed by the type of one more is read one byte past its end |
| ScsiSense.OverReadExample | frameworks/ddk/scsi/scsi_ddk_api.cpp:276-282 | nine bytes that are read one byte past their end |
| ScsiFormats.FixedRoundTrip | frameworks/ddk/scsi/scsi_ddk_api.cpp:310-327 | decoding fixed-format data gives back its fields, leaving the information alone when it is not valid |
| ScsiSense.LastWins | frameworks/ddk/scsi/scsi_ddk_api.cpp:276-305 | of the complete descriptors the last one of each kind with the right length decides the field; without one the field keeps its value |
| ScsiSense.DecodedExactly | frameworks/ddk/scsi/scsi_ddk_api.cpp:800-821 | which sense data is decoded: codes 0x70 and 0x71 with at least 18 bytes, 0x72 and 0x73 with at least 8; any other gives 401 and leaves the record alone but for the response code |
| ScsiMemMap.Exchange | frameworks/ddk/scsi/scsi_ddk_api.cpp:94-124 | over normalise, device write and restore, overlapping or not, every byte of the buffer is known: transferred bytes are at the offset, all others where the device left them, and the device left what it wrote, then the rest of the window, then what was there |
| ScsiMemMap.IdleExchange | frameworks/ddk/scsi/scsi_ddk_api.cpp:94-124 | with full length reported and nothing written, the window is unchanged and every byte of the buffer is known |
| DeviceParcel.ListRoundTrip | services/native/driver_extension_manager/src/driver_ext_mgr_types.cpp:150-314 | a concatenation of marshalled device infos is read back whole, consuming exactly what was written, if and only if each is of the USB bus and has at most 512 interfaces; otherwise the read fails |
| LaunchConfig.UsesCloudMeaning | services/native/driver_extension_manager/src/app_launch_manager/app_launch_config.cpp:110-171 | for four numeric segments the updated file is taken exactly when the preset version is not higher by number, unless the first difference is one of leading zeros only |
| LaunchConfig.UsesCloudExactly | services/native/driver_extension_manager/src/app_launch_manager/app_launch_config.cpp:110-171 | which file is taken for any two versions: by the number of segments, and then by the first segments that differ, which must both be 32-bit numbers with the preset one the smaller for the updated file to be taken |
| LaunchConfig.TenExceedsNine | services/native/driver_extension_manager/src/app_launch_manager/app_launch_config.cpp:118-137 | segments are compared as numbers: 10 is higher than 9 |
| LaunchConfig.KeysDiffer | services/native/driver_extension_manager/src/app_launch_manager/app_launch_config.cpp:173-176 | different devices have different keys |
| LaunchConfig.EntryExactly | services/native/driver_extension_manager/src/app_launch_manager/app_launch_config.cpp:258-294 | a device has the entry of the last item with its 16-bit numbers and three texts that are not white only, each text trimmed, and none exactly when there is no such item |
| LaunchConfig.AppLaunchConfig.FindEntry | services/native/driver_extension_manager/src/app_launch_manager/app_launch_config.cpp:192-203 | finds the entry of the last valid item for the device in the loaded file, and only that |
| DriverPackages.FirstMatchMeaning | services/native/driver_extension_manager/src/drivers_pkg_manager/driver_pkg_manager.cpp:144-154 | from the fields of rows and device: the device gets the driver of the first row whose bus spells u-s-b in either case and which lists its vendor and its product, provided the device is of bus type 1, and none exactly when there is no such row; the driver has the names of the row, what its text says, and its uid or else its key |
| DriverPackages.NothingServes | services/native/driver_extension_manager/src/bus_extension/usb/usb_bus_extension.cpp:148-180 | a device of another bus, or one whose vendor no row lists, or whose product no row lists, or a table without a row for USB: no driver |
| DriverPackages.MatchesMeaning | services/native/driver_extension_manager/src/bus_extension/usb/usb_bus_extension.cpp:148-180 | the comparison of bus name, bus type, vendor and product is the one on the fields |
| DriverPackages.QueryMatchDriver | services/native/driver_extension_manager/src/drivers_pkg_manager/driver_pkg_manager.cpp:114-159 | the loop over the rows returns the driver of the first row that serves the device, told from the fields, and none exactly when no row does; a row without a uid gets its key for a uid (utils/include/ext_object.h:41-49) |
| DriverPackages.SplitKey | services/native/driver_extension_manager/src/device_manager/device.cpp:26-46 | splitting a bundle info gives back bundle and ability, provided the bundle name has no dash |
| DriverPackages.PrefixIsBundle | services/native/driver_extension_manager/src/device_manager/etx_device_mgr.cpp:230-233 | the prefix test selects the keys of exactly one bundle |
| DriverPackages.DeletedMeaning | services/native/driver_extension_manager/src/drivers_pkg_manager/pkg_db_helper.cpp:89-96 | deleting a bundle keeps exactly the rows of the other bundles, deleting everything keeps none |
| DriverPackages.CommittedMeaning | services/native/driver_extension_manager/src/drivers_pkg_manager/pkg_db_helper.cpp:80-126 | which rows are in the table after an update: the new ones, last and in order, and those of other bundles; none but the new ones when the update has no name |
| MatchSpec.IdNamesItsBus | utils/include/ext_object.h:135-147 | a device id determines bus type and bus device id, so the map per bus type is named by the id |
| DeviceSpec.BindMeaning | services/native/driver_extension_manager/src/device_manager/device.cpp:96-142 | the whole state after a bind, for every state, callback registration and answer: refused, bound at once, started, or forgotten; other clients are untouched |
| DeviceObject.Device.AddBundleInfo | services/native/driver_extension_manager/include/device_manager/device.h:58-65 | the device takes over key, uid and driver |
| DeviceObject.Device.RemoveBundleInfo | services/native/driver_extension_manager/include/device_manager/device.h:72-76 | key and uid go, the driver record stays |
| DeviceObject.Device.ConnectDriverExtension | services/native/driver_extension_manager/src/device_manager/driver_extension_controller.cpp:113-153 | refuses a missing callback and one with a recorded connection; otherwise records the names before asking |
| DeviceObject.Device.DisconnectDriverExtension | services/native/driver_extension_manager/src/device_manager/driver_extension_controller.cpp:154-189 | refuses a missing connection and one of other names; otherwise the ability manager answers |
| DeviceObject.Device.Connect | services/native/driver_extension_manager/src/device_manager/device.cpp:61-94 | the retry loop takes the step of the functional connect |
| DeviceObject.Device.ConnectClient | services/native/driver_extension_manager/src/device_manager/device.cpp:96-142 | takes the step of the functional bind |
| DeviceObject.Device.Disconnect | services/native/driver_extension_manager/src/device_manager/device.cpp:144-174 | takes the step of the functional disconnect |
| DeviceObject.Device.DisconnectClient | services/native/driver_extension_manager/src/device_manager/etx_device_mgr.cpp:566-582 | takes the step of the functional unbind, for both variants |
| DeviceObject.Device.OnConnect | services/native/driver_extension_manager/src/device_manager/device.cpp:176-193 | the remote is recorded and every waiting client is bound |
| DeviceObject.Device.OnDisconnect | services/native/driver_extension_manager/src/device_manager/device.cpp:195-220 | remote, connection and clients are forgotten |
| DeviceManager.ExtDeviceManager.AddDevIdOfBundleInfoMap | services/native/driver_extension_manager/src/device_manager/etx_device_mgr.cpp:70-117 | adds the id under the key of the device and starts its driver unless a client is to |
| DeviceManager.ExtDeviceManager.RemoveDevIdOfBundleInfoMap | services/native/driver_extension_manager/src/device_manager/etx_device_mgr.cpp:119-158 | removes the id, or the entry with its last id, in which case the driver is disconnected |
| DeviceManager.ExtDeviceManager.RemoveDriverInfo | services/native/driver_extension_manager/src/device_manager/etx_device_mgr.cpp:181-201 | the driver is forgotten only when a change callback is registered |
| DeviceManager.ExtDeviceManager.RegisterDevice | services/native/driver_extension_manager/src/device_manager/etx_device_mgr.cpp:315-374 | takes the attach step |
| DeviceManager.ExtDeviceManager.UnRegisterDevice | services/native/driver_extension_manager/src/device_manager/etx_device_mgr.cpp:376-415 | takes the detach step; a device a running driver holds stays, marked |
| DeviceManager.ExtDeviceManager.RemoveDeviceOfDeviceMap | services/native/driver_extension_manager/src/device_manager/etx_device_mgr.cpp:203-220 | removes exactly that device |
| DeviceManager.ExtDeviceManager.DeleteBundlesOfBundleInfoMap | services/native/driver_extension_manager/src/device_manager/etx_device_mgr.cpp:222-242 | erases the entries of the bundle and returns exactly the ids they held; with an empty name erases everything and returns none |
| DeviceManager.ExtDeviceManager.MatchOneDevice | services/native/driver_extension_manager/src/device_manager/etx_device_mgr.cpp:249-273 | releases a device of an erased entry and looks for a driver unless it is detached or connected |
| DeviceManager.ExtDeviceManager.MatchDriverInfos | services/native/driver_extension_manager/src/device_manager/etx_device_mgr.cpp:244-275 | visiting the devices in any order takes the functional rematch |
| MatchRefresh.MatchedStep | services/native/driver_extension_manager/src/device_manager/etx_device_mgr.cpp:248-274 | visiting one more device extends the rematch by that device, whatever was visited before |
| DeviceManager.ExtDeviceManager.OnBundlesUpdated | services/native/driver_extension_manager/src/device_manager/bundle_update_callback.cpp:21-25 | erase, then rematch: the refresh step |
| DeviceManager.ExtDeviceManager.ConnectDevice | services/native/driver_extension_manager/src/device_manager/etx_device_mgr.cpp:542-607 | takes the bind step, after the access check |
| DeviceManager.ExtDeviceManager.DisconnectDevice | services/native/driver_extension_manager/src/device_manager/etx_device_mgr.cpp:556-644 | takes the unbind step |
| DeviceManager.ExtDeviceManager.OnConnectDone | services/native/driver_extension_manager/src/device_manager/device.cpp:295-306 | takes the connect-done step |
| DeviceManager.ExtDeviceManager.OnDisconnectDone | services/native/driver_extension_manager/src/device_manager/device.cpp:308-319 | takes the disconnect-done step; a marked device goes |
| MatchInvariant.AttachKeeps | services/native/driver_extension_manager/src/device_manager/etx_device_mgr.cpp:315-374 | attaching keeps the invariant whenever the guard is met: the device is new, is filed, or is filed again under a key that is right or being updated; what was found is still the first match, or a refresh that will match the device again is to come |
| MatchInvariant.CommitKeeps | services/native/driver_extension_manager/src/drivers_pkg_manager/drv_bundle_state_callback.cpp:456-481 | a commit whose refresh is pending keeps the invariant |
| MatchInvariant.DetachKeeps | services/native/driver_extension_manager/src/device_manager/etx_device_mgr.cpp:376-415 | detaching keeps the invariant whenever the guard is met: if an entry goes with its last id, each device in it does without it |
| MatchInvariant.EraseKeeps | services/native/driver_extension_manager/src/device_manager/etx_device_mgr.cpp:222-242 | an erasure keeps the invariant: each device whose entry goes is one the refresh will visit |
| MatchInvariant.VisitKeeps | services/native/driver_extension_manager/src/device_manager/etx_device_mgr.cpp:248-274 | a visit keeps the invariant, whatever happened since the erasure; one that files an earlier search does when its guard is met |
| MatchInvariant.FinishKeeps | services/native/driver_extension_manager/src/device_manager/etx_device_mgr.cpp:244-275 | the end of a refresh that has visited every device keeps the invariant |
| MatchInvariant.DisconnectKeeps | services/native/driver_extension_manager/src/device_manager/device.cpp:195-220 | a driver that has disconnected keeps the invariant |
| MatchInvariant.ClientKeeps | services/native/driver_extension_manager/src/device_manager/device.cpp:96-193 | steps that touch only a connection keep the invariant |
| MatchInvariant.NamelessRefreshForgets | services/native/driver_extension_manager/src/device_manager/etx_device_mgr.cpp:227-228 | why refreshes without a name are not among the steps: afterwards a connected device keeps its driver and is in no entry, any other is exactly where the rematch puts it |
| MatchInvariant.LookUpKeeps | services/native/driver_extension_manager/src/drivers_pkg_manager/driver_pkg_manager.cpp:114-159 | a search whose result is still to be filed keeps the invariant |
| BundleState.DrvBundleStateCallback.UpdateToRdb | services/native/driver_extension_manager/src/drivers_pkg_manager/drv_bundle_state_callback.cpp:456-481 | commits and schedules the refresh exactly when none of its operations fails and the row ids fit, nothing otherwise; without a registered callback the table changes and no refresh is due |
| BundleState.DrvBundleStateCallback.OnBundleDrvRemoved | services/native/driver_extension_manager/src/drivers_pkg_manager/drv_bundle_state_callback.cpp:531-554 | the commit step without new rows exactly when none of the three operations after the query fails, nothing otherwise; the query itself may fail without consequence |
| BundleState.DrvBundleStateCallback.OnBundleUpdated | services/native/driver_extension_manager/src/drivers_pkg_manager/drv_bundle_state_callback.cpp:245-274 | works exactly when the package has a name and can be queried and none of the operations fails, three and one for each row for an update, three after the query for a removal, with fitting row ids; then the rows of the bundle are those found, and the refresh is due if a callback is registered; otherwise nothing changes |
| BundleState.DrvBundleStateCallback.Refresh | services/native/driver_extension_manager/src/drivers_pkg_manager/drv_bundle_state_callback.cpp:469-478 | the scheduled thread takes the whole refresh |
| PackageStore.PkgDbHelper.DeleteAndNoOtherOperation | services/native/driver_extension_manager/src/drivers_pkg_manager/pkg_db_helper.cpp:45-66 | deletes the selected rows or changes nothing; succeeds exactly when none of its three operations fails |
| PackageStore.PkgDbHelper.DeleteRightRecord | services/native/driver_extension_manager/src/drivers_pkg_manager/pkg_db_helper.cpp:68-78 | deletes the rows of one bundle or changes nothing |
| PackageStore.PkgDbHelper.CheckIfNeedUpdateEx | services/native/driver_extension_manager/src/drivers_pkg_manager/pkg_db_helper.cpp:156-179 | says whether the ability is there, or rolls back |
| PackageStore.PkgDbHelper.AddOrUpdateRightRecordEx | services/native/driver_extension_manager/src/drivers_pkg_manager/pkg_db_helper.cpp:181-204 | updates the rows with the ability or inserts a record, as told, or rolls back |
| PackageStore.PkgDbHelper.AddOrUpdateRightRecord | services/native/driver_extension_manager/src/drivers_pkg_manager/pkg_db_helper.cpp:128-154 | an upsert or no change; success exactly when none of its four operations fails and a new id fits |
| PackageStore.UpsertMeaning | services/native/driver_extension_manager/src/drivers_pkg_manager/pkg_db_helper.cpp:128-154 | an upsert changes the two columns written, in the rows with the ability and nothing else, or adds one row with empty other columns; a later one overwrites it |
| PackageStore.SelectedMeaning | services/native/driver_extension_manager/src/drivers_pkg_manager/pkg_db_helper.cpp:267-310 | a query fetches exactly the five columns of the rows of the bundle, or of all rows |
| PackageStore.PkgDbHelper.QueryPkgInfos | services/native/driver_extension_manager/src/drivers_pkg_manager/pkg_db_helper.cpp:267-310 | the fetched columns of the rows of one bundle or all, or a negative result and none; the table is never changed |
| PackageStore.QueryAfterUpdate | services/native/driver_extension_manager/src/drivers_pkg_manager/pkg_db_helper.cpp:80-126 | after an update of X, asking for X finds exactly the new rows and asking for another bundle finds what it found before |
| PackageStore.PkgDataBase.Insert | services/native/driver_extension_manager/src/drivers_pkg_manager/pkg_database.cpp:96-110 | returns the id of the new row, or a failure and no row |
| PackageStore.PkgDataBase.Commit | services/native/driver_extension_manager/src/drivers_pkg_manager/pkg_database.cpp:68-80 | a failed commit publishes nothing and leaves the transaction open |
| UsbParser.FindNextDescriptor | frameworks/ddk/usb/usb_config_desc_parser.cpp:115-134 | how many bytes of unknown descriptors lie ahead |
| UsbParser.FillExtraDescriptor | frameworks/ddk/usb/usb_config_desc_parser.cpp:136-174 | a new block with old and new bytes replaces the old block |
| UsbParser.ParseEndpoint | frameworks/ddk/usb/usb_config_desc_parser.cpp:176-213 | computes one endpoint and the value returned; allocates exactly its extra block |
| UsbParser.ParseInterfaceEndpoint | frameworks/ddk/usb/usb_config_desc_parser.cpp:237-265 | fills the endpoint slots in order, cuts the count at the first missing one |
| UsbParser.ParseAlt | frameworks/ddk/usb/usb_config_desc_parser.cpp:341-365 | computes one setting and allocates exactly its blocks |
| UsbParser.ParseInterface | frameworks/ddk/usb/usb_config_desc_parser.cpp:320-376 | computes the settings of one interface from its first free slot on, and reports a write past the last slot |
| UsbParser.GetInterfaceNumber | frameworks/ddk/usb/usb_config_desc_parser.cpp:267-318 | computes numbers and slot counts |
| UsbParser.ParseConfigurationDes | frameworks/ddk/usb/usb_config_desc_parser.cpp:441-486 | computes the second pass; the heap stays what it was plus the blocks of the configuration |
| UsbDescriptor.ParseConfiguration | frameworks/ddk/usb/usb_config_desc_parser.cpp:491-548 | computes both passes |
| UsbDescriptor.AllocateInterfaces | frameworks/ddk/usb/usb_config_desc_parser.cpp:528-542 | one array of cleared slots per interface, as large as counted |
| UsbRelease.ClearInterface | frameworks/ddk/usb/usb_config_desc_parser.cpp:386-419 | deletes exactly the blocks of one interface |
| UsbRelease.FreeUsbConfigDescriptor | frameworks/ddk/usb/usb_config_desc_parser.cpp:573-582 | deletes exactly the blocks of the configuration, each once |
| UsbSecondPass.EndpointRoundTrip | frameworks/ddk/usb/usb_config_desc_parser.cpp:176-213 | an encoded endpoint comes back with its extra bytes |
| UsbSecondPass.AltIsAt | frameworks/ddk/usb/usb_config_desc_parser.cpp:341-365 | an encoded setting comes back with its extra bytes and the endpoints both declared and present, and the cursor ends where the missing or surplus endpoint leaves it |
| UsbFirstPass.FirstPass | frameworks/ddk/usb/usb_config_desc_parser.cpp:267-318 | the first pass on a framed tree, with or without stray bytes behind it, finds the interface numbers by first appearance, up to 32, and counts the settings of each, up to 128 |
| UsbRoundTrip.SlotsAllUsed | frameworks/ddk/usb/usb_config_desc_parser.cpp:528-542 | on a well-formed tree exactly the slots counted for an interface are used |
| UsbSecondPass.OuterRun | frameworks/ddk/usb/usb_config_desc_parser.cpp:441-486 | the outer loop on the bytes of a tree and any stray bytes behind them does what the run over the tree does |
| UsbRoundTrip.DistributeMeaning | frameworks/ddk/usb/usb_config_desc_parser.cpp:465-475 | settings end up under their interface number, in wire order |
| UsbLayout.Le16Inverse | frameworks/ddk/usb/usb_config_desc_parser.cpp:47-52 | little-endian fields come back |
| UsbAccounting.BodyAccount | frameworks/ddk/usb/usb_config_desc_parser.cpp:441-486 | for every buffer shorter than 27400002 bytes: when the second pass overruns or loops, and otherwise that bytes consumed are bytes stored and failures below are negative results |
| UsbAccounting.AltsAccount | frameworks/ddk/usb/usb_config_desc_parser.cpp:320-376 | for every buffer shorter than 27400002 bytes: the settings stored account for the bytes consumed |
| UsbAccounting.CountsBounded | frameworks/ddk/usb/usb_config_desc_parser.cpp:267-318 | no more than 128 settings are ever counted for an interface |
| UsbLimits.SizeTruncationRefuses | frameworks/ddk/usb/usb_config_desc_parser.cpp:500-507 | a well-made configuration of 256 bytes is refused with a positive code, and an empty configuration is handed out |
| ScsiSense.BasicSenseInfo.ParseDescriptorFormatSense | frameworks/ddk/scsi/scsi_ddk_api.cpp:260-308 | for every buffer at least as long as the length passed: the loop equals the walk over complete descriptors, its 8-bit index never wraps, and it reads a byte behind the buffer, whose value does not matter, if and only if the walk stops one byte before the end of the buffer |
| ScsiSense.BasicSenseInfo.ParseFixedFormatSense | frameworks/ddk/scsi/scsi_ddk_api.cpp:310-327 | decodes the fixed fields |
| ScsiSense.BasicSenseInfo.ParseBasicSenseInfo | frameworks/ddk/scsi/scsi_ddk_api.cpp:800-821 | selects the decoder by response code; it reads behind the buffer if and only if the buffer is empty or holds the descriptor format and the decoder of that does |
| ScsiSense.Uint24IsBigEndian | frameworks/ddk/scsi/scsi_ddk_api.cpp:177-184 | three bytes, most significant first |
| ScsiSense.Uint32IsBigEndian | frameworks/ddk/scsi/scsi_ddk_api.cpp:186-194 | four bytes, most significant first |
| ScsiFormats.Uint64At | frameworks/ddk/scsi/scsi_ddk_api.cpp:196-208 | eight encoded bytes come back |
| ScsiMemMap.DeviceMemMap.ValidateMemMap | frameworks/ddk/scsi/scsi_ddk_api.cpp:75-92 | accepts exactly the windows that lie in the buffer and are not empty |
| ScsiMemMap.DeviceMemMap.NormalizeMemMap | frameworks/ddk/scsi/scsi_ddk_api.cpp:94-108 | moves the window to the front, or refuses and changes nothing |
| ScsiMemMap.DeviceMemMap.RestoreMemMap | frameworks/ddk/scsi/scsi_ddk_api.cpp:110-124 | moves the transferred bytes back, as many as fit |
| ScsiMemMap.DeviceSeesWindow | frameworks/ddk/scsi/scsi_ddk_api.cpp:94-108 | the device sees the window at index 0 |
| ScsiMemMap.CallerSeesTransfer | frameworks/ddk/scsi/scsi_ddk_api.cpp:110-124 | what the device left at the front ends up at the offset |
| DeviceParcel.InfoRoundTrip | services/native/driver_extension_manager/src/driver_ext_mgr_types.cpp:150-304 | one device info is read back if and only if it is readable |
| DeviceParcel.CutOffReads | services/native/driver_extension_manager/src/driver_ext_mgr_types.cpp:232-304 | a parcel that was cut off: without id, match state and uid nothing is read, every number missing after them reads as zero |
| DeviceParcel.Parcel.Marshalling | services/native/driver_extension_manager/src/driver_ext_mgr_types.cpp:150-230 | writes id, flags, uid, product, vendor, count and interfaces in that order |
| DeviceParcel.Parcel.Unmarshalling | services/native/driver_extension_manager/src/driver_ext_mgr_types.cpp:232-304 | reads them back, failing where a checked read or a range test fails |
| DeviceParcel.MaskReadsBusType | services/native/driver_extension_manager/src/driver_ext_mgr_types.cpp:275-278 | the bus type read off a packed id is right exactly when it fits 28 bits |
| DeviceParcel.MaskedToUsb | services/native/driver_extension_manager/src/driver_ext_mgr_types.cpp:275-278 | bus type 0x10000001 is the first that reads as USB without being it |
| LaunchConfig.CompareMeaning | services/native/driver_extension_manager/src/app_launch_manager/app_launch_config.cpp:110-142 | the comparison is the one by number unless leading zeros decide |
| LaunchConfig.LeadingZeroExample | services/native/driver_extension_manager/src/app_launch_manager/app_launch_config.cpp:118-137 | a version equal by number for which the preset file is taken |
| LaunchConfig.CompareVersion | services/native/driver_extension_manager/src/app_launch_manager/app_launch_config.cpp:110-142 | the loop computes the functional comparison, overflow and non-digits included |
| LaunchConfig.GetHigherVersionPath | services/native/driver_extension_manager/src/app_launch_manager/app_launch_config.cpp:144-171 | which file is used for every pair of versions, well-formed or not |
| LaunchConfig.Trim | services/native/driver_extension_manager/src/app_launch_manager/app_launch_config.cpp:35-44 | removes white space at both ends |
| LaunchConfig.TrimmedMeaning | services/native/driver_extension_manager/src/app_launch_manager/app_launch_config.cpp:35-44 | and nothing else |
| LaunchConfig.AppLaunchConfig.ParseDeviceItemTo | services/native/driver_extension_manager/src/app_launch_manager/app_launch_config.cpp:258-294 | a valid item overrides the entry of its device, any other is skipped |
| LaunchConfig.AppLaunchConfig.LoadConfig | services/native/driver_extension_manager/src/app_launch_manager/app_launch_config.cpp:178-190 | replaces the entries by those of the file that goes with the higher version; when that file cannot be read the entries stay and the other file is not tried |

## Left out

- UsbParser.ParseInterface: at a setting without a slot the model stops with the outcome `Overrun`; what the code then
  overwrites is not described. `UsbAccounting.ParseResults` and `UsbFailures.NeverReturnsExactly` say when that happens.
- UsbParser.ParseConfigurationDes: at an iteration without progress the model stops with the outcome `Looping`;
  `UsbAccounting.ParseResults` and `UsbFailures.SurplusOutcome` say when that happens.
- UsbDescriptor.ParseConfiguration: the same two outcomes end it, and the heap is not described then.
- UsbDescriptor.ParseThenFree: releasing is stated for the buffers on which the parse returns, which
  `UsbAccounting.ParseResults` characterises.
- UsbAccounting.ParseResults: longer buffers, in which a positive error code added to the cursor could still point into
  the buffer, are not covered.
- UsbParser.ParseInterfaceEndpoint: the endpoint array is filled in place and then held as an immutable block, because
  nothing changes it afterwards until it is deleted.
- UsbParser.ParseEndpoint: the slot is returned instead of written through a reference.
- UsbDescriptor.AllocateInterfaces: the interface array is allocated after the setting arrays, not before; only the set
  of blocks is modelled, and allocation never fails.
- DeviceManager.ExtDeviceManager.RegisterDevice: one map of devices stands for the map per bus type, which the id names
  (`MatchSpec.IdNamesItsBus`).
- DeviceManager.ExtDeviceManager.MatchDriverInfos: the rows are read once for all devices instead of once per device;
  the table does not change within a step.
- DeviceObject.Device.ConnectClient: the set of client callbacks is not modelled; its comparator treats all callbacks
  as equal, so who is notified is not what the code intends. Only the result of registering one is a parameter.
- PackageStore.PkgDbHelper.QueryPkgInfos: the query by driver uid is not modelled, and a driver does not carry the user
  id, which serves account switching only.
- DeviceManager.ExtDeviceManager.OnBundlesUpdated: runs without interruption; what may come in between is described by
  the steps of `MatchSpec`, to which `MatchRefresh.RefreshIsSteps` relates it.
- DeviceParcel.Parcel.Marshalling: a parcel is a sequence of typed cells; byte layout, alignment and write failures
  belong to a library that is not part of this model.
- LaunchConfig.AppLaunchConfig.LoadConfig: reading files, JSON, hexadecimal numbers and the splitting of the version
  line are parameters.
- Account switching (`ClearMatchedDrivers`) clears the whole match table while some devices keep their driver; the
  invariant is not its to keep.
- A refresh without a bundle name is modelled but is not among the steps; `MatchInvariant.NamelessRefreshForgets` says
  what it does.
- Threads, lock order, the unload timer, sleeping between attempts, event reports, notifications, permission checks,
  bindings and proxies.
- The JSON form of driver information: a row carries what would be read back from it.
- The fault map, the other marshalled types, the HID, serial and pipe wrappers: they would add easy members only.
