# Verified model of the Anjay demo client

Anjay is an LwM2M client library; its demo client shows how an application stores firmware images, downloads
resources, keeps object instances and answers transactions. This project models the demo's stateful core in Dafny
and proves what every step, run and interleaving of it keeps. It holds no code of the original.

`dafny verify dfyconfig.toml` verifies everything.

## What is modelled

- **Image integrity** (`Words`, `Folds`, `ShiftRegisters`, `Crc32`, `FileCrc`, `CompareImages`). The demo computes a
  table-driven CRC-32 in an unusual form: start value 0, inverted bit test, a correction by `0xFF000000`, no final
  XOR, and a table filled on first use. It is proved equal to the bit-serial CRC-32 of section 8 of RFC 1952, for
  every file and every way of reading it in chunks. The CRC itself is proved to detect every change confined to 32
  consecutive bits, hence to four consecutive bytes; five bytes are not enough, and a colliding pair is given.
- **Advanced firmware update** (`Bytes`, `Stdio`, `FirmwareFormat`, `FirmwareReader`, `FirmwareSlots`, `Conflicts`,
  `FirmwareProtocol`, `BundleDelivery`, `FinishEffects`, `FirmwareDownload`, `FirmwareUpdate`, `FirmwareUpgrade`,
  `FirmwareRuns`, `UpgradeSafety`).
  `FirmwareFormat` says what a bundle means as a function of its bytes; `FirmwareReader` reads it through a C stream
  and is proved against that function. `FirmwareSlots` and `FirmwareProtocol` describe the table of four image slots,
  the files on disk and the steps open, write, finish and reset as functions and relations on values.
  `FirmwareUpdate` is the imperative code: a class whose handlers stage, commit, validate and mark in place and are
  proved to perform exactly those steps. `FirmwareUpgrade` covers the two-phase upgrade, its callbacks and what they do
  to the slots. `FinishEffects` tells the outcome of a finish, its result code included, from the table and the bundle
  before it, and `FirmwareDownload` follows a whole download from opening the slot to what its packages become, for
  every way of cutting what arrives. `FirmwareRuns` puts this together in runs of handlers and library marks, with any bundles; `UpgradeSafety` shows that every upgrade
  is such a run and what it can rely on in every reachable state.
- **Ranged download** (`RangedDownload`). The range parser, the skip list and the streaming callback, against a
  downloader that may cut the resource into blocks of any size: the file consists of the bytes at the offsets that the
  tokens, as spelled, ask for.
- **Transactional instance lists** (`AvsList`, `AppDataContainer`, `InstanceRegistry`, `Geopoints`, `ApnProfiles`,
  `CellConnectivity`). Linked lists in explicitly modelled memory: cells are allocated and freed, an allocation may
  fail at any call, and the invariants account for every cell, so rollback is proved together with non-aliasing,
  absence of leaks and absence of dangling pointers. `AppDataContainer` has lists within lists; geopoints and APN
  profiles share `InstanceRegistry`, and each of their resources is proved to hold the latest committed write to it;
  the cell connectivity object lists and reads the enabled APN profiles.
- **Ping diagnostic** (`IpPing`). The data-model thread and any number of worker threads, interleaved at single
  atomic operations, spurious compare-and-exchange failures included; in every state the configuration is what the
  writes that were stored and not rolled back make of it.
- **Persistence of software instances** (`SoftwarePersistence`) and **normalisation of coordinates** (`Doubles`,
  `Location`).

`Options`, `Sequences` and `ErrorCodes` hold what several modules share. A predicate written `P(x) == true` says no
more than `P(x)`; the comparison keeps the verifier from proving every conjunct of the definition by itself at each call.

## What turned out not to hold

Each of these is shown by a concrete case, next to the exact condition under which the property holds.

- After a finish the library marks the receiving slot DOWNLOADED whatever the bundle held. If the bundle held no
  package for that slot, the slot is DOWNLOADED although its metadata does not vouch for its file
  (`BundleDelivery.ReceiverLeftOut`; condition: `FirmwareProtocol.SuccessfulFinishInOrder`, and over whole runs
  `FirmwareRuns.RunTracked`).
- A bundle may replace the image of a slot that is being upgraded: only DOWNLOADED slots are protected. If the new
  image is bad the finish fails, but the slot goes back to DOWNLOADED with it when its upgrade fails
  (`FirmwareRuns.ReplacedWhileUpdating`; condition: `FirmwareRuns.RunTracked`, `FirmwareRuns.StepRegular`).
- A finish that fails after it has marked some slots computes no conflict list. A slot stays DOWNLOADED with an empty
  list although it is linked to an image that is not there, and its upgrade goes through
  (`FinishEffects.FinishFailsHalfWay`, `UpgradeSafety.UpgradeWithoutModem`; condition:
  `FinishEffects.FailedFinishExact`, and over whole runs `UpgradeSafety.UpgradeSafe`).
- A bundle that names a slot twice leaves the temporary file of the earlier package behind, where no slot refers to it
  (`BundleDelivery.SlotNamedTwice`; condition: `BundleDelivery.NothingLeftBehind`).
- A failed check callback runs no update, but companions that were DOWNLOADED and whose own check passed stay in
  UPDATING (`FirmwareUpgrade.CheckFailsAfterMarking`; condition: `FirmwareUpgrade.FailedCheckLeavesUpdating`).
- The comparison of two images never ends if they are equal and the end of the first one cannot be read
  (`CompareImages.NeverEnds`; condition: `CompareImages.CompareFiles`).
- A worker that closes before Execute has marked the diagnostic as started leaves it IN_PROGRESS for ever
  (`IpPing.StuckReachable`, `IpPing.StuckForever`; condition: `IpPing.LiveStep`).
- At a pole, normalised coordinates do not identify the point: the longitude survives (`Location.NorthPole`, and for
  every input at a pole `Location.PoleKeepsLongitude`; condition on the input: `Location.NormalDecides`).
- CRC-32 does not detect every change of five consecutive bytes (`Crc32.FiveByteWindowCollides`; condition for changes
  of any length: `Crc32.WindowsCollide`; up to four bytes it detects every change, `Crc32.WindowDetected`).

## Model

| member | source | states |
|---|---|---|
| `Crc32.BurstDetected` | demo/demo_utils.c:211-264 | two messages of equal length that differ, but only inside 32 consecutive bits, have different CRCs |
| `Crc32.WindowDetected` | demo/demo_utils.c:211-264 | two files of equal length that differ, but only inside four consecutive bytes, have different CRCs |
| `Crc32.FiveByteWindowCollides` | demo/demo_utils.c:211-264 | in every surrounding, two contents that differ in five consecutive bytes share a CRC, so four is sharp |
| `Crc32.WindowsCollide` | demo/demo_utils.c:211-264 | in every surrounding, two windows of one length give the same CRC if and only if their difference drives a zero register back to zero |
| `Crc32.BytesAreBits` | demo/demo_utils.c:211-235 | feeding a message byte by byte, eight shifts at a time, leaves the register that feeding all its bits leaves |
| `Crc32.CrcByBytes` | demo/demo_utils.c:211-235 | the bit-serial standard CRC of a message can be computed byte by byte |
| `Crc32.LookupStep` | demo/demo_utils.c:223-235 | one step with the CRC of a one-byte message as table entry does to the complemented register what feeding the byte does to the register |
| `Crc32.InvertedStep` | demo/demo_utils.c:211-221 | the inverted bit test acts on the complemented register as the usual test acts on the register, up to ones shifted in from the top |
| `FileCrc.CrcForByte` | demo/demo_utils.c:211-221 | the loop returns the standard CRC-32 of the one-byte message |
| `FileCrc.CrcTable.EnsureFilled` | demo/demo_utils.c:223-231 | the table is either untouched or completely filled, and is complete before it is used |
| `FileCrc.CrcTable.Update` | demo/demo_utils.c:223-235 | updating an intermediate value by a chunk continues the CRC register over exactly that chunk |
| `FileCrc.CrcTable.CalcFile` | demo/demo_utils.c:237-264 | fails exactly if the file cannot be opened or read; otherwise the result is the standard CRC-32 of the whole file |
| `CompareImages.CompareFiles` | demo/advanced_firmware_update_addimg.c:23-37 | ends with 0 if and only if the contents are equal and the first stream can be read to its end, with -1 if and only if they differ, and not at all if and only if they are equal and the first stream's end cannot be read |
| `CompareImages.CompareChunks` | demo/advanced_firmware_update_addimg.c:24-35 | one round finds a difference only between different contents; once the first stream has failed and nothing is left in the second, every round finds no difference and changes nothing |
| `CompareImages.NeverEnds` | demo/advanced_firmware_update_addimg.c:23-37 | a concrete comparison that never ends |
| `CompareImages.CompareImages` | demo/advanced_firmware_update_addimg.c:39-64 | equal exactly if both files can be opened, have the same contents and the first can be read to its end; different exactly if one cannot be opened or the contents differ |
| `FirmwareFormat.MetaRoundTrip` | demo/advanced_firmware_update.c:46-85 | parsing an encoded header, whatever follows it, gives the header back |
| `FirmwareFormat.MetaInverse` | demo/advanced_firmware_update.c:46-85 | every accepted header is the encoding of what it was parsed as |
| `FirmwareFormat.MetaRefused` | demo/advanced_firmware_update.c:46-85 | exactly which bytes are no header, and with which code: too few of them, or a version string that is empty or longer than 24 bytes |
| `FirmwareFormat.HeaderLayout` | demo/advanced_firmware_update.c:46-85 | where each field of a header stands; numbers have their most significant byte first |
| `FirmwareFormat.MultiHeaderLayout` | demo/advanced_firmware_update.c:87-139 | where magic, version 4 and the number of packages stand in the header of a bundle |
| `Bytes.Be32Bytes` | demo/advanced_firmware_update.c:112-131 | a package length in the table of a bundle has its most significant byte first |
| `FirmwareFormat.TakeInverse` | demo/advanced_firmware_update.c:159-195 | an accepted package is the encoding of its header followed by its payload |
| `FirmwareFormat.BundleRoundTrip` | demo/advanced_firmware_update.c:87-139 | one to four legal packages in bundle format are read back as exactly these packages, trailing bytes ignored |
| `FirmwareFormat.SingleRoundTrip` | demo/advanced_firmware_update.c:87-139 | a lone package of any length, after the probe for a bundle and the rewind, is read as if from the start |
| `FirmwareFormat.AcceptedShapes` | demo/advanced_firmware_update.c:87-195 | below 4 GiB a file is accepted without error only if it has one of three shapes: a bundle with its table, a bundle header without packages before a lone package, or a lone package |
| `FirmwareReader.CopyByBytes` | demo/advanced_firmware_update.c:141-157 | copies exactly the requested bytes or fails, the latter exactly if fewer are left |
| `FirmwareReader.CopyContents` | demo/demo_utils.c:194-209 | copies everything up to the end of the file unless a read fails |
| `FirmwareReader.ReadMeta` | demo/advanced_firmware_update.c:52-84 | item-wise reading yields the header that the bytes at the position encode and advances past it |
| `FirmwareReader.UnpackToFile` | demo/advanced_firmware_update.c:159-195 | reading from the stream yields the package, or the error, that the bytes at the position stand for; if the end of the stream cannot be read, exactly the packages without a declared length are refused |
| `FirmwareReader.ReadLengths` | demo/advanced_firmware_update.c:87-139 | the table of lengths is read as the bytes encode it, zero lengths being refused, whether or not the end of the stream can be read |
| `FirmwareReader.HandleMultipackage` | demo/advanced_firmware_update.c:87-139 | after probing, what remains in the stream with the declared lengths amounts to the meaning of the whole file, whether or not the end of the stream can be read |
| `Conflicts.InsertedAscending` | demo/advanced_firmware_update.c:786-820 | into an ascending list without duplicates, insertion gives an ascending list with exactly the one id added |
| `Conflicts.AddConflicting` | demo/advanced_firmware_update.c:786-820 | the array code performs that insertion in place, or reports a full array and changes nothing |
| `Conflicts.ConflictListSpec` | demo/advanced_firmware_update.c:842-881 | the list built for a slot is acceptable to the library and is, as a set, its absent linked slots plus TEE when the version rule fires |
| `Conflicts.FirstBytesCompared` | demo/advanced_firmware_update.c:822-840 | the version rule: TEE is on the application's list if and only if it is linked and absent, or the first byte of the application's package version is above the first byte of the running TEE's version, whatever follows them; bytes from 0x80 on, as signed chars, lie below all others |
| `Conflicts.EmptyVersionCompared` | demo/advanced_firmware_update.c:822-840 | the same when one of the version strings is empty: it counts like a zero byte |
| `Conflicts.BuildConflicts` | demo/advanced_firmware_update.c:842-881 | the loop with its fixed-size array builds that list and never overruns the array |
| `FirmwareProtocol.CommitDelivers` | demo/advanced_firmware_update.c:311-331 | committing gives every addressed slot its package and leaves every other slot's path, file and metadata alone |
| `FirmwareProtocol.UnpackFailureIsolated` | demo/advanced_firmware_update.c:286-348 | if unpacking fails, or the bundle names a downloaded slot, every slot but the receiver keeps path, file and metadata; the receiver loses its file; the temporary files left are those of superseded packages |
| `FirmwareProtocol.UnpackSuccess` | demo/advanced_firmware_update.c:261-348 | a successful unpacking delivers each package to its slot, touches no other slot, and keeps all downloaded slots vouched for |
| `FirmwareProtocol.FinishSuccessSound` | demo/advanced_firmware_update.c:728-772 | after a successful finish every downloaded slot is vouched for, every addressed slot is downloaded and holds its package, and every other slot keeps path, file and metadata |
| `FirmwareProtocol.FinishFailureSound` | demo/advanced_firmware_update.c:728-772 | after a failed finish every downloaded slot but the receiver is vouched for |
| `FirmwareProtocol.FailedFinishInOrder` | src/modules/advanced_fw_update/anjay_advanced_fw_update.c:1108-1126 | with the library putting the receiver back to Idle, a failed finish leaves all downloaded slots vouched for |
| `FirmwareProtocol.SuccessfulFinishInOrder` | src/modules/advanced_fw_update/anjay_advanced_fw_update.c:1108-1126 | with the library's mark, all downloaded slots are vouched for if and only if the bundle addressed its receiver or the receiver's metadata already vouched for the bundle file |
| `FirmwareProtocol.ResetInOrder` | demo/advanced_firmware_update.c:883-942 | a reset keeps all downloaded slots vouched for |
| `FirmwareProtocol.FinishExact` | demo/advanced_firmware_update.c:842-881 | after every successful finish the conflict set of each downloaded slot is exactly what it still waits for |
| `FirmwareProtocol.ResetExact` | demo/advanced_firmware_update.c:883-942 | after every reset, with the slot back to Idle, the conflict sets are exact |
| `FirmwareProtocol.ResetLeaves` | demo/advanced_firmware_update.c:883-942 | a reset takes away the slot's file, path and links and closes its stream; all other files, slots, links, states and results are as before, and so are the conflict lists of slots that are not downloaded |
| `FirmwareProtocol.DamageRejected` | demo/advanced_firmware_update.c:377-405 | if a stored image passes validation, any other image that differs from it inside four consecutive bytes is refused |
| `FirmwareSlots.ValidateSpec` | demo/advanced_firmware_update.c:377-405 | a slot passes validation if and only if its metadata vouches for its file and asks for no error; each of the three codes has its exact cause |
| `FirmwareSlots.LinkedIdsRead` | demo/advanced_firmware_update.c:407-423 | from a header that lists links in front and padding behind, exactly those links are read, in order |
| `FirmwareSlots.LinkedIdsJoin` | demo/advanced_firmware_update.c:407-423 | the links of a header are read piece by piece, each in its place, wherever the padding stands |
| `FirmwareSlots.LinksDecided` | demo/advanced_firmware_update.c:407-423 | the links of a header are accepted for a slot if and only if its bytes below eight ascend, name existing slots and leave out the slot itself |
| `FirmwareSlots.ClashIs` | demo/advanced_firmware_update.c:295-309 | the slot reported as being in the way is the lowest one that the bundle addresses and that is downloaded |
| `BundleDelivery.BundleDelivered` | demo/advanced_firmware_update.c:261-348 | unpacking an encoded bundle of one to four packages for distinct slots gives each slot exactly its payload and metadata and touches no other |
| `BundleDelivery.SingleDelivered` | demo/advanced_firmware_update.c:261-348 | the same for a lone package of any length without a bundle around it |
| `BundleDelivery.LastPackageWins` | demo/advanced_firmware_update.c:224-251 | of several packages for one slot the last one is the slot's |
| `BundleDelivery.CommitOrderIrrelevant` | demo/advanced_firmware_update.c:311-331 | two orders of the same packages for distinct slots lead to the same table |
| `BundleDelivery.NothingLeftBehind` | demo/advanced_firmware_update.c:333-348 | whether unpacking succeeds or fails, the new files that no slot refers to are as many as packages were superseded, and there are none if and only if the bundle names no slot twice |
| `BundleDelivery.SlotNamedTwice` | demo/advanced_firmware_update.c:311-348 | a concrete bundle with two packages for one slot that unpacks without error and leaves one such file |
| `BundleDelivery.FailureLeavesNothing` | demo/advanced_firmware_update.c:286-348 | if a bundle that names no slot twice fails to unpack, the files on disk are those from before without the receiver's |
| `BundleDelivery.ReceiverLeftOut` | src/modules/advanced_fw_update/anjay_advanced_fw_update.c:1108-1126 | a concrete bundle without a package for its receiver after which the receiver is marked although not vouched for |
| `FinishEffects.FailedFinish` | demo/advanced_firmware_update.c:425-457 | what a failed finish makes of every slot, told from the table and the bundle before it: exactly the slots up to the first refused package are marked and get their links, packages in place are in place, all other slots and all other conflict lists are as before |
| `FinishEffects.SuccessfulFinish` | demo/advanced_firmware_update.c:425-457 | what a successful finish makes of every slot, told likewise: every package was acceptable, its slot is downloaded with its links and its file, every other slot is as before |
| `FinishEffects.FinishDecided` | demo/advanced_firmware_update.c:261-457 | a finish succeeds if and only if the bundle can be read, names no downloaded slot and holds only packages that their slots take, all of it told from the table before |
| `FinishEffects.FinishCodeForetold` | demo/advanced_firmware_update.c:261-457 | the code a finish returns, told from the table before: that of the unreadable bundle, of the clash, or of the first package that is not taken, by header version, checksum, forced error, links and state; after a failure the receiver's conflict list names the slot that was in the way, or is as before |
| `FinishEffects.VersionsKept` | demo/advanced_firmware_update.c:842-881 | a finish changes no current version |
| `FinishEffects.FailedFinishExact` | src/modules/advanced_fw_update/anjay_advanced_fw_update.c:1116-1120 | after a failed finish and the library's Idle mark the conflict lists are exact if and only if the old list of every newly marked slot fits its new image and no slot came or went that another downloaded image is linked to |
| `FinishEffects.FinishFailsHalfWay` | src/modules/advanced_fw_update/anjay_advanced_fw_update.c:1116-1120 | a concrete bundle, a good TEE image linked to the modem and a bad boot loader, after which the TEE is downloaded with an empty conflict list and no modem image is there |
| `FinishEffects.FinishEventExact` | src/modules/advanced_fw_update/anjay_advanced_fw_update.c:1108-1126 | after a successful finish and the library's mark the conflict lists are exact if and only if the bundle addressed its receiver, or the receiver was downloaded already, or nobody is linked to it and its own old list fits |
| `FirmwareDownload.DownloadStored` | demo/advanced_firmware_update.c:669-726 | whatever the slot held before, after opening it and writing any pieces its file holds exactly the pieces one after the other; metadata, records and all other slots are as before |
| `FirmwareDownload.AnyCut` | demo/advanced_firmware_update.c:669-726 | two ways of cutting the same contents lead to the same table |
| `FirmwareDownload.WritesLost` | demo/advanced_firmware_update.c:706-726 | without a stream to the file, writes change nothing |
| `FirmwareDownload.BundleDownloaded` | demo/advanced_firmware_update.c:669-881 | one to four legal packages for different slots, sent as a bundle in any number of pieces: the finish succeeds if and only if every package is acceptable and the state of its slot allows it; then every slot addressed holds exactly its payload, metadata and links and is downloaded, and every other slot is as before |
| `FirmwareDownload.PackageDownloaded` | demo/advanced_firmware_update.c:669-881 | the same for a lone package of any length |
| `FirmwareDownload.DownloadGivenUp` | demo/advanced_firmware_update.c:669-942 | a reset after any number of pieces leaves the files of before without the slot's own; if the slot had neither path nor chosen name, exactly the files of before |
| `FirmwareUpdate.FirmwareTable.constructor` | demo/advanced_firmware_update.c:1053-1234 | the table starts with empty, idle slots and satisfies the invariant |
| `FirmwareUpdate.FirmwareTable.UnpackFirmware` | demo/advanced_firmware_update.c:224-251 | either nothing but a temporary name is used up, or the package's payload is in a file of its own, on record for its slot |
| `FirmwareUpdate.FirmwareTable.UnpackAll` | demo/advanced_firmware_update.c:286-293 | the loop stages exactly the packages that the stream stands for, up to the first error |
| `FirmwareUpdate.FirmwareTable.Commit` | demo/advanced_firmware_update.c:311-331 | renaming in place performs the commit on values, and no staged name survives |
| `FirmwareUpdate.FirmwareTable.UnpackInPlace` | demo/advanced_firmware_update.c:261-348 | performs the unpacking step, cleanup included, and reports the addressed slots |
| `FirmwareUpdate.FirmwareTable.ValidateFirmware` | demo/advanced_firmware_update.c:377-405 | computes the verdict defined by magic, header version, standard CRC and forced error |
| `FirmwareUpdate.FirmwareTable.ProcessLinked` | demo/advanced_firmware_update.c:407-423 | stores the ids below eight from the header, or is refused by the library |
| `FirmwareUpdate.FirmwareTable.Preprocess` | demo/advanced_firmware_update.c:425-457 | unpacks, then validates, links and marks the addressed slots up to the first error |
| `FirmwareUpdate.FirmwareTable.RecomputeConflicts` | demo/advanced_firmware_update.c:854-878 | stores for every downloaded slot the list computed from the table before the loop |
| `FirmwareUpdate.FirmwareTable.Open` | demo/advanced_firmware_update.c:669-704 | performs the open step: the slot has an open stream to an empty file, and the table stays well formed |
| `FirmwareUpdate.FirmwareTable.Write` | demo/advanced_firmware_update.c:706-726 | puts the data behind what the slot's file holds; fails without a stream and then changes nothing |
| `FirmwareUpdate.FirmwareTable.Finish` | demo/advanced_firmware_update.c:842-881 | performs the finish step and keeps the table well formed |
| `FirmwareUpdate.FirmwareTable.Reset` | demo/advanced_firmware_update.c:883-942 | performs the reset step and keeps the table well formed |
| `FirmwareUpgrade.PerformUpgrade` | demo/advanced_firmware_update.c:944-1016 | refuses with a dependency error and no change while conflicts are recorded; otherwise marks companions and runs all checks, each failing one putting its slot back to DOWNLOADED, and, only if all pass, updates up to the first failure, each successful one installing its image |
| `FirmwareUpgrade.ChecksFirst` | demo/advanced_firmware_update.c:981-1015 | in every upgrade every check callback precedes every update callback |
| `FirmwareUpgrade.UpdateNeedsAllChecks` | demo/advanced_firmware_update.c:981-1015 | an update callback runs if and only if all checks pass |
| `FirmwareUpgrade.SuccessMeansAll` | demo/advanced_firmware_update.c:981-1015 | an upgrade reports success only if every companion and the slot itself were checked and updated, in order |
| `FirmwareUpgrade.UpdateNeedsDownloads` | demo/advanced_firmware_update.c:944-1016 | for a slot with an exact conflict set and no list from the server, a callback is reached only if every linked slot is downloaded and vouched for and the TEE is recent enough |
| `FirmwareUpgrade.FailedCheckLeavesUpdating` | demo/advanced_firmware_update.c:981-1003 | after a failed check no update has run and no file has changed; companions that held an image are in UPDATING exactly if their own check passed, else in DOWNLOADED with a failure recorded; companions are as before if and only if every DOWNLOADED one failed and every UPDATING one passed its own check |
| `FirmwareUpgrade.CheckFailsAfterMarking` | demo/advanced_firmware_update_app.c:25-45 | a concrete upgrade in which the application's check fails and the TEE, whose check passed, stays in UPDATING |
| `FirmwareUpgrade.SuccessInstalls` | demo/advanced_firmware_update_addimg.c:82-93 | after a successful upgrade every additional image taken along has its package version copied over the front of its current version, the bytes behind it being the old ones; every one that held an image is IDLE with success recorded, its file and links gone |
| `FirmwareUpgrade.SuccessKeepsApplication` | demo/advanced_firmware_update_app.c:97-146 | an application that takes part keeps its current version: it stays in UPDATING with its image, or, if the image asks for it, is emptied with success or failure recorded |
| `FirmwareUpgrade.FailedUpdateLeaves` | demo/advanced_firmware_update.c:1004-1015 | when an update fails, the slots before it have been updated as in a successful upgrade; it and the slots after it are as the checks left them |
| `FirmwareUpgrade.CalledInOrder` | demo/advanced_firmware_update.c:944-1016 | an upgrade is refused, with a dependency error and no change, if and only if conflicts are recorded; otherwise the checks are those of the slots the server listed, or else of the linked ones, in order, then the slot's own, and the updates follow in the same order |
| `FirmwareRuns.RunTracked` | demo/advanced_firmware_update.c:669-942 | in every run of handlers, library marks, installs and upgrades, whatever bundles arrive, a slot that holds an image is vouched for if and only if it was not left out; left out are exactly the receivers of accepted bundles without a package for them, slots whose image was replaced by a bad one during their upgrade, and slots reset without a change of state |
| `FirmwareRuns.StepRegular` | demo/advanced_firmware_update.c:669-942 | with nothing left out before, a step leaves nothing out if and only if it is regular, which can be told beforehand: a finish puts nothing but genuine images into other slots being upgraded and, if it succeeds, its receiver is addressed, vouched for or holds an image already; a drop concerns a slot without an image |
| `FirmwareRuns.RunInOrder` | demo/advanced_firmware_update.c:669-942 | in a run, every image is vouched for in every state if and only if all steps are regular; then each downloaded slot has a file whose CRC is its metadata's, its own magic and header version 3 |
| `FirmwareRuns.RunExact` | demo/advanced_firmware_update.c:842-942 | in every run, after every successful finish, reset and install, the conflict list of every downloaded slot is, as a set, exactly what it waits for, where a receiver that was just left out counts as absent |
| `FirmwareRuns.DriverRunInOrder` | demo/advanced_firmware_update.c:669-942 | in every run of the handlers with any bundles, without the library declaring a slot downloaded, each downloaded slot is vouched for |
| `FirmwareRuns.DriverRunExact` | demo/advanced_firmware_update.c:842-942 | in every such run the conflict sets are exact after each successful finish and each reset |
| `UpgradeSafety.StepCovered` | demo/advanced_firmware_update.c:842-942 | after any step, an image needs something that no slot holds and that is not on its conflict list if and only if the table before the step foretells it |
| `UpgradeSafety.OnlyExposed` | demo/advanced_firmware_update.c:842-942 | the only steps by which a covered image stops being covered: a failed finish that replaced it or took a linked slot away, the loss of a linked slot while it is being upgraded or to a new download, an installed TEE that is older, and a drop of an application that is being upgraded |
| `UpgradeSafety.RunCovered` | demo/advanced_firmware_update.c:842-942 | the same in every state of every run |
| `UpgradeSafety.UpgradeIsRun` | demo/advanced_firmware_update.c:944-1016 | whatever its callbacks return, an upgrade leads from the table before it to the table after it by steps of a run |
| `UpgradeSafety.UpgradeSafe` | demo/advanced_firmware_update.c:944-1016 | in every state of every run, an upgrade without a list from the server that reaches a callback finds every linked slot holding an image and the TEE recent enough if and only if the image is not foretold to be uncovered; a linked image is vouched for exactly if not left out |
| `UpgradeSafety.UpgradeWithoutModem` | demo/advanced_firmware_update.c:944-1016 | a concrete run after which an upgrade updates the TEE although it is linked to a modem image that is not there |
| `FirmwareRuns.ReplacedWhileUpdating` | demo/advanced_firmware_update.c:295-331 | a concrete run in which a bad image replaces the one being upgraded and the slot ends up downloaded although not vouched for |
| `UpgradeSafety.EmptyStart` | demo/advanced_firmware_update.c:1053-1234 | where no slot holds an image, nothing is left out and everything is covered, so runs may start there |
| `RangedDownload.LegalNext` | demo/demo_cmds.c:834-848 | one token and the end of the range before it decide whether the list is still legal |
| `RangedDownload.TokenMeaning` | demo/demo_cmds.c:834-848 | a token is taken for a range if and only if it is spelled as a number, a number and a dash, or two numbers with a dash between them of which the second is higher: from the first number on, up to and not including the second; every other token is refused |
| `RangedDownload.LegalMeaning` | demo/demo_cmds.c:834-875 | a list is legal if and only if its tokens mean ranges in the right order, and those are the ranges used |
| `RangedDownload.WantedIsChosen` | demo/demo_cmds.c:834-875 | the ranges one after the other, clipped to the resource, are the bytes at the offsets that some range holds, each once and in order |
| `RangedDownload.Download.ParseRanges` | demo/demo_cmds.c:834-875 | accepts exactly the lists whose tokens mean non-empty ranges with gaps between them, only the last one open, and builds start offset and skip list for those |
| `RangedDownload.RestWanted` | demo/demo_cmds.c:834-875 | following that skip list from that start yields exactly the requested ranges, clipped to the resource |
| `RangedDownload.Download.OnNextBlock` | demo/demo_cmds.c:718-751 | file and rest together stay the same; a non-empty block is never written as zero bytes; a requested offset lies strictly ahead of the data taken |
| `RangedDownload.Download.Run` | include_public/anjay/download.h:251-276 | for every way the downloader cuts the resource, the file ends up with everything that was still to come |
| `RangedDownload.DownloadBlocks` | demo/demo_cmds.c:794-882 | for every accepted list and every cut, the file is the concatenation of the ranges that the tokens mean: the bytes at the offsets asked for |
| `AvsList.Heap.Find` | demo/objects/binary_app_data_container.c:90-102 | early-exit search in the sorted list agrees with the dictionary the list stands for |
| `AvsList.Heap.Insert` | demo/objects/binary_app_data_container.c:129-156 | insertion at the sorted place adds one entry, in one new cell, or changes nothing when memory runs out |
| `AvsList.Heap.Delete` | demo/objects/binary_app_data_container.c:158-177 | removal takes out exactly one entry and frees exactly its cell |
| `AvsList.Heap.Clone` | demo/objects/geopoints.c:236-250 | a copy in new cells with the same contents, or no cell at all when memory runs out half-way |
| `AppDataContainer.Container.Create` | demo/objects/binary_app_data_container.c:129-156 | adds an empty instance, or changes nothing when memory runs out |
| `AppDataContainer.Container.Remove` | demo/objects/binary_app_data_container.c:158-177 | removes the instance with all its entries and frees their cells |
| `AppDataContainer.Container.Read` | demo/objects/binary_app_data_container.c:204-233 | returns the bytes the map holds for instance and resource instance, or not found |
| `AppDataContainer.Container.Write` | demo/objects/binary_app_data_container.c:235-309 | succeeds if and only if the entry exists or can be allocated and the payload can be read and fits, with the code of the first of these that fails; a success stores the payload; a failure leaves the map unchanged unless the entry was there before, which it truncates |
| `AppDataContainer.Container.Reset` | demo/objects/binary_app_data_container.c:311-330 | empties the instance and no other |
| `AppDataContainer.Container.RemoveEntry` | demo/objects/binary_app_data_container.c:332-363 | removes the one resource instance |
| `AppDataContainer.Container.ListInstances` | demo/objects/binary_app_data_container.c:104-115 | strictly ascending, and exactly the instances there are |
| `AppDataContainer.Container.ListEntries` | demo/objects/binary_app_data_container.c:365-389 | strictly ascending, and exactly the resource instances there are |
| `AppDataContainer.Container.WriteLocally` | demo/objects/binary_app_data_container.c:521-554 | stores the value exactly if it fits, the instance exists and memory suffices; otherwise changes nothing |
| `AppDataContainer.Container.Begin` | demo/objects/binary_app_data_container.c:391-432 | the backup holds the same two-level contents in cells of its own, or there is no backup and an error, the latter only if an allocation can fail |
| `AppDataContainer.Container.Commit` | demo/objects/binary_app_data_container.c:434-442 | the backup is gone, cells included, and the contents are untouched |
| `AppDataContainer.Container.Rollback` | demo/objects/binary_app_data_container.c:444-454 | the contents are those of the backup and every other cell is freed |
| `AppDataContainer.Container.RunAndRollBack` | demo/objects/binary_app_data_container.c:129-454 | any operations between begin and rollback, failed ones included, leave the contents held at begin, and no backup |
| `AppDataContainer.Container.RunAndCommit` | demo/objects/binary_app_data_container.c:129-454 | with a commit instead, the contents are the combined effect of the operations, each with the shortage of memory it met; if allocations do not fail there is none |
| `AppDataContainer.LatestEntry` | demo/objects/binary_app_data_container.c:129-454 | after any operations an entry holds what the last one that concerns it makes of it: the payload written, nothing if it was dropped, wiped or its instance removed, an empty value if a write to it failed |
| `AppDataContainer.EntryUntouched` | demo/objects/binary_app_data_container.c:129-454 | an entry that no operation concerns is as before |
| `InstanceRegistry.Registry.Create` | demo/objects/geopoints.c:77-100 | adds a blank instance at its sorted place, or reports lack of memory and changes nothing |
| `InstanceRegistry.Registry.Remove` | demo/objects/geopoints.c:102-119 | removes exactly the instance, or reports that there is none |
| `InstanceRegistry.Registry.Validate` | demo/objects/geopoints.c:252-263 | accepts if and only if every instance is complete |
| `InstanceRegistry.Registry.Begin` | demo/objects/geopoints.c:236-250 | a copy of all instances in other cells, or an error and no copy |
| `InstanceRegistry.Registry.Commit` | demo/objects/geopoints.c:265-271 | frees the copy and keeps the instances |
| `InstanceRegistry.Registry.Rollback` | demo/objects/geopoints.c:273-282 | frees the instances and restores the copy |
| `InstanceRegistry.Registry.Transact` | demo/objects/geopoints.c:236-282 | all or nothing: on success exactly the operations in order and every instance complete, on failure no change; with enough memory it succeeds if and only if no operation fails and the result is complete |
| `InstanceRegistry.Registry.Run` | demo/objects/geopoints.c:236-282 | between transactions all instances are complete and keep every property that blank instances have and writes preserve; they are what the operations of the successful transactions make of them |
| `InstanceRegistry.AppliedRemembers` | demo/objects/geopoints.c:172-293 | after any operations that succeed, a resource that obeys its writes holds, in every instance, the value put there last since the instance was created or reset, and otherwise what it held before |
| `InstanceRegistry.LatestExistence` | demo/objects/geopoints.c:77-119 | an instance is there afterwards if and only if it was created after it was last removed, or was there and was never removed |
| `Geopoints.RangesKept` | demo/objects/geopoints.c:172-234 | writes and resets, failed ones included, keep what is present in range |
| `Geopoints.WriteDecided` | demo/objects/geopoints.c:172-234 | a write is accepted if and only if its value could be read and is finite and in the range of its resource; a refused one changes nothing and the code says why |
| `Geopoints.LatestWins` | demo/objects/geopoints.c:172-293 | latitude, longitude, radius and description of every instance hold their latest write since the instance was created or reset, and no write changes another resource |
| `Geopoints.RunTransactions` | demo/objects/geopoints.c:172-293 | after any transactions every geopoint has latitude, longitude and radius, in range; every resource holds the value of the latest write to it in a successful transaction since its instance was created or reset |
| `ApnProfiles.RangesKept` | demo/objects/apn_conn_profile.c:182-231 | writes and resets keep the authentication type in range and the name within its buffer |
| `ApnProfiles.WriteDecided` | demo/objects/apn_conn_profile.c:182-231 | a write is accepted if and only if its value could be read, a name being cut if need be, and an authentication type is one of the four; the code says why not |
| `ApnProfiles.LatestWins` | demo/objects/apn_conn_profile.c:182-291 | name, up to 255 characters, enable status and authentication type of every profile hold their latest write since the profile was created or reset, and no write changes another resource |
| `ApnProfiles.RunTransactions` | demo/objects/apn_conn_profile.c:182-291 | after any transactions every profile has a name and an authentication type in range; every resource holds the value of the latest write to it in a successful transaction since its profile was created or reset |
| `ApnProfiles.ListActivated` | demo/objects/apn_conn_profile.c:347-370 | a new list of exactly the enabled profiles, or an empty one, with nothing leaked, when memory runs out |
| `CellConnectivity.ReadActivated` | demo/objects/cell_connectivity.c:140-161 | a read links to the enabled profile with the same identifier; with enough memory it succeeds exactly for those; no memory is leaked |
| `CellConnectivity.ListResourceInstances` | demo/objects/cell_connectivity.c:250-275 | strictly ascending; with enough memory exactly the enabled profiles; no memory is leaked |
| `CellConnectivity.ListedIsReadable` | demo/objects/cell_connectivity.c:140-275 | with enough memory, listed and readable are the same, and the same as enabled |
| `IpPing.StepInv` | demo/objects/ip_ping.c:165-430 | every step of the data-model thread and of every worker keeps the invariant of the interleaving |
| `IpPing.DataModelKeepsInProgress` | demo/objects/ip_ping.c:165-179 | no step of the data-model thread takes the status out of IN_PROGRESS |
| `IpPing.FrozenStep` | demo/objects/ip_ping.c:200-244 | no step changes the configuration while the status is IN_PROGRESS, rollback included |
| `IpPing.StoreSpec` | demo/objects/ip_ping.c:180-244 | a number is stored if and only if it could be read and lies in its range, a string always; it is stored in its own setting and no other changes; the code says why not |
| `IpPing.ConfigurationWritten` | demo/objects/ip_ping.c:165-430 | in every state of every run each setting has the value of the latest write to it that was stored and not rolled back, and is blank without one |
| `IpPing.LaunchedAsWritten` | demo/objects/ip_ping.c:351-390 | a worker is launched only with host name, repetitions, timeout and block size set, and with exactly what the writes in force make of the configuration |
| `IpPing.InProgressAsWritten` | demo/objects/ip_ping.c:165-430 | while a diagnostic is in progress, the configuration of its worker is what the writes in force make of it |
| `IpPing.ResetDecided` | demo/objects/ip_ping.c:165-179 | a write or Execute is refused if and only if a diagnostic is in progress, and then changes nothing; it goes on only with the status just reset |
| `IpPing.ResetEnds` | demo/objects/ip_ping.c:165-179 | without spurious failures resetting takes two attempts at most |
| `IpPing.StartDecided` | demo/objects/ip_ping.c:351-390 | how starting ends: ERROR_OTHER if a setting is missing, ERROR_INTERNAL if no worker can be started, else IN_PROGRESS with one more worker |
| `IpPing.ExecuteAlone` | demo/objects/ip_ping.c:392-411 | Execute on its own leaves exactly that status |
| `IpPing.BusyRefused` | demo/objects/ip_ping.c:165-244 | while a diagnostic is in progress, a write and Execute return an internal error and change nothing |
| `IpPing.EnteredByExecute` | demo/objects/ip_ping.c:392-411 | IN_PROGRESS is entered only by Execute, outside transactions, with the configuration the worker was launched with |
| `IpPing.ConfigurationFrozen` | demo/objects/ip_ping.c:165-430 | in every interleaving, over every stretch of IN_PROGRESS, the configuration is constant and is that of the launched worker |
| `IpPing.LiveStep` | demo/objects/ip_ping.c:338-411 | some worker remains that will end the diagnostic, unless Execute marks it started after all workers have closed; nothing else breaks this |
| `IpPing.StuckForever` | demo/objects/ip_ping.c:165-430 | once in that situation, the status stays IN_PROGRESS and the configuration unchanged in every continuation |
| `IpPing.StuckReachable` | demo/objects/ip_ping.c:338-411 | a concrete interleaving that gets there |
| `IpPing.TimesStored` | demo/objects/ip_ping.c:246-263 | the swapped parameters and the swapped arguments cancel out: every time is stored where it belongs |
| `IpPing.ReportStored` | demo/objects/ip_ping.c:272-349 | a worker that reads a complete report leaves the diagnostic COMPLETE with exactly the reported numbers |
| `IpPing.HostUnknown` | demo/objects/ip_ping.c:272-349 | an unknown host ends the diagnostic with ERROR_HOSTNAME and no numbers |
| `IpPing.ReportCut` | demo/objects/ip_ping.c:272-349 | output that ends too early, or lacks the numbers where they should be, ends it with ERROR_INTERNAL |
| `IpPing.NoReplies` | demo/objects/ip_ping.c:272-349 | without a single reply it is COMPLETE with the losses counted and all times zero |
| `SoftwarePersistence.ReadInvertsWrite` | demo/software_mgmt.c:289-362 | reading gives back every record set with valid states that was written |
| `SoftwarePersistence.LoadedValid` | demo/software_mgmt.c:320-362 | whatever the file holds, what is loaded has valid states |
| `SoftwarePersistence.LoadedOtherwise` | demo/software_mgmt.c:320-362 | reading succeeds if and only if three records can be read; otherwise all instances are missing and idle, but for the first one, which is being installed if there is a file |
| `SoftwarePersistence.OnlyOwnUpdates` | demo/software_mgmt.c:385-440 | an instance's record depends on its own updates only |
| `SoftwarePersistence.LatestWins` | demo/software_mgmt.c:385-440 | state, file name and its origin are those of the instance's latest full update |
| `SoftwarePersistence.LatestExistence` | demo/software_mgmt.c:385-440 | whether an instance exists is decided by its latest update of either kind |
| `SoftwarePersistence.PersistenceFile.Write` | demo/software_mgmt.c:289-315 | the file holds all records, or it is gone and an error is returned |
| `SoftwarePersistence.PersistenceFile.Read` | demo/software_mgmt.c:320-362 | the loop returns what the bytes stand for, or the fallback for a missing or damaged file |
| `SoftwarePersistence.PersistenceFile.Change` | demo/software_mgmt.c:385-440 | after a successful update the file reads back as what was loaded before with the one record changed, even if the file was damaged |
| `SoftwarePersistence.PersistenceFile.ChangeAll` | demo/software_mgmt.c:385-440 | after any successful updates, from any file, reading back gives all of them |
| `Location.AngleSpec` | demo/objects/location.c:133-135 | a normalised angle is in [-180, 180) and differs from the input by full turns |
| `Location.NormalSpec` | demo/objects/location.c:137-165 | latitude in [-90, 90], longitude in [-180, 180), and the same point on the sphere |
| `Location.NormalIdempotent` | demo/objects/location.c:137-165 | normalising twice is normalising once |
| `Location.SpecialInputs` | demo/objects/location.c:137-165 | valid coordinates are left alone; minus infinity becomes the south pole, any other non-finite latitude the north pole, a non-finite longitude 0 |
| `Location.NormalDecides` | demo/objects/location.c:137-165 | the normal form tells a point's names from all others if and only if the given latitude is not a quarter turn from the equator, full turns aside |
| `Location.PoleKeepsLongitude` | demo/objects/location.c:137-165 | every input at a pole and the one half a turn further name the same point and normalise differently |
| `Location.NorthPole` | demo/objects/location.c:137-165 | a concrete pair of such names |
| `Location.NormalizeAngle` | demo/objects/location.c:133-135 | the computation with two remainders gives that angle |
| `Location.Position.Normalize` | demo/objects/location.c:137-165 | from any input, non-finite values included, the fields end up valid in the sense of demo/demo_utils.h and name the same point as the finite substitute |

## Left out

- FirmwareRuns.RunTracked: starts from any table in which the exceptions are known; restoring slots after a restart is not a step, and a failed upgrade is taken to find its slot in UPDATING, not restarted by a queued download in between.
- FirmwareUpdate.FirmwareTable.Open: the firmware persistence file, `auto_suspend` and failures to create a file are not modelled; opening requires a closed stream, as the source asserts.
- FirmwareUpdate.FirmwareTable.Write: a full disk is not modelled; writes succeed.
- FirmwareUpdate.FirmwareTable.Finish: renames, mode changes and reads succeed, except where a missing file makes them fail.
- FirmwareUpdate.FirmwareTable.constructor: stands for a fresh installation; restoring slots after a restart is not modelled.
- FirmwareUpgrade.PerformUpgrade: what callbacks return is an arbitrary function of the calls made so far (comparing images, writing files, scheduling a restart); a failing update is taken to leave its slot alone, and requested ids to be real slots.
- RangedDownload.Download.ParseRanges: tokenising and `strtol` are parameters; of `strtol` only its range and that it reads within the string are used.
- RangedDownload.Download.OnNextBlock: writes to the output file succeed unless they are empty.
- IpPing.StepInv: the race of two workers on the shared pipe pointer is not modelled; what a worker reads is arbitrary.
- SoftwarePersistence.PersistenceFile.Read: the library's encoding of strings and booleans is a parameter with the law that reading inverts writing.
- Temporary names from `mkstemp` are drawn from a counter: no name is drawn twice or collides with a chosen one, and slot paths are pairwise distinct.
- Plain `char` is signed in the comparison of major versions, as on the usual targets.
- The library behind the demo (`anjay_*`, `avs_*`): reduced to the record it keeps per firmware instance, its list type and its rules for links, conflicts and state changes.
- Restart and install paths, delayed results, process replacement: the run invariants are about one process lifetime.
- Linked ids of images outside the four slots: the library refuses them, which the model keeps; what the demo would do with them is not modelled.
- Software management beyond its persistence file, and firmware update objects other than the advanced one.
- Objects that only report constants or repeat the list pattern, and the remaining resources of the cell connectivity object.
- Floating-point rounding, distances, velocities and everything that notifies observers.
- Command line, logging, sockets, TLS and the Python tools.
