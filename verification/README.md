# AsistControl, a verified model

AsistControl collects punches from biometric terminals, decides which work day each punch belongs
to, and computes attendance from them. This project models that path in Dafny and proves what the
program relies on along it, together with the small state machines around it (schedules, leave,
sessions, the worker pool). Instants are integers in milliseconds, local dates are day numbers, a
timezone is any set of functions that fits together. A database transaction is one atomic step; a
call that reads first and writes later is two, with whatever other calls do in between.

| file | models |
|---|---|
| `Bytes.dfy`, `Text.dfy`, `Arith.dfy`, `Sorting.dfy`, `Wrappers.dfy` | little-endian fields, trimming, division, the stable sort, `Option` |
| `ZkProtocol.dfy`, `ZkWire.dfy`, `ZkRecords.dfy`, `ZkClient.dfy` | the ZKTeco wire: packets, their bytes and the law of their checksum, records, and the client that reassembles a segmented stream |
| `DigestAuth.dfy`, `DigestNonce.dfy`, `DeviceTime.dfy` | the Digest `Authorization` header, exactly when it reads back, and wall-clock conversion |
| `Ingestion.dfy`, `IngestionRules.dfy`, `MockDevice.dfy`, `MockSync.dfy`, `DeviceSync.dfy` | the ingestion pipeline, the simulated terminal with its faults, every interleaving of syncs over it, and the sync service, each call of which is such a run |
| `Hikvision.dfy` | paging, the search window and the serial cursor of the Hikvision adapter |
| `AttendanceTypes.dfy`, `WorkDay.dfy`, `ShiftTimes.dfy`, `WorkCalendar.dfy`, `CalendarDays.dfy` | work days, ownership of punches by the hours of the shifts, and the memoising calendar snapshot |
| `PunchPairing.dfy`, `PunchOrder.dfy`, `AttendanceCalculator.dfy`, `AttendanceLaws.dfy` | the attendance calculation, what the order of a listing can change, and the laws |
| `Punctuality.dfy`, `DayNumbers.dfy` | what each number and mark of a calculation is, told from its segments, the shift, the leave and the policy |
| `OvertimeBounds.dfy`, `LeaveCredit.dfy` | exactly which shifts and policies keep overtime within the work, and leave within the schedule |
| `AttendanceProcessing.dfy`, `AttendanceConsistency.dfy`, `IngestedAttendance.dfy` | recomputing days and keeping overtime proposals; what stored days depend on; which of them ingests leave behind |
| `WorkSchedules.dfy`, `LeaveRequests.dfy`, `AuthSession.dfy`, `Concurrency.dfy` | schedule history, leave requests, refresh-token rotation, the bounded worker pool |

`dafny verify dfyconfig.toml` checks everything.

## Where the code differs from what one would expect

- The checksum catches every one-byte error for bodies of any length: the 32-bit truncation inside
  the fold never hides one (`OneByteErrorDetected`), so no bound on the body is needed.
- A replayed refresh token that is refused at the read, because the user is inactive, revokes
  nothing; the session can still be refreshed once the user is active again. `ReplaySpared` is such
  a run, and `ReplayRejectedAtRead` the exact condition.
- When the last punches of a day that is still open are voided, the record goes but a pending
  overtime proposal stays until the day closes. `ProposalFollows` says exactly when, `StaleProposal`
  how it comes about, and `RestDayGoesStale` is a day on which it does.
- A shift whose after-window passes the end of the following local day claims punches it is never
  asked about: `ThreeDaysAreEnough` is the exact condition, `LongShiftMissed` an instance.
- Leave requests count the overlapping ones and insert later, and a review reads a pending request
  and later writes its status unguarded. Two calls at once can file the same days
  (`TwoCreatesOverlap`), and an approval that comes late can overlap what was filed meanwhile, even
  if `create` were atomic (`LateApprovalOverlaps`). `WriteExactly` says which writes are harmless;
  requests stay disjoint while no call writes what another one about the same employee has read
  and not yet written (`LeaveRequests.ReachableDisjoint`).
- Assignments of a schedule count the later ones before the transaction that writes: of two
  assignments at once the one from the later date can be lost (`TwoAssignsConflict`), and an undo
  that comes late can leave two rows for a day (`LateUndoLeavesTwo`). `AssignExactly` and
  `UndoExactly` say which writes keep the history contiguous.
- A break that lies outside its shift is deducted from overtime, which can then exceed the minutes
  worked (`BreakOutsideExceeds`); `OvertimeFitsExactly` gives the shifts and policies for which it
  never does. It also distorts leave: `LeaveCreditExactly` and `ShortExactly` give the shifts for
  which leave credits, and a day falls short of, no more than is scheduled.
- The quick setup itself writes such a shift for a day of less than five hours with a lunch
  (`ReferenceDayIsSafe`): leave over the whole of a four-hour day is credited with five
  (`FourHoursOverCredited`), and with leave over its lunch it can be short of 299 of its 240 minutes (`FourHoursShort`).
- The query of a day's punches sets no order. With pairing by key, two punches of one instant, as a
  terminal's and a manual one, can then come to nine hours or to none (`DevicePairingNeedsOrder`).
  `AnyOrderExactly` says when no order changes a result: the pairing is sequential, or no punch
  made at the instant of a kept one would be read otherwise in its place.
- An ingest that fails after its insert leaves punches stored whose days nothing recomputes: the
  next sync inserts nothing and so notices nothing (`SyncAgainMendsNothing`, `LeftBehindForGood`).
  `ReachableUpToDate` and `BehindExactly` say which days are up to date in every state.
- A client nonce with a quote or a backslash, which a caller may fix, is printed unescaped and the
  header then never reads back (`HeaderReadsBack`).
- A sync whose last write fails is logged as a success with an error message, while the cursor stays
  where it was (`DeviceSyncService.Sync`); nothing is lost, since the next sync reads it again.
- A reading is converted to an instant exactly if and only if the clock shows it, while at most two
  offsets occur within reach of it; a miss takes three (`MissNeedsThree`, `TwoChangesCanMiss`).

## Model

| member | source | states |
|---|---|---|
| ZkProtocol.Checksum16 | packages/biometric-core/src/zkteco/protocol.ts:51-57 | the loop over 16-bit words, odd byte last, with 32-bit folding and complement |
| ZkProtocol.BuildPacket | packages/biometric-core/src/zkteco/protocol.ts:59-73 | writes the envelope: magic, length, header with the checksum computed over a zeroed field, data |
| ZkProtocol.DecodeEncode | packages/biometric-core/src/zkteco/protocol.ts:59-105 | decoding a built packet gives it back and consumes exactly its bytes, whatever follows on the stream |
| ZkProtocol.DecodeStable | packages/biometric-core/src/zkteco/protocol.ts:82-105 | bytes that arrive later never change a decision already taken |
| ZkProtocol.OneByteErrorDetected | packages/biometric-core/src/zkteco/protocol.ts:51-105 | any wrong byte in the body of a built packet, checksum field included, is refused; one's-complement sum of section 1 of RFC 1071 |
| ZkProtocol.DecodeEncodeTime | packages/biometric-core/src/zkteco/protocol.ts:107-130 | the packed clock gives back every reading modulo the century: exactly the years 2000 to 2099 survive |
| ZkWire.PacketLayout | packages/biometric-core/src/zkteco/protocol.ts:59-73 | every byte of a built packet in its place, little-endian, and its words, the checksum's own included, balanced |
| ZkWire.ChecksumComplements | packages/biometric-core/src/zkteco/protocol.ts:51-57 | the words as 32 bits keep them and the checksum add up to a multiple of 65535, 0xffff only for an empty sum; section 1 of RFC 1071 |
| ZkWire.ComplementUnique | packages/biometric-core/src/zkteco/protocol.ts:51-57 | and no other checksum does |
| ZkWire.BalancedSumsToNothing | packages/biometric-core/src/zkteco/protocol.ts:51-57 | the words of a balanced body, its checksum's own included, add up to a multiple of 65535 below 2^32 |
| ZkWire.AcceptedExactly | packages/biometric-core/src/zkteco/protocol.ts:82-105 | of whole packets with the magic, exactly the balanced ones are accepted, their fields read from their places |
| ZkWire.AckOkBytes | packages/biometric-core/src/zkteco/protocol.ts:59-73 | the sixteen bytes of a terminal's acknowledgement |
| ZkWire.PackedSteps | packages/biometric-core/src/zkteco/protocol.ts:121-130 | each field of a reading moves the packed clock by what it lasts, months counting 31 days |
| ZkWire.KnownTime | packages/biometric-core/src/zkteco/protocol.ts:107-130 | a known reading and its packed value |
| ZkRecords.WriteAttendanceRecord | packages/biometric-core/src/zkteco/test-fixtures.ts:15-29 | the 40-byte record as a terminal prints it, for any text: one byte of each UTF-16 unit, the end of a long identifier overwritten by the fields after it |
| ZkRecords.ParseAttendanceRecords | packages/biometric-core/src/zkteco/protocol.ts:143-162 | one record per 40 bytes, in order, a trailing fragment ignored |
| ZkRecords.RecordRoundTrip | packages/biometric-core/src/zkteco/protocol.ts:143-162 | a record reads back as printed if and only if its identifier is 1 to 24 ASCII characters with no NUL and no outer blanks and its year is in this century |
| ZkRecords.DumpRoundTrip | packages/biometric-core/src/zkteco/protocol.ts:143-162 | parsing a whole memory gives exactly its records, in order, if and only if each can be read back |
| ZkClient.Bulk | packages/biometric-core/src/zkteco/fake-device.ts:162-190 | the sending side: PREPARE_DATA with the total, DATA packets of any chunk size, ACK_OK |
| ZkClient.PiecesSent | packages/biometric-core/src/zkteco/fake-device.ts:161-175 | the three packets of a payload sent whole, and chunks of at least a byte |
| ZkClient.ReadBulkStream | packages/biometric-core/src/zkteco/zkteco-client.ts:87-121 | a bulk exchange delivers exactly its payload and consumes exactly its own packets, leaving what follows |
| ZkClient.BulkEnds | packages/biometric-core/src/zkteco/zkteco-client.ts:87-121 | how a bulk read ends: the reply after the last byte is dropped whatever it is, an early acknowledgement gives what there is, anything but DATA is an error |
| ZkClient.FirstReply | packages/biometric-core/src/zkteco/zkteco-client.ts:87-105 | what a first reply without PREPARE_DATA comes to, and one too short to announce a total |
| ZkClient.SplitStream | packages/biometric-core/src/zkteco/zkteco-client.ts:148-169 | a prefix that decides the next reply decides it as the whole stream does |
| ZkClient.ZkTcpClient.Drain | packages/biometric-core/src/zkteco/zkteco-client.ts:153-169 | settles the waiter with the first whole packet or the decoding error and keeps the rest; without a waiter it changes nothing |
| ZkClient.ZkTcpClient.OnData | packages/biometric-core/src/zkteco/zkteco-client.ts:148-151 | a segment is appended and drained |
| ZkClient.ZkTcpClient.ReadChunks | packages/biometric-core/src/zkteco/zkteco-client.ts:99-118 | the DATA loop up to its trailing acknowledgement |
| ZkClient.ZkTcpClient.Receive | packages/biometric-core/src/zkteco/zkteco-client.ts:136-169 | one waiter at a time; the reply is the next packet of the stream however segments arrive, and nothing else is consumed |
| ZkClient.ZkTcpClient.Transmit | packages/biometric-core/src/zkteco/zkteco-client.ts:123-134 | sends the packet with the next reply number and returns the first reply, an error reply as a failure |
| ZkClient.ZkTcpClient.Read | packages/biometric-core/src/zkteco/zkteco-client.ts:87-121 | the result and what is left are a function of the bytes alone, for any byte stream, any segmentation and any interleaving with the reader |
| ZkClient.DownloadRecords | packages/biometric-core/src/zkteco/zkteco.adapter.ts:201-205 | end to end: whatever was sent in any chunk size over any segmentation is parsed as the memory it came from, nothing stays in the buffer, and the records are those sent if and only if each can be read back |
| DigestAuth.TokenizeAuthHeader | packages/biometric-core/src/hikvision/digest-auth.ts:106-152 | the index loop computes the recursive tokenizer on every input |
| DigestAuth.TokenCharsExactly | packages/biometric-core/src/hikvision/digest-auth.ts:99 | the token characters are the visible ones that delimit nothing; section 5.6.2 of RFC 9110 |
| DigestAuth.PassAdvances | packages/biometric-core/src/hikvision/digest-auth.ts:106-152 | every outer pass consumes input, whatever it holds |
| DigestAuth.HeaderRoundTrip | packages/biometric-core/src/hikvision/digest-auth.ts:186-217 | parsing the printed header recovers every field and no other, for arbitrary user name, realm, nonce, uri and opaque; section 3.4 of RFC 7616 |
| DigestAuth.HeaderPrinted | packages/biometric-core/src/hikvision/digest-auth.ts:186-205 | the header as it is sent, parameter by parameter: order, quotes, what the challenge decides; section 3.4 of RFC 7616 |
| DigestAuth.UnquoteQuote | packages/biometric-core/src/hikvision/digest-auth.ts:215-217 | reading a quoted-string back stops at its closing quote with the original text; section 5.6.4 of RFC 9110 |
| DigestAuth.NonceCountRoundTrip | packages/biometric-core/src/hikvision/digest-auth.ts:211-213 | the request counter is at least eight hexadecimal digits and reads back as itself |
| DigestNonce.HeaderReadsBack | packages/biometric-core/src/hikvision/digest-auth.ts:186-217 | for any nonce, opaque value and client nonce, the printed header reads back if and only if the client nonce, where printed, has no quote and no backslash |
| DigestNonce.TokenizeSpends | packages/biometric-core/src/hikvision/digest-auth.ts:106-152 | whatever text is left, reading it sets no more than its equals signs pay for, which is why a misread client nonce is never made good later |
| DigestNonce.RawValueReadBack | packages/biometric-core/src/hikvision/digest-auth.ts:186-204 | an unescaped value is read back if and only if it has no quote and no backslash |
| DeviceTime.ReadingRestored | packages/biometric-core/src/device-time.ts:43-56 | with at most two offsets near it, however often they alternate, a reading is converted to an instant that shows it if and only if some instant does |
| DeviceTime.LocalTimeStable | packages/biometric-core/src/device-time.ts:43-56 | under the same condition, instant to local time and back gives the same local time |
| DeviceTime.AmbiguousReading | packages/biometric-core/src/device-time.ts:38-56 | which of its two instants a repeated reading is taken as |
| DeviceTime.SkippedReading | packages/biometric-core/src/device-time.ts:38-56 | where a reading the clock skips ends up |
| DeviceTime.MissNeedsThree | packages/biometric-core/src/device-time.ts:43-56 | for any offset function, a reading the clock shows is missed exactly when the offset it was shown under and the two read on the way are three different ones, and the last does not lead back |
| DeviceTime.TwoChangesCanMiss | packages/biometric-core/src/device-time.ts:43-56 | three offsets are enough: across two changes, an existing reading can be missed |
| Sorting.SortedKeysUnique | apps/api/src/attendance/domain/attendance-calculator.ts:205-208 | what sorting leaves of the keys depends on the elements only, not on their order |
| Ingestion.RunIngestionPipeline | apps/api/src/device-sync/ingestion-pipeline.ts:48-77 | the loop with its map, rejections and counter computes the batch specification |
| Ingestion.PipelineAccounts | apps/api/src/device-sync/ingestion-pipeline.ts:48-112 | every log is accepted, rejected or a repetition; accepted keys are distinct, ordered by time, come from valid logs and cover every valid log |
| IngestionRules.ValidExactly | apps/api/src/device-sync/ingestion-pipeline.ts:79-89 | a log passes if and only if its trimmed identifier is 1 to 24 letters and digits and its time at most ten minutes ahead and 400 days behind |
| IngestionRules.ReasonsExactly | apps/api/src/device-sync/ingestion-pipeline.ts:79-89 | each reason to refuse one, the identifier first |
| IngestionRules.NormalizedSpelled | apps/api/src/device-sync/ingestion-pipeline.ts:91-112 | what of a log is stored: identifier, whole second, known names |
| IngestionRules.SameKeyExactly | apps/api/src/device-sync/ingestion-pipeline.ts:91-112 | two logs are one punch exactly when terminal, identifier and second agree |
| IngestionRules.BatchSpelled | apps/api/src/device-sync/ingestion-pipeline.ts:48-77 | each invalid log is refused in order and for its reason, and of each key the log listed first is kept |
| IngestionRules.CountersSpelled | apps/api/src/device-sync/device-sync.service.ts:191-199 | each counter of an ingest |
| Ingestion.IngestKeeps | apps/api/src/device-sync/device-sync.service.ts:153-199 | received = processed + duplicated + rejected; keys stay unique, nothing stored is lost, every valid log ends up stored |
| Ingestion.IngestAgain | apps/api/src/device-sync/device-sync.service.ts:164-186 | ingesting a batch again stores nothing more |
| MockDevice.RetriesExactly | apps/api/src/device-sync/device-sync.service.ts:276-294 | with the terminal reachable, retrying succeeds if and only if the pending faults are fewer than the attempts and none is a protocol error |
| MockDevice.DropsAfter | packages/biometric-core/src/mock/mock-device-simulator.ts:261-277 | a terminal to drop after so many requests serves a try exactly when they suffice for its two, or three with the connection |
| MockDevice.DuplicatedRead | packages/biometric-core/src/mock/mock-device-simulator.ts:302-310 | a faulty read gives the same records twice, with the same cursor |
| MockDevice.FaultDisconnects | packages/biometric-core/src/mock/mock-device.adapter.ts:115-122 | a fault met takes the connection only if it is one of the connection |
| MockDevice.MockDeviceSimulator.ReadFrom | packages/biometric-core/src/mock/mock-device-simulator.ts:302-310 | from the index on within the same generation, everything otherwise, twice over on buggy firmware |
| MockDevice.MockDeviceSimulator.ClearLogs | packages/biometric-core/src/mock/mock-device-simulator.ts:313-316 | empties the memory and starts a new generation |
| MockDevice.MockDeviceSimulator.Punch | packages/biometric-core/src/mock/mock-device-simulator.ts:121-135 | appends to the current memory, and tells the listeners unless it is silent |
| MockDevice.MockDeviceSimulator.Accept | packages/biometric-core/src/mock/mock-device-simulator.ts:261-277 | which fault a request meets and what it leaves of the pending ones |
| MockDevice.MockDeviceSimulator.FailNext | packages/biometric-core/src/mock/mock-device-simulator.ts:240-242 | faults queue up in order |
| MockDevice.MockDeviceAdapter.CallDevice | packages/biometric-core/src/mock/mock-device.adapter.ts:115-122 | a connection fault disconnects the adapter |
| MockDevice.MockDeviceAdapter.Hear | packages/biometric-core/src/mock/mock-device.adapter.ts:92-98 | a live punch is heard only while connected and online |
| MockDevice.MockDeviceAdapter.TrySync | packages/biometric-core/src/mock/mock-device.adapter.ts:41-90 | one attempt: connects if needed, each request may fail, a lost connection has to be made again |
| MockSync.NothingCoveredIsLost | apps/api/src/device-sync/device-sync.service.ts:64-113 | in every state of every interleaving of punches, wipes, live batches, overlapping syncs, failures and crashes, what the stored cursor covers was stored or rejected, and keys are unique |
| MockSync.RunExtends | apps/api/src/device-sync/device-sync.service.ts:64-113 | what is stored or rejected stays so, and memories only grow, over any stretch of a run |
| MockSync.DownloadCovers | packages/biometric-core/src/mock/mock-device-simulator.ts:302-310 | a download from a covered cursor leaves out nothing of the memory that is not settled |
| MockSync.CleanSyncCatchesUp | apps/api/src/device-sync/device-sync.service.ts:250-256 | after whatever went wrong, one sync that completes settles the whole memory and frees the lock, on firmware that duplicates too |
| MockSync.SyncsExclude | apps/api/src/device-sync/device-sync.service.ts:259-272 | while every sync ends within ten minutes, at most one holds the lock, and the lock is its own |
| DeviceSync.DeviceSyncService.AcquireLock | apps/api/src/device-sync/device-sync.service.ts:259-272 | taken if and only if the device is not deleted and its lock is free or older than ten minutes |
| DeviceSync.DeviceSyncService.CreateManyAndReturn | apps/api/src/device-sync/device-sync.service.ts:164-184 | inserts, in order, the rows whose key is not taken yet and returns them |
| DeviceSync.DeviceSyncService.IngestLogs | apps/api/src/device-sync/device-sync.service.ts:153-199 | the stored events and the summary of one ingest, punches of nobody enrolled counted; what is stored when the insert or what follows it fails |
| DeviceSync.UnmatchedCounts | apps/api/src/device-sync/device-sync.service.ts:196 | how many stored punches are of nobody enrolled |
| DeviceSync.ReportTells | apps/api/src/device-sync/device-sync.service.ts:188-198 | what an ingest reports is told from the rows it added |
| DeviceSync.DeviceSyncService.WithRetry | apps/api/src/device-sync/device-sync.service.ts:276-294 | at most three attempts, the last fault reported, the link left as those attempts leave it |
| DeviceSync.DeviceSyncService.BufferRealtime | apps/api/src/device-sync/device-sync.service.ts:216-224 | live punches wait in arrival order |
| DeviceSync.DeviceSyncService.PunchAt | apps/api/src/device-sync/device-sync.service.ts:60-62 | a punch is stored at the terminal whatever happens, and buffered if it was heard |
| DeviceSync.DeviceSyncService.Sync | apps/api/src/device-sync/device-sync.service.ts:64-113 | when it is refused, and otherwise the whole new device row, event table and log: PARTIAL or SUCCESS, or the device's or the database's failure; only a sync without one moves the cursor, and the lock is freed however it ends |
| DeviceSync.StatusSpelled | apps/api/src/devices/device-errors.ts:15-17 | only a timeout or a lost connection leaves the terminal offline |
| DeviceSync.DeviceSyncService.FlushRealtime | apps/api/src/device-sync/device-sync.service.ts:226-257 | everything buffered since the last flush is ingested once, in order; a failure is swallowed and brings no device online |
| DeviceSync.SyncInRun | apps/api/src/device-sync/device-sync.service.ts:64-113 | every call of the sync method, however it ends, is a run of the interleaved steps, so the invariant of every run holds after it |
| MockSync.FailedSteps | apps/api/src/device-sync/device-sync.service.ts:104-113 | where a sync that fails before the download, after it or after the insert leaves events, cursor and lock |
| Hikvision.PaginationExact | packages/biometric-core/src/hikvision/hikvision.adapter.ts:304-328 | the pages are the list once and in order if and only if it fits in the pages allowed, whatever is refused on the way; closed form of what fits when nothing is refused |
| Hikvision.SizeSettles | packages/biometric-core/src/hikvision/hikvision.adapter.ts:319-329 | the page size stays or is lowered once, never where all is taken |
| Hikvision.SizeRefused | packages/biometric-core/src/hikvision/hikvision.adapter.ts:319-329 | and always where the listing is refused |
| Hikvision.HikvisionAdapter.Paginate | packages/biometric-core/src/hikvision/hikvision.adapter.ts:304-315 | the loop over positions, ended by the status or an empty page, and an error after the last page allowed; the page size it leaves |
| Hikvision.HikvisionAdapter.FetchSizedPage | packages/biometric-core/src/hikvision/hikvision.adapter.ts:318-328 | a refused page is asked again at the small size, which stays |
| Hikvision.SearchIsMatching | packages/biometric-core/src/hikvision/hikvision.adapter.ts:231-265 | the searches by minor, merged and sorted, are the memory's matching events in its own order, each as often as its minor is listed |
| Hikvision.FoundSpelled | packages/biometric-core/src/hikvision/hikvision.adapter.ts:231-265 | on any firmware a search finds what matches, by serial and then by time |
| Hikvision.FoundOrderTells | packages/biometric-core/src/hikvision/hikvision.adapter.ts:260-264 | an event without serial sorts before every one numbered above zero |
| Hikvision.MatchingOnce | packages/biometric-core/src/hikvision/hikvision.adapter.ts:231-265 | once, when no minor is listed twice |
| Hikvision.HikvisionAdapter.SearchEvents | packages/biometric-core/src/hikvision/hikvision.adapter.ts:231-265 | one paged search per minor, gathered and sorted; it completes if and only if no minor has more events than its pages reach, at the page size the searches before it left |
| Hikvision.SmallPagesSuffice | packages/biometric-core/src/hikvision/hikvision.adapter.ts:304-328 | every search completes, whatever is refused on the way, while no minor has more events than the pages allowed at the small size |
| Hikvision.HikvisionAdapter.Sync | packages/biometric-core/src/hikvision/hikvision.adapter.ts:207-229 | the paged searches, the selection and the new cursor computed together, if and only if the searches complete |
| Hikvision.WindowBounds | packages/biometric-core/src/hikvision/hikvision.adapter.ts:213-217 | the search starts less than a second below the later of lookback and overlap, and ends less than a second below an hour from now |
| Hikvision.ReachIsWindow | packages/biometric-core/src/hikvision/hikvision.adapter.ts:213-217 | an event is in the search exactly when it is in reach, by the configured numbers |
| Hikvision.SyncOnAnyFirmware | packages/biometric-core/src/hikvision/hikvision.adapter.ts:372-398 | without serials or after a restart of their counter all that is found is returned, otherwise what lies above the cursor, as often and in the order found, and where the cursor is left |
| Hikvision.ExactlyOnce | packages/biometric-core/src/hikvision/hikvision.adapter.ts:207-229 | over whole runs with cleared memories, a punch in reach of the sync that first meets it, by the configured lookback and overlap, is returned by that sync and by no other |
| Hikvision.AtMostOnce | packages/biometric-core/src/hikvision/hikvision.adapter.ts:374-396 | no two syncs of one memory return the same event, whether or not it was in the window of the first |
| Hikvision.CursorInvHolds | packages/biometric-core/src/hikvision/hikvision.adapter.ts:389-396 | the cursor's serial is one of the memory's and no punch seen so far is later than its time |
| Hikvision.SyncReturnsNew | packages/biometric-core/src/hikvision/hikvision.adapter.ts:374-387 | one sync returns every new punch in its reach, none out of it and none at or below the cursor |
| Hikvision.WholeWindow | packages/biometric-core/src/hikvision/hikvision.adapter.ts:374-387 | exactly when all of the window is returned: a restart shows, an event has no serial, or all are new |
| Hikvision.ClockWentBack | packages/biometric-core/src/hikvision/hikvision.adapter.ts:213-217 | a device clock behind the newest event makes the window the whole lookback |
| WorkDay.AssignWorkDate | apps/api/src/attendance/domain/work-day.ts:108-125 | the loop over the three days picks the owner the specification picks |
| WorkDay.AssignedIsOwner | apps/api/src/attendance/domain/work-day.ts:101-125 | the owner is the nearest shift whose window holds the punch, the earlier on a tie, else the day at hand |
| ShiftTimes.AssignedByHours | apps/api/src/attendance/domain/work-day.ts:108-130 | the owner's hours come as near to the punch as those of any day open for it, and nearer than those of any earlier one |
| ShiftTimes.InsideOneShift | apps/api/src/attendance/domain/work-day.ts:108-130 | a punch inside one open day's hours and no other's is that day's |
| ShiftTimes.BetweenTwoShifts | apps/api/src/attendance/domain/work-day.ts:108-130 | between two shifts it goes to the nearer end or start, on a tie to the earlier |
| ShiftTimes.NightShiftExit | apps/api/src/attendance/domain/work-day.ts:108-130 | an exit half an hour after a night shift stays with the night |
| ShiftTimes.ResolvedTimes | apps/api/src/attendance/domain/work-day.ts:30-63 | a shift starts when its date's clock shows the start, and ends and pauses when the clock next shows those times |
| ShiftTimes.ResolvedTolerances | apps/api/src/attendance/domain/work-day.ts:51-62 | tolerances are the shift's own, or else the policy's |
| ShiftTimes.DayMade | apps/api/src/attendance/domain/work-day.ts:70-99 | the type, shift and window of a day, by holiday, schedule and fixed hours |
| WorkCalendar.WorkCalendar.DayFor | apps/api/src/attendance/work-calendar.service.ts:38-61 | whatever was looked up before, the memo answers what the tables say |
| WorkCalendar.WorkCalendar.WorkDateOf | apps/api/src/attendance/work-calendar.service.ts:64-72 | the owner the tables give a punch, for any memo |
| WorkCalendar.WorkCalendar.SplitPunches | apps/api/src/attendance/work-calendar.service.ts:86-100 | counted punches and strays, for any memo left by earlier lookups |
| WorkCalendar.OneHome | apps/api/src/attendance/work-calendar.service.ts:64-100 | each punch is counted or stray for its owner, as often as it was made, and for no other day; a stray is of its local date and claimed by no neighbour; the owner's reach holds it |
| WorkCalendar.ThreeDaysAreEnough | apps/api/src/attendance/domain/work-day.ts:101-134 | no day beyond the three asked could claim a punch if and only if no window passes the end of the day after its own |
| WorkCalendar.LongShiftMissed | apps/api/src/attendance/domain/work-day.ts:108-125 | an instance: a shift's own window holds a punch that is given to another day |
| WorkCalendar.SnapshotAgreesNear | apps/api/src/attendance/work-calendar.service.ts:104-155 | the snapshot splits a list like the whole tables for each day whose punches it can judge |
| WorkCalendar.SnapshotAgrees | apps/api/src/attendance/work-calendar.service.ts:104-155 | with the two-day margin, the snapshot splits any punches like the whole tables, for every day loaded |
| WorkCalendar.OwnerAgrees | apps/api/src/attendance/work-calendar.service.ts:64-72 | and owners agree one day beyond the range on each side |
| WorkCalendar.Load | apps/api/src/attendance/work-calendar.service.ts:107-155 | what is loaded is such a snapshot for every employee asked for, whatever order the query answers in |
| WorkCalendar.HistoryIsOneSchedule | apps/api/src/work-schedules/work-schedules.service.ts:301-328 | a contiguous history gives an employee one schedule a day, which the snapshot relies on |
| CalendarDays.DayUnderSchedule | apps/api/src/attendance/work-calendar.service.ts:38-61 | the day of a date under an assignment: its shift of that weekday unless a holiday hides it, a rest day without |
| CalendarDays.DayWithoutSchedule | apps/api/src/attendance/work-calendar.service.ts:38-61 | and without one |
| CalendarDays.ScheduleOfHistory | apps/api/src/attendance/work-calendar.service.ts:38-61 | the assignment found for a date is the row of a contiguous history that covers it |
| CalendarDays.LoadedExactly | apps/api/src/attendance/work-calendar.service.ts:114-127 | the assignments loaded for a range are those in force on some day of it |
| CalendarDays.WeekdaysGoRound | apps/api/src/attendance/work-calendar.service.ts:158-161 | weekdays from Monday to Sunday, a Thursday on 1 January 1970 |
| CalendarDays.OwnerByHours | apps/api/src/attendance/work-calendar.service.ts:64-72 | a punch's owner by the hours of its local date's day and its neighbours' |
| PunchPairing.DropDoublePresses | apps/api/src/attendance/domain/attendance-calculator.ts:212-227 | the loop over ordered punches |
| PunchPairing.DroppedSpacing | apps/api/src/attendance/domain/attendance-calculator.ts:211-227 | kept punches keep their distance, and every dropped one follows a kept one too closely |
| PunchPairing.DroppedKeepsAll | apps/api/src/attendance/domain/attendance-calculator.ts:212-227 | kept and ignored together are the punches, each once |
| PunchPairing.PairSequentially | apps/api/src/attendance/domain/attendance-calculator.ts:240-246 | in, out, in, out in steps of two |
| PunchPairing.PairByPunchType | apps/api/src/attendance/domain/attendance-calculator.ts:249-264 | the loop with its open punch |
| PunchPairing.AlternatingAt | apps/api/src/attendance/domain/attendance-calculator.ts:240-246 | the even punches are entries, each with the punch after it |
| PunchPairing.ByTypeSays | apps/api/src/attendance/domain/attendance-calculator.ts:249-274 | no entry says out, no exit says in, and what says nothing closes what is open |
| PunchPairing.ByTypeKeepsPunches | apps/api/src/attendance/domain/attendance-calculator.ts:249-264 | pairing by key loses, repeats and reorders no punch |
| PunchPairing.PairedForward | apps/api/src/attendance/domain/attendance-calculator.ts:235-264 | in either pairing no segment ends before it starts |
| PunchPairing.GapsBetween | apps/api/src/attendance/domain/attendance-calculator.ts:396-404 | the pauses between consecutive segments |
| PunchPairing.WorkAndPausesFillTheDay | apps/api/src/attendance/domain/attendance-calculator.ts:54-55 | alternating, work and pauses add up to last minus first |
| PunchPairing.ByTypeWithinTheDay | apps/api/src/attendance/domain/attendance-calculator.ts:249-264 | pairing by key no time counts twice, and with only the first entry or the last exit missing none is lost |
| AttendanceCalculator.ExpectedPresence | apps/api/src/attendance/domain/attendance-calculator.ts:280-295 | the loop in which each leave may move the arrival and the departure |
| AttendanceCalculator.MarkMissing | apps/api/src/attendance/domain/attendance-calculator.ts:48-52 | a segment without entry or exit is marked, except the last one of a day still open |
| AttendanceCalculator.Measure | apps/api/src/attendance/domain/attendance-calculator.ts:48-85 | minutes worked and paused after the break deduction, the short break, first entry and last exit |
| AttendanceCalculator.FinishUnscheduled | apps/api/src/attendance/domain/attendance-calculator.ts:87-112 | what a holiday, a rest day or a day without schedule comes to |
| AttendanceCalculator.FinishScheduled | apps/api/src/attendance/domain/attendance-calculator.ts:114-173 | lateness, early leave, overtime, status and shortfall against the expected presence |
| AttendanceCalculator.CalculateAttendance | apps/api/src/attendance/domain/attendance-calculator.ts:26-174 | the imperative calculation computes the specification the laws are about |
| Punctuality.LateIsMeasured | apps/api/src/attendance/domain/attendance-calculator.ts:114-125 | lateness is the whole minutes from the arrival due, the end of the leave over the start of the shift or that start, past the tolerance |
| Punctuality.EarlyIsMeasured | apps/api/src/attendance/domain/attendance-calculator.ts:127-137 | early leave the whole minutes to the departure due, once that has passed |
| Punctuality.OneDue | apps/api/src/attendance/domain/attendance-calculator.ts:280-295 | disjoint leaves leave one arrival and one departure due |
| DayNumbers.DayEnds | apps/api/src/attendance/domain/attendance-calculator.ts:26-85 | a day is closed with its window, starts with its first entry and ends with its last exit |
| DayNumbers.BreakTakenOff | apps/api/src/attendance/domain/attendance-calculator.ts:54-69 | a break worked through counts as pause for at least what it lasts, at the expense of the work |
| DayNumbers.OvertimeIs | apps/api/src/attendance/domain/attendance-calculator.ts:330-355 | overtime is the excess, or the work outside the shift, from a minute and the threshold on |
| DayNumbers.RestIsOvertime | apps/api/src/attendance/domain/attendance-calculator.ts:87-112 | on holidays and rest days it is all the work |
| DayNumbers.ShortIs | apps/api/src/attendance/domain/attendance-calculator.ts:152-162 | what a closed flexible day without a punch missing is short of |
| DayNumbers.MarksSpelled | apps/api/src/attendance/domain/attendance-calculator.ts:70-150 | short breaks, punches far from the shift, holidays and rest days worked, by their own conditions |
| DayNumbers.StatusUnpunched | apps/api/src/attendance/domain/attendance-calculator.ts:357-364 | the status of a day without punches |
| DayNumbers.NothingUnpunched | apps/api/src/attendance/domain/attendance-calculator.ts:366-382 | and no minutes of anything |
| AttendanceLaws.ClosedDay | apps/api/src/attendance/domain/attendance-calculator.ts:26-174 | where the order is harmless, a closed day depends neither on `now` nor on the order of punches, nor on that of leaves where they are disjoint, ignored ids apart |
| AttendanceLaws.AnyOrder | apps/api/src/attendance/domain/attendance-calculator.ts:26-174 | where the order of the punches is harmless it changes nothing, on a closed day nor on one still open, with leaves that may overlap as long as they are listed alike, or disjoint ones in any order |
| AttendanceLaws.AnyOrderExactly | apps/api/src/attendance/domain/attendance-calculator.ts:199-264 | no listing of the punches changes a result if and only if the pairing is sequential, or none made at the instant of a kept one would be read as another direction in its place |
| PunchOrder.SegmentsTell | apps/api/src/attendance/domain/attendance-calculator.ts:249-264 | punches of the same times give the same segments if and only if each is read as the same direction |
| PunchOrder.SameKeyIsHarmless | apps/api/src/attendance/domain/attendance-calculator.ts:249-274 | the order is harmless when punches that share an instant say the same, as when none share one |
| PunchOrder.SameKeyExactly | apps/api/src/attendance/domain/attendance-calculator.ts:211-264 | and only then, when no press counts as double |
| AttendanceLaws.BuiltDayHoldsShift | apps/api/src/attendance/domain/work-day.ts:85-93 | the window a day is built with holds its shift, which a closed day relies on, if and only if a clock change does not put the start past the window's end |
| AttendanceLaws.DevicePairingNeedsOrder | apps/api/src/attendance/domain/attendance-calculator.ts:199-264 | under the default policy but for pairing by key, a calculation of 540 minutes worked that is 0 with its first two punches, of one instant, listed the other way round |
| AttendanceLaws.TimeIsConserved | apps/api/src/attendance/domain/attendance-calculator.ts:54-69 | work plus breaks is last kept minus first kept punch, before and after the deduction, and the minutes reported are their floors |
| AttendanceLaws.ClampNeverFires | apps/api/src/attendance/domain/attendance-calculator.ts:54-69 | in either pairing worked time is never negative |
| AttendanceLaws.FirstAndLast | apps/api/src/attendance/domain/attendance-calculator.ts:74-75 | sequentially, the day starts at the first kept punch and ends at the last one that closes a pair |
| OvertimeBounds.OvertimeFits | apps/api/src/attendance/domain/attendance-calculator.ts:330-348 | for a safe shift and policy, overtime lies between nothing and the minutes worked, in either basis and either pairing |
| OvertimeBounds.OvertimeFitsExactly | apps/api/src/attendance/domain/attendance-calculator.ts:54-69 | and only for those: by excess, expected hours that are not negative; outside the shift, no deducted break after its end, nor before its start where early arrivals count |
| OvertimeBounds.BreakOutsideExceeds | apps/api/src/attendance/domain/attendance-calculator.ts:57-67 | an instance: a calculation whose overtime is 180 of 120 minutes worked |
| LeaveCredit.LeaveCreditFits | apps/api/src/attendance/domain/attendance-calculator.ts:308-328 | disjoint leaves credit a safe day with at least nothing and at most its scheduled minutes |
| LeaveCredit.LeaveCreditExactly | apps/api/src/attendance/domain/attendance-calculator.ts:308-328 | and only a safe one: no part of the break outside the shift, and scheduled minutes that are not negative |
| LeaveCredit.SafeMeansInside | apps/api/src/attendance/domain/attendance-calculator.ts:308-322 | for a shift that does not end before it starts and a break that lasts, safe means that the break lies inside |
| LeaveCredit.LeaveCreditAlwaysFits | apps/api/src/leave-requests/leave-requests.service.ts:74-99 | so in every state the requests reach undisturbed, for any listing of what was approved |
| LeaveCredit.ShortFits | apps/api/src/attendance/domain/attendance-calculator.ts:152-156 | what a day is short of lies between zero and its scheduled minutes, where nothing of the break lies outside, or too little for the tolerance |
| LeaveCredit.ShortExactly | apps/api/src/attendance/domain/attendance-calculator.ts:152-156 | and only there, over all disjoint leaves and minutes worked |
| LeaveCredit.ReferenceDayIsSafe | apps/api/src/work-schedules/work-schedules.service.ts:496-509 | the shift the quick setup writes is safe exactly without a lunch or from five hours a day on |
| LeaveCredit.FourHoursOverCredited | apps/api/src/work-schedules/work-schedules.service.ts:496-509 | on its four-hour day with an hour of lunch, leave over the shift is credited with 300 of the 240 minutes |
| LeaveCredit.FourHoursShort | apps/api/src/attendance/domain/attendance-calculator.ts:152-156 | a calculation on that day short of 299 minutes |
| LeaveCredit.OverlappingLeavesExceed | apps/api/src/attendance/domain/attendance-calculator.ts:308-322 | overlapping leaves would be credited twice |
| AttendanceLaws.AnomaliesTell | apps/api/src/attendance/domain/attendance-calculator.ts:26-174 | each anomaly, short breaks, strays, holidays and rest days included, appears once, and if and only if what it marks is there; the status is the one they call for, on any day |
| AttendanceProcessing.AttendanceProcessingService.SyncOvertime | apps/api/src/attendance/attendance-processing.service.ts:368-400 | creates, follows or deletes a pending proposal and never touches a reviewed one |
| AttendanceProcessing.AttendanceProcessingService.RecomputeWith | apps/api/src/attendance/attendance-processing.service.ts:300-351 | the stored record and proposal of one day afterwards, each field of the record the calculation's of that name, and no other day's |
| AttendanceProcessing.StoredAsCalculated | apps/api/src/attendance/attendance-processing.service.ts:330-484 | a day with punches, or closed, is stored as calculated, hours shown only where fixed; of an open one without punches only what was final stays |
| AttendanceProcessing.InputMembers | apps/api/src/attendance/attendance-processing.service.ts:306-328 | what a day is calculated from: its punches inside its window, those outside, the approved leave that meets it |
| AttendanceProcessing.AttendanceProcessingService.TouchedDays | apps/api/src/attendance/attendance-processing.service.ts:64-70 | each known employee's days that the punches belong to, once each |
| AttendanceProcessing.AttendanceProcessingService.CompleteDaysSince | apps/api/src/attendance/attendance-processing.service.ts:276-298 | recomputes exactly the days without a record between a late punch and yesterday, at most 93 back |
| AttendanceProcessing.FilledDays | apps/api/src/attendance/attendance-processing.service.ts:276-298 | the days filled: from the punch's, or 93 back, to yesterday, while employed |
| AttendanceProcessing.AttendanceProcessingService.ProcessEvents | apps/api/src/attendance/attendance-processing.service.ts:48-84 | with the calendar of the range it loads, recomputes every day the punches touch, and no day but those and the ones to fill since the earliest, to what the whole tables give |
| AttendanceProcessing.RangeIsGood | apps/api/src/attendance/attendance-processing.service.ts:54-61 | the range loaded suffices for every day due, that of a punch on the last day owned by the next included, while no punch lies two days past it |
| AttendanceProcessing.SplitOfLoaded | apps/api/src/attendance/attendance-processing.service.ts:306-320 | loading by reach misses no punch the day owns, and the split drops what else it loads |
| AttendanceProcessing.IncrementalIsFull | apps/api/src/attendance/attendance-processing.service.ts:300-362 | if the other days were up to date before punches were added or voided, recomputing the touched days equals recomputing every day |
| AttendanceProcessing.ProcessedIsFull | apps/api/src/attendance/attendance-processing.service.ts:48-84 | so after processing any changes a full recomputation changes nothing |
| AttendanceProcessing.ReviewedIsKept | apps/api/src/attendance/attendance-processing.service.ts:364-400 | no recomputation overwrites reviewed overtime |
| AttendanceProcessing.ProposalFollows | apps/api/src/attendance/attendance-processing.service.ts:330-400 | the proposal left is what the day computes, except exactly when an open day without punches has one pending |
| AttendanceProcessing.StaleProposal | apps/api/src/attendance/attendance-processing.service.ts:330-337 | how such a proposal comes about |
| AttendanceConsistency.RestDayGoesStale | apps/api/src/attendance/attendance-processing.service.ts:330-337 | a rest day worked and voided on which it does |
| AttendanceProcessing.ComputedAlike | apps/api/src/attendance/attendance-processing.service.ts:300-328 | a day computed from the snapshot is the day the whole tables give |
| AttendanceProcessing.ProcessedAgainstWhole | apps/api/src/attendance/attendance-processing.service.ts:48-84 | what processing any changes through a snapshot stores is what a full recomputation from the whole tables would, and every day is up to date against them |
| AttendanceConsistency.ListedInAnyOrder | apps/api/src/attendance/attendance-processing.service.ts:306-351 | where the order is harmless, any two listings of the stored punches leave the same record and the same proposal |
| AttendanceConsistency.ListedExactly | apps/api/src/attendance/attendance-processing.service.ts:306-351 | two listings leave the same if and only if the pairing is sequential or the kept punches are read alike in both |
| AttendanceConsistency.ClosedWhateverTheClock | apps/api/src/attendance/attendance-processing.service.ts:300-351 | a closed day leaves the same record and proposal whenever it is recomputed, in either pairing |
| IngestedAttendance.ReachableUpToDate | apps/api/src/device-sync/device-sync.service.ts:153-199 | over every run of ingests that complete, fail at the insert or fail after it, and of recomputations, the day of every stored punch is up to date unless it is behind |
| IngestedAttendance.BehindExactly | apps/api/src/device-sync/device-sync.service.ts:153-199 | a day is behind if and only if an ingest failed between its insert and that day's recomputation and nothing has recomputed it since |
| IngestedAttendance.SyncAgainMendsNothing | apps/api/src/device-sync/device-sync.service.ts:164-188 | syncing logs that are stored already completes, and changes neither punches nor days nor what is behind |
| IngestedAttendance.LeftBehindForGood | apps/api/src/device-sync/device-sync.service.ts:164-189 | a run of a failed ingest and the sync after it that leaves a long closed day without a record |
| WorkSchedules.ReachableContiguous | apps/api/src/work-schedules/work-schedules.service.ts:281-372 | while no call writes what another has read and not yet written, in every reachable state the history is strictly increasing, without gaps or overlaps, and only the latest is open |
| WorkSchedules.AssignExactly | apps/api/src/work-schedules/work-schedules.service.ts:301-328 | writing an assignment keeps the history contiguous if and only if nothing starts on or after its date |
| WorkSchedules.UndoExactly | apps/api/src/work-schedules/work-schedules.service.ts:335-372 | removing an assignment keeps it contiguous if and only if it is the first or the latest |
| WorkSchedules.PassesExactly | apps/api/src/work-schedules/work-schedules.service.ts:281-294 | of a contiguous history a read lets an assignment through exactly after its latest row, and an undo exactly of that row |
| WorkSchedules.TurnsDisturbNobody | apps/api/src/work-schedules/work-schedules.service.ts:281-372 | calls about one employee that take turns never disturb each other |
| WorkSchedules.TwoAssignsConflict | apps/api/src/work-schedules/work-schedules.service.ts:281-298 | a run of two assignments that both passed the count, after which a row ends before it starts |
| WorkSchedules.LateUndoLeavesTwo | apps/api/src/work-schedules/work-schedules.service.ts:335-372 | a run of two assignments, an undo that reads the second as the latest, a third assignment and the undo's write, after which two rows are open |
| WorkSchedules.UndoneBetween | apps/api/src/work-schedules/work-schedules.service.ts:335-372 | as with any contiguous three: undoing the middle one leaves two rows over a day |
| WorkSchedules.EveryDayCovered | apps/api/src/work-schedules/work-schedules.service.ts:301-328 | every day since the first assignment has a schedule |
| WorkSchedules.AtMostOneCovers | apps/api/src/work-schedules/work-schedules.service.ts:301-328 | and one only |
| WorkSchedules.AssignKeepsThePast | apps/api/src/work-schedules/work-schedules.service.ts:301-328 | assigning changes nothing before its date and governs every day from it on |
| WorkSchedules.UndoRestores | apps/api/src/work-schedules/work-schedules.service.ts:335-372 | undoing an assignment restores the exact previous history |
| WorkSchedules.UndoKeepsThePast | apps/api/src/work-schedules/work-schedules.service.ts:335-372 | undoing leaves the days before the removed assignment as they were |
| WorkSchedules.WorkSchedulesService.Assign | apps/api/src/work-schedules/work-schedules.service.ts:281-298 | when the count refuses, and what the transaction writes into the rows other calls have left: the history stays contiguous if and only if nothing starts on or after the date by then |
| WorkSchedules.WorkSchedulesService.CreateAssignment | apps/api/src/work-schedules/work-schedules.service.ts:301-328 | closes what reaches the date and adds the open row |
| WorkSchedules.WorkSchedulesService.FindPrevious | apps/api/src/work-schedules/work-schedules.service.ts:361-364 | the latest of the employee's rows that starts before a date |
| WorkSchedules.WorkSchedulesService.Unassign | apps/api/src/work-schedules/work-schedules.service.ts:335-391 | only the latest and not too old can be undone, and only if it is still there at the write; where it is still the latest, it leaves the undone history |
| WorkSchedules.WorkSchedulesService.PlaceOn | apps/api/src/work-schedules/work-schedules.service.ts:251-279 | one employee of the setup: already on it, kept on another, or assigned |
| WorkSchedules.WorkSchedulesService.SetupWorkday | apps/api/src/work-schedules/work-schedules.service.ts:199-279 | who is put on the company schedule, who is listed on it and who keeps another, the counters, the shift it writes, and what each assignment makes of the table other calls have left by its turn |
| WorkSchedules.SetupAlone | apps/api/src/work-schedules/work-schedules.service.ts:199-279 | with no other call in between, the setup leaves everyone listed set up, nobody else touched and every history contiguous |
| WorkSchedules.SetUpSpelled | apps/api/src/work-schedules/work-schedules.service.ts:251-279 | who is on the schedule or chose another later keeps it; everyone else is on it from the date on, the past as it was |
| WorkSchedules.ReferenceDayLasts | apps/api/src/work-schedules/work-schedules.service.ts:496-509 | the quick setup's day lasts the minutes to work and the lunch, which is there or not as a whole |
| WorkSchedules.ListedSpelled | apps/api/src/work-schedules/work-schedules.service.ts:251-279 | whom the setup lists as on the schedule |
| WorkSchedules.AddedSpelled | apps/api/src/work-schedules/work-schedules.service.ts:251-279 | how many it adds |
| LeaveRequests.LeaveRequestsService.Create | apps/api/src/leave-requests/leave-requests.service.ts:63-129 | the order of the refusals, and a pending request inserted into what other calls have left: disjoint if and only if nothing active overlaps by then |
| LeaveRequests.LeaveRequestsService.Review | apps/api/src/leave-requests/leave-requests.service.ts:132-175 | only a pending request, never one's own; the status is written whatever happened since the read, and exactly when that is harmless |
| LeaveRequests.LeaveRequestsService.Cancel | apps/api/src/leave-requests/leave-requests.service.ts:178-214 | who may cancel what; a cancellation keeps requests disjoint whatever happened since its read |
| LeaveRequests.ReachableDisjoint | apps/api/src/leave-requests/leave-requests.service.ts:74-99 | over every interleaving of reads and writes, an employee's pending and approved requests are pairwise disjoint while no call writes what another about the same employee has read and not yet written |
| LeaveRequests.WriteExactly | apps/api/src/leave-requests/leave-requests.service.ts:94-175 | an insert keeps requests disjoint if and only if nothing active overlaps it, and a status write if and only if it does not make active what overlaps and was not |
| LeaveRequests.OverlapsExactly | apps/api/src/leave-requests/leave-requests.service.ts:74-81 | two requests overlap exactly when they share an instant |
| LeaveRequests.TurnsKeepDisjoint | apps/api/src/leave-requests/leave-requests.service.ts:63-214 | so they stay disjoint when the calls about an employee take turns |
| LeaveRequests.ApprovedAreDisjoint | apps/api/src/attendance/attendance-processing.service.ts:403-414 | any listing of approved leave that attendance reads from such a table is pairwise disjoint |
| LeaveRequests.TwoCreatesOverlap | apps/api/src/leave-requests/leave-requests.service.ts:74-99 | a run of two calls that both count none and both file the same days |
| LeaveRequests.LateApprovalOverlaps | apps/api/src/leave-requests/leave-requests.service.ts:132-175 | a run whose approval, read before a cancellation and a new request, overlaps them |
| AuthSession.EachTokenAtMostOnce | apps/api/src/auth/auth.service.ts:96-140 | over every interleaving no refresh token is exchanged twice |
| AuthSession.RevokedForGood | apps/api/src/auth/auth.service.ts:96-154 | a revoked session stays revoked and nothing is exchanged on it |
| AuthSession.SessionEnds | apps/api/src/auth/auth.service.ts:110-123 | however often it was refreshed, once its time is over nothing is exchanged on a session but by a request that read it before |
| AuthSession.ReplayRevokes | apps/api/src/auth/auth.service.ts:112-133 | a replay that gets past its read revokes the session for good |
| AuthSession.ReplayRejectedAtRead | apps/api/src/auth/auth.service.ts:99-111 | exactly when the session is beyond use after a replay refused at its read |
| AuthSession.ReplaySpared | apps/api/src/auth/auth.service.ts:99-111 | a run in which an exchanged token is replayed while the user is inactive and the session goes on working |
| AuthSession.DoomedExactly | apps/api/src/auth/auth.service.ts:96-140 | the states with no successful refresh ahead are exactly the revoked ones and the expired ones with no current token in flight |
| Concurrency.BoundedAndInOrder | apps/api/src/common/utils/concurrency.ts:5-24 | never more than max(1, limit) tasks at once; items start in order and at most once |
| Concurrency.NothingStartsAfterFailure | apps/api/src/common/utils/concurrency.ts:12-21 | no item starts after a failure |
| Concurrency.SettledOutcome | apps/api/src/common/utils/concurrency.ts:5-24 | when all workers are through, every item finished exactly once, or the pool rejected with the earliest failure and the started items finished or failed |
| Concurrency.RejectsWithEarliest | apps/api/src/common/utils/concurrency.ts:5-24 | the pool rejects if and only if a task failed, with the earliest failure |
| Concurrency.StuckMeansNothingEnabled | apps/api/src/common/utils/concurrency.ts:5-24 | a worker that is not through can always move: no deadlock |
| Concurrency.RunsAreFinite | apps/api/src/common/utils/concurrency.ts:5-24 | every run ends within two actions an item and one a worker |

## Left out

- Hashing, encryption, password checks and token signing: a hash is an injective function and a token a fresh value.
- HTTP, sockets, timers and the database client: byte streams, steps and tables. The timeouts of the ZKTeco client and the matching of late replies after one, and the queue that serialises its requests, are not modelled.
- The timezone library: `WorkDay.Zone` asks for a local date that is an interval of instants, which excludes zones that repeat a midnight, and for nothing about the hours beyond where a day's clock times may fall.
- LeaveCredit.ReferenceDayIsSafe: excludes dates on which a clock change falls between two clock times of the day; the other conditions hold of any shift, one that ends before it starts included.
- Hikvision events with an unreadable time, the text form of the MOCK and Hikvision cursors, and a counter restart that never shows a lower serial at a later time: `Hikvision.Timely` is the hypothesis that excludes the last.
- The device's name, serial number, clock drift, rejected samples and times seen on the device and sync log rows, and the failure of the statements that free the lock or write the log.
- Leave and schedule calls whose read is itself several statements: the checks of one call are one step, its write another.
- AttendanceProcessing.RangeIsGood: supposes that nobody has two schedules at once, as contiguous histories give, and no punch two days past the range.
- Runs of `IngestedAttendance` keep schedules, leave and the clock as they are; `ClosedWhateverTheClock` is why the clock does not matter once a day is closed. Corrections by hand are changes of `ProcessedIsFull`, not steps of a run.
- A restart of the simulator's process and changes of a device's address while a sync is going on.
- `processEvents` recomputes employees one after another: the order the pool would give them does not matter to what is stored, since each touches only its own days.
- Creating, updating and deleting shifts, schedules and holidays, the finalizer's calendar of days, the preview of a correction, and `readPunches`: they recompute through the members above.
- The scope of an actor over other people's data, vacation entitlement (a parameter of the leave methods), audit rows, notifications and every screen, report and label.
