# ACE2-Open: a verified model

ACE2-Open patches the firmware of the Anycubic ACE 2 Pro filament changer and drives it from Klipper. This project
models its hard cores in Dafny and proves what they promise. `dafny verify dfyconfig.toml` checks everything.

| file | models |
|---|---|
| `Sha2.dfy`, `Sha2Constants.dfy`, `Hkdf.dfy` | SHA-256 (FIPS 180-4) with its constants tied to the roots of the primes, HMAC (RFC 2104), HKDF (RFC 5869) and the host's sector keys, as specifications |
| `NativeKdf.dfy` | the on-chip compressor, short HMAC and sector key slicer, over their shared scratch arrays |
| `Crc.dfy` | CRC-16/Kermit of an image and the byte-at-a-time CRC_A of a tag frame |
| `Thumb.dfy` | the Thumb-2 branch encoder of the hooks, against the architecture's decoder |
| `Edits.dfy`, `PatchImage.dfy` | same-length edits of a byte image; the image builder, the script it emits, and the replay |
| `LaneInventory.dfy`, `LaneLaws.dfy` | what tag replies, raw images and status frames may put into a lane, and what each of them does to its fields |
| `AssistClaims.dfy`, `AssistRestore.dfy`, `AssistRuns.dfy`, `AssistLaws.dfy` | feed and rollback assist claims, restoring a lost assist, runs over several units, and that a lost assist comes back |
| `TandemPull.dfy`, `IncrementalFeed.dfy` | two motion loops whose commanded and executed distances differ |
| `TagJson.dfy`, `TagFields.dfy`, `TagCommit.dfy`, `TagDecode.dfy` | the C tag parser: JSON scanner, colours and SKU, the two memory layouts, and the JSON decoder from print to memory |
| `SpoolIdentity.dfy` | UID matching and the binding of a tag to a spool |
| `NdefFrame.dfy` | NDEF framing, the brace scanner and the repair of cut-off JSON |
| `Text.dfy`, `Numbers.dfy`, `Octets.dfy`, `Wrappers.dfy` | the shared text, arithmetic, byte and option definitions |

Where the source changes state in place, a class or an array method does the same here and its `ensures` equates the
new state with a function of the old one; the promises are then proved about that function. The environment (replies,
sensors, time-outs, the backend, the JSON parser, the image digest) is a parameter, so every theorem holds for all of
its choices. The builder's and the scripts' straight-line steps of one shape, and the key ladders of the JSON decoder, run from a table.

What the proofs brought out about the code:

- **Heat.** The plausibility check of a native reply looks at integers only. A reply of 600.0 degrees passes it and
  reaches the lane (`FloatReachesTheHeater`); `RunHeatSafety` shows that this is the only way a run can become unsafe.
- **Assist claims.** A restore goes around the enable path. Queued during a toolchange and sent after a rollback was
  started, it leaves both claims set; `BothClaimsAreReachable` is such a run from a fresh start, every answer a plain
  acceptance. No other heartbeat, call or connect does it (`RunNeverClaimsBoth`). A caller can rule it out beforehand:
  start no rollback while a restore is armed, and connect under no rollback with a saved claim to restore. That
  discipline suffices over whole runs (`GuardedRunsNeverClaimBoth`), and each act outside it can fail (`GuardIsExact`).
- **On-chip decodes.** The decoder stores version 0x0101 for a JSON tag. The driver has no rule for 257: it drops every
  field of such a reply, the SKU included, and fetches the raw image (`OnChipDecodeIsRefetched`).
- **Patch script.** The builder checks two bytes of the RC522 hook site and the script four, so a forced build from an
  image with other bytes there succeeds while its script refuses that image (`ReplayReproducesBuild`,
  `UncheckedBytesDoNotMatter`).
- **Version string.** The new one is a byte longer than the one searched for and overwrites the byte after it.
- **Branches.** A stub at an odd offset would be entered one byte early (`DecodeInvertsEncode`, `HookReachesItsCode`).
- **Tandem pull.** The abort of an unmoving strand at exactly 16 mm needs a cap above 12 mm; below, the cap ends the
  pull first (`Extract`).
- **Raw images.** A raw image is the one event that can give two lanes one SKU (`ImageKeepsDistinct`).
- **Short HMAC.** With a key of more than 64 bytes it uses the first 64 instead of their hash (`HmacShort`); no caller
  passes one. A sector above 4 leaves the key buffer as it was (`BambuKdf`).
- **Line breaks.** The number extractor of the tag parser skips no line break after the colon, though the string
  extractor does: a tag whose JSON breaks the line there loses the number (`JsonNumberReadsBack`).
- `raw_temp_to_store` truncates a fractional bound before it compares, so 500.9 becomes 500 and is refused, 499.9 is
  stored as 499.
- The comment of `classify_tag_version` (klipper/instance.py:65-84) names a result "bambu" that the code calls "uid";
  the model follows the code.

## Model

| member | source | states |
|---|---|---|
| NativeKdf.Scratch.TransformBlock | firmware/native_tag_decoder.c:166-199 | the compressor with a 16-word circular window leaves the state that section 6.2.2 of FIPS 180-4 gives with 64 schedule words, for every state and block |
| NativeKdf.Scratch.RunRounds | firmware/native_tag_decoder.c:179-195 | sixty-four rounds over the window equal the rounds over the full schedule, and the window ends holding W[48..64) |
| NativeKdf.Scratch.ExtendWindow | firmware/native_tag_decoder.c:180-184 | overwriting the oldest cell of the window gives the window one word further on |
| NativeKdf.NextWord | firmware/native_tag_decoder.c:180-184 | the four cells the code reads hold W[i-2], W[i-7], W[i-15] and W[i-16], so they yield W[i] |
| NativeKdf.ScheduleStep | firmware/native_tag_decoder.c:181-183 | the shift-and-or rotations summed in the code's order give the standard's next schedule word |
| NativeKdf.Scratch.HmacShort | firmware/native_tag_decoder.c:201-255 | equals HMAC-SHA256 of RFC 2104 under the first 64 key bytes for messages of up to 55 bytes, also when key or result live in the scratch record |
| NativeKdf.Scratch.BambuKdf | firmware/native_tag_decoder.c:262-298 | for sectors 0 to 4 each wanted key is bytes 6s to 6s+6 of the host's 96-byte HKDF output; otherwise the buffers are unchanged |
| Hkdf.HkdfSha256 | tools/bambu_keys.py:18-25 | the loop yields RFC 5869's expand of the extracted key, cut to length, and fails past 255 blocks |
| Hkdf.KeysForUid | tools/bambu_keys.py:28-33 | lists the sixteen six-byte slices of the derivation |
| Hkdf.TwoBlockHash | firmware/native_tag_decoder.c:206-228 | SHA-256 of one whole block and a short rest is two compressions, the second over the rest with padding and a 16-bit length |
| Hkdf.EarlySectorKey | firmware/native_tag_decoder.c:266-280 | the first five sector keys lie inside T(1) of the expansion |
| Sha2Constants.RoundConstants | firmware/native_tag_decoder.c:155-164 | each round constant is the first 32 fractional bits of the cube root of its prime, as section 4.2.2 of FIPS 180-4 defines it |
| Sha2Constants.InitialState | firmware/native_tag_decoder.c:208-209 | the initial state is the first 32 fractional bits of the square roots of the first eight primes (section 5.3.3) |
| Crc.Crc16Kermit | firmware/build_patch.py:100-106 | the bit loop computes the recursively defined register |
| Crc.CrcA | tools/ace_reader.py:91-97 | the byte-at-a-time code gives, low byte first, the register of the bit loop started at 0x6363 |
| Crc.FoldIsCrcByte | tools/ace_reader.py:94-96 | the three byte-wise statements equal eight bit steps, for every register and byte |
| Crc.ResidueIsZero | tools/ace_reader.py:91-97 | a message followed by its own two check bytes leaves zero, from any start value |
| Crc.StepIsBijection | firmware/build_patch.py:105 | the bit step has an inverse on all 16-bit registers |
| Crc.CrcIsLinear | firmware/build_patch.py:100-106 | the checksum of the exclusive or of two equally long images is the exclusive or of their checksums |
| Crc.BurstChangesCrc | firmware/apply_patch.py:20-26 | two images whose differences lie within 16 consecutive bits have different checksums |
| Crc.KermitCheckValue | firmware/build_patch.py:100-106 | the digits 1 to 9 give 0x2189, the catalogued check value of CRC-16/KERMIT |
| Crc.CrcAExamples | tools/ace_reader.py:91-97 | the two example frames of Annex B of ISO/IEC 14443-3 get their published trailers |
| Thumb.RefusedOnlyWhenUnreachable | firmware/build_patch.py:67-78 | a branch that goes from src to dst exists exactly when the offset is even and the encoder does not refuse |
| Thumb.DecodeInvertsEncode | firmware/build_patch.py:67-78 | the architectural decoder (B, encoding T4) returns the destination of every encoded branch, lowered by one when the offset is odd |
| Edits.ApplyCommutes | firmware/apply_patch.py:50-58 | edits of disjoint bytes give the same image in any order |
| PatchImage.EditSites | firmware/build_patch.py:201-254 | all sites are edited exactly when each holds what is expected |
| PatchImage.Build | firmware/build_patch.py:117-333 | succeeds exactly on buildable inputs, and then yields the final body with its trailer and the script; what bytes lie where is `HookEntersItsStub`, `PartSurvives`, `FirstVersionReplaced` and `BuiltImageShape` |
| PatchImage.Replay | firmware/apply_patch.py:29-66 | the loops compute the replayed image, and whether its checksum is the script's |
| PatchImage.ReplayReproducesBuild | firmware/apply_patch.py:39-60 | replaying the emitted script on the build's base gives the built image, exactly when the base is the recognised one and its two unchecked bytes are stock |
| PatchImage.BuiltImageShape | firmware/build_patch.py:260-265 | length is base plus code (one more if the version string is last), the magic is last, and every other stock byte outside the sites is preserved |
| PatchImage.EditSurvives | firmware/build_patch.py:201-263 | an edit clear of the version string is still there in the final body |
| PatchImage.HookReachesItsCode | firmware/build_patch.py:201-254 | each hook of a built image decodes to a branch to its target address |
| PatchImage.PartSurvives | firmware/build_patch.py:140-200 | each of the eight stretches of assembled code lies whole, in its order after the base, in the final body |
| PatchImage.HookEntersItsStub | firmware/build_patch.py:163-254 | the bytes at the decoded destination of a hook with a stub of its own are that very stub |
| PatchImage.FirstVersionReplaced | firmware/build_patch.py:260-263 | the new version string is written whole where the old one first occurs |
| PatchImage.ScriptAnnouncesResult | firmware/build_patch.py:323-335 | the digest, sizes and checksum in the script are those of the base and of the image a replay gives |
| PatchImage.UncheckedBytesDoNotMatter | firmware/build_patch.py:206-209 | the two bytes the builder does not check never change what it builds, while the script accepts one value of them |
| PatchImage.SomethingBuilds | firmware/build_patch.py:117-265 | images that build and replay exist, so the statements above are not empty |
| PatchImage.HooksAreEdits | firmware/apply_patch.py:50-55 | hooks apart from each other are all checked against the body before the first, and then are plain edits |
| PatchImage.ScriptChecksumGuards | firmware/apply_patch.py:60-66 | an image that differs from the built one by a burst of at most 16 bits fails the script's checksum |
| LaneInventory.RawTempToStore | klipper/instance.py:87-108 | a stored temperature is one of the tag's bounds with its fraction dropped, strictly between 0 and 500, from a real format, and never from inverted bounds |
| LaneInventory.AceInstance.HandleRfidInfoResponse | klipper/instance.py:634-967 | for every reply the new lanes, retries and pending reads are those of `HandleReply`, whose temperature, refusals and stores the rows of LaneLaws below pin field by field |
| LaneInventory.AceInstance.ReadBelongsToOtherLane | klipper/instance.py:618-632 | returns the first other lane holding the trimmed, case-folded SKU, and none exactly when there is none |
| LaneInventory.AceInstance.ApplyRawTagImage | klipper/instance.py:3737-3827 | an image writes its lane's text and gated temperature; an unparsable or Anycubic one writes nothing; the read is no longer pending |
| LaneInventory.AceInstance.StatusUpdateCallback | klipper/instance.py:4287-4505 | slot by slot: an emptied lane loses its tag and, unless printing, its material and heat; a swap for an untagged spool loses its tag; a new tag starts one read; a ready lane without data gets the defaults |
| LaneInventory.ReplyHeatSafety | klipper/instance.py:676-902 | a reply keeps all lanes in [0, 500] exactly when it is not an accepted native one with an unsafe non-integer temperature |
| LaneInventory.RunHeatSafety | klipper/instance.py:634-967 | over any run of replies, images and frames every lane stays in [0, 500] exactly when no such reply occurs |
| LaneInventory.IntegerRunsNeverOverheat | klipper/instance.py:676-902 | integer bounds in all replies suffice |
| LaneInventory.FloatReachesTheHeater | klipper/instance.py:811-902 | the concrete reply that shows the check can be passed |
| LaneInventory.ForeignReplyWritesNoHeat | klipper/instance.py:724-804 | a reply whose version is not 101 never changes temp, extruder_temp, hotbed_temp, material or brand of any lane |
| LaneInventory.ForeignReplyIsRefetched | klipper/instance.py:62-84 | a reply of a version without a rule changes no lane, and asks for the raw image exactly when it is attributed to the slot |
| LaneInventory.RunKeepsHotbeds | klipper/instance.py:811-924 | a stored bed range with integer bounds is never inverted, over any run |
| LaneInventory.RunKeepsDistinct | klipper/instance.py:867-912 | over any run without raw images no two lanes hold one non-blank SKU |
| LaneInventory.ImageKeepsDistinct | klipper/instance.py:3804-3827 | a raw image keeps the lanes distinct exactly when no other lane holds its SKU |
| LaneInventory.GateReopensAtMostSixTimes | klipper/instance.py:867-895 | between accepted reads a lane reopens its gate for a neighbour's tag at most six times, over any run |
| LaneLaws.TempWithinBounds | klipper/instance.py:676-702 | after an accepted native reply with integer bounds in order the lane's temperature lies between them, in every mode |
| LaneLaws.TempByMode | klipper/instance.py:686-694 | lowest and highest mode store the very bounds; average stores a whole number whose double is at most one below the sum of integer bounds, and less than two below any sum |
| LaneLaws.TempFromLess | klipper/instance.py:686-702 | with one positive bound it is that bound in every mode; with none it is the material's, or nothing |
| LaneLaws.AcceptedTempIsDerived | klipper/instance.py:897-902 | the lane gets the derived temperature, and keeps its own when there is none |
| LaneLaws.UnbelievedReplies | klipper/instance.py:634-865 | which replies are dropped, handed over by UID or sent to the raw fetch, by attribution, version, plausibility and sku |
| LaneLaws.BelievedReplies | klipper/instance.py:778-895 | a reply whose sku counts reopens the gate for a neighbour's tag below six retries, gives up at six, and is accepted otherwise, whole exactly when it is a plausible native one |
| LaneLaws.AcceptedReplyStores | klipper/instance.py:897-930 | the lane's sku, material, brand, bed range and nozzle range after an accepted reply; blanks keep the old values |
| LaneLaws.ReplyTouchesItsSlot | klipper/instance.py:634-967 | a reply changes no other lane, retry count or pending read |
| LaneLaws.RefusedReplyKeeps | klipper/instance.py:867-895 | a reply that is not accepted changes at most the read gate; a read stays pending exactly for a raw fetch |
| LaneLaws.NeighbourReads | klipper/instance.py:867-895 | of repeated reads of a neighbour's tag the first six each reopen the gate and the seventh does not |
| LaneLaws.KeyIgnoresPaddingAndCase | klipper/instance.py:618-632 | padding and case do not tell two skus apart |
| LaneLaws.KeyTellsApart | klipper/instance.py:618-632 | trimmed skus that differ beyond case are told apart, and only the empty one has the empty key |
| LaneLaws.CleanSkuIsNumber | klipper/instance.py:738-740 | a sku is clean exactly when it is, padding aside, one to seven digits, with or without SM in any case |
| LaneLaws.RawTempExactly | klipper/instance.py:87-108 | which bound of a raw image becomes the temperature, and exactly when none does |
| LaneLaws.ImageStores | klipper/instance.py:3737-3827 | every field of the lane after a parsed image, and that nothing else changes |
| LaneLaws.EmptiedLane | klipper/instance.py:4370-4408 | an emptied lane forgets its tag, and keeps material and heat exactly while printing |
| LaneLaws.ReadyLane | klipper/instance.py:4409-4500 | when a ready lane forgets a swapped tag, starts one read, and gets defaults |
| LaneLaws.ReopenedLaneIsReadAgain | klipper/instance.py:867-895 | a lane whose gate was reopened starts another read at the next frame that shows its tag |
| AssistClaims.EnsureOff | klipper/instance.py:1370-1401 | when the motion guard returns, no feed claim is left and no rollback claim but the kept one |
| AssistClaims.StepClaims | klipper/instance.py:1160-1652 | no enable, disable, start, stop or motion call sets both claims, whatever is answered |
| AssistClaims.WithoutRestoresNeverBoth | klipper/instance.py:1160-1652 | over any run of those calls the claims exclude each other |
| AssistClaims.MotionGuardClearsAll | klipper/instance.py:1370-1401 | when the motion guard returns with no slot to keep, both claims are -1 |
| AssistClaims.RollbackClaimIsAccepted | klipper/instance.py:1551-1602 | a new rollback claim comes from a start on that slot that the device accepted within its attempts, and leaves no feed claim |
| AssistClaims.RefusedEnableDropsClaim | klipper/instance.py:1238-1300 | after a refused enable the slot is claimed exactly when the device shows it assisting, and a claim that is new is then saved |
| AssistRestore.AceInstance.EnableFeedAssist | klipper/instance.py:1213-1319 | ends a rollback, claims the slot, and on the answer saves the claim, keeps it on a slot the device shows assisting, or drops it |
| AssistRestore.AceInstance.StartRollbackAssistVerified | klipper/instance.py:1551-1602 | ends every other assist, then claims the slot only after an accepted attempt on a slot not reported empty |
| AssistRestore.AceInstance.ReconcileFeedAssistState | klipper/instance.py:4620-4670 | two contradicting heartbeats in a row, on a unit that stays busy while assisting and a slot that is not empty, queue the claim for restore |
| AssistRestore.AceInstance.MaybeRestorePendingFeedAssist | klipper/instance.py:4672-4798 | sends at most one frame, exactly when the conditions of `RestoreExactly` hold; never during a toolchange, to an empty slot, for a stale claim, past thirty attempts or at another chain position |
| AssistRestore.BeatClaims | klipper/instance.py:4672-4798 | one heartbeat sets both claims exactly when it sends a restore that is taken while a rollback is claimed |
| AssistRestore.StartKeepsExclusive | klipper/instance.py:1551-1602 | a rollback start leaves no restore to join it, whatever is answered, exactly when no restore is armed or the slot is reported empty |
| AssistRestore.ConnectKeepsExclusive | klipper/instance.py:4842-4898 | a connect queues no restore under a rollback exactly when none is claimed or no current saved claim exists |
| AssistRuns.RunNeverClaimsBoth | klipper/instance.py:4511-4912 | over any run of heartbeats, calls and connects over any number of units, the claims exclude each other exactly when no restore is taken over a rollback |
| AssistRuns.GuardedRunsNeverClaimBoth | klipper/instance.py:1160-4912 | if every start and connect of a run keeps to the callers' discipline, no answer and no heartbeat sets both claims |
| AssistRuns.GuardIsExact | klipper/instance.py:1160-4912 | an event keeps to the discipline exactly when, for all answers to it and all heartbeats after it, no unit has both claims |
| AssistRuns.BothClaimsAreReachable | klipper/instance.py:4620-4912 | the run from a fresh driver that ends with both claims set |
| AssistRuns.FramesAreRightful | klipper/instance.py:4702-4746 | over any run over any number of units, each of its own generation, every restore frame goes to the loaded tool's own unit and slot and never to one reported empty |
| AssistRuns.OneTargetPerTool | klipper/instance.py:4717-4746 | all restore frames sent under one readable tool number have one target, over units of any mix of generations |
| AssistRuns.AtMostThirtyAttempts | klipper/instance.py:4748-4755 | between resets of its counter a unit makes at most thirty restore attempts, over any run |
| AssistLaws.RestoreIsRetried | klipper/instance.py:4672-4798 | over runs of all units: a queued restore of the loaded tool's slot outlasts its time-outs while fewer than thirty attempts are made, and the next heartbeat in time sends the frame for that slot |
| AssistLaws.EnableSurvivesRestart | klipper/instance.py:1213-4898 | an enable that was taken is queued for restore by the first connect after a restart |
| AssistLaws.DisableSurvivesRestart | klipper/instance.py:1321-4898 | a disabled assist is not queued after a restart |
| AssistLaws.RestoreExactly | klipper/instance.py:4672-4798 | a frame is sent exactly when nothing stands against the queued restore and the wait ends in time, and what is then claimed |
| AssistLaws.StaysQueuedExactly | klipper/instance.py:4672-4798 | a restore stays queued exactly through a toolchange and when its wait times out |
| AssistLaws.OutdatedClaimIsDropped | klipper/instance.py:4702-4783 | a claim of another tool, or made at another chain position, is dropped together with its restore |
| AssistLaws.LossIsNoticed | klipper/instance.py:4620-4670 | on a unit that stays busy while assisting the second contradicting heartbeat in a row queues the claim, and not the first |
| AssistLaws.ConnectExactly | klipper/instance.py:4842-4898 | which slot a connect queues, and exactly when it queues one, keeps or drops the claim |
| AssistLaws.EnableClaims | klipper/instance.py:1213-1319 | after an enable that is not refused the slot is the only claim, saved once accepted and unconfirmed while silent |
| AssistLaws.GuardExactly | klipper/instance.py:1370-1401 | exactly when the motion guard returns, and which claims it ends and spares |
| AssistLaws.StartExactly | klipper/instance.py:1551-1602 | a rollback is claimed exactly when the guard returned, the slot has filament and one of twelve tries is taken |
| TandemPull.Extract | klipper/instance.py:1854-2038 | for every sensor trace: cleared means that the first clear read of the entry switch is the last one made, the one after the final drain at the cap included; a slot error, the cap and an unmoving strand are likewise explained by the trace; backlog at most 8 mm, every STOP sent with the queue drained, less than cap + 8 mm queued, and an unmoving strand aborts at exactly 16 mm executed when the cap is above 12 |
| TandemPull.OutcomeIsDetermined | klipper/instance.py:1854-2038 | no trace is explained in two ways, so outcome and distance are those the trace calls for |
| IncrementalFeed.FeedOn | klipper/instance.py:5170-5235 | terminates with the outcome the trace calls for: reached exactly when the sensor shows it, at full length only by the last read; less than max + one increment is fed, at most five times the increments needed are sent, and it raises for refusals exactly after five in a row |
| IncrementalFeed.OutcomeIsDetermined | klipper/instance.py:5170-5235 | no trace is explained in two ways, so outcome and number of commands are those the trace calls for |
| IncrementalFeed.IncrementsRoundUp | klipper/instance.py:5177-5178 | the increments needed are the remaining length over the increment, rounded up |
| TagJson.FindKey | firmware/native_tag_decoder.c:493-514 | the loop returns the end of the first match at word boundaries, in any case |
| TagJson.KeyEndIsFirst | firmware/native_tag_decoder.c:493-514 | a match with none before it is the one found |
| TagJson.NoKeyEnd | firmware/native_tag_decoder.c:493-514 | nothing is found exactly when no position matches |
| TagJson.JsonExtractString | firmware/native_tag_decoder.c:532-559 | the buffer receives the value cut to max_out - 1 and a NUL, and nothing else changes; success exactly for a value that is not empty |
| TagJson.StringUndoesPrint | firmware/native_tag_decoder.c:532-551 | a printed quoted member gives its value back, whatever surrounds it |
| TagJson.BareUndoesPrint | firmware/native_tag_decoder.c:532-559 | so does a bare value up to the character that ends it |
| TagJson.JsonExtractUint16 | firmware/native_tag_decoder.c:561-573 | the method finds the 16-bit number the key's value starts with |
| TagJson.NumberUndoesPrint | firmware/native_tag_decoder.c:517-573 | a printed decimal comes back, exactly for n up to 65535 and reduced to 16 bits above |
| TagJson.KeyMatchExactly | firmware/native_tag_decoder.c:493-514 | a key matches exactly letter by letter in any case, between the listed boundary characters |
| TagJson.JsonStringReadsBack | firmware/native_tag_decoder.c:532-551 | a JSON string member comes back whatever white space surrounds its colon |
| TagJson.JsonBareReadsBack | firmware/native_tag_decoder.c:532-559 | a bare JSON value comes back up to the comma, closing brace, blank or line break after it |
| TagJson.JsonNumberReadsBack | firmware/native_tag_decoder.c:561-573 | a JSON number member comes back exactly when no line break stands between colon and digits |
| TagFields.ColorUndoesPrint | firmware/native_tag_decoder.c:576-588 | a printed colour comes back packed, with or without #, in either case |
| TagFields.PackedIsInjective | firmware/native_tag_decoder.c:585 | a packed colour determines its channels |
| TagFields.PackedLanes | firmware/native_tag_decoder.c:585 | from the top byte down a packed colour holds red, green, blue and a full byte |
| TagFields.ScanForHexColor | firmware/native_tag_decoder.c:590-598 | returns the first # with six digits, and zero exactly when there is none |
| TagFields.DecodeSku | firmware/native_tag_decoder.c:747-775 | the ladder of five keys over one buffer gives the first value that is not empty, prefixed with SM when it is all digits |
| TagFields.NumericSku | firmware/native_tag_decoder.c:747-775 | a tag whose first sku is the number n, quoted or bare, gets the SKU SM<n> |
| TagFields.OtherSkus | firmware/native_tag_decoder.c:747-775 | a sku that is no number is kept up to nineteen characters, and a tag without one is called OPENSPOOL |
| TagCommit.StrCopy | firmware/native_tag_decoder.c:126-134 | writes the text that fits and a NUL, and nothing else |
| TagCommit.DecodeNativeTag | firmware/native_tag_decoder.c:1003-1060 | returns the parse's code, commits the record for 1 and leaves every byte alone otherwise |
| TagCommit.DecodeCmd68Tag | firmware/native_tag_decoder.c:1066-1105 | returns the parse's code, commits the response for 1 and leaves every byte alone otherwise |
| TagCommit.WriteRecord | firmware/native_tag_decoder.c:1045-1057 | the twelve stores give the specified record |
| TagCommit.WriteResponse | firmware/native_tag_decoder.c:1075-1102 | the stores give the specified response |
| TagCommit.RecordElsewhereKept | firmware/native_tag_decoder.c:44-55 | a commit changes no byte outside the declared fields |
| TagCommit.RecordLanes | firmware/native_tag_decoder.c:1047-1049 | the three text lanes read back as at most 19 characters of the tag's text and hold a NUL |
| TagCommit.RecordStatus | firmware/native_tag_decoder.c:1046 | a committed record is marked as filled |
| TagCommit.ResponseElsewhereKept | firmware/native_tag_decoder.c:1075-1102 | a commit of the response changes no byte outside its fields |
| TagCommit.ResponseFixed | firmware/native_tag_decoder.c:1088-1102 | both ranges are marked present, and the words a tag does not carry are zero |
| TagCommit.AbsentColorKept | firmware/native_tag_decoder.c:1081-1086 | without a colour the old colour word stays |
| TagCommit.ParseByLengthAndMagic | firmware/native_tag_decoder.c:954-996 | fewer than 140 bytes fail, the native magic hands over, and otherwise the decoders decide on at most 192 bytes |
| TagCommit.BackgroundFallsBack | firmware/native_tag_decoder.c:1003-1044 | a short read falls back to the Classic decoder, and a record past the slot table is never touched |
| TagCommit.EntryPointsAgree | firmware/native_tag_decoder.c:1003-1105 | for a page of at least 140 bytes both entry points return one code and, for a foreign tag, hold the same version, SKU, type, colour, temperatures, diameter and grams |
| TagDecode.FindSubstr | firmware/native_tag_decoder.c:476-490 | returns the first position of a word in any case, and -1 exactly when there is none |
| TagDecode.DecodeJsonSpool | firmware/native_tag_decoder.c:740-865 | the statements over their scratch buffers give the specified tag: first values of the key ladders, defaults by material, colour found anywhere |
| TagDecode.PrintReachesBothLayouts | firmware/native_tag_decoder.c:740-1105 | on a JSON page both entry points return 1, and the record holds, at the documented offsets, the number, maker, material, colour, nozzle and bed temperatures and diameter printed on the tag; the response holds the same but for the maker |
| TagDecode.DefaultsByMaterial | firmware/native_tag_decoder.c:830-860 | a missing nozzle or bed bound is made up for by the material, with its order of preference, and an unlikely diameter by 1.75 mm |
| TagDecode.NumbersByAnyName | firmware/native_tag_decoder.c:813-860 | each temperature and the diameter is read from whichever one of its names carries it |
| TagDecode.TextsByAnyName | firmware/native_tag_decoder.c:775-811 | so are maker, material and colour |
| TagDecode.UnnamedTexts | firmware/native_tag_decoder.c:775-799 | a tag without a maker is FilaMan's exactly when it says so anywhere, and one without a material is PLA |
| TagDecode.OnChipDecodeIsRefetched | klipper/instance.py:778-804 | a reply with the version a JSON decode stores never changes a lane, and asks for the raw image exactly when it is attributed to the slot |
| SpoolIdentity.MatchingIsBlind | klipper/ace_tag_formats.py:36-47 | matching is symmetric and ignores separators and case |
| SpoolIdentity.ShortReadsMatch | klipper/ace_tag_formats.py:540-573 | a seven-byte UID matches both of its four-byte reads |
| SpoolIdentity.FullUidsMatchOnlyThemselves | klipper/ace_tag_formats.py:540-573 | UIDs that are not four bytes long match exactly when they are equal |
| SpoolIdentity.MatchesExactly | klipper/ace_tag_formats.py:540-573 | two UIDs match exactly when their normal forms are equal or one is a short read of the other |
| SpoolIdentity.FourBytesMatchSeven | klipper/ace_tag_formats.py:540-573 | a four-byte UID matches a seven-byte one exactly when it is 88 and its first three bytes, or its first four |
| SpoolIdentity.SpoolFromRecord | klipper/ace_tag_formats.py:576-597 | the loop returns the number of the first key that holds one |
| SpoolIdentity.EveryKeyCarriesTheNumber | klipper/ace_tag_formats.py:576-597 | each of the eight keys carries the number of a spool |
| SpoolIdentity.PrintedSpoolReadsBack | klipper/ace_tag_formats.py:576-597 | a positive number is read as that spool, and SM<n> exactly up to seven digits |
| SpoolIdentity.SpoolTextExactly | klipper/ace_tag_formats.py:576-597 | padding aside, SM in any case and one to seven digits are that spool, and digits alone exactly when not zero |
| SpoolIdentity.OtherTextIsNoSpool | klipper/ace_tag_formats.py:576-597 | any other text is no spool |
| SpoolIdentity.ArticleIsNoSpool | klipper/ace_tag_formats.py:576-597 | an article number FM<n> is never read as a spool |
| SpoolIdentity.TagToSpool | klipper/ace_tag_formats.py:576-597 | the host's reader takes the SKU string the firmware makes of a numeric sku n for spool n; that the driver never hands it over is `OnChipDecodeIsRefetched` |
| SpoolIdentity.Resolve | klipper/ace_tag_formats.py:600-676 | id and confirmation are `Binding`, a function of the set of backend spools that `UidBindsExactly` and `NumberDecides` pin; hence blind to their order and repetition |
| SpoolIdentity.UidBindsExactly | klipper/ace_tag_formats.py:632-671 | a tag without a number is bound to an id exactly when a spool of that id, and spools of no other, have a UID equal to the tag's or related to it by a short read |
| SpoolIdentity.NumberDecides | klipper/ace_tag_formats.py:618-628 | a number on the tag decides, confirmed exactly when the backend lists it, whatever the UID |
| SpoolIdentity.BackedBySpool | klipper/ace_tag_formats.py:600-676 | a confirmed id is that of a backend spool which carries the tag's number or claims its UID |
| SpoolIdentity.SharedUidBindsNone | klipper/ace_tag_formats.py:666-668 | a UID claimed by two ids binds none |
| SpoolIdentity.GrowingBackend | klipper/ace_tag_formats.py:600-676 | adding spools keeps a numbered binding, and turns a UID binding into a refusal exactly when another id claims the UID; never into another spool |
| SpoolIdentity.UidSpelling | klipper/ace_tag_formats.py:632-634 | the spelling of the tag's UID does not matter |
| NdefFrame.TlvLengthInvertsEncode | klipper/ace_tag_formats.py:679-691 | length and start of every encoded payload are recovered, in both length forms |
| NdefFrame.EncodeInvertsTlvLength | klipper/ace_tag_formats.py:679-691 | every image that delivers its declared length is an encoding with something after it |
| NdefFrame.ClosingIsFirstBalance | klipper/ace_tag_formats.py:391-398 | the depth counter stops where the braces first balance, and not at all if they never do |
| NdefFrame.FirstJson | klipper/ace_tag_formats.py:386-403 | the nested loops return the object at the first start that works |
| NdefFrame.FirstObjectIsLeast | klipper/ace_tag_formats.py:386-403 | that is the parse of the matched text at the least open brace where it parses |
| NdefFrame.NoFirstObject | klipper/ace_tag_formats.py:386-403 | nothing is found exactly when no matched text parses |
| NdefFrame.RepairJson | klipper/ace_tag_formats.py:406-427 | the nested loops return the repair at the first start that gives a truthy one |
| NdefFrame.RepairKeepsTheMost | klipper/ace_tag_formats.py:410-423 | a repair is the parse of the text cut at its last top-level comma where that parses |
| NdefFrame.FirstRepairIsLeast | klipper/ace_tag_formats.py:406-427 | the repair returned is the one at the first brace whose best cut is truthy |
| NdefFrame.NoRepairAt | klipper/ace_tag_formats.py:406-427 | a start gives no repair exactly when it is no brace, no cut parses, or the last that parses is empty |
| NdefFrame.NothingToRepair | klipper/ace_tag_formats.py:410-423 | there is no repair at a start where no such cut parses |
| NdefFrame.NdefIsIntact | klipper/ace_tag_formats.py:694-713 | computes the intactness predicate |
| NdefFrame.IntactIgnoresTail | klipper/ace_tag_formats.py:694-713 | bytes after the payload never matter |
| NdefFrame.TruncationIsRefused | klipper/ace_tag_formats.py:694-713 | every proper prefix of an encoded payload is refused |
| NdefFrame.IntactIsFramed | klipper/ace_tag_formats.py:694-713 | an intact image is an encoded payload that parses, with something after it |

## Left out

- Serial, socket, HTTP, Moonraker, gcode text, logging and persistence: replies, sensors and the backend list are parameters.
- RC522 driving, antenna power and MIFARE authentication: what the Classic decoder reads is a parameter of `DecodeNativeTag`.
- The UID path of command 68 (firmware/native_tag_decoder.c:1112): it commits through the same layout.
- The decoders of the Prusament and Creality formats and the catalogues: each is a ladder of one-branch rules; they are the parameter `branded` of `DecodeForeign`.
- Infinite or undefined floats in a tag's temperature bounds: numbers are integers or reals.
- Numbers of more than 31 bits in `parse_int`: their signed overflow is undefined in C; the low 16 bits are modelled.
- `json.loads`: any partial function on byte strings; a truth test says which results count as empty.
- The digest of the base image: any function of it.
- The toolchain, and the spelling of the script as JSON and hexadecimal: the code and the script are values.
- Render-only lane fields (colour, icon, diameter, weights) and the anticollision bookkeeping of UIDs.
- LaneInventory: the fetch of a raw image is an outcome of a reply and its result another event, in any order.
- Answers to assist requests that arrive after a later call: each is delivered before the next call.
- A failing restore wait other than a time-out is one outcome, `Failed`, whatever the exception.
- The first feed before the incremental loop, and the heating and parking around the tandem pull.
- Distances are reals or integers in one unit instead of floats.
- Text handling (strip, case, digits) outside ASCII.
- `resolve`'s explanatory text and its call of `ensure_basic_metadata`.
- Binding: does not say which UID field matched, because the answer's text is left out.
- `bambu_kdf` of klipper/ace_tag_formats.py: a different derivation, which counts sectors in the HKDF counter byte.
- `identify_by_jog`: has no bound unless the device eventually accepts a backward move.
- The assembler stubs, `tools/pbdesc_decode.py`, the one-off source rewriters and the live hardware scripts.
