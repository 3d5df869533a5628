# Dock firmware: update, infrared and time stamp model

A Dafny model of four parts of the dock firmware, with proofs about them. `dafny verify dfyconfig.toml`
checks everything. Paths below are relative to the firmware repository.

**Firmware update** (`Bytes`, `Flash`, `Partition`, `ProcessorSpec`, `ProcessorFacts`, `Processors`, `Updater*`,
`SignedLine`). Network chunks are gathered in one 4096-byte sector buffer. A header machine strips a text line and a
length-prefixed time stamp reply in place; what follows is hashed and written to flash sector by sector, with the
first byte (the magic) withheld until activation. `UpdaterSpec` and `ProcessorSpec` say what each operation does to
the whole state, on values; `Updater`, `Processors` and `Partition` are the objects, with a real buffer and a real flash
array, and every method is proved to leave the state those functions say. Flash erases set bits, writes clear bits, and
any call may fail and leave part of its work behind. Digests, reply parsing, chain checks and allocations are
uninterpreted members of `Env`. The main results are about whole runs of calls (`UpdaterRuns`, `UpdaterSound`), about
streams in arbitrary pieces (`UpdaterStream`, `UpdaterFollow`, `UpdaterAny`, `UpdaterGate`, `UpdaterFits`), about
complete uploads (`UpdaterImage`, `UpdaterShort`, `UpdaterInstall`, `UpdaterPlain`, `UpdaterWired`, `UpdaterService`),
and about the sessions after the first (`UpdaterLater`, `UpdaterAgain`, `UpdaterGateExact`).

**Infrared send service** (`IrProtocol`, `IrConservation`, `IrRepeat`, `IrAtomic`, `IrOverlap`, `InfraredService`). Any
number of client tasks call `send` and `stopSend`; one worker peeks a queue of length one, transmits under a repeat
callback, replies, frees the message and resets the queue. Every access to shared state is one step, a run is any
interleaving of steps, and touching freed memory is a fault. `InfraredService` has `send`, `stopSend` and the callback as
methods on fields, each proved to be the matching schedule of protocol steps with nothing in between.

**Code and request parsers** (`Numerals`, `IrCodes`, `IrCodeFacts`, `HexCodes`, `GlobalCacheRequests`). Two-pass parsers
over C strings with 16-bit indices and counts, and the C library's number reading with its clamping, wrapping and
prefixes. The array parsers are loops on arrays, proved against split-and-read functions.

**Signer selection** (`Signer`). The in-place move-to-front of a linked list of certificates, and the digest and signature
checks around it (RFC 3161 section 2.4.2, RFC 5652 section 5.4).

Where the code and its comments differ, the model follows the code:

- `DeviceCheckProcessor.h:12-13` speaks of the first 128 bytes; the code searches the whole buffered text for the keys
  and uses 128 only as the least amount to wait for.
- `service_ir.h:37` says a busy sender answers 429; the code answers 202 to a repeat of the code being sent.
- The image magic is 0xE9, the value of `ESP_IMAGE_HEADER_MAGIC`; the header that defines it is not part of this model.

Some things one would expect are not true of the code. Each has the exact condition under which it holds, and cases
that show the limit:

- The overfill test leaves out the buffered bytes: `UpdaterStream.OverfillExact`, and `UpdaterStream.OverfillHappens` for
  writes that get through.
- A payload of less than a sector is written only when the announced size is that of the image and the reply is complete
  before the last byte: `UpdaterInstall.ImageInstalls`, `UpdaterShort.ShortPayloadStays`.
- Behind the device check a yes from `end` does not mean that the firmware is in flash. It is when the stream has a
  sector or more behind its reply and `hasError()` is false after the writes and after `end`:
  `UpdaterWired.LongUploadLands`; state by state, `UpdaterWired.WiredEnd`. Uploads that are lost although `end` and
  `activate` say yes: `UpdaterWired.FailedFlushActivates`, `UpdaterService.WorkingDeviceCanLose`. With a stream too short
  for its header to get through, both say yes over the old firmware, exactly when that can be repaired and booted:
  `UpdaterWired.OldFirmwareActivates`.
- The device check keeps the gate for the first session only, since neither processor is reset for the next. Once
  anything has been flashed the chain asks for the magic and nothing else: `UpdaterLater.LaterIsLegacy`, with
  `UpdaterAgain.LaterInstallsAnything` and `UpdaterAgain.SecondPartInstalls` for sessions that install any firmware. The
  states of the chain from which the gate holds: `UpdaterGateExact.GateExact`.
- Behind the device check a yes from `end` says nothing about the digest, in any run: `UpdaterWired.WrongDigestEnds`. For
  the RFC 3161 processor installed directly it does, in every run: `UpdaterSound.EndChecksFlash`.
- A model that contains the text `hw=` is taken for its own revision: `SignedLine.DeviceReadsLine`.
- A stop survives to the end of the transmission exactly when no sender is left between seeing the queue empty and
  clearing the bits: `IrRepeat.StopStandsExactly`, and `IrOverlap.OverlapLosesStop` for a run that loses one.
- A 202 can be given for a code other than the one in the queue when sends overlap: `IrOverlap.OverlapRepeatsWrongCode`.
  Without overlap it is not: `IrAtomic.CodeIsQueued`.
- Doubling a Pronto pair count in 16 bits loses its top bit: `IrCodeFacts.ProntoBursts`, `IrCodeFacts.WrappedPairCount`.
- The long GlobalCache form agrees with the short one exactly when the code does not itself start with the command word
  or has three to five values, when both are refused: `IrCodeFacts.LongFormAgrees`, and `IrCodeFacts.LongFormOfLong`
  for a code on which they differ.
- The least number of GlobalCache values does not hold for texts that start with the command word. The count wraps when
  three are taken off, so these pass with nine values or more and with fewer than three: `IrCodeFacts.LongFormCounts`.
- The repeat count of a `sendir` request is checked after it has been cut to 16 bits, so exactly the counts whose low 16
  bits are 1 to 50 pass: `GlobalCacheRequests.SendsWhatIsAsked` with `GlobalCacheRequests.LowBits`.
- The `completeir` reply loses its final carriage return when port and number together have more than eight characters:
  `GlobalCacheRequests.ReplyNamesPort`.

## Model

| member | source | states |
|---|---|---|
| `UpdaterRuns.RunsAreSafe` | lib/Update/src/Updater.cpp:221-419 | after every sequence of calls, under any faults and any processor: writes so far end on a sector boundary or the session is full, the first payload byte waits in the buffer as the magic until it is flushed, calls keep the sector discipline, an erased first sector has 0xFF in front, and nothing counts as flashed before that erase |
| `UpdaterRuns.NeverHalfBootable` | lib/Update/src/Updater.cpp:274-292 | in every run, from the first completed erase of sector 0 until a repair is tried, the partition is not bootable |
| `UpdaterRuns.ErasesSparePayload` | lib/Update/src/Updater.cpp:282-296 | in every run each erase starts at a multiple of 4096 at or above every byte its session has written before |
| `FlashModel.DisciplineSpares` | lib/Update/src/Updater.cpp:282-292 | what the log discipline means for any two calls of one session |
| `FlashModel.EnableRestores` | lib/Update/src/Updater.cpp:57-77 | under AND-writes, putting the magic over 0xFF yields the magic and changes nothing else; a torn attempt changes at most the first byte |
| `UpdaterRuns.AcceptedMeansMagic` | lib/Update/src/UpdateProcessorLegacy.cpp:10-24 | whichever processor is installed, a header is accepted only with the magic first in the buffer and the buffer unchanged |
| `UpdaterStream.ChunkingDoesNotMatter` | lib/Update/src/Updater.cpp:388-419 | `write(a)` then `write(b)` leaves and returns what `write(a ++ b)` does: buffer, counters, processor, flash, error, through every failure |
| `UpdaterStream.AnyPieces` | lib/Update/src/Updater.cpp:388-419 | any division of a stream into writes leaves what one write leaves |
| `UpdaterStream.OverfillExact` | lib/Update/src/Updater.cpp:396-400 | data beyond `remaining()` aborts; a write let through without error keeps the total within the size exactly when the data also fits behind the buffered bytes |
| `UpdaterStream.OverfillHappens` | lib/Update/src/Updater.cpp:396-411 | two writes that together exceed the announced size are both let through whenever neither alone does and both fit the buffer |
| `UpdaterAny.BytesConserved` | lib/Update/src/Updater.cpp:230-296 | for every processor, legacy uploads allowed or not: while no error occurs, `_progress + _bufferLen` is what was accepted, `_progress` is the line plus the reply bytes kept plus `_progress_flash` (without a header just the last), the buffer is the next unconsumed stream bytes, and flash holds the payload without its first byte |
| `UpdaterFits.ErasesStayInside` | lib/service_ota/service_ota.cpp:112-114 | for every processor: when the size is a multiple of 4096, every erase the writes and the end of a session try ends inside the announced size and so inside the partition |
| `UpdaterGate.HeaderGate` | lib/service_ota/DeviceCheckProcessor.cpp:24-74 | unless the line passes (model and revision match), a reply of the length its own two length bytes announce parses with an accepted digest and a verified chain, and the magic follows, neither the writes nor the end of a session touch the flash; the first session, and any other in front of a chain that has let no line through |
| `UpdaterGateExact.GateExact` | lib/service_ota/DeviceCheckProcessor.h:20 | for every state the wired chain can be in: all sessions on all devices keep that gate if and only if no line has been let through or the reply is complete and was refused |
| `UpdaterLater.FlashedMeansVerified` | lib/service_ota/DeviceCheckProcessor.cpp:24-74 | every run of the wired chain, any number of sessions, every fault: an erase or a write has been tried only if a line has passed the device check and a reply was verified, which is still kept |
| `UpdaterLater.LaterIsLegacy` | lib/service_ota/DeviceCheckProcessor.h:20-24 | once a run has tried an erase or a write, every later call leaves the state, and `end` gives the answer, that the legacy processor would |
| `UpdaterAgain.LaterInstallsAnything` | lib/service_ota/DeviceCheckProcessor.h:20-24 | without flash faults the session after that installs byte for byte every firmware with the magic in front, of a sector or more or of the announced size, although it does not open the gate |
| `UpdaterAgain.SecondPartInstalls` | lib/service_ota/service_ota.cpp:153-245 | the same on a working device, after one good upload of a script-made image: two file parts of one request |
| `UpdaterSound.EndChecksFlash` | lib/Update/src/Updater.cpp:355-386 | RFC 3161 processor, legacy off, every run and every fault: `end` says yes exactly when the session and its digest context are live and the reply's digest is the hash of what is in flash with the magic put back |
| `UpdaterSound.AcceptedMeansSigned` | lib/Update/src/UpdateProcessorRFC3161.cpp:354-398 | an update reported good has a verified reply whose digest is that of the flashed bytes |
| `UpdaterSound.ActivatedMeansSigned` | lib/Update/src/Updater.cpp:301-386 | every run and every fault: when `end` and then `activate` say yes, the first `_progress_flash` bytes of the partition have the digest of the verified reply |
| `UpdaterSound.RunsAreBound` | lib/Update/src/UpdateProcessorRFC3161.cpp:308-351 | in every run a running digest context has seen exactly the flashed bytes, under a verified reply |
| `UpdaterInstall.ImageInstalls` | sign_firmware.py:142-163 | line, reply and payload in any pieces, then `end(true)` and `activate()`: a payload of a sector or more, or a shorter one the updater still reaches, is accepted, the reply recovered and flash equal to the payload byte for byte, active exactly when the boot partition can be set; any other leaves the flash as it was |
| `UpdaterPlain.PlainInstalls` | lib/Update/src/UpdateProcessorLegacy.cpp:10-24 | the round trip of the legacy processor without flash faults: a firmware with the magic in front is installed byte for byte if it is a sector or more or fills the announced size, and otherwise leaves the flash as it was |
| `UpdaterShort.ShortPayloadStays` | lib/Update/src/Updater.cpp:370-375 | whatever fails, a payload under one sector does not reach the flash unless the announced size is that of the image and the reply, in whole sectors behind the line, is complete before the last byte |
| `UpdaterShort.ShortIn` | lib/Update/src/Updater.cpp:402-417 | after a short image is written the flash is untouched, and without error the payload is next to be written exactly under that condition |
| `UpdaterService.UploadInstalls` | lib/service_ota/service_ota.cpp:78-95 | the wired chain from construction: `begin`, any pieces of a script-made image for this model and revision, `end(true)`, `activate` install the firmware |
| `UpdaterService.WorkingDeviceInstalls` | lib/service_ota/service_ota.cpp:78-95 | where every library call succeeds, that needs only a framed reply, a firmware of a sector or more, and room: the hypotheses of the round trip can be met |
| `UpdaterService.SignedLineIsGood` | sign_firmware.py:145 | the script's header line, for the device's model and revision as the device reads them, is one both processors let through, whatever lengths it states |
| `SignedLine.DeviceReadsLine` | lib/service_ota/DeviceCheckProcessor.cpp:44-65 | the device check passes a script-made line if and only if the model is the device's and the revision read is there and the device's; that is the written one unless the model contains the key text |
| `SignedLine.ModelFound` | lib/service_ota/DeviceCheckProcessor.cpp:76-99 | the key search in such a line yields exactly the model written into it |
| `SignedLine.RevisionFound` | lib/service_ota/DeviceCheckProcessor.cpp:76-99 | the revision read is the one written, or what follows the key text inside the model when it is there |
| `UpdaterWired.WiredEnd` | lib/service_ota/DeviceCheckProcessor.h:20-24 | behind the device check `end(true)` says yes to every stream taken without error; once the header is through, it leaves no error exactly when its own flush worked, and then flash holds the payload without its first byte; before that it leaves the flash as it was |
| `UpdaterWired.LongUploadLands` | lib/service_ota/service_ota.cpp:195-245 | with a sector or more behind the reply, of the length its own bytes announce, and no error after the writes and after `end(true)`, flash holds all of the payload but its first byte |
| `UpdaterWired.OldFirmwareActivates` | lib/Update/src/Updater.cpp:301-386 | when the header never got through, `end(true)` says yes over an untouched flash, and `activate` says yes exactly when its three flash calls work, the old first byte has the bits of the magic, and the result can be booted |
| `UpdaterWired.ActivateExact` | lib/Update/src/Updater.cpp:301-353 | for every state and fault: the exact condition of a yes, and that it leaves the flash as it was with the magic first |
| `UpdaterWired.FailedFlushActivates` | lib/Update/src/Updater.cpp:370-386 | every good image of more than a sector, no whole number of sectors and not ending in 0xFF: with one flash failure at the last flush `end` and `activate` say yes and the flash does not hold the payload |
| `UpdaterService.WorkingDeviceCanLose` | lib/service_ota/service_ota.cpp:78-95 | the same from construction on, for every such image of the signing script |
| `UpdaterWired.WrongDigestEnds` | lib/service_ota/DeviceCheckProcessor.h:20-24 | behind the device check, whenever a run ends with yes it does the same on a device on which no data at all has the digest of the reply |
| `ProcessorFacts.InitSteps` | lib/Update/src/UpdateProcessorRFC3161.cpp:140-189 | the first header step, with and without the device check: waits, refuses, or has found a passing line and a length field and moved exactly what follows the line to the front |
| `ProcessorFacts.RfcSteps` | lib/Update/src/UpdateProcessorRFC3161.cpp:191-291 | collecting the reply takes the next bytes in order and moves the machine on only with a verified reply |
| `Processors.UpdateProcessorRFC3161.ProcessHeader` | lib/Update/src/UpdateProcessorRFC3161.cpp:134-306 | the object's step on the caller's buffer, in place, is the specified one in every state |
| `Processors.UpdateProcessorRFC3161.CutLine` | lib/Update/src/UpdateProcessorRFC3161.cpp:140-189 | INIT: terminator written, length read, buffer shifted, allocation or refusal as specified |
| `Processors.UpdateProcessorRFC3161.CollectReply` | lib/Update/src/UpdateProcessorRFC3161.cpp:191-291 | RFC: bytes copied to the reply buffer, the rest compacted, verdict as specified |
| `Processors.UpdateProcessorRFC3161.ProcessPayload` | lib/Update/src/UpdateProcessorRFC3161.cpp:308-351 | the digest context takes the whole buffer, or the failure is reported |
| `Processors.UpdateProcessorRFC3161.ProcessEnd` | lib/Update/src/UpdateProcessorRFC3161.cpp:354-398 | the digest is finished, compared and released as specified |
| `Processors.UpdateProcessorRFC3161.Clear` | lib/Update/src/UpdateProcessorRFC3161.cpp:114-131 | reset drops reply buffer and context and returns to INIT |
| `Processors.DeviceCheckProcessor.ProcessHeader` | lib/service_ota/DeviceCheckProcessor.cpp:24-74 | terminates the line in place, checks, and hands on the buffer exactly as it was |
| `Updater.UpdateClassEx.constructor` | lib/Update/src/Updater.cpp:80-109 | an idle updater in the model's constructed state |
| `Updater.UpdateClassEx.Begin` | lib/Update/src/Updater.cpp:151-209 | new state and answer as specified, every refusal included |
| `Updater.UpdateClassEx.Write` | lib/Update/src/Updater.cpp:388-400 | new state and result as specified |
| `Updater.UpdateClassEx.WriteBytes` | lib/Update/src/Updater.cpp:402-418 | the loop computes the specified result and terminates although turns may copy nothing: bytes left, then buffer full or not, decrease |
| `Updater.UpdateClassEx.WriteBuffer` | lib/Update/src/Updater.cpp:221-298 | header branch and payload branch on the real buffer and flash leave the specified state |
| `Updater.UpdateClassEx.WithholdMagic` | lib/Update/src/Updater.cpp:274-279 | the first byte of all is replaced by 0xFF; the magic assertion in front of it cannot fail |
| `Updater.UpdateClassEx.End` | lib/Update/src/Updater.cpp:355-386 | flush with ignored result, processor verdict and aborts as specified |
| `Updater.UpdateClassEx.Activate` | lib/Update/src/Updater.cpp:301-353 | repair, check and boot switch as specified, every failure included |
| `Updater.UpdateClassEx.Reset` | lib/Update/src/Updater.cpp:116-133 | every session field cleared, the processor reset |
| `PartitionDevice.Partition.EraseSector` | lib/Update/src/Updater.cpp:282 | sets one sector to 0xFF in place, or fails leaving any part done |
| `PartitionDevice.Partition.Program` | lib/Update/src/Updater.cpp:289 | ANDs the data into the partition, or fails leaving any part done |
| `PartitionDevice.Partition.EnablePartition` | lib/Update/src/Updater.cpp:57-77 | reads four bytes, puts the magic first, writes them back |
| `IrConservation.EveryMessageOnce` | lib/service_ir/service_ir.cpp:368-498 | every interleaving: no freed message is touched or freed again; messages are transmitted, answered, freed and discarded in the order accepted, each once, each with its own client and message number; at most the last accepted one is unfinished |
| `IrConservation.ZeroMeansAccepted` | lib/service_ir/service_ir.cpp:239-278 | every interleaving: the sends that returned 0 or are about to are exactly the accepted messages; no other answer has one, and none is returned twice |
| `IrConservation.NothingLeaks` | lib/service_ir/service_ir.cpp:257-276 | when no send is under way and the queue is empty, every message allocated is free and every accepted one was answered |
| `IrRepeat.RepeatsBounded` | lib/service_ir/service_ir.cpp:341-365 | every interleaving: callbacks that asked for more plus repeats still to go are at most repeat times one plus the 202 answers since the sender cleared the bits |
| `IrRepeat.CountsDown` | lib/service_ir/service_ir.cpp:357-364 | left alone, a transmission is repeated exactly as often as its count says, however often the library asks |
| `IrRepeat.GrantPlaysOut` | lib/service_ir/service_ir.cpp:242-247 | a 202 during a transmission that is not stopped makes the next callback count anew: left alone from then on, the code is repeated as often as the message's own count says |
| `IrRepeat.NoStaleRequest` | lib/service_ir/service_ir.cpp:254-266 | every interleaving: a sender about to queue finds a bit set only if it was requested after that sender cleared the bits |
| `IrRepeat.StopWins` | lib/service_ir/service_ir.cpp:346-356 | with no sender left to clear the bits, a stop stays in force to the end of the transmission and no callback reading the bits from then on asks for more |
| `IrRepeat.StopStandsExactly` | lib/service_ir/service_ir.cpp:280-288 | a stop survives every continuation of the transmission if and only if no sender stands between seeing the queue empty and clearing the bits |
| `IrAtomic.RepeatsSinceQueued` | lib/service_ir/service_ir.cpp:341-365 | without overlapping sends the bound counts the 202 answers since the message was queued |
| `IrAtomic.StartsClear` | lib/service_ir/service_ir.cpp:239-266 | without overlapping sends a message is queued into an empty queue with the repeat bit clear, and the stop bit set exactly when a stop came after the clearing |
| `IrAtomic.CodeIsQueued` | lib/service_ir/service_ir.cpp:242-274 | without overlapping sends the current code is the queued one, and 202 is given only for that code |
| `IrAtomic.StopEndsRepeats` | lib/service_ir/service_ir.cpp:280-288 | without overlapping sends a stop during a transmission ends its repeats whatever is accepted later |
| `IrOverlap.OverlapLosesStop` | lib/service_ir/service_ir.cpp:239-255 | a reachable state in which an overlapping send clears a stop and the next callback asks for more |
| `IrOverlap.OverlapRepeatsWrongCode` | lib/service_ir/service_ir.cpp:239-274 | a reachable state with one message in the queue in which a send of another code gets 202, and the queued message goes on because of it |
| `InfraredObject.InfraredService.Send` | lib/service_ir/service_ir.cpp:195-278 | an uninterrupted `send` is the protocol's steps in order; answer 500, 503, 400, 202, 429 or 0, and a message queued exactly for 0 |
| `InfraredObject.InfraredService.StopSend` | lib/service_ir/service_ir.cpp:280-288 | an uninterrupted `stopSend` is the protocol's two steps |
| `InfraredObject.InfraredService.RepeatCallback` | lib/service_ir/service_ir.cpp:341-365 | an uninterrupted callback is the protocol's steps, and answers true exactly when it counted one more |
| `IrCodes.CountValuesInCStr` | lib/util/ir_codes.hpp:110-126 | one more than the separators, 0 for a null or empty text, for every text under 32768 characters |
| `IrCodes.Fill` | lib/util/ir_codes.hpp:219-237 | the fill loop writes exactly the values after the first tokens to skip, and never past the array |
| `IrCodes.ProntoBufferToArray` | lib/util/ir_codes.hpp:128-190 | count pass and fill pass agree: an array of the counted size holding the parsed values, null exactly when memory fails or the code is refused |
| `IrCodes.GlobalCacheBufferToArray` | lib/util/ir_codes.hpp:192-241 | the same for the GlobalCache format, with the 16-bit subtraction of the long form |
| `IrCodeFacts.WordsOfTokens` | lib/util/ir_codes.hpp:149-163 | texts of digit tokens give one value per token, a trailing separator adding none |
| `IrCodeFacts.GlobalCacheValues` | lib/util/ir_codes.hpp:192-241 | comma-separated numbers are refused below six and otherwise give each number's kept value; with a comma after the last, five are enough and nothing is added |
| `IrCodeFacts.GlobalCacheKeepsMod` | lib/util/ir_codes.hpp:226 | a value taken is the number modulo 65536 exactly when the number fits 32 bits or ends in sixteen ones |
| `IrCodeFacts.LongFormAgrees` | test/test_native_ir/test_ir_codes.cpp:162-186 | the long form and the bare code are accepted alike with the same values if and only if the code does not itself start with the command word or has three to five values |
| `IrCodeFacts.LongFormOfLong` | lib/util/ir_codes.hpp:200-204 | a code for which the two forms differ: the command word alone is accepted, and its long form is not accepted with the same values |
| `IrCodeFacts.LongFormCounts` | lib/util/ir_codes.hpp:198-209 | a text that starts with the command word is accepted if and only if it has fewer than three values or nine and more |
| `IrCodeFacts.ProntoBursts` | lib/util/ir_codes.hpp:172-185 | an accepted code has both burst sequences inside its array if and only if both pair counts are below 0x8000 |
| `IrCodeFacts.ProntoRoundTrip` | lib/util/ir_codes.hpp:152-162 | 16-bit words printed in hexadecimal parse back to themselves |
| `IrCodeFacts.ProntoPrinted` | lib/util/ir_codes.hpp:128-190 | a printed code with pair counts below 0x8000 is accepted, with its own words, if and only if it is raw, has six words or more, and both bursts lie inside it |
| `IrCodeFacts.WrappedPairCount` | lib/util/ir_codes.hpp:172-175 | an accepted code that announces 0x8000 pairs and holds one |
| `HexCodes.BuildIRHexData` | lib/util/ir_codes.hpp:56-108 | succeeds exactly on the texts the format allows and then stores the four values |
| `HexCodes.LearnedRoundTrip` | lib/service_ir/service_ir.cpp:574-582 | a learned code parses to the four values it was printed from |
| `HexCodes.ParsedPrintsBack` | lib/util/ir_codes.hpp:56-108 | every parsed code with a positive protocol is in range and survives printing and parsing |
| `GlobalCacheRequests.ParseGcRequest` | lib/util/globalcache.hpp:30-98 | error code or stored fields as specified, success with nothing stored for a missing request |
| `GlobalCacheRequests.SamePort` | lib/service_ir/service_ir.cpp:157-193 | a request passing the prefix check and carrying an ID is parsed successfully exactly when its port is accepted, with module 1 and that port |
| `GlobalCacheRequests.SendsWhatIsAsked` | lib/service_ir/service_ir.cpp:157-193 | a written request is accepted exactly for ports 1 to 15 and 16-bit repeat counts 1 to 50, and sent with that port and count |
| `GlobalCacheRequests.ParsesWhatIsWritten` | lib/util/globalcache.hpp:53-97 | a written request with module, port and parameters parses back to its parts exactly for ports 1 to 15 |
| `GlobalCacheRequests.ReplyNamesPort` | lib/service_ir/service_ir.cpp:464-474 | the reply names the port that was driven, the only one with those emitters, and keeps its carriage return exactly when port and number together have at most eight characters |
| `Numerals.ScansNumeral` | lib/util/ir_codes.hpp:36-54 | number reading takes exactly the digits in front and leaves the rest |
| `Signer.SelectSigner` | lib/Update/src/mbedtls-ts-addons/ts.cpp:488-529 | the first certificate with the named digest becomes the head of an acyclic list with the others in their old order; without one the list stays |
| `Signer.Relink` | lib/Update/src/mbedtls-ts-addons/ts.cpp:513-524 | the pointer changes turn the list into exactly the moved one |
| `Signer.MoveKeeps` | lib/Update/src/mbedtls-ts-addons/ts.cpp:521-523 | moving to the front is a permutation that keeps the order of the rest |
| `Signer.VerifyReply` | lib/Update/src/mbedtls-ts-addons/ts.cpp:575-680 | when the reply is accepted the key that verified it belongs to the head of the list, which is what is checked against the trust chain; the list keeps its certificates whatever the verdict |

## Left out

- `writeStream`, the templated `write`, `UpdateProcessorWithChecksum`, `canRollBack` and `rollBack`: not used by the update service.
- SPIFFS sessions: the model has the application partition only and gives any other command the bad-argument error.
- The progress callback, the LED and log output of the updater: no effect on the state modelled.
- The AGAIN answer of a payload step (`Updater.cpp:265-266`): no processor in the repository gives it.
- `setProcessor` during a session and the destructor: the constructor takes the processor.
- Cryptography, X.509 and DER beyond the two length bytes: uninterpreted functions of `Env` and `Crypto`. Contents of fresh memory and of bytes behind the sector buffer are arbitrary (`Env.junk`, `Env.past`).
- Allocations and digest set-up that succeed once and fail later in the same run with the same size or type: in `Env` they depend on size or type alone, flash failures on the call.
- Torn reads of the current infrared code: assigning that string is one step of the protocol, while the source copies it byte by byte.
- `UpdaterInstall.ImageInstalls`, `UpdaterService.UploadInstalls`: about the first session of the wired chain; what a later one does is `UpdaterLater.LaterIsLegacy`.
- `ZeroMeansAccepted`: about the interleavings of clients and worker; the response queue of five slots with its 10 ms wait is not modelled, a reply counts when it is attempted.
- The IR waveforms and the number of callbacks they cause: a transmission is any number of callback steps.
- IR learning apart from the bit that refuses sends, and the reboot on failed allocation (a run simply ends there).
- The GlobalCache TCP server, JSON, HTTP, WebSocket, Bluetooth, LED patterns and configuration: plumbing over libraries that are not shown.
- `IrCodes` methods on texts of 32768 characters and more: the 16-bit index overflows there.
- Freeing of rejected arrays and of the certificate list of a refused reply: memory is not reused in these parts of the model.
- A time stamp reply whose signer has no certificate: the source then reads a key through a null pointer, which the model reports as the verdict `NoKey`.
