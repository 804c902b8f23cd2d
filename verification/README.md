# Verified models of the speaker's services

This project models, in Dafny, five parts of the software that brings the
speaker back to life, and proves what each of them promises over all inputs,
all interleavings and all failures of the devices around them.

* **The Android property area** (`PropertyTable`, `PropertyArea`, `PropertyMap`,
  `PropertyCrash`, `PropertyLayout`, `PropertyServer`, `PropertyReader`). A 32768-byte array holds
  a header, a table of contents and 248 records. The class `Area` changes it in
  place; every method is tied to the exact sequence of stores it issues. On those
  stores rest the refinement to a finite map, the consistency of the table after
  a stop between any two stores, and the argument that a reader which samples a
  record's serial twice cannot be fooled by a torn value.
* **Two MessagePack codecs** (`MessagePack`, `SliceCodec`, `CursorCodec`,
  `CodecLaws`, `CodecRoundTrip`, `CodecFormat`, `CodecCanonical`, `CodecListing`,
  `CodecReencode`). One threads slices, the other moves a cursor over a buffer.
  Both are proved against functions on trees; the functions are compared with
  each other, inverted, and shown to be canonical.
* **The DSP's SPI link** (`DspFrame`, `DspStream`, `DspExchange`, `DspLink`).
  Framing and its checksum, resynchronisation on a byte stream, the retrying
  request loop, and the queue with its completions, with enqueuers interleaved
  wherever the lock is free and every access to the device free to fail.
* **Controllers** (`VolumeController`, `MicMute`, `MicMuteRestart`, `VoiceDuck`, `Expander`,
  `CaptureHub`). The volume worker and its notification slot, the microphone
  mute machine with its ambiguous outcomes, the duck's restore receipt, the
  output register shared by two processes, and the hub that never shows a client
  a gap.
* **The NAND image** (`NandImage`, `NandLaws`, `NandBundle`, `NandRebuild`). The
  parser and, byte by byte, which files it accepts and what it reports; the script
  that rebuilds the image with two replaced file systems, when it succeeds, and the
  theorem that the parser takes the rebuilt image and finds the same records in it.

## How the models read

Code that changes things in place is a class or a method over an array, proved
against a specification function; the laws are lemmas about those functions.
Concurrency is modelled at the granularity of the locks: a method such as
`Enqueuers`, `Setters` or `Others` stands for any number of steps of other
goroutines and is called wherever they may run, and the invariant it needs and
keeps holds in every reachable state. Failures are nondeterministic. Where the
source says nothing about whether a failed call took effect, the model allows
both. Histories (stores issued, frames heard, calls made) are ghost state.

Some facts the proofs brought out:

* A name with an embedded zero byte can be stored in the property area and never
  be found again; the socket's field trimming keeps such names out
  (`PropertyCrash.StoredReadsBackIffNulFree`, `PropertyServer.Trim`).
* An update of a property stopped between its first and last serial store leaves
  the record dirty for good: later updates advance the serial by two and keep its
  parity (`PropertyReader.InterruptedRecordStaysDirtyIff`).
* A payload over 65535 bytes is accepted by the frame builder, but its length
  field is truncated and no receiver takes the frame
  (`DspFrame.BuiltFrameDecodesIff`).
* The cursor codec truncates the length of lists over 65535 elements on the way
  out; they never come back (`CodecCanonical.CursorRoundTrip`).
* An unmute that is refused and undone, with the write of the state file failing,
  leaves the DSP muted behind a file that says unmuted. A process started on that
  takes the microphone for live until it is asked for something; this is the only
  such disagreement (`MicMute.Controller.constructor`,
  `MicMuteRestart.RestartCanInheritMute`).
* A dial write whose ioctl fails while a voice speaks can leave the music at the
  ducked level after the voice phase (`VoiceDuck.FailedDialCanBeLost`).
* A duck whose swap fails without writing anything keeps its receipt all the
  same; if an outside writer then happens to set the ducked level, the end of the
  voice phase replaces it (`VoiceDuck.RestoreCanReplaceForeign`, with the exact
  condition in `VoiceDuck.RestoreReplacesItsOwnIff`).

## Model

| member | source | states |
|---|---|---|
| PropertyArea.Area.constructor | tools/propertyd/main.go:91-127 | whatever bytes are found, the area ends up accepted: an accepted one is adopted untouched, any other is formatted |
| PropertyArea.Area.Valid | tools/propertyd/main.go:129-149 | decides exactly the table check that every later index relies on |
| PropertyLayout.AcceptedIff | tools/propertyd/main.go:129-149 | word by word: the magic, the version, a count of at most 248, and below every counted entry's top byte a place from 1024 to 32640 |
| PropertyArea.Area.Format | tools/propertyd/main.go:153-161 | leaves the empty table, by the stores listed in order |
| PropertyArea.FormattedIsAccepted | tools/propertyd/main.go:153-161 | a formatted area is accepted and empty |
| PropertyArea.Area.WriteValue | tools/propertyd/main.go:205-228 | changes the area by exactly the value stores: dirty serial, bytes, zeros, published serial, area serial |
| PropertyArea.Area.Set | tools/propertyd/main.go:241-277 | on any accepted table: outcome, bytes and sequence of stores are those of the specification, no store leaves the area, and the table stays accepted, so the next call is as safe |
| PropertyArea.Area.Get | tools/propertyd/main.go:279-292 | finds the first counted record of that name and reads as many bytes as its serial says |
| PropertyLayout.FoundIsFirst | tools/propertyd/main.go:182-190 | the record found is the first counted one that carries the name, and none is found only if none does |
| PropertyLayout.FinishedSet | tools/propertyd/main.go:205-277 | when Set stores, and then every byte: length and generation in the record serial, the padded value, the area serial one further on, for a new name also the padded name, its length over its place in the table of contents, and the count; no other byte changes |
| PropertyMap.LookupIsContents | tools/propertyd/main.go:182-190 | on a canonical table a lookup is the lookup in the finite map of its contents |
| PropertyMap.UpdateFrame | tools/propertyd/main.go:205-228 | stopped anywhere, an update touches no header, no other record and not its own name |
| PropertyMap.SerialDuringUpdate | tools/propertyd/main.go:192-228 | the serial of the record after every store of an update: untouched, then dirty, then published |
| PropertyCrash.UpdateCrash | tools/propertyd/main.go:205-228 | stopped after any store, an update leaves a canonical table that differs in that one value |
| PropertyCrash.AppendCrash | tools/propertyd/main.go:257-276 | stopped before its last store, an append has changed neither the contents nor any counted record |
| PropertyCrash.AppendComplete | tools/propertyd/main.go:257-276 | a finished append adds exactly the new name, with a clean serial, and spares the others |
| PropertyCrash.SetRefinesMap | tools/propertyd/main.go:241-277 | setting a NUL-free name is setting it in the map, with the same failures: too long, empty, or new when 248 names exist |
| PropertyCrash.UpdateReads | tools/propertyd/main.go:205-228 | what a lookup returns after each store of an update: the old length over old, zeroed and new bytes until the new serial is published |
| PropertyCrash.SetStaysAccepted | tools/propertyd/main.go:129-149 | stopping Set after any store, on whatever table was adopted and for any name and value, leaves a table the next daemon adopts |
| PropertyCrash.UpdateKeepsIndex | tools/propertyd/main.go:205-228 | on any accepted table a stopped update keeps the index and changes no byte of the record area outside its record |
| PropertyCrash.SetSparesRecordsApart | tools/propertyd/main.go:205-276 | on any accepted table a stopped Set leaves name, serial and value of every record apart from the one it writes |
| PropertyCrash.SetCrashConsistent | tools/propertyd/main.go:241-277 | after any prefix of the stores an accepted table is accepted; a canonical one, as this daemon writes them, is canonical again, every other name reads as before, a new name is absent until the last store and whole after it, a known one reads as exactly the mixture stored so far |
| PropertyCrash.StoredReadsBackIffNulFree | tools/propertyd/main.go:172-190 | what was just stored reads back exactly when the name has no zero byte |
| PropertyCrash.FormatCrash | tools/propertyd/main.go:153-161 | a format stopped half way is never adopted with records in it |
| PropertyCrash.RunsStayAccepted | tools/propertyd/main.go:241-277 | over any run of requests from any accepted table, each possibly cut short, the table stays accepted; from a canonical one it stays canonical and names never asked for keep their value |
| PropertyCrash.CompletedRunIsMap | tools/propertyd/main.go:241-292 | any uninterrupted run agrees with the finite map, name by name |
| PropertyServer.Trim | tools/propertyd/main.go:302-309 | a field up to its first zero byte; names that arrive over the socket are NUL-free |
| PropertyServer.Serve | tools/propertyd/main.go:313-334 | a set message is one Set on its two fields and keeps an accepted table accepted; on a canonical one it is the map operation; anything else changes nothing |
| PropertyReader.RunsStartFormatted | tools/propertyd/main.go:153-161 | a formatted area is the empty map, and any first request starts a run from it |
| PropertyReader.RunsGoOn | tools/propertyd/main.go:241-277 | every run goes on, with the next store or any next request |
| PropertyReader.StepMovesRecord | tools/propertyd/main.go:205-276 | the only things one store of the daemon can do to a counted record |
| PropertyReader.RecordAdvances | tools/propertyd/main.go:192-228 | between any two points of a run a clean record is unchanged, or its serial has moved on by two for every update |
| PropertyReader.WalkerMeetsWholeRecords | tools/propertyd/main.go:257-276 | a walker bounded by the count meets no half-built record at any point of any run |
| PropertyReader.CleanSamplesBracket | tools/propertyd/main.go:192-228 | two equal clean samples with fewer than 2^23 updates in between enclose a stretch without change |
| PropertyReader.TornReadsAreDetected | tools/propertyd/main.go:192-228 | bytes copied one at a time, in any order, between two equal clean samples are one value the record held |
| PropertyReader.SamplesAgreeAcrossUpdatesIff | tools/propertyd/main.go:192-203 | exactly which numbers of whole updates bring the serial back: the reason for the bound above |
| PropertyReader.InterruptedRecordStaysDirtyIff | tools/propertyd/main.go:205-228 | a record stays dirty for good exactly when an update was stopped between its serial stores |
| SliceCodec.AppendValue | tools/dsp-interface/msgpack.go:27-63 | appends the encoding of the tree, or fails exactly when there is none |
| SliceCodec.DecodeValue | tools/dsp-interface/msgpack.go:190-288 | the loop-and-slice decoder delivers what the recursive parser finds, for every input and depth |
| SliceCodec.DecodeMessagePack | tools/dsp-interface/msgpack.go:179-188 | one value and nothing after it, or an error; it ends on every input |
| CursorCodec.Writer.WriteMessagePack | tools/identifiers/msgpack.go:29-74 | the buffer grows by exactly the encoding of the tree |
| CursorCodec.Reader.Read | tools/identifiers/msgpack.go:188-291 | the cursor moves over exactly what the recursive parser consumes, and the value is what it finds |
| CursorCodec.DecodeMessagePack | tools/identifiers/msgpack.go:176-186 | one value and nothing after it, or an error; it ends on every input |
| CodecLaws.DecodersAgree | tools/identifiers/msgpack.go:188-351 | on every byte string the cursor parser accepts exactly what the slice parser accepts without binaries, floats or keys other than strings, with the same tree and remainder |
| CodecLaws.AcceptedPayloadsAgree | tools/identifiers/msgpack.go:176-351 | whatever the cursor decoder accepts the slice decoder accepts with the same value, and conversely exactly for payloads of shared types |
| CodecLaws.PlainCollapse | tools/dsp-interface/msgpack.go:354-377 | the value of a tree of shared types does not depend on how other keys would be printed |
| CodecLaws.EncodersAgree | tools/identifiers/msgpack.go:29-170 | on shared types, whenever the slice encoder succeeds both emit the same bytes for the same order of keys |
| CodecRoundTrip.SliceRoundTrip | tools/dsp-interface/msgpack.go:27-377 | decoding an encoding followed by anything returns the tree, integers retagged by sign, and exactly the rest, if and only if the tree is within the decoder's limits |
| CodecFormat.MostSignificantFirst | tools/dsp-interface/msgpack.go:315-324 | digit by digit: a field has its most significant byte first |
| CodecFormat.SingleByteTags | tools/dsp-interface/msgpack.go:190-219 | the tags that are a value by themselves, those refused whatever follows, and that below depth 32 every tag is refused |
| CodecFormat.NumberTags | tools/dsp-interface/msgpack.go:233-258 | unsigned and signed numbers of one to eight bytes, the four bytes of a single that are widened, the eight of a double |
| CodecFormat.TextTags | tools/dsp-interface/msgpack.go:211-332 | texts of at most 1048576 bytes behind each of their tags, binaries behind theirs |
| CodecFormat.ContainerTags | tools/dsp-interface/msgpack.go:201-286 | lists and maps read the same behind a length in the tag, in two bytes or in four |
| CodecFormat.ElementLimit | tools/dsp-interface/msgpack.go:333-360 | a list or map of nils is read back exactly up to 4096 of them |
| CodecFormat.WholeDoubles | tools/identifiers/msgpack.go:48-60 | a double is encoded exactly if it is a whole number of at most 2^53 in size, and then as that integer |
| CodecFormat.TrailingBytesAreRefused | tools/dsp-interface/msgpack.go:179-188 | what is behind an encoding is left over whole, so a payload is accepted only if nothing is |
| CodecCanonical.DoublesTravelAsIntegers | tools/identifiers/msgpack.go:48-60 | whatever the cursor encoder accepts encodes like the tree with its whole doubles made integers, which is of shared types, as large and as deep |
| CodecCanonical.CursorRoundTrip | tools/identifiers/msgpack.go:29-351 | the same for the cursor codec, for every tree its encoder accepts, doubles coming back as integers, again exactly within the limits |
| CodecCanonical.SliceConsumes | tools/dsp-interface/msgpack.go:190-377 | the remainder is the unread end of the payload, and no more nodes are built than bytes consumed |
| CodecCanonical.AcceptedIsCompact | tools/identifiers/msgpack.go:76-170 | what the cursor decoder accepted encodes again, in no more bytes |
| CodecListing.ListingIsNoLonger | tools/identifiers/msgpack.go:137-170 | of all trees with the same value, one whose keys are distinct encodes to the fewest bytes |
| CodecReencode.NormCollapses | tools/identifiers/msgpack.go:188-291 | retagging non-negative integers in the tree is retagging them in the value |
| CodecReencode.ListingListsTheValue | tools/identifiers/msgpack.go:326-351 | every value read has a listing with distinct keys, the one a Go map gives |
| CodecReencode.ReencodingIsCanonical | tools/identifiers/msgpack.go:29-351 | re-encoding any accepted payload's value, keys in any order, succeeds, is never longer, and decodes to the same value up to the tag of non-negative integers |
| DspFrame.ComputeChecksum | tools/dsp-interface/frame.go:65-72 | the loop adds up id, length and payload modulo 256 |
| DspFrame.FrameLengthIsLeast | tools/dsp-interface/frame.go:50-54 | the least multiple of four that holds five header bytes and the payload |
| DspFrame.RestOfFrameIsRead | tools/dsp-interface/frame.go:56-63 | header and bytes read make up that length, for every payload length |
| DspFrame.RecordedFrames | tools/dsp-interface/frame.go:17-18 | the two frames on record are what is built |
| DspFrame.BuildFrame | tools/dsp-interface/frame.go:74-86 | the buffer filled in place is header, payload and zero padding; only payloads over the limit are refused |
| DspFrame.DecodeDeviceFrame | tools/dsp-interface/frame.go:113-138 | the accumulating loop accepts exactly the frames whose residue is zero |
| DspFrame.DecodesIff | tools/dsp-interface/frame.go:94-138 | exactly which headers and bytes are a frame, and which: id bytes other than 0xff, something declared, the right size, a checksum byte that is the sum of the others |
| DspFrame.BuiltFrameDecodesIff | tools/dsp-interface/frame.go:52-138 | a built frame decodes to itself exactly when its payload has 1 to 65535 bytes and neither id byte is 0xff |
| DspFrame.SingleByteErrorIsCaught | tools/dsp-interface/frame.go:113-138 | no single changed byte, in header or body, gets past the checksum |
| DspStream.EarliestWindow | tools/dsp-interface/link.go:552-584 | the header read is the earliest plausible window among the first five, and exactly five bytes plus its shift are consumed |
| DspStream.PlausibleIff | tools/dsp-interface/link.go:552-584 | a window is plausible exactly with an id of 0, 1 or 2 and a length of 1 to 64 |
| DspStream.LostSynchronisationIff | tools/dsp-interface/link.go:569-575 | synchronisation is lost exactly when none of the five windows is plausible |
| DspStream.FrameAfterNoiseIff | tools/dsp-interface/link.go:520-584 | a sound frame after idle 0xff bytes is read, with nothing after it consumed, exactly when there are at most four of them |
| DspStream.DamagedFrameIsDropped | tools/dsp-interface/link.go:520-550 | a damaged frame of the right size is consumed whole and refused |
| DspStream.StreamIsRead | tools/dsp-interface/link.go:520-584 | a stream of sound frames, each after at most four idle bytes, is read as exactly that sequence |
| DspStream.BuiltFramesAreSound | tools/dsp-interface/frame.go:74-86 | what the frame builder emits for ids up to 2 and payloads of 1 to 64 bytes is such a frame |
| DspExchange.ReplyIsFoundIff | tools/dsp-interface/link.go:470-517 | on a working device a reply behind any mixture of unrelated and damaged frames is found exactly when there are at most eight and two of them; the unrelated ones are kept in order; otherwise the error says which were too many |
| DspExchange.AnswersIffReply | tools/dsp-interface/link.go:467-500 | a reply has the two id bytes and the code byte of the request, as on the wire |
| DspExchange.Device.ReadBytes | tools/dsp-interface/link.go:633-655 | the bytes shifted out, in order, or a fault |
| DspLink.Link.FinishBoot | tools/dsp-interface/link.go:307-313 | messages are admitted only once the Active line has been driven low |
| DspLink.Link.Enqueue | tools/dsp-interface/link.go:329-354 | a message joins the end of the queue with a channel of its own, unless too long or not booted |
| DspLink.Link.Dequeue | tools/dsp-interface/link.go:356-365 | the head of the queue comes into hand, nothing else moves |
| DspLink.Link.Requeue | tools/dsp-interface/link.go:367-371 | the message in hand is the head again, before everything enqueued meanwhile |
| DspLink.Link.Complete | tools/dsp-interface/link.go:390-396 | the channel is untouched before and signalled once and closed after, so the send cannot block nor the close panic |
| DspLink.Link.FinishTransfer | tools/dsp-interface/link.go:586-595 | lowers the line and reports the cause, or turns it into a device fault |
| DspLink.Link.ReadSynchronizedHeader | tools/dsp-interface/link.go:552-584 | the buffer shifted in place settles on what the stream specification says |
| DspLink.Link.ReceiveFrame | tools/dsp-interface/link.go:520-550 | called only on a low Ready line; a device fault exactly when some access failed, else exactly what the stream holds, the lines driven in order; the Active line is low after it unless a line write failed |
| DspLink.Link.TransmitOnce | tools/dsp-interface/link.go:451-518 | at most eleven receives on any device; a reply has the id and code of the request and no stray does; strays are stashed in order even when it fails; without faults the message is on the wire and the outcome that of the exchange specification |
| DspLink.Link.Poll | tools/dsp-interface/link.go:400-445 | pending frames first; with none, and no fault, the head of the queue expires or is put on the wire and its completion told what the exchange came to; a busy DSP is sent nothing and the head stays; with nothing to send a low Ready line is answered by one receive; queue, channels and frames stay accounted for with enqueuers in between |
| DspLink.Link.PollQueued | tools/dsp-interface/link.go:411-431 | with a message in hand: put back as the head while the DSP is busy or the line unreadable, expired unsent when its context has ended, transmitted otherwise |
| DspLink.Link.PollReady | tools/dsp-interface/link.go:433-444 | nothing moves while the Ready line is high; exactly one receive answers a low one that can be read |
| DspLink.Link.Run | tools/dsp-interface/link.go:400-445 | over any number of polls what was returned, with what is pending, is exactly what was decoded; the queue is finished in order; on a DSP that is not busy and without faults every poll finishes a message or returns an unasked frame until it is, and there are at most nine of those per message |
| DspLink.Link.QueueIsServed | tools/dsp-interface/link.go:356-371 | from the invariant: what has been finished since begins with what was queued then, and the next of it is the head |
| DspLink.FramesConserved | tools/dsp-interface/link.go:373-388 | from the invariant: every frame heard is returned exactly once or pending, as multisets |
| DspLink.WireKeepsQueueOrder | tools/dsp-interface/link.go:411-431 | messages reach the wire at increasing positions of the queue, and exactly those not expired |
| VolumeController.Strongest | tools/mcu-interface/volume.go:283-291 | the deepest duck anybody holds, and one somebody holds |
| VolumeController.EffectiveIsAttenuated | tools/mcu-interface/volume.go:274-279 | the effective level is silence when muted, else the chosen level, two fifths of it under a soft duck or a tenth under a hard one, whoever holds it |
| VolumeController.DeeperIsQuieter | tools/mcu-interface/volume.go:274-291 | a deeper duck is never louder, and quieter exactly from a volume of 1 on, or 3 between soft and hard |
| VolumeController.ClampIsNearest | tools/mcu-interface/volume.go:213-221 | no level of 0 to 100 is nearer to what was asked for |
| VolumeController.OverlappingDucks | tools/mcu-interface/volume.go:274-318 | a further duck attenuates only if it is the deepest, and releasing it gives back what the others ask for |
| VolumeController.Controller.StrongestDuck | tools/mcu-interface/volume.go:283-291 | the walk over the map finds it in whatever order |
| VolumeController.Controller.EffectiveLevel | tools/mcu-interface/volume.go:257-279 | the level pushed is the one that law describes |
| VolumeController.Controller.SetDuck | tools/mcu-interface/volume.go:295-318 | sets or releases one named duck and nothing else, and wakes the worker even if remembering fails |
| VolumeController.Controller.SetVolume | tools/mcu-interface/volume.go:564-575 | the clamped level is chosen, saved if that succeeds, and the worker woken |
| VolumeController.Controller.AdjustVolume | tools/mcu-interface/volume.go:577-602 | as above; the cue plays on arriving at the top and not while staying there |
| VolumeController.Controller.ToggleMuted | tools/mcu-interface/volume.go:617-627 | mute flips, the chosen level stays, the worker is woken |
| VolumeController.Controller.Round | tools/mcu-interface/volume.go:346-467 | one round of the worker, with setters in between, loses no update; a push that is taken leaves the ring showing the chosen level and no timer, one that fails draws nothing and sets it |
| VolumeController.Controller.Run | tools/mcu-interface/volume.go:322-468 | after any number of rounds a worker with no notification and no retry has the effective level accepted by the DSP, silence if muted, and the ring shows the level chosen, never drawn twice; one round is enough when no push fails and nobody asks again |
| VolumeController.FadeToTarget | tools/mcu-interface/volume.go:635-678 | the levels written are the ticks of a fade, and on success the control holds the target |
| VolumeController.FadeIsSteady | tools/mcu-interface/volume.go:650-664 | every tick, the first included, is strictly closer than the level before it, by six units or all that is left, and on the same side of the target |
| VolumeController.FadeTakesItsTime | tools/mcu-interface/volume.go:650-664 | it arrives after one tick per six units of the way, and not before |
| MicMute.Controller.constructor | tools/mcu-interface/mic_mute_controller.go:31-49 | starts on any DSP, blocked exactly if the file says muted; file and DSP disagree unnoticed exactly if the file says unmuted and the DSP is muted |
| MicMute.Controller.SetLocked | tools/mcu-interface/mic_mute_controller.go:150-196 | exactly which calls are made, in which order and up to which failure; when the outcome is known everything agrees, but for a DSP left muted by an earlier process that nothing has been asked of yet; voice is unblocked only if clear, request and write all succeeded |
| MicMute.Controller.Revert | tools/mcu-interface/mic_mute_controller.go:198-225 | a failed unmute asks for the mute again and stays blocked whatever comes of it |
| MicMute.Controller.Change | tools/mcu-interface/mic_mute_controller.go:72-88 | a cancelled call does nothing; any other makes the calls of a mute or an unmute up to the first failure, succeeds exactly if none failed, and then DSP, file and fields are as asked for; a failed one owes the worker a request |
| MicMute.Controller.Toggle | tools/mcu-interface/mic_mute_controller.go:51-70 | the same for the opposite of what is confirmed |
| MicMute.Controller.Set | tools/mcu-interface/mic_mute_controller.go:72-88 | the whole entry point: those calls, voice told if it is blocked, and the worker asked exactly after a failure |
| MicMute.Controller.Reconcile | tools/mcu-interface/mic_mute_controller.go:90-105 | makes the calls of a mute exactly when blocked, never unmutes or unblocks, and leaves DSP, file and fields muted when nothing failed |
| MicMute.Controller.Run | tools/mcu-interface/mic_mute_controller.go:126-148 | a worker that waits with nothing requested or owed leaves no doubtful outcome behind; a request there is attended to unless the worker is stopped |
| MicMute.UnmutedFileIsJustified | tools/mcu-interface/mic_mute_controller.go:156-183 | over any run a file that came to say unmuted was written straight after the DSP acknowledged the unmute, itself straight after the indicator was cleared |
| MicMuteRestart.LivesKeepOrder | tools/mcu-interface/mic_mute_controller.go:150-225 | the order of calls holds across processes that die anywhere and are started again |
| MicMuteRestart.LiveBehindMutedFile | tools/mcu-interface/mic_mute_controller.go:156-183 | a microphone live behind a muted file means an unmute asked for or a mute written down, with no mute acknowledged and no write since |
| MicMuteRestart.MutedBehindUnmutedFile | tools/mcu-interface/mic_mute_controller.go:198-225 | a microphone muted behind an unmuted file means an unmute refused and undone, with no write since |
| MicMuteRestart.RestartsExplained | tools/mcu-interface/mic_mute_controller.go:150-225 | both, over every run of processes |
| MicMuteRestart.RestartCanInheritMute | tools/mcu-interface/mic_mute_controller.go:169-206 | the concrete calls that leave the microphone muted behind an unmuted file |
| VoiceDuck.ActivationKeepsLevel | tools/mcu-interface/voice_music.go:35-109 | whatever fails in SetActive the intended level stays within reach; starting the phase over music leaves both channels forty steps lower, ending it without error installs the level; exactly when it succeeds with a working swap |
| VoiceDuck.DialMovesLevel | tools/mcu-interface/voice_music.go:128-154 | a dial write during or outside a voice phase makes its level the intended one |
| VoiceDuck.ReportIsDial | tools/mcu-interface/voice_music.go:111-126 | reading reports the dial level, not the ducked one, exactly when the control is open and can be read |
| VoiceDuck.FailedDialIsRecoveredIff | tools/mcu-interface/voice_music.go:128-154 | after any dial write with a failing swap, exactly when the phase ends at the old or the new level |
| VoiceDuck.FailedDialCanBeLost | tools/mcu-interface/voice_music.go:142-144 | a concrete dial write whose failure leaves neither |
| VoiceDuck.RunsKeepLevel | tools/mcu-interface/voice_music.go:47-154 | the receipt stays good over every run of calls |
| VoiceDuck.PhaseIsRecorded | tools/mcu-interface/voice_music.go:47-53 | after every run of calls a voice is taken to speak exactly if a SetActive(true) has had no SetActive(false) since |
| VoiceDuck.DialFollowsPhase | tools/mcu-interface/voice_music.go:128-154 | in every quiet run a dial write that succeeds in such a phase, over music, leaves the control forty steps below the dial with a receipt for it; any other leaves the dial level and no receipt |
| VoiceDuck.VoicePhaseRestores | tools/mcu-interface/voice_music.go:47-154 | ending the phase leaves both channels at the last dialled level or the original pair, although attenuation is not invertible |
| VoiceDuck.RestoreSparesOthers | tools/mcu-interface/voice_music.go:74-88 | ending the phase stores nothing but its receipt's pair to come back to, over nothing but its receipt's ducked pair, and otherwise leaves the control to the outside writers |
| VoiceDuck.RunsKeepReceipt | tools/mcu-interface/voice_music.go:95-109 | over every run of calls and outside writes, a held receipt is that of the last attempt to duck, and the control took its pair exactly if the swap succeeded or failed after the write |
| VoiceDuck.RestoreReplacesLastAttempt | tools/mcu-interface/voice_music.go:47-109 | over every such run a restore replaces nothing but the pair the last attempt was for |
| VoiceDuck.RestoreReplacesItsOwnIff | tools/mcu-interface/voice_music.go:95-109 | no outside write can make a restore replace a pair the duck did not install, exactly if no receipt is held or its swap succeeded or failed after the write had got through |
| VoiceDuck.RestoreCanReplaceForeign | tools/mcu-interface/voice_music.go:97-103 | a concrete run in which a swap that wrote nothing leaves a receipt, and the restore replaces an outside writer's pair |
| VoiceDuck.VoiceMusicDuck.CompareAndSwapChannels | tools/mcu-interface/softvol_linux.go:126-149 | swaps only if the control holds the expected pair |
| VoiceDuck.VoiceMusicDuck.SetActive | tools/mcu-interface/voice_music.go:47-93 | the phase is recorded whatever happens, and the object's steps are those the laws above are about |
| VoiceDuck.VoiceMusicDuck.Write | tools/mcu-interface/voice_music.go:128-154 | likewise; a level out of range changes nothing |
| Expander.UpdatesAreNotLost | tools/mcu-interface/i2c_linux.go:150-165 | in every interleaving of locked updates, with failures, the register is the MCU's own view with the DSP's own bit 0 |
| Expander.EveryRegisterIsSafe | tools/mcu-interface/i2c_linux.go:150-165 | in every interleaving of lock, read, write and unlock steps no register has the amplifier live on a muted DAC, from a safe one on, if the MCU makes no unsafe write of its own |
| Expander.Outputs | tools/mcu-interface/controller.go:21-22 | which of bits 0x02, 0x04, 0x08 and 0x10 say what, and that unsafe means the first two clear |
| Expander.Controller.AlwaysSafe | tools/mcu-interface/controller.go:211-287 | the controller makes none: since the amplifier was first muted every register of its run is safe |
| Expander.Controller.UpdateExpander | tools/mcu-interface/controller.go:296-302 | the locked update as steps of that run, with the DSP's steps in between: it fails exactly if the lock or a transfer does; the MCU's view changes by one mask or not at all |
| Expander.StepKeepsMerged | tools/dsp-interface/i2c_linux.go:106-121 | the step of that induction: what a lock holder has read is what the register still holds |
| Expander.Controller.SetDACMute | tools/mcu-interface/controller.go:193-197 | refused as an unmute before initialisation; while the amplifier has never been muted, muting the DAC leaves a safe register exactly if the amplifier happens to be muted |
| Expander.Controller.WriteAmpMute | tools/mcu-interface/controller.go:235-257 | the mutual recursion ends; exactly what is written, the DAC opened before the amplifier; a failure leaves the cached flag alone |
| Expander.Controller.WriteDACMute | tools/mcu-interface/controller.go:268-287 | the mirror: exactly what is written, the amplifier muted before the DAC |
| Expander.Controller.Initialize | tools/mcu-interface/controller.go:65-129 | succeeds exactly without a failure, by muting the amplifier, then the DAC, then raising the rails, and leaves just those bits; the run is careful from the first mute on, with the DSP's steps in between |
| Expander.Controller.OpenOutputs | tools/mcu-interface/controller.go:150-173 | succeeds exactly when initialised and without a failure; opens the DAC, then the amplifier, and the run stays careful |
| Expander.Controller.MuteAll | tools/mcu-interface/controller.go:211-224 | succeeds exactly without a failure, muting the amplifier, then the DAC; after a single failure the amplifier is silent all the same once it has ever been muted |
| CaptureHub.CaptureClient.TrySend | tools/mic-capture/hub.go:159-164 | a send never waits and never meets a closed queue |
| CaptureHub.CaptureClient.RunStep | tools/mic-capture/hub.go:33-51 | a working write sends the header first and then the head of the queue, a failing one ends it; records keep their order from queue to peer |
| CaptureHub.EncodeRecord | tools/mic-capture/protocol.go:40-63 | the loop fills in the first channel of a period of the right size, and refuses any other |
| CaptureHub.FirstChannelSamples | tools/mic-capture/protocol.go:53-61 | sample by sample: the first of every two |
| CaptureHub.ClientHub.Add | tools/mic-capture/hub.go:88-104 | a connection is registered with the current generation, or refused while disabled |
| CaptureHub.ClientHub.Block | tools/mic-capture/hub.go:131-150 | no client stays registered and every one that was is stopped |
| CaptureHub.ClientHub.Broadcast | tools/mic-capture/hub.go:152-166 | a client with room has the record queued, one without is cut off, nobody gets a gap |
| CaptureHub.ClientHub.Enable | tools/mic-capture/hub.go:113-118 | enables whatever the state; the hub stays in order exactly if no client is left of another generation or with records queued, as none is after block |
| CaptureHub.ClientHub.ReplaceGeneration | tools/mic-capture/hub.go:120-129 | blocks, stopping everyone, and enables the new generation only if that was in time |
| CaptureHub.ClientHub.SentWithoutGap | tools/mic-capture/hub.go:33-51 | what any client has been sent is one header and then consecutive records of its generation |
| CaptureHub.ClientHub.RunCapture | tools/mic-capture/main.go:150-234 | what goes on the air is every period of the right size captured while not muted, numbered from zero; with clients coming and going, every one still registered has had queued all of it since it joined |
| CaptureHub.ClientHub.Serve | tools/mic-capture/main.go:104-129 | and so does any number of generations, blocked in between |
| NandImage.MultiplyIsExact | tools/nand-inspect/format.go:121-126 | a product is refused exactly when it does not fit 64 bits |
| NandImage.AllocationIsExact | tools/nand-inspect/format.go:128-135 | no allocation wraps, and it is taken exactly when it lies on the device |
| NandImage.GeometryIsMeasured | tools/nand-inspect/format.go:207-223 | an accepted geometry's products are exact |
| NandImage.ReadCString | tools/nand-inspect/format.go:137-160 | printable bytes, at least one, then nothing but zeros |
| NandImage.InspectSquashFS | tools/nand-inspect/format.go:166-191 | no file system, a sound superblock within its payload, or an error |
| NandImage.InspectImage | tools/nand-inspect/format.go:193-299 | the loop with its cursor and set of names finds what the specification finds, whose meaning in bytes the next five rows give |
| NandLaws.AcceptedIff | tools/nand-inspect/format.go:193-299 | a file is accepted exactly when its header is sound, every record is (name, blocks on the device, types, reserved bytes, payload inside the file and its blocks, checksum, superblock), and no name comes twice |
| NandLaws.BadPayloadIsRefused | tools/nand-inspect/format.go:265-276 | one payload with another checksum, or one normal payload larger than its blocks, and the file is refused |
| NandLaws.ReportIsFaithful | tools/nand-inspect/format.go:206-298 | geometry, versions, records, payload offsets and trailer reported are what the bytes of an accepted file say |
| NandLaws.CStringIff | tools/nand-inspect/format.go:137-160 | a field holds a text exactly if it is printable, not empty, and followed by zeros only |
| NandLaws.SuperblockIff | tools/nand-inspect/format.go:166-191 | a payload that starts like a SquashFS is sound exactly with version 4.0, a size from 96 to its own, and a block size of 4096 to 1048576 that is a power of two |
| NandLaws.LongIsLittleEndian | tools/nand-inspect/format.go:24-24 | words are read least significant byte first |
| NandImage.ScanTiles | tools/nand-inspect/format.go:239-288 | accepted records have distinct names, tile the bytes from the table on and stay within the file |
| NandBundle.BuildBundle | tools/nand-pilot/native-bundle.js:42-93 | the table rewritten in place and the payloads after it are the specified bundle, whenever every assertion holds |
| NandRebuild.RebuildSucceedsIff | tools/nand-pilot/native-bundle.js:42-88 | the script succeeds exactly on the known header with nine known records whose checksums hold, when what goes out fits, differs from the vendor's in rootfs and bsl and nowhere else, and the app record is of type one |
| NandBundle.TableRewritten | tools/nand-pilot/native-bundle.js:71-72 | after any number of rounds the descriptors done carry their payload's size and checksum and nothing else has changed |
| NandBundle.RewrittenReads | tools/nand-pilot/native-bundle.js:71-72 | a rewritten descriptor reads as the vendor's with that size and checksum |
| NandBundle.RoundsAgree | tools/nand-pilot/native-bundle.js:57-82 | by induction over the records, the parser follows the rebuilt image exactly as long as the payloads are acceptable |
| NandBundle.RebuiltIsAcceptedIff | tools/nand-pilot/native-bundle.js:54-93 | the parser takes the rebuilt image exactly when it is at most 2^63-1 bytes and every replacement is non-empty with a sound superblock or none |
| NandBundle.RebuiltMeansTheSame | tools/nand-pilot/native-bundle.js:54-93 | then geometry, names, versions, types and allocations are the vendor's, payloads tile the file to its end, and those not replaced are byte for byte the vendor's |

## Left out

- PropertyReader.TornReadsAreDetected: memory is sequentially consistent with atomic stores of words and bytes; reorderings by the processor are not modelled.
- PropertyServer.Serve: a received message is given as bytes or as a failed read; sockets, deadlines and logging are not modelled.
- SliceCodec.DecodeMessagePack: says whether decoding fails, not with which error text; keys that are not strings are printed by an arbitrary function that leaves strings alone.
- SliceCodec.DecodeValue: widening a single-precision float is an arbitrary function of its bit pattern.
- CursorCodec.Writer.WriteMessagePack: which floats count as whole numbers is an arbitrary function of the bit pattern.
- The Go `int` that bounds lengths has the 32 bits of the target; on 64 bits the limits are reached later, never earlier.
- DspExchange.Device.ReadBytes: bytes the DSP shifts out while the host is sending are discarded by the source and not part of the stream.
- DspLink.Link.Complete: the receiving end of a completion channel is not modelled, so a signalled channel keeps its value.
- DspLink.Link.Poll: delays and the ready timeout are nondeterministic outcomes; errors are told apart by kind, not by text.
- MicMute.Controller.SetLocked: a failed write of the state file leaves it as it was, the file being replaced by a rename.
- MicMute.Controller.Set: stated for no other call between the release of the lock and the request; other goroutines interleave through MicMute.Controller.Change and the request alone.
- MicMuteRestart.RestartsExplained: a process that dies during a call leaves it as one that succeeded or failed, nothing in between.
- VoiceDuck.RunsKeepLevel: assumes that no dial write meets a failing ioctl; VoiceDuck.FailedDialIsRecoveredIff says what happens when one does.
- Expander.Controller.UpdateExpander: a failed register update leaves the register unchanged.
- Expander.Controller.Initialize: the values written to the DAC's own registers are only outcomes.
- CaptureHub.EncodeRecord: timestamps and the layout of headers are not modelled.
- CaptureHub.ClientHub.Block: the half that holds the lock; the wait for the clients' goroutines, which may time out, changes nothing in the hub.
- CaptureHub.CaptureClient.RunStep: writes deliver a record whole or fail; sequence numbers do not wrap at 2^64.
- NandImage.InspectImage: the reader holds exactly as many bytes as the size given; read errors are not modelled.
- NandBundle.BuildBundle: file digests, manifests and the pairing of the two file systems are left to the script; the checksum is an arbitrary function of the payload.
- VolumeController.Controller.SetDuck: takes the name with its surrounding blanks already removed.
- The mapping of dial positions to DSP bytes and to the softvol control is arbitrary; logging, cues and LED drawing are counted at most.
- The mapping, futex, I2C, SPI, GPIO and socket system calls are nondeterministic steps.
- The boot image download, the WAMP sessions and their procedure tables, Bluetooth, pairing, provisioning and the build scripts: mostly dispatch and plumbing.
- The version-table capture parser of the NAND inspector and the comparison with an image: the same checks as the image parser on a different layout.
- The voice duck's Close, which repeats SetActive(false) up to three times.
