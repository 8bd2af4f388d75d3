# zCube firmware: verified model of the IR link, the OTA pipeline and two small state machines

A Dafny model of the parts of the firmware whose correctness is hardest to see
by reading: what a Samsung air-conditioner frame goes through between one
board's encoder and another board's decoder, and what a firmware image goes
through between an HTTP server and the flash slot. `dafny verify dfyconfig.toml`
checks everything.

**The IR link.** `SamsungCodec` holds the section checksum (a complemented
population count, that is a Berger code) and the encoder; `IrTransmit` the two
transmitters, a thread loop and an interrupt sequencer on a 32-bit timer;
`IrCapture` the receiver, a double buffer filled by timestamped edges and
flipped by a gap timer; `IrDecode` the decoders with their 25 % windows.
`IrLink` puts them together: every legal frame comes back byte for byte through
encoder, waveform, capture and decoder with every duration moved anywhere within
25 %. `SectionAssembly` rebuilds a frame from damaged repeats and says when frames
of two buttons mix, `FrameMixing` exhibits captures that do, `OnePress` takes a
press from the encoder to the report, `Aircon` edits a cached frame, `AirTime`
bounds how long a frame takes, and `NecClassification` says exactly what becomes
of NEC frames.

**The OTA pipeline.** `OtaStore` is the slot writer over NOR-like flash (erasing
sets 0xFF, programming clears bits), as a class and as a state machine;
`OtaClients` interleaves any number of clients, with the tests made before the
mutex as steps of their own. `Url`, `ByteStream`, `Chunked` and `HttpBody` cover
URL splitting, the stream of leftover and received bytes, chunked decoding and
the copying loops. `HttpHead` and `HttpReceive` cover the header parser on the
memory it really reads and the loop that feeds it, `HttpServerHead` the heads
that servers print. `HttpDownload` is the resume decision, redirects and the
task. A socket is a byte sequence that recv hands out in arbitrary pieces; flash,
network, boot loader and the stop flag may fail or change at every step.

**Small machines.** `WifiRetry` (band retry, handlers interleaved) and `Rotary`
(quadrature decoding over unbounded runs).

`Bits`, `Symbols` and `CText` hold bytes and bits, mark/space symbols with the
tolerance test, and the C library's number and string scans (`long` has 32 bits).

## Where code and documentation disagree

The model follows the code. Each point is stated by the lemma named, with the
exact condition under which the documented behaviour holds.

- `ir_rx.h` says the last captured space is always 0. Of every frame delivered it is
  so exactly for those ended by silence with at most 384 marks, or with a last
  measured space under a microsecond (`LastSpaceIsZeroIff`, `LastSpacesOfRun`). It
  is not for longer ones, nor for those cut by a mark longer than the gap time
  (`MarkCutsBurst`).
- `ir_rx.h` says the retransmit path tolerates that zero. The thread loop does; the
  interrupt sequencer plays its input exactly when every duration is positive, and
  holds the line for a full turn of the timer at a zero (`SequencerRefinesLoop`,
  `CapturedFrameIsHeldUpIff`).
- `ir_decode.h` says that code -2 leaves the protocol unknown. It is left at Samsung
  AC exactly when the frame begins with one of that protocol's headers (`IrDecode.Decode`).
- A standard NEC frame whose command equals its address is reported as LG, because
  the LG test runs first (`StandardNecIsMisreadIff`).
- `app_main_zephyr.c` notes that sections of two buttons may mix when section 0 of
  the new one is damaged. They may also mix with section 0 intact, when it is the
  same for both or when no old section 0 is held, and over several repeats of the
  new one. The exact condition is `ForeignReportIff` for one capture and
  `RunMixesIff` for any run of them (`DifferingSectionZeroIsNotEnough`,
  `TwoRepeatsMayMix`); a use that rules it out is `SeparatedPressesNeverMix`.
- `ir_aircon.h` says that power on sends a 21-byte frame and that temperature up and
  down edit and send the cached state. Each sends a fixed recorded frame, and up and
  down leave the cached temperature as it was (`ExecLearned`).
- `app_ota_http.c` calls `app_ota_init` idempotent. Twice is the same as once, but
  once more is harmless exactly when the store is idle; otherwise it ends the
  session (`InitIsHarmlessIff`, `InitForgetsTheSession`), and the first HTTP start
  calls it (`HttpOta.Start`).
- `app_ota.c` lets calls in before the mutex of `app_ota_init` is taken. A begin that
  succeeds meanwhile is forgotten by it (`InitForgetsAnEarlyBegin`).
- `app_ota_http.h` offers to continue a session that is mid-flight. A download that
  fails aborts the session, so it never leaves one to continue; there is one only
  if another client left it, or a download without commit (`HttpOta.Task`).
- `app_ota_http.h` says chunked coding is not implemented. The decoder is there and
  used for the header blob; image downloads refuse chunked answers
  (`StreamChunkedBody`, `ImagePreStream`).
- A 206 answer that ends before the resource does counts as a success; the image
  is whole exactly when it does not (`DownloadedResource`, `ShortPartIsASuccess`).
  With auto-commit the commit then refuses and the session is aborted.
- A numeric header with nothing but blanks up to the end of the head is read on
  into whatever memory follows (`LocalIffAnchored`, `BlankLengthRunsOff`).
- A chunk belongs to the session its unlocked test saw exactly when no begin ran
  before its body (`ChunkJoinsTheSessionItSawIff`,
  `StaleChunkLandsInTheNextSession`).
- `app_wifi.c` promises 5 GHz and then 2.4 GHz. Both are asked for in that order
  exactly when nothing advances the index before the retry work first runs and
  exactly one thing does before it runs again (`BandOrderIff`). A late failure event
  between the connect call and the work skips 5 GHz (`FirstBandIff`,
  `LateFailureSkipsFirstBand`); a timeout followed by the driver's failure event
  skips 2.4 GHz (`SecondBandIff`, `TimeoutThenFailureSkipsSecondBand`).

## Model

| member | source | states |
|---|---|---|
| SamsungCodec.PopcountU8 | app/ir/ir_codec_samsung_ac.c:24-29 | the shifting loop counts the 1 bits of a byte |
| SamsungCodec.PopcountBuf | app/ir/ir_codec_samsung_ac.c:31-36 | for a buffer of any length, the sum of the counts modulo 256, the 16-bit wrap included |
| SamsungCodec.SecChecksum | app/ir/ir_codec_samsung_ac.c:38-46 | the checksum is 255 minus the number of data ones |
| SamsungCodec.FixChecksum | app/ir/ir_codec_samsung_ac.c:48-53 | the array's section becomes the fixed section in place, nothing else changes |
| SamsungCodec.FixChecksums14 | app/ir/ir_codec_samsung_ac.c:55-59 | both halves of a 14-byte state become fixed sections |
| SamsungCodec.Verify | app/ir/ir_codec_samsung_ac.c:61-67 | true exactly for sections whose stored byte is the complement of their ones |
| SamsungCodec.VerifyAll | app/ir/ir_codec_samsung_ac.c:69-80 | true exactly for non-empty multiples of 7 bytes whose sections all verify |
| SamsungCodec.UnidirectionalErrorsDetected | app/ir/ir_codec_samsung_ac.c:24-67 | Berger property: any non-empty set of bit errors in one direction, checksum nibbles included, makes a valid section invalid |
| SamsungCodec.FixLaws | app/ir/ir_codec_samsung_ac.c:38-67 | fixing makes a section valid, changes only the checksum nibbles, is idempotent, and is the identity exactly on valid sections |
| SamsungCodec.FixForgets | app/ir/ir_codec_samsung_ac.c:48-53 | the fixed section does not depend on the old checksum |
| SamsungCodec.BitLsbfIsBit | app/ir/ir_codec_samsung_ac.c:85-88 | bit k of the data, least significant first, is bit k mod 8 of byte k / 8 |
| SamsungCodec.Encode | app/ir/ir_codec_samsung_ac.c:90-126 | every error code, and on success exactly the symbols of the frame |
| SamsungCodec.EncodingAt | app/ir/ir_codec_samsung_ac.c:101-125 | which symbol stands at place j of section s: header, data bit or footer, the last one with the final gap |
| SamsungCodec.FrameInFigures | app/ir/ir_codec_samsung_ac.c:99-125 | the same in microseconds: 690/17844, then per section 3086/8864, bits of 586/1432 or 586/436 from the bytes, least significant bit first, and 586/2886 or, last, 586/20000 |
| Bits.BytesOfBitsOf | app/ir/ir_decode.c:107-134 | packing bits least significant first inverts taking them out |
| Symbols.Within25IsInRange | app/ir/ir_decode.c:36-39 | rounding a duration down to microseconds never takes it out of the decoder's window |
| Symbols.InRangeIff | app/ir/ir_decode.c:36-39 | what the window test accepts: from three quarters, less the rounding, to five quarters |
| IrDecode.DecodeSamsungAcBytes | app/ir/ir_decode.c:95-141 | the nested loops return the first cap bytes of the sections found one behind the other |
| IrDecode.CollectBits | app/ir/ir_decode.c:107-134 | the bit loop packs exactly the run of readable bits into whole bytes, up to the cap |
| IrDecode.DecodeSamsungAcSection | app/ir/ir_decode.c:155-179 | no header, damaged or 7 bytes, as the 57 symbols at offset 58 s say |
| IrDecode.SectionIsLocal | app/ir/ir_decode.c:143-179 | a section's result depends on its own 57 symbols only |
| IrDecode.SacBitIs | app/ir/ir_decode.c:87-134 | what reads as a bit and as a section header, in microseconds |
| IrDecode.LostFooter | app/ir/ir_decode.c:95-141 | a section without a footer is followed by the next at once |
| IrDecode.DecodersAgree | app/ir/ir_decode.c:95-179 | on a frame of clean sections the whole-frame decoder returns the concatenation of the section results, up to 24 bytes |
| IrDecode.DecodeSpaceBits | app/ir/ir_decode.c:48-76 | count and word of the readable prefix of bits |
| IrDecode.LgBitIs | app/ir/ir_decode.c:48-76 | what reads as an LG bit, in microseconds |
| IrDecode.NecBitIs | app/ir/ir_decode.c:48-76 | what reads as a NEC bit, in microseconds |
| IrDecode.DecodeLg | app/ir/ir_decode.c:214-233 | accepts exactly 28 readable bits with a complementary command, and what it reports |
| IrDecode.DecodeNec | app/ir/ir_decode.c:235-274 | the NEC branch: repeat, standard, extended or nothing |
| IrDecode.Decode | app/ir/ir_decode.c:184-277 | the order of the branches and each result; on an unknown frame the output is empty but for the protocol, Samsung AC or unknown |
| NecClassification.NecClassification | app/ir/ir_decode.c:214-277 | what every 32-bit frame becomes, anywhere within tolerance: LG, NEC, extended NEC or unknown, with address, command and raw word |
| NecClassification.LgTakes | app/ir/ir_decode.c:214-233 | the LG branch takes a NEC frame exactly when it fits the LG windows and bytes 1 and 2 are complements |
| NecClassification.NominalNec | app/ir/ir_decode.c:214-248 | at nominal timing a NEC frame fits the NEC and the LG windows |
| NecClassification.StandardNecIsMisreadIff | app/ir/ir_decode.c:214-274 | a standard NEC frame is misread as LG exactly when command equals address |
| NecClassification.WordBytes | app/ir/ir_decode.c:251-254 | byte j of the received word is bits 8j to 8j + 7 |
| NecClassification.LgIsRecognized | app/ir/ir_decode.c:214-233 | an LG frame anywhere within tolerance of 8500/4250 and 560/1600 or 560/560, its last bit possibly cut by silence, is taken exactly when bytes 1 and 2 are complements, with address, command and raw word |
| NecClassification.RepeatIsRecognized | app/ir/ir_decode.c:238-243 | a header of 9000/2250 is a NEC repeat |
| IrCapture.Receiver.constructor | app/ir/ir_rx_nxp_gpio_ctimer.c:79-98 | initial state of the double buffer |
| IrCapture.Receiver.Start | app/ir/ir_rx_nxp_gpio_ctimer.c:247-272 | capture starts empty and idle; a failing interrupt configuration leaves it inactive and is passed on |
| IrCapture.Receiver.Stop | app/ir/ir_rx_nxp_gpio_ctimer.c:274-280 | only the active flag changes |
| IrCapture.Receiver.EdgeCallback | app/ir/ir_rx_nxp_gpio_ctimer.c:126-178 | the buffers move as the step function says; only the half being written changes |
| IrCapture.Receiver.GapWork | app/ir/ir_rx_nxp_gpio_ctimer.c:105-121 | the halves swap, frames of at least 3 symbols are handed over |
| IrCapture.CaptureRefines | app/ir/ir_rx_nxp_gpio_ctimer.c:105-178 | for every pulse train and start time, counter wrap-around included, exactly the specified frames are delivered |
| IrCapture.BurstDelivers | app/ir/ir_rx_nxp_gpio_ctimer.c:105-178 | a burst followed by silence is delivered as one frame: the first 384 marks and their spaces |
| IrCapture.LastSpaceIsZeroIff | app/ir/ir_rx.h:19-24 | when the documented zero last space holds, exactly, for every frame that can be delivered, cut by a mark or ended by silence |
| IrCapture.LastSpacesOfRun | app/ir/ir_rx_nxp_gpio_ctimer.c:105-178 | the same for each frame of every run of the receiver |
| IrCapture.MarkCutsBurst | app/ir/ir_rx_nxp_gpio_ctimer.c:150-164 | four pulses after which the last space of the frame is 700 |
| IrCapture.CallbackHalfIsStable | app/ir/ir_rx_nxp_gpio_ctimer.c:105-178 | no edge changes the half the callback is reading |
| IrTransmit.ThreadTransmitter.PlayOnce | app/ir/ir_tx_zephyr.c:68-89 | one round of the thread puts the buffer's waveform on the line and ends with the carrier off |
| IrTransmit.ThreadTransmitter.SendSymbols | app/ir/ir_tx_zephyr.c:145-170 | error codes, and exactly the waveform of the argument |
| IrTransmit.IsrTransmitter.ArmWith | app/ir/ir_tx_nxp_ctimer.c:302-316 | the armed state |
| IrTransmit.IsrTransmitter.MatchCallback | app/ir/ir_tx_nxp_ctimer.c:153-184 | one match moves the sequencer as the step function says |
| IrTransmit.MatchesKeepTime | app/ir/ir_tx_nxp_ctimer.c:153-184 | for all durations: after k matches exactly the first k segments are out, a zero one held for a full turn of the timer, and the next match is due when the next segment ends |
| IrTransmit.SequencerRefinesLoop | app/ir/ir_tx_nxp_ctimer.c:153-184 | for all durations: exactly two matches per symbol, one semaphore give, carrier off, no index past the end; the thread loop's waveform if and only if every duration is positive |
| IrTransmit.TrailingZeroIsHeldForATurn | app/ir/ir_tx_nxp_ctimer.c:158-163 | a frame that ends in a zero space is played in full but for its last segment, which lasts 2^32 microseconds |
| IrLink.CapturedFrameIsHeldUpIff | app/ir/ir_rx.h:19-24 | the sequencer plays a captured frame as it is exactly when its marks and inner spaces last a microsecond and it does not end in a zero space; one that does is held for a full turn |
| IrLink.RoundTrip | app/ir/ir_codec_samsung_ac.c:90-126 | decoding inverts encoding with every duration off by up to 25 % |
| IrLink.LegibleDecodes | app/ir/ir_decode.c:95-212 | any frame whose symbols read as the data decodes to the data |
| IrLink.CapturedOnce | app/ir/ir_rx_nxp_gpio_ctimer.c:105-178 | the lone global header is dropped and one frame is delivered |
| IrLink.EndToEnd | app/ir/ir_decode.c:184-212 | every 7, 14 or 21-byte frame survives encoder, waveform within 25 %, edge capture, gap timer and decoder |
| AirTime.AirTimeClosedForm | app/ir/ir_codec_samsung_ac.c:101-125 | air time is 35648 + 72654 per section + 996 per 1 bit, at most 420938 microseconds, below the send timeout |
| SectionAssembly.Assembler.FrameCallback | app/app_main_zephyr.c:303-353 | the static store moves as the specification says, and the report |
| SectionAssembly.AcceptedIsOriginal | app/app_main_zephyr.c:328-341 | a section damaged in one direction is taken over only if it is undamaged |
| SectionAssembly.OnlyTheFrameIsReported | app/app_main_zephyr.c:303-353 | over any run of damaged copies of one frame nothing but that frame is reported |
| SectionAssembly.ReportedIffSurvived | app/app_main_zephyr.c:328-352 | it is reported if and only if each section was there or survived in some capture |
| SectionAssembly.RepeatsAssembleTheFrame | app/app_main_zephyr.c:303-353 | both, from the empty store |
| SectionAssembly.CaptureMixes | app/app_main_zephyr.c:328-341 | what a damaged capture of any frame makes of any store, section by section |
| SectionAssembly.ForeignReportIff | app/app_main_zephyr.c:323-352 | whatever the store holds, a damaged capture of b makes a report exactly when every section came through or is kept, and one that is not b exactly when a section kept is not b's |
| SectionAssembly.RunMixesIff | app/app_main_zephyr.c:303-353 | over any run of damaged captures of b, from any incomplete store, something other than b is reported exactly when after some of them every section has been there, a foreign one has not come through again, and no reset has fired |
| SectionAssembly.MixtureIff | app/app_main_zephyr.c:323-352 | in particular right after captures of a, a capture of b reports a frame nobody sent exactly when the sections held and taken complete the store, no reset fires, and both a section not taken and one taken tell a and b apart |
| SectionAssembly.SwitchIsClean | app/app_main_zephyr.c:335-338 | an intact, differing section 0 clears a store that holds nothing without section 0 |
| SectionAssembly.SeparatedPressesNeverMix | app/app_main_zephyr.c:303-353 | over any run of presses that begin with an intact, differing section 0 and lose no section 0 alone, only the frame of the press is ever reported |
| FrameMixing.TwoFramesMayMix | app/app_main_zephyr.c:323-327 | two captures, for any two frames that differ in section 2 and in another, that make the mixture the source's own note fears |
| FrameMixing.DifferingSectionZeroIsNotEnough | app/app_main_zephyr.c:335-351 | three captures that mix although the new press begins with an intact, differing section 0 |
| FrameMixing.TwoRepeatsMayMix | app/app_main_zephyr.c:323-351 | three captures, one of the first frame and two repeats of the second, whose sections add up to neither |
| FrameMixing.OnAndOffMayMix | app/ir/ir_aircon.c:27-36 | the remote's own power-on and power-off frames mix |
| OnePress.PressIsReported | app/app_main_zephyr.c:303-353 | one press of a valid 21-byte frame, through encoder, waveform within 25 %, capture and callback: exactly that frame is reported, once, whatever was collected before, and the store starts over |
| OnePress.NecIsReported | app/app_main_zephyr.c:308-318 | a 32-bit frame of another remote is reported as what it is, or not at all if it is unknown, and the collected sections stay |
| OnePress.LgIsReported | app/app_main_zephyr.c:308-318 | the same for LG frames |
| OnePress.RepeatIsReported | app/app_main_zephyr.c:308-318 | and for repeats |
| Aircon.Controller.constructor | app/ir/ir_aircon.c:82-85 | power-up state |
| Aircon.Controller.Init | app/ir/ir_aircon.c:166-184 | cache cleared, power off; ready exactly when the transmitter is or comes up |
| Aircon.Controller.SendSymbolFrame | app/ir/ir_aircon.c:87-94 | the status for every frame and every answer of the transmitter; what goes on the air is the encoding of the bytes |
| Aircon.EncodedDecodes | app/ir/ir_aircon.c:87-94 | which decodes to the bytes |
| Aircon.Controller.SetTempLocked | app/ir/ir_aircon.c:105-112 | one nibble becomes the temperature, clamped to 16 to 30 |
| Aircon.Clamp | app/ir/ir_aircon.c:107-108 | 16 to 30 stay, less becomes 16, more becomes 30 |
| Aircon.Controller.GetTempC | app/ir/ir_aircon.c:223-231 | 0 when off, otherwise 16 plus the high nibble of byte 11 |
| Aircon.Controller.SetTempC | app/ir/ir_aircon.c:212-221 | the status for every state and every answer of the transmitter; the temperature asked for, clamped to 16 to 30, is then shown, stands in byte 11 and in the frame sent, which decodes to the cache |
| Aircon.Controller.ExecLearned | app/ir/ir_aircon.c:131-161 | the status, which learned frame goes out, and the cache and power state afterwards |
| Aircon.Controller.Send | app/ir/ir_aircon.c:186-210 | the status for every brand, action code and answer of the transmitter; the very bytes that go out for each action; cache and power afterwards |
| Aircon.Controller.SendRaw | app/ir/ir_aircon.c:239-257 | the status; the frame sent is the argument, with every section fixed if asked; nothing is sent otherwise |
| Aircon.TemplateIsState24 | app/ir/ir_aircon.c:39-42 | the power-on template is the state for 24 degrees |
| Aircon.EditMovesState | app/ir/ir_aircon.c:105-118 | editing the state of one temperature gives the state of the clamped other |
| Aircon.CacheIsWantedState | app/ir/ir_aircon.c:114-161 | over any run, a powered cache is the state of the last request since power-on, clamped to 16 to 30, or of 24 if there was none |
| Aircon.StateForLaws | app/ir/ir_aircon.c:39-42 | such a state verifies, shows its temperature and is the template everywhere else |
| Aircon.PoweredInvariant | app/ir/ir_aircon.c:99-161 | hence over any run of power, temperature and raw events |
| OtaStore.AppOta.constructor | app/ota/app_ota.c:34-41 | power-up state |
| OtaStore.AppOta.Init | app/ota/app_ota.c:86-111 | the whole new state |
| OtaStore.AppOta.PrepareStorage | app/ota/app_ota.c:57-83 | open, size and erase failures, and what each leaves in the slot |
| OtaStore.AppOta.Begin | app/ota/app_ota.c:113-141 | the whole new state and the invariant, for every answer of flash |
| OtaStore.AppOta.ChunkEnter | app/ota/app_ota.c:143-148 | the tests made before the mutex |
| OtaStore.AppOta.ChunkLocked | app/ota/app_ota.c:150-205 | the body under the mutex keeps the invariant from any valid state |
| OtaStore.AppOta.Chunk | app/ota/app_ota.c:143-205 | both together |
| OtaStore.AppOta.Commit | app/ota/app_ota.c:207-257 | the whole new state; OK and COMMITTED exactly for a complete image and a willing boot loader |
| OtaStore.AppOta.Abort | app/ota/app_ota.c:259-274 | the whole new state |
| OtaStore.ProgramErased | app/ota/app_ota.c:185-203 | programming erased flash writes the data and leaves the rest erased |
| OtaStore.ChunkKeepsInv | app/ota/app_ota.c:150-205 | prefix, bounds, single programming and closed-handle safety survive a chunk body in any state |
| OtaStore.ChunkLandsIff | app/ota/app_ota.c:150-205 | a chunk body succeeds if and only if a session can take data, the offset is next, the data fits and flash works |
| OtaStore.ChunkTestIff | app/ota/app_ota.c:143-148 | the tests before the mutex let 1 to 65535 bytes through while an image is ready, and the code of each refusal |
| OtaStore.ChunkAnswers | app/ota/app_ota.c:150-205 | the code of every chunk body and what it leaves |
| OtaStore.InitOpensTheStore | app/ota/app_ota.c:86-111 | after init a session of any size that fits can be begun |
| OtaStore.BeginLandsIff | app/ota/app_ota.c:113-141 | a begin opens a session exactly when the store is initialised, the size is positive and fits, and flash opens and erases; the session is empty and on erased flash; what every other begin leaves |
| OtaStore.CommitLandsIff | app/ota/app_ota.c:207-257 | a commit succeeds exactly when the image is complete, not committed yet, and the boot loader accepts; a complete image that it refuses fails the session; any other commit changes only the last error |
| OtaStore.OutOfStepChunk | app/ota/app_ota.c:152-166 | otherwise by phase or offset: refused, with nothing but the last error changed |
| OtaStore.InStepChunk | app/ota/app_ota.c:143-205 | a client in step is appended or the session fails |
| OtaStore.AbortLeavesNothing | app/ota/app_ota.c:259-274 | after an abort nothing can be resumed |
| OtaClients.StepKeepsSafe | app/ota/app_ota.c:86-274 | every piece of every client's call keeps store and acknowledgements consistent |
| OtaClients.RunKeepsSafe | app/ota/app_ota.c:86-274 | and so does every run |
| OtaClients.SafeOverAllInterleavings | app/ota/app_ota.c:57-274 | after any interleaving from power-up: the received prefix is the concatenation of the acknowledged chunks since the last begin, within the announced size, which fits; no byte programmed twice; no write through a closed handle; COMMITTED means complete |
| OtaClients.CommitLandsInRun | app/ota/app_ota.c:207-257 | after any run a commit succeeds exactly when the acknowledged chunks add up to the announced size, the boot loader accepts and it was not committed before |
| OtaClients.UploadIsCommitted | app/ota/app_ota.c:113-257 | from any reachable state an undisturbed begin, upload and commit ends committed with exactly the uploaded bytes in the slot |
| OtaClients.FinishedSlotIsStable | app/ota/app_ota.c:143-274 | outside READY and WRITING no call already under way changes the slot until a begin runs |
| OtaClients.PrefixOnlyGrows | app/ota/app_ota.c:143-274 | over any run without a begin a session keeps its total and only extends its received prefix, and once ended stays ended |
| OtaClients.SameSessionIff | app/ota/app_ota.c:86-274 | over any run that ends in a session, it is the session it was exactly when no begin ran, successful or not |
| OtaClients.ChunkJoinsTheSessionItSawIff | app/ota/app_ota.c:143-205 | an accepted chunk joins the session its unlocked test saw exactly when no begin ran between test and body |
| OtaClients.FreshSessionTakesChunkIff | app/ota/app_ota.c:113-173 | a pending chunk lands in a session just begun exactly when its offset is 0 and it fits |
| OtaClients.StaleChunkLandsInTheNextSession | app/ota/app_ota.c:148-157 | a run from power-up in which a chunk tested in the first session is written into the second |
| OtaClients.InitIsHarmlessIff | app/ota/app_ota.c:99-107 | calling init again changes nothing but the last error exactly when the store is idle |
| OtaClients.InitForgetsTheSession | app/ota/app_ota.c:99-107 | in the middle of a session the chunk that would have been taken is refused afterwards |
| OtaClients.InitForgetsAnEarlyBegin | app/ota/app_ota.c:86-111 | a run from power-up in which a begin succeeds while init is under way and is then forgotten by it |
| Url.UrlRoundTrip | app/ota/app_ota_http.c:47-82 | for every host, port and path and every way of leaving parts out, parsing inverts printing if they fit (63 and 159 bytes, port 1 to 65535) and otherwise says which does not |
| Url.HttpsIsRefused | app/ota/app_ota_http.c:47-56 | the secure scheme is refused with -2 |
| Url.AcceptedIsWellFormed | app/ota/app_ota_http.c:47-82 | whatever is accepted has parts in bounds, and prints and parses to the same parts again |
| CText.NumeralReads | app/ota/app_ota_http.c:441-443 | a numeral in base 10 or 16 is read as its value, whatever non-digit follows |
| CText.NumberReads | app/ota/app_ota_http.c:179-216 | blanks, a sign and 0x in front, saturation at 32 bits and negation included, a number is read as its value and the scan ends behind it |
| CText.StrtoulLocal | app/ota/app_ota_http.c:185-216 | a scan that meets a non-blank byte and a stop sees nothing behind them |
| ByteStream.Stream.ReadSome | app/ota/app_ota_http.c:274-288 | what is returned plus what is pending is what was pending |
| ByteStream.Stream.ReadExact | app/ota/app_ota_http.c:290-300 | exactly that many bytes, or why not |
| ByteStream.Stream.ReadLine | app/ota/app_ota_http.c:304-340 | success and overflow both consume exactly through the first CRLF; success exactly when the line fits; otherwise stopped or broken |
| ByteStream.Stream.Drain | app/ota/app_ota_http.c:326-338 | the overflow loop does so too |
| Chunked.DechunkInvertsEncode | app/ota/app_ota_http.c:428-472 | for any chunks, size spellings, extensions and trailers the body comes out whole and the rest of the stream is untouched |
| HttpBody.Sink.Write | app/ota/app_ota_http.c:358-371 | appended, or refused with nothing stored; offset and store stay in step; out of step the store is untouched |
| HttpBody.StreamFixedBody | app/ota/app_ota_http.c:388-426 | exactly the announced bytes move, in order, in step with the store; why it fails otherwise |
| HttpBody.ReadSize | app/ota/app_ota_http.c:436-443 | the size line as the specification reads it |
| HttpBody.SkipTrailers | app/ota/app_ota_http.c:445-455 | consumes exactly through the empty line, overlong trailers included |
| HttpBody.CopyChunk | app/ota/app_ota_http.c:457-465 | one chunk's data moves to the sink |
| HttpBody.StreamChunkedBody | app/ota/app_ota_http.c:428-472 | refines the chunked specification under every split of the stream; on a reliable link fails only if stopped, malformed or refused |
| HttpBody.ReceiveEncoded | app/ota/app_ota_http.c:428-472 | an encoded body on a reliable link decodes unless stopped or too large for the sink |
| HttpHead.LocalIffAnchored | app/ota/app_ota_http.c:160-245 | the parse of a head is independent of the memory behind it exactly when every number scan meets a non-blank byte in the head |
| HttpHead.AnchoredHeadIsLocal | app/ota/app_ota_http.c:160-245 | the sufficient direction, for every continuation |
| HttpHead.UnanchoredHeadRunsOff | app/ota/app_ota_http.c:177-216 | the necessary direction, with two continuations that tell |
| HttpHead.HeadLocationIsShort | app/ota/app_ota_http.c:145-156 | a kept Location always fits the URL buffer |
| HttpHead.LengthName | app/ota/app_ota_http.c:185-189 | the header name in plain text |
| HttpHead.RangeName | app/ota/app_ota_http.c:190-195 | the header name in plain text |
| HttpHead.LocationName | app/ota/app_ota_http.c:217-221 | the header name in plain text |
| HttpHead.CodingName | app/ota/app_ota_http.c:222-240 | the header name in plain text |
| HttpHead.LowerIs | app/ota/app_ota_http.c:122-135 | names are compared with capital letters lowered |
| HttpHead.HasChunkedIff | app/ota/app_ota_http.c:222-240 | chunked is found exactly where the word stands in any mixture of cases |
| HttpHead.RefusedHeads | app/ota/app_ota_http.c:176-183 | the code of every head that is refused |
| HttpServerHead.HeadReads | app/ota/app_ota_http.c:160-245 | every printed head, names in any case, is understood as its fields mean, whatever follows |
| HttpServerHead.HeadEndsThere | app/ota/app_ota_http.c:163-172 | its end is found exactly where it ends |
| HttpServerHead.RangeReads | app/ota/app_ota_http.c:195-216 | a Content-Range is read back as its three numbers |
| HttpServerHead.RangeWithoutTotal | app/ota/app_ota_http.c:195-216 | without a slash the total counts as 0 |
| HttpServerHead.BlankLengthRunsOff | app/ota/app_ota_http.c:189-194 | a last field Content-Length without a value makes the parse depend on the body |
| HttpReceive.ParseResponseHeaders | app/ota/app_ota_http.c:160-245 | the loops compute the specification: incomplete, malformed or the fields |
| HttpReceive.ReceiveHead | app/ota/app_ota_http.c:567-582 | for every segmentation and any old buffer contents: an anchored head yields its own fields, and leftover plus unread bytes are exactly the body; when each failure occurs |
| HttpDownload.ImagePreStream | app/ota/app_ota_http.c:688-736 | the code for every answer; a new session, the old one or a restarted one, each with sink and store in step |
| HttpDownload.StreamBody | app/ota/app_ota_http.c:605-632 | framing and code of the body; a stopped download stores nothing; on a calm link, with the announced body there and room for it, success |
| HttpDownload.Deliver | app/ota/app_ota_http.c:590-632 | redirects (301, 302, 303, 307, 308) handed back, final answers framed and stored, with the code for each refusal; a usable answer with its body there fails only if stopped, on an unreliable link, or turned away, and never if it fits steady flash |
| HttpDownload.RequestOnce | app/ota/app_ota_http.c:503-638 | what is asked of which host, port and path; a redirect stores nothing; success stores the framed body behind the head that was sent; what each failure code says; on a calm network a head is read as it says, and a deliverable answer that fits steady flash succeeds |
| HttpDownload.Exchange | app/ota/app_ota_http.c:565-632 | the part of it once the request is sent |
| HttpDownload.Request | app/ota/app_ota_http.c:642-669 | at most three requests: the first for the URL given, each other for the Location that the server's redirect before it named, sent to its host, port and path with the same range; only the last stores anything; the failure is the last one's or too many redirects; on a calm network what comes of the last answer |
| HttpDownload.TrailEnds | app/ota/app_ota_http.c:650-667 | how the trail of requests and answers is closed by the last request, sent or not |
| HttpDownload.CallHook | app/ota/app_ota_http.c:596-601 | the hook is called for images; a usable answer that fits is let through with room for its body |
| HttpDownload.PrintedIsDeliverable | app/ota/app_ota_http.c:567-632 | a printed answer with a head of at most 1024 bytes is deliverable exactly when its meaning is usable and its body is there |
| HttpDownload.AnswerUnderstood | app/ota/app_ota_http.c:567-632 | for a printed head the fields used are the server's, and the body is framed by them |
| HttpDownload.DownloadedResource | app/ota/app_ota_http.c:688-806 | against a server of one fixed resource (sections 3.1, 4.1 and 4.2 of RFC 7233) a zero result means the slot holds a prefix of the resource and expects all of it; all of it exactly when a 206 did not stop short, which is exactly when received equals total |
| HttpDownload.ShortPartIsASuccess | app/ota/app_ota_http.c:618-620 | the concrete answer, head and body, that stops short and is a success |
| HttpDownload.ShortAnswerInText | app/ota/app_ota_http.c:160-216 | the head of that answer as plain text |
| HttpDownload.HttpOta.Start | app/ota/app_ota_http.c:861-935 | the code for all arguments and whether the thread could be created; the state it leaves; when the store is initialised |
| HttpDownload.HttpOta.GetImage | app/ota/app_ota_http.c:776-806 | the requests made, from the image URL on; the resume offset is the store's; what was stored; on a calm network with steady flash a deliverable answer that fits succeeds, and whether it completes the image |
| HttpDownload.HttpOta.Task | app/ota/app_ota_http.c:770-856 | the requests made for image and header; done means stored, and committed with auto-commit; failed means nothing is left to resume; on a calm network with steady flash and a willing boot loader, deliverable answers that fit end in done |
| HttpDownload.HttpOta.TaskFetches | app/ota/app_ota_http.c:770-856 | the same against a server of one fixed resource: done means a prefix of it in the slot, all of it exactly when no part stopped short, and always with auto-commit; an answer that brings all of it, or all the rest, ends in done with all of it in the slot |
| HttpDownload.HttpOta.FetchHeader | app/ota/app_ota_http.c:808-830 | the requests made, from the header URL on; success means an answer of at most 512 bytes, and on a calm network every such answer is one |
| Rotary.Encoder.Interrupt | app/rotary_enc/rotary_enc.c:53-72 | state and counter after one interrupt, 32-bit wrap included |
| Rotary.CountTracksPosition | app/rotary_enc/rotary_enc.c:35-71 | over any samples the count is the Gray position plus 4 per lap minus 2 per missed edge |
| Rotary.CongruenceIff | app/rotary_enc/rotary_enc.c:35-71 | the count is right modulo 4 exactly when an even number of edges was missed, modulo 2 always |
| Rotary.BounceNetsZero | app/rotary_enc/rotary_enc.c:35-71 | a walk followed by its reverse counts zero |
| Rotary.ShownIsCount | app/rotary_enc/rotary_enc.c:69-71 | the 32-bit counter differs from the unbounded count by whole multiples of 2^32 |
| WifiRetry.Station.Connect | app/wifi/app_wifi.c:310-321 | all return codes; an accepted call restarts the band sequence |
| WifiRetry.Station.Disconnect | app/wifi/app_wifi.c:323-330 | return code; the sequence is marked exhausted |
| WifiRetry.Station.RetryWork | app/wifi/app_wifi.c:84-135 | which band is requested, and when the application is told of failure |
| WifiRetry.Station.ConnectTimeout | app/wifi/app_wifi.c:74-82 | the next band is queued |
| WifiRetry.Station.ConnectResult | app/wifi/app_wifi.c:209-237 | success, wrong password and other failures |
| WifiRetry.Station.DisconnectResult | app/wifi/app_wifi.c:239-246 | told when the station was connected, which it then is not |
| WifiRetry.Station.DriverIsReady | app/wifi/app_wifi.c:174-200 | told by the first of the two handlers |
| WifiRetry.ConnectedIff | app/wifi/app_wifi.c:209-330 | over any run the station is connected exactly when it was and nothing ended that, or a success came that nothing has ended since |
| WifiRetry.LossIsToldIff | app/wifi/app_wifi.c:239-246 | hence a disconnect event is told exactly when a success has not been ended before, once per connection |
| WifiRetry.ReadyIsToldOnce | app/wifi/app_wifi.c:174-200 | readiness is told once over any run |
| WifiRetry.FirstWorkTellsIff | app/wifi/app_wifi.c:84-135 | the first run of the work tells of failure exactly when it asks for no band |
| WifiRetry.SettledIsQuiet | app/wifi/app_wifi.c:209-330 | after a success, a wrong password (which alone is told) or a disconnect call nothing is asked for until the next connect call or driver failure |
| WifiRetry.AtMostOneRequestPerBand | app/wifi/app_wifi.c:74-321 | over any interleaving one connect call leads to at most two requests, with increasing band index |
| WifiRetry.ExhaustedStaysSilent | app/wifi/app_wifi.c:74-330 | the bands left never grow without a new call, and with none left nothing is requested |
| WifiRetry.EachRequestUsesUpABand | app/wifi/app_wifi.c:84-135 | the bands left strictly decrease from request to request |
| WifiRetry.AskingLeadsThere | app/wifi/app_wifi.c:84-135 | asking for band 0 leads to the state the next row starts from |
| WifiRetry.SecondBandIff | app/wifi/app_wifi.c:74-255 | over any interleaving until the next connect call, band 1 is asked for exactly when the retry work first runs with one advance (armed timeout, or failure other than a wrong password) and no disconnect call behind it |
| WifiRetry.FirstBandIff | app/wifi/app_wifi.c:84-135 | from any state with the work queued and nothing asked for, over any interleaving until the next connect call: the first band asked for is the one at which the index stands when the work first runs, with the security type known and no disconnect call before |
| WifiRetry.BandOrderIff | app/wifi/app_wifi.c:13-14 | both together: when 5 GHz and then 2.4 GHz are asked for, exactly |
| WifiRetry.LateFailureSkipsFirstBand | app/wifi/app_wifi.c:209-237 | the run in which a failure event before the work makes 2.4 GHz the only band asked for |
| WifiRetry.OneAdvanceThenWork | app/wifi/app_wifi.c:13-14 | the documented order 5 GHz, 2.4 GHz when the work runs after one advance |
| WifiRetry.TimeoutThenFailureSkipsSecondBand | app/wifi/app_wifi.c:74-82 | the run in which the driver answers the timeout's disconnect with a failure before the work runs |

## Left out

- Sockets, PWM, GPIO and timer registers, logging, shell commands, stack and thread set-up: their results are parameters or arbitrary values.
- The heartbeat thread, progress counters, `app_ota_reboot_after_ms` and the status callbacks of the OTA store: they change nothing the model speaks of.
- Null pointers, except where a row says so: arrays and sequences take their place.
- IrDecode.Decode: what the output structure holds for an empty frame, which the code does not write, is left open.
- SamsungCodec.Encode: the code for null pointers is not modelled; arrays cannot be null here.
- IrCapture.Receiver.Start: a receiver object is an initialised driver; the initialisation that the first start makes, and its failure, are not modelled.
- ByteStream.Link.Running: once false the run flag stays false for a download; a stop followed by a new start while the old thread is still blocked in recv raises it again (app_ota_http.c:864, 899, 938-941), which is not modelled.
- MCUboot's swap and signature check: outside the repository.
- `ir_rx_inject_frame`, a helper that bypasses the buffer flip, and the send-timeout paths of both transmitters: the stated waveforms are those of sends that complete.
- SequencerRefinesLoop: interrupt latency is taken as zero, and a match value equal to the running timer is taken to fire only after a full turn of the counter.
- CaptureRefines: takes the gap handler to run after 12 ms of silence and before the next edge, as the serial workqueue allows when it is idle; counter stamps wrap, and silences longer than a turn are covered because the gap handler has run.
- The retry work of the Wi-Fi station is one step: the race between its connect request and a result event arriving before the timeout is armed is not modelled.
- WifiRetry.Station.Connect: of the stored configuration only whether its security type is known is modelled.
- IrTransmit.ThreadTransmitter.SendSymbols: caller and thread alternate through the two semaphores as one call; a second caller waits on the mutex.
- `samsung_*` calls of the air conditioner other than those listed, and the other brands, which return errors: they add only easy members.
- `app_ota_init` and `app_ota_begin` drop or reuse the flash handle; whether the old handle is closed is not modelled beyond open or not.
- AppOta.Chunk: a null data pointer is not modelled.
- HttpDownload.Net.Connect: name resolution, connecting and sending fail or succeed arbitrarily unless the network is calm; of the request text only host, port, path and range are modelled, and it always fits its buffer because parsed hosts and paths are bounded, so return code -5 does not occur.
- HttpDownload.HttpOta.FetchHeader: only its result is used, since `app_ota_commit` ignores the header it is given.
- HttpDownload.DownloadedResource: no other client of the store acts during the download; safety with other clients is SafeOverAllInterleavings.
- `strtoul` and `strtol` are specified after ISO C for a 32-bit `long`; a memory read behind the 1024-byte header buffer reads NUL.
- Sensors, LEDs, Bluetooth services, Matter, TCP client and server, radar and audio: thin drivers and plumbing that would add only easy members.
