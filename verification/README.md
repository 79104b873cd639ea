# Lighting engine: a verified model

A Dafny model of the parts of the lighting engine that carry bytes and pixels. Each part has an imperative form close
to the Python code (classes with the source's fields, loops with invariants), a specification function that the form is
proved equal to, and theorems about that function over every input or every run.

What is proved, by part:

- **RS-485 v2** (`Bits16`, `CrcRegister`, `CrcDivision`, `Crc16`, `CrcDetection`, `CrcBursts`, `CrcParity`, `CrcPairs`,
  `Rs485`, `Rs485Parser`). The bit-by-bit CRC is the remainder of polynomial long division, linear and injective per
  step, so any damage within sixteen consecutive bits, any odd number of flipped bits, and any two flipped bits of a
  frame, are always detected. Frame round trips in both directions. The resynchronising parser refines a byte-by-byte
  scan of the whole stream however the stream is cut; the one step that can lose a frame (no SYNC found while the last
  byte is 0xA5) is characterised by an if-and-only-if and shown by an example.
- **Topology** (`Topology`, `SegmentValidation`, `ConfigValidation`, `Layouts`, `PhysicalMapping`,
  `ValidatorAgreement`, `VersionTwo`, `Rooms`, `FrameMapping`, `Ddp`, `DdpLayout`, `DdpOverlay`, `ConfigToWire`,
  `SharedHosts`, `TwinHosts`). Both validators are proved to accept exactly a declarative rule set. Of a version-3 room
  that the first accepts and the loader loads, the second accepts it if and only if there is one analog node or the
  policy is a one-output policy; version-2 rooms have their own condition. Mapped frames place every pixel exactly; DDP
  packets partition the payload and rebuild it in any order; `AcceptedRoomIsShownIff` joins all of it, from an accepted
  configuration to what each receiver shows.
- **Virtual paths** (`VirtualPaths`, over `PixelSets`). A built path tiles its coordinates, and `split` is a bijection
  between mapped coordinates and LEDs.
- **Fixed-step effects** (`Motion`, `HistoryStream`, `HistoryRuns`, `HeatFire`). With constant parameters, or at one
  rate, speed and timeline, per-strip mutable state equals a function of time, however a run is cut into renders; the
  history's truncated work equals inserting every due step, and a backward seek starts afresh (`SeekRestarts`).
- **Outputs** (`DatagramOutput`, `OutputGroup`, `Fields`, `UdpV2`, `UdpV2Delivery`, `UdpV3Output`, `UdpV3Session`,
  `UdpV3Keys`, `UdpV3Accounting`, `UdpV3Counts`). Frame accounting over every run with arbitrary failures; what a frame
  counted as sent has put on the wire; opening all or none; the UDP v2 codec; the invariants of scheduled UDP v3
  sessions over their whole trace; and the key phase of every session, scheduled or not.
- **UDP v3 frames** (`UdpV3`, `UdpV3Chunks`, `UdpV3Reassembler`, `UdpV3Delivery`, `UdpV3Reassembly`, `UdpV3EndToEnd`,
  `ConfigToUdp`, `EncodableRooms`). The decoders invert the encoders; a frame's datagrams, reordered, repeated and
  mixed with older ones, bring the frame out of the receiver exactly once; and so for every enabled node of an accepted
  room, from its configuration on. Which accepted rooms are sent at all is told exactly.
- **WLED audio** (`WledAudioSync`). The retained packet is a function of the run; when the receiver's assertion fails,
  and when one drain equals two, is told exactly, on any clock.
- **Colour** (`Colour`). White extraction is exact and legal, the power limit holds exactly outside one early return,
  and timelines are piecewise linear, and constant outside their range (`TimelineHoldsItsEnds`).

## Findings

Properties that do not hold of the code everywhere, each with its exact condition and a concrete case:

- DDP sends to a node's host and ignores its port, while the first validator asks for different (host, port) pairs, and
  the second for nothing of the kind. Of two enabled nodes at one host the earlier is not shown where the later
  overwrites it (`AcceptedRoomIsShownIff` for one frame, `AlwaysShownIff` for every frame, `TwinsCollide`).
- A parser call that finds no SYNC clears a trailing 0xA5 and so can lose a frame (`FeedIsExactIff`,
  `LosesHalfSyncIff`, `LostHalfSyncLosesAFrame`).
- Under the diagnostic policy the first validator accepts rooms without analog nodes that the second refuses
  (`ValidatorAgreement.SecondValidatorAcceptsIff`, `DiagnosticRoomIsRefused`).
- The first validator does not look at the video zones and directions of strips and zones, nor at the video zones of
  analog nodes, and the loader raises on them (`AcceptedLoads`, `EmptyVideoZoneStopsTheLoader`,
  `UnknownVideoZoneStopsTheLoader`).
- In version 2 the first validator does not look at outputs; the loader loads them, and the second validator holds them
  to the version-3 rules (`VersionTwo.SecondValidatorAcceptsIff`, `OutputStopsTheRoom`).
- Outside production mode, UDP v3 loses a frame without counting it when its preparation raises (`LosesFrameIff`,
  `MemoryModeLosesAFrame`).
- Neither validator bounds node numbers, output numbers, pins and strip lengths from above, and UDP v3 has a byte or
  sixteen bits for them. A room that exceeds them is accepted and never sent (`AcceptedRoomIsSentIff`,
  `WideRoomIsNeverSent`).
- The UDP v2 constructor admits 21830 to 21845 pixels, which the decoder refuses by size (`FitsIff`,
  `TooLongForOneDatagram`).
- A legal UDP v3 frame of three empty outputs has no datagram at all under a limit of 46 to 50 bytes (`NothingSentIff`,
  `EmptyFrameIsNotSent`).
- `rgb_to_rgbcct` returns before applying the power limit when nothing is to be extracted (`PowerLimitHoldsIff`,
  `PassedThroughAboveTheLimit`).
- A clock that falls back below a limit it has passed fails the audio receiver's assertion
  (`AssertionFailsAfterRunIff`, `BackwardClockFails`).

And one that cannot happen: in a colour timeline, the error about times that do not increase and the final fallback are
never reached, whatever the times (`TimelineNeverFails`).

## Conventions

Python floats are exact reals. Code outside the model enters as parameters: the random draws of the heat effect, the
rounding of channels to bytes, CRC-32, the decoding of a float32, the rule for host names, and, for every send, clock
reading, sleep or socket, what it returns or that it raises. An exception is a result value. Fields that the source
never reads back (error texts, time stamps of the last success) are not modelled.

## Model

| member | source | states |
|---|---|---|
| Crc16.Crc16CcittFalse | light_engine/outputs/rs485_v2.py:20-30 | the two nested loops compute the specification of the CRC, a number whose sixteen bits are the remainder of the message |
| Crc16.CrcIsRemainder | light_engine/outputs/rs485_v2.py:20-30 | the CRC of every byte string is the remainder of the message, moved up by 16 places, plus sixteen ones moved up by its length, on long division by x^16 + x^12 + x^5 + 1 |
| CrcRegister.ShiftAsBranch | light_engine/outputs/rs485_v2.py:24-29 | the branch on the top bit is the tap formula used in the proofs |
| CrcDetection.TwoByteBurstChangesCrc | light_engine/outputs/rs485_v2.py:20-30 | changing two adjacent bytes changes the CRC, whatever surrounds them |
| CrcBursts.BurstChangesCrc | light_engine/outputs/rs485_v2.py:20-30 | changing bits within any sixteen consecutive ones, three bytes at most, changes the CRC |
| CrcParity.OddFlipsChangeCrc | light_engine/outputs/rs485_v2.py:20-30 | flipping an odd number of bits changes the CRC |
| CrcPairs.TwoFlipsChangeCrc | light_engine/outputs/rs485_v2.py:20-30 | flipping any two bits of at most sixteen bytes, a whole frame, changes the CRC |
| CrcDetection.ZeroResidue | light_engine/outputs/rs485_v2.py:20-30 | body plus checksum leaves the register at zero, and no other two bytes do |
| Rs485.FrameBytes | light_engine/outputs/rs485_v2.py:61-81 | each of the sixteen bytes of an encoded packet |
| Rs485.AcceptedIff | light_engine/outputs/rs485_v2.py:83-117 | which byte strings the decoder accepts: length, sync, version, checksum, node number, and the two filters |
| Rs485.DecodeInvertsEncode | light_engine/outputs/rs485_v2.py:61-117 | a legal packet comes back, its sequence reduced to a byte, under every filter it meets |
| Rs485.EncodeInvertsDecode | light_engine/outputs/rs485_v2.py:83-117 | an accepted frame is exactly the encoding of what it decodes to |
| Rs485.TwoByteCorruptionIsRejected | light_engine/outputs/rs485_v2.py:83-117 | an accepted frame with damage in two adjacent bytes is refused |
| Rs485.BurstCorruptionIsRejected | light_engine/outputs/rs485_v2.py:83-117 | an accepted frame with damage within sixteen consecutive bits is refused |
| Rs485.OddCorruptionIsRejected | light_engine/outputs/rs485_v2.py:83-117 | an accepted frame with an odd number of flipped bits is refused |
| Rs485.UpToThreeFlipsAreRejected | light_engine/outputs/rs485_v2.py:83-117 | an accepted frame with one, two or three flipped bits is refused |
| Rs485Parser.StreamParser.constructor | light_engine/outputs/rs485_v2.py:123-128 | a new parser has an empty buffer and no counts |
| Rs485Parser.StreamParser.Feed | light_engine/outputs/rs485_v2.py:130-154 | buffer, counters and returned packets after one call are those of the scan of the buffer, cut to `max_buffer` |
| Rs485Parser.StreamParser.Consume | light_engine/outputs/rs485_v2.py:136-153 | the loop finds, counts and keeps what the scan does |
| Rs485Parser.StreamParser.SkipToNextSync | light_engine/outputs/rs485_v2.py:137-144 | skipping to SYNC, or clearing, changes neither what is found nor what is kept |
| Rs485Parser.SkipToSync | light_engine/outputs/rs485_v2.py:136-141 | jumping to the first SYNC, or clearing a buffer without one, finds what the scan finds |
| Rs485Parser.ReadsTheNewest | light_engine/outputs/rs485_v2.py:131-133 | an overlong buffer keeps its newest `max_buffer` bytes |
| Rs485Parser.ScanByPosition | light_engine/outputs/rs485_v2.py:130-154 | the scan finds the first place where a frame stands and goes on behind it, and counts one invalid candidate for each SYNC that it passes |
| Rs485Parser.ScanSplits | light_engine/outputs/rs485_v2.py:130-154 | scanning a longer stream is scanning its first part, then the carried bytes with the rest |
| Rs485Parser.KeptIsShort | light_engine/outputs/rs485_v2.py:130-154 | fewer than 16 bytes stay in the buffer after a call |
| Rs485Parser.FeedIsExactIff | light_engine/outputs/rs485_v2.py:130-154 | what a call leaves behind serves every continuation exactly, if and only if no final 0xA5 was cleared |
| Rs485Parser.LosesHalfSyncIff | light_engine/outputs/rs485_v2.py:136-141 | the losing case read off the scan before the call: it ends by passing over a byte without SYNC, and the unread rest has no SYNC and ends with 0xA5 |
| Rs485Parser.RunStaysExactIff | light_engine/outputs/rs485_v2.py:130-154 | over a run without a truncated call the parser stays exact from call to call if and only if no call clears a final 0xA5 |
| Rs485Parser.AnyChunkingIsOneScan | light_engine/outputs/rs485_v2.py:130-154 | in any chunks, when no call is truncated and no cleared final 0xA5 is followed by 0x5A: packets, order and both counters are those of one scan of the whole |
| Rs485Parser.LostHalfSyncLosesAFrame | light_engine/outputs/rs485_v2.py:137-139 | a frame whose first byte ends a call without a SYNC is missed |
| Rs485Parser.EncodedStreamRoundTrips | light_engine/outputs/rs485_v2.py:61-154 | encoded packets in chunks of at most `max_buffer` - 15 bytes come back in order, none invalid, nothing left over |
| Motion.CueMotionClock.constructor | light_engine/motion.py:70-72 | a new clock is at zero with no render seen |
| Motion.CueMotionClock.Reset | light_engine/motion.py:77-80 | a reset clock equals a new one |
| Motion.CueMotionClock.Advance | light_engine/motion.py:82-116 | interval, new state and refusals are those of the specification, and the state stays consistent |
| Motion.TickIs | light_engine/motion.py:82-116 | after any run, one more tick: when it is refused, and which interval and motion it gives |
| Motion.ClockIntegratesSpeed | light_engine/motion.py:82-116 | over every admissible run each tick is accepted and the clock holds the integral of speed |
| Motion.ConstantSpeedIntegral | light_engine/motion.py:82-116 | at one speed the integral is last cue time times speed, whatever came between |
| Motion.ConstantSpeedStaysOnLine | light_engine/motion.py:128-141 | intervals of a clock at one speed and of the clockless helper lie on the same line |
| HistoryStream.HistoryStreamEffect.constructor | light_engine/effects/history_stream.py:85-89 | a new effect has no history |
| HistoryStream.HistoryStreamEffect.Process | light_engine/effects/history_stream.py:91-186 | one render changes histories and steps, and draws them at the common intensity, as the specification says, also when it raises |
| HistoryStream.HistoryStreamEffect.RenderStrip | light_engine/effects/history_stream.py:129-172 | one strip of one render |
| HistoryStream.HistoryStreamEffect.Reset | light_engine/effects/history_stream.py:280-283 | everything is forgotten |
| HistoryStream.RendersIff | light_engine/effects/history_stream.py:91-128 | when a render raises, and which cue time it remembers otherwise |
| HistoryStream.StepIs | light_engine/effects/history_stream.py:105-128 | the step of a render is motion times rate, rounded down, with the tolerance |
| HistoryStream.EmitIs | light_engine/effects/history_stream.py:218-262 | the colour of a due step: the current one, or the timeline at the time of the step, scaled by the gain |
| HistoryStream.IntensityIs | light_engine/effects/history_stream.py:178-186 | a render dims each channel by the intensity, and full intensity leaves it alone |
| HistoryStream.ResizeByIndex | light_engine/effects/history_stream.py:188-200 | resizing keeps the newest pixels and fills the far end with black |
| HistoryStream.AdvanceIsRepeatedInsertion | light_engine/effects/history_stream.py:202-216 | advancing by n is n single insertions, in either direction |
| HistoryStream.AdvanceSamplesIsInsertion | light_engine/effects/history_stream.py:264-278 | inserting a list that fits is inserting its samples one by one |
| HistoryStream.ReverseIsMirror | light_engine/effects/history_stream.py:188-278 | reverse advance, insertion and resize are mirror images of the forward ones |
| HistoryStream.TimelineSamples | light_engine/effects/history_stream.py:218-262 | the loop yields the colours of the due steps that the path can hold |
| HistoryStream.LastSamplesSuffice | light_engine/effects/history_stream.py:237-262 | leaving out all but the last `capacity` samples changes nothing |
| HistoryStream.RenderInsertsEveryDueStep | light_engine/effects/history_stream.py:129-278 | a render equals inserting the colour of every due step one by one into the resized path |
| HistoryRuns.ProcessedPath | light_engine/effects/history_stream.py:91-186 | a render treats one path alike whatever other strips are drawn |
| HistoryRuns.PathAfterRun | light_engine/effects/history_stream.py:91-186 | after any steady run pixel i is the colour of the i-th step before the furthest reached, or black |
| HistoryRuns.PixelsAfterRun | light_engine/effects/history_stream.py:91-186 | in pixels: the newest stands first in the forward direction and last in reverse |
| HistoryRuns.DroppedStripStartsAfresh | light_engine/effects/history_stream.py:169-172 | a strip that a render does not draw is forgotten, after any run |
| HistoryRuns.ReadingTime | light_engine/effects/history_stream.py:218-262 | a step's colour is read at its ideal time, early by at most the tolerance |
| HistoryRuns.ClosedForm | light_engine/effects/history_stream.py:105-278 | at one rate and speed pixel i shows the timeline at the time step `current - i` was read, its ideal time or early by at most the tolerance, or black before step 0 |
| HistoryRuns.ClosedFormExact | light_engine/effects/history_stream.py:105-278 | the same with the ideal times themselves, when no render stands within the tolerance below a step boundary |
| HistoryRuns.DrivenRunsAreConstantSpeed | light_engine/motion.py:82-141 | runs driven by a clock at one speed, or by none, meet the premises of the closed form |
| HeatFire.HeatFireEffect.constructor | light_engine/effects/heat_fire.py:66-71 | a new effect holds no heat |
| HeatFire.HeatFireEffect.Process | light_engine/effects/heat_fire.py:97-132 | one render changes the state as the specification says and draws each cell as the colour at its glow |
| HeatFire.HeatFireEffect.RenderStrip | light_engine/effects/heat_fire.py:112-122 | one strip: cold cells when it is new or its length changed, then the due ticks |
| HeatFire.HeatFireEffect.RunTicks | light_engine/effects/heat_fire.py:119-121 | the due ticks of one strip |
| HeatFire.HeatFireEffect.Reset | light_engine/effects/heat_fire.py:134-137 | everything is forgotten |
| HeatFire.Step | light_engine/effects/heat_fire.py:77-95 | the in-place update does what one tick is to do: it cools, diffuses and sparks the old cells |
| HeatFire.Cool | light_engine/effects/heat_fire.py:87-88 | each cell loses its draw times cooling over sixty, down to zero |
| HeatFire.Diffuse | light_engine/effects/heat_fire.py:89-92 | the first cell keeps its heat, every other changes by `diffusion` times the old difference to the cell below, read from a copy |
| HeatFire.Spark | light_engine/effects/heat_fire.py:93-95 | when the chance is met, one cell of the zone gains the spark, up to 1, and nothing else changes |
| HeatFire.TickIs | light_engine/effects/heat_fire.py:77-95 | cell by cell, what one tick does to cells in [0, 1], in the numbers of the call alone |
| HeatFire.ReplayIs | light_engine/effects/heat_fire.py:112-122 | a replay starts with cold cells and goes on tick by tick with the noise of its own strip |
| HeatFire.TargetTickIs | light_engine/effects/heat_fire.py:97-111 | a render at motion time t has done the ticks that are due at sixty a second |
| HeatFire.LitIs | light_engine/effects/heat_fire.py:123-132 | each pixel is the colour times heat times intensity, up to the full colour |
| HeatFire.WithoutSparkMaximumNeverRises | light_engine/effects/heat_fire.py:77-95 | cooling and diffusion keep every upper bound, and so does a tick without a spark |
| HeatFire.SparkHeatsOneCell | light_engine/effects/heat_fire.py:93-95 | a spark heats one cell of the zone, by at most its strength and not beyond 1 |
| HeatFire.TickStaysInUnit | light_engine/effects/heat_fire.py:77-95 | every cell stays in [0, 1] |
| HeatFire.CatchUpCompletesReplay | light_engine/effects/heat_fire.py:116-122 | continuing a replay from any tick gives the whole replay |
| HeatFire.ProcessedIsReplay | light_engine/effects/heat_fire.py:97-132 | one render of a faithful state draws the replay of ticks 0 to target - 1 and stays faithful |
| HeatFire.AnyRunIsReplay | light_engine/effects/heat_fire.py:97-137 | after any run with seeks, drop-outs and length changes, each strip shows its pure replay, within [0, 1] |
| PixelSets.Occupy | light_engine/mapping/virtual.py:235-244 | marking pixel by pixel refuses exactly the ranges that meet an earlier one |
| PixelSets.FreeMeansApart | light_engine/mapping/virtual.py:235-244 | no pixel in common means disjoint intervals, and the converse |
| VirtualPaths.CheckFields | light_engine/mapping/virtual.py:190-234 | the field checks accept exactly the segments that fit |
| VirtualPaths.BuildVirtualPath | light_engine/mapping/virtual.py:190-271 | builds exactly the valid segment lists, laid out with gaps |
| VirtualPaths.BuildVirtualPaths | light_engine/mapping/virtual.py:158-187 | builds exactly the valid lists of paths |
| VirtualPaths.PathTiles | light_engine/mapping/virtual.py:190-271 | every coordinate below the total length lies on exactly one segment or gap, and none outside does |
| VirtualPaths.LaidAre | light_engine/mapping/virtual.py:175-250 | segment k begins behind all pixels and gaps before it, and a gap stands behind its last pixel |
| VirtualPaths.CountsAddUp | light_engine/mapping/virtual.py:86-92 | mapped pixels plus gap coordinates make the total length |
| VirtualPaths.Split | light_engine/mapping/virtual.py:94-114 | one contribution for each segment; a buffer of another length is refused |
| VirtualPaths.ContributionIs | light_engine/mapping/virtual.py:94-113 | which pixels of the buffer a segment contributes, and in which order |
| VirtualPaths.SplitCarriesTheBuffer | light_engine/mapping/virtual.py:94-114 | pixel j of contribution k carries the value of its own coordinate and drives an existing LED |
| VirtualPaths.GatherRebuildsTheBuffer | light_engine/mapping/virtual.py:94-114 | every coordinate outside the gaps is found in one pixel of one contribution |
| VirtualPaths.NoLedTwice | light_engine/mapping/virtual.py:94-114 | two mapped coordinates drive one LED only if they are the same |
| SegmentValidation.ValidateSegments | light_engine/config/__init__.py:636-686 | accepts exactly the segment lists that fit, have distinct names and share no node pixel |
| ConfigValidation.ValidateZones | light_engine/config/__init__.py:450-457 | zone names are distinct and not empty |
| ConfigValidation.ValidateBiases | light_engine/config/__init__.py:459-477 | accepts exactly the bias tables over authored zones with finite, non-negative values |
| ConfigValidation.ValidateStrips | light_engine/config/__init__.py:479-488 | strip names are distinct and not empty, lengths positive; returns the lengths by name |
| ConfigValidation.ValidateAnalog | light_engine/config/__init__.py:534-555 | accepts exactly the analog node lists that the policy allows; returns their numbers |
| ConfigValidation.ValidateDigitalNode | light_engine/config/__init__.py:557-634 | the checks of one digital node accept exactly its rules |
| ConfigValidation.ValidateDigital | light_engine/config/__init__.py:557-634 | all digital nodes: numbers distinct also from analog ones, endpoints distinct; returns authored lengths |
| ConfigValidation.CollectOutputs | light_engine/config/__init__.py:695-741 | the output loop accepts exactly the outputs that are sound and distinct, and groups them by node |
| ConfigValidation.CheckGroup | light_engine/config/__init__.py:754-775 | the outputs of one node agree with its authored length and the other per-node rules |
| ConfigValidation.ValidateNodeOutputs | light_engine/config/__init__.py:742-778 | the per-node rules hold of every digital node |
| ConfigValidation.ValidateV3 | light_engine/config/__init__.py:688-778 | the version-3 part accepts exactly its rules, every strip mapped |
| ConfigValidation.ValidateVirtualPaths | light_engine/config/__init__.py:780-836 | accepts exactly the virtual paths that can be built |
| ConfigValidation.ValidateConfig | light_engine/config/__init__.py:432-836 | the layout part, biases and virtual paths included, accepts exactly the declarative rule set |
| Layouts.DerivedIsTotal | light_engine/mapping/__init__.py:184-198 | the running sums are the totals over each node's own outputs |
| Layouts.LoadTopology | light_engine/mapping/__init__.py:100-156 | loads exactly the configurations whose strips, zones and mapping are in order |
| Layouts.LoadAnalogNodes | light_engine/mapping/__init__.py:163-182 | authored analog nodes, or one for each zone in version 2 |
| Layouts.DeriveLengths | light_engine/mapping/__init__.py:184-198 | the running sums of version 3 |
| Layouts.LoadNodeList | light_engine/mapping/__init__.py:200-245 | the authored digital nodes, lengths derived in version 3 |
| Layouts.LoadSegments | light_engine/mapping/__init__.py:266-292 | authored segments, or the strips one after the other in version 2 |
| Layouts.DefaultSegmentsFitIff | light_engine/mapping/__init__.py:279-292 | the segments derived from strips meet every segment rule iff all strips together fit their node |
| Layouts.LoadPhysicalMapping | light_engine/mapping/__init__.py:162-324 | loads exactly the configurations, of either version, that meet its checks, with the nodes and segments it derives for what is not authored |
| Layouts.LoadOutputList | light_engine/mapping/__init__.py:294-324 | the output list; lengths from the strips in version 3, authored in version 2 |
| Layouts.LoadedNodeIs | light_engine/mapping/__init__.py:184-245 | a loaded digital node: as authored, what is left out filled in, as long as its outputs in version 3 |
| Layouts.LoadedOutputIs | light_engine/mapping/__init__.py:294-324 | a loaded output: as authored, as long as its strip in version 3 |
| Layouts.LoadedAnalogIs | light_engine/mapping/__init__.py:163-182 | the analog nodes that stand in for authored ones in version 2 |
| Layouts.LoadedSoleNodeIs | light_engine/mapping/__init__.py:246-264 | the one node that stands in for authored digital nodes |
| Layouts.LoadedSegmentIs | light_engine/mapping/__init__.py:266-292 | the segments that stand in for authored ones follow each other from offset 0 on one node |
| PhysicalMapping.ValidateAnalogNodes | light_engine/mapping/physical.py:150-167 | accepts exactly the sound analog lists; returns the numbers taken |
| PhysicalMapping.ValidateDigitalNodes | light_engine/mapping/physical.py:169-195 | accepts exactly the sound digital lists |
| PhysicalMapping.CollectOutputs | light_engine/mapping/physical.py:261-289 | the output loop accepts exactly sound outputs with distinct strips, grouped by node |
| PhysicalMapping.ValidateOutputs | light_engine/mapping/physical.py:259-313 | accepts exactly the complete output sets |
| PhysicalMapping.Validate | light_engine/mapping/physical.py:135-257 | accepts exactly the layouts that meet the rules |
| ValidatorAgreement.AcceptedLoads | light_engine/mapping/__init__.py:109-324 | an accepted v3 configuration loads iff the video zones and directions of strips and zones, and the analog video zones, are in order |
| ValidatorAgreement.EmptyVideoZoneStopsTheLoader | light_engine/mapping/__init__.py:165-175 | an accepted room with an empty analog video zone does not load |
| ValidatorAgreement.UnknownVideoZoneStopsTheLoader | light_engine/mapping/__init__.py:110-117 | an accepted room with an unknown strip video zone does not load |
| VersionTwo.SecondValidatorAcceptsIff | light_engine/mapping/physical.py:135-313 | the second validator accepts a loaded accepted version-2 room iff it has six analog nodes, its outputs meet the version-3 rules (or there are none, and no node speaks version 3), a derived node fits one datagram, and derived segments fit the first node |
| VersionTwo.DerivedRoomAcceptedIff | light_engine/mapping/physical.py:135-313 | without authored digital nodes and segments: iff it has six analog nodes, no outputs, and strips that fit one datagram |
| ValidatorAgreement.SecondValidatorAcceptsIff | light_engine/mapping/physical.py:135-313 | the second validator accepts a loaded accepted v3 room iff it has one analog node or a one-output policy |
| ValidatorAgreement.OneOutputPoliciesNeverRefused | light_engine/mapping/physical.py:135-313 | under both deployment policies the second validator never fires |
| ValidatorAgreement.DiagnosticRoomIsRefused | light_engine/mapping/physical.py:135-144 | a concrete room that the first accepts and the second refuses |
| Rooms.FromConfig | light_engine/mapping/__init__.py:100-160 | returns a room for exactly the configurations that load, whose virtual paths are valid, and that the second validator accepts |
| Rooms.AcceptedLoadsInVersionTwo | light_engine/mapping/__init__.py:109-324 | an accepted version-2 configuration loads iff the fields that only the loader looks at are in order |
| Rooms.FromConfigReturnsIff | light_engine/mapping/__init__.py:100-160 | of the accepted configurations, of either version, which ones `from_config` returns a room for |
| Rooms.OutputStopsTheRoom | light_engine/mapping/physical.py:259-289 | a concrete version-2 room that makes a room, and does not with one output added |
| FrameMapping.SourceByIndex | light_engine/mapping/physical.py:342-357 | pixel k of a source is the strip's pixel k, or its mirror, black where nothing was drawn |
| FrameMapping.PaintSegments | light_engine/mapping/physical.py:342-357 | the segment loop leaves every node's list as painted by the specification |
| FrameMapping.PaintedByPixel | light_engine/mapping/physical.py:342-357 | a covered pixel shows its own segment's source, an uncovered one is black |
| FrameMapping.OrderDoesNotMatter | light_engine/mapping/physical.py:342-357 | the order of the segment list does not matter |
| FrameMapping.ValidatedSegmentsFit | light_engine/mapping/physical.py:202-257 | validation gives every segment its own room on its node |
| FrameMapping.GroupOutputs | light_engine/mapping/physical.py:359-375 | one pixel list for each output, grouped by node |
| FrameMapping.Map | light_engine/mapping/physical.py:324-398 | the whole mapped frame: commands and node frames in ascending order, the rest handed on |
| FrameMapping.MapAnalog | light_engine/mapping/physical.py:328-340 | one command for each analog node |
| FrameMapping.MapDigital | light_engine/mapping/physical.py:342-390 | one frame for each digital node |
| FrameMapping.OneCommandEach | light_engine/mapping/physical.py:328-340 | every analog node gets one command, ascending: its own number, zone, fade and channel order, and the colour of the last zone output of its zone, or dark if there is none |
| FrameMapping.MappedFields | light_engine/mapping/physical.py:377-390 | number, address, flag and limit of a node frame are those of the node |
| FrameMapping.DrawnIsLast | light_engine/mapping/physical.py:326-326 | of two drawn strips of one name the later wins |
| FrameMapping.OutputIs | light_engine/mapping/physical.py:359-375 | the frame of an output: its number, pin and strip, and each pixel from the strip or its mirror |
| FrameMapping.MappedLegacyNode | light_engine/mapping/physical.py:342-390 | what `map` makes of a legacy node: its length, each covered pixel from its strip or mirrored, black elsewhere |
| Sorting.SortByContract | light_engine/mapping/physical.py:377-398 | sorting by a key gives an ordered permutation |
| Ddp.BuildPayload | light_engine/outputs/ddp_output.py:42-47 | the payload loop; an empty frame becomes one black pixel |
| Ddp.Fragment | light_engine/outputs/ddp_output.py:49-81 | the packet loop |
| Ddp.EncodeDdpPackets | light_engine/outputs/ddp_output.py:24-81 | raises exactly for a limit below one pixel; otherwise the packets with the limit cut to whole pixels |
| Ddp.FieldsReadBackIff | light_engine/outputs/ddp_output.py:60-75 | offset and length fields tell the truth exactly when they fit |
| Ddp.SeqStep | light_engine/outputs/ddp_output.py:52-79 | the running number follows the source's step from 1 to 15 |
| Ddp.StretchesPartition | light_engine/outputs/ddp_output.py:49-81 | stretches are contiguous, positive multiples of 3 within the limit, and end with the payload |
| Ddp.PacketsPartition | light_engine/outputs/ddp_output.py:49-81 | packet k carries stretch k, PUSH only on the last, numbers cycle through 1 to 15 |
| Ddp.PacketsAre | light_engine/outputs/ddp_output.py:24-81 | packet k of a frame, byte by byte: flags, running number from the frame's own sequence, offset, length and channels |
| Ddp.PacketFits | light_engine/outputs/ddp_output.py:56-75 | a packet fills its own stretch and nothing else; one that does not fit the receiver is lost |
| Ddp.AnyOrderRebuilds | light_engine/outputs/ddp_output.py:49-81 | packets in any order, even repeated, rebuild the payload over any old buffer |
| DdpOverlay.PacketsOverlay | light_engine/outputs/ddp_output.py:49-81 | all packets of a payload at a receiver of any size lay over it the payload, or as many whole packets as fit |
| DdpLayout.JoinedByIndex | light_engine/outputs/ddp_output.py:170-180 | pixel j of output k stands after all pixels of the outputs before it |
| DdpLayout.NodeFrameIsItsOutputs | light_engine/outputs/ddp_output.py:170-180 | a validated v3 node gets each of its outputs once, ascending, as long together as the node |
| DdpLayout.ReceiverShowsTheRoom | light_engine/outputs/ddp_output.py:24-81 | a node's packets in any order rebuild the bytes of its strips in ascending output order |
| DdpLayout.EveryStripIsPlacedOnce | light_engine/mapping/physical.py:259-313 | each strip of a validated v3 layout is driven by one output of one node |
| ConfigToWire.ReceiverShows | light_engine/outputs/ddp_output.py:144-151 | everything a frame sends to one host, applied in order, shows its payloads one over the other |
| ConfigToWire.ShowsNodeIff | light_engine/outputs/ddp_output.py:144-151 | a receiver shows node k after a frame iff the later enabled nodes at its host agree with it byte for byte |
| ConfigToWire.AcceptedRoomIsShownIff | light_engine/outputs/ddp_output.py:137-180 | from an accepted configuration to the receiver: after a frame counted as sent, all datagrams to a node's address show exactly its strips iff no later enabled node at its host disagrees |
| TwinHosts.TwinsCollide | light_engine/outputs/ddp_output.py:144-151 | a concrete accepted room, two nodes at one host, that is sent and not shown |
| SharedHosts.AlwaysShownIff | light_engine/outputs/ddp_output.py:137-180 | an enabled node of a v3 room is shown whatever is drawn iff no later enabled node has its host and a first packet that fits its receiver |
| DatagramOutput.Output.constructor | light_engine/outputs/ddp_output.py:92-107 | a new output is closed, healthy and empty |
| DatagramOutput.Output.Open | light_engine/outputs/ddp_output.py:109-122 | opens, or raises when a production socket cannot be had |
| DatagramOutput.Output.Close | light_engine/outputs/udp_output.py:128-136 | closes and falls back to the injected socket, or to none for DDP |
| DatagramOutput.Output.Push | light_engine/outputs/__init__.py:56-61 | overwrites the slot and tells whether a frame was lost |
| DatagramOutput.Output.PopLatest | light_engine/outputs/__init__.py:63-67 | empties the slot |
| DatagramOutput.Output.SendNodePackets | light_engine/outputs/ddp_output.py:147-152 | one node's datagrams in order, up to the first failure |
| DatagramOutput.Output.FlushLatest | light_engine/outputs/ddp_output.py:137-168 | one flush, through every failure |
| DatagramOutput.Output.SendFrame | light_engine/outputs/ddp_output.py:124-135 | queues, counts an overwritten frame, and flushes |
| DatagramOutput.FlushAccounts | light_engine/outputs/udp_output.py:79-116 | a flush empties the slot and counts its frame once, as sent or dropped |
| DatagramOutput.EveryFrameIsAccountedFor | light_engine/outputs/ddp_output.py:124-168 | over every run: offered = sent + dropped + pending, also when exceptions escape |
| DatagramOutput.SentIffDelivered | light_engine/outputs/ddp_output.py:137-168 | a frame counts as sent iff no failure was counted, and then all its datagrams went out in order |
| DatagramOutput.SentIfAllEncode | light_engine/outputs/ddp_output.py:137-168 | a frame all of whose nodes encode is counted as sent when no send fails, in production too |
| DatagramOutput.WantedInTwo | light_engine/outputs/udp_output.py:79-116 | what a frame wants on the wire is what its nodes want, one behind the other |
| DatagramOutput.WantedOfOne | light_engine/outputs/udp_output.py:79-116 | a node wants its packets at its host, on the output's port or its own, and nothing when it is skipped |
| DatagramOutput.FlushRaisesIff | light_engine/outputs/ddp_output.py:153-162 | a flush raises exactly in production, for a frame that is not the safe state, after a failure; failures there leave the output unhealthy |
| DatagramOutput.EveryNodeIsTried | light_engine/outputs/udp_output.py:79-116 | a flush that does not raise, so that of every safe state, tries every node: a failure costs only the rest of its own node, and each failed node is one dropped packet |
| DatagramOutput.ClosedTakesNothing | light_engine/outputs/udp_output.py:66-77 | a closed output counts a frame as dropped, sends nothing, and raises in production |
| DatagramOutput.EveryPacketIsCounted | light_engine/outputs/udp_output.py:79-126 | over every run the packets counted as sent are the datagrams the transport took |
| OutputGroup.TakeTurn | light_engine/outputs/__init__.py:291-304 | one output's turn in `send_all` |
| OutputGroup.SendAll | light_engine/outputs/__init__.py:282-304 | the loop over DDP and UDP v2 outputs, stopped by an escaping exception |
| OutputGroup.OpenAll | light_engine/outputs/__init__.py:258-279 | the opening loop over DDP and UDP v2 outputs with its roll-back |
| OutputGroup.RollBack | light_engine/outputs/__init__.py:268-276 | closes the outputs opened so far, last first |
| OutputGroup.OpenAllSucceedsIff | light_engine/outputs/__init__.py:258-279 | opening all returns iff none fails, and then all are open and healthy |
| OutputGroup.OpenAllRollsBack | light_engine/outputs/__init__.py:258-279 | at the first failure the earlier ones are closed again and the later ones untouched |
| OutputGroup.SafeStateReachesAll | light_engine/outputs/__init__.py:282-304 | the safe state is offered to every output, healthy or not, and no exception escapes |
| OutputGroup.EscapeStopsTheRest | light_engine/outputs/__init__.py:282-304 | an exception escapes only from a production output; later outputs do not get the frame |
| OutputGroup.SubmittedFramesAreAccountedFor | light_engine/outputs/__init__.py:282-304 | submitted = sent + dropped + pending + passed over, over every life of an output |
| Fields.PixelsToPayload | light_engine/outputs/udp_v2.py:35-43 | the payload loop, refusing a channel that is no byte |
| UdpV2.DecodeInvertsEncode | light_engine/outputs/udp_v2.py:71-137 | a legal packet comes back exactly if the filter passes it |
| UdpV2.DatagramBytes | light_engine/outputs/udp_v2.py:71-85 | each byte of an encoded packet |
| UdpV2.FitsIff | light_engine/outputs/udp_v2.py:56-99 | under the default size a legal packet comes back iff it has at most 21829 pixels |
| UdpV2.TooLongForOneDatagram | light_engine/outputs/udp_v2.py:65-99 | a legal packet of 21830 pixels is refused |
| UdpV2.EncodeInvertsDecode | light_engine/outputs/udp_v2.py:87-137 | an accepted datagram is the encoding of what it decodes to |
| UdpV2.EncodeIsInjective | light_engine/outputs/udp_v2.py:71-85 | two legal packets with one encoding are equal |
| UdpV2Delivery.OneDatagramPerNode | light_engine/outputs/udp_output.py:86-101 | one datagram for each node, at its own address |
| UdpV2Delivery.SentFrameIsDecoded | light_engine/outputs/udp_output.py:79-116 | after a frame counted as sent each node of at most 21829 pixels decodes exactly its rounded pixels, sequence and safe-state flag, a longer one nothing |
| ConfigToUdp.LegacyNodeIsDecoded | light_engine/outputs/udp_output.py:79-116 | from a validated layout: a version-2 node decodes from a sent frame, pixel by pixel, the rounded colour of the segment that covers it, and black elsewhere |
| UdpV3Output.Output.constructor | light_engine/outputs/udp_output.py:235-253 | a new output wants a key frame and numbers beacons from 1 |
| UdpV3Output.Output.ReadMonotonic | light_engine/outputs/udp_output.py:300-306 | a reading outside uint64 or behind the last one raises |
| UdpV3Output.Output.SendClockBeacon | light_engine/outputs/udp_output.py:308-327 | one beacon with its counters |
| UdpV3Output.Output.SendClockBeaconRound | light_engine/outputs/udp_output.py:329-344 | a round over all addresses; number and time advance only when it completes |
| UdpV3Output.Output.ScheduleApplyAt | light_engine/outputs/udp_output.py:346-355 | a due round first, then the deadline, or raises |
| UdpV3Output.Output.EncodeFrame | light_engine/outputs/udp_output.py:394-437 | all datagrams of the enabled nodes, or none |
| UdpV3Output.Output.SendAllRounds | light_engine/outputs/udp_output.py:442-477 | the nested send loops |
| UdpV3Output.Output.FlushLatest | light_engine/outputs/udp_output.py:357-486 | one flush as the specification says, through every failure |
| UdpV3Output.Output.SendFrame | light_engine/outputs/udp_output.py:66-77 | queues, counts an overwritten frame, and flushes |
| UdpV3Output.Output.RunStartup | light_engine/outputs/udp_output.py:274-283 | broadcast option, startup rounds and pauses |
| UdpV3Output.Output.Open | light_engine/outputs/udp_output.py:262-288 | a new session, or closed again after any failure |
| UdpV3Output.Output.Close | light_engine/outputs/udp_output.py:128-136 | closes and falls back to the injected socket |
| UdpV3Session.EveryRunIsSound | light_engine/outputs/udp_output.py:262-486 | in scheduled mode every run keeps every event of its session within the rules, through any failure |
| UdpV3Session.DeadlineIsTimely | light_engine/outputs/udp_output.py:346-355 | a deadline rests on the latest reading, less than one interval after the last completed round |
| UdpV3Session.TimesNeverDecrease | light_engine/outputs/udp_output.py:300-355 | times of beacons, rounds and deadlines never decrease over a session |
| UdpV3Session.RoundIsComplete | light_engine/outputs/udp_output.py:329-344 | completed rounds carry consecutive uint32 numbers and reached every address, each with its own reading |
| UdpV3Session.KeyOnlyBeforeDelivery | light_engine/outputs/udp_output.py:365-367 | after a key frame was delivered no datagram carries the flag |
| UdpV3Session.FrameDatagramOfRun | light_engine/outputs/udp_output.py:357-463 | any frame datagram of a run: deadline = last reading + lead, key only on sequence 1, all nodes encoded |
| UdpV3Keys.KeyFlagIff | light_engine/outputs/udp_output.py:357-486 | in every run, scheduled or not: a frame datagram carries the key iff its frame has sequence 1 and no key frame was delivered before in the session |
| UdpV3Keys.SentFrameEvents | light_engine/outputs/udp_output.py:357-486 | in every run: a frame counted as sent is delivered once, or `repeats` times when the mode is scheduled and it starts the session, and a delivered key follows iff it starts the session |
| UdpV3Accounting.EveryFrameIsAccountedFor | light_engine/outputs/udp_output.py:357-486 | over every run: offered = sent + dropped + pending + lost to a preparation that raised outside production |
| UdpV3Accounting.ProductionLosesNothing | light_engine/outputs/udp_output.py:388-393 | in production mode nothing is lost |
| UdpV3Accounting.ProductionRaisesIff | light_engine/outputs/udp_output.py:357-486 | in production a flush raises exactly when it took a frame and did not send it, and then is unhealthy and has counted the drop |
| UdpV3Accounting.FlushAccounts | light_engine/outputs/udp_output.py:357-486 | a flush counts its frame once, unless it loses it |
| UdpV3Accounting.LosesFrameIff | light_engine/outputs/udp_output.py:363-393 | outside production a flush loses its frame iff its metadata or the next clock readings are out of bounds |
| UdpV3Accounting.MemoryModeLosesAFrame | light_engine/outputs/udp_output.py:388-393 | a concrete lost frame |
| UdpV3Accounting.SentMeansDelivered | light_engine/outputs/udp_output.py:442-482 | a frame counted as sent delivered all datagrams in order, once for each repetition, and only then ends the key phase |
| UdpV3Accounting.SentIfNothingFails | light_engine/outputs/udp_output.py:357-486 | a frame in range, on a clock in range, whose nodes encode, is counted as sent when no send and no pause fails |
| UdpV3Accounting.EncodeAllInTwo | light_engine/outputs/udp_output.py:394-437 | all nodes encode, the one list behind the other, or none do |
| UdpV3Accounting.EncodeAllOfOne | light_engine/outputs/udp_output.py:394-437 | an enabled node has its packets sent to its own host and port, a disabled one needs nothing |
| UdpV3Counts.FlushTallies | light_engine/outputs/udp_output.py:308-486 | a flush counts every datagram that it hands to the transport once, as sent or dropped, and one more dropped packet for a frame that does not encode |
| UdpV3Counts.OpenedIsStarted | light_engine/outputs/udp_output.py:262-288 | an output that opens has completed all its startup rounds in scheduled mode, and none in another |
| UdpV3Counts.ClosedTakesNothing | light_engine/outputs/udp_output.py:66-77 | an output that is closed, or failed to open, counts a frame as dropped, sends nothing, and raises in production |
| UdpV3Counts.SafeStateTriesAll | light_engine/outputs/udp_output.py:442-486 | of the safe state every datagram is tried in every round, whatever became of the others, and the frame counts as sent iff all went out |
| UdpV3.EncodePacket | light_engine/outputs/udp_v3.py:133-157 | both encoders: the bytes of a legal packet, or an error for a frame longer than its length field |
| UdpV3.DatagramBytes | light_engine/outputs/udp_v3.py:133-357 | each byte of an encoded packet, of either kind |
| UdpV3.EncodeIsInjective | light_engine/outputs/udp_v3.py:133-357 | one datagram encodes one packet at most, whether frame or chunks |
| UdpV3.DecodeParts | light_engine/outputs/udp_v3.py:195-229 | the loop of both decoders finds the one reading of a payload as so many parts, or that there is none |
| UdpV3.DecodePacket | light_engine/outputs/udp_v3.py:160-459 | both decoders return the legal packet whose encoding the datagram is, if there is one and it passes the filter |
| UdpV3.DecodeInvertsEncode | light_engine/outputs/udp_v3.py:133-459 | an encoded packet comes back exactly if it passes the filter; the decoder of the other kind sees nothing |
| UdpV3Chunks.EncodeFrameDatagrams | light_engine/outputs/udp_v3.py:462-508 | the complete frame if it fits the limit, else its chunks; no constructor or length check of a chunk ever fails |
| UdpV3Chunks.EncodeOutput | light_engine/outputs/udp_v3.py:485-507 | the inner loop over the offsets of one output |
| UdpV3Chunks.EncodesIff | light_engine/outputs/udp_v3.py:462-484 | a frame has datagrams iff the limit is in range and lets the whole frame or one pixel through |
| UdpV3Chunks.DatagramsFit | light_engine/outputs/udp_v3.py:462-508 | no datagram exceeds the limit |
| UdpV3Chunks.ChunksAreFull | light_engine/outputs/udp_v3.py:479-507 | the chunks of an output follow one another, and only the last has room for one more pixel |
| UdpV3Chunks.NothingSentIff | light_engine/outputs/udp_v3.py:462-508 | a legal frame is sent as no datagram at all iff it is three empty outputs and the limit is 46 to 50 |
| UdpV3Chunks.EmptyFrameIsNotSent | light_engine/outputs/udp_v3.py:462-508 | a concrete such frame |
| UdpV3Reassembler.Reassembler.constructor | light_engine/outputs/udp_v3.py:523-555 | a new receiver has nothing in progress and nothing completed |
| UdpV3Reassembler.Reassembler.Accept | light_engine/outputs/udp_v3.py:607-673 | one datagram changes the receiver and brings out a frame as the specification says |
| UdpV3Reassembler.Reassembler.AcceptChunks | light_engine/outputs/udp_v3.py:630-673 | a chunk packet: begin, check, place, hand over |
| UdpV3Reassembler.Reassembler.CheckChunks | light_engine/outputs/udp_v3.py:642-651 | the checking loop refuses exactly unexpected outputs and contradicting pixels |
| UdpV3Reassembler.Reassembler.PlaceChunks | light_engine/outputs/udp_v3.py:652-653 | the placing loop |
| UdpV3Delivery.PlaceHolds | light_engine/outputs/udp_v3.py:642-653 | a chunk of a frame never contradicts what has arrived of it, and adds exactly its own pixels |
| UdpV3Reassembly.FrameComesOutOnce | light_engine/outputs/udp_v3.py:462-673 | a frame's datagrams in any order, with repeats, and among older and foreign ones: it comes out exactly where its last datagram first arrives, whole, and nowhere else |
| UdpV3Reassembly.FrameComesOut | light_engine/outputs/udp_v3.py:462-673 | when all its datagrams arrive, there is exactly one such place |
| UdpV3Reassembly.OlderIsIgnored | light_engine/outputs/udp_v3.py:570-587 | a frame in progress or just completed is not touched by older datagrams, nor a completed one by its own |
| UdpV3Reassembly.GivenUpIff | light_engine/outputs/udp_v3.py:570-594 | a frame in progress is given up iff the other frame has another number, is not the one just completed, and starts a session or is newer |
| UdpV3Reassembly.NewerIs | light_engine/outputs/udp_v3.py:511-517 | which of two sequence numbers is the newer, across the wrap |
| UdpV3Reassembly.SessionStartIs | light_engine/outputs/udp_v3.py:567-568 | a session starts with a key frame of sequence 1 |
| UdpV3Reassembly.WhatComesOutIsLegal | light_engine/outputs/udp_v3.py:607-673 | whatever arrives, a frame that comes out is legal, the node's, and has exactly the expected outputs |
| UdpV3EndToEnd.SentFrameIsReassembled | light_engine/outputs/udp_output.py:357-486 | what the output delivered of a sent frame at a node's address makes the node's receiver hand over exactly one packet, which carries the number, time, deadline, flags, outputs and rounded pixels of the node |
| ConfigToUdp.AcceptedRoomIsReassembled | light_engine/outputs/udp_output.py:357-486 | the same from an accepted v3 configuration, with the outputs as they were mapped |
| EncodableRooms.AcceptedRoomIsSentIff | light_engine/outputs/udp_output.py:357-486 | from an accepted v3 configuration: when nothing fails and the frame is in range, it is counted as sent iff the authored numbers of every enabled node and its outputs fit a byte, and its strips sixteen bits |
| EncodableRooms.UnfitRoomIsNeverSent | light_engine/outputs/udp_output.py:394-437 | otherwise no frame of the room is ever sent, whatever is drawn |
| EncodableRooms.WideRoomIsNeverSent | light_engine/config/__init__.py:564-567 | a concrete production room, accepted by both validators, of which no frame is sent |
| WledAudioSync.DecodedIsInRange | light_engine/analysis/wled_audio_sync.py:46-81 | a decoded packet has 16 bands and every value in its range |
| WledAudioSync.DecodedFields | light_engine/analysis/wled_audio_sync.py:46-81 | which datagrams decode, and each field of the packet |
| WledAudioSync.Source.constructor | light_engine/analysis/wled_audio_sync.py:131-146 | a new source is closed and stale, with or without an injected socket |
| WledAudioSync.Source.Open | light_engine/analysis/wled_audio_sync.py:152-171 | opens once, and drops the socket on failure |
| WledAudioSync.Source.Poll | light_engine/analysis/wled_audio_sync.py:173-222 | one poll as the specification says, also when the socket raises in the middle |
| WledAudioSync.Source.DrainSocket | light_engine/analysis/wled_audio_sync.py:182-205 | the receive loop |
| WledAudioSync.Source.Close | light_engine/analysis/wled_audio_sync.py:258-273 | closes and resets, once |
| WledAudioSync.FluxIsInUnit | light_engine/analysis/wled_audio_sync.py:197-202 | spectral flux is in [0, 1] |
| WledAudioSync.FluxIsRise | light_engine/analysis/wled_audio_sync.py:197-202 | spectral flux counts how much the bands rise, and falling bands nothing |
| WledAudioSync.DrainEffect | light_engine/analysis/wled_audio_sync.py:182-205 | a drain keeps the last legal packet and counts every datagram once, as valid or invalid |
| WledAudioSync.LastLegalIs | light_engine/analysis/wled_audio_sync.py:182-205 | the last legal packet of a queue is the one behind which no datagram decodes |
| WledAudioSync.DrainTransients | light_engine/analysis/wled_audio_sync.py:197-205 | peak of any packet, and the largest rise between neighbouring spectra in receive order |
| WledAudioSync.DrainInTwo | light_engine/analysis/wled_audio_sync.py:182-205 | draining in two parts is draining at once |
| WledAudioSync.EveryRunKeepsInv | light_engine/analysis/wled_audio_sync.py:173-273 | counts, staleness and retained packet agree with the run, whatever its clock does |
| WledAudioSync.AssertionFailsIff | light_engine/analysis/wled_audio_sync.py:173-222 | the assertion fails iff the poll ends empty, the source is stale, and the clock reads below the limit after the last legal packet |
| WledAudioSync.AssertionFailsAfterRunIff | light_engine/analysis/wled_audio_sync.py:173-273 | after any run on any clock: iff an earlier poll since the last legal packet read a clock at or past its limit, and this one reads below it |
| WledAudioSync.OutlivedByAPoll | light_engine/analysis/wled_audio_sync.py:213-218 | such an earlier poll is a poll of the run |
| WledAudioSync.ForwardClockNeverFails | light_engine/analysis/wled_audio_sync.py:213-222 | a clock that reads no less than it ever has never fails the assertion |
| WledAudioSync.PollShowsTheRun | light_engine/analysis/wled_audio_sync.py:173-247 | a poll that does not fail shows the last legal packet of the run while it is young enough, silence otherwise, in range |
| WledAudioSync.PollCountsTransitions | light_engine/analysis/wled_audio_sync.py:173-222 | a poll counts a transition exactly when it makes a fresh source stale |
| WledAudioSync.BackwardClockFails | light_engine/analysis/wled_audio_sync.py:213-222 | a concrete run whose clock falls back and fails the assertion |
| WledAudioSync.SplitPollsAgreeIff | light_engine/analysis/wled_audio_sync.py:173-222 | when two polls end in the state of one, for every split of the datagrams |
| WledAudioSync.SplitPollsShowTheSame | light_engine/analysis/wled_audio_sync.py:173-222 | and then the one poll shows the continuous values of the second, either peak, the larger flux |
| Colour.WhiteIsCommon | light_engine/color/__init__.py:160-163 | the extracted white is between zero and the darkest channel |
| Colour.SplitAddsUp | light_engine/color/__init__.py:168-178 | warm and cool add up to the white in the proportion of their weights, or there is none |
| Colour.WhiteIs | light_engine/color/__init__.py:152-163 | the extracted white, in the brightest and darkest channel and the strength |
| Colour.ExtractionIs | light_engine/color/__init__.py:152-191 | the whole conversion of a colour that is not passed through, in the numbers of the call alone: white, warm and cool shares, and limiting |
| Colour.PassedThrough | light_engine/color/__init__.py:146-158 | the two early returns: dark under no power, the colour itself when nothing is to be taken out |
| Colour.LimitHolds | light_engine/color/__init__.py:180-184 | limiting scales all channels alike, down to exactly the limit |
| Colour.ExtractionIsExact | light_engine/color/__init__.py:118-191 | raises exactly for illegal channels; the result is legal; RGB before limiting is RGB minus the white |
| Colour.PowerLimitHoldsIff | light_engine/color/__init__.py:152-191 | the sum keeps the limit iff the colour is not passed through above it |
| Colour.PassedThroughAboveTheLimit | light_engine/color/__init__.py:157-158 | a concrete colour above the limit |
| Colour.EvaluateTimeline | light_engine/color/__init__.py:262-302 | the loop computes the timeline function, which stands on the line between the neighbouring keyframes |
| Colour.TimelineNeverFails | light_engine/color/__init__.py:286-302 | with two keyframes neither the error about times nor the final fallback is reached, whatever the times |
| Colour.TimelineIsLinear | light_engine/color/__init__.py:286-300 | whatever the times are, the timeline stands on the line to the first keyframe that is not earlier, from the one before it |
| Colour.TimelineIsPiecewiseLinear | light_engine/color/__init__.py:286-302 | each closed interval is the line between its ends, stated channel by channel by cross-multiplication; both ends are hit exactly, and every channel stays between |
| Colour.TimelineStaysLegal | light_engine/color/__init__.py:262-302 | legal keyframes give legal colours at every time |

## Left out

- Float rounding, NaN and infinities: every float is an exact real unless the source tests it for being finite; the tolerances 1e-12 and 1e-9 of the source are kept.
- CRC-32, the random generator, the rounding to bytes, the decoding of a float32, and the host-name rule are parameters; nothing is assumed of them. `UdpV3Output` takes any encoder; `UdpV3EndToEnd` gives it the source's.
- Rs485: packet fields are typed by width, so of the constructor's checks only the node number's remains; expected numbers outside 0 to 255 are not modelled.
- AnyChunkingIsOneScan: its condition is sufficient for the counts of one given run; a run that loses a half SYNC may still end with the right counts by chance. RunStaysExactIff is the exact statement over all continuations; a truncated call is described exactly by `Feed`.
- DatagramOutput: one class stands for the DDP and the UDP v2 output, with their differences in its setup; the one-slot queue is a field of it.
- OutputGroup.SendAll: over DDP and UDP v2 outputs; the UDP v3, JSON, simulator, null and serial outputs are not in the group.
- OutputGroup.OpenAll: the same.
- Rooms.FromConfig: labels and zone types, and the video zone map.
- SegmentValidation: one model for the segment loops of both validators.
- HeatFire.HeatFireEffect.Process: parameters as their validator leaves them; the dark zone outputs and `PixelFrame` fields are not modelled. `RunTicks` works on a copy of the strip's cells.
- HistoryStream.HistoryStreamEffect.Process: the gain is a sampled number, so a gain source that raises is not modelled, nor are the dark zone outputs.
- UdpV3: one model of the packet, its encoder and its decoder stands for the frame and the chunk classes of the source, with their differences in `Kind`; the codec of the clock beacon is not modelled.
- UdpV3EndToEnd: the receiver is told the outputs in the order in which they are sent; `HandedOver` says what it returns in any other order.
- DdpOverlay: a receiver that ignores packets that do not fit its buffer; the receiver is not part of the repository.
- ValidateConfig: the presentation, transform and audio parts of the configuration are not modelled.
- Threads and locks: each queue operation is one step.
- The show compositor, the loaders of shows, the simple effects, audio and video analysis, HSV and gamma functions, and the host services: independent of the properties above, or plumbing.
