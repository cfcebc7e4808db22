# Verified model of the Renderd data plane

Renderd streams a desktop from a host to a viewer. The host's encoder makes frames; the host cuts each
into datagrams behind a 16-byte header and sends them over a channel that loses, duplicates and reorders.
The viewer's receive window puts frames back together, hands them to the decoder in decode order, asks for
missing fragments, gives frames up at a deadline and asks for keyframes. The host answers requests from a
cache of what it sent. Around this sit controllers that watch the link (bitrate, picture size, keyframe
pacing, timestamps) and byte loops that convert bitstreams and pixels. This project models those parts in
Dafny and proves what they keep over whole runs. `dafny verify dfyconfig.toml` checks all of it.

## How it is laid out

| files | what they model |
|---|---|
| `Prelude`, `Wire`, `Fragments` | shared vocabulary; the datagram header; a frame's fragment table |
| `WindowModel`, `WindowSteps` | the receive window as a value and every call on it as a function |
| `ReceiveWindow` | the window as the program has it: a class whose methods and loops compute those functions |
| `WindowInvariant`, `WindowRuns`, `WindowTimers`, `WindowProgress`, `WindowNacks` | what holds over every run of the window |
| `WindowCalls`, `KeyRequests`, `RequestTiming` | exactly what a call takes in and hands out, when it asks for a keyframe, when it asks again and gives up, and what it counts as lost |
| `WindowStalls`, `SafeCalls`, `NackLimit` | when the window can stall, and how many requests a frame can bring: what does not always hold, and exactly when it does |
| `Sender`, `RetransmitCache`, `EndToEnd`, `Recovery` | the host's side, the two ends joined by an arbitrary channel, and one request with its answer |
| `Reassembly`, `Agreement` | the older receiver, and where the two receivers agree |
| `AnnexB`, `Nv12` | the bitstream and pixel loops |
| `SizeLadder`, `Governor`, `SharpGovernor`, `SmoothGovernor`, `SmoothHistory` | the picture-size governor under its two policies |
| `Abr`, `KeyframeGate`, `MonotonicPts` | bitrate, keyframe pacing, encoder timestamps |

Stateful parts are classes with the source's fields and a ghost record of the calls made. `Valid()` ties
the fields to the state the specification functions reach over that record, so a theorem about all runs is
a theorem about the object. Times are natural numbers passed in by the caller; a channel is any choice of
which datagram that was ever sent arrives next.

Where code and comments disagree the model follows the code, and says exactly when the two agree:

- The size ladder is documented as "largest first", but rounding widths to 16 can make its second picture
  the larger one. `LargestFirstIff` decides it from the session's size, and `LadderCanGrow` gives a session.
- The window is documented to hand frames out or give them up, but some calls can leave it waiting for a frame
  nobody will time out: a skip-ahead, because it keeps keyframe slots, and a keyframe fragment, because it
  may come after the first frames seen. `Safe` says, of the window before the call, which calls these are, and
  `SafeIff` that exactly these can lead to a stall. Fragments of other frames, timers and round-trip updates
  are always safe, and so is a whole run whose first fragment is of its lowest frame (`LowestFirstIsSafe`).
- `max_nack_rounds` is documented as the number of requests sent for one frame. It bounds the rounds; asking
  for a newly found hole takes none. `MostRequests` is the most requests a frame of so many fragments can
  bring (`NackEconomy`, `MostIsReached`). It is no more than the rounds exactly for frames in one piece, and for
  those in two that cannot be tracked before one of them arrives (`RoundsBoundIff`).
- The decoder's rewriting buffer is 64 bytes longer than its input, but every start code of three bytes adds
  one. `FitsIff` says which streams fit, and `SixtyFiveDoNotFit` is a stream of 195 bytes that does not.

## Model

| member | source | states |
|---|---|---|
| Wire.DecodeAfterEncode | crates/renderd-frame/src/header.rs:32-86 | every header whose timestamp fits 24 bits, encoded and followed by any payload, decodes to itself and leaves the payload |
| Wire.EncodeAfterDecode | crates/renderd-frame/src/header.rs:60-86 | every 16-byte buffer is the encoding of the header it decodes to, so the codec is a bijection |
| Wire.Encode | crates/renderd-frame/src/header.rs:32-53 | encoding in place writes exactly the header bytes, leaves the rest of the buffer, and refuses a short buffer or a timestamp over 24 bits |
| Wire.Layout | crates/renderd-frame/src/header.rs:32-53 | which byte of the wire holds which part of which field, and which bit which flag |
| Wire.Validate | crates/renderd-frame/src/validate.rs:17-45 | a header is accepted exactly when its index is below its total and the first and last flags agree with the index |
| Wire.FlagBits | crates/renderd-host/src/network/data.rs:151-160 | each flag is set or clear independently of the others |
| Fragments.AssembleAll | crates/renderd-frame/src/receive.rs:353-371 | a full table of a frame's parts assembles to the parts joined in index order, whatever order they came in |
| WindowInvariant.InsertInv | crates/renderd-frame/src/receive.rs:308-380 | one inserted fragment, valid or not, keeps the window's whole invariant |
| WindowInvariant.ReleaseSafe | crates/renderd-frame/src/receive.rs:497-540 | one release hands out an increasing run in which every non-key frame directly follows its reference |
| WindowInvariant.EnforceInv | crates/renderd-frame/src/receive.rs:661-677 | giving up the oldest frames until the bound holds restores the invariant and hands out nothing |
| WindowRuns.StepInv | crates/renderd-frame/src/receive.rs:308-442 | insert, poll, a new round-trip time and a skip-ahead all keep the invariant |
| WindowRuns.HandedInDecodeOrder | crates/renderd-frame/src/receive.rs:497-540 | over every run: ids handed out strictly increase, the first frame is a keyframe, and any non-key frame has the id right after the frame before it |
| WindowRuns.BrokenChainRestartsOnKeyframe | crates/renderd-frame/src/receive.rs:681-688 | while a keyframe is awaited the next frame handed out is one |
| WindowRuns.EagerAndBounded | crates/renderd-frame/src/receive.rs:661-668 | in every reachable state no complete keyframe is held, the awaited frame is incomplete, nothing stale is held, and the held count is within its bound |
| WindowRuns.PollHandsOutNothing | crates/renderd-frame/src/receive.rs:384-391 | the timers never hand out a frame |
| WindowCalls.ReleaseIs | crates/renderd-frame/src/receive.rs:497-540 | of the complete frames held, a release hands out every keyframe, the frame an intact chain awaits, and each frame whose predecessor it hands out, and no other |
| WindowCalls.GoOutIsOne | crates/renderd-frame/src/receive.rs:497-540 | that describes one set of frames |
| WindowCalls.FragmentHandsOut | crates/renderd-frame/src/receive.rs:308-380 | after any run, an accepted fragment hands out exactly those of the window with it stored, in rising order, each as its slot holds it |
| WindowCalls.InsertErrors | crates/renderd-frame/src/receive.rs:308-336 | after any run a fragment is an error exactly when its header is invalid, or it is current and disagrees with its frame on the total |
| WindowCalls.AcceptedIff | crates/renderd-frame/src/receive.rs:308-341 | and it is taken in exactly when it is valid, current, agrees on the total, and is new to a frame that is not complete |
| KeyRequests.AsksExactly | crates/renderd-frame/src/receive.rs:384-391 | over every run a call asks for a keyframe if and only if it leaves one awaited and none was awaited before it, or it handed one out and broke the chain again, or it is a poll and the time to repeat has come |
| KeyRequests.BreaksAreReported | crates/renderd-frame/src/receive.rs:681-688 | so a call that breaks an intact chain asks for a keyframe, a skip-ahead aside |
| KeyRequests.AsksAreSpaced | crates/renderd-frame/src/receive.rs:384-391 | until a frame goes out or the caller skips, the next request comes at least the configured interval after the one before, after a skip-ahead, or after the first fragment |
| KeyRequests.AsksAgain | crates/renderd-frame/src/receive.rs:384-391 | and from then on a poll that leaves frames held, and no keyframe among them, does ask |
| KeyRequests.SkipAheadIs | crates/renderd-frame/src/receive.rs:425-442 | a skip-ahead keeps exactly the keyframes held, and makes stale exactly what is older than all of them and not newer than the newest frame seen |
| WindowTimers.PollIffDeadline | crates/renderd-frame/src/receive.rs:384-421 | in every reachable state a poll has something to say if and only if the next deadline has come |
| WindowTimers.PollAdvances | crates/renderd-frame/src/receive.rs:384-421 | with positive intervals, the next deadline after a poll lies after it or there is none |
| WindowTimers.DueIffDeadline | crates/renderd-frame/src/receive.rs:395-421 | something is due at an instant exactly when the earliest of all deadlines is not later |
| RequestTiming.RttIsLast | crates/renderd-frame/src/receive.rs:274-276 | the timers go by the last round trip reported, of at most half a second, and by 20 ms before the first |
| RequestTiming.RepeatsAreSpaced | crates/renderd-frame/src/receive.rs:82-88 | over every run, a request that names anything asked for before comes at least one and a half round trips and the slack after the last request for that frame |
| RequestTiming.PollRepeats | crates/renderd-frame/src/receive.rs:543-606 | and from then on a poll asks again for everything missing, if rounds are left and the frame is still of use |
| RequestTiming.MissingIsAsked | crates/renderd-frame/src/receive.rs:543-606 | between calls each fragment known to be missing from a frame still of use has been asked for while it was held, and so has a frame of unknown size if any rounds are configured |
| RequestTiming.GivenUpLate | crates/renderd-frame/src/receive.rs:640-658 | what a poll gives up ends with a frame that has been missing something for two round trips and the slack, with no later keyframe held |
| RequestTiming.LateIsGivenUp | crates/renderd-frame/src/receive.rs:640-658 | and every such frame is given up |
| RequestTiming.NewerFrameStartsClocks | crates/renderd-frame/src/receive.rs:464-470 | a fragment of a frame newer than any seen starts the time to give up of every incomplete frame held, asked for or not |
| RequestTiming.RecoveredIff | crates/renderd-frame/src/receive.rs:346-375 | a frame is reported as recovered if and only if some request was sent for it while it was held |
| RequestTiming.FragmentLoses | crates/renderd-frame/src/receive.rs:472-485 | a fragment loses every incomplete frame held when it jumps too far and is of no keyframe, and the oldest frames when too many are held, no more of them than that |
| RequestTiming.LossesAreReported | crates/renderd-frame/src/receive.rs:671-677 | the count of lost frames is the sum of what the calls reported |
| WindowProgress.StalledIff | crates/renderd-frame/src/receive.rs:395-540 | over every run at all: frames are held with no deadline and nothing arriving if and only if the chain is intact, the awaited id is not tracked, and everything held is complete |
| WindowProgress.NoSilentStall | crates/renderd-frame/src/receive.rs:446-540 | when every call was safe, which the window before it decides, held frames always have a deadline, or the newest is held with exactly a prefix of its fragments |
| WindowProgress.RunTracked | crates/renderd-frame/src/receive.rs:446-494 | in such runs every frame after a keyframe held, and every frame not yet handed out while the chain is intact, is tracked or has a later keyframe held |
| WindowProgress.LowestFirstIsSafe | crates/renderd-frame/src/receive.rs:456-459 | a run whose first fragment is of its lowest frame, and whose skip-aheads are safe, is safe throughout |
| WindowProgress.SkipTracked | crates/renderd-frame/src/receive.rs:425-442 | a skip-ahead with no keyframe held, or with the newest frame seen a keyframe, leaves every needed frame tracked |
| SafeCalls.SafeIff | crates/renderd-frame/src/receive.rs:308-442 | after any run of safe calls, the next call, whatever it is, can be followed by safe calls that stall the window if and only if it was unsafe itself |
| SafeCalls.SkipSafeIff | crates/renderd-frame/src/receive.rs:425-442 | for a skip-ahead: exactly when a keyframe is held and the newest frame seen is not one |
| SafeCalls.UnsafeKeyStalls | crates/renderd-frame/src/receive.rs:446-494 | from any reachable state, after a fragment that starts a keyframe with an untracked frame after it, the fragments the held frames lack, and at most one whole later frame, leave the decoder waiting with nothing on the clock |
| SafeCalls.UnsafeSkipStalls | crates/renderd-frame/src/receive.rs:425-442 | the same after a skip-ahead with a keyframe held that is not the newest frame seen |
| WindowStalls.StallsWithoutLowestFirst | crates/renderd-frame/src/receive.rs:456-459 | for all ids: a whole non-key frame and then a keyframe from more than one before it are one such run |
| WindowStalls.StallsAfterSkip | crates/renderd-frame/src/receive.rs:425-442 | for every id, a keyframe, the frame after it and a skip-ahead, all else as it should be, are another |
| WindowNacks.NacksJustified | crates/renderd-frame/src/receive.rs:543-618 | every request sent in any run names, in order, missing fragments below the total of an incomplete frame still needed, with no later keyframe held |
| WindowNacks.NackEconomy | crates/renderd-frame/src/receive.rs:543-605 | in one stay of a frame of at most n fragments in the window, it is asked for whole at most the configured number of rounds R, so is each fragment, and all requests for it are at most R for n up to 1, and otherwise R - 1 and the larger of 2 and half of n rounded up |
| NackLimit.MostIsReached | crates/renderd-frame/src/receive.rs:543-605 | for every such configuration, frame and n some run brings exactly that many |
| NackLimit.RoundsBoundIff | crates/renderd-frame/src/receive.rs:57-57 | the rounds bound the requests, in every run, if and only if the frame has one fragment, or two and is the first of all or gaps are never filled |
| ReceiveWindow.ReceiveWindow.Insert | crates/renderd-frame/src/receive.rs:308-380 | the method computes the specified insert, output and error included |
| ReceiveWindow.ReceiveWindow.ValidKeeps | crates/renderd-frame/src/receive.rs:233-442 | whatever calls were made on the object, the window's invariant holds of it |
| ReceiveWindow.ReceiveWindow.Poll | crates/renderd-frame/src/receive.rs:384-391 | the method computes the specified poll |
| ReceiveWindow.ReceiveWindow.NextDeadline | crates/renderd-frame/src/receive.rs:395-421 | one pass over the slots finds the least of all deadlines |
| ReceiveWindow.ReceiveWindow.RequireKeyframe | crates/renderd-frame/src/receive.rs:425-442 | the method computes the specified skip-ahead |
| ReceiveWindow.ReceiveWindow.SetRtt | crates/renderd-frame/src/receive.rs:274-276 | the round-trip time is capped |
| ReceiveWindow.ReceiveWindow.NoteNewFrame | crates/renderd-frame/src/receive.rs:446-494 | marking tails, filling gaps and handling a discontinuity do to every slot what the specification says |
| ReceiveWindow.ReceiveWindow.Release | crates/renderd-frame/src/receive.rs:497-540 | the release loop ends and hands out exactly the specified frames |
| ReceiveWindow.ReceiveWindow.RequestMissing | crates/renderd-frame/src/receive.rs:543-606 | one pass in id order sends the specified requests and updates each slot |
| ReceiveWindow.ReceiveWindow.GiveUpExpired | crates/renderd-frame/src/receive.rs:640-658 | every frame up to the last expired one is abandoned |
| ReceiveWindow.ReceiveWindow.EnforceCapacity | crates/renderd-frame/src/receive.rs:661-668 | the loop ends on the number of slots and leaves the specified window |
| ReceiveWindow.ReceiveWindow.GiveUpThrough | crates/renderd-frame/src/receive.rs:671-677 | slots below are dropped and counted, the chain is broken, and what can go out does |
| Sender.FragmentFrame | crates/renderd-host/src/network/data.rs:89-183 | the loop makes exactly the specified datagrams, or refuses a frame of too many fragments |
| Sender.WirePtsIs | crates/renderd-host/src/network/data.rs:116-122 | a time before zero goes out as 0, any other as its whole microseconds less some multiple of 2^24 |
| Sender.WireDifference | crates/renderd-host/src/network/data.rs:116-122 | two wire times differ, modulo 2^24, by what the capture times do in microseconds |
| Sender.WireTimeIsRecovered | crates/renderd-host/src/network/data.rs:116-122 | a receiver that knows a time less than 2^24 microseconds earlier recovers the capture time |
| Sender.DatagramSizes | crates/renderd-host/src/network/data.rs:96-178 | every datagram but the last is a header and as many bytes as asked for, 1150 by default; none after the first is empty |
| Sender.TooManyIff | crates/renderd-host/src/network/data.rs:101-114 | a frame is refused exactly when it is longer than 65535 such pieces |
| Sender.ChunksJoin | crates/renderd-host/src/network/data.rs:146-179 | the pieces joined in order are the frame |
| Sender.ChunkAt | crates/renderd-host/src/network/data.rs:146-149 | where each piece lies in the data |
| Sender.ChunksCount | crates/renderd-host/src/network/data.rs:103-107 | there are as many pieces as the size divided by the piece size, rounded up, and one for an empty frame |
| Sender.DatagramParses | crates/renderd-host/src/network/data.rs:162-178 | every datagram decodes to a valid header and the piece it was made from |
| Sender.DrainKeepsBest | crates/renderd-host/src/network/data.rs:64-70 | a drain, one frame at a time, keeps the newest keyframe or, with none, the newest frame |
| Sender.BestIsDecodable | crates/renderd-host/src/network/data.rs:288-299 | what a drain keeps it saw, and it is a keyframe exactly when one was seen |
| RetransmitCache.Retention | crates/renderd-host/src/network/retransmit.rs:56-78 | with insert times that do not go back, what is held is the longest suffix of all sent of which nothing is over a second old and all together is at most 8 MiB, or the newest alone |
| RetransmitCache.HeldIsRetained | crates/renderd-host/src/network/retransmit.rs:56-128 | the same with requests in between, which change only resend times |
| RetransmitCache.RunAll | crates/renderd-host/src/network/retransmit.rs:56-128 | over every run the resend counter is the number of datagrams returned, resend stamps are those of the last returns, and none was returned again within the later call's gap |
| RetransmitCache.ResendsSpacedAndCounted | crates/renderd-host/src/network/retransmit.rs:114-126 | no datagram is returned twice within the later call's gap, and the counter is the total returned |
| RetransmitCache.ResendAll | crates/renderd-host/src/network/retransmit.rs:105-127 | with nothing suppressed, exactly the datagrams asked for come back, in order |
| RetransmitCache.AnswerIs | crates/renderd-host/src/network/retransmit.rs:87-128 | over every run, a request is answered from the last frame sent under its id, if held, exactly when that is at most a second old; it gets, in order, exactly the datagrams asked for that never went out again, or not within the gap |
| RetransmitCache.UnavailableIfNotHeld | crates/renderd-host/src/network/retransmit.rs:97-100 | with no such frame held there is no answer, and the counter says so |
| RetransmitCache.RetransmitCache.Insert | crates/renderd-host/src/network/retransmit.rs:56-78 | the eviction loop leaves the specified frames |
| RetransmitCache.RetransmitCache.TakeForResend | crates/renderd-host/src/network/retransmit.rs:87-128 | the method returns and stamps exactly the specified datagrams |
| RetransmitCache.RetransmitCache.TailProbe | crates/renderd-host/src/network/retransmit.rs:136-142 | the probe is the last datagram of the newest frame |
| EndToEnd.EndToEndExact | crates/renderd-frame/src/receive.rs:308-380 | whatever the channel does and whatever is resent or probed, every frame handed out is the frame sent under that id (payload, keyframe flag, wire timestamp), and no id twice |
| EndToEnd.InsertFaithful | crates/renderd-frame/src/receive.rs:308-380 | inserting genuine fragments keeps every slot a part of the frame sent |
| EndToEnd.ProbeIsTheTail | crates/renderd-host/src/network/retransmit.rs:131-142 | in every reachable state a tail probe is the last piece of the last frame sent whole, with its last flag, whatever was resent or evicted since |
| Recovery.AnswerCompletesFrame | crates/renderd-host/src/network/retransmit.rs:87-128 | what the cache answers for a held frame's missing fragments, arriving in any order, completes exactly that frame, reports it once and as recovered if it was asked for, and hands it out at once when the decoder awaits it |
| Recovery.AnswerCompletesInReach | crates/renderd-host/src/network/retransmit.rs:87-128 | so it does in every state the two ends can reach over any channel, for every frame the viewer knows to be incomplete and the host's cache still holds |
| Recovery.AnswerIsWants | crates/renderd-host/src/network/retransmit.rs:105-127 | the answer names exactly the fragments the slot lacks |
| Recovery.ChasedWasAsked | crates/renderd-frame/src/receive.rs:543-606 | between calls every frame worth asking for has been asked for |
| Reassembly.RunIncreasing | crates/renderd-frame/src/reassembly.rs:87-182 | over any run ids come out strictly increasing, at most `capacity` incomplete frames are held, and all given out is at or below the watermark |
| Reassembly.RunExact | crates/renderd-frame/src/reassembly.rs:137-178 | genuine fragments in any order give out only the frames sent |
| Reassembly.StaleIgnored | crates/renderd-frame/src/reassembly.rs:94-97 | a fragment at or below the watermark changes nothing |
| Reassembly.InsertErrors | crates/renderd-frame/src/reassembly.rs:87-182 | in every reachable state, exactly which fragments are errors, and which error: invalid, another total, or already here |
| Reassembly.FullDropsOldest | crates/renderd-frame/src/reassembly.rs:99-112 | in a full buffer a fragment of a new frame either is refused, being older than every frame held, or makes exactly the oldest go for good; either is one frame dropped |
| Reassembly.DropsOlder | crates/renderd-frame/src/reassembly.rs:185-196 | dropping older frames leaves exactly the rest, counts each frame dropped, and none of them is taken in again |
| Reassembly.ReassemblyBuffer.Insert | crates/renderd-frame/src/reassembly.rs:87-182 | the method computes the specified insert, errors included |
| Reassembly.ReassemblyBuffer.DropOlder | crates/renderd-frame/src/reassembly.rs:185-196 | the eviction loop drops, counts and retires every older frame |
| Agreement.TwoReceiversAgree | crates/renderd-frame/src/reassembly.rs:87-196 | on a loss-free stream of consecutive frames from a keyframe on, fragments in any order within each frame, both receivers hand out exactly the frames sent |
| AnnexB.RoundTripIff | crates/renderd-vt-sys/c-shims/videotoolbox_shim.c:536-569 | units written with start codes and scanned back are the same units if and only if none holds `00 00 01` (section B.1 and section 7.4.1 of ITU-T H.264) |
| AnnexB.ParsedIsClean | crates/renderd-vt-sys/c-shims/videotoolbox_shim.c:545-556 | whatever the bytes, no unit the scan finds holds a start code |
| AnnexB.BlockRoundTrip | crates/renderd-vt-sys/c-shims/videotoolbox_shim.c:910-933 | a block of clean units extracted and scanned back gives a keyframe's parameter sets, prefixed, and then the block itself, byte for byte |
| AnnexB.NothingSkipped | crates/renderd-vt-sys/c-shims/videotoolbox_shim.c:753-786 | a buffer of the size the bound gives holds every parameter set and every unit |
| AnnexB.SkipsOnlyForRoom | crates/renderd-vt-sys/c-shims/videotoolbox_shim.c:816-933 | in a buffer of any size, whole units in their order, and none that was skipped would still fit |
| AnnexB.SizeIsExact | crates/renderd-vt-sys/c-shims/videotoolbox_shim.c:753-786 | the size asked for is filled to the last byte by a keyframe whose parameter sets are all carried and whose block has no unit cut short |
| AnnexB.HeadersAre | crates/renderd-vt-sys/c-shims/videotoolbox_shim.c:818-880 | a keyframe carries the first three parameter sets of HEVC and the first two of H.264, in order, without empty or missing ones; nothing else carries any |
| AnnexB.BlockIsUnits | crates/renderd-vt-sys/c-shims/videotoolbox_shim.c:911-920 | any block is its whole units and a remainder too short for a prefix or for what its prefix says |
| AnnexB.RewrittenLength | crates/renderd-vt-sys/c-shims/videotoolbox_shim.c:536-569 | rewriting any stream drops the bytes before its first start code and adds one for each code of three bytes, and a unit too long for its length field only makes it shorter |
| AnnexB.FitsIff | crates/renderd-vt-sys/c-shims/videotoolbox_shim.c:529-566 | below 2^32 bytes, the rewritten stream fits the buffer allocated for it if and only if its three-byte start codes outnumber the dropped bytes by at most 64 |
| AnnexB.SixtyFiveDoNotFit | crates/renderd-vt-sys/c-shims/videotoolbox_shim.c:529-566 | 65 empty units with three-byte codes, 195 bytes, are rewritten to 260, one more than the buffer holds |
| AnnexB.SameLengthIff | crates/renderd-vt-sys/c-shims/videotoolbox_shim.c:529-566 | the length is unchanged exactly when the three-byte codes are as many as the dropped bytes |
| AnnexB.SameLength | crates/renderd-vt-sys/c-shims/videotoolbox_shim.c:529-566 | clean units written with four-byte codes, as the encoder's side writes them, keep their length, so they fit |
| AnnexB.ExtractNals | crates/renderd-vt-sys/c-shims/videotoolbox_shim.c:788-940 | the loops over parameter sets and block write exactly the specified stream |
| AnnexB.ToPrefixed | crates/renderd-vt-sys/c-shims/videotoolbox_shim.c:536-569 | in the buffer of the input's length and 64, for every stream that fits it, the scan loop writes exactly the prefixed units |
| AnnexB.NextCode | crates/renderd-vt-sys/c-shims/videotoolbox_shim.c:547-556 | the inner loop stops at the first start code or the end |
| Nv12.ChannelsAreNear | crates/renderd-viewer/src/renderer.rs:182-228 | for every sample each channel is within 0.51 of a level of the exact signal (section 3 of Recommendation ITU-R BT.709-6) |
| Nv12.ExactInvertsStandard | crates/renderd-viewer/src/renderer.rs:182-198 | those exact signals are the ones from which the standard forms luma and colour differences |
| Nv12.FitsThirtyTwoBits | crates/renderd-viewer/src/renderer.rs:215-228 | no product, partial sum or sum of the conversion leaves 32-bit range, in the per-pixel form or the shared-chroma one |
| Nv12.ToBgra | crates/renderd-viewer/src/renderer.rs:215-228 | one pixel's word, and whether it shows any colour |
| Nv12.PairToBgra | crates/renderd-viewer/src/renderer.rs:239-264 | the shared-chroma form gives both pixels exactly as the per-pixel form does |
| Nv12.PixelIsNear | crates/renderd-viewer/src/renderer.rs:215-228 | the word is opaque, and its bytes hold red, green and blue, each that near the exact signal |
| Nv12.ConvertOneToOne | crates/renderd-viewer/src/renderer.rs:99-142 | for all sizes, odd ones included, the fast path paints what the scaler paints on the frame's own rectangle, and nothing outside it |
| Nv12.OneToOneIsReference | crates/renderd-viewer/src/renderer.rs:99-142 | every pixel of that is the per-pixel reference |
| Nv12.ScaleNv12 | crates/renderd-viewer/src/renderer.rs:149-180 | the scaler reads in bounds and paints exactly the rectangle |
| Nv12.ScalerShows | crates/renderd-viewer/src/renderer.rs:149-180 | on the surface, the pixel at (r, c) of the rectangle is the colour of the source pixel as far down and across the frame, from its luma and the chroma of its two-by-two block |
| Nv12.PaintIsUnique | crates/renderd-viewer/src/renderer.rs:99-180 | a surface painted over a rectangle is fixed by the frame and what was there before, so the two paths agree bit for bit |
| Nv12.AspectFitFits | crates/renderd-viewer/src/renderer.rs:271-292 | the rectangle lies in the target, fills it one way, is centred the other, and is the whole target when the sizes match |
| Nv12.AspectFitKeepsShape | crates/renderd-viewer/src/renderer.rs:271-292 | the direction filled is the one the shape calls for, and the other size is the one that keeps the shape, to the nearest pixel |
| Nv12.RenderNv12 | crates/renderd-viewer/src/renderer.rs:414-489 | drawing a picture by either path leaves the same specified surface, and a short buffer or surface draws nothing |
| Nv12.RenderShows | crates/renderd-viewer/src/renderer.rs:414-489 | what drawing a picture leaves at each pixel, by the byte positions of luma and chroma in its buffer |
| Nv12.NothingLeftOver | crates/renderd-viewer/src/renderer.rs:437-439 | every pixel of the surface shows the picture or is black beside it |
| SizeLadder.LadderShape | crates/renderd-host/src/scale.rs:105-115 | the session's size, then every listed height below it, ever shorter, in whole blocks and the session's shape to half a block |
| SizeLadder.LargestFirstIff | crates/renderd-host/src/scale.rs:103-115 | with the tallest listed height below the session's own, the sizes come largest first if and only if there is no such height or the width scaled to it and rounded to 16 gives fewer pixels than the session's size |
| SizeLadder.LargestFirstWhenTaller | crates/renderd-host/src/scale.rs:103-115 | that is so, for widths from 8 on, whenever the width times the height given up is more than eight times the smaller height |
| SizeLadder.LadderCanGrow | crates/renderd-host/src/scale.rs:94-115 | a 2058 x 1153 session is one whose sizes do not |
| SizeLadder.FitsIsMonotone | crates/renderd-host/src/scale.rs:120-123 | fewer pixels, more bitrate or a thinner margin never stop a size from fitting |
| SizeLadder.FitsIff | crates/renderd-host/src/scale.rs:120-123 | a bitrate affords a size exactly when its bits are at least 0.065 for HEVC, or 0.069 for H.264, times the margin, for each pixel a second |
| SizeLadder.BuildLadder | crates/renderd-host/src/scale.rs:105-115 | the loop builds the specified ladder |
| Governor.ChangesAreSpaced | crates/renderd-host/src/scale.rs:338-355 | under either policy two size changes are at least five seconds apart |
| Governor.ChangesChain | crates/renderd-host/src/scale.rs:344-354 | each change starts from where the last one ended, and the governor remembers the newest |
| Governor.FirstFitting | crates/renderd-host/src/scale.rs:325-330 | the rung chosen is the first that fits, or the last |
| Governor.RungBelow | crates/renderd-host/src/scale.rs:413-417 | a step down goes strictly down unless already at the bottom |
| Governor.ResolutionGovernor.Decide | crates/renderd-host/src/scale.rs:338-409 | the method computes the specified update under both policies |
| Governor.ResolutionGovernor.Start | crates/renderd-host/src/scale.rs:310-316 | a session, whatever went before it, starts at full size, or at the largest its bitrate keeps |
| Governor.Stability.Report | crates/renderd-host/src/scale.rs:212-227 | the method computes the specified judgement of the link |
| SharpGovernor.UnstableIff | crates/renderd-host/src/scale.rs:212-233 | the link is judged unstable at a report if and only if a chain of congested reports with gaps under half a second ends there and spans two seconds |
| SharpGovernor.WaitFollowsRecord | crates/renderd-host/src/scale.rs:243-260 | the wait is eight seconds doubled for every failed return in a row, at most 64 |
| SharpGovernor.SharpIsItsHistory | crates/renderd-host/src/scale.rs:382-409 | at every report the policy does exactly what the reports and size changes before it call for, both when it acts and when it does not |
| SharpGovernor.ReturnsWait | crates/renderd-host/src/scale.rs:236-241 | a return to full size comes at least the wait after every unstable report |
| SmoothHistory.SmoothIsItsHistory | crates/renderd-host/src/scale.rs:357-379 | at every report the smooth policy does exactly what the reports and size changes before it call for: down after the size has been too big for two seconds, up after there has been room for eight, neither sooner, and nothing within five of a change |
| SmoothHistory.RoomBringsStep | crates/renderd-host/src/scale.rs:372-374 | eight seconds of reports with room at a size that did not change take it one size up |
| SmoothHistory.TwoReportsStepUp | crates/renderd-host/src/scale.rs:419-436 | two such reports eight seconds apart do |
| SmoothHistory.CalmClimbs | crates/renderd-host/src/scale.rs:357-436 | a calm steady bitrate grows the picture until nothing larger fits |
| SmoothGovernor.NeverReverses | crates/renderd-host/src/scale.rs:357-379 | from any state of the governor and for any ladder, while the bitrate holds steady, under any congestion, size changes are all down or all up, and fewer than rungs |
| SmoothGovernor.DownOnceIff | crates/renderd-host/src/scale.rs:411-436 | from a size too big, there is at most one change over every such run if and only if the step down lands on a size the bitrate keeps, or on the last |
| SmoothGovernor.StartableLands | crates/renderd-host/src/scale.rs:411-417 | from a rung smaller than all above it, the step down goes straight to the largest size that fits outright, and the bitrate keeps it unless it is the last |
| SmoothGovernor.StartIsStartable | crates/renderd-host/src/scale.rs:310-316 | whatever the ladder, the rung a session starts on is smaller than every one above it, or the last |
| SmoothGovernor.NeverFlaps | crates/renderd-host/src/scale.rs:357-379 | where the sizes come largest first, or from a rung smaller than all above it, as one a session starts on is, at most one change is downward |
| SmoothGovernor.SettlesOnceSteady | crates/renderd-host/src/scale.rs:338-379 | in a session whose bitrate varied before it held steady, the changes from then on keep to that |
| SmoothGovernor.OnlyClimbs | crates/renderd-host/src/scale.rs:419-436 | from a size it can keep there are only single steps up, to sizes that fit outright |
| Abr.StaysInBounds | crates/renderd-abr/src/engine.rs:246-252 | the bitrate never leaves its bounds |
| Abr.PanicIff | crates/renderd-abr/src/state.rs:64-65 | over every run, on the raw signals: a report is a panic if and only if its loss is at the panic threshold or either queue at 250 ms |
| Abr.BackoffIff | crates/renderd-abr/src/state.rs:66-69 | and a backoff if and only if it is none and its loss is at five times the probing threshold or the panic threshold, or either queue over 40 ms |
| Abr.CleanIff | crates/renderd-abr/src/state.rs:70-77 | and exactly which other reports count as clean |
| Abr.PanicSizes | crates/renderd-abr/src/engine.rs:237-252 | what a panic cuts the bitrate to: half of it, or 70 % of the rate received if less, within bounds |
| Abr.BackoffSizes | crates/renderd-abr/src/engine.rs:227-252 | and a backoff: when acted on, 85 % of it, or 95 % of the rate received |
| Abr.ProbeSizes | crates/renderd-abr/src/engine.rs:220-252 | and what a probe raises it to |
| Abr.CongestionLowers | crates/renderd-abr/src/engine.rs:187-206 | three congested reports in a row lower any bitrate above the floor, delay alone included, unless they only carry a panic on |
| Abr.ProbesEverySixth | crates/renderd-abr/src/engine.rs:159-188 | every sixth clean report in a row probes and nothing else does |
| Abr.RisesAfterFiveClean | crates/renderd-abr/src/engine.rs:176-190 | the bitrate rises only on a probe preceded by five clean steady reports |
| Abr.ProbeSize | crates/renderd-abr/src/engine.rs:220-225 | a probe adds at least one kbps below the ceiling and at most the configured step |
| Abr.BackoffCutsAreApart | crates/renderd-abr/src/engine.rs:191-197 | a backoff cut comes at least three reports after any earlier cut |
| Abr.OneCutInThree | crates/renderd-abr/src/engine.rs:191-197 | under steady congestion exactly one report in any three is acted on |
| Abr.ActsIsACut | crates/renderd-abr/src/engine.rs:227-235 | a report acted on cuts to 85 % or the received rate's share, and one not acted on changes nothing |
| Abr.OneCutPerPanic | crates/renderd-abr/src/engine.rs:198-213 | an unbroken panic makes one cut, on entry, and asks for a keyframe at most there and exactly when frames were lost |
| Abr.AsksAreSeparated | crates/renderd-abr/src/engine.rs:207-212 | between two keyframe requests the link left panic |
| Abr.AbrEngine.UpdateSignals | crates/renderd-abr/src/engine.rs:159-218 | the method computes the specified step and decision |
| KeyframeGate.GrantsAreSpaced | crates/renderd-host/src/encode.rs:104-126 | two granted keyframes are a cooldown, and at least 200 ms, apart |
| KeyframeGate.StampAdvances | crates/renderd-host/src/encode.rs:137-147 | the issue stamp never goes back |
| KeyframeGate.PendingIffUnanswered | crates/renderd-host/src/encode.rs:79-126 | a request is pending exactly while no keyframe has been granted after it |
| KeyframeGate.RefusedOnlyAfterKeyframe | crates/renderd-host/src/encode.rs:104-126 | a pending request is refused only while the cooldown of a keyframe lasts, which goes by the size of the last one reported |
| KeyframeGate.GrantedOnlyAfterCooldown | crates/renderd-host/src/encode.rs:104-147 | and none is granted before that cooldown has passed since every keyframe known, less 200 ms |
| KeyframeGate.CooldownAtLeast | crates/renderd-host/src/encode.rs:153-158 | the cooldown is at least so many milliseconds exactly when the link carries no more than twice the keyframe in them |
| KeyframeGate.ResetForgets | crates/renderd-host/src/encode.rs:85-89 | after a reset nothing before it matters |
| KeyframeGate.GrantsAfterReset | crates/renderd-host/src/encode.rs:85-89 | and the first take is granted |
| KeyframeGate.CooldownIsTwiceTransmitTime | crates/renderd-host/src/encode.rs:153-158 | between its clamps the cooldown is twice the keyframe's transmit time, to the millisecond |
| KeyframeGate.KeyframeGate.TakeAt | crates/renderd-host/src/encode.rs:104-126 | the method grants exactly when the specification does and consumes the request |
| KeyframeGate.KeyframeGate.Forget | crates/renderd-host/src/encode.rs:85-89 | a reset forgets the history and arms a request |
| KeyframeGate.KeyframeGate.RecordKeyframeAt | crates/renderd-host/src/encode.rs:137-147 | recording a keyframe sizes the next cooldown and leaves requests pending |
| MonotonicPts.Linearizes | crates/renderd-host/src/encode.rs:284-298 | with any number of threads, stale loads and spurious failures, the cell goes through the values one thread alone would write in the order of the exchanges |
| MonotonicPts.AnswersGrow | crates/renderd-host/src/encode.rs:284-298 | in that order answers grow by at least 1000 ns each, up to saturation, and each is at least the one asked for |
| MonotonicPts.AnswerIsAsked | crates/renderd-host/src/encode.rs:284-298 | an answer is the time asked for whenever that is 1000 ns past the answer before it, and else exactly that much past it, up to saturation |
| MonotonicPts.SameOnlyWhenSaturated | crates/renderd-host/src/encode.rs:284-298 | two answers coincide exactly when the timestamp has run out |
| MonotonicPts.ExchangeIsOnTheNewest | crates/renderd-host/src/encode.rs:288-294 | below saturation no value returns, so an exchange succeeds only on a value nobody has replaced |

## Left out

- The sender loop, QUIC, TLS, UDP and the task runtime: input and output over libraries; the channel delivers any datagram ever sent, any number of times, at any time.
- The window's slots are value records in a map field that the methods reassign: the program's map owns them alone, so nothing can alias them. The encoded input of the bitstream loops is read-only there and a value here.
- `u64` id wrap-around, `Instant` overflow, a display width within 15 of 2^32, a counter past its width and mutex poisoning: assumed not to occur. The reassembly buffer's overflow error cannot be reached, because a full window has an oldest frame.
- IEEE rounding and non-finite inputs in the governor, the bitrate engine and the aspect rectangle: their `f64` arithmetic is exact real arithmetic here.
- KeyframeGate.GrantsAreSpaced: does not cover two takers interleaved inside one call, where the stamp is written after the request is consumed; each call is one step.
- WindowProgress.NoSilentStall: does not promise progress after an unsafe call, because the window can stall then; `SafeIff` says exactly which calls these are, as long as frame ids have not run out.
- Abr.CongestionLowers: starts at 4 kbps, because 85 % of 3 kbps rounds back to 3.
- NackLimit.MostIsReached: like `RoundsBoundIff`, assumes room for two frames and fewer than 65535 rounds, so that fragments of one later frame suffice to bring the rounds about; the bound itself holds without either.
- Agreement.TwoReceiversAgree: does not cover a window configured to hold no frames, which gives up every frame of more than one fragment; the older buffer rounds that setting up to one.
- AnnexB.ToPrefixed: says nothing of a stream that does not fit the decoder's buffer, where the program would write past its end; `FitsIff` says which those are.
- AnnexB.ExtractNals: takes the count of parameter sets as reported, when there is a format at all; that each getter may fail is modelled.
- Nv12.RenderNv12: does not model a surface of 2^32 pixels or more, whose size the program computes in 32 bits (renderer.rs:416), the window, its buffer acquisition and presentation, and `scale_bgra`, which copies words as `scale_nv12` computes them.
- A drain can discard frames queued behind the keyframe it keeps, so no decodable chain is claimed on the sender's side.
- `stream_size`, `RetransmitCache.clear`, `AbrState::next_state`, `AbrEngine::update`, `payload_size_for`, the encryption flag, counters that are only read, logging and metrics: would add only easy members.
- ScreenCaptureKit, VideoToolbox and Direct3D sessions, encoder set-up and size switching, discovery, pairing, cryptography, configuration and the user interface.
