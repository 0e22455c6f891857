# Cytrus libretro stream normalisation, in Dafny

This project models the layer of the Cytrus libretro core that converts the
emulator's streams into what a libretro frontend expects:

- **Audio** (`module Audio`, audio.dfy): the batcher. Interleaved stereo
  samples are copied into a 1024-slot `int16` buffer with a write cursor. Each
  time the buffer fills, 512 frames go to the host's batch callback and the
  cursor resets. The module covers volume, mute and float conversion, forced
  flushes, silence and the test-tone writer. `Audio.Batcher` is a class over
  the buffer `array`. The host callback is modelled as a log of the batches it
  received.
- **Video** (`module Video`, video.dfy): the dual-screen compositor. It has the
  layout × scale dimension table, the placement offsets of the two 3DS screens,
  and the ARGB8888 pixel packing. `Video.Compositor` is a class over an
  `array2` canvas. Its nested blit loops are proved to write exactly the target
  rectangle.
- **Save states** (`module SaveState`, memory.dfy): the 16-byte container
  header, made of magic, version, payload size and crc. The module models
  `serialize` as a method over the caller's `array`, `unserialize` as a chain
  of checks, and the one-slot snapshot (`SaveState.Snapshot`). It also has the
  memory-region id mapping.
- **Input** (`module Input`, input.dfy): the aggregator. Each poll rebuilds
  every player's 16-bit button mask from the mapping table. It also sets the
  analog readings (deadzone only) and the player-0 touch state. The getters
  are bounds-checked. `Input.Aggregator` is a class over the mask and stick
  arrays.
- **Frontend** (`module Frontend`, frontend.dfy): the fixed-bit button mask for
  port 0, touch reporting, audio forwarding, and the grow-only RGB888 →
  ARGB8888 frame converter (`Frontend.Presenter`). The C out-parameter
  wrappers become methods over nullable `Cell`s.

Each host callback (video refresh, audio batch, input poll and state) is
either a boolean "attached" flag plus a log of calls, or, for reads, a
function parameter `InputState = (port, device, index, id) -> int16`.
Integers are unbounded. Where the source's width matters, the model writes it
out: `int16` samples, `bv16`/`bv32` masks and 32-bit header words. The model
takes the host to be little-endian for the header words.

## Model

| member | source | states |
|---|---|---|
| Audio.ClampVolume | cytrus_audio.cpp:45-47 | the stored volume lies in [0, 1]; an in-range volume is kept, a larger one becomes 1, a negative one 0 |
| Audio.ApplyVolume | cytrus_audio.cpp:68-71 | volume 1 leaves a sample unchanged, volume 0 silences it, and any volume gives a value between 0 and the sample (truncation toward zero) |
| Audio.FloatToInt16 | cytrus_audio.cpp:122-125 | the result is within [-32767, 32767], saturates at ±1, is within 1 of x·32767 on [-1, 1] and keeps the sign of x |
| Audio.Scaled | cytrus_audio.cpp:65-74 | sample i of the scaled stream is ApplyVolume of input sample i, with the same length |
| Audio.Converted | cytrus_audio.cpp:141-147 | sample i of the converted stream is FloatToInt16 of float sample i, with the same length |
| Audio.Silence | cytrus_audio.cpp:92-101 | silence for n frames is 2n samples, all zero |
| Audio.AppendedUnique | cytrus_audio.cpp:60-84 | the relation between (cursor contents, batches sent, input) and the outcome is functional: one input has one outcome |
| Audio.BatchesFromStream | cytrus_audio.cpp:80-82 | full 1024-sample batches are determined by their concatenation, so order preservation fixes each batch |
| Audio.OneBatch | cytrus_audio.cpp:60-84 | 1024 samples into an empty buffer give exactly one batch equal to the input and an empty cursor; 1025 give that batch and one pending sample |
| Audio.DuplicatedAt | cytrus_audio.cpp:184-185 | the tone writer's stream carries each frame's sample on both channels |
| Audio.ToneRunEven | cytrus_audio.cpp:184-191 | from an even cursor the cursor stays even and below 1024, every emitted batch is full, and old pending + duplicated tone == batches + new pending |
| Audio.ToneRunOdd | cytrus_audio.cpp:184-191 | from an odd cursor, with s = old pending + duplicated tone: if no batch is sent the pending samples are s; otherwise batches are full and batches + pending == s without its sample at index 1024, the slot past the batch |
| Audio.Batcher.constructor | cytrus_audio.cpp:18-24 | a zeroed buffer, cursor 0, not initialised, volume 1.0, not muted, no batches |
| Audio.Batcher.Init | cytrus_audio.cpp:27-37 | init succeeds; a second init changes nothing, a first one zeroes the buffer and the cursor |
| Audio.Batcher.Deinit | cytrus_audio.cpp:39-42 | clears the initialised flag and the cursor and changes nothing else |
| Audio.Batcher.SetVolume | cytrus_audio.cpp:45-47 | volume becomes ClampVolume(v), nothing else changes |
| Audio.Batcher.SetMuted | cytrus_audio.cpp:50-52 | the mute flag becomes m, nothing else changes |
| Audio.Batcher.Enqueue | cytrus_audio.cpp:60-84 | Appended: (pos + n) / 1024 batches are sent, each of 1024 samples (512 frames); the cursor becomes (pos + n) % 1024; old pending + input == new batches concatenated + new pending |
| Audio.Batcher.CopyIn | cytrus_audio.cpp:65-74 | a chunk copy advances the cursor by its length and appends exactly that chunk after the kept prefix |
| Audio.Batcher.ProcessSamples | cytrus_audio.cpp:55-85 | uninitialised, muted or without callback: nothing changes; otherwise the volume-scaled samples are appended as Enqueue states |
| Audio.Batcher.ProcessFloatSamples | cytrus_audio.cpp:128-162 | the same gate; otherwise the volume-scaled FloatToInt16 conversions are appended as Enqueue states |
| Audio.Batcher.GenerateSilence | cytrus_audio.cpp:88-109 | gated on initialised and callback only (not mute); appends Silence(frames) as Enqueue states |
| Audio.Batcher.Flush | cytrus_audio.cpp:112-119 | with a non-empty cursor, emits a batch of pos/2 frames (an odd last sample is dropped) and resets the cursor; otherwise nothing changes |
| Audio.Batcher.StoreFrame | cytrus_audio.cpp:184-185 | one frame writes the sample to two consecutive slots and advances the cursor by 2 |
| Audio.Batcher.GenerateTestTone | cytrus_audio.cpp:165-193 | gated on initialised and callback; the new pending samples and batches are those of ToneRun over the old pending samples and the wave |
| Video.PlacementsFit | cytrus_video.cpp:126-172 | for every layout and scale ≥ 1, every placed screen lies inside the canvas of the dimension table, and two placements never overlap |
| Video.TopBottomCentred | cytrus_video.cpp:128-140 | in TopBottom the bottom screen's slot starts at x = 40·s, y = 240·s, and the 320·s-wide slot is centred in the canvas (the screen is centred under the top screen at scale 1, since surfaces are not enlarged) |
| Video.ScaleZeroOverflows | cytrus_video.cpp:38-59 | at scale 0 the canvas is 0 × 0 and the first placed screen is not inside it |
| Video.Dimensions | cytrus_video.cpp:42-59 | the canvas is empty exactly at scale 0, and never wider than 720·s or taller than 480·s |
| Video.Placements | cytrus_video.cpp:126-172 | stacked and side-by-side layouts draw two screens, single layouts one; the first is at the origin; the top screen is drawn first and only in layouts that show it |
| Video.Pack | cytrus_video.cpp:104-106 | the packed pixel has alpha 0xFF and its three lower bytes are r, g, b |
| Video.PackInjective | cytrus_video.cpp:104-106 | equal packed pixels come from equal (r, g, b) |
| Video.PlaceholderFrame | cytrus_video.cpp:118-124 | with all-zero screen surfaces, a covered canvas pixel is opaque black 0xFF000000 and an uncovered one stays 0 |
| Video.Compositor.constructor | cytrus_video.cpp:12-35 | no buffer, 800 × 480, pitch 0, TopBottom layout, scale 1 |
| Video.Compositor.GetDimensionsInto | cytrus_video.cpp:187-190 | the non-null out-parameters receive width and height |
| Video.Compositor.GetLayout | cytrus_video.cpp:201-203 | the reported layout is the one an allocated canvas was sized for at the current scale |
| Video.Compositor.Init | cytrus_video.cpp:38-77 | succeeds iff 1 ≤ scale ≤ 8; on failure buffer, scale, dimensions and pitch are unchanged; on success the dimensions follow the table, pitch == 4·width, and a fresh zeroed buffer of that size is allocated |
| Video.Compositor.Deinit | cytrus_video.cpp:79-84 | drops the buffer and changes nothing else |
| Video.Compositor.SetLayout | cytrus_video.cpp:86-90 | the layout becomes l and the dimensions become the table entry for l at the current scale, with a zeroed buffer |
| Video.Compositor.SetResolutionScale | cytrus_video.cpp:193-198 | a scale outside 1..8 changes nothing; otherwise the dimensions are re-derived for the current layout |
| Video.Compositor.Blit | cytrus_video.cpp:93-109 | the target rectangle holds the packed source pixels; every pixel outside it is unchanged |
| Video.Compositor.Render | cytrus_video.cpp:112-184 | without a buffer or callback nothing changes; otherwise the canvas is the composition of the layout's placements and one frame is sent |
| Video.Compositor.Clear | cytrus_video.cpp:123 | every canvas pixel is 0 |
| Video.Compositor.Compose | cytrus_video.cpp:123-172 | every canvas pixel is the last covering placement's source pixel, or 0 when none covers it |
| SaveState.DemoIsText | cytrus_memory.cpp:151-152 | the 22 demo bytes are the ASCII of "Cytrus Save State v1.0" |
| SaveState.DecodeEncodeU32 | cytrus_memory.cpp:123-129 | decoding an encoded header word gives the word back |
| SaveState.EncodeDecodeU32 | cytrus_memory.cpp:185-190 | encoding a decoded 4-byte word gives the bytes back |
| SaveState.DecodeU32Injective | cytrus_memory.cpp:191-192 | different 4-byte words decode to different values |
| SaveState.HeaderRoundTrip | cytrus_memory.cpp:116-129 | the 16-byte header decodes to the header that was encoded, whatever follows it |
| SaveState.Image | cytrus_memory.cpp:113-156 | the serialised buffer is the header, then the demo text when 16 + 22 ≤ size, then zeros |
| SaveState.SerializeAsWrittenOverruns | cytrus_memory.cpp:113-156 | the code's own writes stay inside a buffer of size > 0 iff 16 ≤ size ≤ 22 or 38 ≤ size |
| SaveState.Serialize | cytrus_memory.cpp:101-163 | succeeds iff the buffer is non-null, size ≠ 0, the system is powered and 16 ≤ size; then data[..size] == Image(size) and nothing past size changes; on failure nothing changes |
| SaveState.Unserialize | cytrus_memory.cpp:166-226 | acceptance needs a powered system and a present buffer of at least 16 bytes |
| SaveState.UnserializeAccepts | cytrus_memory.cpp:166-200 | accepted iff present, powered, non-empty, at least 16 bytes, magic and version match and header size + 16 == length |
| SaveState.RoundTrip | cytrus_memory.cpp:185-200 | a serialised image of size n is accepted iff n − 16 fits in 32 bits |
| SaveState.UnpoweredRejects | cytrus_memory.cpp:170-171 | nothing is accepted while the system is off |
| SaveState.MagicCorruptionRejected | cytrus_memory.cpp:191-192 | changing any magic byte of an accepted buffer makes it rejected |
| SaveState.SerializeSize | cytrus_memory.cpp:87-98 | the size is the configured maximum, or 0 |
| SaveState.Resized | cytrus_memory.cpp:234 | resizing keeps the old prefix and fills new slots with 0 |
| SaveState.Snapshot.constructor | cytrus_memory.cpp:12-13 | an empty snapshot buffer and a maximum size of 0 |
| SaveState.Snapshot.Init | cytrus_memory.cpp:30-40 | init succeeds and sets the maximum to 64 MiB |
| SaveState.Snapshot.Deinit | cytrus_memory.cpp:42-44 | the snapshot buffer is emptied |
| SaveState.Snapshot.RestoreSnapshot | cytrus_memory.cpp:239-244 | an empty snapshot never restores |
| SaveState.Snapshot.CreateSnapshot | cytrus_memory.cpp:229-236 | succeeds iff powered and the maximum is non-zero; then it holds a 64 MiB image that restores; otherwise the snapshot is unchanged |
| SaveState.RegionIndex | cytrus_memory.cpp:47-64 | only SYSTEM_RAM, VIDEO_RAM and SAVE_RAM map to a region, and always to one of the first three |
| SaveState.RegionIndexInjective | cytrus_memory.cpp:52-60 | distinct memory ids map to distinct regions |
| SaveState.GetData | cytrus_memory.cpp:47-64 | an unknown id has no data |
| SaveState.GetSize | cytrus_memory.cpp:67-84 | an unknown id has size 0 |
| SaveState.SaveRamMapping | cytrus_memory.cpp:22-27 | SAVE_RAM maps to the "DSP RAM" entry, the "Save RAM" entry is unreachable through get_data/get_size (get_region_info(3) still reads it), and the static table gives no data and size 0 |
| SaveState.GetRegionInfo | cytrus_memory.cpp:247-258 | each non-null out-parameter receives the entry's field for id < 4, and null/0 otherwise |
| Input.MaskBit | cytrus_input.cpp:77-87 | mask bit k is set iff some mapping for button 700 + k reads pressed; the mask starts from 0, so no stale bit survives |
| Input.TableRows | cytrus_input.cpp:19-35 | each of bits 0..15 has at most one mapping row in the table, the one RetroFor names |
| Input.TableMask | cytrus_input.cpp:19-35 | with the source's table, bit k is set iff the RetroPad button mapped to 700 + k is pressed |
| Input.Mask | cytrus_input.cpp:77-87 | with no mapped button pressed the mask is 0: it is rebuilt from nothing each poll |
| Input.MaskAsWrittenDefined | cytrus_input.cpp:81-85 | the code's shift loop is defined iff no button with shift ≥ 32 is pressed, and then it equals the corrected mask |
| Input.L2PressIsUndefined | cytrus_input.cpp:28-34 | pressing L2 alone runs the loop into a shift by 73 |
| Input.DeadzoneInward | cytrus_input.cpp:98-107 | a deflection no larger on either axis than one inside the deadzone is also inside it |
| Input.DeadzoneEdge | cytrus_input.cpp:98-107 | (4914, 0) is centred and (4916, 0) is deflected: the threshold is 15% of full scale |
| Input.PointerRange | cytrus_input.cpp:128-131 | the touch coordinate lies in [0, extent] iff the raw value is not −32768; −32767 and 32767 map to 0 and extent |
| Input.PointerMonotone | cytrus_input.cpp:128-131 | the pointer → touch mapping is monotone |
| Input.Aggregator.constructor | cytrus_input.cpp:11-51 | all masks 0, all sticks centred, touch inactive at (0, 0), no polls |
| Input.Aggregator.Init | cytrus_input.cpp:54-63 | init succeeds and clears every mask, every stick and the touch state |
| Input.Aggregator.ReadMask | cytrus_input.cpp:77-87 | the loop's mask equals Mask over the table |
| Input.Aggregator.Poll | cytrus_input.cpp:70-138 | without a poll callback nothing changes; otherwise each player's mask is Mask, each stick is its Reading, the touch is TouchAfter, and the poll count rises by 1 |
| Input.Aggregator.ReadSticks | cytrus_input.cpp:90-117 | one player's two sticks take their readings and every other stick is unchanged |
| Input.Aggregator.ReadTouch | cytrus_input.cpp:120-136 | the touch state becomes TouchAfter: pressed sets active and maps x, y; released clears active and keeps x, y |
| Input.Aggregator.GetButtons | cytrus_input.cpp:141-146 | a player outside 0..3 reads 0 |
| Input.Aggregator.GetAnalog | cytrus_input.cpp:149-158 | a player outside 0..3 or a stick outside 0..1 reads centred |
| Input.Aggregator.GetTouch | cytrus_input.cpp:161-165 | each non-null out-parameter receives the touch state's field |
| Input.Aggregator.ButtonPressed | cytrus_input.cpp:168-173 | a button reads pressed only for a player in 0..3 and an id with a bit in the 16-bit mask (700..715) |
| Input.Aggregator.PressedAfterPoll | cytrus_input.cpp:168-173 | after a poll, button_pressed for a valid player is true iff some table row for that button id reads pressed (ids with no row or no bit below 16 are never pressed) |
| Frontend.Buttons | cytrus_frontend.cpp:104-130 | the mask never has a bit above 11 |
| Frontend.ButtonsBit | cytrus_frontend.cpp:104-130 | flag k is set iff some table entry for bit k reads pressed |
| Frontend.ButtonStateBits | cytrus_frontend.cpp:98-131 | bit k is set iff the callback is attached, k < 12 and the port-0 button for bit k is pressed; no bit ≥ 12 is set |
| Frontend.GetButtonState | cytrus_frontend.cpp:98-131 | 0 without a state callback, and never a bit above 11 |
| Frontend.TouchReportRange | cytrus_frontend.cpp:76-95 | an unpressed report is (false, 0, 0); pressed iff the callback is attached and port 0's pointer is pressed; then x lies in [0, 320] and y in [0, 240] iff the raw value is not −32768 |
| Frontend.TouchAgreesWithAggregator | cytrus_frontend.cpp:76-95 | when pressed, the frontend's touch report equals what the input aggregator stores after a poll |
| Frontend.GetTouchState | cytrus_frontend.cpp:76-95 | a pressed report needs the callback; an unpressed one has x = y = 0 |
| Frontend.GetTouchInto | cytrus_frontend.cpp:209-214 | each non-null out-parameter receives the report's field |
| Frontend.OutputAudio | cytrus_frontend.cpp:58-62 | what is forwarded is a prefix of the samples of even length, short of count by at most one sample |
| Frontend.OutputAudioFrames | cytrus_frontend.cpp:58-62 | the host receives something iff the callback and samples are present; then it is a prefix of the samples holding count/2 whole frames, with an odd last sample dropped |
| Frontend.SourceIndex | cytrus_frontend.cpp:44-50 | every source read (y·pitch + x)·3 + 2 lies inside the source |
| Frontend.Converted | cytrus_frontend.cpp:44-51 | the converted frame has width·height pixels |
| Frontend.ConvertedPixel | cytrus_frontend.cpp:44-51 | pixel y·width + x is 0xFF000000 ∣ r≪16 ∣ g≪8 ∣ b read from source offset (y·pitch + x)·3, pitch counted in pixels |
| Frontend.Presenter.constructor | cytrus_frontend.cpp:30-31 | no buffer (size 0) and no frames |
| Frontend.Presenter.PresentFrame | cytrus_frontend.cpp:27-55 | without callback or data nothing changes; otherwise the buffer size becomes max(old, w·h·4), the first w·h pixels are Converted and one frame of pitch w·4 is sent; the size never decreases, the buffer is the old one unless it grew (then fresh), and the callback flag is kept |
| Frontend.Presenter.Convert | cytrus_frontend.cpp:44-51 | after the loops, the first w·h pixels equal Converted |
| Frontend.Presenter.ConvertRow | cytrus_frontend.cpp:45-50 | one row extends the converted prefix by width pixels |

## Left out

- Audio.ClampVolume, Audio.ApplyVolume, Audio.FloatToInt16: the arithmetic is over exact reals with truncation toward zero; double and float rounding are not modelled, and NaN inputs are not represented (the source's `fmax`/`fmin` turn a NaN volume into 1.0 and a NaN sample into 32767).
- Input.InDeadzone, Input.PointerToScreen, Input.TouchAfter, Frontend.GetTouchState: the deadzone test (`sqrtf` of float squares against 0.15f) is stated exactly over integers, and the touch coordinates (`/ 65534.0f`) exactly over reals; float rounding is not modelled.
- Audio.Batcher.GenerateTestTone: the sine synthesis and phase wrap (cytrus_audio.cpp:169-179) are not modelled; the wave's float samples are a parameter.
- Audio.Batcher.Enqueue: one loop stands for the three chunking loops of process_samples, process_float_samples and generate_silence, and the callers state their streams through it.
- Audio.Batcher.GenerateSilence: `frame_count * CHANNELS` is computed without size_t wrap-around.
- The audio getters (cytrus_audio.cpp:196-206) are reads of the class fields `initialized`, `volume` and `muted`.
- Input.Aggregator.Poll: requires a state callback whenever a poll callback is set, since the source would call a null state callback.
- Input.Aggregator.ReadSticks: outside the deadzone a stick holds its raw axes as `Deflected`; the `sqrtf` rescaling (cytrus_input.cpp:108-115) is float maths and is not modelled.
- Input.Aggregator.GetAnalog: returns the symbolic stick instead of two floats.
- Input.Aggregator.ButtonPressed: for a valid player it requires a button id in 700..731, because ids from 732 on shift an `int` by 32 or more, and ids below 700 make the unsigned `button_id - 700` wrap to a shift near 2³², both undefined in C++.
- Input.Aggregator.IsInitialized: a predicate that is exactly the source's condition (both callbacks attached); it has no further contract.
- The input deinit (cytrus_input.cpp:65-67) and the rumble, update_citra and controller_info functions (cytrus_input.cpp:176-211) are empty stubs or string formatting and are not modelled.
- Frontend.Presenter.PresentFrame: requires width·height·4 < 2³², so the unsigned product in the source does not wrap.
- Video.Compositor.Init, Frontend.Presenter.PresentFrame: allocation always succeeds; a failing malloc is not modelled.
- Video.Compositor.Init: the width and height arguments are ignored, as in the source.
- Video.Compositor.Init: scales 9 and above are refused, following set_resolution_scale's 1..8 range, although the source's init accepts them and sizes the canvas from the table.
- Video.Compositor.Render: the two screen surfaces are parameters. The source only uses all-zero placeholders, covered by Video.PlaceholderFrame.
- Video.Compositor.Blit: the canvas is an array of rows; the byte pitch (4·width) is kept as a field, not used for addressing.
- Frontend.OutputAudioFrames: `count` is taken as the number of samples, as the code uses it, although the source comment says frames.
- The circle-pad and c-stick getters of the frontend (cytrus_frontend.cpp:138-188) and their wrappers use `sqrtf` deadzone maths and are not modelled.
- SaveState.GetData, SaveState.GetSize: the emulator's region pointers are always null; the table is a parameter, and SaveState.REGIONS is the static one.
- cytrus_memory_dump_region (file I/O) and the try/catch paths are not modelled; the modelled code throws nothing.
- SaveState.EncodeU32: the header words are in host order; the model takes a little-endian host.
- libretro_core.cpp and cytrus_libretro_core.cpp (host glue, option parsing, logging) are not part of this model. Nor are the emulator bridge files under Core/.

## Findings

| source | as written | input that shows it | evidently intended | confidence | as-written member | corrected member |
|---|---|---|---|---|---|---|
| cytrus_memory.cpp:125 | `size - sizeof(header)` and the 16-byte header copy run with no check that the buffer holds 16 bytes | serialize with size 15 (writes 16 bytes into 15, header size wraps) | refuse buffers smaller than the header | not executed | SaveState.SerializeAsWrittenOverruns | SaveState.Serialize |
| cytrus_memory.cpp:153 | the demo guard compares `offset + 22 < size`, ignoring the 16 header bytes before `buffer` | serialize with size 23 (demo bytes land at 16..37) | write the demo only when 16 + 22 ≤ size | not executed | SaveState.SerializeAsWrittenOverruns | SaveState.Serialize |
| cytrus_input.cpp:83 | `1 << (id - 700)` for the table ids 773, 774 and 781 shifts an `int` by 73, 74 and 81 | poll with only L2 pressed | skip buttons with no bit in the 16-bit mask | not executed | Input.L2PressIsUndefined | Input.TableMask |
| cytrus_video.cpp:38-39 | init accepts any scale, including 0, while set_resolution_scale accepts only 1..8; the corrected init follows set_resolution_scale's range and so also refuses scales 9 and above, which the source's init accepts and handles | init with scale 0 where malloc(0) returns a pointer, then render_frame | refuse scales outside 1..8 | not executed | Video.ScaleZeroOverflows | Video.Compositor.Init |
