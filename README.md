# Pixelator view state

This is a Dafny model of the view state of mozzaic's `Pixelator` component, the
React component that draws an image or video through a pixelating shader and
exports a three-second clip of it. The model covers the two state machines the
component keeps:

- **Rotation and container aspect ratio.** The "Rotate" button advances a
  quarter-turn counter with JavaScript's `(r + 1) % 4`. The view is sideways
  when the counter is odd. The container that hosts the canvas shows the source's
  intrinsic width/height ratio when upright and its reciprocal when sideways.
  Opening a file resets the counter to 0 straight away. The base ratio changes
  only later, when the media element's load callback fires.
- **Capture bookkeeping.** The record button sets the `isRecording` flag and
  starts a recorder with an empty chunk buffer of its own. Each data event pushes
  its chunk only when the chunk's size is positive. The stop handler clears the
  flag and builds one `video/webm` blob from all buffered chunks, in order, named
  `mozzaic_export_<Date.now()>.webm`.

Files:

- `Rotation.dfy` (module `Rotation`) holds the pure functions. These are
  JavaScript's truncating `%`, the rotate step, `IsSideways` and `DisplayAspect`.
  The file also holds the lemmas about them: the counter stays in 0..3, four
  turns restore it, sideways means odd, one turn inverts the ratio and two turns
  keep it.
- `Capture.dfy` (module `Capture`) holds the pure side of a capture. This covers
  the chunk buffer as a function of the data events, the concatenated blob, the
  decimal timestamp and the export file name. Its lemmas say that no bytes are
  lost when empty chunks are dropped, that order is kept, and that the name has
  its shape, round-trips and is injective.
- `Pixelator.dfy` (module `PixelatorView`) holds two classes:
  - `Pixelator` holds the component state: `rotation`, `baseAspect`, `source`
    and `isRecording`. Its methods are `Rotate`, `BeginLoad`, `SourceLoaded`,
    `StartRecording` and `Stop`.
  - `Recorder` stands for the chunks array that each `startRecording` call
    closes over. Its method is `DataAvailable`.

  Small scenario methods at the end of the file show how the contracts compose.
  One is a 1920×1080 image turned once and then four times. Another is a file
  reopened while turned. Two more cover overlapping captures and a browser that cannot create the recorder.

Browser callbacks become explicit calls. `BeginLoad` is the change handler up to
the point where it waits for the media element. `SourceLoaded` is the
`onload`/`onloadeddata` callback. `Recorder.DataAvailable` is `ondataavailable`.
`Stop` is `onstop`, which the component triggers 3000 ms after the start. The
clock reading `Date.now()` is a parameter `now`. Whether the canvas is mounted is
a parameter `canvasMounted`.

`startRecording` (client/src/components/Pixelator.tsx:166-170) has no guard
against a capture already in progress. It sets the flag and starts another
recorder with its own chunk buffer, so `StartRecording` has no rejection path.
`OverlappingCapturesScenario` shows the result: when the first capture stops, it
clears the flag while the second is still recording. The flag is also set before
the stream and the recorder are created (client/src/components/Pixelator.tsx:169-172).
If the browser cannot record `video/webm` and that creation throws, no stop handler
ever runs and the flag stays set. `StartRecording` models this with its
`recorderStarted` parameter, and `UnsupportedRecorderScenario` shows it.

## Model

| member | source | states |
|---|---|---|
| `Rotation.JsRem` | client/src/components/Pixelator.tsx:276 | JavaScript `%` truncates: the remainder lies in [0, n) for a non-negative dividend and in (-n, 0] for a negative one; its value is fixed by `JsRemOfNonNegative` and `JsRemNegated` |
| `Rotation.JsRemNegated` | client/src/components/Pixelator.tsx:27 | negating the dividend negates the truncating remainder, so a negative dividend's remainder is minus that of its magnitude |
| `Rotation.JsRemOfNonNegative` | client/src/components/Pixelator.tsx:276 | on non-negative counters the truncating remainder equals the mathematical one |
| `Rotation.NextRotation` | client/src/components/Pixelator.tsx:276 | the Rotate update `(r + 1) % 4`; its contract is stated by `NextRotationStep`, `RotatedAdds` and `RotatedInRange` |
| `Rotation.NextRotationStep` | client/src/components/Pixelator.tsx:276 | the Rotate update keeps a counter in {0,1,2,3} and advances it by one, wrapping 3 to 0 |
| `Rotation.ResidueStep` | client/src/components/Pixelator.tsx:276 | adding one to a non-negative counter advances its residue modulo 4, wrapping 3 to 0 |
| `Rotation.RotatedAdds` | client/src/components/Pixelator.tsx:276 | n presses of Rotate from r give (r + n) mod 4 |
| `Rotation.RotatedInRange` | client/src/components/Pixelator.tsx:276 | however often Rotate is pressed, a counter in 0..3 stays in 0..3 |
| `Rotation.FourRotationsRestore` | client/src/components/Pixelator.tsx:276 | four presses of Rotate return the counter to its starting value |
| `Rotation.IsSideways` | client/src/components/Pixelator.tsx:27 | `rotation % 2 !== 0`; its contract is stated by `SidewaysIffOdd` and `RotateFlipsSideways` |
| `Rotation.SidewaysIffOdd` | client/src/components/Pixelator.tsx:27 | `isSideways` holds exactly when the counter is odd, for every integer counter |
| `Rotation.RotateFlipsSideways` | client/src/components/Pixelator.tsx:276 | each press of Rotate switches between upright and sideways |
| `Rotation.DisplayAspect` | client/src/components/Pixelator.tsx:28 | the container ratio; its contract is stated by `DisplayAspectSwapsDimensions`, `RotateInvertsDisplayAspect` and `DisplayAspectAfterPresses` |
| `Rotation.DisplayAspectSwapsDimensions` | client/src/components/Pixelator.tsx:27-28 | for a width×height source the container ratio is width/height at even counters and height/width at odd ones, and it is positive |
| `Rotation.RotateInvertsDisplayAspect` | client/src/components/Pixelator.tsx:28 | one press of Rotate turns the container ratio into its reciprocal |
| `Rotation.TwoRotationsKeepDisplayAspect` | client/src/components/Pixelator.tsx:27-28 | two presses of Rotate leave the container ratio unchanged |
| `Rotation.DisplayAspectAfterPresses` | client/src/components/Pixelator.tsx:27-28 | after n presses the ratio is the original for even n and its reciprocal for odd n, so a full cycle restores it |
| `Rotation.FullHdExample` | client/src/components/Pixelator.tsx:27-28 | a 1920×1080 source shows 1920/1080 upright and 1080/1920 after one Rotate |
| `Capture.Accept` | client/src/components/Pixelator.tsx:176 | the data event's push-iff-non-empty update; its contract is stated by `AcceptExtends` |
| `Capture.AcceptExtends` | client/src/components/Pixelator.tsx:175-177 | a data event keeps the existing buffer as a prefix, grows it by one exactly when the chunk's size is positive, and adds exactly that chunk's bytes |
| `Capture.Buffered` | client/src/components/Pixelator.tsx:173-177 | the buffer after a session's data events; its contract is stated by `BufferedStep`, `BufferedFaithful` and `BufferedMonotone` |
| `Capture.BufferedStep` | client/src/components/Pixelator.tsx:175-177 | the buffer after one more event is the earlier buffer with that event applied |
| `Capture.BufferedFaithful` | client/src/components/Pixelator.tsx:173-177 | starting from the empty list, the buffer holds no empty chunk, holds one chunk per non-empty event, and its bytes equal those of all events in arrival order |
| `Capture.BufferedMonotone` | client/src/components/Pixelator.tsx:175-177 | later events never disturb chunks buffered earlier (the buffer only grows at its end) |
| `Capture.Concat` | client/src/components/Pixelator.tsx:181 | the bytes of `new Blob(chunks)`; its contract is stated by `ConcatAppend`, `ConcatOfEmptyChunks` and `ConcatEmptyIff` |
| `Capture.ConcatAppend` | client/src/components/Pixelator.tsx:181 | the blob of two chunk lists joined is the first blob followed by the second |
| `Capture.ConcatOfEmptyChunks` | client/src/components/Pixelator.tsx:181 | chunks that are all empty make an empty blob |
| `Capture.ConcatEmptyIff` | client/src/components/Pixelator.tsx:181 | the blob is empty exactly when every buffered chunk is empty |
| `Capture.Decimal` | client/src/components/Pixelator.tsx:185 | the timestamp is written as a non-empty string of decimal digits with no leading zero (0 is written as the single digit `0`) |
| `Capture.DecimalRoundTrip` | client/src/components/Pixelator.tsx:185 | reading the decimal timestamp back gives the clock value |
| `Capture.ExportName` | client/src/components/Pixelator.tsx:185 | the download name; its contract is stated by `ExportNameShape` and `ExportNameInjective` |
| `Capture.ExportNameShape` | client/src/components/Pixelator.tsx:185 | the file name starts `mozzaic_export_`, ends `.webm`, and between them holds only the digits of the timestamp |
| `Capture.ExportNameInjective` | client/src/components/Pixelator.tsx:185 | different clock readings give different file names |
| `Capture.Finalize` | client/src/components/Pixelator.tsx:179-186 | the stop handler's artifact has type `video/webm`, the export name for the clock reading, and is empty exactly when every buffered chunk is empty |
| `Capture.SessionArtifact` | client/src/components/Pixelator.tsx:166-190 | a whole session's artifact holds exactly the bytes of its data events in order, and a session without data still yields one empty artifact |
| `PixelatorView.StartsWithVideo` | client/src/components/Pixelator.tsx:145 | `startsWith('video')` as a five-character prefix test is the same as being "video" followed by anything |
| `PixelatorView.KindOf` | client/src/components/Pixelator.tsx:145 | a file opens as a video exactly when its MIME type starts with `video`, otherwise as an image |
| `PixelatorView.Recorder.constructor` | client/src/components/Pixelator.tsx:173 | a capture starts with an empty chunk buffer and no events |
| `PixelatorView.Recorder.DataAvailable` | client/src/components/Pixelator.tsx:175-177 | the chunk is appended iff its size is positive, otherwise the buffer is unchanged; the buffer stays the function of all events so far, and its bytes are all events' bytes |
| `PixelatorView.Pixelator.constructor` | client/src/components/Pixelator.tsx:13-21 | the component mounts with rotation 0, base ratio 1, no source and not recording |
| `PixelatorView.Pixelator.DisplayAspectRatio` | client/src/components/Pixelator.tsx:26-28 | the container ratio is positive; with a source it is width/height at even rotations and height/width at odd ones; with no source it is 1 |
| `PixelatorView.Pixelator.Rotate` | client/src/components/Pixelator.tsx:276 | the counter becomes (old + 1) % 4 and stays in 0..3; the container ratio becomes the reciprocal of the old one; nothing else changes |
| `PixelatorView.Pixelator.BeginLoad` | client/src/components/Pixelator.tsx:138-145 | with a file the rotation resets to 0 at once and the pending element's kind follows the MIME type; with no file nothing changes |
| `PixelatorView.Pixelator.SourceLoaded` | client/src/components/Pixelator.tsx:151-161 | the loaded source becomes current and the base ratio becomes width/height; the rotation (including any turns made during loading) and the recording flag are unchanged |
| `PixelatorView.Pixelator.StartRecording` | client/src/components/Pixelator.tsx:166-173 | with no canvas nothing changes; otherwise the flag is set whatever it was before; a fresh recorder with an empty buffer is returned when the browser creates one, and none (flag still set) when that creation throws |
| `PixelatorView.Pixelator.Stop` | client/src/components/Pixelator.tsx:179-186 | the flag is cleared, and the artifact is the `video/webm` blob of the recorder's buffered chunks in order (equal to all its events' bytes) named `mozzaic_export_<now>.webm` |

## Left out

- WebGL setup, the render loop, the texture upload and the shaders (client/src/components/Pixelator.tsx:52-136). These are GPU calls into `../utils/webgl`, which is not part of this model. The pixelation, quantisation and dithering run in `fragment.glsl`, which is not part of this model either.
- The rotation uniform `rotation * -Math.PI / 2` (client/src/components/Pixelator.tsx:124) is floating-point radians, and its sign convention is not checked.
- FFmpeg loading (client/src/components/Pixelator.tsx:30-50) is network and foreign code, and the component never uses it.
- Object URLs, `<video>` playback and image decoding are left out. So are `captureStream(30)` and `MediaRecorder`, the 3000 ms timer, and the download anchor click. Each is replaced by an explicit call or a parameter: `now` for `Date.now()`, `canvasMounted` for the canvas ref, and `recorderStarted` for whether `captureStream`, `new MediaRecorder` and `mediaRecorder.start()` (client/src/components/Pixelator.tsx:170-172, 189) all succeed. If any of them throws, no data event, stop handler or timer runs, so the model returns no recorder.
- `setImage` is modelled as `source` holding the media kind and intrinsic size. The pixels themselves are not modelled.
- The pixel-size, palette and dither sliders (client/src/components/Pixelator.tsx:293-315) are UI state. They only feed the shader.
- `Rotation.DisplayAspect`: ratios are exact `real`s, whereas the component uses IEEE doubles. Rounding in `w / h` and `1 / base` is not modelled.
- `PixelatorView.Pixelator.SourceLoaded` requires a positive width and height. The code divides without a guard. A zero size would give `Infinity` or `NaN` in JavaScript, and Dafny's `real` has neither.
- The server side is left out. This covers OpenCV resizing, scikit-learn k-means quantisation, the empty palette stub, the optical-flow video pipeline and the HTTP endpoint in server/. None of it is part of the component.
- `Capture.ExportName`: the clock reading `now` is a `nat`, so a negative `Date.now()` (a clock set before 1970), which JavaScript would write as `mozzaic_export_-5.webm`, is not modelled.
