/**
 * The view state of the Pixelator component: the rotation counter, the
 * source's intrinsic aspect ratio and the current source, the "recording"
 * flag, and one recorder per capture with the chunk buffer its data events
 * fill.
 *
 * Browser callbacks become explicit method calls: `BeginLoad` is the file
 * input's change handler up to the point where it waits for the media
 * element, `SourceLoaded` is that element's `onload` / `onloadeddata`
 * callback, `StartRecording` is the record button, `Recorder.DataAvailable`
 * is the recorder's data event and `Stop` its stop handler, which the
 * component schedules 3000 ms after the start.
 */
module PixelatorView {
  import opened Rotation
  import opened Capture

  datatype Option<T> = None | Some(value: T)

  /** Which media element a file is opened with. */
  datatype MediaKind = Image | Video

  /** A loaded source and its intrinsic size (`naturalWidth` x
      `naturalHeight` for an image, `videoWidth` x `videoHeight` for a video). */
  datatype Source = Source(kind: MediaKind, width: nat, height: nat)

  /** `mimeType.startsWith('video')`, stated as a prefix test on the
      first five characters and, equivalently, as a decomposition. */
  lemma StartsWithVideo(mimeType: string)
    ensures (|mimeType| >= 5 && mimeType[..5] == "video") <==> exists rest :: mimeType == "video" + rest
  {
    if |mimeType| >= 5 && mimeType[..5] == "video" {
      assert mimeType == "video" + mimeType[5..];
    }
    if exists rest :: mimeType == "video" + rest {
      var rest :| mimeType == "video" + rest;
      assert mimeType[..5] == "video";
    }
  }

  /** A file whose MIME type starts with `video` opens as a video, any other
      file as an image. */
  function KindOf(mimeType: string): (k: MediaKind)
    ensures k == Video <==> exists rest :: mimeType == "video" + rest
  {
    StartsWithVideo(mimeType);
    if |mimeType| >= 5 && mimeType[..5] == "video" then Video else Image
  }

  /** One capture: the buffer of chunks handed over by the recorder's data
      events.  `events` records every data event, empty ones included. */
  class Recorder {
    var chunks: seq<Chunk>
    ghost var events: seq<Chunk>

    ghost predicate Valid()
      reads this
    {
      chunks == Buffered(events)
    }

    /** A capture opens with an empty buffer. */
    constructor ()
      ensures Valid() && events == [] && chunks == []
    {
      chunks := [];
      events := [];
    }

    /** The data event: a chunk of positive size is pushed onto the buffer,
        an empty chunk is ignored. */
    method DataAvailable(chunk: Chunk)
      requires Valid()
      modifies this
      ensures Valid() && events == old(events) + [chunk]
      ensures chunks == Accept(old(chunks), chunk)
      ensures Concat(chunks) == Concat(events)
    {
      BufferedStep(events, chunk);
      BufferedFaithful(events + [chunk]);
      if |chunk| > 0 {
        chunks := chunks + [chunk];
      }
      events := events + [chunk];
    }
  }

  /** The component's state. */
  class Pixelator {
    var rotation: int
    var baseAspect: real
    var source: Option<Source>
    var isRecording: bool

    /** The counter is one of the four quarter turns, and the base ratio is
        positive: 1 before anything loads, the loaded source's width / height
        after. */
    ghost predicate Valid()
      reads this
    {
      && 0 <= rotation < 4
      && baseAspect > 0.0
      && (source.None? ==> baseAspect == 1.0)
      && (source.Some? ==>
            && source.value.width > 0 && source.value.height > 0
            && baseAspect == source.value.width as real / source.value.height as real)
    }

    /** The container's aspect ratio for the current state. */
    function DisplayAspectRatio(): (a: real)
      reads this
      requires Valid()
      ensures a > 0.0
      ensures source.Some? ==>
                a == if rotation % 2 == 1 then source.value.height as real / source.value.width as real
                     else source.value.width as real / source.value.height as real
      ensures source.None? ==> a == 1.0
    {
      SidewaysIffOdd(rotation);
      if source.Some? then
        DisplayAspectSwapsDimensions(source.value.width as real, source.value.height as real, rotation);
        DisplayAspect(baseAspect, rotation)
      else
        DisplayAspect(baseAspect, rotation)
    }

    /** The component mounts upright, with ratio 1, no source and no capture. */
    constructor ()
      ensures Valid()
      ensures rotation == 0 && baseAspect == 1.0 && source == None && !isRecording
    {
      rotation := 0;
      baseAspect := 1.0;
      source := None;
      isRecording := false;
    }

    /** The "Rotate" button: one more quarter turn, modulo 4; the container's
        ratio becomes the reciprocal of what it was. */
    method Rotate()
      requires Valid()
      modifies this`rotation
      ensures Valid()
      ensures rotation == NextRotation(old(rotation))
      ensures rotation == if old(rotation) == 3 then 0 else old(rotation) + 1
      ensures DisplayAspectRatio() == 1.0 / old(DisplayAspectRatio())
    {
      NextRotationStep(rotation);
      RotateInvertsDisplayAspect(baseAspect, rotation);
      rotation := NextRotation(rotation);
    }

    /** The file input's change handler, up to the point where it waits for
        the media element.  `file` is the MIME type of the chosen file, if
        any.  With a file, the rotation goes back to 0 at once, before the
        source has loaded; the result says which element then waits for its
        data.  With no file nothing happens. */
    method BeginLoad(file: Option<string>) returns (pending: Option<MediaKind>)
      requires Valid()
      modifies this`rotation
      ensures Valid()
      ensures file.None? ==> rotation == old(rotation) && pending == None
      ensures file.Some? ==> rotation == 0 && pending == Some(KindOf(file.value))
    {
      if file.Some? {
        rotation := 0;
        pending := Some(KindOf(file.value));
      } else {
        pending := None;
      }
    }

    /** The media element's load callback: the source becomes current and the
        base ratio becomes its intrinsic width / height.  The rotation is left
        as it is, including any turns made while the source was loading. */
    method SourceLoaded(kind: MediaKind, width: nat, height: nat)
      requires Valid()
      requires width > 0 && height > 0
      modifies this`source, this`baseAspect
      ensures Valid()
      ensures source == Some(Source(kind, width, height))
      ensures baseAspect == width as real / height as real
      ensures rotation == old(rotation) && isRecording == old(isRecording)
    {
      source := Some(Source(kind, width, height));
      baseAspect := width as real / height as real;
    }

    /** The record button.  With no canvas mounted nothing happens.
        Otherwise the flag is set, whatever it was before (there is no check
        for a capture already in progress), and only then are the stream and
        the recorder created and started.  `recorderStarted` says whether the
        browser managed all three: if it did, a new recorder starts with an
        empty buffer of its own; if any of them threw, there is no running
        recorder, so no stop handler will ever clear the flag, and it stays
        set. */
    method StartRecording(canvasMounted: bool, recorderStarted: bool) returns (rec: Recorder?)
      requires Valid()
      modifies this`isRecording
      ensures Valid()
      ensures !canvasMounted ==> rec == null && isRecording == old(isRecording)
      ensures canvasMounted ==> isRecording
      ensures canvasMounted && !recorderStarted ==> rec == null
      ensures canvasMounted && recorderStarted ==> rec != null && fresh(rec)
      ensures canvasMounted && recorderStarted ==> rec.Valid() && rec.events == [] && rec.chunks == []
    {
      if !canvasMounted {
        return null;
      }
      isRecording := true;
      if !recorderStarted {
        return null;
      }
      rec := new Recorder();
    }

    /** A recorder's stop handler, at clock reading `now`: the flag is cleared
        and one `video/webm` artifact is built from all the chunks that
        recorder buffered, in order, named `mozzaic_export_<now>.webm`. */
    method Stop(rec: Recorder, now: nat) returns (artifact: Artifact)
      requires Valid() && rec.Valid()
      modifies this`isRecording
      ensures Valid() && !isRecording
      ensures artifact == Finalize(rec.chunks, now)
      ensures artifact.data == Concat(rec.events)
      ensures artifact.fileName == ExportName(now)
    {
      isRecording := false;
      BufferedFaithful(rec.events);
      artifact := Finalize(rec.chunks, now);
    }
  }

  /** A 1920 x 1080 image, opened and turned: the container shows 1920/1080,
      then 1080/1920 after one turn, and 1920/1080 again after four. */
  method LoadAndRotateScenario()
  {
    var view := new Pixelator();
    var pending := view.BeginLoad(Some("image/png"));
    assert "image/png"[..5] == "image";
    assert pending == Some(Image);
    view.SourceLoaded(Image, 1920, 1080);
    assert view.DisplayAspectRatio() == 1920.0 / 1080.0;
    view.Rotate();
    assert view.DisplayAspectRatio() == 1080.0 / 1920.0;
    view.Rotate();
    view.Rotate();
    view.Rotate();
    assert view.rotation == 0;
    assert view.DisplayAspectRatio() == 1920.0 / 1080.0;
  }

  /** Opening a new file resets the rotation before the source arrives, and
      turns made while it loads survive the load. */
  method ReopenScenario()
  {
    var view := new Pixelator();
    view.Rotate();
    var pending := view.BeginLoad(Some("video/webm"));
    assert "video/webm" == "video" + "/webm";
    assert pending == Some(Video) && view.rotation == 0;
    view.Rotate();
    view.SourceLoaded(Video, 640, 480);
    assert view.rotation == 1;
    assert view.DisplayAspectRatio() == 480.0 / 640.0;
  }

  /** Two captures started back to back: each keeps its own buffer, and the
      first one to stop clears the flag while the second is still running. */
  method OverlappingCapturesScenario(a: Chunk, b: Chunk, now: nat)
    requires |a| > 0 && |b| > 0
  {
    var view := new Pixelator();
    var first := view.StartRecording(true, true);
    var second := view.StartRecording(true, true);
    assert view.isRecording;
    first.DataAvailable(a);
    assert first.chunks == [a];
    second.DataAvailable([]);
    second.DataAvailable(b);
    assert second.chunks == [b];
    var artifact := view.Stop(first, now);
    assert !view.isRecording;
    assert [a][..0] == [];
    assert artifact.data == Concat([a]) == a;
  }

  /** A browser that cannot record `video/webm`: the flag is set before the
      recorder is created, and with no recorder nothing ever clears it. */
  method UnsupportedRecorderScenario()
  {
    var view := new Pixelator();
    var rec := view.StartRecording(true, false);
    assert rec == null && view.isRecording;
  }
}
