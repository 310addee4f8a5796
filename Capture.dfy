/**
 * The bookkeeping of one capture of the drawing surface: the buffer of
 * encoded chunks the recorder hands over, and the single downloadable
 * artifact built from it when the recorder stops.
 *
 * Chunks are byte strings; a chunk's `size` is its length.  The artifact's
 * bytes are those of all buffered chunks, in order, and its file name is
 * `mozzaic_export_<timestamp>.webm`, the timestamp being the millisecond
 * clock reading written in decimal.
 */
module Capture {

  newtype byte = x: int | 0 <= x < 256

  /** One encoded piece of the stream, as delivered by a data event. */
  type Chunk = seq<byte>

  const WebmMime: string := "video/webm"
  const ExportPrefix: string := "mozzaic_export_"
  const ExportSuffix: string := ".webm"

  /** The file produced when a capture stops. */
  datatype Artifact = Artifact(data: seq<byte>, mimeType: string, fileName: string)

  // ---------------------------------------------------------------------------
  // The chunk buffer
  // ---------------------------------------------------------------------------

  /** The bytes of a list of chunks laid end to end (what a blob built from
      the list contains). */
  function Concat(chunks: seq<Chunk>): (bytes: seq<byte>)
  {
    if chunks == [] then [] else Concat(chunks[..|chunks| - 1]) + chunks[|chunks| - 1]
  }

  /** Concatenation distributes over joining two lists of chunks. */
  lemma {:induction false} ConcatAppend(a: seq<Chunk>, b: seq<Chunk>)
    ensures Concat(a + b) == Concat(a) + Concat(b)
  {
    if b == [] {
      assert a + b == a;
    } else {
      ConcatAppend(a, b[..|b| - 1]);
      assert (a + b)[..|a + b| - 1] == a + b[..|b| - 1];
    }
  }

  /** A list whose chunks are all empty contributes no bytes. */
  lemma {:induction false} ConcatOfEmptyChunks(chunks: seq<Chunk>)
    requires forall i :: 0 <= i < |chunks| ==> chunks[i] == []
    ensures Concat(chunks) == []
  {
    if chunks != [] {
      ConcatOfEmptyChunks(chunks[..|chunks| - 1]);
    }
  }

  /** The data event: a chunk goes to the end of the buffer when its size is
      positive, and an empty one is dropped. */
  function Accept(buffer: seq<Chunk>, chunk: Chunk): (buffer': seq<Chunk>)
  {
    if |chunk| > 0 then buffer + [chunk] else buffer
  }

  /** One data event keeps the chunks already buffered, in their order, as a
      prefix, adds at most the new chunk, and adds exactly the new chunk's
      bytes to the buffer's contents. */
  lemma AcceptExtends(buffer: seq<Chunk>, chunk: Chunk)
    ensures buffer <= Accept(buffer, chunk)
    ensures |Accept(buffer, chunk)| == |buffer| + (if |chunk| > 0 then 1 else 0)
    ensures Concat(Accept(buffer, chunk)) == Concat(buffer) + chunk
  {
    if |chunk| > 0 {
      assert (buffer + [chunk])[..|buffer|] == buffer;
    }
  }

  /** The buffer after a session's data events, starting from the empty
      buffer the capture opens with. */
  function Buffered(events: seq<Chunk>): (buffer: seq<Chunk>)
  {
    if events == [] then [] else Accept(Buffered(events[..|events| - 1]), events[|events| - 1])
  }

  /** One more data event acts on the buffer left by the earlier ones. */
  lemma BufferedStep(events: seq<Chunk>, chunk: Chunk)
    ensures Buffered(events + [chunk]) == Accept(Buffered(events), chunk)
  {
    assert (events + [chunk])[..|events|] == events;
  }

  /** The number of events that carried data. */
  function NonEmptyCount(events: seq<Chunk>): (n: nat)
  {
    if events == [] then 0
    else NonEmptyCount(events[..|events| - 1]) + (if |events[|events| - 1]| > 0 then 1 else 0)
  }

  /** The buffer holds no empty chunk, holds one chunk per event that carried
      data, and its bytes are exactly the bytes of all events in the order
      they arrived: dropping empty chunks loses nothing. */
  lemma {:induction false} BufferedFaithful(events: seq<Chunk>)
    ensures forall i :: 0 <= i < |Buffered(events)| ==> |Buffered(events)[i]| > 0
    ensures |Buffered(events)| == NonEmptyCount(events)
    ensures Concat(Buffered(events)) == Concat(events)
  {
    if events != [] {
      var init, last := events[..|events| - 1], events[|events| - 1];
      BufferedFaithful(init);
      AcceptExtends(Buffered(init), last);
    }
  }

  /** A later event never disturbs the chunks buffered by earlier ones. */
  lemma {:induction false} BufferedMonotone(events: seq<Chunk>, more: seq<Chunk>)
    ensures Buffered(events) <= Buffered(events + more)
  {
    if more == [] {
      assert events + more == events;
    } else {
      var init := more[..|more| - 1];
      BufferedMonotone(events, init);
      assert (events + more)[..|events + more| - 1] == events + init;
      AcceptExtends(Buffered(events + init), more[|more| - 1]);
    }
  }

  // ---------------------------------------------------------------------------
  // The export file name
  // ---------------------------------------------------------------------------

  function DigitChar(d: nat): (c: char)
    requires d < 10
    ensures '0' <= c <= '9'
  {
    '0' + (d as char)
  }

  /** The decimal notation JavaScript gives a non-negative integer: digits
      only, most significant first, no leading zero. */
  function Decimal(n: nat): (s: string)
    ensures |s| > 0
    ensures forall i :: 0 <= i < |s| ==> '0' <= s[i] <= '9'
    ensures s[0] == '0' ==> n == 0 && |s| == 1
  {
    if n < 10 then [DigitChar(n)] else Decimal(n / 10) + [DigitChar(n % 10)]
  }

  /** The value of a string of decimal digits. */
  function DecimalValue(s: string): (n: nat)
    requires forall i :: 0 <= i < |s| ==> '0' <= s[i] <= '9'
  {
    if s == [] then 0
    else 10 * DecimalValue(s[..|s| - 1]) + (s[|s| - 1] - '0') as nat
  }

  /** Reading the decimal notation back gives the number written. */
  lemma {:induction false} DecimalRoundTrip(n: nat)
    ensures DecimalValue(Decimal(n)) == n
  {
    if n >= 10 {
      DecimalRoundTrip(n / 10);
      var s := Decimal(n);
      assert s[..|s| - 1] == Decimal(n / 10);
    }
  }

  /** The download name for a capture finalized at clock reading `now`. */
  function ExportName(now: nat): (name: string)
  {
    ExportPrefix + Decimal(now) + ExportSuffix
  }

  /** The name begins `mozzaic_export_`, ends `.webm`, and between them holds
      only the digits of the timestamp. */
  lemma ExportNameShape(now: nat)
    ensures |ExportName(now)| > |ExportPrefix| + |ExportSuffix|
    ensures ExportName(now)[..|ExportPrefix|] == ExportPrefix
    ensures ExportName(now)[|ExportName(now)| - |ExportSuffix|..] == ExportSuffix
    ensures var middle := ExportName(now)[|ExportPrefix|..|ExportName(now)| - |ExportSuffix|];
            (forall i :: 0 <= i < |middle| ==> '0' <= middle[i] <= '9') && DecimalValue(middle) == now
  {
    var name := ExportName(now);
    assert name[..|ExportPrefix|] == ExportPrefix;
    assert name[|name| - |ExportSuffix|..] == ExportSuffix;
    assert name[|ExportPrefix|..|name| - |ExportSuffix|] == Decimal(now);
    DecimalRoundTrip(now);
  }

  /** Captures finalized at different clock readings get different names. */
  lemma ExportNameInjective(t1: nat, t2: nat)
    requires ExportName(t1) == ExportName(t2)
    ensures t1 == t2
  {
    ExportNameShape(t1);
    ExportNameShape(t2);
  }

  /** The stop handler's artifact: one `video/webm` blob of all buffered
      chunks in order, under the export name for `now`. */
  function Finalize(buffer: seq<Chunk>, now: nat): (a: Artifact)
    ensures a.mimeType == WebmMime
    ensures a.fileName == ExportName(now)
    ensures |a.data| == 0 <==> forall i :: 0 <= i < |buffer| ==> buffer[i] == []
  {
    ConcatEmptyIff(buffer);
    Artifact(Concat(buffer), WebmMime, ExportName(now))
  }

  /** The blob is empty exactly when every buffered chunk is. */
  lemma {:induction false} ConcatEmptyIff(buffer: seq<Chunk>)
    ensures |Concat(buffer)| == 0 <==> forall i :: 0 <= i < |buffer| ==> buffer[i] == []
  {
    if buffer != [] {
      ConcatEmptyIff(buffer[..|buffer| - 1]);
      var init := buffer[..|buffer| - 1];
      if |Concat(buffer)| == 0 {
        forall i | 0 <= i < |buffer| ensures buffer[i] == [] {
          if i < |buffer| - 1 {
            assert buffer[i] == init[i];
          }
        }
      } else {
        if forall i :: 0 <= i < |buffer| ==> buffer[i] == [] {
          ConcatOfEmptyChunks(buffer);
        }
      }
    }
  }

  /** The artifact of a whole session holds exactly the bytes of its data
      events, in order; a session whose events carried no data still yields
      one (empty) artifact. */
  lemma SessionArtifact(events: seq<Chunk>, now: nat)
    ensures Finalize(Buffered(events), now).data == Concat(events)
    ensures Finalize(Buffered(events), now).fileName == ExportName(now)
    ensures NonEmptyCount(events) == 0 ==> Finalize(Buffered(events), now).data == []
  {
    BufferedFaithful(events);
  }
}
