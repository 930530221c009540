/**
 * Capturing the screen through the device shell: the output receiver that
 * collects the bytes `screencap -p` prints, and `captureScreenshotViaShell`,
 * which refuses an empty capture.
 */
module ShellOutput {

  /** Kotlin's signed `Byte`. */
  newtype Byte = b: int | -128 <= b < 128

  /** `ByteArrayOutputStream.write(data, offset, length)` accepts exactly these ranges. */
  predicate InBounds(size: int, offset: int, length: int)
  {
    0 <= offset && 0 <= length && offset + length <= size
  }

  /** The receiver: an append-only byte buffer and a cancellation flag. */
  class ByteArrayOutputReceiver {
    var output: seq<Byte>
    var cancelled: bool

    constructor ()
      ensures output == [] && !cancelled
    {
      output := [];
      cancelled := false;
    }

    /**
     * Appends `data[offset..offset + length]` unless the receiver is cancelled.
     * `outOfBounds` reports the exception `write` throws on a range outside
     * `data`, in which case nothing is appended.
     */
    method AddOutput(data: array<Byte>, offset: int, length: int) returns (outOfBounds: bool)
      modifies this`output
      ensures outOfBounds <==> !cancelled && !InBounds(data.Length, offset, length)
      ensures output == if cancelled || outOfBounds then old(output) else old(output) + data[offset..offset + length]
    {
      outOfBounds := false;
      if !cancelled {
        if !InBounds(data.Length, offset, length) {
          return true;
        }
        output := output + data[offset..offset + length];
      }
    }

    /** There is nothing to flush: the buffer and the flag stay as they are. */
    method Flush()
      ensures output == old(output) && cancelled == old(cancelled)
    {
    }

    method IsCancelled() returns (c: bool)
      ensures c == cancelled
    {
      c := cancelled;
    }

    method Cancel()
      modifies this`cancelled
      ensures cancelled
    {
      cancelled := true;
    }

    /** A fresh copy of everything appended so far, in order. */
    method GetData() returns (data: array<Byte>)
      ensures fresh(data) && data[..] == output
    {
      var bytes := output;
      data := new Byte[|bytes|](i requires 0 <= i < |bytes| => bytes[i]);
    }
  }

  /** One `addOutput(data, offset, length)` call the shell makes. */
  datatype Chunk = Chunk(data: seq<Byte>, offset: int, length: int)

  predicate ValidChunk(c: Chunk)
  {
    InBounds(|c.data|, c.offset, c.length)
  }

  predicate AllValid(chunks: seq<Chunk>)
  {
    forall i :: 0 <= i < |chunks| ==> ValidChunk(chunks[i])
  }

  /** The bytes a sequence of valid chunks carries, in order. */
  function Concat(chunks: seq<Chunk>): seq<Byte>
    requires AllValid(chunks)
  {
    if chunks == [] then []
    else
      var last := chunks[|chunks| - 1];
      Concat(chunks[..|chunks| - 1]) + last.data[last.offset..last.offset + last.length]
  }

  /** How `executeShellCommand` ends once it has delivered its output: normally, or with an exception. */
  datatype ShellEnd = Completed | Fails

  /** What `executeShellCommand("screencap -p", receiver, 10, SECONDS)` does with the receiver. */
  datatype ShellRun = ShellRun(chunks: seq<Chunk>, end: ShellEnd)

  /** The command runs to its end with every chunk in bounds. */
  predicate Completes(run: ShellRun)
  {
    run.end == Completed && AllValid(run.chunks)
  }

  /** The command completes and prints at least one byte. */
  predicate YieldsPng(run: ShellRun)
  {
    Completes(run) && Concat(run.chunks) != []
  }

  /** What `captureScreenshotViaShell` does: return the bytes, return null, or throw. */
  datatype ShellCapture = Png(bytes: seq<Byte>) | NoData | Threw

  /**
   * The shell's side of `executeShellCommand`: it hands every chunk to the
   * receiver in order, and stops at the first chunk the receiver throws on.
   */
  method DeliverOutput(receiver: ByteArrayOutputReceiver, chunks: seq<Chunk>) returns (delivered: bool)
    requires !receiver.cancelled
    modifies receiver`output
    ensures delivered <==> AllValid(chunks)
    ensures delivered ==> receiver.output == old(receiver.output) + Concat(chunks)
  {
    for i := 0 to |chunks|
      invariant AllValid(chunks[..i])
      invariant receiver.output == old(receiver.output) + Concat(chunks[..i])
    {
      var c := chunks[i];
      var buffer := new Byte[|c.data|](j requires 0 <= j < |c.data| => c.data[j]);
      assert buffer[..] == c.data;
      var outOfBounds := receiver.AddOutput(buffer, c.offset, c.length);
      if outOfBounds {
        assert !ValidChunk(chunks[i]);
        return false;
      }
      assert ValidChunk(c) && buffer[c.offset..c.offset + c.length] == c.data[c.offset..c.offset + c.length];
      assert chunks[..i + 1][..i] == chunks[..i] && chunks[..i + 1][i] == c;
      assert AllValid(chunks[..i + 1]);
    }
    assert chunks[..|chunks|] == chunks;
    return true;
  }

  /** `captureScreenshotViaShell`: the bytes `screencap -p` printed, null when it printed none. */
  method CaptureScreenshotViaShell(run: ShellRun) returns (r: ShellCapture)
    ensures r.Png? <==> YieldsPng(run)
    ensures r.Png? ==> |r.bytes| > 0 && r.bytes == Concat(run.chunks)
    ensures r.NoData? <==> Completes(run) && Concat(run.chunks) == []
    ensures r.Threw? <==> !Completes(run)
  {
    var receiver := new ByteArrayOutputReceiver();
    var delivered := DeliverOutput(receiver, run.chunks);
    if !delivered || run.end == Fails {
      return Threw;
    }
    var pngData := receiver.GetData();
    if pngData.Length == 0 {
      return NoData;
    }
    return Png(pngData[..]);
  }
}
