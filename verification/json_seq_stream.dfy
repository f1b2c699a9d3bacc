/** The frontend's reader of `application/json-seq` responses (the `jsonSeqProcessor` shared by the
    results and metrics activities): decoded chunks are appended to a buffer, the buffer is split on
    the record separator, and every non-empty part completed so far is handed to the callback. */
module JsonSeqStream {
  import opened Strings
  import opened Values
  import HttpHelpers

  /** One `reader.read()` result, its bytes already decoded to text. */
  datatype Chunk = Chunk(text: string, done: bool)

  /** The texts of the chunks, in stream order. */
  function Texts(chunks: seq<Chunk>): string
  {
    if |chunks| == 0 then "" else Texts(chunks[..|chunks| - 1]) + chunks[|chunks| - 1].text
  }

  lemma TextsSnoc(chunks: seq<Chunk>, n: nat)
    requires n < |chunks|
    ensures Texts(chunks[..n + 1]) == Texts(chunks[..n]) + chunks[n].text
  {
    assert chunks[..n + 1][..n] == chunks[..n];
  }

  /** The parts of all callback calls, in order. */
  function Flatten(batches: seq<seq<string>>): seq<string>
  {
    if |batches| == 0 then [] else Flatten(batches[..|batches| - 1]) + batches[|batches| - 1]
  }

  /** All parts but the last. */
  function Init(parts: seq<string>): seq<string>
    requires |parts| > 0
  {
    parts[..|parts| - 1]
  }

  function Last(parts: seq<string>): string
    requires |parts| > 0
  {
    parts[|parts| - 1]
  }

  /** One processor per response. `destroyed` stands for the widget's flag that its end of life
      sets; `batches` records the arguments of the callback calls. */
  class Processor {
    var buffer: string
    var destroyed: bool
    var ended: bool
    var batches: seq<seq<string>>
    ghost var received: string

    /** The parts delivered so far are the non-empty parts of everything received, except the last
        part while the stream is still open, which is the buffer. */
    ghost predicate Valid()
      reads this
    {
      Consistent(received, ended, buffer, batches)
    }

    constructor()
      ensures Valid() && buffer == "" && !destroyed && !ended && batches == [] && received == ""
    {
      buffer := "";
      destroyed := false;
      ended := false;
      batches := [];
      received := "";
    }

    /** The widget's end of life: later chunks are discarded. */
    method Destroy()
      modifies this
      ensures destroyed
      ensures buffer == old(buffer) && ended == old(ended) && batches == old(batches) && received == old(received)
    {
      destroyed := true;
    }

    /** `processChunk(chunk)`: `readMore` says whether another `reader.read()` follows. */
    method ProcessChunk(chunk: Chunk) returns (readMore: bool)
      requires Valid() && !ended
      modifies this
      ensures Valid()
      ensures old(destroyed) ==> !readMore && unchanged(this)
      ensures !old(destroyed) ==>
                readMore == !chunk.done && ended == chunk.done && !destroyed &&
                received == old(received) + chunk.text &&
                batches == old(batches) + [Batch(old(buffer), chunk)] &&
                buffer == Rest(old(buffer), chunk)
    {
      if destroyed {
        return false;
      }
      StepConsistent(received, buffer, batches, chunk);
      Advance(chunk);
      readMore := !chunk.done;
    }

    /** Appending a chunk's text to the buffer, splitting on RS and calling the callback. */
    method Advance(chunk: Chunk)
      modifies this
      ensures ended == chunk.done && destroyed == old(destroyed) &&
              received == old(received) + chunk.text &&
              batches == old(batches) + [Batch(old(buffer), chunk)] &&
              buffer == Rest(old(buffer), chunk)
    {
      received := received + chunk.text;
      batches := batches + [Batch(buffer, chunk)];
      buffer := Rest(buffer, chunk);
      ended := chunk.done;
    }

    /** Reading a whole response: chunks are processed until one is done or the processor is
        destroyed. Afterwards, unless destroyed, the callback has run once per chunk and has been
        given exactly the non-empty RS-separated parts of the response text. */
    method ReadAll(chunks: seq<Chunk>) returns (processed: nat)
      requires Valid() && !ended && received == "" && batches == []
      requires |chunks| > 0 && chunks[|chunks| - 1].done
      requires forall i | 0 <= i < |chunks| - 1 :: !chunks[i].done
      modifies this
      ensures Valid()
      ensures old(destroyed) ==> processed == 0 && batches == [] && !ended
      ensures !old(destroyed) ==>
                processed == |chunks| && |batches| == |chunks| && ended &&
                received == Texts(chunks) &&
                Flatten(batches) == NonEmpty(Split(Texts(chunks), [HttpHelpers.RS]))
    {
      processed := 0;
      var readMore := true;
      while readMore
        invariant Valid() && processed <= |chunks|
        invariant destroyed == old(destroyed)
        invariant old(destroyed) ==> processed == 0 && batches == [] && !ended
        invariant !old(destroyed) ==>
                    |batches| == processed && received == Texts(chunks[..processed]) &&
                    (ended <==> !readMore) && (readMore ==> processed < |chunks|) &&
                    (!readMore ==> processed == |chunks|)
        decreases |chunks| - processed, readMore
      {
        var discarded := destroyed;
        readMore := ProcessChunk(chunks[processed]);
        if !discarded {
          TextsSnoc(chunks, processed);
          processed := processed + 1;
        }
      }
      if !old(destroyed) {
        assert chunks[..processed] == chunks;
      }
    }
  }

  /** What the processor has delivered agrees with what it has received: the non-empty parts of
      everything received, except the last part while the stream is still open, which is the
      buffer. */
  ghost predicate Consistent(received: string, ended: bool, buffer: string, batches: seq<seq<string>>)
  {
    var parts := Split(received, [HttpHelpers.RS]);
    if ended then Flatten(batches) == NonEmpty(parts)
    else Last(parts) == buffer && Flatten(batches) == NonEmpty(Init(parts))
  }

  /** What one chunk hands to the callback: the non-empty parts of the buffer and the chunk's text,
      without the last part unless the stream is done. */
  function Batch(buffer: string, chunk: Chunk): (texts: seq<string>)
    ensures forall i | 0 <= i < |texts| :: |texts[i]| > 0 && !Contains(texts[i], HttpHelpers.RS)
  {
    var parts := Split(buffer + chunk.text, [HttpHelpers.RS]);
    SplitPartsFree(buffer + chunk.text, HttpHelpers.RS);
    NonEmpty(if chunk.done then parts else Init(parts))
  }

  /** The buffer after one chunk: the last part while the stream goes on, unchanged at its end. */
  function Rest(buffer: string, chunk: Chunk): string
  {
    if chunk.done then buffer else Last(Split(buffer + chunk.text, [HttpHelpers.RS]))
  }

  /** One processed chunk keeps the processor consistent. */
  lemma StepConsistent(received: string, buffer: string, batches: seq<seq<string>>, chunk: Chunk)
    requires Consistent(received, false, buffer, batches)
    ensures Consistent(received + chunk.text, chunk.done, Rest(buffer, chunk), batches + [Batch(buffer, chunk)])
  {
    var parts := Split(buffer + chunk.text, [HttpHelpers.RS]);
    var before := Split(received, [HttpHelpers.RS]);
    SplitAppend(received, chunk.text, HttpHelpers.RS);
    assert Split(received + chunk.text, [HttpHelpers.RS]) == Init(before) + parts;
    FlattenSnoc(batches, NonEmpty(if chunk.done then parts else Init(parts)));
    if chunk.done {
      NonEmptyAppend(Init(before), parts);
    } else {
      assert Init(Init(before) + parts) == Init(before) + Init(parts);
      NonEmptyAppend(Init(before), Init(parts));
    }
  }

  lemma FlattenSnoc(batches: seq<seq<string>>, b: seq<string>)
    ensures Flatten(batches + [b]) == Flatten(batches) + b
  {
    assert (batches + [b])[..|batches|] == batches;
  }

  // ---------------------------------------------------------------------------------------------
  // Round trip with the server's JSON-sequence writer

  /** The records the reader should see: each written JSON text with its newline, in order. */
  function Records(texts: seq<Option<string>>): seq<string>
  {
    if |texts| == 0 then []
    else
      var n := |texts| - 1;
      Records(texts[..n]) + (if texts[n].Some? then [texts[n].value + "\n"] else [])
  }

  /** An RS-free line followed by RS, appended to a text whose last part is empty, becomes one more
      part, and the last part is empty again. */
  lemma AppendLine(a: string, line: string)
    requires Last(Split(a, [HttpHelpers.RS])) == ""
    requires !Contains(line, HttpHelpers.RS)
    ensures Split(a + (line + [HttpHelpers.RS]), [HttpHelpers.RS]) == Init(Split(a, [HttpHelpers.RS])) + [line, ""]
  {
    var rs := HttpHelpers.RS;
    var piece := line + [rs];
    SplitAppend(a, piece, rs);
    assert Last(Split(a, [rs])) + piece == line + [rs] + "";
    SplitPrefix(line, "", rs);
    assert Split("", [rs]) == [""];
  }

  /** Appending one written record to a text whose last RS-separated part is empty adds that
      record's text and newline as one more non-empty part, and the last part stays empty. */
  lemma AppendRecord(a: string, t: Option<string>)
    requires Last(Split(a, [HttpHelpers.RS])) == ""
    requires t.Some? ==> !Contains(t.value, HttpHelpers.RS)
    ensures var b := a + (if t.Some? then t.value + "\n" + [HttpHelpers.RS] else "");
            NonEmpty(Split(b, [HttpHelpers.RS])) ==
              NonEmpty(Split(a, [HttpHelpers.RS])) + (if t.Some? then [t.value + "\n"] else []) &&
            Last(Split(b, [HttpHelpers.RS])) == ""
  {
    if t.Some? {
      var line := t.value + "\n";
      NewlineNoRS(t.value);
      AppendLineParts(a, line);
      assert t.value + "\n" + [HttpHelpers.RS] == line + [HttpHelpers.RS];
    } else {
      assert a + "" == a;
    }
  }

  /** One more RS-terminated non-empty line is one more non-empty part. */
  lemma AppendLineParts(a: string, line: string)
    requires Last(Split(a, [HttpHelpers.RS])) == ""
    requires !Contains(line, HttpHelpers.RS) && |line| > 0
    ensures NonEmpty(Split(a + (line + [HttpHelpers.RS]), [HttpHelpers.RS])) ==
              NonEmpty(Split(a, [HttpHelpers.RS])) + [line]
    ensures Last(Split(a + (line + [HttpHelpers.RS]), [HttpHelpers.RS])) == ""
  {
    var pa := Split(a, [HttpHelpers.RS]);
    assert pa == Init(pa) + [""];
    NonEmptyAppend(Init(pa), [""]);
    AppendLine(a, line);
    NonEmptyAppend(Init(pa), [line, ""]);
    assert NonEmpty([line, ""]) == [line];
  }

  /** A text without an RS still has none once its newline is added. */
  lemma NewlineNoRS(text: string)
    requires !Contains(text, HttpHelpers.RS)
    ensures !Contains(text + "\n", HttpHelpers.RS)
  {
    var line := text + "\n";
    forall j | 0 <= j < |line| ensures line[j] != HttpHelpers.RS {
      if j < |text| { assert line[j] == text[j]; }
    }
  }

  /** For record texts without an RS, the non-empty RS-separated parts of a written body are
      exactly the records, and the body's last part is empty. */
  lemma {:induction false} SeqBodyParts(texts: seq<Option<string>>)
    requires forall i | 0 <= i < |texts| :: texts[i].Some? ==> !Contains(texts[i].value, HttpHelpers.RS)
    ensures NonEmpty(Split(HttpHelpers.SeqBody(texts), [HttpHelpers.RS])) == Records(texts)
    ensures |texts| > 0 ==> Last(Split(HttpHelpers.SeqBody(texts), [HttpHelpers.RS])) == ""
  {
    var rs := HttpHelpers.RS;
    if |texts| == 0 {
      assert Split("", [rs]) == [""];
    } else {
      var n := |texts| - 1;
      var init, t := texts[..n], texts[n];
      assert texts == init + [t];
      HttpHelpers.SeqBodySnoc(init, t);
      if |init| == 0 {
        SplitPrefix("", "", rs);
        assert [rs] == "" + [rs] + "";
        assert Split("", [rs]) == [""];
        assert Split([rs], [rs]) == ["", ""];
        AppendRecord([rs], t);
      } else {
        SeqBodyParts(init);
        AppendRecord(HttpHelpers.SeqBody(init), t);
      }
    }
  }

  /** Whatever the chunking, reading a JSON-sequence body written from values hands the callback
      exactly the JSON texts of the values, each followed by its newline. */
  lemma JsonSeqRoundTrip(vs: seq<Value>, chunks: seq<Chunk>)
    requires Texts(chunks) == HttpHelpers.SeqBody(seq(|vs|, i requires 0 <= i < |vs| => Json(vs[i])))
    ensures NonEmpty(Split(Texts(chunks), [HttpHelpers.RS])) == Records(seq(|vs|, i requires 0 <= i < |vs| => Json(vs[i])))
  {
    var texts := seq(|vs|, i requires 0 <= i < |vs| => Json(vs[i]));
    forall i | 0 <= i < |texts| && texts[i].Some? ensures !Contains(texts[i].value, HttpHelpers.RS) {
      JsonPrintable(vs[i]);
    }
    SeqBodyParts(texts);
  }
}
