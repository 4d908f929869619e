/** The client's response side: `print_to_file` walks the stream of
    recognition responses and writes, for each one, the lines of its first
    result. Lines are structured records rather than formatted text, and
    the clock reading `time.time() - start_time` taken before writing line
    n (counted from 0 over the whole file) is the opaque value
    `elapsed(n)`. */
module ResponseRenderer {

  /** One recognised word with its start and end offsets in milliseconds. */
  datatype WordInfo = WordInfo(word: string, startTime: real, endTime: real)

  /** One hypothesis for a result: its transcript and its words. */
  datatype Alternative = Alternative(transcript: string, words: seq<WordInfo>)

  /** A recognition result, final or interim, with its alternatives. */
  datatype RecognitionResult = RecognitionResult(isFinal: bool, alternatives: seq<Alternative>)

  /** One message of the response stream. */
  datatype Response = Response(results: seq<RecognitionResult>)

  /** One line of the output file. */
  datatype Line =
    | FinalLine(time: real, index: nat, transcript: string)
    | TimestampsHeader
    | ColumnHeader
    | WordRow(word: string, startMs: real, endMs: real)
    | InterimLine(time: real, transcript: string)

  /** The lines a response writes, and whether writing them raised
      (an `IndexError` from `alternatives[0]` on an empty list). */
  datatype Rendered = Rendered(lines: seq<Line>, raised: bool)

  /** How `print_to_file` ends among the cases modelled: it consumed the
      whole stream, an `IndexError` escaped the loop, or the response stream
      itself raised. Failures to open or write the output file are not
      modelled. */
  datatype Outcome = Completed | IndexError | TransportError

  // ---------------------------------------------------------------------
  // The lines of one response

  /** The transcript lines of a final result, one per alternative, the
      first of them written as line `base` of the file. */
  function FinalLines(alts: seq<Alternative>, base: nat, elapsed: nat -> real): seq<Line>
  {
    seq(|alts|, i requires 0 <= i < |alts| => FinalLine(elapsed(base + i), i, alts[i].transcript))
  }

  /** The timestamp table rows, one per word, in word order. */
  function WordRows(words: seq<WordInfo>): seq<Line>
  {
    seq(|words|, k requires 0 <= k < |words| => WordRow(words[k].word, words[k].startTime, words[k].endTime))
  }

  /** What one response writes when its first line is line `base` of the
      file: nothing without results; otherwise the lines of its first
      result alone (`RenderFinal` and `RenderInterim` state them). */
  function RenderResponse(resp: Response, wordTimeOffsets: bool, base: nat, elapsed: nat -> real): (out: Rendered)
    ensures resp.results == [] ==> out == Rendered([], false)
    ensures |out.lines| == LineCount(resp, wordTimeOffsets)
  {
    if resp.results == [] then Rendered([], false)
    else
      var result := resp.results[0];
      var alts := result.alternatives;
      if result.isFinal then
        var transcripts := FinalLines(alts, base, elapsed);
        if !wordTimeOffsets then Rendered(transcripts, false)
        else if alts == [] then Rendered(transcripts + [TimestampsHeader, ColumnHeader], true)
        else Rendered(transcripts + [TimestampsHeader, ColumnHeader] + WordRows(alts[0].words), false)
      else if alts == [] then Rendered([], true)
      else Rendered([InterimLine(elapsed(base), alts[0].transcript)], false)
  }

  /** The number of lines a response writes, counted from the shape of
      its first result alone: a final result one per alternative, plus the
      two headers and a row per word of alternative 0 with word time
      offsets; an interim result one line if it has an alternative. */
  function LineCount(resp: Response, wordTimeOffsets: bool): nat
  {
    if resp.results == [] then 0
    else
      var alts := resp.results[0].alternatives;
      if resp.results[0].isFinal then
        |alts| + (if wordTimeOffsets then 2 + (if alts == [] then 0 else |alts[0].words|) else 0)
      else if alts == [] then 0 else 1
  }

  /** A final first result writes a transcript line per alternative, with
      indices 0, 1, ... in order, each stamped with the clock of its own
      write; with word time offsets, then the two table headers and a row
      per word of alternative 0 in order, raising after the headers
      exactly when there is no alternative 0. */
  lemma RenderFinal(resp: Response, wordTimeOffsets: bool, base: nat, elapsed: nat -> real)
    requires resp.results != [] && resp.results[0].isFinal
    ensures var out := RenderResponse(resp, wordTimeOffsets, base, elapsed);
      var alts := resp.results[0].alternatives;
      && (forall i :: 0 <= i < |alts| ==> out.lines[i] == FinalLine(elapsed(base + i), i, alts[i].transcript))
      && (wordTimeOffsets ==> out.lines[|alts|] == TimestampsHeader && out.lines[|alts| + 1] == ColumnHeader)
      && (wordTimeOffsets && alts != [] ==> forall k :: 0 <= k < |alts[0].words| ==>
            out.lines[|alts| + 2 + k] == WordRow(alts[0].words[k].word, alts[0].words[k].startTime, alts[0].words[k].endTime))
      && (out.raised <==> wordTimeOffsets && alts == [])
  {
    var alts := resp.results[0].alternatives;
    var out := RenderResponse(resp, wordTimeOffsets, base, elapsed);
    var transcripts := FinalLines(alts, base, elapsed);
    if wordTimeOffsets {
      assert out.lines[..|alts|] == transcripts;
      if alts != [] {
        var rows := WordRows(alts[0].words);
        assert out.lines[|alts| + 2..] == rows;
      }
    }
  }

  /** An interim first result writes exactly one line, stamped with the
      clock of its write and carrying alternative 0's transcript; without
      an alternative it raises and writes nothing. */
  lemma RenderInterim(resp: Response, wordTimeOffsets: bool, base: nat, elapsed: nat -> real)
    requires resp.results != [] && !resp.results[0].isFinal
    ensures var alts := resp.results[0].alternatives;
      RenderResponse(resp, wordTimeOffsets, base, elapsed) ==
        if alts == [] then Rendered([], true)
        else Rendered([InterimLine(elapsed(base), alts[0].transcript)], false)
  {
  }

  // ---------------------------------------------------------------------
  // The lines of a response stream

  /** The whole file for a response stream: the responses' lines in
      order, each response starting where the previous one ended, up to
      and including the response that raises. */
  function RenderAll(rs: seq<Response>, wordTimeOffsets: bool, elapsed: nat -> real): Rendered
    decreases |rs|
  {
    if rs == [] then Rendered([], false)
    else
      var before := RenderAll(rs[..|rs| - 1], wordTimeOffsets, elapsed);
      if before.raised then before
      else
        var last := RenderResponse(rs[|rs| - 1], wordTimeOffsets, |before.lines|, elapsed);
        Rendered(before.lines + last.lines, last.raised)
  }

  /** Total lines of a response stream, response by response. */
  function TotalLines(rs: seq<Response>, wordTimeOffsets: bool): nat
    decreases |rs|
  {
    if rs == [] then 0 else TotalLines(rs[..|rs| - 1], wordTimeOffsets) + LineCount(rs[|rs| - 1], wordTimeOffsets)
  }

  /** The responses that carry at least one result, in order. */
  function WithResults(rs: seq<Response>): (ws: seq<Response>)
    ensures forall i :: 0 <= i < |ws| ==> ws[i].results != []
    ensures |ws| <= |rs|
    decreases |rs|
  {
    if rs == [] then []
    else
      var kept := WithResults(rs[..|rs| - 1]);
      if rs[|rs| - 1].results == [] then kept else kept + [rs[|rs| - 1]]
  }

  /** The file grows response by response: the file for any prefix of the
      stream is a prefix of the whole file, and once a response has raised
      nothing more is written. */
  lemma {:induction false} RenderAllPrefix(rs: seq<Response>, k: nat, wordTimeOffsets: bool, elapsed: nat -> real)
    requires k <= |rs|
    ensures RenderAll(rs[..k], wordTimeOffsets, elapsed).lines <= RenderAll(rs, wordTimeOffsets, elapsed).lines
    ensures RenderAll(rs[..k], wordTimeOffsets, elapsed).raised ==>
      RenderAll(rs, wordTimeOffsets, elapsed) == RenderAll(rs[..k], wordTimeOffsets, elapsed)
    decreases |rs|
  {
    if k == |rs| {
      assert rs[..k] == rs;
    } else {
      var init := rs[..|rs| - 1];
      RenderAllPrefix(init, k, wordTimeOffsets, elapsed);
      assert init[..k] == rs[..k];
    }
  }

  /** A stream that renders without raising writes, in all, the number of
      lines `LineCount` gives for each response. */
  lemma {:induction false} RenderAllLength(rs: seq<Response>, wordTimeOffsets: bool, elapsed: nat -> real)
    ensures !RenderAll(rs, wordTimeOffsets, elapsed).raised ==>
      |RenderAll(rs, wordTimeOffsets, elapsed).lines| == TotalLines(rs, wordTimeOffsets)
    decreases |rs|
  {
    if rs != [] {
      RenderAllLength(rs[..|rs| - 1], wordTimeOffsets, elapsed);
    }
  }

  /** Responses without results write nothing and cannot raise: the file
      is the same once they are dropped from the stream. */
  lemma {:induction false} RenderAllSkipsEmpty(rs: seq<Response>, wordTimeOffsets: bool, elapsed: nat -> real)
    ensures RenderAll(rs, wordTimeOffsets, elapsed) == RenderAll(WithResults(rs), wordTimeOffsets, elapsed)
    decreases |rs|
  {
    if rs != [] {
      var init := rs[..|rs| - 1];
      var last := rs[|rs| - 1];
      var kept := WithResults(init);
      RenderAllSkipsEmpty(init, wordTimeOffsets, elapsed);
      var before := RenderAll(init, wordTimeOffsets, elapsed);
      if last.results == [] {
        assert before.lines + [] == before.lines;
      } else {
        assert (kept + [last])[..|kept|] == kept;
        assert (kept + [last])[|kept|] == last;
      }
    }
  }

  /** Whether a line carries a clock reading. */
  predicate Stamped(l: Line)
  {
    l.FinalLine? || l.InterimLine?
  }

  /** Within one response, a stamped line n carries `elapsed(base + n)`. */
  lemma ResponseTimes(resp: Response, wordTimeOffsets: bool, base: nat, elapsed: nat -> real)
    ensures var ls := RenderResponse(resp, wordTimeOffsets, base, elapsed).lines;
      forall n :: 0 <= n < |ls| && Stamped(ls[n]) ==> ls[n].time == elapsed(base + n)
  {
    if resp.results != [] {
      if resp.results[0].isFinal {
        RenderFinal(resp, wordTimeOffsets, base, elapsed);
      } else {
        RenderInterim(resp, wordTimeOffsets, base, elapsed);
      }
    }
  }

  /** Every transcript line of the file carries the clock reading taken
      just before it was written: line n carries `elapsed(n)`. */
  lemma {:induction false} RenderAllTimes(rs: seq<Response>, wordTimeOffsets: bool, elapsed: nat -> real)
    ensures var ls := RenderAll(rs, wordTimeOffsets, elapsed).lines;
      forall n :: 0 <= n < |ls| && Stamped(ls[n]) ==> ls[n].time == elapsed(n)
    decreases |rs|
  {
    if rs != [] {
      var init := rs[..|rs| - 1];
      var before := RenderAll(init, wordTimeOffsets, elapsed);
      RenderAllTimes(init, wordTimeOffsets, elapsed);
      if !before.raised {
        var m := |before.lines|;
        var last := RenderResponse(rs[|rs| - 1], wordTimeOffsets, m, elapsed);
        ResponseTimes(rs[|rs| - 1], wordTimeOffsets, m, elapsed);
        var ls := before.lines + last.lines;
        forall n | 0 <= n < |ls| && Stamped(ls[n]) ensures ls[n].time == elapsed(n) {
          if n >= m {
            assert ls[n] == last.lines[n - m];
          }
        }
      }
    }
  }

  // ---------------------------------------------------------------------
  // The writer

  /** The output file opened for writing: the lines written so far. */
  class OutputFile {
    var lines: seq<Line>

    /** `open(output_file, "w")` starts from an empty file. */
    constructor Create()
      ensures lines == []
    {
      lines := [];
    }

    /** `f.write` appends one line. */
    method Write(l: Line)
      modifies this
      ensures lines == old(lines) + [l]
    {
      lines := lines + [l];
    }
  }

  /** The loop over a final result's alternatives: one transcript line
      per alternative, numbered from 0. */
  method WriteTranscripts(f: OutputFile, alts: seq<Alternative>, elapsed: nat -> real)
    modifies f
    ensures f.lines == old(f.lines) + FinalLines(alts, |old(f.lines)|, elapsed)
  {
    ghost var transcripts := FinalLines(alts, |f.lines|, elapsed);
    for index := 0 to |alts|
      invariant f.lines == old(f.lines) + transcripts[..index]
    {
      f.Write(FinalLine(elapsed(|f.lines|), index, alts[index].transcript));
      assert transcripts[..index + 1] == transcripts[..index] + [transcripts[index]];
    }
    assert transcripts[..|alts|] == transcripts;
  }

  /** The loop over alternative 0's words: one table row per word. */
  method WriteWordRows(f: OutputFile, words: seq<WordInfo>)
    modifies f
    ensures f.lines == old(f.lines) + WordRows(words)
  {
    ghost var rows := WordRows(words);
    for k := 0 to |words|
      invariant f.lines == old(f.lines) + rows[..k]
    {
      f.Write(WordRow(words[k].word, words[k].startTime, words[k].endTime));
      assert rows[..k + 1] == rows[..k] + [rows[k]];
    }
    assert rows[..|words|] == rows;
  }

  /** The body of the response loop for one response: skip it without
      results, otherwise write the lines of its first result, stopping
      where `alternatives[0]` raises. */
  method WriteResponse(f: OutputFile, resp: Response, wordTimeOffsets: bool, elapsed: nat -> real)
    returns (raised: bool)
    modifies f
    ensures var r := RenderResponse(resp, wordTimeOffsets, |old(f.lines)|, elapsed);
      f.lines == old(f.lines) + r.lines && raised == r.raised
  {
    ghost var base := |f.lines|;
    raised := false;
    if resp.results == [] {
      return;
    }
    var result := resp.results[0];
    var alts := result.alternatives;
    if result.isFinal {
      WriteTranscripts(f, alts, elapsed);
      if wordTimeOffsets {
        f.Write(TimestampsHeader);
        f.Write(ColumnHeader);
        if alts == [] {
          raised := true;
          return;
        }
        WriteWordRows(f, alts[0].words);
      }
    } else {
      if alts == [] {
        raised := true;
        return;
      }
      f.Write(InterimLine(elapsed(|f.lines|), alts[0].transcript));
    }
  }

  /** `print_to_file`: renders the response stream into a fresh file.
      `maxAlternatives` is accepted and not used. `streamFailed` says the
      response stream raises after the responses given. Returns the file's
      lines and how the call ended. */
  method PrintToFile(responses: seq<Response>, maxAlternatives: int, wordTimeOffsets: bool,
                     elapsed: nat -> real, streamFailed: bool)
    returns (lines: seq<Line>, outcome: Outcome)
    ensures var r := RenderAll(responses, wordTimeOffsets, elapsed);
      && lines == r.lines
      && outcome == if r.raised then IndexError else if streamFailed then TransportError else Completed
  {
    var f := new OutputFile.Create();
    outcome := Completed;
    var i := 0;
    while i < |responses|
      invariant 0 <= i <= |responses|
      invariant f.lines == RenderAll(responses[..i], wordTimeOffsets, elapsed).lines
      invariant !RenderAll(responses[..i], wordTimeOffsets, elapsed).raised
    {
      assert responses[..i + 1][..i] == responses[..i];
      var raised := WriteResponse(f, responses[i], wordTimeOffsets, elapsed);
      if raised {
        RenderAllPrefix(responses, i + 1, wordTimeOffsets, elapsed);
        outcome := IndexError;
        lines := f.lines;
        return;
      }
      i := i + 1;
    }
    assert responses[..i] == responses;
    if streamFailed {
      outcome := TransportError;
    }
    lines := f.lines;
  }
}
