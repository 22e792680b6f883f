/** The newline-delimited message framing of the Model Context Protocol stdio transport. */
module McpFraming {
  import opened Common

  type Byte = b: int | 0 <= b < 256
  type Line = seq<Byte>

  const LF: Byte := 10
  const CR: Byte := 13

  /** Decoding of one line's text, left to UTF-8 and JSON: what is blank, what is an HTTP-style header, what parses. */
  datatype Codec<!M> = Codec(
    isBlank: Line -> bool, isContentLengthHeader: Line -> bool, parse: Line -> Option<M>, render: M -> Line)

  datatype FramingError = TooLong | EmptyLine | HeaderLine | NotJson

  // ----- specification -----

  function StripCR(raw: Line): Line {
    if raw != [] && raw[|raw| - 1] == CR then raw[..|raw| - 1] else raw
  }

  function ParseLine<M>(codec: Codec<M>, max: nat, raw: Line): Result<M, FramingError> {
    var line := StripCR(raw);
    if |line| > max then Err(TooLong)
    else if codec.isBlank(line) then Err(EmptyLine)
    else if codec.isContentLengthHeader(line) then Err(HeaderLine)
    else match codec.parse(line)
      case Some(m) => Ok(m)
      case None => Err(NotJson)
  }

  function IndexOfLF(s: Line): (i: nat)
    ensures i <= |s| && LF !in s[..i] && (i < |s| ==> s[i] == LF)
  {
    if s == [] || s[0] == LF then 0 else
    var i := 1 + IndexOfLF(s[1..]);
    assert s[..i] == [s[0]] + s[1..][..i - 1];
    i
  }

  /**
    What draining a buffer does: the outcome and the bytes left. A JSON error keeps the rest, every other error drops
    it.
  */
  function Drained<M>(codec: Codec<M>, max: nat, s: Line): (Result<seq<M>, FramingError>, Line)
    decreases |s|
  {
    var i := IndexOfLF(s);
    if i == |s| then
      if |s| > max then (Err(TooLong), []) else (Ok([]), s)
    else
      match ParseLine(codec, max, s[..i])
      case Err(e) => (Err(e), if e.NotJson? then s[i + 1..] else [])
      case Ok(m) =>
        var (rest, left) := Drained(codec, max, s[i + 1..]);
        (if rest.Ok? then Ok([m] + rest.value) else rest, left)
  }

  function Flushed<M>(codec: Codec<M>, max: nat, buffer: Line): Result<seq<M>, FramingError> {
    if buffer == [] then Ok([]) else
    match ParseLine(codec, max, buffer)
    case Ok(m) => Ok([m])
    case Err(e) => Err(e)
  }

  /** Feeding chunks one by one and flushing at the end, stopping at the first error. */
  function Feed<M>(codec: Codec<M>, max: nat, buffer: Line, chunks: seq<Line>): Result<seq<M>, FramingError>
    decreases |chunks|
  {
    if chunks == [] then Flushed(codec, max, buffer) else
    var (now, left) := Drained(codec, max, buffer + chunks[0]);
    if now.Err? then now else
    var later := Feed(codec, max, left, chunks[1..]);
    if later.Err? then later else Ok(now.value + later.value)
  }

  function Join(chunks: seq<Line>): Line {
    if chunks == [] then [] else chunks[0] + Join(chunks[1..])
  }

  /** The raw lines of a stream: the terminated ones and, if non-empty, the last. */
  function RawLines(s: Line): seq<Line>
    decreases |s|
  {
    if s == [] then [] else
    var i := IndexOfLF(s);
    if i == |s| then [s] else [s[..i]] + RawLines(s[i + 1..])
  }

  predicate LineParses<M>(codec: Codec<M>, max: nat, raw: Line) {
    ParseLine(codec, max, raw).Ok?
  }

  predicate AllParse<M>(codec: Codec<M>, max: nat, lines: seq<Line>) {
    forall raw :: raw in lines ==> LineParses(codec, max, raw)
  }

  predicate AllFit(max: nat, lines: seq<Line>) {
    forall raw :: raw in lines ==> |raw| <= max
  }

  function Messages<M>(codec: Codec<M>, max: nat, lines: seq<Line>): seq<M>
    requires AllParse(codec, max, lines)
  {
    if lines == [] then [] else
    assert lines[0] in lines && LineParses(codec, max, lines[0]);
    [ParseLine(codec, max, lines[0]).value] + Messages(codec, max, lines[1..])
  }

  // ----- the buffer object -----

  class McpMessageBuffer<M> {
    var buffer: Line
    const maxFrameBytes: nat
    const codec: Codec<M>

    constructor (codec: Codec<M>, maxFrameBytes: nat)
      ensures buffer == [] && this.codec == codec && this.maxFrameBytes == maxFrameBytes
    {
      buffer := [];
      this.codec, this.maxFrameBytes := codec, maxFrameBytes;
    }

    method Reset()
      modifies this
      ensures buffer == []
    {
      buffer := [];
    }

    method ParseRawLine(rawLine: Line) returns (r: Result<M, FramingError>)
      modifies this
      ensures r == ParseLine(codec, maxFrameBytes, rawLine)
      ensures buffer == if r.Err? && !r.error.NotJson? then [] else old(buffer)
    {
      var line := if rawLine != [] && rawLine[|rawLine| - 1] == CR then rawLine[..|rawLine| - 1] else rawLine;
      if |line| > maxFrameBytes {
        Reset();
        return Err(TooLong);
      }
      if codec.isBlank(line) {
        Reset();
        return Err(EmptyLine);
      }
      if codec.isContentLengthHeader(line) {
        Reset();
        return Err(HeaderLine);
      }
      var parsed := codec.parse(line);
      return match parsed case Some(m) => Ok(m) case None => Err(NotJson);
    }

    method DrainDelimitedLines() returns (r: Result<seq<M>, FramingError>)
      modifies this
      ensures (r, buffer) == Drained(codec, maxFrameBytes, old(buffer))
      ensures r.Ok? ==> LF !in buffer && |buffer| <= maxFrameBytes
    {
      var messages: seq<M> := [];
      ghost var target := Drained(codec, maxFrameBytes, buffer);
      assert target.0.Ok? ==> messages + target.0.value == target.0.value;
      while true
        invariant var (rest, left) := Drained(codec, maxFrameBytes, buffer);
                  target == (if rest.Ok? then Ok(messages + rest.value) else rest, left)
        decreases |buffer|
      {
        var newline := IndexOfLF(buffer);
        if newline == |buffer| {
          break;
        }
        var line := buffer[..newline];
        buffer := buffer[newline + 1..];
        ghost var (rest, left) := Drained(codec, maxFrameBytes, buffer);
        var parsed := ParseRawLine(line);
        if parsed.Err? {
          return Err(parsed.error);
        }
        if rest.Ok? {
          assert messages + ([parsed.value] + rest.value) == (messages + [parsed.value]) + rest.value;
        }
        messages := messages + [parsed.value];
      }
      assert buffer[..|buffer|] == buffer;
      if |buffer| > maxFrameBytes {
        Reset();
        return Err(TooLong);
      }
      assert messages + [] == messages;
      return Ok(messages);
    }

    /** After a normal append the buffer is one unterminated line that fits. */
    method Append(chunk: Line) returns (r: Result<seq<M>, FramingError>)
      modifies this
      ensures (r, buffer) == Drained(codec, maxFrameBytes, old(buffer) + chunk)
      ensures r.Ok? ==> LF !in buffer && |buffer| <= maxFrameBytes
    {
      buffer := buffer + chunk;
      r := DrainDelimitedLines();
    }

    method Flush() returns (r: Result<seq<M>, FramingError>)
      modifies this
      ensures r == Flushed(codec, maxFrameBytes, old(buffer)) && buffer == []
    {
      if |buffer| == 0 {
        return Ok([]);
      }
      var line := buffer;
      buffer := [];
      var parsed := ParseRawLine(line);
      return match parsed case Ok(m) => Ok([m]) case Err(e) => Err(e);
    }
  }

  // ----- one line -----

  /** With or without a CR at its end: too long, blank, a header, a message, or none of them. */
  lemma {:induction false} LineOutcomes<M>(codec: Codec<M>, max: nat, line: Line, raw: Line)
    requires raw == line + [CR] || (raw == line && (line == [] || line[|line| - 1] != CR))
    ensures var r := ParseLine(codec, max, raw);
            && (r == Err(TooLong) <==> |line| > max)
            && (r == Err(EmptyLine) <==> |line| <= max && codec.isBlank(line))
            && (r == Err(HeaderLine) <==>
                |line| <= max && !codec.isBlank(line) && codec.isContentLengthHeader(line))
            && (forall m :: r == Ok(m) <==>
                  |line| <= max && !codec.isBlank(line) && !codec.isContentLengthHeader(line) &&
                  codec.parse(line) == Some(m))
  {
    assert StripCR(raw) == line;
  }

  // ----- splitting a stream into chunks does not matter -----

  lemma {:induction false} FirstLF(i: nat, s: Line)
    requires i <= |s| && LF !in s[..i] && (i < |s| ==> s[i] == LF)
    ensures IndexOfLF(s) == i
    decreases i
  {
    if 0 < i {
      assert s[0] == s[..i][0] && s[0] in s[..i];
      assert forall x :: x in s[1..][..i - 1] ==> x in s[..i];
      FirstLF(i - 1, s[1..]);
    }
  }

  /** One terminated line at the front of a buffer, whatever follows. */
  lemma {:induction false} DrainOneLine(raw: Line, rest: Line)
    requires LF !in raw
    ensures IndexOfLF(raw + [LF] + rest) == |raw|
    ensures (raw + [LF] + rest)[..|raw|] == raw && (raw + [LF] + rest)[|raw| + 1..] == rest
  {
    var s := raw + [LF] + rest;
    assert s[..|raw|] == raw;
    FirstLF(|raw|, s);
  }

  lemma {:induction false} SplitAtLF(s: Line)
    requires IndexOfLF(s) < |s|
    ensures s == s[..IndexOfLF(s)] + [LF] + s[IndexOfLF(s) + 1..]
  {
  }

  /** Draining a buffer that starts with a terminated line: its message first, or its error. */
  lemma {:induction false} DrainFront<M>(codec: Codec<M>, max: nat, raw: Line, rest: Line)
    requires LF !in raw
    ensures Drained(codec, max, raw + [LF] + rest) ==
            match ParseLine(codec, max, raw)
            case Err(e) => (Err(e), if e.NotJson? then rest else [])
            case Ok(m) =>
              var (later, end) := Drained(codec, max, rest);
              (if later.Ok? then Ok([m] + later.value) else later, end)
  {
    DrainOneLine(raw, rest);
  }

  /** What a drained buffer leaves, followed by more bytes, drains to what the whole would. */
  lemma {:induction false} DrainThenMore<M>(codec: Codec<M>, max: nat, s: Line, more: Line)
    requires Drained(codec, max, s).0.Ok?
    ensures var (now, left) := Drained(codec, max, s);
            var (later, end) := Drained(codec, max, left + more);
            Drained(codec, max, s + more) == (if later.Ok? then Ok(now.value + later.value) else later, end)
    decreases |s|
  {
    var i := IndexOfLF(s);
    if i < |s| {
      SplitAtLF(s);
      var raw, rest := s[..i], s[i + 1..];
      ConcatAssociative(raw + [LF], rest, more);
      hide Drained, ParseLine;
      DrainFront(codec, max, raw, rest);
      DrainFront(codec, max, raw, rest + more);
      DrainThenMore(codec, max, rest, more);
      var (now, left) := Drained(codec, max, rest);
      var (later, end) := Drained(codec, max, left + more);
      if later.Ok? {
        ConcatAssociative([ParseLine(codec, max, raw).value], now.value, later.value);
      }
    } else {
      var (later, end) := Drained(codec, max, s + more);
      if later.Ok? {
        assert [] + later.value == later.value;
      }
    }
  }

  lemma {:induction false} GoodCons<M>(codec: Codec<M>, max: nat, raw: Line, lines: seq<Line>)
    ensures AllParse(codec, max, [raw] + lines) <==> LineParses(codec, max, raw) && AllParse(codec, max, lines)
    ensures AllFit(max, [raw] + lines) <==> |raw| <= max && AllFit(max, lines)
    ensures AllParse(codec, max, [raw] + lines) ==>
              Messages(codec, max, [raw] + lines) == [ParseLine(codec, max, raw).value] + Messages(codec, max, lines)
  {
    var all := [raw] + lines;
    assert all[0] == raw && all[1..] == lines && raw in all;
    assert forall x :: x in all <==> x == raw || x in lines;
  }

  lemma {:induction false} RawLinesOneLine(raw: Line, rest: Line)
    requires LF !in raw
    ensures RawLines(raw + [LF] + rest) == [raw] + RawLines(rest)
  {
    DrainOneLine(raw, rest);
  }

  lemma {:induction false} LastLine<M>(codec: Codec<M>, max: nat, raw: Line)
    requires LF !in raw
    ensures IndexOfLF(raw) == |raw|
    ensures RawLines(raw) == if raw == [] then [] else [raw]
    ensures AllParse(codec, max, RawLines(raw)) ==>
              Flushed(codec, max, raw) == Ok(Messages(codec, max, RawLines(raw)))
  {
    assert raw[..|raw|] == raw;
    FirstLF(|raw|, raw);
    if raw != [] {
      GoodCons(codec, max, raw, []);
      assert [raw] + [] == [raw];
      if LineParses(codec, max, raw) {
        assert [ParseLine(codec, max, raw).value] + [] == [ParseLine(codec, max, raw).value];
      }
    }
  }

  /** A stream whose lines fit and parse drains to their messages and leaves its last, unterminated line. */
  lemma {:induction false} DrainGoodStream<M>(codec: Codec<M>, max: nat, s: Line)
    requires AllParse(codec, max, RawLines(s)) && AllFit(max, RawLines(s))
    ensures var (now, left) := Drained(codec, max, s);
            now.Ok? && Flushed(codec, max, left).Ok? &&
            now.value + Flushed(codec, max, left).value == Messages(codec, max, RawLines(s))
    decreases |s|
  {
    var i := IndexOfLF(s);
    if i < |s| {
      GoodCons(codec, max, s[..i], RawLines(s[i + 1..]));
      DrainGoodStream(codec, max, s[i + 1..]);
      var (now, left) := Drained(codec, max, s[i + 1..]);
      ConcatAssociative([ParseLine(codec, max, s[..i]).value], now.value, Flushed(codec, max, left).value);
    } else {
      assert s[..i] == s;
      LastLine(codec, max, s);
      if s != [] {
        assert s in RawLines(s);
      }
    }
  }

  lemma {:induction false} CutInFirstLine(s: Line, more: Line)
    requires LF !in s && s + more != []
    ensures |s| <= IndexOfLF(s + more)
    ensures RawLines(s + more) != [] && |s| <= |RawLines(s + more)[0]|
  {
    forall j | 0 <= j < |s| ensures (s + more)[j] != LF {
      assert s[j] in s;
    }
  }

  lemma {:induction false} CutLineFits<M>(codec: Codec<M>, max: nat, s: Line, more: Line)
    requires LF !in s && AllFit(max, RawLines(s + more))
    ensures Drained(codec, max, s) == (Ok([]), s)
  {
    LastLine(codec, max, s);
    if s != [] {
      CutInFirstLine(s, more);
      assert RawLines(s + more)[0] in RawLines(s + more);
    }
  }

  lemma {:induction false} GoodTail<M>(codec: Codec<M>, max: nat, s: Line, more: Line)
    requires AllParse(codec, max, RawLines(s + more)) && AllFit(max, RawLines(s + more)) && IndexOfLF(s) < |s|
    ensures var i := IndexOfLF(s);
            && LineParses(codec, max, s[..i])
            && AllParse(codec, max, RawLines(s[i + 1..] + more)) && AllFit(max, RawLines(s[i + 1..] + more))
  {
    var raw, rest := s[..IndexOfLF(s)], s[IndexOfLF(s) + 1..];
    SplitAtLF(s);
    assert s + more == raw + [LF] + (rest + more);
    RawLinesOneLine(raw, rest + more);
    GoodCons(codec, max, raw, RawLines(rest + more));
  }

  /** Draining a prefix of a good stream succeeds, and what it leaves continues as a good stream. */
  lemma {:induction false} DrainGoodPrefix<M>(codec: Codec<M>, max: nat, s: Line, more: Line)
    requires AllParse(codec, max, RawLines(s + more)) && AllFit(max, RawLines(s + more))
    ensures Drained(codec, max, s).0.Ok?
    ensures var left := Drained(codec, max, s).1;
            AllParse(codec, max, RawLines(left + more)) && AllFit(max, RawLines(left + more))
    decreases |s|
  {
    var i := IndexOfLF(s);
    if i < |s| {
      GoodTail(codec, max, s, more);
      DrainGoodPrefix(codec, max, s[i + 1..], more);
    } else {
      assert s[..i] == s;
      CutLineFits(codec, max, s, more);
    }
  }

  /** Chunk invariance: every way of cutting a good stream gives its messages, in order. */
  lemma {:induction false} FeedIsChunkInvariant<M>(codec: Codec<M>, max: nat, buffer: Line, chunks: seq<Line>)
    requires var lines := RawLines(buffer + Join(chunks)); AllParse(codec, max, lines) && AllFit(max, lines)
    requires LF !in buffer
    ensures Feed(codec, max, buffer, chunks) == Ok(Messages(codec, max, RawLines(buffer + Join(chunks))))
    decreases |chunks|
  {
    if chunks == [] {
      assert buffer + [] == buffer;
      LastLine(codec, max, buffer);
    } else {
      var s, more := buffer + chunks[0], Join(chunks[1..]);
      ConcatAssociative(buffer, chunks[0], more);
      DrainGoodPrefix(codec, max, s, more);
      var (now, left) := Drained(codec, max, s);
      DrainedLeavesLine(codec, max, s);
      FeedIsChunkInvariant(codec, max, left, chunks[1..]);
      MessagesAcrossCut(codec, max, s, more);
    }
  }

  lemma {:induction false} MessagesAcrossCut<M>(codec: Codec<M>, max: nat, s: Line, more: Line)
    requires AllParse(codec, max, RawLines(s + more)) && AllFit(max, RawLines(s + more))
    requires Drained(codec, max, s).0.Ok?
    requires var left := Drained(codec, max, s).1;
             AllParse(codec, max, RawLines(left + more)) && AllFit(max, RawLines(left + more))
    ensures var (now, left) := Drained(codec, max, s);
            now.value + Messages(codec, max, RawLines(left + more)) == Messages(codec, max, RawLines(s + more))
  {
    var (now, left) := Drained(codec, max, s);
    var (later, end) := Drained(codec, max, left + more);
    DrainGoodStream(codec, max, left + more);
    DrainGoodStream(codec, max, s + more);
    DrainThenMore(codec, max, s, more);
    ConcatAssociative(now.value, later.value, Flushed(codec, max, end).value);
  }

  lemma {:induction false} DrainedLeavesLine<M>(codec: Codec<M>, max: nat, s: Line)
    requires Drained(codec, max, s).0.Ok?
    ensures LF !in Drained(codec, max, s).1 && |Drained(codec, max, s).1| <= max
    decreases |s|
  {
    var i := IndexOfLF(s);
    if i < |s| {
      DrainedLeavesLine(codec, max, s[i + 1..]);
    } else {
      assert s[..i] == s;
    }
  }

  lemma {:induction false} DrainCons<M>(codec: Codec<M>, max: nat, raw: Line, rest: Line)
    requires LF !in raw && LineParses(codec, max, raw) && Drained(codec, max, rest).0.Err?
    ensures Drained(codec, max, raw + [LF] + rest).0 == Drained(codec, max, rest).0
  {
    DrainOneLine(raw, rest);
  }

  lemma {:induction false} UnterminatedLine<M>(codec: Codec<M>, max: nat, raw: Line)
    requires LF !in raw
    ensures |raw| > max ==> Drained(codec, max, raw).0 == Err(TooLong)
    ensures |raw| <= max ==> AllFit(max, RawLines(raw))
  {
    LastLine(codec, max, raw);
  }

  lemma {:induction false} FailsLater<M>(codec: Codec<M>, max: nat, raw: Line, rest: Line, k: nat)
    requires LF !in raw && LineParses(codec, max, raw)
    requires k <= |rest| && Drained(codec, max, rest[..k]).0 == Err(TooLong)
    ensures Drained(codec, max, (raw + [LF] + rest)[..|raw| + 1 + k]).0 == Err(TooLong)
  {
    assert (raw + [LF] + rest)[..|raw| + 1 + k] == raw + [LF] + rest[..k];
    DrainCons(codec, max, raw, rest[..k]);
  }

  lemma {:induction false} WholeLine(max: nat, s: Line)
    requires !AllFit(max, RawLines(s)) && IndexOfLF(s) <= max
    ensures IndexOfLF(s) < |s|
  {
  }

  lemma {:induction false} LongerLineIsLater<M>(codec: Codec<M>, max: nat, s: Line)
    requires AllParse(codec, max, RawLines(s)) && !AllFit(max, RawLines(s)) && IndexOfLF(s) <= max
    ensures var i := IndexOfLF(s);
            && i < |s| && LineParses(codec, max, s[..i])
            && AllParse(codec, max, RawLines(s[i + 1..])) && !AllFit(max, RawLines(s[i + 1..]))
  {
    var i := IndexOfLF(s);
    WholeLine(max, s);
    assert RawLines(s) == [s[..i]] + RawLines(s[i + 1..]);
    hide AllParse, AllFit, LineParses, RawLines, IndexOfLF;
    GoodCons(codec, max, s[..i], RawLines(s[i + 1..]));
  }

  /**
    A stream whose lines parse, one of them longer raw than the limit, can be cut inside that line so that it fails.
  */
  lemma {:induction false} LongRawLineFailsPrefix<M>(codec: Codec<M>, max: nat, s: Line) returns (k: nat)
    requires AllParse(codec, max, RawLines(s)) && !AllFit(max, RawLines(s))
    ensures k <= |s| && Drained(codec, max, s[..k]).0 == Err(TooLong)
    decreases |s|
  {
    hide Drained, AllParse, AllFit, RawLines, LineParses;
    var i := IndexOfLF(s);
    if i > max {
      UnterminatedLine(codec, max, s[..i]);
      k := i;
    } else {
      LongerLineIsLater(codec, max, s);
      k := LongRawLineFailsPrefix(codec, max, s[i + 1..]);
      SplitAtLF(s);
      FailsLater(codec, max, s[..i], s[i + 1..], k);
      k := i + 1 + k;
    }
  }

  /** For a stream whose lines all parse: every cut into chunks gives its messages iff every raw line fits. */
  lemma {:induction false} ChunkInvarianceIff<M>(codec: Codec<M>, max: nat, s: Line)
    requires AllParse(codec, max, RawLines(s))
    ensures AllFit(max, RawLines(s)) <==>
            forall chunks: seq<Line> :: Join(chunks) == s ==>
              Feed(codec, max, [], chunks) == Ok(Messages(codec, max, RawLines(s)))
  {
    hide AllParse, AllFit, RawLines, Messages, Feed, Join, Drained;
    if AllFit(max, RawLines(s)) {
      assert [] + s == s;
      forall chunks: seq<Line> | Join(chunks) == s
        ensures Feed(codec, max, [], chunks) == Ok(Messages(codec, max, RawLines(s)))
      {
        FeedIsChunkInvariant(codec, max, [], chunks);
      }
    } else {
      var k := LongRawLineFailsPrefix(codec, max, s);
      TwoChunks(codec, max, s, k);
    }
  }

  lemma {:induction false} TwoChunks<M>(codec: Codec<M>, max: nat, s: Line, k: nat)
    requires k <= |s| && Drained(codec, max, s[..k]).0 == Err(TooLong)
    ensures Join([s[..k], s[k..]]) == s && Feed(codec, max, [], [s[..k], s[k..]]) == Err(TooLong)
  {
    hide Drained;
    var chunks, tail: seq<Line> := [s[..k], s[k..]], [s[k..]];
    assert chunks[1..] == tail && tail[1..] == [];
    assert Join(tail) == s[k..] + Join([]);
    assert [] + s[..k] == s[..k];
  }

  // ----- what is delivered when a line is bad -----

  /** The messages returned by the appends before the first that fails, and its error if one does. */
  function Delivered<M>(codec: Codec<M>, max: nat, buffer: Line, chunks: seq<Line>): (seq<M>, Option<FramingError>)
    decreases |chunks|
  {
    if chunks == [] then ([], None) else
    var (now, left) := Drained(codec, max, buffer + chunks[0]);
    if now.Err? then ([], Some(now.error)) else
    var (later, error) := Delivered(codec, max, left, chunks[1..]);
    (now.value + later, error)
  }

  lemma {:induction false} JoinCons(chunks: seq<Line>, k: nat)
    requires 0 < k <= |chunks|
    ensures Join(chunks[..k]) == chunks[0] + Join(chunks[1..][..k - 1])
  {
    assert chunks[..k][0] == chunks[0] && chunks[..k][1..] == chunks[1..][..k - 1];
  }

  /**
    For any bytes and any cut: what is delivered is what draining the first k chunks as a whole gives, where one chunk
    more no longer drains.
  */
  lemma {:induction false} DeliveredIs<M>(codec: Codec<M>, max: nat, buffer: Line, chunks: seq<Line>) returns (k: nat)
    requires Drained(codec, max, buffer) == (Ok([]), buffer)
    ensures k <= |chunks|
    ensures Drained(codec, max, buffer + Join(chunks[..k])).0 == Ok(Delivered(codec, max, buffer, chunks).0)
    ensures Delivered(codec, max, buffer, chunks).1.None? <==> k == |chunks|
    ensures k < |chunks| ==>
              Drained(codec, max, buffer + Join(chunks[..k + 1])).0 ==
              Err(Delivered(codec, max, buffer, chunks).1.value)
    decreases |chunks|
  {
    hide Drained;
    if chunks == [] {
      k := 0;
      assert chunks[..0] == [] && buffer + Join(chunks[..0]) == buffer;
    } else {
      var s := buffer + chunks[0];
      var (now, left) := Drained(codec, max, s);
      if now.Err? {
        k := 0;
        assert chunks[..0] == [] && buffer + Join([]) == buffer;
        JoinCons(chunks, 1);
        assert chunks[1..][..0] == [] && chunks[0] + Join([]) == chunks[0];
      } else {
        DrainedIsStill(codec, max, s);
        var j := DeliveredIs(codec, max, left, chunks[1..]);
        k := j + 1;
        DrainedAcross(codec, max, buffer, chunks, k);
        if k < |chunks| {
          DrainedAcross(codec, max, buffer, chunks, k + 1);
        }
      }
    }
  }

  lemma {:induction false} DrainedAcross<M>(codec: Codec<M>, max: nat, buffer: Line, chunks: seq<Line>, k: nat)
    requires 0 < k <= |chunks| && Drained(codec, max, buffer + chunks[0]).0.Ok?
    ensures var (now, left) := Drained(codec, max, buffer + chunks[0]);
            var (later, end) := Drained(codec, max, left + Join(chunks[1..][..k - 1]));
            Drained(codec, max, buffer + Join(chunks[..k])) ==
            (if later.Ok? then Ok(now.value + later.value) else later, end)
  {
    hide Drained;
    JoinCons(chunks, k);
    ConcatAssociative(buffer, chunks[0], Join(chunks[1..][..k - 1]));
    DrainThenMore(codec, max, buffer + chunks[0], Join(chunks[1..][..k - 1]));
  }

  /** What a drain leaves has nothing more to drain. */
  lemma {:induction false} DrainedIsStill<M>(codec: Codec<M>, max: nat, s: Line)
    requires Drained(codec, max, s).0.Ok?
    ensures Drained(codec, max, Drained(codec, max, s).1) == (Ok([]), Drained(codec, max, s).1)
    decreases |s|
  {
    var i := IndexOfLF(s);
    if i < |s| {
      DrainedIsStill(codec, max, s[i + 1..]);
    }
  }

  /** Lines with their terminators. */
  function Terminated(lines: seq<Line>): Line {
    if lines == [] then [] else lines[0] + [LF] + Terminated(lines[1..])
  }

  ghost predicate GoodLines<M>(codec: Codec<M>, max: nat, lines: seq<Line>) {
    forall raw :: raw in lines ==> LF !in raw && |raw| <= max && LineParses(codec, max, raw)
  }

  lemma {:induction false} GoodFront<M>(codec: Codec<M>, max: nat, raw: Line, rest: Line)
    requires LF !in raw && LineParses(codec, max, raw)
    ensures Drained(codec, max, raw + [LF] + rest).0.Ok? <==> Drained(codec, max, rest).0.Ok?
    ensures Drained(codec, max, rest).0.Err? ==>
              Drained(codec, max, raw + [LF] + rest).0 == Drained(codec, max, rest).0
    ensures Drained(codec, max, raw + [LF] + rest).1 == Drained(codec, max, rest).1
  {
    hide Drained, ParseLine;
    DrainFront(codec, max, raw, rest);
  }

  lemma {:induction false} BadFront<M>(codec: Codec<M>, max: nat, bad: Line, more: Line)
    requires LF !in bad && !LineParses(codec, max, bad)
    ensures Drained(codec, max, bad + [LF] + more).0 == Err(ParseLine(codec, max, bad).error)
    ensures Drained(codec, max, bad + [LF] + more).1 ==
              if ParseLine(codec, max, bad) == Err(NotJson) then more else []
  {
    hide Drained, ParseLine;
    DrainFront(codec, max, bad, more);
  }

  /** Up to the terminator of the first bad line everything drains. */
  lemma {:induction false} GoodPrefixDrains<M>(codec: Codec<M>, max: nat, good: seq<Line>, bad: Line, k: nat)
    requires GoodLines(codec, max, good) && LF !in bad && |bad| <= max && k <= |Terminated(good)| + |bad|
    ensures Drained(codec, max, (Terminated(good) + bad)[..k]).0.Ok?
    decreases |good|
  {
    hide Drained, LineParses, ParseLine;
    if good == [] {
      assert Terminated(good) + bad == bad;
      NothingTerminated(codec, max, bad[..k]);
    } else {
      var raw, more := good[0], Terminated(good[1..]) + bad;
      assert raw in good;
      assert Terminated(good) + bad == raw + [LF] + more;
      CutLine(raw, more, k);
      if k <= |raw| {
        NothingTerminated(codec, max, raw[..k]);
      } else {
        GoodFront(codec, max, raw, more[..k - |raw| - 1]);
        GoodPrefixDrains(codec, max, good[1..], bad, k - |raw| - 1);
      }
    }
  }

  lemma {:induction false} CutLine(raw: Line, more: Line, k: nat)
    requires k <= |raw| + 1 + |more|
    ensures (raw + [LF] + more)[..k] ==
            if k <= |raw| then raw[..k] else raw + [LF] + more[..k - |raw| - 1]
  {
  }

  lemma {:induction false} NothingTerminated<M>(codec: Codec<M>, max: nat, s: Line)
    requires LF !in s && |s| <= max
    ensures Drained(codec, max, s) == (Ok([]), s)
  {
    assert s[..|s|] == s;
    FirstLF(|s|, s);
  }

  /** From there on nothing does, and only a line that is not JSON leaves the bytes behind it to the next append. */
  lemma {:induction false} BadLineFails<M>(codec: Codec<M>, max: nat, good: seq<Line>, bad: Line, more: Line)
    requires GoodLines(codec, max, good) && LF !in bad && !LineParses(codec, max, bad)
    ensures Drained(codec, max, Terminated(good) + bad + [LF] + more).0 == Err(ParseLine(codec, max, bad).error)
    ensures Drained(codec, max, Terminated(good) + bad + [LF] + more).1 ==
              if ParseLine(codec, max, bad) == Err(NotJson) then more else []
    decreases |good|
  {
    hide Drained, LineParses, ParseLine;
    if good == [] {
      assert Terminated(good) + bad + [LF] + more == bad + [LF] + more;
      BadFront(codec, max, bad, more);
    } else {
      var raw, rest := good[0], Terminated(good[1..]) + bad + [LF] + more;
      assert raw in good;
      assert Terminated(good) + bad + [LF] + more == raw + [LF] + rest;
      GoodFront(codec, max, raw, rest);
      BadLineFails(codec, max, good[1..], bad, more);
    }
  }

  /**
    A stream of good lines up to a bad one: the append that brings the bad line's terminator throws its error, and what
    has been delivered are the lines completed by the chunks before, however many good lines that chunk holds too.
  */
  lemma {:induction false} DeliveredBeforeBadLine<M>(
    codec: Codec<M>, max: nat, good: seq<Line>, bad: Line, more: Line, chunks: seq<Line>) returns (k: nat)
    requires GoodLines(codec, max, good) && LF !in bad && |bad| <= max && !LineParses(codec, max, bad)
    requires Join(chunks) == Terminated(good) + bad + [LF] + more
    ensures k < |chunks| && |Join(chunks[..k])| <= |Terminated(good)| + |bad| < |Join(chunks[..k + 1])|
    ensures Delivered(codec, max, [], chunks).1 == Some(ParseLine(codec, max, bad).error)
    ensures Drained(codec, max, Join(chunks[..k])).0 == Ok(Delivered(codec, max, [], chunks).0)
  {
    hide Drained, Delivered, Terminated, Join, ParseLine, GoodLines;
    k := DeliveredFromStart(codec, max, chunks);
    assert chunks[..|chunks|] == chunks;
    DrainsUpTo(codec, max, good, bad, more, chunks, k);
    if k < |chunks| {
      DrainsUpTo(codec, max, good, bad, more, chunks, k + 1);
    }
  }

  lemma {:induction false} DeliveredFromStart<M>(codec: Codec<M>, max: nat, chunks: seq<Line>) returns (k: nat)
    ensures k <= |chunks|
    ensures Drained(codec, max, Join(chunks[..k])).0 == Ok(Delivered(codec, max, [], chunks).0)
    ensures Delivered(codec, max, [], chunks).1.None? <==> k == |chunks|
    ensures k < |chunks| ==>
              Drained(codec, max, Join(chunks[..k + 1])).0 == Err(Delivered(codec, max, [], chunks).1.value)
  {
    hide Drained, Delivered, Join;
    NothingTerminated(codec, max, []);
    k := DeliveredIs(codec, max, [], chunks);
    assert [] + Join(chunks[..k]) == Join(chunks[..k]);
    if k < |chunks| {
      assert [] + Join(chunks[..k + 1]) == Join(chunks[..k + 1]);
    }
  }

  lemma {:induction false} JoinPrefix(chunks: seq<Line>, k: nat)
    requires k <= |chunks|
    ensures Join(chunks[..k]) <= Join(chunks)
    decreases k
  {
    if k > 0 {
      JoinCons(chunks, k);
      JoinPrefix(chunks[1..], k - 1);
    } else {
      assert chunks[..0] == [];
    }
  }

  lemma {:induction false} DrainsUpTo<M>(
    codec: Codec<M>, max: nat, good: seq<Line>, bad: Line, more: Line, chunks: seq<Line>, k: nat)
    requires GoodLines(codec, max, good) && LF !in bad && |bad| <= max && !LineParses(codec, max, bad)
    requires Join(chunks) == Terminated(good) + bad + [LF] + more && k <= |chunks|
    ensures |Join(chunks[..k])| <= |Terminated(good)| + |bad| ==> Drained(codec, max, Join(chunks[..k])).0.Ok?
    ensures |Join(chunks[..k])| > |Terminated(good)| + |bad| ==>
              Drained(codec, max, Join(chunks[..k])).0 == Err(ParseLine(codec, max, bad).error)
  {
    hide Drained, ParseLine, LineParses, Join, Terminated, GoodLines;
    JoinPrefix(chunks, k);
    var p, n := Join(chunks[..k]), |Terminated(good)| + |bad|;
    if |p| <= n {
      assert p == (Terminated(good) + bad)[..|p|];
      GoodPrefixDrains(codec, max, good, bad, |p|);
    } else {
      assert p == Terminated(good) + bad + [LF] + p[n + 1..];
      BadLineFails(codec, max, good, bad, p[n + 1..]);
    }
  }

  /** So the cut decides: in one chunk with the bad line a good one is lost, in a chunk of its own it is delivered. */
  lemma {:induction false} CutDecidesDelivery<M>(codec: Codec<M>, max: nat, raw: Line, bad: Line)
    requires GoodLines(codec, max, [raw]) && LF !in bad && |bad| <= max && !LineParses(codec, max, bad)
    ensures Delivered(codec, max, [], [raw + [LF] + (bad + [LF])]).0 == []
    ensures Delivered(codec, max, [], [raw + [LF], bad + [LF]]).0 == [ParseLine(codec, max, raw).value]
  {
    hide Drained, ParseLine, Delivered;
    GoodAlone(codec, max, raw, bad);
    var m, e := ParseLine(codec, max, raw).value, ParseLine(codec, max, bad).error;
    DeliveredOfOne(codec, max, raw + [LF] + (bad + [LF]));
    DeliveredOfTwo(codec, max, raw + [LF], bad + [LF]);
    assert [m] + [] == [m];
  }

  lemma {:induction false} LineAlone<M>(codec: Codec<M>, max: nat, raw: Line)
    requires LF !in raw
    ensures LineParses(codec, max, raw) ==>
              ParseLine(codec, max, raw).Ok? &&
              Drained(codec, max, raw + [LF]) == (Ok([ParseLine(codec, max, raw).value]), [])
    ensures !LineParses(codec, max, raw) ==>
              Drained(codec, max, raw + [LF]).0 == Err(ParseLine(codec, max, raw).error)
  {
    hide Drained, ParseLine;
    NothingTerminated(codec, max, []);
    assert raw + [LF] + [] == raw + [LF];
    DrainFront(codec, max, raw, []);
    if LineParses(codec, max, raw) {
      assert [ParseLine(codec, max, raw).value] + [] == [ParseLine(codec, max, raw).value];
    }
  }

  lemma {:induction false} GoodAlone<M>(codec: Codec<M>, max: nat, raw: Line, bad: Line)
    requires GoodLines(codec, max, [raw]) && LF !in bad && !LineParses(codec, max, bad)
    ensures ParseLine(codec, max, raw).Ok?
    ensures Drained(codec, max, raw + [LF]) == (Ok([ParseLine(codec, max, raw).value]), [])
    ensures Drained(codec, max, bad + [LF]).0 == Err(ParseLine(codec, max, bad).error)
    ensures Drained(codec, max, raw + [LF] + (bad + [LF])).0 == Err(ParseLine(codec, max, bad).error)
  {
    assert raw in [raw];
    hide Drained, GoodLines, ParseLine, LineParses;
    LineAlone(codec, max, raw);
    LineAlone(codec, max, bad);
    GoodFront(codec, max, raw, bad + [LF]);
  }

  lemma {:induction false} DeliveredOfOne<M>(codec: Codec<M>, max: nat, a: Line)
    requires Drained(codec, max, a).0.Err?
    ensures Delivered(codec, max, [], [a]).0 == []
  {
    hide Drained;
    assert [] + a == a;
  }

  lemma {:induction false} DeliveredOfTwo<M>(codec: Codec<M>, max: nat, a: Line, b: Line)
    requires Drained(codec, max, a).0.Ok? && Drained(codec, max, a).1 == [] && Drained(codec, max, b).0.Err?
    ensures Delivered(codec, max, [], [a, b]).0 == Drained(codec, max, a).0.value + []
  {
    hide Drained;
    var one: seq<Line>, two: seq<Line> := [b], [a, b];
    assert [] + a == a && [] + b == b && two[1..] == one && one[0] == b;
  }

  // ----- round trip -----

  function EncodeMcpMessage<M>(codec: Codec<M>, m: M): Line {
    codec.render(m) + [LF]
  }

  function EncodeAll<M>(codec: Codec<M>, messages: seq<M>): Line {
    if messages == [] then [] else EncodeMcpMessage(codec, messages[0]) + EncodeAll(codec, messages[1..])
  }

  /** What printing JSON gives: one line that fits, is not taken for anything else, and parses back. */
  ghost predicate PrintsOneLine<M>(codec: Codec<M>, max: nat, m: M) {
    var text := codec.render(m);
    && LF !in text && CR !in text && |text| <= max
    && !codec.isBlank(text) && !codec.isContentLengthHeader(text) && codec.parse(text) == Some(m)
  }

  lemma {:induction false} PrintedParses<M>(codec: Codec<M>, max: nat, m: M)
    requires PrintsOneLine(codec, max, m)
    ensures LF !in codec.render(m) && |codec.render(m)| <= max && ParseLine(codec, max, codec.render(m)) == Ok(m)
  {
    assert StripCR(codec.render(m)) == codec.render(m);
  }

  lemma {:induction false} EncodedFront<M>(codec: Codec<M>, messages: seq<M>)
    requires messages != []
    ensures EncodeAll(codec, messages) == codec.render(messages[0]) + [LF] + EncodeAll(codec, messages[1..])
    ensures messages == [messages[0]] + messages[1..]
  {
  }

  lemma {:induction false} EncodedLines<M>(codec: Codec<M>, max: nat, messages: seq<M>)
    requires forall m :: m in messages ==> PrintsOneLine(codec, max, m)
    ensures var lines := RawLines(EncodeAll(codec, messages)); AllParse(codec, max, lines) && AllFit(max, lines)
    ensures Messages(codec, max, RawLines(EncodeAll(codec, messages))) == messages
    ensures Drained(codec, max, EncodeAll(codec, messages)).1 == []
    decreases |messages|
  {
    if messages != [] {
      hide AllParse, AllFit, RawLines, Messages, Drained, ParseLine, EncodeAll, PrintsOneLine;
      var m, rest := messages[0], EncodeAll(codec, messages[1..]);
      EncodedLines(codec, max, messages[1..]);
      PrintedParses(codec, max, m);
      EncodedFront(codec, messages);
      RawLinesOneLine(codec.render(m), rest);
      GoodCons(codec, max, codec.render(m), RawLines(rest));
      DrainFront(codec, max, codec.render(m), rest);
    }
  }

  /** Encoding any messages, cutting the bytes anywhere and feeding them decodes the messages. */
  lemma {:induction false} RoundTrip<M>(codec: Codec<M>, max: nat, messages: seq<M>, chunks: seq<Line>)
    requires forall m :: m in messages ==> PrintsOneLine(codec, max, m)
    requires Join(chunks) == EncodeAll(codec, messages)
    ensures Feed(codec, max, [], chunks) == Ok(messages)
    ensures BufferAfter(codec, max, [], chunks) == []
  {
    EncodedLines(codec, max, messages);
    assert [] + Join(chunks) == Join(chunks);
    FeedIsChunkInvariant(codec, max, [], chunks);
    BufferAfterAll(codec, max, [], chunks);
  }

  /** What is still buffered before the flush. */
  function BufferAfter<M>(codec: Codec<M>, max: nat, buffer: Line, chunks: seq<Line>): Line
    decreases |chunks|
  {
    if chunks == [] then buffer else BufferAfter(codec, max, Drained(codec, max, buffer + chunks[0]).1, chunks[1..])
  }

  lemma {:induction false} BufferAfterAll<M>(codec: Codec<M>, max: nat, buffer: Line, chunks: seq<Line>)
    requires var lines := RawLines(buffer + Join(chunks)); AllParse(codec, max, lines) && AllFit(max, lines)
    requires LF !in buffer && |buffer| <= max
    ensures BufferAfter(codec, max, buffer, chunks) == Drained(codec, max, buffer + Join(chunks)).1
    decreases |chunks|
  {
    if chunks == [] {
      assert buffer + [] == buffer;
      assert buffer[..|buffer|] == buffer;
      FirstLF(|buffer|, buffer);
    } else {
      var s, more := buffer + chunks[0], Join(chunks[1..]);
      ConcatAssociative(buffer, chunks[0], more);
      DrainGoodPrefix(codec, max, s, more);
      DrainedLeavesLine(codec, max, s);
      DrainThenMore(codec, max, s, more);
      BufferAfterAll(codec, max, Drained(codec, max, s).1, chunks[1..]);
    }
  }
}
