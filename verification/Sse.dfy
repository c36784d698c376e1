/**
 * Discovery events over a text stream: the server prints each payload as one "data: " line and a
 * blank line; the browser takes whole frames off a buffer and keeps the rest.  A subset of sections
 * 9.2.5 and 9.2.6 of the WHATWG HTML Living Standard, with line feeds only.
 */
module Sse {
  import opened Common
  import opened Splitting

  const FIELD := "data:"
  const BLANK := "\n\n"

  // ----- the server

  function PrintOne(payload: string): string {
    "data: " + payload + BLANK
  }

  function Print(payloads: seq<string>): string {
    if payloads == [] then "" else PrintOne(payloads[0]) + Print(payloads[1..])
  }

  // ----- the browser

  /** Where the first blank line starts, or -1. */
  function BlankAt(s: string): (i: int)
    ensures -1 <= i && (i >= 0 ==> i + 2 <= |s|)
  {
    if |s| < 2 then -1
    else if s[0] == '\n' && s[1] == '\n' then 0
    else
      var i := BlankAt(s[1..]);
      if i < 0 then -1 else i + 1
  }

  predicate IsData(line: string) {
    FIELD <= line
  }

  /** A data line's value: without the field name and without one leading space. */
  function Value(line: string): string
    requires IsData(line)
  {
    var v := line[|FIELD|..];
    if v != "" && v[0] == ' ' then v[1..] else v
  }

  function DataLines(lines: seq<string>): seq<string> {
    if lines == [] then []
    else if IsData(lines[0]) then [Value(lines[0])] + DataLines(lines[1..])
    else DataLines(lines[1..])
  }

  function Join(lines: seq<string>): string {
    if lines == [] then ""
    else if |lines| == 1 then lines[0]
    else lines[0] + "\n" + Join(lines[1..])
  }

  /** The text of one frame, if it has any data line. */
  function FrameText(frame: string): seq<string> {
    var data := DataLines(Split(frame, '\n'));
    if data == [] then [] else [Join(data)]
  }

  datatype Consumed = Consumed(texts: seq<string>, rest: string)

  function Consume(buffer: string): Consumed
    decreases |buffer|
  {
    var sep := BlankAt(buffer);
    if sep < 0 then Consumed([], buffer)
    else
      var tail := Consume(buffer[sep+2..]);
      Consumed(FrameText(buffer[..sep]) + tail.texts, tail.rest)
  }

  /** The objects parsed from frame texts; malformed ones are skipped. */
  function ParseAll<V>(parse: string -> Option<V>, texts: seq<string>): seq<V> {
    if texts == [] then []
    else
      match parse(texts[0])
      case None => ParseAll(parse, texts[1..])
      case Some(v) => [v] + ParseAll(parse, texts[1..])
  }

  /** Feeding chunk after chunk, the rest of one carried over to the next. */
  function Feed(carry: string, chunks: seq<string>): Consumed
    decreases |chunks|
  {
    if chunks == [] then Consumed([], carry)
    else
      var now := Consume(carry + chunks[0]);
      var later := Feed(now.rest, chunks[1..]);
      Consumed(now.texts + later.texts, later.rest)
  }

  function Concat(chunks: seq<string>): string {
    if chunks == [] then "" else chunks[0] + Concat(chunks[1..])
  }

  // ----- consuming in parts

  lemma {:induction false} BlankAtPrefix(a: string, b: string)
    requires BlankAt(a) >= 0
    ensures BlankAt(a + b) == BlankAt(a)
  {
    if !(a[0] == '\n' && a[1] == '\n') {
      assert (a + b)[1..] == a[1..] + b;
      BlankAtPrefix(a[1..], b);
    }
  }

  lemma NoFrame(s: string)
    requires BlankAt(s) < 0
    ensures Consume(s) == Consumed([], s)
  {
  }

  /** The first frame, and then the rest. */
  lemma FrameFirst(frame: string, tail: string)
    requires BlankAt(frame + BLANK + tail) == |frame|
    ensures Consume(frame + BLANK + tail) == Consumed(FrameText(frame) + Consume(tail).texts, Consume(tail).rest)
  {
    var s := frame + BLANK + tail;
    assert s[..|frame|] == frame && s[|frame|+2..] == tail;
  }

  lemma BlankIsThere(s: string)
    requires BlankAt(s) >= 0
    ensures s == s[..BlankAt(s)] + BLANK + s[BlankAt(s)+2..]
  {
    var sep := BlankAt(s);
    BlankFound(s);
    assert s[sep..sep+2] == BLANK;
    assert s == s[..sep] + s[sep..sep+2] + s[sep+2..];
  }

  lemma {:induction false} BlankFound(s: string)
    requires BlankAt(s) >= 0
    ensures s[BlankAt(s)] == '\n' && s[BlankAt(s)+1] == '\n'
  {
    if !(s[0] == '\n' && s[1] == '\n') {
      BlankFound(s[1..]);
    }
  }

  /** Consuming a, then what was left of it followed by b, is consuming a + b. */
  lemma {:induction false} ConsumeInParts(a: string, b: string)
    ensures var first := Consume(a);
            var second := Consume(first.rest + b);
            Consume(a + b) == Consumed(first.texts + second.texts, second.rest)
    decreases |a|
  {
    if BlankAt(a) >= 0 {
      var frame, tail := a[..BlankAt(a)], a[BlankAt(a)+2..];
      BlankIsThere(a);
      BlankAtPrefix(a, b);
      assert a + b == frame + BLANK + (tail + b);
      FrameFirst(frame, tail);
      FrameFirst(frame, tail + b);
      ConsumeInParts(tail, b);
      Associates(FrameText(frame), Consume(tail).texts, Consume(Consume(tail).rest + b).texts);
    } else {
      NoFrame(a);
      assert Consume(a + b).texts == [] + Consume(a + b).texts;
    }
  }

  lemma Associates<T>(a: seq<T>, b: seq<T>, c: seq<T>)
    ensures a + (b + c) == a + b + c
  {
  }

  lemma {:induction false} RestHasNoFrame(buffer: string)
    ensures BlankAt(Consume(buffer).rest) < 0
    decreases |buffer|
  {
    if BlankAt(buffer) >= 0 {
      RestHasNoFrame(buffer[BlankAt(buffer)+2..]);
    }
  }

  /** However a text is cut into chunks, feeding the chunks consumes the whole text. */
  lemma {:induction false} FeedIsConsume(carry: string, chunks: seq<string>)
    requires BlankAt(carry) < 0
    ensures Feed(carry, chunks) == Consume(carry + Concat(chunks))
    decreases |chunks|
  {
    if chunks == [] {
      assert carry + Concat(chunks) == carry;
      NoFrame(carry);
    } else {
      var a, b := carry + chunks[0], Concat(chunks[1..]);
      assert carry + Concat(chunks) == a + b;
      ConsumeInParts(a, b);
      RestHasNoFrame(a);
      FeedIsConsume(Consume(a).rest, chunks[1..]);
    }
  }

  // ----- printing and consuming

  lemma {:induction false} FirstBlank(s: string, rest: string)
    requires '\n' !in s
    ensures BlankAt(s + BLANK + rest) == |s|
  {
    var all := s + BLANK + rest;
    if s != "" {
      assert all[1..] == s[1..] + BLANK + rest;
      assert s[0] in s;
      FirstBlank(s[1..], rest);
    }
  }

  lemma OneFrame(payload: string)
    requires '\n' !in payload
    ensures FrameText("data: " + payload) == [payload]
  {
    var line := "data: " + payload;
    ValueOfPrinted(payload);
    FrameOfLine(line);
  }

  lemma {:induction false} PrintThenConsume(payloads: seq<string>)
    requires forall p :: p in payloads ==> '\n' !in p
    ensures Consume(Print(payloads)) == Consumed(payloads, "")
  {
    if payloads != [] {
      var s, rest := "data: " + payloads[0], Print(payloads[1..]);
      assert payloads[0] in payloads;
      assert Print(payloads) == s + BLANK + rest;
      FirstBlank(s, rest);
      FrameFirst(s, rest);
      OneFrame(payloads[0]);
      PrintThenConsume(payloads[1..]);
    }
  }

  /**
   * The round trip: newline-free payloads, printed, cut anywhere into chunks and fed one after the
   * other, come out parsed, all of them, in order, with nothing left over.
   */
  lemma RoundTrip<V>(payloads: seq<string>, chunks: seq<string>, parse: string -> Option<V>)
    requires forall p :: p in payloads ==> '\n' !in p
    requires Concat(chunks) == Print(payloads)
    ensures var fed := Feed("", chunks);
            fed.texts == payloads && ParseAll(parse, fed.texts) == ParseAll(parse, payloads) && fed.rest == ""
  {
    FeedIsConsume("", chunks);
    assert "" + Concat(chunks) == Concat(chunks);
    PrintThenConsume(payloads);
  }

  // ----- the end of the stream

  /** What trimming takes off. */
  predicate IsSpace(c: char) {
    c == ' ' || '\t' <= c <= '\r' || c as int in {0xA0, 0x1680, 0x2028, 0x2029, 0x202F, 0x205F, 0x3000, 0xFEFF}
    || 0x2000 <= c as int <= 0x200A
  }

  predicate IsBlank(s: string) {
    forall c :: c in s ==> IsSpace(c)
  }

  /** The texts of what is left over when the stream ends. */
  function AtEnd(rest: string): seq<string> {
    if IsBlank(rest) then [] else Consume(rest + BLANK).texts
  }

  /** Everything a stream yields, its end included. */
  function Received(chunks: seq<string>): seq<string> {
    var fed := Feed("", chunks);
    fed.texts + AtEnd(fed.rest)
  }

  lemma DataIsNotBlank(line: string)
    ensures IsData(line) ==> !IsBlank(line)
  {
    if IsData(line) {
      assert line[0] == FIELD[0] && line[0] in line;
    }
  }

  lemma {:induction false} BlankHasNoData(lines: seq<string>)
    requires forall l :: l in lines ==> IsBlank(l)
    ensures DataLines(lines) == []
  {
    if lines != [] {
      DataIsNotBlank(lines[0]);
      BlankHasNoData(lines[1..]);
    }
  }

  /** White space alone yields nothing, so that leaving it out makes no difference. */
  lemma {:induction false} BlankYieldsNothing(s: string)
    requires IsBlank(s)
    ensures Consume(s).texts == []
    decreases |s|
  {
    var sep := BlankAt(s);
    if sep >= 0 {
      SplitPieces(s[..sep], '\n');
      BlankHasNoData(Split(s[..sep], '\n'));
      BlankYieldsNothing(s[sep+2..]);
    }
  }

  /** A stream, however cut, yields exactly what its text and a blank line at the end yield. */
  lemma {:induction false} ReceivedIsConsume(chunks: seq<string>)
    ensures Received(chunks) == Consume(Concat(chunks) + BLANK).texts
  {
    FeedIsConsume("", chunks);
    assert "" + Concat(chunks) == Concat(chunks);
    ConsumeInParts(Concat(chunks), BLANK);
    var rest := Consume(Concat(chunks)).rest;
    if IsBlank(rest) {
      assert IsBlank(rest + BLANK);
      BlankYieldsNothing(rest + BLANK);
    }
  }

  /**
   * A stream that breaks off: after whole events, whatever stands in the torn line.  Its text counts
   * from the field name on, so a payload cut short is parsed as it stands.
   */
  lemma TornStream(payloads: seq<string>, torn: string, chunks: seq<string>)
    requires forall p :: p in payloads ==> '\n' !in p
    requires '\n' !in torn && Concat(chunks) == Print(payloads) + torn
    ensures Received(chunks) == payloads + (if IsData(torn) then [Value(torn)] else [])
  {
    ReceivedIsConsume(chunks);
    PrintThenConsume(payloads);
    ConsumeInParts(Print(payloads), torn + BLANK);
    assert Print(payloads) + torn + BLANK == Print(payloads) + (torn + BLANK) && "" + (torn + BLANK) == torn + BLANK;
    TornFrame(torn);
  }

  lemma TornFrame(torn: string)
    requires '\n' !in torn
    ensures Consume(torn + BLANK) == Consumed(if IsData(torn) then [Value(torn)] else [], "")
  {
    FirstBlank(torn, "");
    assert torn + BLANK + "" == torn + BLANK;
    FrameFirst(torn, "");
    NoFrame("");
    FrameOfLine(torn);
    assert FrameText(torn) + [] == FrameText(torn);
  }

  lemma FrameOfLine(line: string)
    requires '\n' !in line
    ensures FrameText(line) == if IsData(line) then [Value(line)] else []
  {
    SplitWhole(line, '\n');
    assert [line][1..] == [] && DataLines([]) == [];
    assert DataLines([line]) == if IsData(line) then [Value(line)] else [];
  }

  /** The last event needs no blank line: without it, or with half of it, nothing is lost. */
  lemma LastBlankIsOptional(payloads: seq<string>, last: string, newline: string, chunks: seq<string>)
    requires (forall p :: p in payloads ==> '\n' !in p) && '\n' !in last && newline in {"", "\n"}
    requires Concat(chunks) == Print(payloads) + ("data: " + last + newline)
    ensures Received(chunks) == payloads + [last]
  {
    var line := "data: " + last;
    if newline == "" {
      assert line + newline == line;
      TornStream(payloads, line, chunks);
      ValueOfPrinted(last);
    } else {
      ReceivedIsConsume(chunks);
      PrintConcat(payloads, last);
      assert Concat(chunks) + BLANK == Print(payloads + [last]) + "\n";
      ExtraNewline(payloads + [last]);
    }
  }

  lemma ValueOfPrinted(last: string)
    ensures IsData("data: " + last) && Value("data: " + last) == last
  {
    var line := "data: " + last;
    assert line[..5] == FIELD && line[5..] == " " + last && (" " + last)[1..] == last;
  }

  lemma ExtraNewline(payloads: seq<string>)
    requires forall p :: p in payloads ==> '\n' !in p
    ensures Consume(Print(payloads) + "\n").texts == payloads
  {
    PrintThenConsume(payloads);
    ConsumeInParts(Print(payloads), "\n");
    assert "" + "\n" == "\n";
    NoFrame("\n");
  }

  lemma {:induction false} PrintConcat(payloads: seq<string>, last: string)
    ensures Print(payloads + [last]) == Print(payloads) + PrintOne(last)
  {
    if payloads == [] {
      assert [] + [last] == [last] && [last][1..] == [];
    } else {
      assert (payloads + [last])[1..] == payloads[1..] + [last];
      PrintConcat(payloads[1..], last);
    }
  }

  // ----- the round trip needs newline-free payloads

  function Total(lines: seq<string>): nat {
    if lines == [] then 0 else |lines[0]| + 1 + Total(lines[1..])
  }

  lemma {:induction false} SplitTotal(s: string, sep: char)
    ensures Total(Split(s, sep)) == |s| + 1
  {
    if s != "" {
      SplitTotal(s[1..], sep);
    }
  }

  lemma {:induction false} DataTotal(lines: seq<string>)
    ensures Total(DataLines(lines)) + 5 * |DataLines(lines)| <= Total(lines)
  {
    if lines != [] {
      DataTotal(lines[1..]);
    }
  }

  lemma {:induction false} JoinLength(lines: seq<string>)
    requires lines != []
    ensures |Join(lines)| + 1 == Total(lines)
  {
    if |lines| > 1 {
      JoinLength(lines[1..]);
    }
  }

  lemma {:induction false} DataPieces(lines: seq<string>)
    requires forall l :: l in lines ==> '\n' !in l
    ensures forall l :: l in DataLines(lines) ==> '\n' !in l
  {
    if lines != [] {
      DataPieces(lines[1..]);
      assert lines[0] in lines;
    }
  }

  /** A frame's text is shorter than its frame, by five for every data line; it takes two to make a newline. */
  lemma FrameTextShort(frame: string, t: string)
    requires t in FrameText(frame)
    ensures |t| + 5 <= |frame| && ('\n' in t ==> |t| + 10 <= |frame|)
  {
    var lines := Split(frame, '\n');
    var data := DataLines(lines);
    SplitTotal(frame, '\n');
    DataTotal(lines);
    JoinLength(data);
    SplitPieces(frame, '\n');
    DataPieces(lines);
    if |data| == 1 {
      assert t == data[0];
    }
  }

  lemma {:induction false} ConsumedTextShort(buffer: string, t: string)
    requires t in Consume(buffer).texts
    ensures '\n' in t ==> |t| + 12 <= |buffer|
    decreases |buffer|
  {
    var sep := BlankAt(buffer);
    if t in FrameText(buffer[..sep]) {
      FrameTextShort(buffer[..sep], t);
    } else {
      ConsumedTextShort(buffer[sep+2..], t);
    }
  }

  /** A payload survives printing and consuming if and only if it has no newline. */
  lemma RoundTripIff(payload: string)
    ensures Consume(Print([payload])) == Consumed([payload], "") <==> '\n' !in payload
  {
    if '\n' !in payload {
      PrintThenConsume([payload]);
    } else {
      assert Print([payload]) == PrintOne(payload) + "";
      if payload in Consume(Print([payload])).texts {
        ConsumedTextShort(Print([payload]), payload);
      }
    }
  }

  // ----- frames of several lines

  /** The lines of a frame, one after another. */
  function Lined(lines: seq<string>): string
    requires lines != []
  {
    if |lines| == 1 then lines[0] else lines[0] + "\n" + Lined(lines[1..])
  }

  lemma {:induction false} SplitLined(lines: seq<string>)
    requires lines != [] && forall l :: l in lines ==> '\n' !in l
    ensures Split(Lined(lines), '\n') == lines
  {
    assert lines[0] in lines;
    SplitWhole(lines[0], '\n');
    if |lines| > 1 {
      SplitLined(lines[1..]);
      SplitAfter(lines[0], Lined(lines[1..]), '\n');
      assert Lined(lines) == lines[0] + ['\n'] + Lined(lines[1..]);
      assert [lines[0]] + lines[1..] == lines;
    }
  }

  lemma {:induction false} DataConcat(a: seq<string>, b: seq<string>)
    ensures DataLines(a + b) == DataLines(a) + DataLines(b)
  {
    if a == [] {
      assert a + b == b;
    } else {
      assert (a + b)[1..] == a[1..] + b;
      DataConcat(a[1..], b);
    }
  }

  /** A line that does not start with the field name, and a data line with its value. */
  lemma OneDataLine(line: string, value: string)
    ensures !("data:" <= line) ==> DataLines([line]) == []
    ensures line == "data: " + value ==> DataLines([line]) == [value]
    ensures line == "data:" + value && (value == "" || value[0] != ' ') ==> DataLines([line]) == [value]
  {
    assert [line][1..] == [] && DataLines([]) == [];
    if line == "data: " + value {
      ValueOfPrinted(value);
    }
    if line == "data:" + value {
      assert line[5..] == value;
    }
  }

  /**
   * A frame of newline-free lines is one event: the values of its data lines, whatever stands
   * between them, joined by newlines; and a frame without a data line is none.
   */
  lemma TwoLineFrame(before: string, a: string, between: string, b: string)
    requires '\n' !in before && '\n' !in a && '\n' !in between && '\n' !in b
    requires !("data:" <= before) && !("data:" <= between)
    ensures var lines := [before, "data: " + a, between, "data: " + b];
            FrameText(Lined(lines)) == [a + "\n" + b]
    ensures FrameText(Lined([before, between])) == []
  {
    var lines := [before, "data: " + a, between, "data: " + b];
    SplitLined(lines);
    SplitLined([before, between]);
    OneDataLine(before, "");
    OneDataLine(between, "");
    OneDataLine("data: " + a, a);
    OneDataLine("data: " + b, b);
    DataConcat([before], ["data: " + a]);
    DataConcat([before, "data: " + a], [between]);
    DataConcat([before, "data: " + a, between], ["data: " + b]);
    DataConcat([before], [between]);
    assert [before] + ["data: " + a] == [before, "data: " + a];
    assert [before, "data: " + a] + [between] == [before, "data: " + a, between];
    assert [before, "data: " + a, between] + ["data: " + b] == lines;
    assert [before] + [between] == [before, between];
    JoinTwo(a, b);
  }

  lemma JoinTwo(a: string, b: string)
    ensures Join([a, b]) == a + "\n" + b
  {
    assert [a, b][1..] == [b];
  }

  /** Texts that do not parse make no difference to the others; those that do come out in order. */
  lemma ParseFate<V>(parse: string -> Option<V>, a: seq<string>, t: string, b: seq<string>)
    ensures ParseAll(parse, a + [t] + b) ==
            ParseAll(parse, a) + (match parse(t) case None => [] case Some(v) => [v]) + ParseAll(parse, b)
    ensures ParseAll(parse, []) == []
  {
    ParseConcat(parse, a + [t], b);
    ParseConcat(parse, a, [t]);
    assert [t][1..] == [] && ParseAll(parse, []) == [];
  }

  // ----- the loop

  /** Takes whole frames off the buffer until none is left. */
  method ConsumeBuffer<V>(buffer: string, parse: string -> Option<V>) returns (events: seq<V>, rest: string)
    ensures events == ParseAll(parse, Consume(buffer).texts) && rest == Consume(buffer).rest
  {
    events, rest := [], buffer;
    var sep := BlankAt(rest);
    while sep >= 0
      invariant sep == BlankAt(rest)
      invariant events + ParseAll(parse, Consume(rest).texts) == ParseAll(parse, Consume(buffer).texts)
      invariant Consume(rest).rest == Consume(buffer).rest
      decreases |rest|
    {
      var frame := rest[..sep];
      rest := rest[sep+2..];
      var found := FrameEvents(frame, parse);
      ghost var texts := Consume(rest).texts;
      ParseConcat(parse, FrameText(frame), texts);
      Associates(events, found, ParseAll(parse, texts));
      events := events + found;
      sep := BlankAt(rest);
    }
    NoFrame(rest);
  }

  /** Reads a stream to its end; what is left over then, unless blank, counts as one more frame. */
  method ReadStream<V>(chunks: seq<string>, parse: string -> Option<V>) returns (events: seq<V>)
    ensures events == ParseAll(parse, Consume(Concat(chunks) + BLANK).texts)
  {
    var buffer;
    events, buffer := ReadChunks(chunks, parse);
    ReceivedIsConsume(chunks);
    ParseConcat(parse, Feed("", chunks).texts, AtEnd(buffer));
    if !IsBlank(buffer) {
      var found, _ := ConsumeBuffer(buffer + BLANK, parse);
      events := events + found;
    }
  }

  method ReadChunks<V>(chunks: seq<string>, parse: string -> Option<V>) returns (events: seq<V>, buffer: string)
    ensures events == ParseAll(parse, Feed("", chunks).texts) && buffer == Feed("", chunks).rest
  {
    events, buffer := [], "";
    var i := 0;
    while i < |chunks|
      invariant 0 <= i <= |chunks|
      invariant ParseAll(parse, Feed("", chunks).texts) == events + ParseAll(parse, Feed(buffer, chunks[i..]).texts)
      invariant Feed(buffer, chunks[i..]).rest == Feed("", chunks).rest
    {
      FeedStep(buffer, chunks, i, parse);
      var found;
      found, buffer := ConsumeBuffer(buffer + chunks[i], parse);
      Associates(events, found, ParseAll(parse, Feed(buffer, chunks[i+1..]).texts));
      events := events + found;
      i := i + 1;
    }
  }

  lemma FeedStep<V>(carry: string, chunks: seq<string>, i: nat, parse: string -> Option<V>)
    requires i < |chunks|
    ensures var now := Consume(carry + chunks[i]);
            var later := Feed(now.rest, chunks[i+1..]);
            && ParseAll(parse, Feed(carry, chunks[i..]).texts) ==
               ParseAll(parse, now.texts) + ParseAll(parse, later.texts)
            && Feed(carry, chunks[i..]).rest == later.rest
  {
    assert chunks[i..][1..] == chunks[i+1..];
    var now := Consume(carry + chunks[i]);
    ParseConcat(parse, now.texts, Feed(now.rest, chunks[i+1..]).texts);
  }

  method FrameEvents<V>(frame: string, parse: string -> Option<V>) returns (events: seq<V>)
    ensures events == ParseAll(parse, FrameText(frame))
  {
    var data := CollectData(Split(frame, '\n'));
    if |data| == 0 {
      return [];
    }
    var parsed := parse(Join(data));
    assert FrameText(frame) == [Join(data)] && [Join(data)][1..] == [];
    events := if parsed.Some? then [parsed.value] else [];
  }

  method CollectData(lines: seq<string>) returns (data: seq<string>)
    ensures data == DataLines(lines)
  {
    data := [];
    var i := 0;
    while i < |lines|
      invariant 0 <= i <= |lines|
      invariant data + DataLines(lines[i..]) == DataLines(lines)
    {
      assert lines[i..][1..] == lines[i+1..];
      if FIELD <= lines[i] {
        var v := lines[i][5..];
        if v != "" && v[0] == ' ' {
          v := v[1..];
        }
        assert data + ([v] + DataLines(lines[i+1..])) == data + [v] + DataLines(lines[i+1..]);
        data := data + [v];
      }
      i := i + 1;
    }
    assert lines[|lines|..] == [];
  }

  lemma {:induction false} ParseConcat<V>(parse: string -> Option<V>, a: seq<string>, b: seq<string>)
    ensures ParseAll(parse, a + b) == ParseAll(parse, a) + ParseAll(parse, b)
  {
    if a == [] {
      assert a + b == b;
    } else {
      assert (a + b)[1..] == a[1..] + b;
      ParseConcat(parse, a[1..], b);
    }
  }
}
