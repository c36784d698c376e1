/**
 * What appending and replacing a pin do to every host's lookup, for any pin file and any label in
 * one line: also for a file whose last line has no newline, and for lines shared by several hosts.
 */
module PinEdits {
  import opened Common
  import opened Subsequences
  import opened Splitting
  import opened KnownHosts

  // ----- the torn last line

  /** The text after the last newline: empty in a file that ends in one. */
  function LastLine(text: string): string {
    var pieces := Split(text, '\n');
    pieces[|pieces|-1]
  }

  /** The lines ended by a newline. */
  function Front(text: string): seq<string> {
    var pieces := Split(text, '\n');
    pieces[..|pieces|-1]
  }

  predicate Terminated(text: string) {
    LastLine(text) == ""
  }

  lemma {:induction false} LookupConcat(a: seq<string>, b: seq<string>, name: string)
    ensures LookupLines(a + b, name) ==
            if LookupLines(a, name) != Missing then LookupLines(a, name) else LookupLines(b, name)
  {
    if a == [] {
      assert a + b == b;
    } else {
      assert (a + b)[1..] == a[1..] + b;
      LookupConcat(a[1..], b, name);
    }
  }

  lemma LookupOne(line: string, name: string)
    ensures LookupLines([line], name) == Finds(Fields(line), name)
  {
    assert [line][1..] == [];
  }

  lemma SplitLast(text: string)
    ensures Split(text, '\n') == Front(text) + [LastLine(text)]
  {
  }

  /** A lookup goes through the ended lines, then the torn one. */
  lemma LookupSplit(text: string, name: string)
    ensures Lookup(text, name) == LookupLines(Front(text) + [LastLine(text)], name)
    ensures Lookup(text, name) == LookupLines(Split(text, '\n'), name)
  {
    SplitLast(text);
    LookupConcat(Front(text), [LastLine(text)], name);
    LookupOne(LastLine(text), name);
    if LastLine(text) != "" {
      assert Lines(text) == Front(text) + [LastLine(text)];
    }
  }

  /** An appended line goes on where the torn one stopped. */
  lemma AppendedLines(text: string, line: string)
    requires '\n' !in line
    ensures Front(text + line + "\n") == Front(text) + [LastLine(text) + line]
    ensures Terminated(text + line + "\n")
    ensures Lines(text + line + "\n") == Front(text) + [LastLine(text) + line]
  {
    SplitExtend(text, line, '\n');
    SplitAfter(text + line, "", '\n');
    assert (text + line) + ['\n'] + "" == text + line + "\n";
    assert Split(text + line + "\n", '\n') == Front(text) + [LastLine(text) + line] + [""];
  }

  lemma NoNewline<K>(name: string, key: Key<K>)
    requires Printable(key) && '\n' !in name
    ensures '\n' !in Line(name, key)
  {
    assert IsSpace('\n');
  }

  lemma PlainNoNewline(name: string)
    requires Wordy(name)
    ensures '\n' !in name
  {
    assert IsSpace('\n');
  }

  // ----- what an append does to any host

  /** The words of the last line once a pin is appended to it. */
  function Grown<K>(last: string, name: string, key: Key<K>): seq<string>
    requires Glues(last, name) ==> Fields(last) != [] && Fields(name) != []
  {
    Joined(Fields(last), Glues(last, name), Fields(name) + [key.algorithm, key.blob])
  }

  lemma GrownWords<K>(last: string, name: string, key: Key<K>)
    requires Printable(key)
    ensures Glues(last, name) ==> Fields(last) != [] && Fields(name) != []
    ensures Fields(last + Line(name, key)) == Grown(last, name, key)
  {
    FieldsOfEnding(last);
    FieldsOfEnding(name);
    LineWords(name, key);
    FieldsConcat(last, Line(name, key));
    assert Line(name, key)[0] == if name == "" then ' ' else name[0];
  }

  /** The whole effect of an append, on every host and for any file. */
  lemma AppendReads<K>(text: string, name: string, key: Key<K>, host: string)
    requires Printable(key) && '\n' !in name
    ensures Glues(LastLine(text), name) ==> Fields(LastLine(text)) != [] && Fields(name) != []
    ensures Lookup(Append(text, name, key), host) ==
            if LookupLines(Front(text), host) != Missing then LookupLines(Front(text), host)
            else Finds(Grown(LastLine(text), name, key), host)
  {
    var last, line := LastLine(text), Line(name, key);
    NoNewline(name, key);
    AppendedLines(text, line);
    LookupConcat(Front(text), [last + line], host);
    LookupOne(last + line, host);
    GrownWords(last, name, key);
  }

  lemma BeforeReads(text: string, host: string)
    ensures Lookup(text, host) ==
            if LookupLines(Front(text), host) != Missing then LookupLines(Front(text), host)
            else Finds(Fields(LastLine(text)), host)
  {
    LookupSplit(text, host);
    LookupConcat(Front(text), [LastLine(text)], host);
    LookupOne(LastLine(text), host);
  }

  /**
   * Which last lines leave a missing label pinned to the appended key: a blank one; one host field
   * that takes the label in, by ending in a comma or naming the label before one; or two words for
   * the label already, when the label itself decodes to the key.
   */
  predicate TakesPin<K(==)>(decode: Decoder<K>, last: string, name: string, key: Key<K>) {
    var f, glue := Fields(last), EndsInWord(last);
    && Wordy(name) && ',' !in name
    && (if f == [] then name[0] != '#'
        else
          && !Comment(f[0])
          && ((|f| == 1 && glue && Matches(f[0] + name, name))
              || (|f| == 2 && !glue && Matches(f[0], name) && !Comment(f[1]) && decode(name) == Some(key.value))))
  }

  lemma OneWordStarts(name: string)
    requires Wordy(name)
    ensures Fields(name) == [name] && StartsInWord(name)
  {
    OneWord(name);
    assert name[0] in name;
  }

  lemma {:induction false} TakesMeans<K>(decode: Decoder<K>, last: string, name: string, key: Key<K>)
    requires ValidKey(decode, key) && Wordy(name) && ',' !in name && !PinsFor(last, name)
    requires Glues(last, name) ==> Fields(last) != [] && Fields(name) != []
    ensures Read(decode, Finds(Grown(last, name, key), name)) == Pinned(key.value) <==>
            TakesPin(decode, last, name, key)
  {
    OneWordStarts(name);
    SplitWhole(name, ',');
    FieldsAreWords(last);
    assert Fields(last) != [] ==> Fields(last)[0] in Fields(last);
  }

  lemma NeverPlain(text: string, name: string)
    requires Lookup(text, name) != Missing
    ensures ',' !in name && forall c :: c in name ==> !IsSpace(c)
  {
    FoundSomewhere(Lines(text), name);
    var l :| l in Lines(text) && PinsFor(l, name);
    OnlyPlainLabelsMatch(l, name);
  }

  lemma {:induction false} FoundSomewhere(lines: seq<string>, name: string)
    requires LookupLines(lines, name) != Missing
    ensures exists l :: l in lines && PinsFor(l, name)
  {
    if PinsFor(lines[0], name) {
      assert lines[0] in lines;
    } else {
      FoundSomewhere(lines[1..], name);
      var l :| l in lines[1..] && PinsFor(l, name);
      assert l in lines;
    }
  }

  /** Appending pins a label that had no pin if and only if the file's last line takes the pin. */
  lemma AppendPinsIff<K>(decode: Decoder<K>, text: string, name: string, key: Key<K>)
    requires ValidKey(decode, key) && name != "" && Lookup(text, name) == Missing
    ensures Look(decode, Append(text, name, key), name) == Pinned(key.value) <==>
            TakesPin(decode, LastLine(text), name, key)
  {
    if Wordy(name) && ',' !in name {
      PlainNoNewline(name);
      BeforeReads(text, name);
      AppendReads(text, name, key, name);
      TakesMeans(decode, LastLine(text), name, key);
    } else if Lookup(Append(text, name, key), name) != Missing {
      NeverPlain(Append(text, name, key), name);
    }
  }

  /** In a newline-terminated file: if and only if the label can stand alone in the host field. */
  lemma BlankTakesIff<K>(decode: Decoder<K>, last: string, name: string, key: Key<K>)
    requires Fields(last) == [] && name != ""
    ensures TakesPin(decode, last, name, key) <==> WellNamed(name)
  {
  }

  /**
   * Whether a pin appended for a label changes what a host finds on a last line: the label's first
   * word names the host on a blank line, joins the host's own field, makes a line too short to pin
   * into one, or runs on into the text of the host's key and so into another key, or none.
   */
  predicate Disturbs<K(==)>(decode: Decoder<K>, last: string, name: string, host: string)
    requires Glues(last, name) ==> Fields(name) != []
  {
    var f, w, glue := Fields(last), Fields(name), Glues(last, name);
    if f == [] then Names(w, host)
    else if |f| == 1 && glue then !Comment(f[0]) && Matches(f[0] + w[0], host)
    else
      && Names(f, host)
      && (|f| <= 2
          || (|f| == 3 && glue && Read(decode, Words(f[1], f[2])) != Read(decode, Words(f[1], f[2] + w[0]))))
  }

  lemma DisturbsMeans<K>(decode: Decoder<K>, last: string, name: string, key: Key<K>, host: string)
    requires Printable(key) && (Glues(last, name) ==> Fields(last) != [] && Fields(name) != [])
    ensures Read(decode, Finds(Grown(last, name, key), host)) != Read(decode, Finds(Fields(last), host)) <==>
            Disturbs(decode, last, name, host)
  {
    var f, g, glue := Fields(last), Fields(name) + [key.algorithm, key.blob], Glues(last, name);
    FieldsAreWords(last);
    assert f != [] ==> f[0] in f && f[0] != "";
    if f == [] {
      BlankGrows(decode, name, key, host);
      assert Grown(last, name, key) == g;
    } else if glue {
      assert Fields(name)[0] == g[0];
    }
  }

  /** A pin on a blank line is there for the hosts its label's first word names. */
  lemma BlankGrows<K>(decode: Decoder<K>, name: string, key: Key<K>, host: string)
    requires Printable(key)
    ensures Finds(Fields(name) + [key.algorithm, key.blob], host) != Missing <==> Names(Fields(name), host)
    ensures Read(decode, Finds(Fields(name) + [key.algorithm, key.blob], host)) != NotFound <==>
            Names(Fields(name), host)
  {
  }

  /** Appending a pin changes a host's lookup if and only if it disturbs what the host finds on the last line. */
  lemma AppendDisturbsIff<K>(decode: Decoder<K>, text: string, name: string, key: Key<K>, host: string)
    requires Printable(key) && '\n' !in name
    ensures Glues(LastLine(text), name) ==> Fields(name) != []
    ensures Look(decode, Append(text, name, key), host) != Look(decode, text, host) <==>
            LookupLines(Front(text), host) == Missing && Disturbs(decode, LastLine(text), name, host)
  {
    BeforeReads(text, host);
    AppendReads(text, name, key, host);
    DisturbsMeans(decode, LastLine(text), name, key, host);
  }

  /**
   * A file that ends in a full pin line without its newline: the pin appended for another host is
   * lost, and the first host's key text has the label at its end.
   */
  lemma UnterminatedFileLosesPin<K>(decode: Decoder<K>, a: string, k: Key<K>, name: string, key: Key<K>)
    requires WellNamed(a) && ValidKey(decode, k) && WellNamed(name) && ValidKey(decode, key) && a != name
    ensures var before, after := Line(a, k), Append(Line(a, k), name, key);
            && Lookup(before, name) == Missing && Lookup(after, name) == Missing
            && Look(decode, before, a) == Pinned(k.value)
            && Look(decode, after, a) == (match decode(k.blob + name) case None => Broken case Some(v) => Pinned(v))
            && (Look(decode, after, a) == Look(decode, before, a) <==> decode(k.blob + name) == Some(k.value))
  {
    var line := Line(a, k);
    PlainNoNewline(a);
    PlainNoNewline(name);
    NoNewline(a, k);
    SplitWhole(line, '\n');
    assert Front(line) == [] && LastLine(line) == line;
    BeforeReads(line, a);
    BeforeReads(line, name);
    AppendReads(line, name, key, a);
    AppendReads(line, name, key, name);
    TornWords(a, k, name, key, a);
    TornWords(a, k, name, key, name);
  }

  lemma TornWords<K>(a: string, k: Key<K>, name: string, key: Key<K>, host: string)
    requires WellNamed(a) && Printable(k) && WellNamed(name) && Printable(key)
    ensures Fields(Line(a, k)) != [] && Fields(name) != []
    ensures Finds(Fields(Line(a, k)), host) == if host == a then Words(k.algorithm, k.blob) else Missing
    ensures Finds(Grown(Line(a, k), name, key), host) ==
            if host == a then Words(k.algorithm, k.blob + name) else Missing
  {
    PlainHost(a);
    OneWord(name);
    LineWords(a, k);
    TornPin(a, k, name);
    var f, grown := Fields(Line(a, k)), Grown(Line(a, k), name, key);
    assert f == [a, k.algorithm, k.blob];
    assert grown == [a, k.algorithm, k.blob + name, key.algorithm, key.blob];
    assert Names(f, host) == Names(grown, host) == Names([a], host);
  }

  lemma TornPin<K>(a: string, k: Key<K>, name: string)
    requires Printable(k) && Wordy(name)
    ensures Glues(Line(a, k), name)
  {
    var last := k.blob[|k.blob|-1];
    assert last in k.blob && name[0] in name;
    assert Line(a, k)[|Line(a, k)|-1] == last;
  }

  // ----- what a replace does to any host

  lemma {:induction false} LinesOfText(lines: seq<string>)
    requires forall l :: l in lines ==> '\n' !in l
    ensures Terminated(Text(lines)) && Split(Text(lines), '\n') == lines + [""]
  {
    if lines != [] {
      var rest := lines[1..];
      assert lines[0] in lines && forall l :: l in rest ==> l in lines;
      LinesOfText(rest);
      SplitAfter(lines[0], Text(rest), '\n');
      SplitWhole(lines[0], '\n');
      assert Text(lines) == lines[0] + ['\n'] + Text(rest);
      assert [lines[0]] + (rest + [""]) == lines + [""];
    }
  }

  lemma BlankLine(lines: seq<string>, name: string)
    ensures LookupLines(lines + [""], name) == LookupLines(lines, name)
  {
    LookupConcat(lines, [""], name);
  }

  /** Trailing blank lines, which a rewrite drops, never mattered to a lookup. */
  lemma {:induction false} TrimmedLookup(text: string, name: string)
    ensures LookupLines(Split(TrimNewlines(text), '\n'), name) == LookupLines(Split(text, '\n'), name)
  {
    if text != "" && text[|text|-1] == '\n' {
      var front := text[..|text|-1];
      TrimmedLookup(front, name);
      assert text == front + ['\n'] + "";
      SplitAfter(front, "", '\n');
      BlankLine(Split(front, '\n'), name);
    }
  }

  /** Trailing blank lines, which a rewrite drops, never mattered; nor does a missing last newline. */
  lemma ReadLinesLookup(text: string, name: string)
    ensures LookupLines(ReadLines(text), name) == Lookup(text, name)
  {
    TrimmedLookup(text, name);
    LookupSplit(text, name);
  }

  /** No line that pins `host` names `name` too. */
  predicate Apart(lines: seq<string>, name: string, host: string) {
    forall l :: l in lines && PinsFor(l, host) ==> !Names(Fields(l), name)
  }

  /** Replacing removes all its label's pins; a host with one pin keeps it exactly when that line does not name both. */
  lemma {:induction false} WithoutLookup(lines: seq<string>, name: string, host: string)
    ensures LookupLines(Without(lines, name), name) == Missing
    ensures PinCount(lines, host) <= 1 ==>
              LookupLines(Without(lines, name), host) ==
              if Apart(lines, name, host) then LookupLines(lines, host) else Missing
  {
    if lines != [] {
      var rest := lines[1..];
      WithoutLookup(rest, name, host);
      MissingMeansNone(rest, host);
      NoneIsApart(rest, name, host);
      assert lines == [lines[0]] + rest;
      assert Apart(lines, name, host) <==> Apart([lines[0]], name, host) && Apart(rest, name, host);
      assert [lines[0]][0] in [lines[0]];
    }
  }

  lemma {:induction false} NoneIsApart(lines: seq<string>, name: string, host: string)
    ensures PinCount(lines, host) == 0 ==> Apart(lines, name, host)
  {
    if lines != [] {
      NoneIsApart(lines[1..], name, host);
      assert lines == [lines[0]] + lines[1..];
    }
  }

  lemma {:induction false} WithoutIsPart(lines: seq<string>, name: string)
    ensures forall l :: l in Without(lines, name) ==> l in lines
  {
    if lines != [] {
      WithoutIsPart(lines[1..], name);
    }
  }

  lemma ReplacedLines<K>(text: string, name: string, key: Key<K>)
    requires Printable(key) && '\n' !in name
    ensures var text' := Replace(text, name, key);
            Terminated(text') && Lines(text') == Without(ReadLines(text), name) + [Line(name, key)]
  {
    NoNewline(name, key);
    var lines := Without(ReadLines(text), name) + [Line(name, key)];
    WithoutIsPart(ReadLines(text), name);
    SplitPieces(TrimNewlines(text), '\n');
    assert forall l :: l in ReadLines(text) ==> '\n' !in l;
    LinesOfText(lines);
  }

  lemma ReplaceReads<K>(text: string, name: string, key: Key<K>, host: string)
    requires Printable(key) && '\n' !in name
    ensures var kept := LookupLines(Without(ReadLines(text), name), host);
            Lookup(Replace(text, name, key), host) ==
            if kept != Missing then kept else Finds(Fields(name) + [key.algorithm, key.blob], host)
  {
    ReplacedLines(text, name, key);
    LookupConcat(Without(ReadLines(text), name), [Line(name, key)], host);
    LookupOne(Line(name, key), host);
    LineWords(name, key);
  }

  /** Replacing leaves the label pinned to the new key if and only if the label can stand alone in the host field. */
  lemma ReplacePinsIff<K>(decode: Decoder<K>, text: string, name: string, key: Key<K>)
    requires ValidKey(decode, key) && name != "" && '\n' !in name
    ensures Look(decode, Replace(text, name, key), name) == Pinned(key.value) <==> WellNamed(name)
  {
    ReplaceReads(text, name, key, name);
    WithoutLookup(ReadLines(text), name, name);
    LineWords(name, key);
    if WellNamed(name) {
      LineRoundTrip(decode, name, key);
    } else {
      OwnPinIsWellNamed(name, key);
    }
  }

  /**
   * In a file with at most one pin per host, a host keeps what it had when the line that pins it
   * does not name the replaced label; without one, it finds what the new line holds for it.
   */
  lemma ReplaceKeeps<K>(text: string, name: string, key: Key<K>, host: string)
    requires Printable(key) && '\n' !in name && Unique(text)
    ensures Lookup(Replace(text, name, key), host) ==
            if Lookup(text, host) != Missing && Apart(ReadLines(text), name, host) then Lookup(text, host)
            else Finds(Fields(name) + [key.algorithm, key.blob], host)
  {
    ReplaceReads(text, name, key, host);
    ReadLinesLookup(text, host);
    ReadLinesCount(text, host);
    WithoutLookup(ReadLines(text), name, host);
  }

  /**
   * So a host that the label itself does not name keeps its lookup if and only if the line that
   * pins it does not name the label; else its pin is gone.
   */
  lemma ReplaceKeepsIff<K>(decode: Decoder<K>, text: string, name: string, key: Key<K>, host: string)
    requires Printable(key) && '\n' !in name && Unique(text) && !Names(Fields(name), host)
    ensures Look(decode, Replace(text, name, key), host) == Look(decode, text, host) <==>
            Apart(ReadLines(text), name, host)
    ensures !Apart(ReadLines(text), name, host) ==> Lookup(Replace(text, name, key), host) == Missing
  {
    ReplaceKeeps(text, name, key, host);
    BlankGrows(decode, name, key, host);
    ReadLinesLookup(text, host);
    NoneIsApart(ReadLines(text), name, host);
    MissingMeansNone(ReadLines(text), host);
  }

  lemma ConsCount(x: string, rest: seq<string>, l: string)
    ensures multiset([x] + rest)[l] == (if x == l then 1 else 0) + multiset(rest)[l]
  {
    assert multiset([x] + rest) == multiset{x} + multiset(rest);
  }

  lemma {:induction false} WithoutCounts(lines: seq<string>, name: string, l: string)
    ensures multiset(Without(lines, name))[l] == if Names(Fields(l), name) then 0 else multiset(lines)[l]
  {
    if lines != [] {
      WithoutCounts(lines[1..], name, l);
      assert lines == [lines[0]] + lines[1..];
      ConsCount(lines[0], lines[1..], l);
      ConsCount(lines[0], Without(lines[1..], name), l);
    }
  }

  lemma {:induction false} WithoutInOrder(lines: seq<string>, name: string)
    ensures Sub(Without(lines, name), lines)
  {
    if lines != [] {
      var rest := Without(lines[1..], name);
      WithoutInOrder(lines[1..], name);
      assert lines == [lines[0]] + lines[1..];
      SubPrefix([lines[0]], rest, lines[1..]);
      SubDropsHead(rest, lines[0], lines[1..]);
    }
  }

  lemma {:induction false} SubDropsHead(a: seq<string>, x: string, b: seq<string>)
    requires Sub(a, b)
    ensures Sub(a, [x] + b)
    decreases |b|
  {
    if b == [] {
      assert a == [];
    } else {
      var b', last := b[..|b|-1], b[|b|-1];
      assert ([x] + b)[..|b|] == [x] + b' && ([x] + b)[|b|] == last;
      if a != [] && a[|a|-1] == last && Sub(a[..|a|-1], b') {
        SubDropsHead(a[..|a|-1], x, b');
      } else if a != [] {
        SubDropsHead(a, x, b');
      }
    }
  }

  /** An append leaves the text in place and adds one line's text at its end. */
  lemma AppendText<K>(text: string, name: string, key: Key<K>)
    ensures Append(text, name, key) == text + (name + " " + key.algorithm + " " + key.blob + "\n")
  {
    assert text + (name + " " + key.algorithm + " " + key.blob) + "\n" ==
           text + (name + " " + key.algorithm + " " + key.blob + "\n");
  }

  /**
   * A replace keeps each line that does not name the label, comments and blank lines too, as often
   * and in the order it was there, and ends in the new one.
   */
  lemma ReplaceText<K>(text: string, name: string, key: Key<K>, l: string)
    requires Printable(key) && '\n' !in name
    ensures var before, after := ReadLines(text), Lines(Replace(text, name, key));
            && after != [] && after[|after|-1] == name + " " + key.algorithm + " " + key.blob
            && Sub(after[..|after|-1], before)
            && multiset(after[..|after|-1])[l] == if Names(Fields(l), name) then 0 else multiset(before)[l]
  {
    var kept := Without(ReadLines(text), name);
    ReplacedLines(text, name, key);
    WithoutCounts(ReadLines(text), name, l);
    WithoutInOrder(ReadLines(text), name);
    assert (kept + [Line(name, key)])[..|kept|] == kept;
  }

  /** A line shared by two hosts: replacing one host's pin takes the other's away. */
  lemma SharedLineLosesPin<K>(decode: Decoder<K>, a: string, b: string, k: Key<K>, key: Key<K>)
    requires WellNamed(a) && WellNamed(b) && a != b && ValidKey(decode, k) && ValidKey(decode, key)
    ensures var text := Line(a + [','] + b, k) + "\n";
            Look(decode, text, b) == Pinned(k.value) && Lookup(Replace(text, a, key), b) == Missing
  {
    var line := Line(a + [','] + b, k);
    PlainNoNewline(a + [','] + b);
    PlainNoNewline(a);
    NoNewline(a + [','] + b, k);
    OneLine(line);
    SharedLine(a, b, k);
    LookupOne(line, b);
    assert Without([line], a) == [];
    ReplaceReads(line + "\n", a, key, b);
    PlainHost(a);
    BlankGrows(decode, a, key, b);
  }

  /** One line, with or without its newline. */
  lemma OneLine(line: string)
    requires line != "" && '\n' !in line
    ensures Lines(line) == [line] && Lines(line + "\n") == [line]
    ensures ReadLines(line + "\n") == [line]
  {
    SplitWhole(line, '\n');
    var text := line + "\n";
    assert text == line + ['\n'] + "";
    SplitAfter(line, "", '\n');
    assert text[..|line|] == line;
    assert line[|line|-1] in line;
    assert TrimNewlines(text) == TrimNewlines(line) == line;
  }

  lemma SharedLine<K>(a: string, b: string, k: Key<K>)
    requires WellNamed(a) && WellNamed(b) && Printable(k)
    ensures var f := Fields(Line(a + [','] + b, k));
            f == [a + [','] + b, k.algorithm, k.blob] && Names(f, a) && Names(f, b)
  {
    LineWords(a + [','] + b, k);
    OneWord(a + [','] + b);
    SplitAfter(a, b, ',');
    SplitWhole(a, ',');
    SplitWhole(b, ',');
  }

  // ----- at most one pin per label

  function PinCount(lines: seq<string>, name: string): nat {
    if lines == [] then 0 else (if PinsFor(lines[0], name) then 1 else 0) + PinCount(lines[1..], name)
  }

  lemma {:induction false} PinCountConcat(a: seq<string>, b: seq<string>, name: string)
    ensures PinCount(a + b, name) == PinCount(a, name) + PinCount(b, name)
  {
    if a == [] {
      assert a + b == b;
    } else {
      assert (a + b)[1..] == a[1..] + b;
      PinCountConcat(a[1..], b, name);
    }
  }

  lemma {:induction false} MissingMeansNone(lines: seq<string>, name: string)
    ensures LookupLines(lines, name) == Missing <==> PinCount(lines, name) == 0
  {
    if lines != [] {
      MissingMeansNone(lines[1..], name);
    }
  }

  lemma {:induction false} WithoutCount(lines: seq<string>, name: string, other: string)
    ensures PinCount(Without(lines, name), other) <= PinCount(lines, other)
    ensures PinCount(Without(lines, name), name) == 0
  {
    if lines != [] {
      WithoutCount(lines[1..], name, other);
    }
  }

  lemma {:induction false} TrimmedCount(text: string, name: string)
    ensures PinCount(Split(TrimNewlines(text), '\n'), name) == PinCount(Split(text, '\n'), name)
  {
    if text != "" && text[|text|-1] == '\n' {
      var front := text[..|text|-1];
      TrimmedCount(front, name);
      assert text == front + ['\n'] + "";
      SplitAfter(front, "", '\n');
      PinCountConcat(Split(front, '\n'), [""], name);
    }
  }

  lemma ReadLinesCount(text: string, name: string)
    ensures PinCount(ReadLines(text), name) == PinCount(Lines(text), name)
  {
    TrimmedCount(text, name);
    SplitCount(text, name);
  }

  lemma SplitCount(text: string, name: string)
    ensures PinCount(Lines(text), name) == PinCount(Front(text), name) + PinCount([LastLine(text)], name)
    ensures PinCount(Lines(text), name) == PinCount(Split(text, '\n'), name)
  {
    SplitLast(text);
    PinCountConcat(Front(text), [LastLine(text)], name);
  }

  ghost predicate Unique(text: string) {
    forall name :: PinCount(Lines(text), name) <= 1
  }

  lemma OneCount(line: string, host: string)
    ensures PinCount([line], host) == if PinsFor(line, host) then 1 else 0
  {
    assert [line][1..] == [];
  }

  /**
   * Appending keeps at most one pin per label if and only if every label the appended-to line pins
   * has no pin in the lines before it.
   */
  lemma AppendUniqueIff<K>(text: string, name: string, key: Key<K>)
    requires Printable(key) && '\n' !in name && Unique(text)
    ensures Unique(Append(text, name, key)) <==>
            forall l :: PinsFor(LastLine(text) + Line(name, key), l) ==> LookupLines(Front(text), l) == Missing
  {
    var line := LastLine(text) + Line(name, key);
    NoNewline(name, key);
    AppendedLines(text, Line(name, key));
    forall l ensures PinCount(Lines(Append(text, name, key)), l) <= 1
                     <==> (PinsFor(line, l) ==> LookupLines(Front(text), l) == Missing) {
      PinCountConcat(Front(text), [line], l);
      SplitCount(text, l);
      MissingMeansNone(Front(text), l);
      OneCount(line, l);
    }
  }

  /** Replacing does if and only if every label the new line pins has no pin on a line that is kept. */
  lemma ReplaceUniqueIff<K>(text: string, name: string, key: Key<K>)
    requires Printable(key) && '\n' !in name && Unique(text)
    ensures Unique(Replace(text, name, key)) <==>
            forall l :: PinsFor(Line(name, key), l) ==> LookupLines(Without(ReadLines(text), name), l) == Missing
  {
    var kept := Without(ReadLines(text), name);
    ReplacedLines(text, name, key);
    forall l ensures PinCount(Lines(Replace(text, name, key)), l) <= 1
                     <==> (PinsFor(Line(name, key), l) ==> LookupLines(kept, l) == Missing) {
      PinCountConcat(kept, [Line(name, key)], l);
      OneCount(Line(name, key), l);
      WithoutCount(ReadLines(text), name, l);
      ReadLinesCount(text, l);
      MissingMeansNone(kept, l);
    }
  }

  /** The torn last line, if there is one, is blank, a comment, or a whole pin line. */
  predicate Closed(text: string) {
    var f := Fields(LastLine(text));
    f == [] || Comment(f[0]) || |f| >= 3
  }

  lemma GrownPins<K>(last: string, name: string, key: Key<K>, host: string)
    requires Printable(key) && WellNamed(name)
    requires Fields(last) == [] || Comment(Fields(last)[0]) || |Fields(last)| >= 3
    ensures PinsFor(last + Line(name, key), host) ==> host == name || PinsFor(last, host)
  {
    var f := Fields(last);
    GrownWords(last, name, key);
    PlainHost(name);
    FieldsAreWords(last);
    var grown := Grown(last, name, key);
    if f == [] {
      assert grown == [name, key.algorithm, key.blob];
      assert Names(grown, host) <==> Names([name], host);
    } else {
      assert f[0] in f && grown[0][0] == f[0][0];
      assert |f| >= 3 ==> grown[0] == f[0];
    }
  }

  lemma AppendKeepsUnique<K>(text: string, name: string, key: Key<K>)
    requires Closed(text) && Printable(key) && WellNamed(name) && Unique(text) && Lookup(text, name) == Missing
    ensures Unique(Append(text, name, key))
  {
    PlainNoNewline(name);
    forall l | PinsFor(LastLine(text) + Line(name, key), l) ensures LookupLines(Front(text), l) == Missing {
      GrownPins(LastLine(text), name, key, l);
      BeforeReads(text, l);
      SplitCount(text, l);
      MissingMeansNone(Front(text), l);
      OneCount(LastLine(text), l);
    }
    AppendUniqueIff(text, name, key);
  }

  lemma ReplaceKeepsUnique<K>(text: string, name: string, key: Key<K>)
    requires Printable(key) && Unique(text) && WellNamed(name)
    ensures Unique(Replace(text, name, key))
  {
    PlainNoNewline(name);
    LineWords(name, key);
    PlainHost(name);
    forall l | PinsFor(Line(name, key), l) ensures LookupLines(Without(ReadLines(text), name), l) == Missing {
      assert Names([name], l);
      WithoutLookup(ReadLines(text), name, name);
    }
    ReplaceUniqueIff(text, name, key);
  }
}
