/**
 * The text of the host key pin file: one line per pin, "hosts algorithm key", where hosts is a
 * comma-separated list.  Blank lines and lines starting with '#' are ignored.
 */
module KnownHosts {
  import opened Common
  import opened Splitting

  // ----- splitting text

  predicate IsSpace(c: char) {
    c == ' ' || c == '\t' || c == '\n' || c == '\r'
  }

  predicate Wordy(s: string) {
    s != "" && forall c :: c in s ==> !IsSpace(c)
  }

  /** The words of s between runs of white space. */
  function Fields(s: string): seq<string> {
    if s == "" then []
    else if IsSpace(s[0]) then Fields(s[1..])
    else [s[..WordLength(s)]] + Fields(s[WordLength(s)..])
  }

  function WordLength(s: string): (n: nat)
    ensures n <= |s|
    ensures s != "" && !IsSpace(s[0]) ==> n > 0
  {
    if s == "" || IsSpace(s[0]) then 0 else 1 + WordLength(s[1..])
  }

  // ----- keys and pins

  /** A key as a server presents it: the type word and the text the store prints, and the key itself. */
  datatype Key<K> = Key(algorithm: string, blob: string, value: K)

  /** The key decoder of the SSH library, on the text of a key. */
  type Decoder<!K> = string -> Option<K>

  predicate Comment(w: string) {
    w != "" && w[0] == '#'
  }

  /** What the store prints for a key is two words, the first not a comment. */
  predicate Printable<K>(k: Key<K>) {
    Wordy(k.algorithm) && !Comment(k.algorithm) && Wordy(k.blob)
  }

  /** The printed text decodes to the key; the type word, which has a hyphen, does not decode. */
  predicate ValidKey<K(==)>(decode: Decoder<K>, k: Key<K>) {
    Printable(k) && decode(k.blob) == Some(k.value) && decode(k.algorithm) == None
  }

  predicate Matches(hosts: string, name: string) {
    name in Split(hosts, ',')
  }

  /** Whether the first of a line's words names the host. */
  predicate Names(f: seq<string>, name: string) {
    f != [] && !Comment(f[0]) && Matches(f[0], name)
  }

  /** What the file holds for a host: nothing, or the second and third word of a line. */
  datatype Raw = Missing | Words(kind: string, blob: string)

  /** What a line of these words holds for a host; fewer than three words hold nothing. */
  function Finds(f: seq<string>, name: string): Raw {
    if Names(f, name) && |f| >= 3 then Words(f[1], f[2]) else Missing
  }

  predicate PinsFor(line: string, name: string) {
    Finds(Fields(line), name) != Missing
  }

  // ----- lookup

  /** The first pin for a label decides. */
  function LookupLines(lines: seq<string>, name: string): Raw {
    if lines == [] then Missing
    else if PinsFor(lines[0], name) then Finds(Fields(lines[0]), name)
    else LookupLines(lines[1..], name)
  }

  /** The lines a scanner sees: a last line without newline counts unless it is empty. */
  function Lines(text: string): seq<string> {
    var pieces := Split(text, '\n');
    if pieces[|pieces|-1] == "" then pieces[..|pieces|-1] else pieces
  }

  function Lookup(text: string, name: string): Raw {
    LookupLines(Lines(text), name)
  }

  datatype Found<K> = NotFound | Broken | Pinned(key: K)

  /** The key a pin stands for: the type word is not looked at, unless it makes the rest a comment. */
  function Read<K>(decode: Decoder<K>, r: Raw): Found<K> {
    match r
    case Missing => NotFound
    case Words(kind, blob) =>
      if Comment(kind) then Broken
      else
        match decode(blob)
        case None => Broken
        case Some(k) => Pinned(k)
  }

  function Look<K>(decode: Decoder<K>, text: string, name: string): Found<K> {
    Read(decode, Lookup(text, name))
  }

  // ----- append and replace

  function Line<K>(name: string, key: Key<K>): string {
    name + " " + key.algorithm + " " + key.blob
  }

  function Append<K>(text: string, name: string, key: Key<K>): string {
    text + Line(name, key) + "\n"
  }

  function TrimNewlines(text: string): string {
    if text != "" && text[|text|-1] == '\n' then TrimNewlines(text[..|text|-1]) else text
  }

  function ReadLines(text: string): seq<string> {
    if text == "" then [] else Split(TrimNewlines(text), '\n')
  }

  /** Replacing a label's pin drops each line that names it, whole. */
  function Without(lines: seq<string>, name: string): seq<string> {
    if lines == [] then []
    else if Names(Fields(lines[0]), name) then Without(lines[1..], name)
    else [lines[0]] + Without(lines[1..], name)
  }

  /** The lines, each ended by a newline. */
  function Text(lines: seq<string>): string {
    if lines == [] then "" else lines[0] + "\n" + Text(lines[1..])
  }

  function Replace<K>(text: string, name: string, key: Key<K>): string {
    Text(Without(ReadLines(text), name) + [Line(name, key)])
  }

  // ----- words

  lemma {:induction false} WordFirst(w: string, rest: string)
    requires Wordy(w) && (rest == "" || IsSpace(rest[0]))
    ensures WordLength(w + rest) == |w|
    ensures Fields(w + rest) == [w] + Fields(rest)
  {
    WordLengthOf(w, rest);
    assert (w + rest)[..|w|] == w && (w + rest)[|w|..] == rest;
    assert !IsSpace((w + rest)[0]) by {
      assert (w + rest)[0] == w[0] && w[0] in w;
    }
  }

  lemma {:induction false} WordLengthOf(w: string, rest: string)
    requires (forall c :: c in w ==> !IsSpace(c)) && (rest == "" || IsSpace(rest[0]))
    ensures WordLength(w + rest) == |w|
  {
    if w == "" {
      assert w + rest == rest;
    } else {
      assert (w + rest)[1..] == w[1..] + rest;
      WordLengthOf(w[1..], rest);
      assert w[0] in w;
    }
  }

  lemma OneWord(w: string)
    requires Wordy(w)
    ensures Fields(w) == [w]
  {
    WordFirst(w, "");
    assert w + "" == w;
  }

  lemma {:induction false} FieldsAreWords(s: string)
    ensures forall f :: f in Fields(s) ==> Wordy(f)
  {
    if s != "" {
      if IsSpace(s[0]) {
        FieldsAreWords(s[1..]);
      } else {
        FieldsAreWords(s[WordLength(s)..]);
        WordPrefix(s);
      }
    }
  }

  lemma {:induction false} WordPrefix(s: string)
    ensures forall c :: c in s[..WordLength(s)] ==> !IsSpace(c)
  {
    if s != "" && !IsSpace(s[0]) {
      WordPrefix(s[1..]);
      assert s[..WordLength(s)] == [s[0]] + s[1..][..WordLength(s[1..])];
    }
  }

  lemma {:induction false} WordStops(s: string)
    ensures WordLength(s) < |s| ==> IsSpace(s[WordLength(s)])
  {
    if s != "" && !IsSpace(s[0]) {
      WordStops(s[1..]);
    }
  }

  /** Whether the last word of s would go on with whatever follows. */
  predicate EndsInWord(s: string) {
    s != "" && !IsSpace(s[|s|-1])
  }

  predicate StartsInWord(s: string) {
    s != "" && !IsSpace(s[0])
  }

  lemma {:induction false} FieldsOfEnding(s: string)
    ensures EndsInWord(s) || StartsInWord(s) ==> Fields(s) != []
  {
    if s != "" && IsSpace(s[0]) && |s| > 1 {
      FieldsOfEnding(s[1..]);
    }
  }

  /** The words f followed by the words g; with glue, the last of f and the first of g are one word. */
  function Joined(f: seq<string>, glue: bool, g: seq<string>): seq<string>
    requires glue ==> f != [] && g != []
  {
    if glue then f[..|f|-1] + [f[|f|-1] + g[0]] + g[1..] else f + g
  }

  predicate Glues(s: string, t: string) {
    EndsInWord(s) && StartsInWord(t)
  }

  /** The words of one text after another: those of both, one word where neither has white space between. */
  lemma {:induction false} FieldsConcat(s: string, t: string)
    ensures Glues(s, t) ==> Fields(s) != [] && Fields(t) != []
    ensures Fields(s + t) == Joined(Fields(s), Glues(s, t), Fields(t))
    decreases |s|
  {
    FieldsOfEnding(s);
    FieldsOfEnding(t);
    if s == "" {
      assert s + t == t;
    } else if IsSpace(s[0]) {
      FieldsConcat(s[1..], t);
      SpaceFirst(s, t);
    } else {
      WordPrefix(s);
      WordStops(s);
      if WordLength(s) == |s| {
        assert s[..|s|] == s;
        OneWordConcat(s, t);
      } else {
        FieldsConcat(s[WordLength(s)..], t);
        FirstWordConcat(s, WordLength(s), t);
      }
    }
  }

  lemma SpaceFirst(s: string, more: string)
    requires s != "" && IsSpace(s[0])
    ensures Fields(s) == Fields(s[1..]) && Fields(s + more) == Fields(s[1..] + more)
    ensures EndsInWord(s) <==> EndsInWord(s[1..])
  {
    assert (s + more)[1..] == s[1..] + more;
  }

  lemma FirstWordConcat(s: string, k: nat, t: string)
    requires 0 < k < |s| && Wordy(s[..k]) && IsSpace(s[k])
    requires Glues(s[k..], t) ==> Fields(s[k..]) != [] && Fields(t) != []
    requires Fields(s[k..] + t) == Joined(Fields(s[k..]), Glues(s[k..], t), Fields(t))
    ensures Glues(s, t) ==> Fields(s) != [] && Fields(t) != []
    ensures Fields(s + t) == Joined(Fields(s), Glues(s, t), Fields(t))
  {
    var word, tail := s[..k], s[k..];
    assert s == word + tail && s + t == word + (tail + t);
    assert tail[|tail|-1] == s[|s|-1];
    WordFirst(word, tail);
    WordFirst(word, tail + t);
    JoinedAfter(word, Fields(tail), Glues(tail, t), Fields(t));
  }

  lemma JoinedAfter(word: string, f: seq<string>, glue: bool, g: seq<string>)
    requires glue ==> f != [] && g != []
    ensures Joined([word] + f, glue, g) == [word] + Joined(f, glue, g)
  {
    if glue {
      assert ([word] + f)[..|f|] == [word] + f[..|f|-1];
    }
  }

  lemma WordsJoin(s: string, w: string)
    requires Wordy(s) && Wordy(w)
    ensures Wordy(s + w)
  {
    forall c | c in s + w ensures !IsSpace(c) {
      assert c in s || c in w;
    }
  }

  lemma {:induction false} OneWordConcat(s: string, t: string)
    requires Wordy(s)
    ensures Fields(s) == [s] && EndsInWord(s) && (StartsInWord(t) ==> Fields(t) != [])
    ensures Fields(s + t) == Joined([s], StartsInWord(t), Fields(t))
  {
    OneWord(s);
    assert s[|s|-1] in s;
    FieldsOfEnding(t);
    if StartsInWord(t) {
      GluedWords(s, t);
    } else {
      WordFirst(s, t);
    }
  }

  lemma GluedWords(s: string, t: string)
    requires Wordy(s) && StartsInWord(t)
    ensures Fields(t) != [] && Fields(s + t) == [s + Fields(t)[0]] + Fields(t)[1..]
  {
    var k := WordLength(t);
    WordPrefix(t);
    WordStops(t);
    assert t == t[..k] + t[k..] && s + t == (s + t[..k]) + t[k..];
    WordsJoin(s, t[..k]);
    WordFirst(t[..k], t[k..]);
    WordFirst(s + t[..k], t[k..]);
  }

  // ----- names that survive the round trip

  /** A label that can stand alone in the host field: one word, no comma, not a comment. */
  predicate WellNamed(name: string) {
    Wordy(name) && ',' !in name && name[0] != '#'
  }

  lemma AfterSpace(s: string)
    ensures Fields(" " + s) == Fields(s) && !StartsInWord(" " + s)
  {
    assert (" " + s)[1..] == s;
  }

  lemma TwoWords(a: string, b: string)
    requires Wordy(a) && Wordy(b)
    ensures Fields(a + (" " + b)) == [a, b]
  {
    WordFirst(a, " " + b);
    AfterSpace(b);
    OneWord(b);
  }

  /** The words of a formatted line, whatever its label. */
  lemma LineWords<K>(name: string, key: Key<K>)
    requires Printable(key)
    ensures Fields(Line(name, key)) == Fields(name) + [key.algorithm, key.blob]
  {
    var pin := key.algorithm + (" " + key.blob);
    assert Line(name, key) == name + (" " + pin);
    TwoWords(key.algorithm, key.blob);
    AfterSpace(pin);
    FieldsConcat(name, " " + pin);
  }

  lemma PlainHost(name: string)
    requires WellNamed(name)
    ensures Fields(name) == [name] && forall host :: Names([name], host) <==> host == name
  {
    OneWord(name);
    SplitWhole(name, ',');
  }

  /** A formatted line reads back as exactly the pin it was made from, for its own label only. */
  lemma LineRoundTrip<K>(decode: Decoder<K>, name: string, key: Key<K>)
    requires WellNamed(name) && ValidKey(decode, key)
    ensures Finds(Fields(Line(name, key)), name) == Words(key.algorithm, key.blob)
    ensures Read(decode, Finds(Fields(Line(name, key)), name)) == Pinned(key.value)
    ensures forall host :: PinsFor(Line(name, key), host) <==> host == name
  {
    LineWords(name, key);
    PlainHost(name);
    var f := Fields(Line(name, key));
    assert f == [name, key.algorithm, key.blob];
    assert forall host :: Names(f, host) <==> Names([name], host);
  }

  /** No words can ever name a label with white space or a comma in it. */
  lemma OnlyPlainLabelsMatch(line: string, name: string)
    requires Names(Fields(line), name)
    ensures ',' !in name && forall c :: c in name ==> !IsSpace(c)
  {
    FieldsAreWords(line);
    SplitPieces(Fields(line)[0], ',');
    assert Fields(line)[0] in Fields(line);
  }

  /** A line that pins its own label was made from one that can stand alone. */
  lemma OwnPinIsWellNamed<K>(name: string, key: Key<K>)
    requires Printable(key) && name != ""
    ensures PinsFor(Line(name, key), name) ==> WellNamed(name)
  {
    if PinsFor(Line(name, key), name) {
      OnlyPlainLabelsMatch(Line(name, key), name);
      LineWords(name, key);
      OneWord(name);
    }
  }
}
