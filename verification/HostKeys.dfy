/**
 * Trust on first use over the pin file.  A verification is one section under the store's lock, or
 * two: the lock is dropped while the trusted roster is fetched.  Sections of concurrent
 * verifications interleave freely.
 */
module HostKeyProtocol {
  import opened Common
  import opened Splitting
  import opened KnownHosts
  import opened PinEdits

  /** What the SSH library does with keys: decode their text, and fingerprint them. */
  datatype Codec<!K> = Codec(decode: Decoder<K>, fingerprint: K -> string)

  datatype Call<K> = Call(name: string, key: Key<K>)

  /** Fetching(true): the label had no pin.  Fetching(false): it had another key's. */
  datatype Phase = Start | Fetching(unpinned: bool) | Done(ok: bool)

  /**
   * The inputs of one section: whether the pin file could be read and written, the roster as read
   * in this section, and, for the second section, whether the fetch before it succeeded.
   */
  datatype Inputs = Inputs(readable: bool, writable: bool, trusted: seq<string>, synced: bool)

  predicate InRoster<K>(kc: Codec<K>, k: Key<K>, trusted: seq<string>) {
    kc.fingerprint(k.value) in trusted
  }

  datatype Outcome = Outcome(text: string, phase: Phase)

  function PinNew<K>(text: string, c: Call<K>, i: Inputs): Outcome {
    if i.writable then Outcome(Append(text, c.name, c.key), Done(true)) else Outcome(text, Done(false))
  }

  function PinOver<K>(text: string, c: Call<K>, i: Inputs): Outcome {
    if i.writable then Outcome(Replace(text, c.name, c.key), Done(true)) else Outcome(text, Done(false))
  }

  /** The first section. */
  function First<K(==)>(kc: Codec<K>, text: string, c: Call<K>, i: Inputs): Outcome {
    if c.name == "" || !i.readable then Outcome(text, Done(false))
    else
      match Look(kc.decode, text, c.name)
      case Broken => Outcome(text, Done(false))
      case NotFound =>
        if InRoster(kc, c.key, i.trusted) then PinNew(text, c, i) else Outcome(text, Fetching(true))
      case Pinned(k) =>
        if k == c.key.value then Outcome(text, Done(true))
        else if InRoster(kc, c.key, i.trusted) then PinOver(text, c, i)
        else Outcome(text, Fetching(false))
  }

  /** The second section.  Only the path of an unpinned label looks the label up again. */
  function Second<K(==)>(kc: Codec<K>, text: string, c: Call<K>, unpinned: bool, i: Inputs): Outcome {
    if unpinned then
      if i.trusted != [] && !InRoster(kc, c.key, i.trusted) then Outcome(text, Done(false))
      else if !i.readable then Outcome(text, Done(false))
      else
        match Look(kc.decode, text, c.name)
        case Broken => Outcome(text, Done(false))
        case Pinned(k) => Outcome(text, Done(k == c.key.value))
        case NotFound => PinNew(text, c, i)
    else if i.synced && InRoster(kc, c.key, i.trusted) then PinOver(text, c, i)
    else Outcome(text, Done(false))
  }

  function SectionOf<K(==)>(kc: Codec<K>, text: string, c: Call<K>, phase: Phase, i: Inputs): Outcome {
    if phase.Fetching? then Second(kc, text, c, phase.unpinned, i) else First(kc, text, c, i)
  }

  /** A verification nobody gets in between of: `i` are the first section's inputs, `j` the second's. */
  function Verify<K(==)>(kc: Codec<K>, text: string, c: Call<K>, i: Inputs, j: Inputs): Outcome {
    var o := First(kc, text, c, i);
    if o.phase.Fetching? then Second(kc, o.text, c, o.phase.unpinned, j) else o
  }

  /** What trust on first use admits over a roster, as cached and as fetched. */
  predicate Admits<K(==)>(kc: Codec<K>, text: string, c: Call<K>, i: Inputs, j: Inputs) {
    match Look(kc.decode, text, c.name)
    case NotFound => InRoster(kc, c.key, i.trusted) || InRoster(kc, c.key, j.trusted) || j.trusted == []
    case Pinned(k) =>
      k == c.key.value || InRoster(kc, c.key, i.trusted) || (j.synced && InRoster(kc, c.key, j.trusted))
    case Broken => false
  }

  /**
   * An undisturbed verification over a file that can be read and written accepts exactly what is
   * admitted, and leaves the file alone when it does not.
   */
  lemma AcceptsIff<K>(kc: Codec<K>, text: string, c: Call<K>, i: Inputs, j: Inputs)
    requires c.name != "" && i.readable && i.writable && j.readable && j.writable
    ensures Verify(kc, text, c, i, j).phase == Done(Admits(kc, text, c, i, j))
    ensures !Admits(kc, text, c, i, j) ==> Verify(kc, text, c, i, j).text == text
  {
  }

  /**
   * When it accepts, over a file ended by a newline and for a label that can stand alone, the same
   * verification again is accepted at once, whatever the roster says then.
   */
  lemma AcceptedAgain<K>(kc: Codec<K>, text: string, c: Call<K>, i: Inputs, j: Inputs, again: Inputs)
    requires WellNamed(c.name) && Terminated(text) && ValidKey(kc.decode, c.key) && again.readable
    requires Verify(kc, text, c, i, j).phase == Done(true)
    ensures First(kc, Verify(kc, text, c, i, j).text, c, again) == Outcome(Verify(kc, text, c, i, j).text, Done(true))
  {
    var o := First(kc, text, c, i);
    PlainNoNewline(c.name);
    BlankTakesIff(kc.decode, LastLine(text), c.name, c.key);
    SectionActs(kc, text, c, Start, i);
    if o.phase.Fetching? {
      SuccessPinsIff(kc, text, c, o.phase, j);
    } else {
      SuccessPinsIff(kc, text, c, Start, i);
    }
  }

  // ----- interleavings

  datatype Thread<K> = Thread(call: Call<K>, phase: Phase)

  datatype Store<K> = Store(text: string, threads: map<nat, Thread<K>>)

  datatype Step<K> =
    | DoBegin(id: nat, call: Call<K>)
    | DoFirst(id: nat, inputs: Inputs)
    | DoSecond(id: nat, inputs: Inputs)

  predicate InLine(name: string) {
    '\n' !in name
  }

  /** Calls name a host in one line of text, of whatever form, and present a key the library knows. */
  predicate Enabled<K(==)>(kc: Codec<K>, s: Store<K>, step: Step<K>) {
    match step
    case DoBegin(id, c) => id !in s.threads && InLine(c.name) && ValidKey(kc.decode, c.key)
    case DoFirst(id, _) => id in s.threads && s.threads[id].phase == Start
    case DoSecond(id, _) => id in s.threads && s.threads[id].phase.Fetching?
  }

  function Section<K(==)>(kc: Codec<K>, s: Store<K>, step: Step<K>): Outcome
    requires Enabled(kc, s, step) && !step.DoBegin?
  {
    var t := s.threads[step.id];
    SectionOf(kc, s.text, t.call, t.phase, step.inputs)
  }

  function Next<K(==)>(kc: Codec<K>, s: Store<K>, step: Step<K>): Store<K>
    requires Enabled(kc, s, step)
  {
    if step.DoBegin? then s.(threads := s.threads[step.id := Thread(step.call, Start)])
    else
      var o := Section(kc, s, step);
      Store(o.text, s.threads[step.id := s.threads[step.id].(phase := o.phase)])
  }

  ghost predicate Reaches<K>(kc: Codec<K>, s: Store<K>, steps: seq<Step<K>>, t: Store<K>)
    decreases |steps|
  {
    if steps == [] then s == t
    else Enabled(kc, s, steps[0]) && Reaches(kc, Next(kc, s, steps[0]), steps[1..], t)
  }

  // ----- what one section does to the file

  /** A section leaves the file alone, appends a pin, or replaces one. */
  datatype Act = Stand | Add | Overwrite

  /** What a section that succeeds did, from what it found. */
  function ActOf<K(==)>(kc: Codec<K>, text: string, c: Call<K>, phase: Phase): Act {
    if phase == Fetching(false) then Overwrite
    else
      match Look(kc.decode, text, c.name)
      case NotFound => Add
      case Pinned(k) => if k == c.key.value then Stand else Overwrite
      case Broken => Stand
  }

  function Acted<K>(text: string, c: Call<K>, act: Act): string {
    match act
    case Stand => text
    case Add => Append(text, c.name, c.key)
    case Overwrite => Replace(text, c.name, c.key)
  }

  lemma SectionActs<K>(kc: Codec<K>, text: string, c: Call<K>, phase: Phase, i: Inputs)
    ensures var o, act := SectionOf(kc, text, c, phase, i), ActOf(kc, text, c, phase);
            && (o.text == text || o.text == Acted(text, c, act))
            && (o.phase == Done(true) ==> o.text == Acted(text, c, act))
            && (o.phase != Done(true) ==> o.text == text)
            && (o.phase == Done(true) && act == Stand ==> Look(kc.decode, text, c.name) == Pinned(c.key.value))
            && (act == Add ==> Lookup(text, c.name) == Missing)
            && (o.text != text && act == Overwrite ==> InRoster(kc, c.key, i.trusted))
            && (o.text != text && act == Add ==> InRoster(kc, c.key, i.trusted) || i.trusted == [])
  {
  }

  /**
   * A section that succeeds leaves its own key pinned if and only if, when it appended, the file's
   * last line took the pin, and, when it replaced, the label can stand alone in the host field.
   */
  lemma SuccessPinsIff<K>(kc: Codec<K>, text: string, c: Call<K>, phase: Phase, i: Inputs)
    requires InLine(c.name) && ValidKey(kc.decode, c.key) && c.name != ""
    requires SectionOf(kc, text, c, phase, i).phase == Done(true)
    ensures Look(kc.decode, SectionOf(kc, text, c, phase, i).text, c.name) == Pinned(c.key.value) <==>
            match ActOf(kc, text, c, phase)
            case Stand => true
            case Add => TakesPin(kc.decode, LastLine(text), c.name, c.key)
            case Overwrite => WellNamed(c.name)
  {
    SectionActs(kc, text, c, phase, i);
    match ActOf(kc, text, c, phase) {
      case Stand =>
      case Add => AppendPinsIff(kc.decode, text, c.name, c.key);
      case Overwrite => ReplacePinsIff(kc.decode, text, c.name, c.key);
    }
  }

  /** Whether an act changes what a host finds; when it replaces, a host that its label does not name. */
  ghost predicate Changes<K>(kc: Codec<K>, text: string, c: Call<K>, act: Act, host: string) {
    match act
    case Stand => false
    case Add =>
      && LookupLines(Front(text), host) == Missing
      && (Glues(LastLine(text), c.name) ==> Fields(c.name) != [])
      && Disturbs(kc.decode, LastLine(text), c.name, host)
    case Overwrite => !Apart(ReadLines(text), c.name, host)
  }

  /** What a section does to any host's lookup, for any label in one line. */
  lemma SectionChangesIff<K>(kc: Codec<K>, text: string, c: Call<K>, phase: Phase, i: Inputs, host: string)
    requires InLine(c.name) && ValidKey(kc.decode, c.key) && Unique(text)
    requires ActOf(kc, text, c, phase) == Overwrite ==> !Names(Fields(c.name), host)
    ensures var after := SectionOf(kc, text, c, phase, i).text;
            Look(kc.decode, after, host) != Look(kc.decode, text, host) <==>
            after != text && Changes(kc, text, c, ActOf(kc, text, c, phase), host)
  {
    SectionActs(kc, text, c, phase, i);
    match ActOf(kc, text, c, phase) {
      case Stand =>
      case Add => AppendDisturbsIff(kc.decode, text, c.name, c.key, host);
      case Overwrite => ReplaceKeepsIff(kc.decode, text, c.name, c.key, host);
    }
  }

  /** A section leaves at most one pin per label exactly when no label its line pins has another. */
  lemma SectionUniqueIff<K>(kc: Codec<K>, text: string, c: Call<K>, phase: Phase, i: Inputs)
    requires InLine(c.name) && ValidKey(kc.decode, c.key) && Unique(text)
    ensures var after, line := SectionOf(kc, text, c, phase, i).text, Line(c.name, c.key);
            Unique(after) <==>
            after == text
            || match ActOf(kc, text, c, phase)
               case Stand => true
               case Add => forall l :: PinsFor(LastLine(text) + line, l) ==> LookupLines(Front(text), l) == Missing
               case Overwrite =>
                 forall l :: PinsFor(line, l) ==> LookupLines(Without(ReadLines(text), c.name), l) == Missing
  {
    SectionActs(kc, text, c, phase, i);
    match ActOf(kc, text, c, phase) {
      case Stand =>
      case Add => AppendUniqueIff(text, c.name, c.key);
      case Overwrite => ReplaceUniqueIff(text, c.name, c.key);
    }
  }

  // ----- invariants

  ghost predicate LabelsWellNamed<K>(s: Store<K>) {
    forall id :: id in s.threads ==> WellNamed(s.threads[id].call.name)
  }

  /** A thread between its sections has a label. */
  ghost predicate CallsInLine<K>(kc: Codec<K>, s: Store<K>) {
    forall id :: id in s.threads ==>
      var t := s.threads[id];
      InLine(t.call.name) && ValidKey(kc.decode, t.call.key) && (t.phase.Fetching? ==> t.call.name != "")
  }

  /** The file is as it was, or a section has written it and ended it with a newline. */
  predicate Untouched(start: string, text: string) {
    text == start || Terminated(text)
  }

  lemma ActedTerminates<K>(kc: Codec<K>, text: string, c: Call<K>, act: Act)
    requires InLine(c.name) && ValidKey(kc.decode, c.key)
    ensures act == Stand || Terminated(Acted(text, c, act))
  {
    NoNewline(c.name, c.key);
    AppendedLines(text, Line(c.name, c.key));
    ReplacedLines(text, c.name, c.key);
  }

  lemma ActedKeepsUnique<K>(kc: Codec<K>, text: string, c: Call<K>, phase: Phase)
    requires Unique(text) && Closed(text) && WellNamed(c.name) && ValidKey(kc.decode, c.key)
    ensures Unique(Acted(text, c, ActOf(kc, text, c, phase)))
  {
    match ActOf(kc, text, c, phase) {
      case Stand =>
      case Add => AppendKeepsUnique(text, c.name, c.key);
      case Overwrite => ReplaceKeepsUnique(text, c.name, c.key);
    }
  }

  lemma StepKeeps<K>(kc: Codec<K>, s: Store<K>, step: Step<K>, start: string)
    requires Enabled(kc, s, step) && CallsInLine(kc, s) && Untouched(start, s.text)
    ensures var s' := Next(kc, s, step);
            && CallsInLine(kc, s') && Untouched(start, s'.text)
            && (Unique(s.text) && Closed(s.text) && LabelsWellNamed(s) ==> Unique(s'.text) && Closed(s'.text))
            && (LabelsWellNamed(s') ==> LabelsWellNamed(s))
  {
    var s' := Next(kc, s, step);
    if step.DoBegin? {
      assert forall id :: id in s.threads ==> id in s'.threads && s'.threads[id] == s.threads[id];
    } else {
      var c, phase := s.threads[step.id].call, s.threads[step.id].phase;
      SectionActs(kc, s.text, c, phase, step.inputs);
      ActedTerminates(kc, s.text, c, ActOf(kc, s.text, c, phase));
      assert forall id :: id in s.threads ==> id in s'.threads && s'.threads[id].call == s.threads[id].call;
      if s'.text != s.text && Unique(s.text) && Closed(s.text) && LabelsWellNamed(s) {
        ActedKeepsUnique(kc, s.text, c, phase);
      }
    }
  }

  lemma {:induction false} RunKeeps<K>(kc: Codec<K>, s: Store<K>, steps: seq<Step<K>>, t: Store<K>, start: string)
    requires Reaches(kc, s, steps, t) && CallsInLine(kc, s) && Untouched(start, s.text)
    ensures CallsInLine(kc, t) && Untouched(start, t.text) && (LabelsWellNamed(t) ==> LabelsWellNamed(s))
    ensures Unique(s.text) && Closed(s.text) && LabelsWellNamed(t) ==> Unique(t.text) && Closed(t.text)
    decreases |steps|
  {
    if steps != [] {
      StepKeeps(kc, s, steps[0], start);
      RunKeeps(kc, Next(kc, s, steps[0]), steps[1..], t, start);
    }
  }

  // ----- what every interleaving keeps

  /**
   * No interleaving ever leaves two pins for one label: from a file with unique pins whose last line,
   * if it has no newline, is a comment or a whole pin, and for labels that can stand alone.
   */
  lemma {:induction false} PinsStayUnique<K>(kc: Codec<K>, s: Store<K>, steps: seq<Step<K>>, t: Store<K>)
    requires s.threads == map[] && Unique(s.text) && Closed(s.text)
    requires Reaches(kc, s, steps, t) && LabelsWellNamed(t)
    ensures Unique(t.text)
  {
    RunKeeps(kc, s, steps, t, s.text);
  }

  /**
   * In every interleaving, over any file and for any labels: a verification that succeeds leaves its
   * own key pinned if it found it there; if it replaced, or appended after the file was written,
   * exactly when its label can stand alone; and if it appended to the file as found, exactly when
   * that file's last line takes the pin.
   */
  lemma {:induction false} SuccessMeansPinned<K>(
      kc: Codec<K>, s: Store<K>, steps: seq<Step<K>>, t: Store<K>, step: Step<K>)
    requires s.threads == map[] && Reaches(kc, s, steps, t) && Enabled(kc, t, step) && !step.DoBegin?
    requires Section(kc, t, step).phase == Done(true)
    ensures var c, phase := t.threads[step.id].call, t.threads[step.id].phase;
            Look(kc.decode, Next(kc, t, step).text, c.name) == Pinned(c.key.value) <==>
            match ActOf(kc, t.text, c, phase)
            case Stand => true
            case Add =>
              if t.text == s.text then TakesPin(kc.decode, LastLine(s.text), c.name, c.key) else WellNamed(c.name)
            case Overwrite => WellNamed(c.name)
  {
    RunKeeps(kc, s, steps, t, s.text);
    var c, phase := t.threads[step.id].call, t.threads[step.id].phase;
    SuccessPinsIff(kc, t.text, c, phase, step.inputs);
    if Terminated(t.text) {
      BlankTakesIff(kc.decode, LastLine(t.text), c.name, c.key);
    }
  }

  /** From a file that ends in a newline, or in blanks, every success of a label that can stand alone pins. */
  lemma {:induction false} SuccessAlwaysPins<K>(
      kc: Codec<K>, s: Store<K>, steps: seq<Step<K>>, t: Store<K>, step: Step<K>)
    requires s.threads == map[] && Reaches(kc, s, steps, t) && Enabled(kc, t, step) && !step.DoBegin?
    requires Section(kc, t, step).phase == Done(true) && WellNamed(t.threads[step.id].call.name)
    requires Fields(LastLine(s.text)) == []
    ensures var c := t.threads[step.id].call;
            Look(kc.decode, Next(kc, t, step).text, c.name) == Pinned(c.key.value)
  {
    SuccessMeansPinned(kc, s, steps, t, step);
    var c := t.threads[step.id].call;
    BlankTakesIff(kc.decode, LastLine(s.text), c.name, c.key);
  }

  /**
   * What a section may do to its own label's pin: nothing, or pin its own key; over another key only
   * when the roster just read lists it, and over nothing only when that roster lists it or is empty.
   */
  ghost predicate Lawful<K>(kc: Codec<K>, before: Found<K>, after: Found<K>, c: Call<K>, trusted: seq<string>) {
    || after == before
    || (after == Pinned(c.key.value)
        && (InRoster(kc, c.key, trusted) || (before == NotFound && trusted == [])))
  }

  /** A missing label appended to a closed file finds its key or nothing. */
  lemma AppendOwn<K>(kc: Codec<K>, text: string, c: Call<K>)
    requires Closed(text) && WellNamed(c.name) && ValidKey(kc.decode, c.key) && Lookup(text, c.name) == Missing
    ensures Look(kc.decode, Append(text, c.name, c.key), c.name) in {NotFound, Pinned(c.key.value)}
  {
    PlainNoNewline(c.name);
    AppendPinsIff(kc.decode, text, c.name, c.key);
    AppendDisturbsIff(kc.decode, text, c.name, c.key, c.name);
    BeforeReads(text, c.name);
    if Fields(LastLine(text)) == [] {
      BlankTakesIff(kc.decode, LastLine(text), c.name, c.key);
    }
  }

  lemma OwnIsLawful<K>(kc: Codec<K>, text: string, c: Call<K>, phase: Phase, i: Inputs)
    requires WellNamed(c.name) && ValidKey(kc.decode, c.key)
    ensures var after := SectionOf(kc, text, c, phase, i).text;
            || Lawful(kc, Look(kc.decode, text, c.name), Look(kc.decode, after, c.name), c, i.trusted)
            || (ActOf(kc, text, c, phase) == Add && !Closed(text))
  {
    SectionActs(kc, text, c, phase, i);
    match ActOf(kc, text, c, phase) {
      case Stand =>
      case Add =>
        if Closed(text) {
          AppendOwn(kc, text, c);
        }
      case Overwrite =>
        PlainNoNewline(c.name);
        ReplacePinsIff(kc.decode, text, c.name, c.key);
    }
  }

  /**
   * In every interleaving, whatever the labels of the others: over a file with unique pins, a section
   * changes its own label's pin only lawfully, unless it appends to a line of the file as found that
   * is too short for a pin; and another host's exactly when it replaces on the line that pins the
   * other too, or appends to the file as found and disturbs what the other finds on its last line.
   */
  lemma {:induction false} SectionIsLawful<K>(
      kc: Codec<K>, s: Store<K>, steps: seq<Step<K>>, t: Store<K>, step: Step<K>, host: string)
    requires s.threads == map[] && Reaches(kc, s, steps, t) && Unique(t.text)
    requires Enabled(kc, t, step) && !step.DoBegin? && WellNamed(t.threads[step.id].call.name)
    ensures var c, phase, after := t.threads[step.id].call, t.threads[step.id].phase, Next(kc, t, step).text;
            var act := ActOf(kc, t.text, c, phase);
            if host == c.name then
              || Lawful(kc, Look(kc.decode, t.text, host), Look(kc.decode, after, host), c, step.inputs.trusted)
              || (act == Add && t.text == s.text && !Closed(s.text))
            else
              Look(kc.decode, after, host) != Look(kc.decode, t.text, host) <==>
              after != t.text && Changes(kc, t.text, c, act, host) && (act == Add ==> t.text == s.text)
  {
    RunKeeps(kc, s, steps, t, s.text);
    var c, phase := t.threads[step.id].call, t.threads[step.id].phase;
    PlainHost(c.name);
    if host == c.name {
      OwnIsLawful(kc, t.text, c, phase, step.inputs);
    } else {
      SectionChangesIff(kc, t.text, c, phase, step.inputs, host);
    }
  }

  // ----- files whose lines name one host each

  /** Every line names at most one host. */
  predicate SingleHosts(lines: seq<string>) {
    forall l :: l in lines ==> Fields(l) == [] || Comment(Fields(l)[0]) || ',' !in Fields(l)[0]
  }

  lemma SingleMeansApart(lines: seq<string>, a: string, b: string)
    requires SingleHosts(lines) && a != b
    ensures Apart(lines, a, b)
  {
    forall l | l in lines && PinsFor(l, b) ensures !Names(Fields(l), a) {
      SplitWhole(Fields(l)[0], ',');
    }
  }

  lemma {:induction false} TrimmedPieces(text: string)
    ensures forall l :: l in Split(TrimNewlines(text), '\n') ==> l in Split(text, '\n')
  {
    if text != "" && text[|text|-1] == '\n' {
      var front := text[..|text|-1];
      TrimmedPieces(front);
      assert text == front + ['\n'] + "";
      SplitAfter(front, "", '\n');
    }
  }

  lemma ActedStaysSingle<K>(text: string, c: Call<K>, act: Act)
    requires Terminated(text) && SingleHosts(Split(text, '\n')) && WellNamed(c.name) && Printable(c.key)
    ensures SingleHosts(Split(Acted(text, c, act), '\n'))
  {
    var line := Line(c.name, c.key);
    PlainNoNewline(c.name);
    NoNewline(c.name, c.key);
    LineWords(c.name, c.key);
    PlainHost(c.name);
    match act {
      case Stand =>
      case Add =>
        AppendedLines(text, line);
        assert LastLine(text) + line == line;
        SplitLast(Append(text, c.name, c.key));
        SplitLast(text);
      case Overwrite =>
        ReplacedLines(text, c.name, c.key);
        SplitLast(Replace(text, c.name, c.key));
        TrimmedPieces(text);
        WithoutIsPart(ReadLines(text), c.name);
    }
  }

  lemma {:induction false} RunStaysSingle<K>(kc: Codec<K>, s: Store<K>, steps: seq<Step<K>>, t: Store<K>)
    requires Reaches(kc, s, steps, t) && LabelsWellNamed(t) && CallsInLine(kc, s)
    requires Terminated(s.text) && SingleHosts(Split(s.text, '\n'))
    ensures SingleHosts(Split(t.text, '\n')) && Terminated(t.text)
    decreases |steps|
  {
    if steps != [] {
      var step := steps[0];
      StepKeeps(kc, s, step, s.text);
      RunKeeps(kc, Next(kc, s, step), steps[1..], t, s.text);
      if !step.DoBegin? {
        var c, phase := s.threads[step.id].call, s.threads[step.id].phase;
        SectionActs(kc, s.text, c, phase, step.inputs);
        ActedTerminates(kc, s.text, c, ActOf(kc, s.text, c, phase));
        ActedStaysSingle(s.text, c, ActOf(kc, s.text, c, phase));
      }
      RunStaysSingle(kc, Next(kc, s, step), steps[1..], t);
    }
  }

  /** From such a file, ended by a newline, no interleaving ever changes another label's pin. */
  lemma {:induction false} OthersNeverChange<K>(
      kc: Codec<K>, s: Store<K>, steps: seq<Step<K>>, t: Store<K>, step: Step<K>, host: string)
    requires s.threads == map[] && Unique(s.text) && Terminated(s.text) && SingleHosts(Split(s.text, '\n'))
    requires Reaches(kc, s, steps, t) && LabelsWellNamed(t) && Enabled(kc, t, step) && !step.DoBegin?
    requires host != t.threads[step.id].call.name
    ensures Look(kc.decode, Next(kc, t, step).text, host) == Look(kc.decode, t.text, host)
  {
    var name := t.threads[step.id].call.name;
    RunKeeps(kc, s, steps, t, s.text);
    SectionIsLawful(kc, s, steps, t, step, host);
    RunStaysSingle(kc, s, steps, t);
    TrimmedPieces(t.text);
    SingleMeansApart(ReadLines(t.text), name, host);
    PlainHost(name);
  }
}

/** The store as it runs: the file's text, rewritten or appended to under the lock. */
module HostKeyStores {
  import opened Common
  import opened KnownHosts
  import opened HostKeyProtocol

  class HostKeyStore<K(==)> {
    const codec: Codec<K>
    var file: string

    constructor (codec: Codec<K>, text: string)
      ensures this.codec == codec && file == text
    {
      this.codec := codec;
      file := text;
    }

    /** Scans for the first line that pins the label. */
    method LookupPin(name: string) returns (found: Found<K>)
      ensures found == Look(codec.decode, file, name)
    {
      var lines := Lines(file);
      var i := 0;
      while i < |lines|
        invariant 0 <= i <= |lines|
        invariant LookupLines(lines[i..], name) == Lookup(file, name)
      {
        assert lines[i..][1..] == lines[i+1..];
        var f := Fields(lines[i]);
        if f != [] && !Comment(f[0]) && |f| >= 3 && Matches(f[0], name) {
          return Read(codec.decode, Words(f[1], f[2]));
        }
        i := i + 1;
      }
      found := NotFound;
    }

    method AppendPin(name: string, key: Key<K>, writable: bool) returns (ok: bool)
      modifies this
      ensures Outcome(file, Done(ok)) == PinNew(old(file), Call(name, key), Inputs(true, writable, [], true))
    {
      if !writable {
        return false;
      }
      file := file + name + " " + key.algorithm + " " + key.blob + "\n";
      assert file == Append(old(file), name, key);
      ok := true;
    }

    /** Rewrites the file without the label's lines, then its new pin. */
    method ReplacePin(name: string, key: Key<K>, writable: bool) returns (ok: bool)
      modifies this
      ensures Outcome(file, Done(ok)) == PinOver(old(file), Call(name, key), Inputs(true, writable, [], true))
    {
      if !writable {
        return false;
      }
      var lines := ReadLines(file);
      var kept: seq<string> := [];
      var i := 0;
      while i < |lines|
        invariant 0 <= i <= |lines|
        invariant kept + Without(lines[i..], name) == Without(lines, name)
      {
        assert lines[i..][1..] == lines[i+1..];
        ghost var rest := Without(lines[i+1..], name);
        if !Names(Fields(lines[i]), name) {
          assert kept + ([lines[i]] + rest) == kept + [lines[i]] + rest;
          kept := kept + [lines[i]];
        }
        i := i + 1;
      }
      assert kept == Without(lines, name);
      file := WriteLines(kept + [Line(name, key)]);
      ok := true;
    }

    static method WriteLines(lines: seq<string>) returns (text: string)
      ensures text == Text(lines)
    {
      text := "";
      var i := |lines|;
      assert lines[i..] == [];
      while i > 0
        invariant 0 <= i <= |lines|
        invariant text == Text(lines[i..])
      {
        i := i - 1;
        assert lines[i..][1..] == lines[i+1..];
        text := lines[i] + "\n" + text;
      }
      assert lines[0..] == lines;
    }

    /** From taking the lock to releasing it, for good or for the fetch. */
    method VerifyFirst(c: Call<K>, i: Inputs) returns (phase: Phase)
      modifies this
      ensures Outcome(file, phase) == First(codec, old(file), c, i)
    {
      if c.name == "" || !i.readable {
        return Done(false);
      }
      var stored := LookupPin(c.name);
      match stored {
        case Broken => return Done(false);
        case NotFound =>
          if codec.fingerprint(c.key.value) !in i.trusted {
            return Fetching(true);
          }
          var ok := AppendPin(c.name, c.key, i.writable);
          return Done(ok);
        case Pinned(k) =>
          if k == c.key.value {
            return Done(true);
          }
          if codec.fingerprint(c.key.value) !in i.trusted {
            return Fetching(false);
          }
          var ok := ReplacePin(c.name, c.key, i.writable);
          return Done(ok);
      }
    }

    /** After the fetch, with the lock taken again. */
    method VerifySecond(c: Call<K>, unpinned: bool, i: Inputs) returns (phase: Phase)
      modifies this
      ensures Outcome(file, phase) == Second(codec, old(file), c, unpinned, i)
    {
      if !unpinned {
        if !i.synced || codec.fingerprint(c.key.value) !in i.trusted {
          return Done(false);
        }
        var ok := ReplacePin(c.name, c.key, i.writable);
        return Done(ok);
      }
      if |i.trusted| > 0 && codec.fingerprint(c.key.value) !in i.trusted {
        return Done(false);
      }
      if !i.readable {
        return Done(false);
      }
      var stored := LookupPin(c.name);
      match stored {
        case Broken => return Done(false);
        case Pinned(k) => return Done(k == c.key.value);
        case NotFound =>
          var ok := AppendPin(c.name, c.key, i.writable);
          return Done(ok);
      }
    }
  }
}
