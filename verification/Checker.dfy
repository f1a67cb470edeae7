/** The marker reader and readiness verdict of `usbdisplay-check`. */
module Checker {
  import opened Abi
  import opened Bytes
  import opened Marker

  datatype Fields = Fields(pid: string, generation: string, backend: string, physical: string)

  const NO_FIELDS := Fields("", "", "", "")

  /** Position of the first `c`, or the length of the string. */
  function IndexOf(s: string, c: char): (i: nat)
    ensures i <= |s|
    ensures i < |s| ==> s[i] == c
    ensures forall j :: 0 <= j < i ==> s[j] != c
  {
    if s == "" || s[0] == c then 0 else 1 + IndexOf(s[1..], c)
  }

  /** `IFS='=' read -r key value`: the key ends at the first `=`; a single trailing `=` ends the value. */
  function Key(line: string): string {
    line[..IndexOf(line, '=')]
  }

  function FieldValue(line: string): string {
    var at := IndexOf(line, '=');
    if at == |line| then ""
    else
      var rest := line[at + 1..];
      if rest != "" && IndexOf(rest, '=') == |rest| - 1 then rest[..|rest| - 1] else rest
  }

  function Assign(f: Fields, key: string, value: string): Fields {
    if key == "pid" then f.(pid := value)
    else if key == "generation" then f.(generation := value)
    else if key == "backend" then f.(backend := value)
    else if key == "physical" then f.(physical := value)
    else f
  }

  function AssignLine(f: Fields, line: string): Fields {
    Assign(f, Key(line), FieldValue(line))
  }

  /** Fold over the complete lines of a text; `read` drops an unterminated last line. */
  function Fold<A>(text: string, a: A, step: (A, string) -> A): A
    decreases |text|
  {
    var end := IndexOf(text, '\n');
    if end == |text| then a else Fold(text[end + 1..], step(a, text[..end]), step)
  }

  /** `while read line`. */
  method ReadLines<A>(text: string, start: A, step: (A, string) -> A) returns (a: A)
    ensures a == Fold(text, start, step)
  {
    a := start;
    var rest := text;
    while IndexOf(rest, '\n') < |rest|
      invariant Fold(text, start, step) == Fold(rest, a, step)
      decreases |rest|
    {
      var end := IndexOf(rest, '\n');
      a, rest := step(a, rest[..end]), rest[end + 1..];
    }
  }

  /** The fields after all lines of a marker. */
  function Parse(text: string, f: Fields): Fields {
    Fold(text, f, AssignLine)
  }

  /** The shell loop over the marker file. */
  method ReadMarker(text: string) returns (f: Fields)
    ensures f == Parse(text, NO_FIELDS)
  {
    f := ReadLines(text, NO_FIELDS, AssignLine);
  }

  predicate IsUnsignedInteger(s: string) {
    s != "" && AllDigits(s)
  }

  /** `is_unsigned_integer x && [ x -gt 0 ]`: the shell compares 63-bit integers and fails beyond them. */
  predicate IsPositive(s: string) {
    IsUnsignedInteger(s) && 0 < Value(s) < 0x8000_0000_0000_0000
  }

  predicate IsNameChar(c: char) {
    '0' <= c <= '9' || 'A' <= c <= 'Z' || 'a' <= c <= 'z' || c in "._+-"
  }

  /** Which characters a name may have, by their codes. */
  lemma NameAlphabet(c: char)
    ensures IsNameChar(c) <==>
              var n := c as int; 48 <= n <= 57 || 65 <= n <= 90 || 97 <= n <= 122 || n in {43, 45, 46, 95}
  {
  }

  predicate IsBackendName(s: string) {
    s != "" && forall i :: 0 <= i < |s| ==> IsNameChar(s[i])
  }

  predicate MarkerValid(f: Fields) {
    && IsPositive(f.pid)
    && IsPositive(f.generation)
    && IsBackendName(f.backend)
    && (f.physical == "0" || f.physical == "1")
  }

  function Published(c: Claim): Fields {
    Fields(Decimal(c.pid), Decimal(c.generation), BackendName(c), PhysicalBit(c))
  }

  predicate Free(s: string, c: char) {
    forall i :: 0 <= i < |s| ==> s[i] != c
  }

  lemma {:induction false} IndexAfterFree(a: string, c: char, b: string)
    requires Free(a, c)
    ensures IndexOf(a + [c] + b, c) == |a|
  {
    var s := a + [c] + b;
    var i := IndexOf(s, c);
    assert s[|a|] == c;
  }

  lemma IndexInFree(a: string, c: char)
    requires Free(a, c)
    ensures IndexOf(a, c) == |a|
  {
  }

  /** Reading one printed line assigns its value. */
  lemma ParseLine(key: string, value: string, rest: string, f: Fields)
    requires Free(key, '=') && Free(key, '\n') && Free(value, '=') && Free(value, '\n')
    ensures Parse(Line(key, value) + rest, f) == Parse(rest, Assign(f, key, value))
  {
    var line := key + ['='] + value;
    IndexAfterFree(key, '=', value);
    assert line[|key| + 1..] == value && line[..|key|] == key;
    IndexInFree(value, '=');
    var text := line + ['\n'] + rest;
    IndexAfterFree(line, '\n', rest);
    assert Line(key, value) + rest == text;
    assert text[|line| + 1..] == rest && text[..|line|] == line;
  }

  /** Neither a separator nor a line end. */
  predicate Plain(s: string) {
    Free(s, '=') && Free(s, '\n')
  }

  lemma NamePlain(s: string)
    requires IsBackendName(s) || AllDigits(s)
    ensures Plain(s)
  {
  }

  /** Lines fold one after the other. */
  lemma {:induction false} FoldAppend<A>(text: string, more: string, a: A, step: (A, string) -> A)
    requires text == "" || text[|text| - 1] == '\n'
    ensures Fold(text + more, a, step) == Fold(more, Fold(text, a, step), step)
    decreases |text|
  {
    if text == "" {
      assert text + more == more;
    } else {
      var end := IndexOf(text, '\n');
      var whole := text + more;
      assert text[|text| - 1] == '\n' && end < |text|;
      IndexAfterFree(text[..end], '\n', text[end + 1..] + more);
      assert whole == text[..end] + ['\n'] + (text[end + 1..] + more);
      assert whole[..end] == text[..end] && whole[end + 1..] == text[end + 1..] + more;
      FoldAppend(text[end + 1..], more, step(a, text[..end]), step);
    }
  }

  /** Two printed lines, some more text, and a printed line at the end. */
  lemma ReadsAround(k1: string, v1: string, k2: string, v2: string, named: string, k4: string, v4: string, f: Fields)
    requires Plain(k1) && Plain(v1) && Plain(k2) && Plain(v2) && Plain(k4) && Plain(v4)
    requires named != "" && named[|named| - 1] == '\n'
    ensures Parse(Line(k1, v1) + (Line(k2, v2) + (named + Line(k4, v4))), f)
            == Assign(Parse(named, Assign(Assign(f, k1, v1), k2, v2)), k4, v4)
  {
    var last := Line(k4, v4);
    var f1 := Assign(f, k1, v1);
    var f2 := Assign(f1, k2, v2);
    ParseLine(k1, v1, Line(k2, v2) + (named + last), f);
    ParseLine(k2, v2, named + last, f1);
    FoldAppend(named, last, f2, AssignLine);
    ParseLine(k4, v4, "", Parse(named, f2));
    assert last + "" == last;
  }

  /**
   * What the reader makes of any marker, whatever the backend's name: the name's own lines decide about pid,
   * generation and backend, but the last printed line has the last word on `physical`.
   */
  lemma AnyNameReads(c: Claim)
    ensures Parse(MarkerText(c), NO_FIELDS)
            == Parse(Line("backend", BackendName(c)), Fields(Decimal(c.pid), Decimal(c.generation), "", ""))
               .(physical := PhysicalBit(c))
  {
    var named := Line("backend", BackendName(c));
    NamePlain(Decimal(c.pid));
    NamePlain(Decimal(c.generation));
    EndsLine("backend", BackendName(c));
    MarkerLines(c);
    ReadsAround("pid", Decimal(c.pid), "generation", Decimal(c.generation), named,
                "physical", PhysicalBit(c), NO_FIELDS);
  }

  lemma EndsLine(key: string, value: string)
    ensures Line(key, value) != "" && Line(key, value)[|Line(key, value)| - 1] == '\n'
  {
  }

  /** How a name without line ends is read back: a single `=` at its end is lost. */
  function ReadName(s: string): string {
    if s != "" && IndexOf(s, '=') == |s| - 1 then s[..|s| - 1] else s
  }

  lemma NameLineReads(key: string, name: string, f: Fields)
    requires Plain(key) && Free(name, '\n')
    ensures Parse(Line(key, name), f) == Assign(f, key, ReadName(name))
  {
    var line := key + ['='] + name;
    IndexAfterFree(key, '=', name);
    assert line[|key| + 1..] == name && line[..|key|] == key;
    var text := line + ['\n'] + "";
    IndexAfterFree(line, '\n', "");
    assert Line(key, name) == text;
    assert text[|line| + 1..] == "" && text[..|line|] == line;
    assert FieldValue(line) == ReadName(name) && Key(line) == key;
    assert Parse(text, f) == Fold("", AssignLine(f, line), AssignLine);
  }

  /** No field ever contains a line end. */
  lemma {:induction false} BackendHasNoLineEnd(text: string, f: Fields)
    requires Free(f.backend, '\n')
    ensures Free(Parse(text, f).backend, '\n')
    decreases |text|
  {
    var end := IndexOf(text, '\n');
    if end < |text| {
      assert Free(FieldValue(text[..end]), '\n');
      BackendHasNoLineEnd(text[end + 1..], AssignLine(f, text[..end]));
    }
  }

  /**
   * Marker round trip across the two languages, for every claim: the shell reader gets back the four published
   * fields if and only if the backend's name has no line end and does not end with its only `=`.
   */
  lemma MarkerRoundTripIff(c: Claim)
    ensures Parse(MarkerText(c), NO_FIELDS) == Published(c)
            <==> Free(BackendName(c), '\n') && ReadName(BackendName(c)) == BackendName(c)
  {
    AnyNameReads(c);
    BackendLineIff(BackendName(c), Fields(Decimal(c.pid), Decimal(c.generation), "", ""));
  }

  lemma BackendLineIff(name: string, f: Fields)
    requires f.backend == ""
    ensures Parse(Line("backend", name), f).(physical := f.physical) == f.(backend := name)
            <==> Free(name, '\n') && ReadName(name) == name
  {
    if Free(name, '\n') {
      BackendLineReads(name, f);
    } else {
      ForeignBackend(Line("backend", name), f, name);
    }
  }

  lemma ForeignBackend(text: string, f: Fields, name: string)
    requires Free(f.backend, '\n') && !Free(name, '\n')
    ensures Parse(text, f).backend != name
  {
    BackendHasNoLineEnd(text, f);
  }

  /** Positive numbers of the shell's 63 bits. */
  predicate InRange(c: Claim) {
    0 < c.pid < 0x8000_0000_0000_0000 && 0 < c.generation < 0x8000_0000_0000_0000
  }

  /**
   * The verdict on a marker whose name has no line end: valid if and only if the name as read is a non-empty
   * word over `[0-9A-Za-z._+-]` and pid and generation are positive 63-bit numbers. A valid verdict is about other
   * fields than the published ones exactly where the name is such a word followed by a single `=`.
   */
  lemma VerdictIff(c: Claim)
    requires Free(BackendName(c), '\n')
    ensures var read := Parse(MarkerText(c), NO_FIELDS);
      && (MarkerValid(read) <==> IsBackendName(ReadName(BackendName(c))) && InRange(c))
      && (MarkerValid(read) && read != Published(c)
          <==> InRange(c) && exists word :: IsBackendName(word) && BackendName(c) == word + "=")
  {
    LineFreeReads(c);
    ReadNameCases(BackendName(c));
    FieldsVerdict(c, ReadName(BackendName(c)), Parse(MarkerText(c), NO_FIELDS));
  }

  lemma LineFreeReads(c: Claim)
    requires Free(BackendName(c), '\n')
    ensures Parse(MarkerText(c), NO_FIELDS) == Published(c).(backend := ReadName(BackendName(c)))
  {
    AnyNameReads(c);
    BackendLineReads(BackendName(c), Fields(Decimal(c.pid), Decimal(c.generation), "", ""));
  }

  lemma BackendLineReads(name: string, f: Fields)
    requires Free(name, '\n')
    ensures Parse(Line("backend", name), f) == f.(backend := ReadName(name))
  {
    NameLineReads("backend", name, f);
  }

  lemma FieldsVerdict(c: Claim, word: string, read: Fields)
    requires read == Published(c).(backend := word)
    ensures MarkerValid(read) <==> IsBackendName(word) && InRange(c)
    ensures read == Published(c) <==> word == BackendName(c)
  {
    PositiveDecimal(c.pid);
    PositiveDecimal(c.generation);
  }

  lemma PositiveDecimal(n: nat)
    ensures IsPositive(Decimal(n)) <==> 0 < n < 0x8000_0000_0000_0000
  {
    ValueOfDecimal(n);
  }

  lemma ReadNameCases(name: string)
    ensures IsBackendName(ReadName(name)) && ReadName(name) != name
            <==> exists word :: IsBackendName(word) && name == word + "="
  {
    if IsBackendName(ReadName(name)) && ReadName(name) != name {
      assert name == ReadName(name) + "=";
    }
    if word :| IsBackendName(word) && name == word + "=" {
      IndexAfterFree(word, '=', "");
      assert word + ['='] + "" == name && name[..|word|] == word;
    }
  }

  /** In particular, a legal name in range is published and read as a valid marker with exactly its fields. */
  lemma LegalMarker(c: Claim)
    requires IsBackendName(BackendName(c))
    ensures Parse(MarkerText(c), NO_FIELDS) == Published(c)
    ensures MarkerValid(Parse(MarkerText(c), NO_FIELDS)) <==> InRange(c)
  {
    NamePlain(BackendName(c));
    MarkerRoundTripIff(c);
    VerdictIff(c);
  }

  /**
   * A name with a line end can forge fields: the reader takes the generation from the name, and finds the marker
   * valid whatever the published generation is.
   */
  lemma ForgedGeneration(c: Claim, word: string, forged: nat)
    requires IsBackendName(word) && 0 < c.pid < 0x8000_0000_0000_0000 && 0 < forged < 0x8000_0000_0000_0000
    requires c.name == Some(word + "\n" + ("generation" + "=" + Decimal(forged)))
    ensures var read := Parse(MarkerText(c), NO_FIELDS);
      read == Fields(Decimal(c.pid), Decimal(forged), word, PhysicalBit(c)) && MarkerValid(read)
  {
    AnyNameReads(c);
    NamePlain(word);
    NamePlain(Decimal(forged));
    ForgedReads(word, Decimal(forged), Fields(Decimal(c.pid), Decimal(c.generation), "", ""));
    PositiveDecimal(c.pid);
    PositiveDecimal(forged);
  }

  /** Such a name fits the marker, and the daemon publishes it as it is. */
  lemma ForgedIsPublished()
    ensures var c := Claim(1, 1, Some("a" + "\n" + ("generation" + "=" + Decimal(7))), true);
            var read := Parse(MarkerText(c), NO_FIELDS);
      && PublishCode("ready", c, PublishEnv(0, [], 0, 0, true)) == 0
      && read == Fields(Decimal(1), Decimal(7), "a", "1") && MarkerValid(read)
  {
    var c := Claim(1, 1, Some("a" + "\n" + ("generation" + "=" + Decimal(7))), true);
    ForgedGeneration(c, "a", 7);
    ShortMarker(c);
  }

  lemma ShortMarker(c: Claim)
    requires |Decimal(c.pid)| == 1 && |Decimal(c.generation)| == 1 && |BackendName(c)| < 100
    ensures PublishCode("ready", c, PublishEnv(0, [], 0, 0, true)) == 0
  {
    MarkerLines(c);
    assert |MarkerText(c)| < CONTENTS_SIZE;
  }

  lemma ForgedReads(word: string, number: string, f: Fields)
    requires Plain(word) && Plain(number)
    ensures Parse(Line("backend", word + "\n" + ("generation" + "=" + number)), f)
            == f.(backend := word, generation := number)
  {
    TwoLines("backend", word, "generation", number, f);
  }

  lemma TwoLines(k1: string, v1: string, k2: string, v2: string, f: Fields)
    requires Plain(k1) && Plain(v1) && Plain(k2) && Plain(v2)
    ensures Parse(Line(k1, v1 + "\n" + (k2 + "=" + v2)), f) == Assign(Assign(f, k1, v1), k2, v2)
  {
    assert Line(k1, v1 + "\n" + (k2 + "=" + v2)) == Line(k1, v1) + Line(k2, v2);
    ParseLine(k1, v1, Line(k2, v2), f);
    assert Line(k2, v2) + "" == Line(k2, v2);
    ParseLine(k2, v2, "", Assign(f, k1, v1));
  }

  /** Different claims with such names give different markers. */
  lemma MarkerInjective(c: Claim, d: Claim)
    requires IsBackendName(BackendName(c)) && IsBackendName(BackendName(d)) && MarkerText(c) == MarkerText(d)
    ensures c.pid == d.pid && c.generation == d.generation
    ensures BackendName(c) == BackendName(d) && c.physical == d.physical
  {
    LegalMarker(c);
    LegalMarker(d);
    ValueOfDecimal(c.pid);
    ValueOfDecimal(d.pid);
    ValueOfDecimal(c.generation);
    ValueOfDecimal(d.generation);
  }

  /** What one `collect_status` finds out. `comm`: the process named by the marker is a `usb-displayd`. */
  datatype Status = Status(
    moduleLoaded: bool, stream: bool, framebuffer: bool, marker: Option<string>, comm: bool, usb: bool)

  datatype Reason =
    | NoModule | NoStream | NoFramebuffer | NoMarker | BadMarker | DeadDaemon | DiagnosticOnly | NoAdapter | Ready

  /** What each verdict other than `Ready` says is missing, taken on its own. */
  predicate Missing(s: Status, fields: Fields, allowDiagnostic: bool, r: Reason) {
    match r
    case NoModule => !s.moduleLoaded
    case NoStream => !s.stream
    case NoFramebuffer => !s.framebuffer
    case NoMarker => s.marker.None?
    case BadMarker => s.marker.None? || !MarkerValid(fields)
    case DeadDaemon => s.marker.None? || !MarkerValid(fields) || !s.comm
    case DiagnosticOnly => !allowDiagnostic && fields.physical != "1"
    case NoAdapter => !allowDiagnostic && !s.usb
    case Ready => false
  }

  /** The order in which the verdicts are considered. */
  function Rank(r: Reason): nat {
    match r
    case NoModule => 0
    case NoStream => 1
    case NoFramebuffer => 2
    case NoMarker => 3
    case BadMarker => 4
    case DeadDaemon => 5
    case DiagnosticOnly => 6
    case NoAdapter => 7
    case Ready => 8
  }

  /** The verdict: the first thing missing, or `Ready` if nothing is. */
  ghost predicate Verdict(s: Status, fields: Fields, allowDiagnostic: bool, reason: Reason) {
    && (reason != Ready ==> Missing(s, fields, allowDiagnostic, reason))
    && forall r: Reason :: Rank(r) < Rank(reason) ==> !Missing(s, fields, allowDiagnostic, r)
  }

  /** There is one verdict. */
  lemma VerdictUnique(s: Status, fields: Fields, allowDiagnostic: bool, a: Reason, b: Reason)
    requires Verdict(s, fields, allowDiagnostic, a) && Verdict(s, fields, allowDiagnostic, b)
    ensures a == b
  {
    assert Rank(a) == Rank(b);
  }

  /** The verdicts one by one, as a user reads them. */
  lemma VerdictTable(s: Status, fields: Fields, allowDiagnostic: bool)
    ensures var devices := s.moduleLoaded && s.stream && s.framebuffer;
            var valid := devices && s.marker.Some? && MarkerValid(fields);
      && (Verdict(s, fields, allowDiagnostic, NoModule) <==> !s.moduleLoaded)
      && (Verdict(s, fields, allowDiagnostic, NoStream) <==> s.moduleLoaded && !s.stream)
      && (Verdict(s, fields, allowDiagnostic, NoFramebuffer) <==> s.moduleLoaded && s.stream && !s.framebuffer)
      && (Verdict(s, fields, allowDiagnostic, NoMarker) <==> devices && s.marker.None?)
      && (Verdict(s, fields, allowDiagnostic, BadMarker) <==> devices && s.marker.Some? && !MarkerValid(fields))
      && (Verdict(s, fields, allowDiagnostic, DeadDaemon) <==> valid && !s.comm)
      && (Verdict(s, fields, allowDiagnostic, DiagnosticOnly) <==>
            valid && s.comm && !allowDiagnostic && fields.physical != "1")
      && (Verdict(s, fields, allowDiagnostic, NoAdapter) <==>
            valid && s.comm && !allowDiagnostic && fields.physical == "1" && !s.usb)
      && (Verdict(s, fields, allowDiagnostic, Ready) <==>
            valid && s.comm && (allowDiagnostic || (fields.physical == "1" && s.usb)))
  {
    assert Rank(NoModule) < Rank(NoStream) < Rank(NoFramebuffer) < Rank(NoMarker) < Rank(BadMarker);
    assert Rank(BadMarker) < Rank(DeadDaemon) < Rank(DiagnosticOnly) < Rank(NoAdapter) < Rank(Ready);
  }

  method CollectStatus(s: Status, allowDiagnostic: bool) returns (ready: bool, reason: Reason, fields: Fields)
    ensures fields == if s.marker.Some? then Parse(s.marker.value, NO_FIELDS) else NO_FIELDS
    ensures Verdict(s, fields, allowDiagnostic, reason)
    ensures ready <==> reason == Ready
  {
    fields, ready := NO_FIELDS, false;
    var markerExists, markerValid, daemonAlive := false, false, false;
    if s.marker.Some? {
      markerExists := true;
      fields := ReadMarker(s.marker.value);
      markerValid := MarkerValid(fields);
    }
    if markerValid && s.comm {
      daemonAlive := true;
    }
    if !s.moduleLoaded {
      reason := NoModule;
    } else if !s.stream {
      reason := NoStream;
    } else if !s.framebuffer {
      reason := NoFramebuffer;
    } else if !markerExists {
      reason := NoMarker;
    } else if !markerValid {
      reason := BadMarker;
    } else if !daemonAlive {
      reason := DeadDaemon;
    } else if !allowDiagnostic && fields.physical != "1" {
      reason := DiagnosticOnly;
    } else if !allowDiagnostic && !s.usb {
      reason := NoAdapter;
    } else {
      reason, ready := Ready, true;
    }
  }

  lemma ReadyMeans(s: Status, fields: Fields, physical: bool)
    requires s.marker.Some? && fields.physical == (if physical then "1" else "0")
    ensures Verdict(s, fields, false, Ready)
            <==> s.moduleLoaded && s.stream && s.framebuffer && s.comm && physical && s.usb && MarkerValid(fields)
  {
    assert Rank(NoModule) < Rank(NoStream) < Rank(NoFramebuffer) < Rank(DeadDaemon) < Rank(Ready);
    assert Rank(DiagnosticOnly) < Rank(NoAdapter) < Rank(Ready);
  }

  /**
   * Whatever the backend is called, a marker that the daemon published makes `usbdisplay-check` report a physical
   * display only if it was published for a physical backend, the module, both device nodes and the adapter are
   * there, and the process named in it is a daemon.
   */
  lemma PhysicalReadyOnlyIf(s: Status, c: Claim)
    requires s.marker == Some(MarkerText(c))
    requires Verdict(s, Parse(s.marker.value, NO_FIELDS), false, Ready)
    ensures s.moduleLoaded && s.stream && s.framebuffer && s.comm && c.physical && s.usb
  {
    AnyNameReads(c);
    ReadyMeans(s, Parse(s.marker.value, NO_FIELDS), c.physical);
  }

  /** For names without line ends this is exact, given a name and numbers that it reads as valid. */
  lemma PhysicalReadyIff(s: Status, c: Claim)
    requires s.marker == Some(MarkerText(c)) && Free(BackendName(c), '\n')
    ensures Verdict(s, Parse(s.marker.value, NO_FIELDS), false, Ready)
            <==> && s.moduleLoaded && s.stream && s.framebuffer && s.comm && c.physical && s.usb
                 && IsBackendName(ReadName(BackendName(c))) && InRange(c)
  {
    AnyNameReads(c);
    VerdictIff(c);
    ReadyMeans(s, Parse(s.marker.value, NO_FIELDS), c.physical);
  }

  /** The wait loop: look at once, then once a second, `waitSeconds` more times at most. */
  method WaitForReady(looks: seq<Reason>, waitSeconds: nat) returns (ready: bool, used: nat)
    requires |looks| == waitSeconds + 1
    ensures ready <==> Ready in looks
    ensures 1 <= used <= |looks|
    ensures Ready !in looks[..used - 1]
    ensures ready ==> looks[used - 1] == Ready
    ensures !ready ==> used == |looks|
  {
    var remainingWait := waitSeconds;
    used := 1;
    ready := looks[0] == Ready;
    while !ready && remainingWait > 0
      invariant 0 <= remainingWait && used + remainingWait == |looks| && 1 <= used
      invariant ready <==> looks[used - 1] == Ready
      invariant Ready !in looks[..used - 1]
    {
      remainingWait := remainingWait - 1;
      ready := looks[used] == Ready;
      used := used + 1;
    }
    assert !ready ==> looks == looks[..used - 1] + [looks[used - 1]];
  }
}
