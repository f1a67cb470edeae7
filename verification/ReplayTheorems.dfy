/** What a replay does to a file: exact cut-off, agreement of the two modes, and the container round trip. */
module ReplayTheorems {
  import opened Abi
  import opened Bytes
  import opened Replay

  /** Where record `i` starts. */
  function RecordStart(i: nat): nat {
    HEADER_BYTES + RECORD_BYTES * i
  }

  /** The record at a position, if it is there in full and has the one permitted length. */
  function RecordAt(data: seq<u8>, pos: nat): Option<Record> {
    if pos + RECORD_BYTES > |data| then None
    else
      var head := DecodeHead(data[pos..pos + RECORD_HEAD_BYTES]);
      if head.length != HID_REPORT_LENGTH then None
      else Some(Record(head.timestampUs, head.endpoint, head.reportId, head.reserved,
                       data[pos + RECORD_HEAD_BYTES..pos + RECORD_BYTES]))
  }

  /** Which report goes where: endpoint 3 is the first HID interface, endpoint 4 the second. */
  function RouteOf(r: Record): Sent {
    Sent(if r.endpoint == 3 then 0 else 1, r.report)
  }

  /** A record the tool may transmit. */
  predicate WellFormed(r: Record) {
    && ((r.endpoint == 3 && r.reportId == 2 && r.report[0] == 2)
        || (r.endpoint == 4 && r.reportId == 1 && r.report[0] == 1))
    && (r.report[1] == 1 || r.report[1] == 2)
  }

  type Sendable = r: Record | WellFormed(r)
    witness Record(0, 3, 2, 0, [2, 1] + seq(HID_REPORT_LENGTH - 2, _ => 0))

  /** Where the fields of a record stand in a file. */
  lemma RecordLayout(data: seq<u8>, pos: nat)
    requires RecordAt(data, pos).Some?
    ensures var r := RecordAt(data, pos).value;
      && pos + 4112 <= |data|
      && r.timestampUs == DecodeLe(data[pos..pos + 8])
      && r.endpoint == data[pos + 8] && r.reportId == data[pos + 9]
      && r.reserved == data[pos + 10] + 0x100 * (data[pos + 11] as int)
      && DecodeLe(data[pos + 12..pos + 16]) == 4096
      && r.report == data[pos + 16..pos + 4112]
  {
    var b := data[pos..pos + RECORD_HEAD_BYTES];
    assert b[..8] == data[pos..pos + 8] && b[12..16] == data[pos + 12..pos + 16];
    var reserved := b[10..12];
    assert b[10] == data[pos + 10] && b[11] == data[pos + 11] && reserved[0] == b[10] && reserved[1] == b[11];
    LittleEndian(reserved);
  }

  /** What the tool makes of a record: accept it, or end with an error. */
  datatype Entry = Bad(code: int) | Good(record: Sendable)

  function EntryAt(data: seq<u8>, pos: nat): Entry {
    if pos + RECORD_HEAD_BYTES > |data| then Bad(-EIO)
    else if DecodeHead(data[pos..pos + RECORD_HEAD_BYTES]).length != HID_REPORT_LENGTH then Bad(-EPROTO)
    else if pos + RECORD_BYTES > |data| then Bad(-EIO)
    else if WellFormed(RecordAt(data, pos).value) then Good(RecordAt(data, pos).value)
    else Bad(-EPROTO)
  }

  /** The records of a file by number. */
  type Contents = nat -> Entry

  function ContentsOf(data: seq<u8>): Contents {
    (i: nat) => EntryAt(data, RecordStart(i))
  }

  lemma AcceptableIff(r: Record)
    ensures Acceptable(r) <==> WellFormed(r)
    ensures Acceptable(r) ==> SentOf(r) == RouteOf(r)
  {
  }

  /** An acceptable record is a good entry, any other that is there in full is a bad one. */
  lemma StoredEntry(data: seq<u8>, pos: nat)
    requires RecordAt(data, pos).Some?
    ensures var r := RecordAt(data, pos).value;
      if Acceptable(r) then WellFormed(r) && EntryAt(data, pos) == Good(r) else EntryAt(data, pos) == Bad(-EPROTO)
  {
    AcceptableIff(RecordAt(data, pos).value);
  }

  lemma ReadRecordExact(data: seq<u8>, pos: nat, script: seq<nat>)
    requires pos <= |data| && Healthy(script)
    ensures var g := ReadRecord(data, pos, script);
      && Healthy(g.script)
      && EntryAt(data, pos) == (if g.record.Some? then Good(g.record.value) else Bad(g.code))
      && (g.record.Some? ==> g.pos == pos + RECORD_BYTES)
  {
    var h := ReadExactly(|data|, pos, RECORD_HEAD_BYTES, script);
    ShortReadsIrrelevant(|data|, pos, RECORD_HEAD_BYTES, script);
    ShortReadsIrrelevant(|data|, h.pos, HID_REPORT_LENGTH, h.script);
    if RecordAt(data, pos).Some? {
      StoredEntry(data, pos);
    }
  }

  /** The loop over records instead of bytes. */
  function Play(f: Contents, o: Options, count: nat, trips: seq<Trip>, t: Tally): Tally
    decreases count - t.processed, if Finished(count, t) then 0 else 1
  {
    if Finished(count, t) then t
    else if TripAt(trips, t.processed).stopAtHead then t.(stop := true)
    else match f(t.processed)
      case Bad(code) => t.(result := code)
      case Good(r) =>
        if OverLimit(o, r) then t.(stop := true)
        else
          var next := Deliver(o, TripAt(trips, t.processed), r, t);
          if next.result != 0 || next.stop then next else Play(f, o, count, trips, next)
  }

  /** A tally without its place in the file. */
  function Bare(t: Tally): Tally {
    t.(pos := 0, script := [])
  }

  /** Reading record `i` of a file of `size` bytes without a read error came to this entry. */
  predicate ReadsOne(g: Got, entry: Entry, i: nat, size: nat) {
    && Healthy(g.script) && RecordStart(i) <= g.pos <= size
    && match entry
       case Bad(code) => g.record.None? && g.code == code
       case Good(r) => g.record == Some(r) && g.pos == RecordStart(i + 1)
  }

  /** A source of records delivers these contents, however short its reads. */
  ghost predicate Reads(source: Source, f: Contents, size: nat) {
    forall i: nat, script: seq<nat> {:trigger source(RecordStart(i), script)} ::
      Healthy(script) && RecordStart(i) <= size ==> ReadsOne(source(RecordStart(i), script), f(i), i, size)
  }

  lemma FileReads(data: seq<u8>)
    ensures Reads(SourceOf(data), ContentsOf(data), |data|)
  {
    forall i: nat, script: seq<nat> | Healthy(script) && RecordStart(i) <= |data|
      ensures ReadsOne(SourceOf(data)(RecordStart(i), script), ContentsOf(data)(i), i, |data|)
    {
      ReadRecordExact(data, RecordStart(i), script);
    }
  }

  ghost predicate AtRecord(size: nat, t: Tally) {
    t.pos == RecordStart(t.processed) && t.pos <= size && Healthy(t.script)
  }

  lemma AdvanceExact(source: Source, f: Contents, size: nat, o: Options, trip: Trip, t: Tally)
    requires Reads(source, f, size) && AtRecord(size, t) && t.result == 0 && !t.stop && !trip.stopAtHead
    ensures var next := Advance(source, o, trip, t);
      && t.pos <= next.pos <= size
      && (match f(t.processed)
          case Bad(code) => Bare(next) == Bare(t).(result := code) && code != 0
          case Good(r) =>
            && Bare(next) == (if OverLimit(o, r) then Bare(t).(stop := true) else Deliver(o, trip, r, Bare(t)))
            && (next.result == 0 && !next.stop ==> AtRecord(size, next)))
  {
    assert ReadsOne(source(RecordStart(t.processed), t.script), f(t.processed), t.processed, size);
  }

  /** The byte-level loop, however short its reads, refines the record-level one. */
  lemma {:induction false} RunIsPlay(
      source: Source, f: Contents, size: nat, o: Options, count: nat, trips: seq<Trip>, t: Tally)
    requires Reads(source, f, size) && AtRecord(size, t)
    ensures Bare(Run(source, o, count, trips, t)) == Play(f, o, count, trips, Bare(t))
    decreases count - t.processed, if Finished(count, t) then 0 else 1
  {
    if !Finished(count, t) && !TripAt(trips, t.processed).stopAtHead {
      var trip := TripAt(trips, t.processed);
      AdvanceExact(source, f, size, o, trip, t);
      var next := Advance(source, o, trip, t);
      if next.result == 0 && !next.stop {
        RunIsPlay(source, f, size, o, count, trips, next);
      }
    }
  }

  /** Record `i` is good and within the time limit, if there is one. */
  predicate Playable(f: Contents, o: Options, i: nat) {
    f(i).Good? && (o.maxUs == 0 || f(i).record.timestampUs <= o.maxUs)
  }

  /** No stop request, and every sleep and write succeeds in the end. */
  predicate CalmTrip(trip: Trip) {
    && !trip.stopAtHead && !trip.stopEarly && !trip.stopLate
    && Undisturbed(trip.nods) && WriteOutcome(trip.attempts) == 0
  }

  predicate Calm(trips: seq<Trip>) {
    forall i :: 0 <= i < |trips| ==> CalmTrip(trips[i])
  }

  lemma CalmDeliver(o: Options, trip: Trip, r: Sendable, t: Tally)
    requires CalmTrip(trip)
    ensures var next := Deliver(o, trip, r, t);
      && next.result == t.result && next.stop == t.stop && next.processed == t.processed + 1
      && next.sent == (if o.dryRun then t.sent else t.sent + [RouteOf(r)]) && next.lastUs == r.timestampUs
      && next.commands == t.commands + (if r.report[1] == 1 then 1 else 0)
  {
    SleepReaches(o.due(r.timestampUs), trip.firstUs, trip.nods, trip.stopEarly);
  }

  lemma CalmAt(trips: seq<Trip>, i: nat)
    requires Calm(trips)
    ensures CalmTrip(TripAt(trips, i))
  {
  }

  /** How many of the records `[i, n)` are commands. */
  function Commands(f: Contents, i: nat, n: nat): nat
    decreases n - i
  {
    if i >= n then 0 else (if f(i).Good? && f(i).record.report[1] == 1 then 1 else 0) + Commands(f, i + 1, n)
  }

  /** The transmissions for the records `[i, n)`, in file order. */
  function Transmissions(f: Contents, i: nat, n: nat): seq<Sent>
    decreases n - i
  {
    if i >= n then [] else (if f(i).Good? then [RouteOf(f(i).record)] else []) + Transmissions(f, i + 1, n)
  }

  /**
   * The loop ends where it should: after the longest prefix of playable records. The result is 0 if the
   * announced number is reached or the next record is good but late, and otherwise that record's error.
   */
  ghost predicate RightEnd(f: Contents, o: Options, count: nat, from: nat, t: Tally) {
    && from <= t.processed <= count
    && (forall i: nat :: from <= i < t.processed ==> Playable(f, o, i))
    && (t.processed < count ==> !Playable(f, o, t.processed))
    && t.result == if t.processed < count && f(t.processed).Bad? then f(t.processed).code else 0
  }

  lemma {:induction false} CalmEnd(f: Contents, o: Options, count: nat, trips: seq<Trip>, t: Tally)
    requires t.processed <= count && Calm(trips) && t.result == 0 && !t.stop
    ensures RightEnd(f, o, count, t.processed, Play(f, o, count, trips, t))
    decreases count - t.processed
  {
    if t.processed < count {
      var trip := TripAt(trips, t.processed);
      CalmAt(trips, t.processed);
      if Playable(f, o, t.processed) {
        CalmDeliver(o, trip, f(t.processed).record, t);
        CalmEnd(f, o, count, trips, Deliver(o, trip, f(t.processed).record, t));
      }
    }
  }

  lemma {:induction false} CalmTotals(f: Contents, o: Options, count: nat, trips: seq<Trip>, t: Tally)
    requires t.processed <= count && Calm(trips) && t.result == 0 && !t.stop
    ensures var r := Play(f, o, count, trips, t);
      && r.processed >= t.processed
      && r.commands == t.commands + Commands(f, t.processed, r.processed)
      && (r.processed == t.processed ==> r.lastUs == t.lastUs)
      && (r.processed > t.processed ==>
            f(r.processed - 1).Good? && r.lastUs == f(r.processed - 1).record.timestampUs)
    decreases count - t.processed
  {
    if t.processed < count {
      var trip := TripAt(trips, t.processed);
      CalmAt(trips, t.processed);
      if Playable(f, o, t.processed) {
        CalmDeliver(o, trip, f(t.processed).record, t);
        CalmTotals(f, o, count, trips, Deliver(o, trip, f(t.processed).record, t));
      }
    }
  }

  lemma {:induction false} TransmissionsSnoc(f: Contents, i: nat, n: nat)
    requires i <= n && f(n).Good?
    ensures Transmissions(f, i, n + 1) == Transmissions(f, i, n) + [RouteOf(f(n).record)]
    decreases n - i
  {
    if i < n {
      TransmissionsSnoc(f, i + 1, n);
    }
  }

  /** Only playable records are ever transmitted: the first `n` of them, in order. */
  ghost predicate SentPrefix(f: Contents, o: Options, sent: seq<Sent>, n: nat) {
    && (forall i: nat :: i < n ==> Playable(f, o, i))
    && sent == (if o.dryRun then [] else Transmissions(f, 0, n))
  }

  lemma {:induction false} CalmSent(f: Contents, o: Options, count: nat, trips: seq<Trip>, t: Tally)
    requires t.processed <= count && Calm(trips) && t.result == 0 && !t.stop
    requires SentPrefix(f, o, t.sent, t.processed)
    ensures var r := Play(f, o, count, trips, t); SentPrefix(f, o, r.sent, r.processed)
    decreases count - t.processed
  {
    if t.processed < count {
      var trip := TripAt(trips, t.processed);
      CalmAt(trips, t.processed);
      if Playable(f, o, t.processed) {
        CalmDeliver(o, trip, f(t.processed).record, t);
        TransmissionsSnoc(f, 0, t.processed);
        CalmSent(f, o, count, trips, Deliver(o, trip, f(t.processed).record, t));
      }
    }
  }

  /** `DPRPL001`, version 1, and at most ten million records. */
  predicate AcceptedHeader(data: seq<u8>) {
    && |data| >= 16
    && data[..8] == [0x44, 0x50, 0x52, 0x50, 0x4c, 0x30, 0x30, 0x31]
    && DecodeLe(data[8..12]) == 1 && DecodeLe(data[12..16]) <= 10_000_000
  }

  lemma AcceptedHeaderIff(data: seq<u8>)
    ensures AcceptedHeader(data) <==> |data| >= HEADER_BYTES && HeaderOk(data[..HEADER_BYTES])
  {
    if |data| < HEADER_BYTES {
      return;
    }
    var h := data[..HEADER_BYTES];
    assert h[..8] == data[..8] && h[8..12] == data[8..12] && h[12..16] == data[12..16];
  }

  function Announced(data: seq<u8>): nat
    requires AcceptedHeader(data)
  {
    RecordCount(data[..HEADER_BYTES])
  }

  /** `t` is what a calm replay of `count` records comes to. */
  ghost predicate Exact(f: Contents, o: Options, count: nat, t: Tally) {
    && RightEnd(f, o, count, 0, t)
    && t.commands == Commands(f, 0, t.processed)
    && t.sent == (if o.dryRun then [] else Transmissions(f, 0, t.processed))
    && t.lastUs == if t.processed > 0 && f(t.processed - 1).Good? then f(t.processed - 1).record.timestampUs else 0
  }

  lemma PlayExact(f: Contents, o: Options, count: nat, trips: seq<Trip>)
    requires Calm(trips)
    ensures Exact(f, o, count, Play(f, o, count, trips, IDLE))
  {
    CalmEnd(f, o, count, trips, IDLE);
    CalmTotals(f, o, count, trips, IDLE);
    CalmSent(f, o, count, trips, IDLE);
  }

  /** A whole replay on a readable file is the record-level loop over its contents. */
  lemma ReplayIsPlay(data: seq<u8>, script: seq<nat>, o: Options, connect: int, trips: seq<Trip>)
    requires Healthy(script) && AcceptedHeader(data) && (o.dryRun || connect == 0)
    ensures Bare(Replayed(data, script, o, connect, trips))
            == Play(ContentsOf(data), o, Announced(data), trips, IDLE)
  {
    AcceptedHeaderIff(data);
    ShortReadsIrrelevant(|data|, 0, HEADER_BYTES, script);
    var h := ReadExactly(|data|, 0, HEADER_BYTES, script);
    FileReads(data);
    RunIsPlay(SourceOf(data), ContentsOf(data), |data|, o, Announced(data), trips,
              IDLE.(pos := h.pos, script := h.script));
  }

  /**
   * The exact cut-off. With a readable file and nothing interrupting, either mode processes exactly the
   * longest prefix of playable records; it succeeds if and only if that prefix is the whole announced file or
   * is followed by a good record beyond the time limit; a live run transmits exactly the prefix's reports, in
   * file order, each to the interface of its endpoint.
   */
  lemma ReplayExact(data: seq<u8>, script: seq<nat>, o: Options, trips: seq<Trip>)
    requires Healthy(script) && Calm(trips) && AcceptedHeader(data)
    ensures Exact(ContentsOf(data), o, Announced(data), Replayed(data, script, o, 0, trips))
  {
    ReplayIsPlay(data, script, o, 0, trips);
    PlayExact(ContentsOf(data), o, Announced(data), trips);
  }

  /** A file without an acceptable header is refused before anything is opened or sent. */
  lemma BadHeaderRefused(data: seq<u8>, script: seq<nat>, o: Options, connect: int, trips: seq<Trip>)
    requires Healthy(script) && !AcceptedHeader(data)
    ensures var t := Replayed(data, script, o, connect, trips);
      && t.processed == 0 && t.sent == [] && t.result == (if |data| < HEADER_BYTES then -EIO else -EPROTO)
  {
    AcceptedHeaderIff(data);
    ShortReadsIrrelevant(|data|, 0, HEADER_BYTES, script);
  }

  /** The cut-off of a file does not depend on the mode. */
  lemma RightEndUnique(f: Contents, o: Options, p: Options, count: nat, t: Tally, u: Tally)
    requires o.maxUs == p.maxUs && RightEnd(f, o, count, 0, t) && RightEnd(f, p, count, 0, u)
    ensures t.processed == u.processed && t.result == u.result
  {
    assert Playable(f, o, t.processed) == Playable(f, p, t.processed);
    assert Playable(f, o, u.processed) == Playable(f, p, u.processed);
  }

  /** A dry run predicts the live run, however differently the two happen to read the file. */
  lemma ModesAgree(
      data: seq<u8>, s1: seq<nat>, s2: seq<nat>, maxUs: nat, due: u64 -> u64, trips1: seq<Trip>, trips2: seq<Trip>)
    requires Healthy(s1) && Healthy(s2) && Calm(trips1) && Calm(trips2)
    ensures var dry := Replayed(data, s1, Options(true, maxUs, due), 0, trips1);
            var live := Replayed(data, s2, Options(false, maxUs, due), 0, trips2);
      && dry.result == live.result && dry.processed == live.processed
      && dry.commands == live.commands && dry.video == live.video && dry.lastUs == live.lastUs
      && dry.sent == [] && live.sent == Transmissions(ContentsOf(data), 0, live.processed)
  {
    AcceptedHeaderIff(data);
    var o, p := Options(true, maxUs, due), Options(false, maxUs, due);
    CountsAddUp(data, s1, o, 0, trips1);
    CountsAddUp(data, s2, p, 0, trips2);
    if AcceptedHeader(data) {
      ReplayExact(data, s1, o, trips1);
      ReplayExact(data, s2, p, trips2);
      RightEndUnique(ContentsOf(data), o, p, Announced(data),
                     Replayed(data, s1, o, 0, trips1), Replayed(data, s2, p, 0, trips2));
    } else {
      ShortReadsIrrelevant(|data|, 0, HEADER_BYTES, s1);
      ShortReadsIrrelevant(|data|, 0, HEADER_BYTES, s2);
    }
  }

  lemma {:induction false} RunCounts(source: Source, o: Options, count: nat, trips: seq<Trip>, t: Tally)
    requires t.processed == t.commands + t.video
    ensures var r := Run(source, o, count, trips, t); r.processed == r.commands + r.video
    decreases count - t.processed, if Finished(count, t) then 0 else 1
  {
    if !Finished(count, t) {
      AdvanceCounts(source, o, TripAt(trips, t.processed), t);
      RunCounts(source, o, count, trips, Advance(source, o, TripAt(trips, t.processed), t));
    }
  }

  /** Whatever fails or interrupts, each processed record is counted once, as a command or as video. */
  lemma CountsAddUp(data: seq<u8>, script: seq<nat>, o: Options, connect: int, trips: seq<Trip>)
    ensures var t := Replayed(data, script, o, connect, trips); t.processed == t.commands + t.video
  {
    AcceptedHeaderIff(data);
    var h := ReadExactly(|data|, 0, HEADER_BYTES, script);
    if h.ok && HeaderOk(data[..HEADER_BYTES]) {
      RunCounts(SourceOf(data), o, RecordCount(data[..HEADER_BYTES]), trips, IDLE.(pos := h.pos, script := h.script));
    }
  }

  lemma {:induction false} PlaySendsInOrder(f: Contents, o: Options, count: nat, trips: seq<Trip>, t: Tally)
    returns (n: nat)
    requires SentPrefix(f, o, t.sent, t.processed)
    ensures var r := Play(f, o, count, trips, t);
      r.processed <= n <= r.processed + 1 && SentPrefix(f, o, r.sent, n)
    decreases count - t.processed, if Finished(count, t) then 0 else 1
  {
    n := t.processed;
    if !Finished(count, t) && !TripAt(trips, t.processed).stopAtHead && Playable(f, o, t.processed) {
      var next := Deliver(o, TripAt(trips, t.processed), f(t.processed).record, t);
      DeliverSends(f, o, TripAt(trips, t.processed), t);
      if next.result == 0 && !next.stop {
        n := PlaySendsInOrder(f, o, count, trips, next);
      } else if next.sent != t.sent {
        n := t.processed + 1;
      }
    }
  }

  lemma DeliverSends(f: Contents, o: Options, trip: Trip, t: Tally)
    requires SentPrefix(f, o, t.sent, t.processed) && Playable(f, o, t.processed) && t.result == 0 && !t.stop
    ensures var next := Deliver(o, trip, f(t.processed).record, t);
      && SentPrefix(f, o, Transmitted(f, o, t.processed + 1), t.processed + 1)
      && (next.sent == t.sent || next.sent == Transmitted(f, o, t.processed + 1))
      && (if next.result == 0 && !next.stop then
            next.processed == t.processed + 1 && next.sent == Transmitted(f, o, t.processed + 1)
          else next.processed == t.processed)
  {
    TransmissionsSnoc(f, 0, t.processed);
  }

  function Transmitted(f: Contents, o: Options, n: nat): seq<Sent> {
    if o.dryRun then [] else Transmissions(f, 0, n)
  }

  /**
   * Whatever sleeps, writes and stop requests do, a live run transmits a prefix of the playable records, in
   * order, and counts all of them except at most the last: a stop request may arrive after a write and before
   * the count.
   */
  lemma LiveSendsInOrder(data: seq<u8>, script: seq<nat>, o: Options, connect: int, trips: seq<Trip>) returns (n: nat)
    requires Healthy(script)
    ensures var t := Replayed(data, script, o, connect, trips);
      t.processed <= n <= t.processed + 1 && SentPrefix(ContentsOf(data), o, t.sent, n)
  {
    AcceptedHeaderIff(data);
    ShortReadsIrrelevant(|data|, 0, HEADER_BYTES, script);
    n := 0;
    if AcceptedHeader(data) && (o.dryRun || connect == 0) {
      ReplayIsPlay(data, script, o, connect, trips);
      n := PlaySendsInOrder(ContentsOf(data), o, Announced(data), trips, IDLE);
    }
  }

  /** What ends a replay with an error, at the record after the processed ones. */
  ghost predicate ErrorAt(f: Contents, o: Options, trips: seq<Trip>, t: Tally) {
    match f(t.processed)
    case Bad(code) => t.result == code
    case Good(r) =>
      var trip := TripAt(trips, t.processed);
      var slept := SleepOutcome(o.due(r.timestampUs), trip.firstUs, trip.nods, trip.stopEarly);
      && !o.dryRun && Playable(f, o, t.processed)
      && t.result == if slept.code != 0 then slept.code else WriteOutcome(trip.attempts)
  }

  lemma {:induction false} PlayError(f: Contents, o: Options, count: nat, trips: seq<Trip>, t: Tally)
    requires t.result == 0
    ensures var r := Play(f, o, count, trips, t); r.result != 0 ==> r.processed < count && ErrorAt(f, o, trips, r)
    decreases count - t.processed, if Finished(count, t) then 0 else 1
  {
    if !Finished(count, t) && !TripAt(trips, t.processed).stopAtHead && Playable(f, o, t.processed) {
      var next := Deliver(o, TripAt(trips, t.processed), f(t.processed).record, t);
      if next.result == 0 && !next.stop {
        PlayError(f, o, count, trips, next);
      }
    }
  }

  /**
   * Errors are reported as they are: a replay of an acceptable file that ends with an error does so at the record
   * after the processed ones, with that record's error, or in a live run with that of its sleep or else its write.
   */
  lemma ErrorIsReported(data: seq<u8>, script: seq<nat>, o: Options, trips: seq<Trip>)
    requires Healthy(script) && AcceptedHeader(data)
    ensures var t := Replayed(data, script, o, 0, trips);
      t.result != 0 ==> t.processed < Announced(data) && ErrorAt(ContentsOf(data), o, trips, t)
  {
    ReplayIsPlay(data, script, o, 0, trips);
    PlayError(ContentsOf(data), o, Announced(data), trips, IDLE);
  }

  /** Each report sent so far left no earlier than its record was due. */
  ghost predicate OnTime(f: Contents, o: Options, t: Tally) {
    && |t.sentAt| == |t.sent|
    && forall i: nat :: i < |t.sentAt| ==> f(i).Good? && t.sentAt[i] >= o.due(f(i).record.timestampUs)
  }

  lemma DeliverOnTime(f: Contents, o: Options, trip: Trip, t: Tally)
    requires OnTime(f, o, t) && f(t.processed).Good? && |t.sentAt| == if o.dryRun then 0 else t.processed
    ensures var next := Deliver(o, trip, f(t.processed).record, t);
      && OnTime(f, o, next)
      && (next.result == 0 && !next.stop && t.result == 0 ==>
            |next.sentAt| == if o.dryRun then 0 else next.processed)
  {
    SleepReaches(o.due(f(t.processed).record.timestampUs), trip.firstUs, trip.nods, trip.stopEarly);
  }

  lemma {:induction false} PlayOnTime(f: Contents, o: Options, count: nat, trips: seq<Trip>, t: Tally)
    requires OnTime(f, o, t) && t.result == 0 && |t.sentAt| == if o.dryRun then 0 else t.processed
    ensures OnTime(f, o, Play(f, o, count, trips, t))
    decreases count - t.processed, if Finished(count, t) then 0 else 1
  {
    if !Finished(count, t) && !TripAt(trips, t.processed).stopAtHead && f(t.processed).Good? {
      var trip := TripAt(trips, t.processed);
      DeliverOnTime(f, o, trip, t);
      if !OverLimit(o, f(t.processed).record) {
        var next := Deliver(o, trip, f(t.processed).record, t);
        if next.result == 0 && !next.stop {
          PlayOnTime(f, o, count, trips, next);
        }
      }
    }
  }

  /**
   * Pacing: whatever cuts sleeps and writes short, no report of a live run leaves before its record is due by
   * the tool's own clock.
   */
  lemma LiveNeverEarly(data: seq<u8>, script: seq<nat>, o: Options, connect: int, trips: seq<Trip>)
    requires Healthy(script)
    ensures OnTime(ContentsOf(data), o, Replayed(data, script, o, connect, trips))
  {
    AcceptedHeaderIff(data);
    ShortReadsIrrelevant(|data|, 0, HEADER_BYTES, script);
    if AcceptedHeader(data) && (o.dryRun || connect == 0) {
      ReplayIsPlay(data, script, o, connect, trips);
      PlayOnTime(ContentsOf(data), o, Announced(data), trips, IDLE);
    }
  }

  /** A report on its way to an interface is that of a record for this interface, first byte included. */
  predicate Routed(sent: Sent, r: Record) {
    && sent.report == r.report
    && ((sent.target == 0 && r.endpoint == 3 && sent.report[0] == 2)
        || (sent.target == 1 && r.endpoint == 4 && sent.report[0] == 1))
  }

  /** The reports sent so far belong to the first records of a file, one each. */
  ghost predicate RoutedPrefix(data: seq<u8>, o: Options, t: Tally) {
    && (o.dryRun ==> t.sent == [])
    && forall i: nat :: i < |t.sent| ==>
         RecordAt(data, RecordStart(i)).Some? && Routed(t.sent[i], RecordAt(data, RecordStart(i)).value)
  }

  /** Where the loop stands before each record, read errors or not. */
  ghost predicate OnTrack(data: seq<u8>, o: Options, t: Tally) {
    && t.pos == RecordStart(t.processed) <= |data| && |t.sent| == (if o.dryRun then 0 else t.processed)
    && RoutedPrefix(data, o, t)
  }

  /** A record that was read is the one stored there, whatever happened on the way. */
  lemma ReadIsStored(data: seq<u8>, pos: nat, script: seq<nat>)
    requires pos <= |data| && ReadRecord(data, pos, script).record.Some?
    ensures var g := ReadRecord(data, pos, script);
      g.pos == pos + RECORD_BYTES <= |data| && RecordAt(data, pos) == g.record && WellFormed(g.record.value)
  {
  }

  lemma AdvanceRouted(data: seq<u8>, o: Options, trip: Trip, t: Tally)
    requires OnTrack(data, o, t) && t.result == 0 && !t.stop
    ensures var next := Advance(SourceOf(data), o, trip, t);
      RoutedPrefix(data, o, next) && (next.result == 0 && !next.stop ==> OnTrack(data, o, next))
  {
    var g := ReadRecord(data, t.pos, t.script);
    if g.record.Some? {
      ReadIsStored(data, t.pos, t.script);
      DeliverRouted(data, o, trip, g.record.value, t.(pos := g.pos, script := g.script));
    }
  }

  lemma DeliverRouted(data: seq<u8>, o: Options, trip: Trip, r: Record, t: Tally)
    requires RoutedPrefix(data, o, t) && |t.sent| == (if o.dryRun then 0 else t.processed)
    requires t.result == 0 && !t.stop
    requires RecordAt(data, RecordStart(t.processed)) == Some(r) && WellFormed(r)
    ensures var next := Deliver(o, trip, r, t);
      && RoutedPrefix(data, o, next) && next.pos == t.pos
      && (next.result == 0 && !next.stop ==>
            next.processed == t.processed + 1 && |next.sent| == (if o.dryRun then 0 else next.processed))
  {
    var next := Deliver(o, trip, r, t);
    AcceptableIff(r);
    assert next.sent == t.sent || next.sent == t.sent + [RouteOf(r)];
  }

  lemma {:induction false} RunRouted(data: seq<u8>, o: Options, count: nat, trips: seq<Trip>, t: Tally)
    requires RoutedPrefix(data, o, t) && (!Finished(count, t) ==> OnTrack(data, o, t))
    ensures RoutedPrefix(data, o, Run(SourceOf(data), o, count, trips, t))
    decreases count - t.processed, if Finished(count, t) then 0 else 1
  {
    if !Finished(count, t) {
      var trip := TripAt(trips, t.processed);
      AdvanceRouted(data, o, trip, t);
      AdvanceCounts(SourceOf(data), o, trip, t);
      RunRouted(data, o, count, trips, Advance(SourceOf(data), o, trip, t));
    }
  }

  /**
   * Routing. In every run, whatever read errors, failing writes and stop requests interrupt it, the i-th report
   * sent is that of the file's i-th record; it goes to interface 0 only from endpoint 3 and with first byte 2, and
   * to interface 1 only from endpoint 4 and with first byte 1; nothing goes anywhere else, and a dry run sends
   * nothing.
   */
  lemma EveryReportRouted(data: seq<u8>, script: seq<nat>, o: Options, connect: int, trips: seq<Trip>)
    ensures RoutedPrefix(data, o, Replayed(data, script, o, connect, trips))
  {
    var h := ReadExactly(|data|, 0, HEADER_BYTES, script);
    if h.ok && HeaderOk(data[..HEADER_BYTES]) && (o.dryRun || connect == 0) {
      RunRouted(data, o, RecordCount(data[..HEADER_BYTES]), trips, IDLE.(pos := h.pos, script := h.script));
    }
  }

  /** A record as stored. */
  function EncodeRecord(r: Record): (b: seq<u8>)
    ensures |b| == RECORD_BYTES
  {
    EncodeHead(Head(r.timestampUs, r.endpoint, r.reportId, r.reserved, HID_REPORT_LENGTH)) + r.report
  }

  function EncodeRecords(rs: seq<Record>): (b: seq<u8>)
    ensures |b| == RECORD_BYTES * |rs|
  {
    if rs == [] then [] else EncodeRecord(rs[0]) + EncodeRecords(rs[1..])
  }

  function EncodeHeader(count: nat): (b: seq<u8>)
    ensures |b| == HEADER_BYTES
  {
    MAGIC + EncodeLe(REPLAY_VERSION, 4) + EncodeLe(count, 4)
  }

  function Encode(rs: seq<Record>): (b: seq<u8>)
    ensures |b| == RecordStart(|rs|)
  {
    EncodeHeader(|rs|) + EncodeRecords(rs)
  }

  function ParseRecords(data: seq<u8>, pos: nat, n: nat): Option<seq<Record>>
    decreases n
  {
    if n == 0 then Some([])
    else
      var rest := ParseRecords(data, pos + RECORD_BYTES, n - 1);
      if RecordAt(data, pos).Some? && rest.Some? then Some([RecordAt(data, pos).value] + rest.value) else None
  }

  /** The container read as a value: all announced records must be there. */
  function Parse(data: seq<u8>): Option<seq<Record>> {
    if AcceptedHeader(data) then ParseRecords(data, HEADER_BYTES, Announced(data)) else None
  }

  lemma HeadRoundTrip(h: Head)
    ensures DecodeHead(EncodeHead(h)) == h
  {
    Pow256Values();
    var b := EncodeHead(h);
    DecodeEncode(h.timestampUs, 8);
    DecodeEncode(h.reserved, 2);
    DecodeEncode(h.length, 4);
    assert b[..8] == EncodeLe(h.timestampUs, 8);
    assert b[10..12] == EncodeLe(h.reserved, 2);
    assert b[12..16] == EncodeLe(h.length, 4);
  }

  lemma HeadReencodes(b: seq<u8>)
    requires |b| == RECORD_HEAD_BYTES
    ensures EncodeHead(DecodeHead(b)) == b
  {
    EncodeDecode(b[..8]);
    EncodeDecode(b[10..12]);
    EncodeDecode(b[12..16]);
    assert b == b[..8] + [b[8], b[9]] + b[10..12] + b[12..16];
  }

  lemma RecordRoundTrip(r: Record, before: seq<u8>, after: seq<u8>)
    ensures RecordAt(before + EncodeRecord(r) + after, |before|) == Some(r)
  {
    var data := before + EncodeRecord(r) + after;
    var head := Head(r.timestampUs, r.endpoint, r.reportId, r.reserved, HID_REPORT_LENGTH);
    HeadRoundTrip(head);
    assert data[|before|..|before| + RECORD_HEAD_BYTES] == EncodeHead(head);
    assert data[|before| + RECORD_HEAD_BYTES..|before| + RECORD_BYTES] == r.report;
  }

  lemma RecordReencodes(data: seq<u8>, pos: nat)
    requires RecordAt(data, pos).Some?
    ensures EncodeRecord(RecordAt(data, pos).value) == data[pos..pos + RECORD_BYTES]
  {
    HeadReencodes(data[pos..pos + RECORD_HEAD_BYTES]);
    assert data[pos..pos + RECORD_BYTES]
           == data[pos..pos + RECORD_HEAD_BYTES] + data[pos + RECORD_HEAD_BYTES..pos + RECORD_BYTES];
  }

  lemma Regroup(a: seq<u8>, b: seq<u8>, c: seq<u8>, d: seq<u8>)
    ensures a + (b + c) + d == a + b + (c + d) == (a + b) + c + d
  {
  }

  lemma {:induction false} RecordsRoundTrip(rs: seq<Record>, before: seq<u8>, after: seq<u8>)
    ensures ParseRecords(before + EncodeRecords(rs) + after, |before|, |rs|) == Some(rs)
    decreases |rs|
  {
    if rs != [] {
      var first, others := EncodeRecord(rs[0]), EncodeRecords(rs[1..]);
      Regroup(before, first, others, after);
      RecordRoundTrip(rs[0], before, others + after);
      RecordsRoundTrip(rs[1..], before + first, after);
      assert [rs[0]] + rs[1..] == rs;
    }
  }

  lemma HeaderRoundTrip(rs: seq<Record>, trailing: seq<u8>)
    requires |rs| <= MAX_REPLAY_RECORDS
    ensures AcceptedHeader(Encode(rs) + trailing) && Announced(Encode(rs) + trailing) == |rs|
  {
    AcceptedHeaderIff(Encode(rs) + trailing);
    var h := (Encode(rs) + trailing)[..HEADER_BYTES];
    Pow256Values();
    DecodeEncode(REPLAY_VERSION, 4);
    DecodeEncode(|rs|, 4);
    assert h == EncodeHeader(|rs|);
    assert h[8..12] == EncodeLe(REPLAY_VERSION, 4) && h[12..16] == EncodeLe(|rs|, 4);
  }

  /** Container round trip: parsing what was serialised, with anything after it, returns the records. */
  lemma ContainerRoundTrip(rs: seq<Record>, trailing: seq<u8>)
    requires |rs| <= MAX_REPLAY_RECORDS
    ensures Parse(Encode(rs) + trailing) == Some(rs)
  {
    HeaderRoundTrip(rs, trailing);
    RecordsRoundTrip(rs, EncodeHeader(|rs|), trailing);
  }

  lemma {:induction false} RecordsReencode(data: seq<u8>, pos: nat, n: nat)
    requires ParseRecords(data, pos, n).Some? && pos <= |data|
    ensures var rs := ParseRecords(data, pos, n).value;
      |rs| == n && pos + RECORD_BYTES * n <= |data| && EncodeRecords(rs) == data[pos..pos + RECORD_BYTES * n]
    decreases n
  {
    if n > 0 {
      RecordsReencode(data, pos + RECORD_BYTES, n - 1);
      RecordReencodes(data, pos);
      var rs := ParseRecords(data, pos, n).value;
      assert rs[1..] == ParseRecords(data, pos + RECORD_BYTES, n - 1).value;
      assert data[pos..pos + RECORD_BYTES * n]
             == data[pos..pos + RECORD_BYTES] + data[pos + RECORD_BYTES..pos + RECORD_BYTES * n];
    }
  }

  /** The other way round: re-serialising an accepted file reproduces its consumed bytes, `reserved` included. */
  lemma ContainerReencodes(data: seq<u8>)
    requires Parse(data).Some?
    ensures var rs := Parse(data).value;
      RecordStart(|rs|) <= |data| && Encode(rs) == data[..RecordStart(|rs|)]
  {
    PrefixReencodes(data, Announced(data));
  }

  lemma PrefixReencodes(data: seq<u8>, n: nat)
    requires AcceptedHeader(data) && ParseRecords(data, HEADER_BYTES, n).Some?
    ensures var rs := ParseRecords(data, HEADER_BYTES, n).value;
      && |rs| == n && RecordStart(n) <= |data|
      && EncodeHeader(Announced(data)) + EncodeRecords(rs) == data[..RecordStart(n)]
  {
    RecordsReencode(data, HEADER_BYTES, n);
    HeaderReencodes(data);
    assert data[..RecordStart(n)] == data[..HEADER_BYTES] + data[HEADER_BYTES..RecordStart(n)];
  }

  lemma HeaderReencodes(data: seq<u8>)
    requires AcceptedHeader(data)
    ensures EncodeHeader(Announced(data)) == data[..HEADER_BYTES]
  {
    AcceptedHeaderIff(data);
    var h := data[..HEADER_BYTES];
    EncodeDecode(h[8..12]);
    EncodeDecode(h[12..16]);
    assert h == h[..8] + h[8..12] + h[12..16];
  }

  /** Records `[i, n)` are there and acceptable. */
  predicate AllGood(f: Contents, i: nat, n: nat)
    decreases n - i
  {
    i < n ==> f(i).Good? && AllGood(f, i + 1, n)
  }

  lemma {:induction false} GoodRecordsParse(data: seq<u8>, i: nat, n: nat)
    requires i <= n && AllGood(ContentsOf(data), i, n)
    ensures ParseRecords(data, RecordStart(i), n - i).Some?
    decreases n - i
  {
    if i < n {
      GoodRecordsParse(data, i + 1, n);
      assert EntryAt(data, RecordStart(i)).Good?;
      assert RecordStart(i + 1) == RecordStart(i) + RECORD_BYTES;
    }
  }

  /** Where the byte-level loop stands in the file when it ends. */
  lemma {:induction false} RunConsumes(
      source: Source, f: Contents, size: nat, o: Options, count: nat, trips: seq<Trip>, t: Tally)
    requires Reads(source, f, size) && AtRecord(size, t) && t.result == 0 && !t.stop && t.processed <= count
    ensures var r := Run(source, o, count, trips, t);
      && t.processed <= r.processed <= count && RecordStart(r.processed) <= r.pos <= size
      && (r.processed == count ==> r.pos == RecordStart(count))
      && AllGood(f, t.processed, r.processed)
    decreases count - t.processed
  {
    if t.processed < count && !TripAt(trips, t.processed).stopAtHead {
      var trip := TripAt(trips, t.processed);
      var next := Advance(source, o, trip, t);
      AdvanceExact(source, f, size, o, trip, t);
      if next.result == 0 && !next.stop {
        RunConsumes(source, f, size, o, count, trips, next);
      }
    }
  }

  /**
   * The bytes behind a replay. Whatever ends it, re-serialising the header and the processed records reproduces
   * the beginning of the file byte for byte, the unchecked `reserved` fields included; and when all announced
   * records were processed, that is everything up to the position at which the tool stopped reading.
   */
  lemma ReplayReencodes(data: seq<u8>, script: seq<nat>, o: Options, connect: int, trips: seq<Trip>)
    requires Healthy(script) && AcceptedHeader(data)
    ensures var t := Replayed(data, script, o, connect, trips);
            var rs := ParseRecords(data, HEADER_BYTES, t.processed);
      && rs.Some? && |rs.value| == t.processed
      && RecordStart(t.processed) <= t.pos <= |data|
      && EncodeHeader(Announced(data)) + EncodeRecords(rs.value) == data[..RecordStart(t.processed)]
      && (t.processed == Announced(data) && t.result == 0 ==> t.pos == RecordStart(t.processed))
  {
    var t := Replayed(data, script, o, connect, trips);
    ReplayConsumes(data, script, o, connect, trips);
    GoodRecordsParse(data, 0, t.processed);
    PrefixReencodes(data, t.processed);
  }

  lemma ReplayConsumes(data: seq<u8>, script: seq<nat>, o: Options, connect: int, trips: seq<Trip>)
    requires Healthy(script) && AcceptedHeader(data)
    ensures var t := Replayed(data, script, o, connect, trips);
      && RecordStart(t.processed) <= t.pos <= |data| && AllGood(ContentsOf(data), 0, t.processed)
      && (t.processed == Announced(data) && t.result == 0 ==> t.pos == RecordStart(t.processed))
  {
    AcceptedHeaderIff(data);
    ShortReadsIrrelevant(|data|, 0, HEADER_BYTES, script);
    var h := ReadExactly(|data|, 0, HEADER_BYTES, script);
    if o.dryRun || connect == 0 {
      FileReads(data);
      RunConsumes(SourceOf(data), ContentsOf(data), |data|, o, Announced(data), trips,
                  IDLE.(pos := h.pos, script := h.script));
    }
  }

  lemma {:induction false} ParsedNth(data: seq<u8>, pos: nat, n: nat, i: nat)
    requires ParseRecords(data, pos, n).Some? && i < n
    ensures var rs := ParseRecords(data, pos, n).value;
      |rs| == n && RecordAt(data, pos + RECORD_BYTES * i) == Some(rs[i])
    decreases n
  {
    if n > 1 {
      ParsedNth(data, pos + RECORD_BYTES, n - 1, if i > 0 then i - 1 else 0);
    }
  }

  /**
   * The tool accepts what a well-formed producer writes: any list of acceptable records, serialised and
   * followed by anything, is replayed in full, and a live run sends exactly its reports.
   */
  lemma SerialisedIsReplayed(rs: seq<Record>, trailing: seq<u8>, script: seq<nat>, o: Options, trips: seq<Trip>)
    requires |rs| <= MAX_REPLAY_RECORDS && (forall i :: 0 <= i < |rs| ==> WellFormed(rs[i]))
    requires Healthy(script) && Calm(trips) && o.maxUs == 0
    ensures var t := Replayed(Encode(rs) + trailing, script, o, 0, trips);
      && t.result == 0 && t.processed == |rs|
      && (if o.dryRun then t.sent == []
          else |t.sent| == |rs| && forall i :: 0 <= i < |rs| ==> t.sent[i] == RouteOf(rs[i]))
  {
    HeaderRoundTrip(rs, trailing);
    ContainerRoundTrip(rs, trailing);
    ParsedIsReplayed(Encode(rs) + trailing, rs, script, o, trips);
  }

  lemma ParsedIsReplayed(data: seq<u8>, rs: seq<Record>, script: seq<nat>, o: Options, trips: seq<Trip>)
    requires Parse(data) == Some(rs) && (forall i :: 0 <= i < |rs| ==> WellFormed(rs[i]))
    requires Healthy(script) && Calm(trips) && o.maxUs == 0
    ensures var t := Replayed(data, script, o, 0, trips);
      && t.result == 0 && t.processed == |rs|
      && (if o.dryRun then t.sent == []
          else |t.sent| == |rs| && forall i :: 0 <= i < |rs| ==> t.sent[i] == RouteOf(rs[i]))
  {
    ReplayExact(data, script, o, trips);
    ParsedCount(data, HEADER_BYTES, Announced(data));
    forall i: nat | i < |rs|
      ensures ContentsOf(data)(i) == Good(rs[i])
    {
      ParsedContents(data, rs, i);
    }
    AllPlayable(ContentsOf(data), rs, o, Replayed(data, script, o, 0, trips));
  }

  lemma {:induction false} ParsedCount(data: seq<u8>, pos: nat, n: nat)
    requires ParseRecords(data, pos, n).Some?
    ensures |ParseRecords(data, pos, n).value| == n
    decreases n
  {
    if n > 0 {
      ParsedCount(data, pos + RECORD_BYTES, n - 1);
    }
  }

  lemma ParsedContents(data: seq<u8>, rs: seq<Record>, i: nat)
    requires Parse(data) == Some(rs) && i < |rs| && WellFormed(rs[i])
    ensures ContentsOf(data)(i) == Good(rs[i])
  {
    ParsedCount(data, HEADER_BYTES, Announced(data));
    ParsedNth(data, HEADER_BYTES, |rs|, i);
    RecordIsEntry(data, RecordStart(i));
  }

  lemma RecordIsEntry(data: seq<u8>, pos: nat)
    requires RecordAt(data, pos).Some? && WellFormed(RecordAt(data, pos).value)
    ensures EntryAt(data, pos) == Good(RecordAt(data, pos).value)
  {
  }

  lemma AllPlayable(f: Contents, rs: seq<Record>, o: Options, t: Tally)
    requires RightEnd(f, o, |rs|, 0, t) && o.maxUs == 0
    requires forall i: nat :: i < |rs| ==> WellFormed(rs[i]) && f(i) == Good(rs[i])
    requires t.sent == if o.dryRun then [] else Transmissions(f, 0, t.processed)
    ensures t.result == 0 && t.processed == |rs|
    ensures if o.dryRun then t.sent == []
            else |t.sent| == |rs| && forall i :: 0 <= i < |rs| ==> t.sent[i] == RouteOf(rs[i])
  {
    assert t.processed < |rs| ==> f(t.processed).Good?;
    TransmissionCount(f, 0, |rs|);
    if !o.dryRun {
      forall i: nat | i < |rs|
        ensures t.sent[i] == RouteOf(rs[i])
      {
        TransmissionAt(f, 0, |rs|, i);
      }
    }
  }

  lemma {:induction false} TransmissionCount(f: Contents, i: nat, n: nat)
    requires i <= n && forall j: nat :: j < n ==> f(j).Good?
    ensures |Transmissions(f, i, n)| == n - i
    decreases n - i
  {
    if i < n {
      TransmissionCount(f, i + 1, n);
    }
  }

  lemma {:induction false} TransmissionAt(f: Contents, i: nat, n: nat, k: nat)
    requires i <= k < n && forall j: nat :: j < n ==> f(j).Good?
    ensures |Transmissions(f, i, n)| == n - i
    ensures Transmissions(f, i, n)[k - i] == RouteOf(f(k).record)
    decreases n - i
  {
    TransmissionCount(f, i, n);
    assert Transmissions(f, i, n) == [RouteOf(f(i).record)] + Transmissions(f, i + 1, n);
    if i < k {
      TransmissionAt(f, i + 1, n, k);
    }
  }
}
