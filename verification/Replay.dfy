/** The `DPRPL001` replay container: reading, validation, routing and the replay loop. */
module Replay {
  import opened Abi
  import opened Bytes

  const MAGIC: seq<u8> := [0x44, 0x50, 0x52, 0x50, 0x4c, 0x30, 0x30, 0x31]
  const REPLAY_VERSION: nat := 1
  const HID_REPORT_LENGTH: nat := 4096
  const MAX_REPLAY_RECORDS: nat := 10_000_000
  const HEADER_BYTES: nat := 16
  const RECORD_HEAD_BYTES: nat := 16
  const RECORD_BYTES: nat := 4112

  type Report = r: seq<u8> | |r| == HID_REPORT_LENGTH witness seq(HID_REPORT_LENGTH, _ => 0)

  datatype Record = Record(timestampUs: u64, endpoint: u8, reportId: u8, reserved: u16, report: Report)

  /** Bytes one `fread` delivers; an entry 0 in the script is a read error, calls beyond it are not cut short. */
  function Fread(available: nat, want: nat, script: seq<nat>): (n: nat)
    ensures n <= available && n <= want
  {
    var most := if available < want then available else want;
    if script == [] || script[0] >= most then most else script[0]
  }

  datatype Fetch = Fetch(ok: bool, pos: nat, script: seq<nat>)

  function Rest(script: seq<nat>): seq<nat> {
    if script == [] then [] else script[1..]
  }

  /** `read_exact` on a file of `size` bytes. */
  function ReadExactly(size: nat, pos: nat, want: nat, script: seq<nat>): (f: Fetch)
    requires pos <= size
    ensures pos <= f.pos <= size
    ensures f.ok ==> f.pos == pos + want
    decreases want
  {
    if want == 0 then Fetch(true, pos, script)
    else
      var n := Fread(size - pos, want, script);
      if n == 0 then Fetch(false, pos, Rest(script))
      else ReadExactly(size, pos + n, want - n, Rest(script))
  }

  /** Unfolding `read_exact` by one `fread`. */
  lemma ReadExactlyStep(size: nat, pos: nat, want: nat, script: seq<nat>)
    requires pos <= size && want > 0
    ensures var n := Fread(size - pos, want, script);
      ReadExactly(size, pos, want, script)
      == if n == 0 then Fetch(false, pos, Rest(script)) else ReadExactly(size, pos + n, want - n, Rest(script))
  {
  }

  lemma SlicesJoin(data: seq<u8>, a: nat, b: nat, c: nat)
    requires a <= b <= c <= |data|
    ensures data[a..b] + data[b..c] == data[a..c]
  {
  }

  /** No read error ahead, however short the reads are. */
  predicate Healthy(script: seq<nat>) {
    forall i :: 0 <= i < |script| ==> script[i] > 0
  }

  /** Short reads do not matter: a healthy stream delivers exactly when the bytes exist. */
  lemma {:induction false} ShortReadsIrrelevant(size: nat, pos: nat, want: nat, script: seq<nat>)
    requires pos <= size && Healthy(script)
    ensures var f := ReadExactly(size, pos, want, script);
      && (f.ok <==> pos + want <= size)
      && Healthy(f.script)
    decreases want
  {
    if want > 0 {
      var n := Fread(size - pos, want, script);
      if n > 0 {
        ShortReadsIrrelevant(size, pos + n, want - n, Rest(script));
      }
    }
  }

  /** A stdio stream over a file. */
  class Stream {
    const data: seq<u8>
    var pos: nat
    var script: seq<nat>

    constructor (data: seq<u8>, script: seq<nat>)
      ensures this.data == data && pos == 0 && this.script == script
    {
      this.data, pos, this.script := data, 0, script;
    }

    /** One `fread`, as one step of `read_exact`. */
    method Read(want: nat) returns (bytes: seq<u8>)
      requires pos <= |data| && want > 0
      modifies this
      ensures |bytes| <= want && pos == old(pos) + |bytes| <= |data| && bytes == data[old(pos)..pos]
      ensures ReadExactly(|data|, old(pos), want, old(script))
              == if bytes == [] then Fetch(false, pos, script)
                 else ReadExactly(|data|, pos, want - |bytes|, script)
    {
      ReadExactlyStep(|data|, pos, want, script);
      var n := Fread(|data| - pos, want, script);
      bytes := data[pos..pos + n];
      pos, script := pos + n, Rest(script);
    }

    /** `read_exact`: all of the bytes, or -EIO. */
    method ReadExact(length: nat) returns (result: int, buffer: seq<u8>)
      requires pos <= |data|
      modifies this
      ensures Fetch(result == 0, pos, script) == ReadExactly(|data|, old(pos), length, old(script))
      ensures pos <= |data|
      ensures result == 0 ==> buffer == data[old(pos)..old(pos) + length]
      ensures result != 0 ==> result == -EIO
    {
      result, buffer := 0, [];
      var total := 0;
      ghost var start, outcome := pos, ReadExactly(|data|, pos, length, script);
      while result == 0 && total < length
        invariant 0 <= total <= length && pos <= |data|
        invariant pos == start + total && buffer == data[start..pos]
        invariant result == 0 ==> outcome == ReadExactly(|data|, pos, length - total, script)
        invariant result != 0 ==> result == -EIO && outcome == Fetch(false, pos, script)
        decreases length - total, result == 0
      {
        ghost var before := pos;
        var bytes := Read(length - total);
        SlicesJoin(data, start, before, pos);
        if |bytes| == 0 {
          result := -EIO;
        } else {
          total := total + |bytes|;
          buffer := buffer + bytes;
        }
      }
    }
  }

  /** The first byte of a report that goes to this endpoint, or -1. */
  function ExpectedReportId(endpoint: u8): int {
    if endpoint == 3 then 2 else if endpoint == 4 then 1 else -1
  }

  /** HID interface 0 or 1. */
  function TargetOf(endpoint: u8): nat {
    if endpoint == 3 then 0 else 1
  }

  predicate IsCommand(r: Record) {
    r.report[1] == 1
  }

  predicate Acceptable(r: Record) {
    var id := ExpectedReportId(r.endpoint);
    id >= 0 && r.reportId == id && r.report[0] == id && (r.report[1] == 1 || r.report[1] == 2)
  }

  /** The fixed part of a record as stored (packed, little-endian). */
  datatype Head = Head(timestampUs: u64, endpoint: u8, reportId: u8, reserved: u16, length: u32)

  function DecodeHead(b: seq<u8>): Head
    requires |b| == RECORD_HEAD_BYTES
  {
    Head(Word64(b[..8]), b[8], b[9], Word16(b[10..12]), Word32(b[12..16]))
  }

  function EncodeHead(h: Head): (b: seq<u8>)
    ensures |b| == RECORD_HEAD_BYTES
  {
    EncodeLe(h.timestampUs, 8) + [h.endpoint, h.reportId] + EncodeLe(h.reserved, 2) + EncodeLe(h.length, 4)
  }

  predicate HeaderOk(b: seq<u8>)
    requires |b| == HEADER_BYTES
  {
    b[..8] == MAGIC && Word32(b[8..12]) == REPLAY_VERSION && Word32(b[12..16]) <= MAX_REPLAY_RECORDS
  }

  function RecordCount(b: seq<u8>): u32
    requires |b| == HEADER_BYTES
  {
    Word32(b[12..16])
  }

  /** What reading one record comes to: a record or an error. */
  datatype Reading = Reading(code: int, record: Option<Record>, pos: nat, script: seq<nat>)

  type Got = g: Reading | g.code == 0 <==> g.record.Some? witness Reading(-EIO, None, 0, [])

  function ReadRecord(data: seq<u8>, pos: nat, script: seq<nat>): (g: Got)
    requires pos <= |data|
    ensures pos <= g.pos <= |data|
  {
    var h := ReadExactly(|data|, pos, RECORD_HEAD_BYTES, script);
    if !h.ok then Reading(-EIO, None, h.pos, h.script)
    else
      var head := DecodeHead(data[pos..h.pos]);
      if head.length != HID_REPORT_LENGTH then Reading(-EPROTO, None, h.pos, h.script)
      else
        var b := ReadExactly(|data|, h.pos, HID_REPORT_LENGTH, h.script);
        if !b.ok then Reading(-EIO, None, b.pos, b.script)
        else
          var r := Record(head.timestampUs, head.endpoint, head.reportId, head.reserved, data[h.pos..b.pos]);
          if Acceptable(r) then Reading(0, Some(r), b.pos, b.script) else Reading(-EPROTO, None, b.pos, b.script)
  }

  /** `maxUs == 0`: no time limit. `due`: when a record is due, from the start of the replay and its timestamp. */
  datatype Options = Options(dryRun: bool, maxUs: nat, due: u64 -> u64)

  predicate OverLimit(o: Options, r: Record) {
    o.maxUs > 0 && r.timestampUs > o.maxUs
  }

  /** One `nanosleep` of `sleep_until`: its error if it failed for good, a stop request, and the next clock sample. */
  datatype Nod = Nod(error: nat, stop: bool, nowUs: u64)

  /** The result of `sleep_until`, whether a stop request is pending, and the last clock sample. */
  datatype Slept = Slept(code: int, stop: bool, nowUs: u64)

  /** `sleep_until`; a sleep beyond the script lasts until its target. */
  function SleepOutcome(targetUs: u64, nowUs: u64, nods: seq<Nod>, stop: bool): Slept
    decreases |nods|
  {
    if stop || nowUs >= targetUs then Slept(0, stop, nowUs)
    else if nods == [] then Slept(0, false, targetUs)
    else if nods[0].error != 0 then Slept(-(nods[0].error as int), nods[0].stop, nods[0].nowUs)
    else SleepOutcome(targetUs, nods[0].nowUs, nods[1..], nods[0].stop)
  }

  /** No sleep fails and no stop request comes, however often the sleeps are cut short. */
  predicate Undisturbed(nods: seq<Nod>) {
    forall i :: 0 <= i < |nods| ==> nods[i].error == 0 && !nods[i].stop
  }

  /** Who wakes without an error or a stop request has slept long enough; undisturbed, everyone does. */
  lemma {:induction false} SleepReaches(targetUs: u64, nowUs: u64, nods: seq<Nod>, stop: bool)
    ensures var s := SleepOutcome(targetUs, nowUs, nods, stop);
      && (s.code == 0 && !s.stop ==> s.nowUs >= targetUs)
      && (Undisturbed(nods) && !stop ==> s.code == 0 && !s.stop)
    decreases |nods|
  {
    if !stop && nowUs < targetUs && nods != [] && nods[0].error == 0 {
      SleepReaches(targetUs, nods[0].nowUs, nods[1..], nods[0].stop);
    }
  }

  /** One `write` of a report: so many bytes, interrupted, or failed. */
  datatype Attempt = Transferred(bytes: nat) | WriteCut | WriteError(error: Errno)

  function AttemptCode(a: Attempt): int {
    match a
    case Transferred(n) => if n == HID_REPORT_LENGTH then 0 else -EIO
    case WriteError(e) => -(e as int)
    case WriteCut => 0
  }

  /** `write_report`; an attempt beyond the script transfers the whole report. */
  function WriteOutcome(attempts: seq<Attempt>): int {
    if attempts == [] then 0
    else if attempts[0] == WriteCut then WriteOutcome(attempts[1..])
    else AttemptCode(attempts[0])
  }

  /**
   * What happens around one record: a stop request before it is read, one before the sleep, the first clock
   * sample of the sleep and its naps, the writes, and a stop request just before the record is counted.
   */
  datatype Trip = Trip(
    stopAtHead: bool, stopEarly: bool, firstUs: u64, nods: seq<Nod>, attempts: seq<Attempt>, stopLate: bool)

  const QUIET := Trip(false, false, 0, [], [], false)

  function TripAt(trips: seq<Trip>, i: nat): Trip {
    if i < |trips| then trips[i] else QUIET
  }

  datatype Sent = Sent(target: nat, report: Report)

  /** `sentAt`: the last clock sample before each transmission. */
  datatype Tally = Tally(
    pos: nat, script: seq<nat>, processed: nat, commands: nat, video: nat, lastUs: u64, result: int, stop: bool,
    sent: seq<Sent>, sentAt: seq<u64>)

  function SentOf(r: Record): Sent {
    Sent(TargetOf(r.endpoint), r.report)
  }

  function Counted(t: Tally, r: Record): Tally {
    t.(processed := t.processed + 1, lastUs := r.timestampUs,
       commands := if IsCommand(r) then t.commands + 1 else t.commands,
       video := if IsCommand(r) then t.video else t.video + 1)
  }

  /** Handing over one acceptable record within the limit. */
  function Deliver(o: Options, trip: Trip, r: Record, t: Tally): Tally {
    if o.dryRun then (if trip.stopLate then t.(stop := true) else Counted(t, r))
    else
      var slept := SleepOutcome(o.due(r.timestampUs), trip.firstUs, trip.nods, trip.stopEarly);
      var written := WriteOutcome(trip.attempts);
      if slept.code != 0 || slept.stop then t.(result := slept.code, stop := slept.stop)
      else if written != 0 then t.(result := written)
      else
        var t1 := t.(sent := t.sent + [SentOf(r)], sentAt := t.sentAt + [slept.nowUs]);
        if trip.stopLate then t1.(stop := true) else Counted(t1, r)
  }

  /** A source of records: what reading at a position, with the rest of a script, comes to. */
  type Source = (nat, seq<nat>) -> Got

  function SourceOf(data: seq<u8>): Source {
    (pos: nat, script: seq<nat>) =>
      if pos <= |data| then ReadRecord(data, pos, script) else Reading(-EIO, None, pos, script)
  }

  /** One trip of the loop: read, check the time limit, hand over. */
  function Advance(source: Source, o: Options, trip: Trip, t: Tally): Tally {
    if trip.stopAtHead then t.(stop := true)
    else
      var g := source(t.pos, t.script);
      var t1 := t.(pos := g.pos, script := g.script);
      match g.record
      case None => t1.(result := g.code)
      case Some(r) => if OverLimit(o, r) then t1.(stop := true) else Deliver(o, trip, r, t1)
  }

  predicate Finished(count: nat, t: Tally) {
    t.result != 0 || t.stop || t.processed >= count
  }

  function Run(source: Source, o: Options, count: nat, trips: seq<Trip>, t: Tally): Tally
    decreases count - t.processed, if Finished(count, t) then 0 else 1
  {
    if Finished(count, t) then t
    else
      AdvanceCounts(source, o, TripAt(trips, t.processed), t);
      Run(source, o, count, trips, Advance(source, o, TripAt(trips, t.processed), t))
  }

  /** A trip ends the replay or processes a record. */
  lemma AdvanceCounts(source: Source, o: Options, trip: Trip, t: Tally)
    ensures var next := Advance(source, o, trip, t);
      && (t.result == 0 && !t.stop ==>
            next.processed == if next.result == 0 && !next.stop then t.processed + 1 else t.processed)
      && t.processed <= next.processed && (next.result == 0 && !next.stop ==> next.processed > t.processed)
  {
  }

  const IDLE := Tally(0, [], 0, 0, 0, 0, 0, false, [], [])

  /** The whole replay of a file. `connect`: opening and verifying the two HID nodes in live mode. */
  function Replayed(data: seq<u8>, script: seq<nat>, o: Options, connect: int, trips: seq<Trip>): Tally {
    var h := ReadExactly(|data|, 0, HEADER_BYTES, script);
    var t := IDLE.(pos := h.pos, script := h.script);
    if !h.ok then t.(result := -EIO)
    else if !HeaderOk(data[..HEADER_BYTES]) then t.(result := -EPROTO)
    else if !o.dryRun && connect != 0 then t.(result := connect)
    else Run(SourceOf(data), o, RecordCount(data[..HEADER_BYTES]), trips, t)
  }

  /** Reading and checking one record: head, length, report, routing. */
  method FetchRecord(stream: Stream) returns (result: int, record: Option<Record>)
    requires stream.pos <= |stream.data|
    modifies stream
    ensures stream.pos <= |stream.data|
    ensures Reading(result, record, stream.pos, stream.script)
            == ReadRecord(stream.data, old(stream.pos), old(stream.script))
  {
    record := None;
    var bytes, report;
    result, bytes := stream.ReadExact(RECORD_HEAD_BYTES);
    if result == 0 {
      var head := DecodeHead(bytes);
      if head.length != HID_REPORT_LENGTH {
        result := -EPROTO;
      } else {
        result, report := stream.ReadExact(HID_REPORT_LENGTH);
        if result == 0 {
          var r := Record(head.timestampUs, head.endpoint, head.reportId, head.reserved, report);
          if Acceptable(r) {
            record := Some(r);
          } else {
            result := -EPROTO;
          }
        }
      }
    }
  }

  /** `sleep_until`: it returns 0 without a stop request only when the last clock sample has reached the target. */
  method SleepUntil(targetUs: u64, firstUs: u64, nods: seq<Nod>, stopRequested: bool) returns (slept: Slept)
    ensures slept == SleepOutcome(targetUs, firstUs, nods, stopRequested)
    ensures slept.code == 0 && !slept.stop ==> slept.nowUs >= targetUs
  {
    var nowUs: u64 := firstUs;
    var result, stop, used := 0, stopRequested, 0;
    while result == 0 && !stop && nowUs < targetUs
      invariant 0 <= used <= |nods|
      invariant result == 0 ==> SleepOutcome(targetUs, firstUs, nods, stopRequested)
                                == SleepOutcome(targetUs, nowUs, nods[used..], stop)
      invariant result != 0 ==> SleepOutcome(targetUs, firstUs, nods, stopRequested) == Slept(result, stop, nowUs)
      decreases |nods| - used, if nowUs < targetUs then 1 else 0, if result == 0 then 1 else 0
    {
      if used == |nods| {
        nowUs := targetUs;
      } else {
        assert nods[used..][0] == nods[used] && nods[used..][1..] == nods[used + 1..];
        if nods[used].error != 0 {
          result := -(nods[used].error as int);
        }
        stop, nowUs := nods[used].stop, nods[used].nowUs;
        used := used + 1;
      }
    }
    slept := Slept(result, stop, nowUs);
    SleepReaches(targetUs, firstUs, nods, stopRequested);
  }

  /** `write_report`: the first attempt that is not interrupted decides, and only a whole report is a success. */
  method WriteReport(attempts: seq<Attempt>) returns (result: int)
    ensures result == WriteOutcome(attempts)
    ensures result == 0 <==>
              (forall i :: 0 <= i < |attempts| && (forall j :: 0 <= j < i ==> attempts[j] == WriteCut) ==>
                 attempts[i] == WriteCut || attempts[i] == Transferred(HID_REPORT_LENGTH))
  {
    var used := 0;
    while used < |attempts| && attempts[used] == WriteCut
      invariant 0 <= used <= |attempts|
      invariant forall j :: 0 <= j < used ==> attempts[j] == WriteCut
      invariant WriteOutcome(attempts) == WriteOutcome(attempts[used..])
    {
      assert attempts[used..][1..] == attempts[used + 1..];
      used := used + 1;
    }
    result := if used < |attempts| then AttemptCode(attempts[used]) else 0;
  }

  /** The variables of the replay loop. */
  class Replayer {
    const stream: Stream
    const options: Options
    var processed: nat
    var commands: nat
    var video: nat
    var lastTimestampUs: u64
    var result: int
    var stopRequested: bool
    var sent: seq<Sent>
    var sentAt: seq<u64>

    constructor (stream: Stream, options: Options)
      ensures this.stream == stream && this.options == options
      ensures View() == IDLE.(pos := stream.pos, script := stream.script)
    {
      this.stream, this.options := stream, options;
      processed, commands, video, lastTimestampUs, result, stopRequested := 0, 0, 0, 0, 0, false;
      sent, sentAt := [], [];
    }

    ghost function View(): Tally
      reads this, stream
    {
      Tally(stream.pos, stream.script, processed, commands, video, lastTimestampUs, result, stopRequested, sent,
            sentAt)
    }

    /** Sleep until the record is due, write it, count it. */
    method Hand(trip: Trip, r: Record)
      requires result == 0 && !stopRequested
      modifies this
      ensures View() == Deliver(options, trip, r, old(View()))
    {
      if !options.dryRun {
        var slept := SleepUntil(options.due(r.timestampUs), trip.firstUs, trip.nods, trip.stopEarly);
        result, stopRequested := slept.code, slept.stop;
        if result == 0 && !stopRequested {
          result := WriteReport(trip.attempts);
          if result == 0 {
            sent, sentAt := sent + [SentOf(r)], sentAt + [slept.nowUs];
          }
        }
      }
      if result == 0 && !stopRequested {
        stopRequested := trip.stopLate;
      }
      if result == 0 && !stopRequested {
        processed := processed + 1;
        lastTimestampUs := r.timestampUs;
        if IsCommand(r) {
          commands := commands + 1;
        } else {
          video := video + 1;
        }
      }
    }

    method Next(trip: Trip)
      requires result == 0 && !stopRequested && stream.pos <= |stream.data|
      modifies this, stream
      ensures stream.pos <= |stream.data|
      ensures View() == Advance(SourceOf(stream.data), options, trip, old(View()))
    {
      if trip.stopAtHead {
        stopRequested := true;
      } else {
        var record;
        result, record := FetchRecord(stream);
        if result == 0 {
          if OverLimit(options, record.value) {
            stopRequested := true;
          } else {
            Hand(trip, record.value);
          }
        }
      }
    }

    /** The loop over the records. */
    method Loop(count: nat, trips: seq<Trip>)
      requires stream.pos <= |stream.data| && result == 0 && !stopRequested && processed == 0
      modifies this, stream
      ensures View() == Run(SourceOf(stream.data), options, count, trips, old(View()))
    {
      ghost var source := SourceOf(stream.data);
      ghost var end := Run(source, options, count, trips, View());
      while result == 0 && !stopRequested && processed < count
        invariant stream.pos <= |stream.data| && end == Run(source, options, count, trips, View())
        decreases count - processed, if result == 0 && !stopRequested then 1 else 0
      {
        AdvanceCounts(source, options, TripAt(trips, processed), View());
        Next(TripAt(trips, processed));
      }
    }

    /** `main` after option parsing: header, HID nodes in live mode, records. */
    method Replay(connect: int, trips: seq<Trip>)
      requires View() == IDLE.(script := stream.script)
      modifies this, stream
      ensures View() == Replayed(stream.data, old(stream.script), options, connect, trips)
    {
      var header;
      result, header := stream.ReadExact(HEADER_BYTES);
      if result == 0 && !HeaderOk(header) {
        result := -EPROTO;
      }
      if result == 0 && !options.dryRun {
        result := connect;
      }
      if result == 0 {
        Loop(RecordCount(header), trips);
      }
    }
  }
}
