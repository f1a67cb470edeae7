/** The readiness marker: its text, `write_all`, and publication by rename. */
module Marker {
  import opened Abi
  import opened Bytes

  const CONTENTS_SIZE: nat := 256
  const TEMPORARY_SIZE: nat := 320

  /** What one readiness marker says. `name` is the backend's name, absent for a null pointer. */
  datatype Claim = Claim(pid: nat, generation: u64, name: Option<string>, physical: bool)

  function BackendName(c: Claim): string {
    if c.name.Some? then c.name.value else "unknown"
  }

  function PhysicalBit(c: Claim): string {
    if c.physical then "1" else "0"
  }

  function Line(key: string, value: string): string {
    key + "=" + value + "\n"
  }

  function MarkerText(c: Claim): string {
    Concat([Line("pid", Decimal(c.pid)), Line("generation", Decimal(c.generation)),
            Line("backend", BackendName(c)), Line("physical", PhysicalBit(c))])
  }

  lemma MarkerLines(c: Claim)
    ensures MarkerText(c)
            == Line("pid", Decimal(c.pid))
               + (Line("generation", Decimal(c.generation))
                  + (Line("backend", BackendName(c)) + Line("physical", PhysicalBit(c))))
  {
    ConcatFour(Line("pid", Decimal(c.pid)), Line("generation", Decimal(c.generation)),
               Line("backend", BackendName(c)), Line("physical", PhysicalBit(c)));
  }

  /** One `write` call: so many bytes (cut to what is left), interrupted by a signal, or failed. */
  datatype WriteStep = Wrote(count: nat) | WriteInterrupted | WriteFailed(error: Errno)

  /** Result of `write_all` after `done` of `length` bytes; a call the script does not list writes all that is left. */
  function WriteAllCode(length: nat, done: nat, steps: seq<WriteStep>): int
    decreases |steps|
  {
    if done >= length || steps == [] then 0
    else match steps[0]
      case WriteInterrupted => WriteAllCode(length, done, steps[1..])
      case WriteFailed(e) => -(e as int)
      case Wrote(n) => if n == 0 then -EIO else WriteAllCode(length, done + n, steps[1..])
  }

  /** Call `i` is reached before the buffer is out, and makes `write_all` give up. */
  ghost predicate GivesUpAt(length: nat, done: nat, steps: seq<WriteStep>, i: nat)
    requires i < |steps|
  {
    && done + Delivered(steps[..i]) < length
    && (steps[i].WriteFailed? || steps[i] == Wrote(0))
    && (forall j :: 0 <= j < i ==> !steps[j].WriteFailed? && steps[j] != Wrote(0))
  }

  function Delivered(steps: seq<WriteStep>): nat {
    if steps == [] then 0
    else Delivered(steps[..|steps| - 1])
         + if steps[|steps| - 1].Wrote? then steps[|steps| - 1].count else 0
  }

  lemma {:induction false} DeliveredFront(steps: seq<WriteStep>)
    requires steps != []
    ensures Delivered(steps) == (if steps[0].Wrote? then steps[0].count else 0) + Delivered(steps[1..])
  {
    if |steps| > 1 {
      var init := steps[..|steps| - 1];
      DeliveredFront(init);
      assert init[1..] == steps[1..][..|steps[1..]| - 1];
    }
  }

  lemma GivesUpShift(length: nat, done: nat, steps: seq<WriteStep>, i: nat)
    requires 0 < i < |steps| && !steps[0].WriteFailed? && steps[0] != Wrote(0)
    ensures GivesUpAt(length, done, steps, i)
            <==> GivesUpAt(length, done + if steps[0].Wrote? then steps[0].count else 0, steps[1..], i - 1)
  {
    var tail := steps[1..];
    DeliveredFront(steps[..i]);
    assert steps[..i][1..] == tail[..i - 1];
    assert forall j :: 0 < j < i ==> tail[j - 1] == steps[j];
    assert forall j :: 0 <= j < i - 1 ==> tail[j] == steps[j + 1];
  }

  /** `write_all` fails exactly when some call gives up before everything is written. */
  lemma {:induction false} WriteAllFailsIff(length: nat, done: nat, steps: seq<WriteStep>)
    ensures WriteAllCode(length, done, steps) != 0
            <==> exists i: nat :: i < |steps| && GivesUpAt(length, done, steps, i)
    decreases |steps|
  {
    if steps != [] && done < length {
      if steps[0].WriteFailed? || steps[0] == Wrote(0) {
        assert GivesUpAt(length, done, steps, 0);
      } else {
        var tail := steps[1..];
        var next := done + if steps[0].Wrote? then steps[0].count else 0;
        WriteAllFailsIff(length, next, tail);
        if i: nat :| i < |tail| && GivesUpAt(length, next, tail, i) {
          GivesUpShift(length, done, steps, i + 1);
          assert GivesUpAt(length, done, steps, i + 1);
        }
        if i: nat :| i < |steps| && GivesUpAt(length, done, steps, i) {
          GivesUpShift(length, done, steps, i);
          assert GivesUpAt(length, next, tail, i - 1);
        }
      }
    }
  }

  /** `write_all`: what lands in the file is the buffer, or on failure a proper prefix of it. */
  method WriteAll(buffer: string, steps: seq<WriteStep>) returns (result: int, file: string)
    ensures result == WriteAllCode(|buffer|, 0, steps)
    ensures file <= buffer
    ensures result == 0 <==> file == buffer
  {
    result := 0;
    var writtenTotal, i := 0, 0;
    while writtenTotal < |buffer| && result == 0
      invariant 0 <= writtenTotal <= |buffer| && 0 <= i <= |steps|
      invariant result == 0 ==> WriteAllCode(|buffer|, 0, steps) == WriteAllCode(|buffer|, writtenTotal, steps[i..])
      invariant result != 0 ==> result == WriteAllCode(|buffer|, 0, steps) && writtenTotal < |buffer|
      decreases |steps| - i, |buffer| - writtenTotal, result == 0
    {
      if i == |steps| {
        writtenTotal := |buffer|;
      } else {
        assert steps[i..][0] == steps[i] && steps[i..][1..] == steps[i + 1..];
        match steps[i] {
          case WriteInterrupted =>
          case WriteFailed(e) => result := -(e as int);
          case Wrote(n) =>
            if n == 0 {
              result := -EIO;
            } else {
              writtenTotal := if writtenTotal + n <= |buffer| then writtenTotal + n else |buffer|;
            }
        }
        i := i + 1;
      }
    }
    file := buffer[..writtenTotal];
  }

  /** Answers of the file system to one publication. */
  datatype PublishEnv = PublishEnv(open: nat, steps: seq<WriteStep>, close: nat, rename: nat, unlinkOk: bool)

  /** `publish_ready_file` as a result code; an empty path turns the marker off. */
  function PublishCode(path: string, c: Claim, env: PublishEnv): int {
    if path == "" then 0
    else if |path| + |".tmp."| + |Decimal(c.pid)| >= TEMPORARY_SIZE then -ENAMETOOLONG
    else if env.open != 0 then -(env.open as int)
    else if |MarkerText(c)| >= CONTENTS_SIZE then -EOVERFLOW
    else if WriteAllCode(|MarkerText(c)|, 0, env.steps) != 0 then WriteAllCode(|MarkerText(c)|, 0, env.steps)
    else if env.close != 0 then -(env.close as int)
    else -(env.rename as int)
  }

  /** A publication succeeds exactly when path and text fit their buffers and every call works. */
  lemma PublishSucceedsIff(path: string, c: Claim, env: PublishEnv)
    ensures PublishCode(path, c, env) == 0
            <==> path == ""
                 || (&& |path| + 5 + |Decimal(c.pid)| < 320 && |MarkerText(c)| < 256
                     && env.open == 0 && WriteAllCode(|MarkerText(c)|, 0, env.steps) == 0
                     && env.close == 0 && env.rename == 0)
  {
  }

  /** What was to be seen after the marker, if it is up, has been removed. */
  function Cleared(seen: seq<Option<string>>): seq<Option<string>> {
    if seen != [] && seen[|seen| - 1].Some? then seen + [None] else seen
  }

  /** The marker file and its temporary neighbour; `seen` records every content the marker ever had. */
  class Directory {
    var ready: Option<string>
    var temporary: Option<string>
    ghost var seen: seq<Option<string>>

    ghost predicate Valid()
      reads this
    {
      seen != [] && seen[|seen| - 1] == ready
    }

    constructor (ready: Option<string>)
      ensures Valid() && this.ready == ready && temporary == None && seen == [ready]
    {
      this.ready := ready;
      temporary := None;
      seen := [ready];
    }

    /**
     * `publish_ready_file`. Success replaces the marker by the complete text in one step; failure leaves it
     * alone and, if `unlink` works, leaves no temporary file either. Nothing else is ever visible.
     */
    method Publish(path: string, c: Claim, env: PublishEnv) returns (result: int)
      requires Valid()
      modifies this
      ensures Valid() && result == PublishCode(path, c, env)
      ensures ready == if path != "" && result == 0 then Some(MarkerText(c)) else old(ready)
      ensures seen == if path != "" && result == 0 then old(seen) + [ready] else old(seen)
      ensures old(temporary) == None && env.unlinkOk ==> temporary == None
    {
      result := 0;
      if path != "" {
        if |path| + |".tmp."| + |Decimal(c.pid)| >= TEMPORARY_SIZE {
          result := -ENAMETOOLONG;
        }
        if result == 0 && env.open != 0 {
          result := -(env.open as int);
        }
        if result == 0 {
          temporary := Some("");
          var contents := MarkerText(c);
          if |contents| >= CONTENTS_SIZE {
            result := -EOVERFLOW;
          } else {
            var file;
            result, file := WriteAll(contents, env.steps);
            temporary := Some(file);
          }
          if env.close != 0 && result == 0 {
            result := -(env.close as int);
          }
          if result == 0 {
            if env.rename != 0 {
              result := -(env.rename as int);
            } else {
              ready, temporary := temporary, None;
              seen := seen + [ready];
            }
          }
          if result != 0 && env.unlinkOk {
            temporary := None;
          }
        }
      }
    }

    /** `remove_ready_file`. */
    method Remove(path: string, unlinkOk: bool)
      requires Valid()
      modifies this
      ensures Valid() && ready == (if path != "" && unlinkOk then None else old(ready))
      ensures temporary == old(temporary)
      ensures seen == if path != "" && unlinkOk then Cleared(old(seen)) else old(seen)
    {
      if path != "" && unlinkOk {
        ready := None;
        seen := Cleared(seen);
      }
    }
  }
}
