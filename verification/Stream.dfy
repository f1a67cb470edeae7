/**
 * The producer's side of the frame stream: slots, snapshots, the hold, and what every publish keeps.
 *
 * The contract is the documented one: an update is copied into a slot the consumer does not hold, gets a
 * sequence number above all earlier ones, and a successful metadata read moves the hold to the slot it
 * announces. Which free slot is taken, and when, is up to the producer.
 */
module Stream {
  import opened Abi
  import opened Bytes

  /** The mapping as one run of bytes, and `snapshots`: what was published under each sequence number. */
  datatype Kernel = Kernel(
    memory: seq<u8>, held: Option<nat>, latest: Option<Update>, lastRead: int, snapshots: map<u64, seq<u8>>)

  datatype Publish = Publish(update: Update, content: seq<u8>)

  /** Where a slot starts, and how many bytes all slots take: products, written as repeated addition. */
  function SlotStart(info: DeviceInfo, slot: nat): nat {
    Times(slot, info.slotBytes)
  }

  function MemorySize(info: DeviceInfo): nat {
    Times(info.slotCount, info.slotBytes)
  }

  function SlotOf(info: DeviceInfo, memory: seq<u8>, slot: nat): seq<u8>
    requires SlotStart(info, slot) + info.slotBytes <= |memory|
  {
    memory[SlotStart(info, slot)..SlotStart(info, slot) + info.slotBytes]
  }

  predicate NoWrap(info: DeviceInfo) {
    info.slotCount * info.slotBytes < WORD32
  }

  lemma SlotInMemory(info: DeviceInfo, slot: nat)
    requires slot < info.slotCount
    ensures SlotStart(info, slot) + info.slotBytes <= MemorySize(info)
  {
    TimesStep(slot, info.slotCount, info.slotBytes);
  }

  ghost predicate KernelInv(info: DeviceInfo, k: Kernel) {
    && |k.memory| == MemorySize(info)
    && (k.held.Some? ==> k.held.value < info.slotCount)
    && (k.latest.None? ==> k.snapshots == map[])
    && (k.latest.Some? ==> Holds(info, k, k.latest.value.slot, k.latest.value.sequence))
    && (k.latest.Some? ==> forall n :: n in k.snapshots ==> n <= k.latest.value.sequence)
    && (forall n :: n in k.snapshots ==> |k.snapshots[n]| == info.slotBytes)
  }

  /** The slot still holds, byte for byte, what was published under the sequence number. */
  ghost predicate Holds(info: DeviceInfo, k: Kernel, slot: nat, sequence: u64)
    requires |k.memory| == MemorySize(info)
  {
    && slot < info.slotCount
    && sequence in k.snapshots
    && (SlotInMemory(info, slot); SlotOf(info, k.memory, slot) == k.snapshots[sequence])
  }

  ghost predicate MayPublish(info: DeviceInfo, k: Kernel, p: Publish) {
    && p.update.slot < info.slotCount
    && k.held != Some(p.update.slot)
    && |p.content| == info.slotBytes
    && (forall n :: n in k.snapshots ==> n < p.update.sequence)
  }

  function Published(info: DeviceInfo, k: Kernel, p: Publish): Kernel
    requires p.update.slot < info.slotCount && |k.memory| == MemorySize(info)
  {
    SlotInMemory(info, p.update.slot);
    var at := SlotStart(info, p.update.slot);
    k.(memory := k.memory[..at] + p.content + k.memory[at + info.slotBytes..],
       latest := Some(p.update),
       snapshots := k.snapshots[p.update.sequence := p.content])
  }

  ghost predicate MayPublishAll(info: DeviceInfo, k: Kernel, ps: seq<Publish>)
    requires |k.memory| == MemorySize(info)
    decreases |ps|
  {
    ps == [] ||
    (MayPublish(info, k, ps[0])
     && |Published(info, k, ps[0]).memory| == |k.memory|
     && MayPublishAll(info, Published(info, k, ps[0]), ps[1..]))
  }

  ghost function PublishAll(info: DeviceInfo, k: Kernel, ps: seq<Publish>): Kernel
    requires |k.memory| == MemorySize(info) && MayPublishAll(info, k, ps)
    decreases |ps|
  {
    if ps == [] then k else PublishAll(info, Published(info, k, ps[0]), ps[1..])
  }

  /** What publishing leaves alone: the hold, the held slot's bytes, and every snapshot already taken. */
  ghost predicate Extends(info: DeviceInfo, k: Kernel, k': Kernel) {
    && KernelInv(info, k) && KernelInv(info, k')
    && k'.held == k.held && k'.lastRead == k.lastRead
    && (forall n :: n in k.snapshots ==> n in k'.snapshots && k'.snapshots[n] == k.snapshots[n])
    && (k.held.Some? ==>
          (SlotInMemory(info, k.held.value);
           SlotOf(info, k'.memory, k.held.value) == SlotOf(info, k.memory, k.held.value)))
  }

  lemma Splice(m: seq<u8>, at: nat, c: seq<u8>, start: nat, n: nat)
    requires at + |c| <= |m| && start + n <= |m|
    ensures |m[..at] + c + m[at + |c|..]| == |m|
    ensures (m[..at] + c + m[at + |c|..])[at..at + |c|] == c
    ensures start + n <= at || at + |c| <= start ==>
              (m[..at] + c + m[at + |c|..])[start..start + n] == m[start..start + n]
  {
  }

  /** A publish replaces its own slot and no byte of any other. */
  lemma PublishedSlots(info: DeviceInfo, k: Kernel, p: Publish, slot: nat)
    requires |k.memory| == MemorySize(info)
    requires p.update.slot < info.slotCount && slot < info.slotCount && |p.content| == info.slotBytes
    ensures |Published(info, k, p).memory| == |k.memory|
    ensures SlotStart(info, slot) + info.slotBytes <= |k.memory|
    ensures SlotOf(info, Published(info, k, p).memory, slot)
            == if slot == p.update.slot then p.content else SlotOf(info, k.memory, slot)
  {
    SlotInMemory(info, p.update.slot);
    SlotInMemory(info, slot);
    if slot < p.update.slot {
      TimesStep(slot, p.update.slot, info.slotBytes);
    } else if p.update.slot < slot {
      TimesStep(p.update.slot, slot, info.slotBytes);
    }
    Splice(k.memory, SlotStart(info, p.update.slot), p.content, SlotStart(info, slot), info.slotBytes);
  }

  lemma PublishExtends(info: DeviceInfo, k: Kernel, p: Publish)
    requires KernelInv(info, k) && MayPublish(info, k, p)
    ensures Extends(info, k, Published(info, k, p))
  {
    PublishedSlots(info, k, p, p.update.slot);
    if k.held.Some? {
      PublishedSlots(info, k, p, k.held.value);
    }
  }

  lemma {:induction false} PublishAllExtends(info: DeviceInfo, k: Kernel, ps: seq<Publish>)
    requires KernelInv(info, k) && MayPublishAll(info, k, ps)
    ensures Extends(info, k, PublishAll(info, k, ps))
    decreases |ps|
  {
    if ps != [] {
      PublishExtends(info, k, ps[0]);
      PublishAllExtends(info, Published(info, k, ps[0]), ps[1..]);
    }
  }

  /** Any prefix of an allowed burst of publishes is an allowed burst. */
  lemma {:induction false} PrefixAllowed(info: DeviceInfo, k: Kernel, ps: seq<Publish>, n: nat)
    requires KernelInv(info, k) && MayPublishAll(info, k, ps) && n <= |ps|
    ensures MayPublishAll(info, k, ps[..n])
    decreases |ps|
  {
    if n > 0 {
      PublishExtends(info, k, ps[0]);
      assert ps[..n][0] == ps[0] && ps[..n][1..] == ps[1..][..n - 1];
      PrefixAllowed(info, Published(info, k, ps[0]), ps[1..], n - 1);
    }
  }

  /** A metadata read: announce the latest update and move the hold to its slot. */
  function ReadLatest(k: Kernel): Kernel
    requires k.latest.Some?
  {
    k.(held := Some(k.latest.value.slot), lastRead := k.latest.value.sequence)
  }

  /** Closing and reopening the stream: the hold is gone and the latest update can be read once more. */
  function Reopened(k: Kernel): Kernel {
    k.(held := None, lastRead := if k.latest.Some? then k.latest.value.sequence - 1 else k.lastRead)
  }
}
