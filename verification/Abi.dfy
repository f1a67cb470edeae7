/** Machine words, the stream ABI structures and `validate_update`. */
module Abi {
  type u8 = x: int | 0 <= x < 0x100
  type u16 = x: int | 0 <= x < 0x1_0000
  type u32 = x: int | 0 <= x < 0x1_0000_0000
  type u64 = x: int | 0 <= x < 0x1_0000_0000_0000_0000

  datatype Option<+T> = None | Some(value: T)

  /** A positive `errno`; the daemon returns its negation. */
  type Errno = x: int | 0 < x witness 1

  const EIO: int := 5
  const EPROTO: int := 71
  const EOVERFLOW: int := 75
  const ENAMETOOLONG: int := 36
  const ENOTSUP: int := 95

  const FORMAT_RGB565: u32 := 1
  const FORMAT_XRGB8888: u32 := 2

  const SOURCE_INITIAL: u32 := 0
  const SOURCE_DRM: u32 := 1
  const SOURCE_FBDEV: u32 := 2

  /** Number of values of a 32-bit word, and of `size_t` on the two supported builds (i386, amd64). */
  const WORD32: nat := 0x1_0000_0000
  const WORD64: nat := 0x1_0000_0000_0000_0000

  type SizeModulus = m: nat | m == WORD32 || m == WORD64 witness WORD64

  datatype DeviceInfo = DeviceInfo(width: u32, height: u32, slotCount: u32, slotBytes: u32, mapBytes: u32)

  datatype Rect = Rect(x: u32, y: u32, width: u32, height: u32)

  datatype Update = Update(
    sequence: u64, timestampNs: u64, slot: u32, width: u32, height: u32, stride: u32,
    format: u32, source: u32, damage: Rect)

  /** Where a frame's pixels live: the daemon's private splash buffer or an offset into the mapping. */
  datatype Pixels = SplashPixels | MappedPixels(offset: nat)

  datatype Frame = Frame(
    pixels: Pixels, bytes: nat, sequence: u64, timestampNs: u64, width: u32, height: u32,
    stride: u32, format: u32, source: u32, damage: Rect)

  function FullDamage(width: u32, height: u32): Rect {
    Rect(0, 0, width, height)
  }

  /** The sanity check `main` makes on the ioctl answer; the product is a 32-bit one. */
  predicate InfoAccepted(info: DeviceInfo) {
    info.slotCount != 0 && info.slotBytes != 0 && info.mapBytes == (info.slotCount * info.slotBytes) % WORD32
  }

  /** `validate_update` with a `size_t` of the given modulus; 0 or a negated errno. */
  function ValidateUpdate(info: DeviceInfo, update: Update, m: SizeModulus): int {
    if update.slot >= info.slotCount || update.width == 0 || update.height == 0
       || update.width > info.width || update.height > info.height then
      -EPROTO
    else if update.stride > info.slotBytes / update.height then
      -EOVERFLOW
    else if (update.stride * update.height) % m > info.slotBytes then
      -EOVERFLOW
    else
      0
  }

  /** What an acceptable update is, over the integers and without any division. */
  ghost predicate FitsItsSlot(info: DeviceInfo, update: Update) {
    && update.slot < info.slotCount
    && 0 < update.width <= info.width
    && 0 < update.height <= info.height
    && update.stride * update.height <= info.slotBytes
  }

  /** The byte range of an update's frame over the integers. */
  function FrameStart(info: DeviceInfo, update: Update): nat {
    update.slot * info.slotBytes
  }

  function FrameEnd(info: DeviceInfo, update: Update): nat {
    FrameStart(info, update) + update.stride * update.height
  }

  lemma DivisionBound(stride: nat, height: nat, bytes: nat)
    requires 0 < height
    ensures stride <= bytes / height <==> stride * height <= bytes
  {
    var q, r := bytes / height, bytes % height;
    assert bytes == q * height + r;
    if stride <= q {
      assert stride * height <= q * height;
    } else {
      assert stride * height >= (q + 1) * height;
      assert (q + 1) * height == q * height + height;
    }
  }

  /** The check accepts exactly the updates that fit their slot, whatever the width of `size_t`. */
  lemma ValidateUpdateExact(info: DeviceInfo, update: Update, m: SizeModulus)
    ensures ValidateUpdate(info, update, m) == 0 <==> FitsItsSlot(info, update)
    ensures ValidateUpdate(info, update, m) in {0, -EPROTO, -EOVERFLOW}
    ensures ValidateUpdate(info, update, m) == -EOVERFLOW <==>
              (update.slot < info.slotCount && 0 < update.width <= info.width
               && 0 < update.height <= info.height && update.stride * update.height > info.slotBytes)
  {
    if 0 < update.height {
      DivisionBound(update.stride, update.height, info.slotBytes);
      if update.stride * update.height <= info.slotBytes {
        assert 0 <= update.stride * update.height < m;
      }
    }
  }

  /** The 32-bit and 64-bit builds never disagree: the second overflow check is redundant. */
  lemma WordSizeIrrelevant(info: DeviceInfo, update: Update)
    ensures ValidateUpdate(info, update, WORD32) == ValidateUpdate(info, update, WORD64)
  {
    ValidateUpdateExact(info, update, WORD32);
    ValidateUpdateExact(info, update, WORD64);
  }

  lemma SlotsInOrder(i: nat, j: nat, bytes: nat)
    requires i < j
    ensures i * bytes + bytes <= j * bytes
  {
    var gap: nat := j - i - 1;
    assert j == i + 1 + gap;
    assert j * bytes == i * bytes + bytes + gap * bytes;
  }

  /** Accepted frames lie inside their own slot, so frames of different slots never overlap. */
  lemma AcceptedFrameInsideSlot(info: DeviceInfo, update: Update, m: SizeModulus, other: nat)
    requires ValidateUpdate(info, update, m) == 0
    ensures FrameEnd(info, update) <= (update.slot + 1) * info.slotBytes <= info.slotCount * info.slotBytes
    ensures other != update.slot ==>
              (other + 1) * info.slotBytes <= FrameStart(info, update)
              || FrameEnd(info, update) <= other * info.slotBytes
  {
    ValidateUpdateExact(info, update, m);
    SlotsInOrder(update.slot, info.slotCount, info.slotBytes);
    assert (update.slot + 1) * info.slotBytes == update.slot * info.slotBytes + info.slotBytes;
    if other < update.slot {
      SlotsInOrder(other, update.slot, info.slotBytes);
      assert (other + 1) * info.slotBytes == other * info.slotBytes + info.slotBytes;
    } else if update.slot < other {
      SlotsInOrder(update.slot, other, info.slotBytes);
    }
  }

  /** The update that reaches the last byte of the last slot. */
  function FarthestUpdate(info: DeviceInfo): Update
    requires info.slotCount != 0
  {
    Update(1, 0, info.slotCount - 1, 1, 1, info.slotBytes, FORMAT_XRGB8888, SOURCE_FBDEV, Rect(0, 0, 1, 1))
  }

  /**
   * `main` compares `map_bytes` with a product that may wrap. For an accepted device with a non-empty
   * mode, every frame that `validate_update` lets through stays inside the mapping if and only if the
   * product does not wrap.
   */
  lemma MappingSafeIffNoWrap(info: DeviceInfo, m: SizeModulus)
    requires 0 < info.width && 0 < info.height
    ensures InfoAccepted(info) ==>
              ((forall update :: ValidateUpdate(info, update, m) == 0 ==> FrameEnd(info, update) <= info.mapBytes)
               <==> info.slotCount * info.slotBytes < WORD32)
  {
    if !InfoAccepted(info) {
    } else if info.slotCount * info.slotBytes < WORD32 {
      forall update | ValidateUpdate(info, update, m) == 0
        ensures FrameEnd(info, update) <= info.mapBytes
      {
        AcceptedFrameInsideSlot(info, update, m, update.slot);
      }
    } else {
      var far := FarthestUpdate(info);
      ValidateUpdateExact(info, far, m);
      assert ValidateUpdate(info, far, m) == 0;
      assert (info.slotCount - 1) * info.slotBytes + info.slotBytes == info.slotCount * info.slotBytes;
      assert FrameEnd(info, far) > info.mapBytes;
    }
  }
}
