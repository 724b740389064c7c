/**
 How a firmware image is cut for the push: 242-byte frames, windows of 16 frames, and the
 32-bit masks that say which frames of a window are meant. All arithmetic is done in the
 widths the firmware uses and shown exact for every image of up to 65,535 windows.
 */
module PushLayout {
  import opened Words
  import opened Crc
  import opened Masks
  import opened Bytes

  const FRAME_DATA: nat := 242
  const WINDOW_FRAMES: nat := 16
  const WINDOW_BYTES: nat := 3872
  const MAX_WINDOWS: nat := 65535
  const MAX_SIZE: nat := 253_751_520

  function TotalFrames(size: u32): u32 {
    U32(size + FRAME_DATA - 1) / FRAME_DATA
  }

  function Windows(size: u32): u16 {
    U16(U32(TotalFrames(size) + WINDOW_FRAMES - 1) / WINDOW_FRAMES)
  }

  /** Payload length of frame idx, on 32-bit operands. */
  function FrameLen(size: u32, idx: u32): nat {
    if U32(U32(idx + 1) * FRAME_DATA) > size then U32(size - U32(idx * FRAME_DATA)) else FRAME_DATA
  }

  /** Number of frames the code expects in a window (its clamp included). */
  function FramesIn(total: u32, window: u16): (n: nat)
    ensures n <= WINDOW_FRAMES
  {
    Min(U32(total - window * WINDOW_FRAMES), WINDOW_FRAMES)
  }

  /** The full mask of a window; sender and receiver compute it alike. */
  function WindowMask(total: u32, window: u16): bv32 {
    LowMask(FramesIn(total, window))
  }

  // --- exactness of the arithmetic --------------------------------------------------------------

  predicate Pushable(size: nat) {
    1 <= size <= MAX_SIZE
  }

  lemma NoWrap(x: int)
    requires 0 <= x < TWO32
    ensures U32(x) == x
  {
  }

  lemma ByFrames(x: nat)
    ensures x / FRAME_DATA * FRAME_DATA <= x < (x / FRAME_DATA + 1) * FRAME_DATA
  {
  }

  lemma ByWindows(x: nat)
    ensures x / WINDOW_FRAMES * WINDOW_FRAMES <= x < (x / WINDOW_FRAMES + 1) * WINDOW_FRAMES
  {
  }

  lemma ByWindowBytes(x: nat, q: nat)
    requires q * WINDOW_BYTES <= x < (q + 1) * WINDOW_BYTES
    ensures x / WINDOW_BYTES == q
  {
  }

  /** The frame count rounds up, except just below 2^32, where it wraps to zero. */
  lemma FrameCount(size: u32)
    ensures if size + FRAME_DATA - 1 < TWO32
            then size <= TotalFrames(size) * FRAME_DATA < size + FRAME_DATA &&
                 TotalFrames(size) == (size + FRAME_DATA - 1) / FRAME_DATA
            else TotalFrames(size) == 0
  {
    if size + FRAME_DATA - 1 < TWO32 {
      NoWrap(size + FRAME_DATA - 1);
      hide U32;
      ByFrames(size + FRAME_DATA - 1);
    } else {
      assert U32(size + FRAME_DATA - 1) == size + FRAME_DATA - 1 - TWO32;
    }
  }

  /** For no size does any 32-bit operation on a frame's offset or length wrap. */
  lemma LayoutExact(size: u32, idx: u32)
    requires idx < TotalFrames(size)
    ensures idx * FRAME_DATA < size
    ensures FrameLen(size, idx) == Min(FRAME_DATA, size - idx * FRAME_DATA) >= 1
    ensures Pushable(size) ==> idx / WINDOW_FRAMES < Windows(size)
  {
    FrameCount(size);
    hide TotalFrames, Windows, U32;
    assert (idx + 1) * FRAME_DATA <= TotalFrames(size) * FRAME_DATA;
    NoWrap(idx + 1);
    NoWrap((idx + 1) * FRAME_DATA);
    NoWrap(idx * FRAME_DATA);
    NoWrap(size - idx * FRAME_DATA);
    if Pushable(size) {
      CountsExact(size);
      ByWindows(idx);
    }
  }

  lemma CountsExact(size: u32)
    requires Pushable(size)
    ensures TotalFrames(size) == (size + FRAME_DATA - 1) / FRAME_DATA > 0
    ensures Windows(size) == (TotalFrames(size) + WINDOW_FRAMES - 1) / WINDOW_FRAMES > 0
    ensures Windows(size) * WINDOW_FRAMES < TotalFrames(size) + WINDOW_FRAMES
    ensures TotalFrames(size) <= Windows(size) * WINDOW_FRAMES
    ensures size <= TotalFrames(size) * FRAME_DATA < size + FRAME_DATA
  {
    FrameCount(size);
    hide TotalFrames, U32;
    var t := TotalFrames(size);
    NoWrap(t + WINDOW_FRAMES - 1);
    ByWindows(t + WINDOW_FRAMES - 1);
    assert (t + WINDOW_FRAMES - 1) / WINDOW_FRAMES < TWO16;
  }

  /**
   The window count is exact precisely up to 65,535 windows; one byte more and the cast to
   16 bits drops it to zero.
   */
  lemma WindowCountExact(size: u32)
    ensures Windows(size) == (size + WINDOW_BYTES - 1) / WINDOW_BYTES <==> size <= MAX_SIZE
    ensures Windows(MAX_SIZE) == MAX_WINDOWS && Windows(MAX_SIZE + 1) == 0
  {
    assert TotalFrames(MAX_SIZE) == 1_048_560 && TotalFrames(MAX_SIZE + 1) == 1_048_561;
    if size == 0 {
      assert Windows(0) == 0;
    } else if size <= MAX_SIZE {
      CountsExact(size);
      hide TotalFrames, Windows;
      ByWindowBytes(size + WINDOW_BYTES - 1, Windows(size));
    } else {
      TooManyWindows(size);
    }
  }

  lemma TooManyWindows(size: u32)
    requires size > MAX_SIZE
    ensures (size + WINDOW_BYTES - 1) / WINDOW_BYTES > MAX_WINDOWS
  {
  }

  /** The mask of a window names exactly the frames that exist in it. */
  lemma WindowMaskCoversItsFrames(size: u32, window: u16, i: nat)
    requires Pushable(size) && window < Windows(size) && i < WINDOW_FRAMES
    ensures window * WINDOW_FRAMES < TotalFrames(size)
    ensures HasBit(WindowMask(TotalFrames(size), window), i) <==> window * WINDOW_FRAMES + i < TotalFrames(size)
    ensures FramesIn(TotalFrames(size), window) == Min(TotalFrames(size) - window * WINDOW_FRAMES, WINDOW_FRAMES)
    ensures FramesIn(TotalFrames(size), window) > 0
  {
    CountsExact(size);
    hide HasBit, LowMask, TotalFrames, Windows, U32;
    NoWrap(TotalFrames(size) - window * WINDOW_FRAMES);
    LowMaskBits(FramesIn(TotalFrames(size), window), i);
  }

  /** Bytes of the first n frames. */
  function BytesBefore(size: u32, n: nat): nat
    requires n <= TotalFrames(size)
  {
    if n == 0 then 0 else BytesBefore(size, n - 1) + FrameLen(size, n - 1)
  }

  /** The frame lengths of an image sum to its size, whatever the last one is. */
  lemma {:induction false} FrameLengthsSum(size: u32, n: nat)
    requires Pushable(size) && n <= TotalFrames(size)
    ensures BytesBefore(size, n) == Min(n * FRAME_DATA, size)
    ensures n == TotalFrames(size) ==> BytesBefore(size, n) == size
  {
    CountsExact(size);
    hide TotalFrames, FrameLen;
    if n > 0 {
      FrameLengthsSum(size, n - 1);
      LayoutExact(size, n - 1);
    }
  }

  // --- frames of an image -----------------------------------------------------------------------

  function Frame(image: seq<byte>, idx: nat): seq<byte>
    requires idx * FRAME_DATA <= |image|
  {
    image[idx * FRAME_DATA..Min((idx + 1) * FRAME_DATA, |image|)]
  }

  /** Bytes flashed once the first n frames are. */
  function Flashed(image: seq<byte>, n: nat): seq<byte> {
    image[..Min(n * FRAME_DATA, |image|)]
  }

  lemma FlashOneMore(image: seq<byte>, n: nat)
    requires n * FRAME_DATA <= |image|
    ensures Flashed(image, n) + Frame(image, n) == Flashed(image, n + 1)
  {
  }

  // --- raw frames on the air ---------------------------------------------------------------------

  const RAW_MAGIC: seq<byte> := [0x49, 0x4E, 0x57, 0x44]
  const RAW_HDR: nat := 8

  function RawFrame(idx: u32, data: seq<byte>): seq<byte> {
    RAW_MAGIC + WrU32(idx) + data
  }

  function IndexOf(raw: seq<byte>): u32
    requires |raw| >= RAW_HDR
  {
    RdU32(raw[4..8])
  }

  /** What the receiver parses is what the sender framed. */
  lemma RawFrameParses(idx: u32, data: seq<byte>)
    ensures var raw := RawFrame(idx, data);
      && |raw| == RAW_HDR + |data| && raw[..4] == RAW_MAGIC
      && IndexOf(raw) == idx && raw[RAW_HDR..] == data
    ensures var raw := RawFrame(idx, data);
      && |raw| == 8 + |data| && raw[0] == 0x49 && raw[1] == 0x4E && raw[2] == 0x57 && raw[3] == 0x44
      && idx == (raw[4] as nat) + 0x100 * (raw[5] as nat) + 0x1_0000 * (raw[6] as nat) + 0x100_0000 * (raw[7] as nat)
  {
    hide WrU32, RdU32;
    U32RoundTrip(idx);
    assert RawFrame(idx, data)[4..8] == WrU32(idx);
    LittleEndian(RawFrame(idx, data)[4..8]);
  }
}
