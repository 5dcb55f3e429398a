/** mem/paging.h: page-structure entries and the indices an address decodes to. Shifts and masks
    of unsigned 64-bit words are written as division and remainder. */
module PageEntries {
  import opened Division

  const PAGE_SIZE_4K := 0x1000
  const PAGE_SIZE_2M := 0x20_0000
  const PAGE_SIZE_1G := 0x4000_0000
  const PDP_SIZE := 0x80_0000_0000
  const ENTRIES := 512
  const KERNEL_VIRTUAL_ADDR := 0xffff_ffff_8000_0000

  function Pml4Idx(v: int): int { v / PDP_SIZE % ENTRIES }
  function PdpIdx(v: int): int { v / PAGE_SIZE_1G % ENTRIES }
  function PdIdx(v: int): int { v / PAGE_SIZE_2M % ENTRIES }
  function PtIdx(v: int): int { v / PAGE_SIZE_4K % ENTRIES }

  /** e & PAGE_FRAME: bits 12 to 51. */
  function Frame(e: int): int {
    e / PAGE_SIZE_4K % FRAMES * PAGE_SIZE_4K
  }

  /** set_page_frame */
  function SetFrame(e: int, addr: int): int {
    e - Frame(e) + Frame(addr)
  }

  /** e | PRESENT | WRITABLE */
  function OrKernel(e: int): int { e - e % 4 + 3 }

  /** e | PRESENT | WRITABLE | USER */
  function OrUser(e: int): int { e - e % 8 + 7 }

  predicate Present(e: int) { e % 2 == 1 }

  predicate Writable(e: int) { e / 2 % 2 == 1 }

  predicate UserOk(e: int) { e / 4 % 2 == 1 }

  /** Bit 7: a large page instead of a pointer to the next level. */
  predicate Large(e: int) { e / 128 % 2 == 1 }

  const FRAMES := 0x100_0000_0000

  /** An entry put together from its high bits, its frame number and its twelve flag bits. */
  function Entry(high: int, frame: int, flags: int): int {
    (high * FRAMES + frame) * PAGE_SIZE_4K + flags
  }

  lemma EntryParts(high: int, frame: int, flags: int)
    requires 0 <= high && 0 <= frame < FRAMES && 0 <= flags < PAGE_SIZE_4K
    ensures var e := Entry(high, frame, flags);
      e >= 0 && e / PAGE_SIZE_4K / FRAMES == high && e / PAGE_SIZE_4K % FRAMES == frame && e % PAGE_SIZE_4K == flags
  {
    var e := Entry(high, frame, flags);
    assert e / PAGE_SIZE_4K == high * FRAMES + frame;
  }

  lemma FlagBits(e: int)
    requires e >= 0
    ensures e % 2 == e % PAGE_SIZE_4K % 2 && e % 4 == e % PAGE_SIZE_4K % 4 && e % 8 == e % PAGE_SIZE_4K % 8
    ensures e / 128 % 2 == e % PAGE_SIZE_4K / 128 % 2
    ensures e / 2 % 2 == e % PAGE_SIZE_4K / 2 % 2 && e / 4 % 2 == e % PAGE_SIZE_4K / 4 % 2
  {
    var k, f := e / PAGE_SIZE_4K, e % PAGE_SIZE_4K;
    Multiples(2048 * k, 2, f);
    Multiples(1024 * k, 4, f);
    Multiples(512 * k, 8, f);
    Multiples(32 * k, 128, f);
    Multiples(16 * k, 2, f / 128);
    Multiples(1024 * k, 2, f / 2);
    Multiples(512 * k, 2, f / 4);
  }

  lemma SetParts(e: int, addr: int)
    requires e >= 0 && addr >= 0
    ensures SetFrame(e, addr) == Entry(e / PAGE_SIZE_4K / FRAMES, addr / PAGE_SIZE_4K % FRAMES, e % PAGE_SIZE_4K)
  {
    assert e / PAGE_SIZE_4K == e / PAGE_SIZE_4K / FRAMES * FRAMES + e / PAGE_SIZE_4K % FRAMES;
  }

  lemma EntryFlags(high: int, frame: int, flags: int)
    requires 0 <= high && 0 <= frame < FRAMES && 0 <= flags < PAGE_SIZE_4K
    ensures var e := Entry(high, frame, flags);
      && Frame(e) == frame * PAGE_SIZE_4K && Present(e) == (flags % 2 == 1) && Large(e) == (flags / 128 % 2 == 1)
      && Writable(e) == (flags / 2 % 2 == 1) && UserOk(e) == (flags / 4 % 2 == 1)
      && OrUser(e) == Entry(high, frame, flags - flags % 8 + 7)
      && OrKernel(e) == Entry(high, frame, flags - flags % 4 + 3)
  {
    EntryParts(high, frame, flags);
    FlagBits(Entry(high, frame, flags));
  }

  lemma LowFlags(l: int)
    requires 0 <= l < PAGE_SIZE_4K
    ensures 0 <= l - l % 8 + 7 < PAGE_SIZE_4K && (l - l % 8 + 7) % 2 == 1
    ensures (l - l % 8 + 7) / 128 == l / 128
    ensures 0 <= l - l % 4 + 3 < PAGE_SIZE_4K && (l - l % 4 + 3) % 2 == 1
    ensures (l - l % 4 + 3) / 128 == l / 128
    ensures (l - l % 8 + 7) / 2 % 2 == 1 && (l - l % 8 + 7) / 4 % 2 == 1
    ensures (l - l % 4 + 3) / 2 % 2 == 1 && (l - l % 4 + 3) / 4 == l / 4
  {
    LowBits(l);
    var a, b := l / 128, l % 128;
    Multiples(16 * a, 8, b);
    Multiples(32 * a, 4, b);
    LowByte(a, b);
  }

  lemma LowBits(l: int)
    requires l >= 0
    ensures (l - l % 8 + 7) / 2 % 2 == 1 && (l - l % 8 + 7) / 4 % 2 == 1
    ensures (l - l % 4 + 3) / 2 % 2 == 1 && (l - l % 4 + 3) / 4 == l / 4
  {
    var q, r := l / 8, l / 4;
    assert l - l % 8 + 7 == 8 * q + 7 && l - l % 4 + 3 == 4 * r + 3;
    Locate(2, 4 * q + 3, 1);
    Locate(2, 2 * q + 1, 1);
    Locate(4, 2 * q + 1, 3);
    Locate(2, 2 * r + 1, 1);
    Locate(2, r, 1);
    Locate(4, r, 3);
  }

  lemma LowByte(a: int, b: int)
    requires 0 <= a < 32 && 0 <= b < 128
    ensures (a * 128 + (b - b % 8 + 7)) / 128 == a && 0 <= b - b % 8 + 7 < 128
    ensures (a * 128 + (b - b % 8 + 7)) % 2 == 1
    ensures (a * 128 + (b - b % 4 + 3)) / 128 == a && 0 <= b - b % 4 + 3 < 128
    ensures (a * 128 + (b - b % 4 + 3)) % 2 == 1
  {
    var q, r := b / 8, b / 4;
    assert b - b % 8 + 7 == 8 * q + 7 && b - b % 4 + 3 == 4 * r + 3;
    Locate(128, a, 8 * q + 7);
    Locate(128, a, 4 * r + 3);
    Locate(2, a * 64 + 4 * q + 3, 1);
    Locate(2, a * 64 + 2 * r + 1, 1);
  }

  /** An entry just written holds the new frame, is present, and gives a user all rights; its large-page
      bit is the old one. */
  lemma SetUser(e: int, addr: int)
    requires e >= 0 && addr >= 0
    ensures var r := OrUser(SetFrame(e, addr));
      && r >= 0 && Frame(r) == Frame(addr) && Present(r) && Large(r) == Large(e)
      && Writable(r) && UserOk(r)
  {
    var h, f, l := e / PAGE_SIZE_4K / FRAMES, addr / PAGE_SIZE_4K % FRAMES, e % PAGE_SIZE_4K;
    SetParts(e, addr);
    EntryFlags(h, f, l);
    LowFlags(l);
    EntryFlags(h, f, l - l % 8 + 7);
    FlagBits(e);
  }

  /** The same for the kernel: writable, and open to users as far as it was. */
  lemma SetKernel(e: int, addr: int)
    requires e >= 0 && addr >= 0
    ensures var r := OrKernel(SetFrame(e, addr));
      && r >= 0 && Frame(r) == Frame(addr) && Present(r) && Large(r) == Large(e)
      && Writable(r) && UserOk(r) == UserOk(e)
  {
    var h, f, l := e / PAGE_SIZE_4K / FRAMES, addr / PAGE_SIZE_4K % FRAMES, e % PAGE_SIZE_4K;
    SetParts(e, addr);
    EntryFlags(h, f, l);
    LowFlags(l);
    EntryFlags(h, f, l - l % 4 + 3);
    FlagBits(e);
  }

  /** set_page_frame changes the frame and no flag. */
  lemma SetFrameOnly(e: int, addr: int)
    requires e >= 0 && addr >= 0
    ensures var r := SetFrame(e, addr);
      && Frame(r) == Frame(addr) && Present(r) == Present(e) && Large(r) == Large(e)
      && Writable(r) == Writable(e) && UserOk(r) == UserOk(e)
  {
    var h, f, l := e / PAGE_SIZE_4K / FRAMES, addr / PAGE_SIZE_4K % FRAMES, e % PAGE_SIZE_4K;
    SetParts(e, addr);
    EntryFlags(h, f, l);
    FlagBits(e);
  }

  lemma FrameOfAligned(p: int)
    requires 0 <= p < 0x10_0000_0000_0000 && p % PAGE_SIZE_4K == 0
    ensures Frame(p) == p
  {
  }

  /** Addresses below 512 GiB are one page number: three indices, and the first is zero. */
  lemma UserIndices(v: int)
    requires 0 <= v < PDP_SIZE
    ensures Pml4Idx(v) == 0
    ensures v / PAGE_SIZE_4K == (PdpIdx(v) * ENTRIES + PdIdx(v)) * ENTRIES + PtIdx(v)
  {
  }
}
