/** The size of a DMA buffer: rounded by the plugin, then by the IOVA reservation. */
module BufferSizes {
  import opened Word
  import opened Masks

  const PAGE_4K: int := 4096
  const HUGE_2M: int := 2 * 1024 * 1024
  const HUGE_1G: int := 1024 * 1024 * 1024

  /** The mask expression of opae_vfio_iova_reserve. */
  function ReservedSize(size: u64, pageSize: u64): u64
    requires 0 < pageSize
  {
    Wrap(pageSize + And(Wrap(size - 1), Not(pageSize - 1)))
  }

  /** The macro ROUND_UP of the plugin; m is an int, so -m is sign-extended. */
  function RoundUp(n: u64, m: u64): u64 {
    And(Wrap(n + m - 1), Wrap(0 - m))
  }

  /** The size that vfio_fpgaPrepareBuffer asks for. */
  function PreparedSize(len: u64): u64 {
    if HUGE_2M < len then RoundUp(len, HUGE_1G)
    else if PAGE_4K < len then RoundUp(len, HUGE_2M)
    else PAGE_4K
  }

  /** The page size that the mmap call of opae_vfio_buffer_allocate selects. */
  function MappedPage(size: u64): u64 {
    if HUGE_2M < size then HUGE_1G else if PAGE_4K < size then HUGE_2M else PAGE_4K
  }

  lemma Powers()
    ensures Pow2(12) == PAGE_4K && Pow2(21) == HUGE_2M && Pow2(30) == HUGE_1G && Pow2(64) == TWO_64
  {
    assert Pow2(8) == 256;
    assert Pow2(16) == 65536;
    assert Pow2(24) == 16777216;
    assert Pow2(32) == 0x1_0000_0000;
    assert Pow2(40) == 0x100_0000_0000;
    assert Pow2(48) == 0x1_0000_0000_0000;
    assert Pow2(56) == 0x100_0000_0000_0000;
  }

  lemma Mask64(x: u64, k: nat)
    requires k < 64
    ensures Pow2(k) < TWO_64
    ensures And(x, TWO_64 - Pow2(k)) == x - x % Pow2(k)
  {
    Powers();
    Pow2Strict(k, 64);
    MaskClearsLow(x, k, 64);
  }

  /**
   * For a power-of-two page the reserved size is the least multiple of the page that is
   * at least size, exactly when that multiple fits in 64 bits; otherwise it is zero.
   */
  lemma ReservedSizeIsLeastMultiple(size: u64, k: nat)
    requires k < 64 && 0 < size
    ensures 0 < Pow2(k) < TWO_64
    ensures var r := ReservedSize(size, Pow2(k));
            && r % Pow2(k) == 0
            && (size <= r <==> size <= TWO_64 - Pow2(k))
            && (size <= TWO_64 - Pow2(k) ==> r < size + Pow2(k))
            && (TWO_64 - Pow2(k) < size ==> r == 0)
  {
    hide And, Pow2, ReservedSize;
    var page := Pow2(k);
    Powers();
    Pow2Monotone(k, 64);
    Pow2Strict(k, 64);
    ReservedSizeUnmasked(size, k);
    Rounded(size, page);
  }

  lemma ReservedSizeUnmasked(size: u64, k: nat)
    requires k < 64 && 0 < size
    ensures Pow2(k) < TWO_64
    ensures ReservedSize(size, Pow2(k)) == Wrap(Pow2(k) + (size - 1 - (size - 1) % Pow2(k)))
  {
    hide And, Pow2;
    Mask64(size - 1, k);
    assert Wrap(size - 1) == size - 1;
    assert Not(Pow2(k) - 1) == TWO_64 - Pow2(k);
  }

  lemma Rounded(size: u64, page: nat)
    requires 0 < page < TWO_64 && TWO_64 % page == 0 && 0 < size
    ensures var r := Wrap(page + (size - 1 - (size - 1) % page));
            && r % page == 0
            && (size <= r <==> size <= TWO_64 - page)
            && (size <= TWO_64 - page ==> r < size + page)
            && (TWO_64 - page < size ==> r == 0)
  {
    hide Wrap;
    var a := size - 1 - (size - 1) % page;
    RoundedDown(size - 1, page);
    AddModulus(a, page);
    if TWO_64 - page < size {
      TopMultiple(size, page);
      WrapOnce(page + a);
    } else {
      BelowTop(size, page);
      WrapBelow(page + a);
    }
  }

  lemma MultipleGap(a: nat, b: nat, m: nat)
    requires 0 < m && a % m == 0 && b % m == 0 && a < b
    ensures a + m <= b
  {
    var p, q := a / m, b / m;
    assert a == m * p && b == m * q;
    Distribute(m, q, p);
    if p < q {
      AtLeastOnce(m, q - p);
    }
  }

  lemma RoundedDown(x: nat, m: nat)
    requires 0 < m
    ensures (x - x % m) % m == 0
  {
    assert x == m * (x / m) + x % m;
    MultipleMod(x / m, m);
  }

  lemma BelowTop(size: u64, page: nat)
    requires 0 < page < TWO_64 && TWO_64 % page == 0 && 0 < size <= TWO_64 - page
    ensures page + (size - 1 - (size - 1) % page) < TWO_64
  {
    RoundedDown(size - 1, page);
    ModUnique(TWO_64 - page, page, TWO_64 / page - 1, 0);
    var a := size - 1 - (size - 1) % page;
    MultipleGap(a, TWO_64 - page, page);
  }

  lemma TopMultiple(size: u64, page: nat)
    requires 0 < page < TWO_64 && TWO_64 % page == 0 && TWO_64 - page < size
    ensures page + (size - 1 - (size - 1) % page) == TWO_64
  {
    var q := TWO_64 / page - 1;
    ModUnique(size - 1, page, q, size - 1 - (TWO_64 - page));
  }

  lemma RoundUpUnmasked(n: u64, k: nat)
    requires k < 64
    ensures Pow2(k) < TWO_64
    ensures var x := Wrap(n + Pow2(k) - 1); RoundUp(n, Pow2(k)) == x - x % Pow2(k)
  {
    hide And, Pow2, Wrap;
    Powers();
    Pow2Strict(k, 64);
    WrapOnce(0 - Pow2(k));
    Mask64(Wrap(n + Pow2(k) - 1), k);
  }

  /** A size in whole 4 KiB pages passes the reservation unchanged. */
  lemma WholePagesKept(size: u64)
    requires 0 < size && size % PAGE_4K == 0
    ensures ReservedSize(size, PAGE_4K) == size
  {
    hide And, Pow2, ReservedSize, Wrap;
    Powers();
    ReservedSizeUnmasked(size, 12);
    assert (size - 1) % PAGE_4K == PAGE_4K - 1;
    WrapBelow(size);
  }

  /**
   * ROUND_UP with the plugin's two units: the least multiple that holds len, exactly as long
   * as that fits in 64 bits; behind that the sum wraps and zero is left.
   */
  lemma RoundedUp(len: u64, m: u64)
    requires m == HUGE_1G || m == HUGE_2M
    requires 0 < len
    ensures var sz := RoundUp(len, m);
            && sz % m == 0
            && (len <= TWO_64 - m ==> len <= sz < len + m)
            && (TWO_64 - m < len ==> sz == 0)
  {
    hide And, Pow2, Wrap, RoundUp;
    Powers();
    RoundUpUnmasked(len, if m == HUGE_1G then 30 else 21);
    if len <= TWO_64 - m {
      WrapBelow(len + m - 1);
    } else {
      WrapOnce(len + m - 1);
    }
  }

  lemma PreparedInGigabytes(len: u64)
    requires HUGE_2M < len
    ensures var sz := PreparedSize(len);
            && sz % HUGE_1G == 0
            && (len <= TWO_64 - HUGE_1G ==> len <= sz < len + HUGE_1G)
            && (TWO_64 - HUGE_1G < len ==> sz == 0)
  {
    hide And, Pow2, Wrap, RoundUp;
    RoundedUp(len, HUGE_1G);
  }

  lemma PreparedInOneHugePage(len: u64)
    requires PAGE_4K < len <= HUGE_2M
    ensures PreparedSize(len) == HUGE_2M
  {
    hide And, Pow2, Wrap, RoundUp;
    RoundedUp(len, HUGE_2M);
  }

  /**
   * The plugin's tiers agree with the layer below: the size it asks for is never changed by
   * the reservation on 4 KiB pages, and is a multiple of the page that mmap then uses. It
   * holds the whole request exactly up to 2^64 - 2^30, with less than one page of the tier
   * to spare behind the first one; beyond that it is zero.
   */
  lemma PreparedSizeFits(len: u64)
    ensures var sz := PreparedSize(len);
            && sz % MappedPage(sz) == 0
            && (0 < sz ==> ReservedSize(sz, PAGE_4K) == sz)
            && (len <= sz <==> len <= TWO_64 - HUGE_1G)
            && (TWO_64 - HUGE_1G < len ==> sz == 0)
            && (0 < len <= TWO_64 - HUGE_1G ==> sz < len + MappedPage(sz))
    ensures len <= PAGE_4K ==> MappedPage(PreparedSize(len)) == PAGE_4K
    ensures PAGE_4K < len <= HUGE_2M ==> MappedPage(PreparedSize(len)) == HUGE_2M
    ensures HUGE_2M < len <= TWO_64 - HUGE_1G ==> MappedPage(PreparedSize(len)) == HUGE_1G
  {
    hide ReservedSize, PreparedSize, MappedPage, And, Pow2, Wrap, RoundUp;
    var sz := PreparedSize(len);
    if HUGE_2M < len {
      PreparedInGigabytes(len);
      GigabytePage(sz);
    } else if PAGE_4K < len {
      PreparedInOneHugePage(len);
    } else {
      PreparedInOnePage(len);
    }
    SmallerPages();
    if 0 < sz {
      WholePagesKept(sz);
    }
  }

  lemma GigabytePage(size: u64)
    requires size % HUGE_1G == 0
    ensures MappedPage(size) == if size == 0 then PAGE_4K else HUGE_1G
    ensures size % PAGE_4K == 0 && size % MappedPage(size) == 0
  {
    var q := size / HUGE_1G;
    assert size == PAGE_4K * (0x4_0000 * q);
  }

  lemma SmallerPages()
    ensures MappedPage(HUGE_2M) == HUGE_2M && MappedPage(PAGE_4K) == PAGE_4K
    ensures HUGE_2M % PAGE_4K == 0
  {
  }

  lemma PreparedInOnePage(len: u64)
    requires len <= PAGE_4K
    ensures PreparedSize(len) == PAGE_4K
  {
  }
}
