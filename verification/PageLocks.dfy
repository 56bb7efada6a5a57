/** Memory locks that stack: a count for every page, kept over ranges of bytes that overlap
    as they like. */
module PageLocks {
  import opened Basics
  import opened Bits

  const WORD := 64

  datatype Range = Range(base: nat, size: nat)

  predicate Aligned(page: nat, pageSize: nat)
    requires pageSize > 0
  {
    page % pageSize == 0
  }

  /** Some byte of the range is on the page. */
  predicate Touches(r: Range, page: nat, pageSize: nat)
    requires pageSize > 0
  {
    Aligned(page, pageSize) && r.size > 0 && r.base < page + pageSize && page < r.base + r.size
  }

  /** How many of the ranges have a byte on the page. */
  function Count(ranges: seq<Range>, page: nat, pageSize: nat): nat
    requires pageSize > 0
  {
    if ranges == [] then 0
    else (if Touches(ranges[0], page, pageSize) then 1 else 0) + Count(ranges[1..], page, pageSize)
  }

  lemma {:induction false} CountAppend(ranges: seq<Range>, r: Range, page: nat, pageSize: nat)
    requires pageSize > 0
    ensures Count(ranges + [r], page, pageSize)
            == Count(ranges, page, pageSize) + if Touches(r, page, pageSize) then 1 else 0
    decreases |ranges|
  {
    if ranges == [] {
      assert (ranges + [r])[1..] == [];
    } else {
      assert (ranges + [r])[1..] == ranges[1..] + [r];
      CountAppend(ranges[1..], r, page, pageSize);
    }
  }

  function Without(ranges: seq<Range>, r: Range): seq<Range> {
    if ranges == [] then [] else if ranges[0] == r then ranges[1..] else [ranges[0]] + Without(ranges[1..], r)
  }

  lemma {:induction false} CountWithout(ranges: seq<Range>, r: Range, page: nat, pageSize: nat)
    requires pageSize > 0 && r in ranges
    ensures Count(ranges, page, pageSize)
            == Count(Without(ranges, r), page, pageSize) + if Touches(r, page, pageSize) then 1 else 0
    ensures |Without(ranges, r)| == |ranges| - 1
    decreases |ranges|
  {
    if ranges[0] != r {
      CountWithout(ranges[1..], r, page, pageSize);
      assert ([ranges[0]] + Without(ranges[1..], r))[1..] == Without(ranges[1..], r);
    }
  }

  // ---------- masks and pages ----------

  lemma {:induction false} AndSelf(x: nat)
    ensures And(x, x) == x
  {
    AndOnce(x);
    hide And;
    if x > 0 {
      AndSelf(x / 2);
      BitSquare(x % 2);
    }
  }

  lemma AndOnce(x: nat)
    ensures And(x, x) == if x == 0 then 0 else (x % 2) * (x % 2) + 2 * And(x / 2, x / 2)
  {
  }

  lemma BitSquare(b: nat)
    requires b < 2
    ensures b * b == b
  {
  }

  function Log2(n: nat): nat { if n <= 1 then 0 else 1 + Log2(n / 2) }

  lemma AndDoubled(x: nat, y: nat)
    ensures And(2 * x + 1, 2 * y) == 2 * And(x, y)
    ensures And(2 * x, 2 * y + 1) == 2 * And(x, y)
  {
    var a, b := 2 * x + 1, 2 * y + 1;
    assert a % 2 == 1 && a / 2 == x && b % 2 == 1 && b / 2 == y;
    assert 2 * x % 2 == 0 && 2 * x / 2 == x && 2 * y % 2 == 0 && 2 * y / 2 == y;
  }

  lemma AndBelow(n: nat)
    requires n > 1
    ensures And(n, n - 1) == if n % 2 == 1 then n - 1 else 2 * And(n / 2, n / 2 - 1)
  {
    hide And;
    if n % 2 == 1 {
      AndDoubled(n / 2, n / 2);
      AndSelf(n / 2);
    } else {
      AndDoubled(n / 2, n / 2 - 1);
    }
  }

  /** The test for a power of two tells the powers of two from all other positive sizes. */
  lemma {:induction false} PowerTest(n: nat)
    requires n > 0
    ensures And(n, n - 1) == 0 <==> n == Pow2(Log2(n))
  {
    if n > 1 {
      assert Log2(n) == 1 + Log2(n / 2) && Pow2(Log2(n)) == 2 * Pow2(Log2(n / 2));
      hide And, Pow2, Log2;
      AndBelow(n);
      PowerTest(n / 2);
    }
  }

  function PageOf(address: nat, pageSize: nat): nat
    requires pageSize > 0
  {
    address - address % pageSize
  }

  lemma Quotient(x: nat, d: nat)
    requires d > 0
    ensures x == x / d * d + x % d
  {
  }

  lemma QuotientBelow(q: nat, p: nat, d: nat, m: nat)
    requires d > 0 && q * d < p * d + m && m <= d
    ensures q <= p
  {
    assert (p + 1) * d == p * d + d;
    if q > p { MulMonotone(p + 1, d, q, d); }
  }

  /** An aligned page starts no later than an address exactly if it starts no later than the
      address's own page. */
  lemma PageBelow(address: nat, page: nat, pageSize: nat)
    requires pageSize > 0 && Aligned(page, pageSize)
    ensures page <= address <==> page <= PageOf(address, pageSize)
  {
    var d, q, p := pageSize, page / pageSize, address / pageSize;
    Quotient(page, d);
    Quotient(address, d);
    assert page == q * d && PageOf(address, d) == p * d;
    if page <= address {
      QuotientBelow(q, p, d, d);
      assert q * d <= p * d;
    }
  }

  lemma PagesInOrder(x: nat, y: nat, pageSize: nat)
    requires pageSize > 0 && x <= y
    ensures PageOf(x, pageSize) <= PageOf(y, pageSize)
  {
    hide PageOf, Aligned;
    PageAligned(x, pageSize);
    PageBelow(y, PageOf(x, pageSize), pageSize);
  }

  lemma PageAligned(address: nat, pageSize: nat)
    requires pageSize > 0
    ensures PageOf(address, pageSize) >= 0 && Aligned(PageOf(address, pageSize), pageSize)
    ensures PageOf(address, pageSize) <= address < PageOf(address, pageSize) + pageSize
  {
    Quotient(address, pageSize);
    DivisionUnique(PageOf(address, pageSize), pageSize, address / pageSize, 0);
  }

  lemma NextAligned(page: nat, pageSize: nat)
    requires pageSize > 0 && Aligned(page, pageSize)
    ensures Aligned(page + pageSize, pageSize)
  {
    Quotient(page, pageSize);
    assert page + pageSize == (page / pageSize + 1) * pageSize;
    DivisionUnique(page + pageSize, pageSize, page / pageSize + 1, 0);
  }

  /** Between an aligned page and the next there is no aligned page. */
  lemma NoneBetween(page: nat, other: nat, pageSize: nat)
    requires pageSize > 0 && Aligned(page, pageSize) && Aligned(other, pageSize) && page <= other < page + pageSize
    ensures other == page
  {
    PageBelow(other, other, pageSize);
    PageBelow(page, page, pageSize);
    Quotient(page, pageSize);
    Quotient(other, pageSize);
    QuotientBelow(other / pageSize, page / pageSize, pageSize, pageSize);
    QuotientBelow(page / pageSize, other / pageSize, pageSize, pageSize);
  }

  /** The pages a range touches are those from its first byte's page to its last byte's. */
  lemma TouchesIs(r: Range, page: nat, pageSize: nat)
    requires pageSize > 0 && Aligned(page, pageSize) && r.size > 0
    ensures Touches(r, page, pageSize) <==> PageOf(r.base, pageSize) <= page <= PageOf(r.base + r.size - 1, pageSize)
  {
    PageBelow(r.base + r.size - 1, page, pageSize);
    NextAligned(page, pageSize);
    PageBelow(r.base, page + pageSize, pageSize);
    PageAligned(r.base, pageSize);
    if page < PageOf(r.base, pageSize) < page + pageSize { NoneBetween(page, PageOf(r.base, pageSize), pageSize); }
  }

  // ---------- the counts ----------

  predicate HasCount(histogram: map<nat, int>, page: nat, count: nat) {
    if count > 0 then page in histogram && histogram[page] == count else page !in histogram
  }

  /** The histogram holds the count of every page. */
  ghost predicate Counted(histogram: map<nat, int>, ranges: seq<Range>, pageSize: nat)
    requires pageSize > 0
  {
    forall page: nat :: HasCount(histogram, page, Count(ranges, page, pageSize))
  }

  /** On the way: the range has been counted for its pages before `upto`, if it is being
      locked, or is still counted for those from there on, if it is being unlocked. */
  ghost predicate Walking(histogram: map<nat, int>, ranges: seq<Range>, r: Range, upto: nat, locking: bool,
                          pageSize: nat)
    requires pageSize > 0
  {
    forall page: nat ::
      HasCount(histogram, page, Count(ranges, page, pageSize)
                                + if Touches(r, page, pageSize) && (page < upto <==> locking) then 1 else 0)
  }

  function Step(histogram: map<nat, int>, page: nat, locking: bool): map<nat, int> {
    var c := if page in histogram then histogram[page] else 0;
    if locking then histogram[page := c + 1] else if c == 1 then histogram - {page} else histogram[page := c - 1]
  }

  lemma LockStart(histogram: map<nat, int>, ranges: seq<Range>, r: Range, pageSize: nat)
    requires pageSize > 0 && r.size > 0 && Counted(histogram, ranges, pageSize)
    ensures Walking(histogram, ranges, r, PageOf(r.base, pageSize), true, pageSize)
  {
    forall page: nat | Touches(r, page, pageSize) ensures page >= PageOf(r.base, pageSize) {
      TouchesIs(r, page, pageSize);
    }
    forall page: nat ensures HasCount(histogram, page, Count(ranges, page, pageSize) + 0) {
      assert HasCount(histogram, page, Count(ranges, page, pageSize));
    }
  }

  lemma LockEnd(histogram: map<nat, int>, ranges: seq<Range>, r: Range, upto: nat, pageSize: nat)
    requires pageSize > 0 && r.size > 0 && upto > PageOf(r.base + r.size - 1, pageSize)
    requires Walking(histogram, ranges, r, upto, true, pageSize)
    ensures Counted(histogram, ranges + [r], pageSize)
  {
    forall page: nat ensures HasCount(histogram, page, Count(ranges + [r], page, pageSize)) {
      CountAppend(ranges, r, page, pageSize);
      if Touches(r, page, pageSize) { TouchesIs(r, page, pageSize); }
    }
  }

  lemma UnlockStart(histogram: map<nat, int>, ranges: seq<Range>, r: Range, pageSize: nat)
    requires pageSize > 0 && r.size > 0 && r in ranges && Counted(histogram, ranges, pageSize)
    ensures Walking(histogram, Without(ranges, r), r, PageOf(r.base, pageSize), false, pageSize)
  {
    forall page: nat
      ensures HasCount(histogram, page, Count(Without(ranges, r), page, pageSize)
                       + if Touches(r, page, pageSize) && !(page < PageOf(r.base, pageSize)) then 1 else 0)
    {
      CountWithout(ranges, r, page, pageSize);
      if Touches(r, page, pageSize) { TouchesIs(r, page, pageSize); }
      assert HasCount(histogram, page, Count(ranges, page, pageSize));
    }
  }

  lemma UnlockEnd(histogram: map<nat, int>, ranges: seq<Range>, r: Range, upto: nat, pageSize: nat)
    requires pageSize > 0 && r.size > 0 && upto > PageOf(r.base + r.size - 1, pageSize)
    requires Walking(histogram, ranges, r, upto, false, pageSize)
    ensures Counted(histogram, ranges, pageSize)
  {
    forall page: nat ensures HasCount(histogram, page, Count(ranges, page, pageSize)) {
      if Touches(r, page, pageSize) { TouchesIs(r, page, pageSize); }
    }
  }

  /** One page further.  A page to unlock is in the histogram: the assertion holds. */
  lemma WalkStep(histogram: map<nat, int>, ranges: seq<Range>, r: Range, page: nat, locking: bool, pageSize: nat)
    requires pageSize > 0 && Walking(histogram, ranges, r, page, locking, pageSize) && Aligned(page, pageSize)
    requires r.size > 0 && PageOf(r.base, pageSize) <= page <= PageOf(r.base + r.size - 1, pageSize)
    ensures page in histogram ==> histogram[page] > 0
    ensures !locking ==> page in histogram
    ensures Walking(Step(histogram, page, locking), ranges, r, page + pageSize, locking, pageSize)
  {
    TouchesIs(r, page, pageSize);
    var c := Count(ranges, page, pageSize);
    assert HasCount(histogram, page, c + if locking then 0 else 1);
    forall other: nat
      ensures HasCount(Step(histogram, page, locking), other, Count(ranges, other, pageSize)
                       + if Touches(r, other, pageSize) && (other < page + pageSize <==> locking) then 1 else 0)
    {
      if other != page && Touches(r, other, pageSize) && page < other < page + pageSize {
        NoneBetween(page, other, pageSize);
      }
      assert HasCount(histogram, other, Count(ranges, other, pageSize)
                      + if Touches(r, other, pageSize) && (other < page <==> locking) then 1 else 0);
    }
  }

  class PageManager {
    const page_size: nat
    const page_mask: nat
    var histogram: map<nat, int>
    /** The pages the operating system holds. */
    var locked: set<nat>
    /** The ranges locked and not yet unlocked. */
    ghost var outstanding: seq<Range>

    ghost predicate Valid()
      reads this
    {
      && page_size > 0 && page_size == Pow2(Log2(page_size)) && Log2(page_size) <= WORD
      && page_mask == Pow2(WORD) - page_size
      && Counted(histogram, outstanding, page_size)
      && locked == histogram.Keys
    }

    /** The assertion accepts exactly the powers of two. */
    constructor (page_size: nat)
      requires page_size > 0 && And(page_size, page_size - 1) == 0 && page_size <= Pow2(WORD)
      ensures Valid() && outstanding == [] && this.page_size == page_size
    {
      this.page_size := page_size;
      page_mask := Pow2(WORD) - page_size;
      histogram, locked, outstanding := map[], {}, [];
      PowerTest(page_size);
      PowerFits(page_size);
    }

    /** Masking an address gives its page. */
    lemma Masking(address: nat)
      requires page_size > 0 && page_size == Pow2(Log2(page_size)) && Log2(page_size) <= WORD
      requires page_mask == Pow2(WORD) - page_size && address < Pow2(WORD)
      ensures And(address, page_mask) == PageOf(address, page_size)
    {
      HighMask(address, Log2(page_size), WORD);
    }

    /** The walk over the pages ends before the addresses do. */
    ghost predicate Fits(r: Range) {
      page_size > 0 && (r.size > 0 ==> PageOf(r.base + r.size - 1, page_size) + page_size < Pow2(WORD))
    }

    method Pages(p: nat, size: nat) returns (start_page: nat, end_page: nat)
      requires Valid() && Fits(Range(p, size)) && size > 0
      ensures start_page == PageOf(p, page_size) && end_page == PageOf(p + size - 1, page_size)
      ensures Aligned(start_page, page_size) && Aligned(end_page, page_size) && start_page <= end_page
    {
      PageAligned(p + size - 1, page_size);
      hide PageOf, Pow2, And, Counted, Log2, Aligned;
      start_page := PageStart(p);
      end_page := PageStart(p + size - 1);
      PagesInOrder(p, p + size - 1, page_size);
    }

    method PageStart(x: nat) returns (page: nat)
      requires Valid() && x < Pow2(WORD)
      ensures page_size > 0 && page == PageOf(x, page_size) && Aligned(page, page_size)
    {
      hide PageOf, Pow2, And, Counted, Log2, Aligned;
      PageAligned(x, page_size);
      Masking(x);
      page := And(x, page_mask);
    }

    method LockRange(p: nat, size: nat)
      requires Valid() && Fits(Range(p, size))
      modifies this
      ensures Valid() && outstanding == old(outstanding) + [Range(p, size)]
    {
      ghost var r, ranges := Range(p, size), outstanding;
      if size == 0 {
        EmptyRange(histogram, ranges, r, page_size);
        outstanding := ranges + [r];
        return;
      }
      hide Counted, Walking, PageOf, Pow2, Aligned, Log2;
      var start_page, end_page := Pages(p, size);
      LockStart(histogram, ranges, r, page_size);
      var page := start_page;
      while page <= end_page
        invariant start_page <= page <= end_page + page_size && Aligned(page, page_size)
        invariant Walking(histogram, ranges, r, page, true, page_size) && locked == histogram.Keys
        decreases end_page + page_size - page
      {
        WalkStep(histogram, ranges, r, page, true, page_size);
        LockOne(page);
        NextAligned(page, page_size);
        page := page + page_size;
      }
      LockEnd(histogram, ranges, r, page, page_size);
      outstanding := ranges + [r];
    }

    /** One page more of the range: it is locked with its first range. */
    method LockOne(page: nat)
      requires locked == histogram.Keys
      modifies `locked, `histogram
      ensures histogram == Step(old(histogram), page, true) && locked == histogram.Keys
    {
      if page !in histogram {
        locked := locked + {page};
        histogram := histogram[page := 1];
      } else {
        histogram := histogram[page := histogram[page] + 1];
      }
    }

    method UnlockOne(page: nat)
      requires page in histogram && locked == histogram.Keys
      modifies `locked, `histogram
      ensures histogram == Step(old(histogram), page, false) && locked == histogram.Keys
    {
      var count := histogram[page] - 1;
      if count == 0 {
        locked := locked - {page};
        histogram := histogram - {page};
      } else {
        histogram := histogram[page := count];
      }
    }

    method UnlockRange(p: nat, size: nat)
      requires Valid() && Fits(Range(p, size)) && Range(p, size) in outstanding
      modifies this
      ensures Valid() && outstanding == Without(old(outstanding), Range(p, size))
    {
      ghost var r, ranges := Range(p, size), Without(outstanding, Range(p, size));
      if size == 0 {
        EmptyRange(histogram, outstanding, r, page_size);
        outstanding := ranges;
        return;
      }
      hide Counted, Walking, PageOf, Pow2, Aligned, Log2;
      var start_page, end_page := Pages(p, size);
      UnlockStart(histogram, outstanding, r, page_size);
      var page := start_page;
      while page <= end_page
        invariant start_page <= page <= end_page + page_size && Aligned(page, page_size)
        invariant Walking(histogram, ranges, r, page, false, page_size) && locked == histogram.Keys
        decreases end_page + page_size - page
      {
        WalkStep(histogram, ranges, r, page, false, page_size);
        UnlockOne(page);
        NextAligned(page, page_size);
        page := page + page_size;
      }
      UnlockEnd(histogram, ranges, r, page, page_size);
      outstanding := ranges;
    }

    method GetLockedPageCount() returns (n: nat)
      requires Valid()
      ensures n == |locked| && (outstanding == [] ==> n == 0)
      ensures forall page: nat :: page in locked <==> exists r :: r in outstanding && Touches(r, page, page_size)
    {
      n := |histogram|;
      if outstanding == [] { NoneOutstanding(histogram, page_size); }
      forall page: nat ensures page in locked <==> exists r :: r in outstanding && Touches(r, page, page_size) {
        assert HasCount(histogram, page, Count(outstanding, page, page_size));
        CountPositive(outstanding, page, page_size);
      }
    }
  }

  lemma EmptyRange(histogram: map<nat, int>, ranges: seq<Range>, r: Range, pageSize: nat)
    requires pageSize > 0 && r.size == 0 && Counted(histogram, ranges, pageSize)
    ensures Counted(histogram, ranges + [r], pageSize)
    ensures r in ranges ==> Counted(histogram, Without(ranges, r), pageSize)
  {
    forall page: nat
      ensures HasCount(histogram, page, Count(ranges + [r], page, pageSize))
      ensures r in ranges ==> HasCount(histogram, page, Count(Without(ranges, r), page, pageSize))
    {
      assert HasCount(histogram, page, Count(ranges, page, pageSize));
      CountAppend(ranges, r, page, pageSize);
      if r in ranges { CountWithout(ranges, r, page, pageSize); }
    }
  }

  lemma {:induction false} CountPositive(ranges: seq<Range>, page: nat, pageSize: nat)
    requires pageSize > 0
    ensures Count(ranges, page, pageSize) > 0 <==> exists r :: r in ranges && Touches(r, page, pageSize)
    decreases |ranges|
  {
    if ranges != [] {
      CountPositive(ranges[1..], page, pageSize);
      assert ranges == [ranges[0]] + ranges[1..];
      assert ranges[0] in ranges;
    }
  }

  lemma NoneOutstanding(histogram: map<nat, int>, pageSize: nat)
    requires pageSize > 0 && Counted(histogram, [], pageSize)
    ensures histogram == map[]
  {
    forall page: nat ensures page !in histogram { assert HasCount(histogram, page, Count([], page, pageSize)); }
  }

  lemma PowerFits(n: nat)
    requires n > 0 && n == Pow2(Log2(n)) && n <= Pow2(WORD)
    ensures Log2(n) <= WORD
  {
    assert Pow2(WORD + 1) == 2 * Pow2(WORD);
    if Log2(n) > WORD { Pow2Monotone(WORD + 1, Log2(n)); }
  }
}
