/** The page-number strip under a table, and the slice of rows each page shows. */
module Pagination {
  import opened Wrappers
  import opened Ordering

  // ---- The strip ----

  type Slot = Option<nat>  // None is an ellipsis

  /** The page numbers on display. */
  function Numbers(strip: seq<Slot>): seq<nat> {
    if strip == [] then []
    else if strip[0].Some? then [strip[0].value] + Numbers(strip[1..])
    else Numbers(strip[1..])
  }

  function Ellipses(strip: seq<Slot>): nat {
    if strip == [] then 0 else (if strip[0].None? then 1 else 0) + Ellipses(strip[1..])
  }

  function Gap(x: nat, y: nat): seq<Slot> { if y > x + 1 then [None] else [] }

  /** The strip that shows these numbers with an ellipsis exactly where consecutive ones skip. */
  function Strip(xs: seq<nat>): seq<Slot> {
    if xs == [] then []
    else if |xs| == 1 then [Some(xs[0])]
    else Strip(xs[..|xs| - 1]) + Gap(xs[|xs| - 2], xs[|xs| - 1]) + [Some(xs[|xs| - 1])]
  }

  function Skips(xs: seq<nat>): nat {
    if |xs| <= 1 then 0
    else Skips(xs[..|xs| - 1]) + if xs[|xs| - 1] > xs[|xs| - 2] + 1 then 1 else 0
  }

  lemma {:induction false} NumbersAppend(a: seq<Slot>, b: seq<Slot>)
    ensures Numbers(a + b) == Numbers(a) + Numbers(b) && Ellipses(a + b) == Ellipses(a) + Ellipses(b)
  {
    if a == [] {
      assert a + b == b;
    } else {
      NumbersAppend(a[1..], b);
      assert (a + b)[1..] == a[1..] + b;
    }
  }

  lemma OneSlot(slot: Slot)
    ensures Numbers([slot]) == (if slot.Some? then [slot.value] else [])
        && Ellipses([slot]) == (if slot.None? then 1 else 0)
  {
    assert [slot][1..] == [];
  }

  lemma OneMore(strip: seq<Slot>, gap: seq<Slot>, last: nat)
    requires gap == [] || gap == [None]
    ensures Numbers(strip + gap + [Some(last)]) == Numbers(strip) + [last]
    ensures Ellipses(strip + gap + [Some(last)]) == Ellipses(strip) + |gap|
  {
    NumbersAppend(strip + gap, [Some(last)]);
    NumbersAppend(strip, gap);
    OneSlot(None);
    OneSlot(Some(last));
  }

  lemma {:induction false} StripShows(xs: seq<nat>)
    ensures Numbers(Strip(xs)) == xs && Ellipses(Strip(xs)) == Skips(xs)
    ensures |Strip(xs)| == |xs| + Skips(xs)
  {
    if |xs| == 1 {
      assert Strip(xs)[1..] == [];
    } else if |xs| > 1 {
      var front, last := xs[..|xs| - 1], xs[|xs| - 1];
      StripShows(front);
      var gap: seq<Slot> := Gap(xs[|xs| - 2], last);
      OneMore(Strip(front), gap, last);
      assert front + [last] == xs;
    }
  }

  // ---- Which pages ----

  function Max(x: int, y: int): int { if x < y then y else x }
  function Min(x: int, y: int): int { if x < y then x else y }

  function Range(lo: nat, hi: int): (xs: seq<nat>)
    ensures |xs| == Max(0, hi - lo + 1)
    ensures forall i | 0 <= i < |xs| :: xs[i] == lo + i
    decreases hi - lo
  {
    if lo > hi then [] else Range(lo, hi - 1) + [hi]
  }

  /** The first page, the last page, and every page from lo to hi, which surround the current one. */
  ghost predicate Surrounds(slots: set<nat>, page: nat, pageCount: nat, lo: nat, hi: nat) {
    && 1 <= lo <= page <= hi <= pageCount
    && forall x: nat :: x in slots <==> x == 1 || x == pageCount || lo <= x <= hi
  }

  /** The numbers of such a set in order. */
  function Listing(pageCount: nat, lo: nat, hi: nat): seq<nat> {
    (if lo > 1 then [1] else []) + Range(lo, hi) + (if hi < pageCount then [pageCount] else [])
  }

  lemma ListingLists(slots: set<nat>, page: nat, pageCount: nat, lo: nat, hi: nat)
    requires Surrounds(slots, page, pageCount, lo, hi)
    ensures Lists(Listing(pageCount, lo, hi), slots)
    ensures |slots| == (hi - lo + 1) + (if lo > 1 then 1 else 0) + (if hi < pageCount then 1 else 0)
  {
    var xs := Listing(pageCount, lo, hi);
    var skip := if lo > 1 then 1 else 0;
    forall x | x in slots
      ensures x in set i | 0 <= i < |xs| :: xs[i]
    {
      if lo <= x <= hi {
        assert xs[skip + x - lo] == x;
      } else if x == 1 {
        assert xs[0] == x;
      } else {
        assert xs[|xs| - 1] == x;
      }
    }
    ListingSize(xs, slots);
  }

  lemma SkipsAppend(xs: seq<nat>, y: nat)
    ensures Skips(xs + [y]) == Skips(xs) + if xs != [] && y > xs[|xs| - 1] + 1 then 1 else 0
  {
    var zs := xs + [y];
    assert zs[..|zs| - 1] == xs && zs[|zs| - 1] == y;
    if xs != [] {
      assert zs[|zs| - 2] == xs[|xs| - 1];
    }
  }

  lemma {:induction false} SkipsOfStretch(head: seq<nat>, lo: nat, hi: nat)
    requires lo <= hi
    ensures Skips(head + Range(lo, hi)) == Skips(head) + if head != [] && lo > head[|head| - 1] + 1 then 1 else 0
    decreases hi - lo
  {
    if lo == hi {
      SkipsAppend(head, lo);
      assert Range(lo, hi) == [lo];
    } else {
      SkipsOfStretch(head, lo, hi - 1);
      SkipsAppend(head + Range(lo, hi - 1), hi);
      assert (head + Range(lo, hi - 1)) + [hi] == head + Range(lo, hi);
    }
  }

  /** Such a listing skips at most twice: after the first page and before the last. */
  lemma ListingSkips(page: nat, pageCount: nat, lo: nat, hi: nat)
    requires 1 <= lo <= page <= hi <= pageCount
    ensures Skips(Listing(pageCount, lo, hi)) == (if lo > 2 then 1 else 0) + (if hi < pageCount - 1 then 1 else 0)
  {
    var head: seq<nat> := if lo > 1 then [1] else [];
    SkipsOfStretch(head, lo, hi);
    if hi < pageCount {
      SkipsAppend(head + Range(lo, hi), pageCount);
    } else {
      assert Listing(pageCount, lo, hi) == head + Range(lo, hi);
    }
  }

  lemma WidenLeft(slots: set<nat>, page: nat, pageCount: nat, lo: nat, hi: nat, offset: nat)
    requires Surrounds(slots, page, pageCount, lo, hi) && offset >= 1 && lo == Max(1, page - offset + 1)
    ensures Surrounds(if page > offset + 1 then slots + {page - offset}
        else slots, page, pageCount, Max(1, page - offset), hi)
  {
  }

  lemma WidenRight(slots: set<nat>, page: nat, pageCount: nat, lo: nat, hi: nat, offset: nat)
    requires Surrounds(slots, page, pageCount, lo, hi) && offset >= 1 && hi == Min(pageCount, page + offset - 1)
    ensures Surrounds(if page + offset < pageCount then slots + {page + offset}
        else slots, page, pageCount, lo, Min(pageCount, page + offset))
  {
  }

  /** The stretch reaches as far on either side of the page, or one further to the left, until it meets an
    * end. */
  predicate Centred(page: nat, pageCount: nat, lo: nat, hi: nat) {
    && (hi < pageCount ==> page - lo <= hi - page + 1)
    && (lo > 1 ==> hi - page <= page - lo)
  }

  /** The loop that fills the set, one page further out on either side at a time. */
  method GatherSlots(page: nat, pageCount: nat, maxSlots: int) returns (slots: set<nat>, ghost lo: nat, ghost hi: nat)
    requires 1 <= page <= pageCount && maxSlots < pageCount
    ensures Surrounds(slots, page, pageCount, lo, hi) && Centred(page, pageCount, lo, hi)
    ensures maxSlots - 2 <= |slots| <= Max(maxSlots - 2, 3)
  {
    slots := {1, pageCount, page};
    lo, hi := page, page;
    ListingLists(slots, page, pageCount, lo, hi);
    var offset := 1;
    while |slots| < maxSlots - 2 && offset <= pageCount
      invariant 1 <= offset <= pageCount + 1
      invariant Surrounds(slots, page, pageCount, lo, hi) && Centred(page, pageCount, lo, hi)
      invariant |slots| < maxSlots - 2 ==> lo == Max(1, page - offset + 1) && hi == Min(pageCount, page + offset - 1)
      invariant |slots| <= Max(maxSlots - 2, 3)
      decreases pageCount - offset
    {
      slots, lo := AddLeft(slots, page, pageCount, lo, hi, offset);
      if |slots| < maxSlots - 2 {
        slots, hi := AddRight(slots, page, pageCount, lo, hi, offset);
      }
      offset := offset + 1;
    }
    ListingLists(slots, page, pageCount, lo, hi);
  }

  method AddLeft(slots: set<nat>, page: nat, pageCount: nat, ghost lo: nat, ghost hi: nat, offset: nat)
      returns (wider: set<nat>, ghost lo': nat)
    requires Surrounds(slots, page, pageCount, lo, hi) && offset >= 1 && lo == Max(1, page - offset + 1)
    ensures Surrounds(wider, page, pageCount, lo', hi) && lo' == Max(1, page - offset) && |wider| <= |slots| + 1
  {
    WidenLeft(slots, page, pageCount, lo, hi, offset);
    wider, lo' := slots, Max(1, page - offset);
    if page - offset > 1 { wider := slots + {page - offset}; }
  }

  method AddRight(slots: set<nat>, page: nat, pageCount: nat, ghost lo: nat, ghost hi: nat, offset: nat)
      returns (wider: set<nat>, ghost hi': nat)
    requires Surrounds(slots, page, pageCount, lo, hi) && offset >= 1 && hi == Min(pageCount, page + offset - 1)
    ensures Surrounds(wider, page, pageCount, lo, hi') && hi' == Min(pageCount, page + offset) && |wider| <= |slots| + 1
  {
    WidenRight(slots, page, pageCount, lo, hi, offset);
    wider, hi' := slots, Min(pageCount, page + offset);
    if page + offset < pageCount { wider := slots + {page + offset}; }
  }

  /** The loop that renders an ordered list of page numbers. */
  method Render(ordered: seq<nat>) returns (result: seq<Slot>)
    ensures result == Strip(ordered)
  {
    result := [];
    var i := 0;
    while i < |ordered|
      invariant 0 <= i <= |ordered|
      invariant result == Strip(ordered[..i])
    {
      assert ordered[..i + 1][..i] == ordered[..i];
      if i > 0 && ordered[i] > ordered[i - 1] + 1 {
        result := result + [None];
      }
      result := result + [Some(ordered[i])];
      i := i + 1;
    }
    assert ordered[..|ordered|] == ordered;
  }

  /** Which numbers a strip shows: both ends and one unbroken stretch around the current page. */
  ghost predicate ShowsAround(xs: seq<nat>, page: nat, pageCount: nat) {
    exists lo: nat, hi: nat ::
      1 <= lo <= page <= hi <= pageCount && Centred(page, pageCount, lo, hi) && IsListing(xs, pageCount, lo, hi)
  }

  ghost predicate IsListing(xs: seq<nat>, pageCount: nat, lo: nat, hi: nat) { xs == Listing(pageCount, lo, hi) }

  /** An ellipsis stands between two numbers that skip, and where there is none the numbers follow on. */
  predicate FitsAt(strip: seq<Slot>, k: nat)
    requires k < |strip|
  {
    if strip[k].None? then
      && 0 < k < |strip| - 1 && strip[k - 1].Some? && strip[k + 1].Some?
      && strip[k + 1].value > strip[k - 1].value + 1
    else k + 1 < |strip| && strip[k + 1].Some? ==> strip[k + 1].value == strip[k].value + 1
  }

  predicate Fits(strip: seq<Slot>) {
    forall k | 0 <= k < |strip| :: FitsAt(strip, k)
  }

  lemma {:induction false} StripFits(xs: seq<nat>)
    requires Ascending(xs)
    ensures Fits(Strip(xs))
    ensures xs != [] ==> Strip(xs) != [] && Strip(xs)[|Strip(xs)| - 1] == Some(xs[|xs| - 1])
  {
    if |xs| > 1 {
      StripFits(xs[..|xs| - 1]);
      FitsMore(Strip(xs[..|xs| - 1]), xs[|xs| - 2], xs[|xs| - 1]);
    }
  }

  lemma FitsMore(strip: seq<Slot>, x: nat, y: nat)
    requires Fits(strip) && strip != [] && strip[|strip| - 1] == Some(x) && x < y
    ensures Fits(strip + Gap(x, y) + [Some(y)])
  {
    var n, more := |strip|, strip + Gap(x, y) + [Some(y)];
    forall k | 0 <= k < |more|
      ensures FitsAt(more, k)
    {
      if k < n {
        assert FitsAt(strip, k);
        assert more[k] == strip[k] && (k > 0 ==> more[k - 1] == strip[k - 1]);
        assert k + 1 < n ==> more[k + 1] == strip[k + 1];
        assert k + 1 == n ==> more[k + 1] == if y > x + 1 then None else Some(y);
      } else if y > x + 1 {
        assert |more| == n + 2 && more[n - 1] == Some(x) && more[n] == None && more[n + 1] == Some(y);
      } else {
        assert |more| == n + 1 && more[n] == Some(y);
      }
    }
  }

  /** What the strip under a table must be: ascending page numbers holding both ends and the
    * current page, an ellipsis exactly where they skip, and no more slots than asked for (five is
    * the least that always suffices). */
  ghost predicate IsWindow(result: seq<Slot>, page: nat, pageCount: nat, maxSlots: int) {
    var xs := Numbers(result);
    && result == Strip(xs) && Fits(result) && Ascending(xs) && ShowsAround(xs, page, pageCount)
    && 1 in xs && page in xs && pageCount in xs
    && |result| == |xs| + Ellipses(result) <= Max(maxSlots, 5)
    && (pageCount <= maxSlots ==> xs == Range(1, pageCount))
    && (pageCount > maxSlots >= 5 ==> |xs| == maxSlots - 2 && 1 <= Ellipses(result) <= 2)
  }

  method PageWindow(page: nat, pageCount: nat, maxSlots: int) returns (result: seq<Slot>)
    requires 1 <= page <= pageCount
    ensures IsWindow(result, page, pageCount, maxSlots)
  {
    if pageCount <= maxSlots {
      result := AllSlots(pageCount);
      FullStrip(pageCount);
      RangeShows(page, pageCount);
      StripFits(Range(1, pageCount));
      return;
    }
    var slots, lo, hi := GatherSlots(page, pageCount, maxSlots);
    var ordered := Sort(slots);
    result := Render(ordered);
    ListingLists(slots, page, pageCount, lo, hi);
    ListingUnique(ordered, Listing(pageCount, lo, hi), slots);
    WindowShows(page, pageCount, maxSlots, lo, hi);
  }

  lemma ListingFacts(page: nat, pageCount: nat, lo: nat, hi: nat)
    requires 1 <= lo <= page <= hi <= pageCount && Centred(page, pageCount, lo, hi)
    ensures var xs := Listing(pageCount, lo, hi);
      && Ascending(xs) && ShowsAround(xs, page, pageCount)
      && 1 in xs && page in xs && pageCount in xs
      && |xs| == (hi - lo + 1) + (if lo > 1 then 1 else 0) + (if hi < pageCount then 1 else 0)
  {
    var xs := Listing(pageCount, lo, hi);
    assert xs[0] == 1 && xs[|xs| - 1] == pageCount && xs[(if lo > 1 then 1 else 0) + page - lo] == page;
    assert IsListing(xs, pageCount, lo, hi);
  }

  lemma StripFacts(xs: seq<nat>, page: nat, pageCount: nat, lo: nat, hi: nat)
    requires 1 <= lo <= page <= hi <= pageCount && xs == Listing(pageCount, lo, hi)
    ensures var strip := Strip(xs);
      && Numbers(strip) == xs && |strip| == |xs| + Ellipses(strip)
      && Ellipses(strip) == (if lo > 2 then 1 else 0) + (if hi < pageCount - 1 then 1 else 0)
  {
    StripShows(xs);
    ListingSkips(page, pageCount, lo, hi);
  }

  lemma WindowShows(page: nat, pageCount: nat, maxSlots: int, lo: nat, hi: nat)
    requires 1 <= lo <= page <= hi <= pageCount && Centred(page, pageCount, lo, hi) && maxSlots < pageCount
    requires maxSlots - 2 <= |Listing(pageCount, lo, hi)| <= Max(maxSlots - 2, 3)
    ensures IsWindow(Strip(Listing(pageCount, lo, hi)), page, pageCount, maxSlots)
  {
    var xs := Listing(pageCount, lo, hi);
    ListingFacts(page, pageCount, lo, hi);
    StripFacts(xs, page, pageCount, lo, hi);
    StripFits(xs);
    SlotCount(pageCount, maxSlots, lo, hi, |xs|, Ellipses(Strip(xs)));
    IsWindowBy(xs, Strip(xs), page, pageCount, maxSlots);
  }

  lemma SlotCount(pageCount: nat, maxSlots: int, lo: nat, hi: nat, numbers: nat, ellipses: nat)
    requires 1 <= lo <= hi <= pageCount && maxSlots < pageCount && maxSlots - 2 <= numbers <= Max(maxSlots - 2, 3)
    requires numbers == (hi - lo + 1) + (if lo > 1 then 1 else 0) + (if hi < pageCount then 1 else 0)
    requires ellipses == (if lo > 2 then 1 else 0) + (if hi < pageCount - 1 then 1 else 0)
    ensures numbers + ellipses <= Max(maxSlots, 5)
    ensures maxSlots >= 5 ==> numbers == maxSlots - 2 && 1 <= ellipses <= 2
  {
  }

  lemma IsWindowBy(xs: seq<nat>, strip: seq<Slot>, page: nat, pageCount: nat, maxSlots: int)
    requires strip == Strip(xs) && Fits(strip) && Numbers(strip) == xs && |strip| == |xs| + Ellipses(strip)
        && maxSlots < pageCount
    requires Ascending(xs) && ShowsAround(xs, page, pageCount) && 1 in xs && page in xs && pageCount in xs
    requires |xs| <= Max(maxSlots - 2, 3) && |strip| <= Max(maxSlots, 5)
    requires maxSlots >= 5 ==> |xs| == maxSlots - 2 && 1 <= Ellipses(strip) <= 2
    ensures IsWindow(strip, page, pageCount, maxSlots)
  {
  }

  /** Array.from({ length: n }, (_, i) => i + 1) */
  function AllSlots(n: nat): seq<Slot> { seq(n, i requires 0 <= i < n => Some(i + 1)) }

  lemma RangeShows(page: nat, pageCount: nat)
    requires 1 <= page <= pageCount
    ensures var xs := Range(1, pageCount);
      Ascending(xs) && ShowsAround(xs, page, pageCount) && 1 in xs && page in xs && pageCount in xs
  {
    var xs := Range(1, pageCount);
    assert xs[0] == 1 && xs[page - 1] == page && xs[pageCount - 1] == pageCount;
    assert IsListing(xs, pageCount, 1, pageCount);
  }

  lemma StripSnoc(xs: seq<nat>, y: nat)
    ensures Strip(xs + [y]) == Strip(xs) + (if xs == [] then [] else Gap(xs[|xs| - 1], y)) + [Some(y)]
  {
    var zs := xs + [y];
    assert zs[..|zs| - 1] == xs && zs[|zs| - 1] == y;
    if xs != [] {
      assert zs[|zs| - 2] == xs[|xs| - 1];
    }
  }

  lemma AllSlotsSnoc(n: nat)
    requires n > 0
    ensures AllSlots(n) == AllSlots(n - 1) + [] + [Some(n)]
  {
  }

  lemma {:induction false} FullStrip(n: nat)
    ensures Numbers(AllSlots(n)) == Range(1, n) && Strip(Range(1, n)) == AllSlots(n) && Ellipses(AllSlots(n)) == 0
  {
    if n > 0 {
      FullStrip(n - 1);
      OneMore(AllSlots(n - 1), [], n);
      AllSlotsSnoc(n);
      StripSnoc(Range(1, n - 1), n);
    }
  }

  // ---- The rows of each page ----

  /** Math.max(1, Math.ceil(totalItems / pageSize)) */
  function PageCount(total: nat, pageSize: nat): int
    requires pageSize >= 1
  {
    Max(1, (total + pageSize - 1) / pageSize)
  }

  /** items.slice clamps its bounds. */
  function Slice<T>(items: seq<T>, from: int, to: int): seq<T> {
    var lo := Min(Max(from, 0), |items|);
    var hi := Min(Max(to, lo), |items|);
    items[lo..hi]
  }

  function PageItems<T>(items: seq<T>, page: int, pageSize: nat): seq<T>
    requires pageSize >= 1
  {
    var safePage := Min(page, PageCount(|items|, pageSize));
    var start := (safePage - 1) * pageSize;
    Slice(items, start, start + pageSize)
  }

  /** The rows of the first n pages, in order. */
  function FirstPages<T>(items: seq<T>, n: nat, pageSize: nat): seq<T>
    requires pageSize >= 1
  {
    if n == 0 then [] else FirstPages(items, n - 1, pageSize) + PageItems(items, n, pageSize)
  }

  lemma {:induction false} FirstPagesAre<T>(items: seq<T>, n: nat, pageSize: nat)
    requires pageSize >= 1 && n <= PageCount(|items|, pageSize)
    ensures FirstPages(items, n, pageSize) == items[..Min(n * pageSize, |items|)]
  {
    if n > 0 {
      FirstPagesAre(items, n - 1, pageSize);
      assert n * pageSize == (n - 1) * pageSize + pageSize;
      assert (n - 1) * pageSize >= 0;
    }
  }

  lemma LastPageReaches(total: nat, pageSize: nat)
    requires pageSize >= 1
    ensures PageCount(total, pageSize) * pageSize >= total
    ensures total > 0 ==> (PageCount(total, pageSize) - 1) * pageSize < total
  {
    var q := (total + pageSize - 1) / pageSize;
    assert q * pageSize + (total + pageSize - 1) % pageSize == total + pageSize - 1;
    if total > 0 {
      assert q >= 1;
      assert (q - 1) * pageSize == q * pageSize - pageSize;
    }
  }

  /** Paging shows every row exactly once and in order, whatever the page size, and only an empty
    * table has an empty page. */
  lemma PagesPartitionItems<T>(items: seq<T>, pageSize: nat)
    requires pageSize >= 1
    ensures FirstPages(items, PageCount(|items|, pageSize), pageSize) == items
    ensures forall p | 1 <= p <= PageCount(|items|, pageSize) :: PageItems(items, p, pageSize) == [] <==> items == []
  {
    var count := PageCount(|items|, pageSize);
    FirstPagesAre(items, count, pageSize);
    LastPageReaches(|items|, pageSize);
    assert items[..|items|] == items;
    forall p | 1 <= p <= count
      ensures PageItems(items, p, pageSize) == [] <==> items == []
    {
      PageNotEmpty(items, p, pageSize);
    }
  }

  lemma PageNotEmpty<T>(items: seq<T>, p: int, pageSize: nat)
    requires pageSize >= 1 && 1 <= p <= PageCount(|items|, pageSize)
    ensures PageItems(items, p, pageSize) == [] <==> items == []
  {
    LastPageReaches(|items|, pageSize);
    if items != [] {
      MulMonotone(p - 1, PageCount(|items|, pageSize) - 1, pageSize);
    }
  }

  /** Page p holds the rows from (p - 1) * pageSize on, a full page of them or what is left; past the last
    * page one is shown the last. */
  lemma PageHolds<T>(items: seq<T>, p: int, pageSize: nat)
    requires pageSize >= 1 && p >= 1
    ensures var count := PageCount(|items|, pageSize);
      && (p > count ==> PageItems(items, p, pageSize) == PageItems(items, count, pageSize))
      && (p <= count ==>
            && 0 <= (p - 1) * pageSize <= |items|
            && var start := (p - 1) * pageSize;
            PageItems(items, p, pageSize) == items[start..][..Min(pageSize, |items| - start)])
  {
    LastPageReaches(|items|, pageSize);
    var count := PageCount(|items|, pageSize);
    if p <= count {
      MulMonotone(p - 1, count - 1, pageSize);
    }
  }

  lemma MulMonotone(a: int, b: int, k: nat)
    requires 0 <= a <= b
    ensures 0 <= a * k <= b * k
  {
    assert (b - a) * k >= 0;
  }
}
