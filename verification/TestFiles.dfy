/** Pairing uploaded test files by name: which file is the input and which the expected output of
  * each test case. What the name normaliser extracts from a file name is part of the file here. */
module TestFiles {
  import opened Wrappers

  type Base = string

  datatype File = File(name: string, size: nat, base: Base, isInput: bool, isOutput: bool, num: nat)

  datatype Pair = Pair(base: Base, input: File, expected: File, totalSize: nat)

  /** A group as the loop fills it: two slots and the number of the file that opened it. */
  datatype Entry = Entry(input: Option<File>, expected: Option<File>, sortKey: nat)

  datatype Matching = Matching(pairs: seq<Pair>, unmatched: seq<File>)

  // ---- What is specified ----

  /** The files of one base name, in upload order. */
  function Group(files: seq<File>, base: Base): (g: seq<File>)
    ensures forall f | f in g :: f.base == base
  {
    if files == [] then []
    else Group(files[..|files| - 1], base) + if files[|files| - 1].base == base then [files[|files| - 1]] else []
  }

  predicate OutputOnly(f: File) { f.isOutput && !f.isInput }

  /** A group's first two files, the output-only one as the expected output if it came first. */
  function EntryOf(g: seq<File>): Entry
    requires g != []
  {
    if |g| == 1 then
      if OutputOnly(g[0]) then Entry(None, Some(g[0]), g[0].num) else Entry(Some(g[0]), None, g[0].num)
    else
      if OutputOnly(g[0]) then Entry(Some(g[1]), Some(g[0]), g[0].num) else Entry(Some(g[0]), Some(g[1]), g[0].num)
  }

  function PairFor(base: Base, g: seq<File>): Option<Pair> {
    if |g| < 2 then None
    else
      var e := EntryOf(g);
      Some(Pair(base, e.input.value, e.expected.value, e.input.value.size + e.expected.value.size))
  }

  function PairOrNone(p: Option<Pair>): seq<Pair> { if p.Some? then [p.value] else [] }

  function PairsFor(files: seq<File>, keys: seq<Base>): seq<Pair> {
    if keys == [] then []
    else
      var b := keys[|keys| - 1];
      PairsFor(files, keys[..|keys| - 1]) + PairOrNone(PairFor(b, Group(files, b)))
  }

  function LonersFor(files: seq<File>, keys: seq<Base>): seq<File> {
    if keys == [] then []
    else
      var g := Group(files, keys[|keys| - 1]);
      LonersFor(files, keys[..|keys| - 1]) + LoneOf(g)
  }

  /** The keys of the map, in insertion order. */
  function Bases(files: seq<File>): (keys: seq<Base>) {
    if files == [] then []
    else
      var keys, last := Bases(files[..|files| - 1]), files[|files| - 1].base;
      if last in keys then keys else keys + [last]
  }

  predicate NoRepeats<T(==)>(xs: seq<T>) { forall i, j | 0 <= i < j < |xs| :: xs[i] != xs[j] }

  lemma {:induction false} BasesAre(files: seq<File>, b: Base)
    ensures b in Bases(files) <==> Group(files, b) != []
  {
    if files != [] {
      BasesAre(files[..|files| - 1], b);
    }
  }

  lemma {:induction false} BasesOnce(files: seq<File>)
    ensures NoRepeats(Bases(files))
  {
    if files != [] {
      BasesOnce(files[..|files| - 1]);
    }
  }

  // ---- Sorting the groups ----

  datatype Place = Place(sortKey: nat, collation: int)

  /** a.sortKey - b.sortKey || a.key.localeCompare(b.key) */
  predicate AtMost(p: Place, q: Place) {
    p.sortKey < q.sortKey || (p.sortKey == q.sortKey && p.collation <= q.collation)
  }

  predicate Sorted(place: Base -> Place, keys: seq<Base>) {
    forall i, j | 0 <= i < j < |keys| :: AtMost(place(keys[i]), place(keys[j]))
  }

  function Insert(place: Base -> Place, keys: seq<Base>, b: Base): seq<Base> {
    if keys == [] || AtMost(place(keys[|keys| - 1]), place(b)) then keys + [b]
    else Insert(place, keys[..|keys| - 1], b) + [keys[|keys| - 1]]
  }

  function SortKeys(place: Base -> Place, keys: seq<Base>): seq<Base> {
    if keys == [] then [] else Insert(place, SortKeys(place, keys[..|keys| - 1]), keys[|keys| - 1])
  }

  /** Where a group goes: the number in its first file's name, then its base name's collation. */
  function Places(files: seq<File>, rank: Base -> int): Base -> Place {
    b => Place(if Group(files, b) == [] then 0 else Group(files, b)[0].num, rank(b))
  }

  /** The groups in the order they are reported. */
  function Keys(files: seq<File>, rank: Base -> int): seq<Base> {
    SortKeys(Places(files, rank), Bases(files))
  }

  function Match(files: seq<File>, rank: Base -> int): Matching {
    Matching(PairsFor(files, Keys(files, rank)), LonersFor(files, Keys(files, rank)))
  }

  lemma {:induction false} InsertKeeps(place: Base -> Place, keys: seq<Base>, b: Base)
    ensures multiset(Insert(place, keys, b)) == multiset(keys) + multiset{b}
  {
    if keys != [] {
      assert keys == keys[..|keys| - 1] + [keys[|keys| - 1]];
      InsertKeeps(place, keys[..|keys| - 1], b);
    }
  }

  lemma {:induction false} InsertSorts(place: Base -> Place, keys: seq<Base>, b: Base)
    requires Sorted(place, keys)
    ensures Sorted(place, Insert(place, keys, b))
  {
    if keys != [] && !AtMost(place(keys[|keys| - 1]), place(b)) {
      var front, last := keys[..|keys| - 1], keys[|keys| - 1];
      InsertSorts(place, front, b);
      InsertKeeps(place, front, b);
      forall k | k in Insert(place, front, b)
        ensures AtMost(place(k), place(last))
      {
        assert k in multiset(front) + multiset{b};
        if k != b {
          var i :| 0 <= i < |front| && front[i] == k;
          assert keys[i] == k;
        }
      }
    } else if keys != [] {
      forall i | 0 <= i < |keys|
        ensures AtMost(place(keys[i]), place(b))
      {
        assert i < |keys| - 1 ==> AtMost(place(keys[i]), place(keys[|keys| - 1]));
      }
    }
  }

  lemma {:induction false} SortSorts(place: Base -> Place, keys: seq<Base>)
    ensures Sorted(place, SortKeys(place, keys))
    ensures multiset(SortKeys(place, keys)) == multiset(keys)
  {
    if keys != [] {
      var front, last := keys[..|keys| - 1], keys[|keys| - 1];
      assert keys == front + [last];
      SortSorts(place, front);
      InsertSorts(place, SortKeys(place, front), last);
      InsertKeeps(place, SortKeys(place, front), last);
    }
  }

  lemma RepeatsCounted(xs: seq<Base>, ys: seq<Base>)
    requires NoRepeats(xs) && multiset(xs) == multiset(ys)
    ensures NoRepeats(ys)
    ensures forall b :: b in xs <==> b in ys
  {
    forall b
      ensures b in xs <==> b in ys
    {
      assert b in xs <==> b in multiset(xs);
    }
    forall i, j | 0 <= i < j < |ys|
      ensures ys[i] != ys[j]
    {
      if ys[i] == ys[j] {
        assert ys == ys[..i] + [ys[i]] + ys[i + 1..j] + [ys[j]] + ys[j + 1..];
        assert multiset(ys)[ys[i]] >= 2;
        OnceEach(xs, ys[i]);
        assert false;
      }
    }
  }

  lemma {:induction false} OnceEach(xs: seq<Base>, b: Base)
    requires NoRepeats(xs)
    ensures multiset(xs)[b] <= 1
  {
    if xs != [] {
      var front, last := xs[..|xs| - 1], xs[|xs| - 1];
      assert xs == front + [last];
      OnceEach(front, b);
      if b == last {
        assert b !in front;
      }
    }
  }

  /** The groups are reported by number and then by name: every base name once, and nothing else. */
  lemma SortedKeys(files: seq<File>, rank: Base -> int)
    ensures Sorted(Places(files, rank), Keys(files, rank)) && NoRepeats(Keys(files, rank))
    ensures forall b :: b in Keys(files, rank) <==> Group(files, b) != []
  {
    SortSorts(Places(files, rank), Bases(files));
    BasesOnce(files);
    RepeatsCounted(Bases(files), Keys(files, rank));
    forall b
      ensures b in Bases(files) <==> Group(files, b) != []
    {
      BasesAre(files, b);
    }
  }

  // ---- The algorithm ----

  /** A file takes the slot its name asks for if that is free, or else any free one. */
  function Fill(e: Entry, f: File): Entry {
    if e.input.None? && (f.isInput || !f.isOutput || e.expected.Some?) then e.(input := Some(f))
    else if e.expected.None? then e.(expected := Some(f))
    else e
  }

  method PlaceFile(entry: Entry, file: File) returns (filled: Entry)
    ensures filled == Fill(entry, file)
  {
    filled := entry;
    if file.isInput && entry.input.None? {
      filled := entry.(input := Some(file));
    } else if file.isOutput && entry.expected.None? {
      filled := entry.(expected := Some(file));
    } else if entry.input.None? {
      filled := entry.(input := Some(file));
    } else if entry.expected.None? {
      filled := entry.(expected := Some(file));
    }
  }

  /** However a group is filled, what it ends up with is its first two files, turned exactly if the
    * first is output-only. */
  lemma FillIs(g: seq<File>, f: File)
    ensures g == [] ==> Fill(Entry(None, None, f.num), f) == EntryOf([f])
    ensures g != [] ==> Fill(EntryOf(g), f) == EntryOf(g + [f])
  {
  }

  /** The groups after the first loop. */
  function Collect(files: seq<File>): map<Base, Entry> {
    if files == [] then map[]
    else
      var groups, f := Collect(files[..|files| - 1]), files[|files| - 1];
      groups[f.base := Fill(if f.base in groups then groups[f.base] else Entry(None, None, f.num), f)]
  }

  lemma GroupSnoc(files: seq<File>, f: File, base: Base)
    ensures Group(files + [f], base) == if f.base == base then Group(files, base) + [f] else Group(files, base)
  {
    assert (files + [f])[..|files + [f]| - 1] == files;
  }

  lemma BasesSnoc(files: seq<File>, f: File)
    ensures Bases(files + [f]) == if f.base in Bases(files) then Bases(files) else Bases(files) + [f.base]
  {
    assert (files + [f])[..|files + [f]| - 1] == files;
  }

  /** The groups of the files seen so far. */
  ghost predicate Filled(files: seq<File>, groups: map<Base, Entry>) {
    && (forall b :: b in groups <==> b in Bases(files))
    && (forall b | b in groups :: Group(files, b) != [] && groups[b] == EntryOf(Group(files, b)))
  }

  lemma FilledSnoc(files: seq<File>, groups: map<Base, Entry>, f: File)
    requires Filled(files, groups)
    ensures Filled(files + [f], groups[f.base := EntryOf(Group(files, f.base) + [f])])
  {
    var more, after := files + [f], groups[f.base := EntryOf(Group(files, f.base) + [f])];
    BasesSnoc(files, f);
    forall b: Base
      ensures b in after <==> b in Bases(more)
    {
    }
    forall b | b in after
      ensures Group(more, b) != [] && after[b] == EntryOf(Group(more, b))
    {
      GroupSnoc(files, f, b);
    }
  }

  lemma {:induction false} CollectFills(files: seq<File>)
    ensures Filled(files, Collect(files))
  {
    if files != [] {
      var front, f := files[..|files| - 1], files[|files| - 1];
      CollectFills(front);
      FilledSnoc(front, Collect(front), f);
      CollectSnoc(front, f);
      assert files == front + [f];
    }
  }

  lemma CollectSnoc(front: seq<File>, f: File)
    requires Filled(front, Collect(front))
    ensures Collect(front + [f]) == Collect(front)[f.base := EntryOf(Group(front, f.base) + [f])]
  {
    assert (front + [f])[..|front + [f]| - 1] == front;
    FillIs(Group(front, f.base), f);
    BasesAre(front, f.base);
  }

  /** The first loop: a group is opened by its first file. */
  method FillGroups(files: seq<File>) returns (groups: map<Base, Entry>, order: seq<Base>)
    ensures groups == Collect(files) && order == Bases(files)
  {
    groups, order := map[], [];
    for i := 0 to |files|
      invariant groups == Collect(files[..i]) && order == Bases(files[..i])
      invariant forall b :: b in groups <==> b in order
    {
      var file := files[i];
      assert files[..i + 1][..i] == files[..i];
      if file.base !in groups {
        groups := groups[file.base := Entry(None, None, file.num)];
        order := order + [file.base];
      }
      var entry := PlaceFile(groups[file.base], file);
      groups := groups[file.base := entry];
    }
    assert files[..|files|] == files;
  }

  lemma NamesSnoc(files: seq<File>, f: File)
    ensures Names(files + [f]) == Names(files) + [f.name]
  {
    assert (files + [f])[..|files + [f]| - 1] == files;
  }

  lemma NamesGrow(files: seq<File>, g: seq<File>)
    ensures Names(files + LoneOf(g)) == Names(files) + if |g| == 1 then [g[0].name] else []
  {
    if |g| == 1 {
      NamesSnoc(files, g[0]);
    } else {
      assert files + [] == files;
    }
  }

  /** The filled group of a base name that occurs. */
  ghost predicate Readable(files: seq<File>, groups: map<Base, Entry>, b: Base) {
    b in groups && Group(files, b) != [] && groups[b] == EntryOf(Group(files, b))
  }

  /** What the second loop reads off one entry, and off a list of them. */
  function EntryPairs(b: Base, e: Entry): seq<Pair> {
    if e.input.Some? && e.expected.Some?
    then [Pair(b, e.input.value, e.expected.value, e.input.value.size + e.expected.value.size)]
    else []
  }

  function EntryNames(e: Entry): seq<string> {
    if e.input.Some? && e.expected.Some? then []
    else
      (if e.input.Some? then [e.input.value.name] else [])
      + (if e.expected.Some? then [e.expected.value.name] else [])
  }

  function PairsFrom(groups: map<Base, Entry>, keys: seq<Base>): seq<Pair>
    requires forall b | b in keys :: b in groups
  {
    if keys == [] then []
    else PairsFrom(groups, keys[..|keys| - 1]) + EntryPairs(keys[|keys| - 1], groups[keys[|keys| - 1]])
  }

  function NamesFrom(groups: map<Base, Entry>, keys: seq<Base>): seq<string>
    requires forall b | b in keys :: b in groups
  {
    if keys == [] then [] else NamesFrom(groups, keys[..|keys| - 1]) + EntryNames(groups[keys[|keys| - 1]])
  }

  /** The second loop. */
  method ReadGroups(keys: seq<Base>, groups: map<Base, Entry>) returns (pairs: seq<Pair>, unmatched: seq<string>)
    requires forall b | b in keys :: b in groups
    ensures pairs == PairsFrom(groups, keys) && unmatched == NamesFrom(groups, keys)
  {
    pairs, unmatched := [], [];
    for k := 0 to |keys|
      invariant pairs == PairsFrom(groups, keys[..k]) && unmatched == NamesFrom(groups, keys[..k])
    {
      assert keys[..k + 1][..k] == keys[..k];
      var entry := groups[keys[k]];
      if entry.input.Some? && entry.expected.Some? {
        pairs := pairs + [Pair(keys[k], entry.input.value, entry.expected.value,
            entry.input.value.size + entry.expected.value.size)];
      } else {
        if entry.input.Some? { unmatched := unmatched + [entry.input.value.name]; }
        if entry.expected.Some? { unmatched := unmatched + [entry.expected.value.name]; }
      }
    }
    assert keys[..|keys|] == keys;
  }

  lemma EntryReads(b: Base, g: seq<File>)
    requires g != []
    ensures EntryPairs(b, EntryOf(g)) == PairOrNone(PairFor(b, g))
    ensures EntryNames(EntryOf(g)) == if |g| == 1 then [g[0].name] else []
  {
  }

  /** Reading the filled groups gives what the files of each group call for. */
  lemma {:induction false} ReadsRight(files: seq<File>, groups: map<Base, Entry>, keys: seq<Base>)
    requires forall b | b in keys :: b in groups && Readable(files, groups, b)
    ensures PairsFrom(groups, keys) == PairsFor(files, keys)
    ensures NamesFrom(groups, keys) == Names(LonersFor(files, keys))
  {
    if keys != [] {
      var front, last := keys[..|keys| - 1], keys[|keys| - 1];
      assert last in keys && forall b | b in front :: b in keys;
      ReadsRight(files, groups, front);
      EntryReads(last, Group(files, last));
      NamesGrow(LonersFor(files, front), Group(files, last));
    }
  }

  /** matchTestFilePairs: fill the groups, sort them, and read them off. */
  method MatchTestFilePairs(files: seq<File>, rank: Base -> int) returns (pairs: seq<Pair>, unmatched: seq<string>)
    ensures pairs == Match(files, rank).pairs
    ensures unmatched == Names(Match(files, rank).unmatched)
  {
    var groups, order := FillGroups(files);
    CollectFills(files);
    var keys := SortKeys(EntryPlaces(groups, rank), order);
    SameOrder(files, groups, rank, order);
    SortedKeys(files, rank);
    AllFilled(files, keys, groups);
    ReadsRight(files, groups, keys);
    pairs, unmatched := ReadGroups(keys, groups);
  }

  /** Where the sort finds a group, from the entry it was filled into. */
  function EntryPlaces(groups: map<Base, Entry>, rank: Base -> int): Base -> Place {
    b => Place(if b in groups then groups[b].sortKey else 0, rank(b))
  }

  lemma SameOrder(files: seq<File>, groups: map<Base, Entry>, rank: Base -> int, order: seq<Base>)
    requires Filled(files, groups)
    ensures SortKeys(EntryPlaces(groups, rank), order) == SortKeys(Places(files, rank), order)
  {
    forall b: Base
      ensures EntryPlaces(groups, rank)(b) == Places(files, rank)(b)
    {
      BasesAre(files, b);
    }
    SortAgrees(EntryPlaces(groups, rank), Places(files, rank), order);
  }

  lemma {:induction false} SortAgrees(p: Base -> Place, q: Base -> Place, keys: seq<Base>)
    requires forall b :: p(b) == q(b)
    ensures SortKeys(p, keys) == SortKeys(q, keys)
  {
    if keys != [] {
      SortAgrees(p, q, keys[..|keys| - 1]);
      InsertAgrees(p, q, SortKeys(p, keys[..|keys| - 1]), keys[|keys| - 1]);
    }
  }

  lemma {:induction false} InsertAgrees(p: Base -> Place, q: Base -> Place, keys: seq<Base>, b: Base)
    requires forall k :: p(k) == q(k)
    ensures Insert(p, keys, b) == Insert(q, keys, b)
  {
    if keys != [] {
      InsertAgrees(p, q, keys[..|keys| - 1], b);
    }
  }

  lemma AllFilled(files: seq<File>, keys: seq<Base>, groups: map<Base, Entry>)
    requires Filled(files, groups) && forall b :: b in keys <==> Group(files, b) != []
    ensures forall b | b in keys :: b in groups && Readable(files, groups, b)
  {
    forall b | b in keys
      ensures b in groups && Readable(files, groups, b)
    {
      BasesAre(files, b);
    }
  }

  function Names(files: seq<File>): seq<string> {
    if files == [] then [] else Names(files[..|files| - 1]) + [files[|files| - 1].name]
  }

  // ---- Every group gives one pair or one leftover ----

  lemma {:induction false} PairsAre(files: seq<File>, keys: seq<Base>, p: Pair)
    ensures p in PairsFor(files, keys) <==> p.base in keys && PairFor(p.base, Group(files, p.base)) == Some(p)
  {
    if keys != [] {
      PairsAre(files, keys[..|keys| - 1], p);
      assert keys == keys[..|keys| - 1] + [keys[|keys| - 1]];
    }
  }

  lemma {:induction false} LonersAre(files: seq<File>, keys: seq<Base>, f: File)
    ensures f in LonersFor(files, keys) <==> f.base in keys && Group(files, f.base) == [f]
  {
    if keys != [] {
      LonersAre(files, keys[..|keys| - 1], f);
      assert keys == keys[..|keys| - 1] + [keys[|keys| - 1]];
    }
  }

  lemma {:induction false} OnePairEach(files: seq<File>, keys: seq<Base>)
    requires NoRepeats(keys)
    ensures forall i, j | 0 <= i < j < |PairsFor(files, keys)| ::
        PairsFor(files, keys)[i].base != PairsFor(files, keys)[j].base
  {
    if keys != [] {
      var front := keys[..|keys| - 1];
      OnePairEach(files, front);
      forall p | p in PairsFor(files, front)
        ensures p.base != keys[|keys| - 1]
      {
        PairsAre(files, front, p);
      }
    }
  }

  /** A pair is reported exactly for each base name with two files or more, once, and consists of the
    * first two uploaded; a leftover exactly for each base name with one. */
  lemma PairsExactly(files: seq<File>, rank: Base -> int)
    ensures var m := Match(files, rank);
      && (forall p :: p in m.pairs <==> PairFor(p.base, Group(files, p.base)) == Some(p))
      && (forall f :: f in m.unmatched <==> Group(files, f.base) == [f])
      && (forall i, j | 0 <= i < j < |m.pairs| :: m.pairs[i].base != m.pairs[j].base)
  {
    var m := Match(files, rank);
    var keys := Keys(files, rank);
    SortedKeys(files, rank);
    forall p
      ensures p in m.pairs <==> PairFor(p.base, Group(files, p.base)) == Some(p)
    {
      PairsAre(files, keys, p);
    }
    forall f
      ensures f in m.unmatched <==> Group(files, f.base) == [f]
    {
      LonersAre(files, keys, f);
    }
    OnePairEach(files, keys);
  }

  /** Every pair on its files: the first two of its base name, the output side being the first if that
    * marks an output and no input, and otherwise the second; its size is theirs together. */
  lemma PairSays(files: seq<File>, rank: Base -> int, p: Pair)
    requires p in Match(files, rank).pairs
    ensures var g := Group(files, p.base);
      && |g| >= 2 && p.totalSize == p.input.size + p.expected.size
      && if g[0].isOutput && !g[0].isInput then p.expected == g[0] && p.input == g[1]
         else p.input == g[0] && p.expected == g[1]
  {
    PairsExactly(files, rank);
  }

  lemma {:induction false} PairsFollowKeys(files: seq<File>, place: Base -> Place, keys: seq<Base>)
    requires Sorted(place, keys)
    ensures var ps := PairsFor(files, keys);
      forall i, j | 0 <= i < j < |ps| :: AtMost(place(ps[i].base), place(ps[j].base))
  {
    if keys != [] {
      var front, last := keys[..|keys| - 1], keys[|keys| - 1];
      PairsFollowKeys(files, place, front);
      var before, more := PairsFor(files, front), PairOrNone(PairFor(last, Group(files, last)));
      forall i | 0 <= i < |before|
        ensures AtMost(place(before[i].base), place(last))
      {
        BeforeLast(files, place, keys, before[i]);
      }
      forall i, j | 0 <= i < j < |before + more|
        ensures AtMost(place((before + more)[i].base), place((before + more)[j].base))
      {
        assert j < |before| || (j == |before| && more[0].base == last);
      }
    }
  }

  lemma BeforeLast(files: seq<File>, place: Base -> Place, keys: seq<Base>, p: Pair)
    requires Sorted(place, keys) && keys != [] && p in PairsFor(files, keys[..|keys| - 1])
    ensures AtMost(place(p.base), place(keys[|keys| - 1]))
  {
    var front := keys[..|keys| - 1];
    PairsAre(files, front, p);
    var i :| 0 <= i < |front| && front[i] == p.base;
    assert keys[i] == p.base;
  }

  /** The group of base name a is reported no later than that of b. */
  predicate NoLater(files: seq<File>, rank: Base -> int, a: Base, b: Base) {
    var g, h := Group(files, a), Group(files, b);
    g != [] && h != [] && (g[0].num < h[0].num || (g[0].num == h[0].num && rank(a) <= rank(b)))
  }

  lemma PlacedNoLater(files: seq<File>, rank: Base -> int, a: Base, b: Base)
    requires AtMost(Places(files, rank)(a), Places(files, rank)(b)) && Group(files, a) != [] && Group(files, b) != []
    ensures NoLater(files, rank, a, b)
  {
  }

  /** The pairs come in ascending order of the number in the first file's name, those of one number in
    * the order of their base names. */
  lemma PairsInOrder(files: seq<File>, rank: Base -> int, i: nat, j: nat)
    requires i < j < |Match(files, rank).pairs|
    ensures NoLater(files, rank, Match(files, rank).pairs[i].base, Match(files, rank).pairs[j].base)
  {
    PairsPlaced(files, Places(files, rank), Bases(files), i, j);
    PairGrouped(files, rank, Match(files, rank).pairs[i]);
    PairGrouped(files, rank, Match(files, rank).pairs[j]);
    PlacedNoLater(files, rank, Match(files, rank).pairs[i].base, Match(files, rank).pairs[j].base);
  }

  lemma PairsPlaced(files: seq<File>, place: Base -> Place, bases: seq<Base>, i: nat, j: nat)
    requires i < j < |PairsFor(files, SortKeys(place, bases))|
    ensures var ps := PairsFor(files, SortKeys(place, bases)); AtMost(place(ps[i].base), place(ps[j].base))
  {
    SortSorts(place, bases);
    PairsFollowKeys(files, place, SortKeys(place, bases));
  }

  lemma PairGrouped(files: seq<File>, rank: Base -> int, p: Pair)
    requires p in Match(files, rank).pairs
    ensures Group(files, p.base) != []
  {
    PairSays(files, rank, p);
  }

  lemma {:induction false} NamesAre(files: seq<File>, k: nat)
    requires k < |files|
    ensures |Names(files)| == |files| && Names(files)[k] == files[k].name
  {
    if |files| > 1 {
      NamesAre(files[..|files| - 1], if k < |files| - 1 then k else 0);
    }
  }

  // ---- Conservation: no file twice, and which are dropped ----

  function FilesIn(pairs: seq<Pair>): multiset<File> {
    if pairs == [] then multiset{}
    else FilesIn(pairs[..|pairs| - 1]) + multiset{pairs[|pairs| - 1].input, pairs[|pairs| - 1].expected}
  }

  /** Files after the second of their group: they are neither paired nor reported. */
  function Dropped(files: seq<File>, keys: seq<Base>): multiset<File> {
    if keys == [] then multiset{}
    else
      var g := Group(files, keys[|keys| - 1]);
      Dropped(files, keys[..|keys| - 1]) + DroppedOf(g)
  }

  function AllGroups(files: seq<File>, keys: seq<Base>): multiset<File> {
    if keys == [] then multiset{} else AllGroups(files, keys[..|keys| - 1]) + multiset(Group(files, keys[|keys| - 1]))
  }

  lemma {:induction false} AddFile(files: seq<File>, f: File, keys: seq<Base>)
    requires NoRepeats(keys)
    ensures AllGroups(files + [f], keys) == AllGroups(files, keys) + if f.base in keys then multiset{f} else multiset{}
  {
    assert (files + [f])[..|files + [f]| - 1] == files;
    if keys != [] {
      var front, last := keys[..|keys| - 1], keys[|keys| - 1];
      assert keys == front + [last];
      AddFile(files, f, front);
    }
  }

  lemma {:induction false} NoFileNoGroup(keys: seq<Base>)
    ensures AllGroups([], keys) == multiset{}
  {
    if keys != [] {
      NoFileNoGroup(keys[..|keys| - 1]);
    }
  }

  lemma {:induction false} GroupsCover(files: seq<File>, keys: seq<Base>)
    requires NoRepeats(keys) && forall f | f in files :: f.base in keys
    ensures AllGroups(files, keys) == multiset(files)
  {
    if files == [] {
      NoFileNoGroup(keys);
    } else {
      var front, last := files[..|files| - 1], files[|files| - 1];
      assert files == front + [last];
      GroupsCover(front, keys);
      AddFile(front, last, keys);
    }
  }

  /** What becomes of one group's files. */
  function PairedOf(g: seq<File>): multiset<File> { if |g| < 2 then multiset{} else multiset{g[0], g[1]} }
  function LoneOf(g: seq<File>): seq<File> { if |g| == 1 then [g[0]] else [] }
  function DroppedOf(g: seq<File>): multiset<File> { if |g| > 2 then multiset(g[2..]) else multiset{} }

  lemma GroupSplits(g: seq<File>)
    ensures multiset(g) == PairedOf(g) + multiset(LoneOf(g)) + DroppedOf(g)
  {
    if |g| == 1 {
      assert g == [g[0]];
    } else if |g| >= 2 {
      assert g == [g[0], g[1]] + g[2..];
    }
  }

  lemma FilesGrow(ps: seq<Pair>, p: Pair)
    ensures FilesIn(ps + [p]) == FilesIn(ps) + multiset{p.input, p.expected}
  {
    assert (ps + [p])[..|ps + [p]| - 1] == ps;
  }

  lemma PairedGrows(ps: seq<Pair>, b: Base, g: seq<File>)
    ensures FilesIn(ps + PairOrNone(PairFor(b, g))) == FilesIn(ps) + PairedOf(g)
  {
    if |g| >= 2 {
      FilesGrow(ps, PairFor(b, g).value);
    } else {
      assert ps + [] == ps;
    }
  }

  lemma {:induction false} GroupsSplit(files: seq<File>, keys: seq<Base>)
    ensures AllGroups(files, keys) == FilesIn(PairsFor(files, keys)) + multiset(LonersFor(files, keys))
        + Dropped(files, keys)
  {
    if keys != [] {
      var front, last := keys[..|keys| - 1], keys[|keys| - 1];
      assert keys == front + [last];
      GroupsSplit(files, front);
      GroupSplits(Group(files, last));
      PairedGrows(PairsFor(files, front), last, Group(files, last));
    }
  }

  lemma {:induction false} TwoEach(pairs: seq<Pair>)
    ensures |FilesIn(pairs)| == 2 * |pairs|
  {
    if pairs != [] {
      TwoEach(pairs[..|pairs| - 1]);
    }
  }

  lemma {:induction false} InItsGroup(files: seq<File>, f: File)
    ensures f in files <==> f in Group(files, f.base)
  {
    if files != [] {
      assert files == files[..|files| - 1] + [files[|files| - 1]];
      InItsGroup(files[..|files| - 1], f);
    }
  }

  /** Every uploaded file ends up in exactly one place: one side of one pair, the leftovers, or, from
    * the third of a base name on, nowhere. So none is used twice. */
  lemma FilesConserved(files: seq<File>, rank: Base -> int)
    ensures var m := Match(files, rank); var dropped := Dropped(files, Keys(files, rank));
      && multiset(files) == FilesIn(m.pairs) + multiset(m.unmatched) + dropped
      && |files| == 2 * |m.pairs| + |m.unmatched| + |dropped|
  {
    var keys := Keys(files, rank);
    SortedKeys(files, rank);
    forall f | f in files
      ensures f.base in keys
    {
      InItsGroup(files, f);
    }
    GroupsCover(files, keys);
    GroupsSplit(files, keys);
    TwoEach(Match(files, rank).pairs);
    assert |multiset(files)| == |files|;
  }

  lemma DroppedSome(g: seq<File>)
    ensures |DroppedOf(g)| == 0 <==> |g| <= 2
  {
    if |g| > 2 {
      assert g[2] in multiset(g[2..]);
    }
  }

  lemma {:induction false} DroppedIs(files: seq<File>, keys: seq<Base>)
    ensures |Dropped(files, keys)| == 0 <==> forall b | b in keys :: |Group(files, b)| <= 2
  {
    if keys != [] {
      var front, last := keys[..|keys| - 1], keys[|keys| - 1];
      assert keys == front + [last];
      DroppedIs(files, front);
      DroppedSome(Group(files, last));
      assert |Dropped(files, keys)| == |Dropped(files, front)| + |DroppedOf(Group(files, last))|;
      assert last in keys && forall b :: b in keys <==> b in front || b == last;
    }
  }

  /** Every upload is accounted for to the user exactly when no base name has three files. */
  lemma NothingLostExactly(files: seq<File>, rank: Base -> int)
    ensures var m := Match(files, rank);
      |files| == 2 * |m.pairs| + |m.unmatched| <==> forall b: Base :: |Group(files, b)| <= 2
  {
    FilesConserved(files, rank);
    SortedKeys(files, rank);
    var keys := Keys(files, rank);
    DroppedIs(files, keys);
    assert forall b: Base :: b in keys || Group(files, b) == [];
  }

  // ---- Upload order ----

  lemma {:induction false} GroupCounts(files: seq<File>, base: Base, f: File)
    ensures multiset(Group(files, base))[f] == if f.base == base then multiset(files)[f] else 0
  {
    if files != [] {
      assert files == files[..|files| - 1] + [files[|files| - 1]];
      GroupCounts(files[..|files| - 1], base, f);
    }
  }

  lemma SameCounts(g: seq<File>, h: seq<File>)
    requires forall f :: multiset(g)[f] == multiset(h)[f]
    ensures multiset(g) == multiset(h) && |g| == |h|
  {
    assert multiset(g) == multiset(h);
    assert |g| == |multiset(g)|;
    assert |h| == |multiset(h)|;
  }

  lemma GroupsPermuted(files: seq<File>, later: seq<File>, base: Base)
    requires multiset(files) == multiset(later)
    ensures multiset(Group(files, base)) == multiset(Group(later, base))
    ensures |Group(files, base)| == |Group(later, base)|
  {
    forall f
      ensures multiset(Group(files, base))[f] == multiset(Group(later, base))[f]
    {
      GroupCounts(files, base, f);
      GroupCounts(later, base, f);
    }
    SameCounts(Group(files, base), Group(later, base));
  }

  lemma SameTwo(a: File, b: File, c: File, d: File)
    requires multiset{a, b} == multiset{c, d}
    ensures (a == c && b == d) || (a == d && b == c)
  {
    assert multiset{a, b}[a] == multiset{c, d}[a];
    assert multiset{a, b}[b] == multiset{c, d}[b];
  }

  lemma TwoPermuted(g: seq<File>, h: seq<File>)
    requires multiset(g) == multiset(h) && |g| == |h| <= 2
    ensures g == h || (|g| == 2 && g == [h[1], h[0]])
  {
    if |g| == 1 {
      assert g[0] in multiset(g) && multiset(h) == multiset([h[0]]) by { assert h == [h[0]]; }
    } else if |g| == 2 {
      SameTwo(g[0], g[1], h[0], h[1]) by {
        assert g == [g[0], g[1]] && h == [h[0], h[1]];
        assert multiset(g) == multiset{g[0], g[1]} && multiset(h) == multiset{h[0], h[1]};
      }
    }
  }

  /** At most two files a base name, and of two exactly one named as an output and not as an input. */
  ghost predicate Unambiguous(files: seq<File>) {
    forall b: Base :: var g := Group(files, b); |g| <= 2 && (|g| == 2 ==> OutputOnly(g[0]) != OutputOnly(g[1]))
  }

  ghost predicate SameMatching(m: Matching, n: Matching) {
    && (forall p :: p in m.pairs <==> p in n.pairs)
    && (forall f :: f in m.unmatched <==> f in n.unmatched)
  }

  ghost predicate OrderFree(files: seq<File>, rank: Base -> int) {
    forall later | multiset(later) == multiset(files) :: SameMatching(Match(later, rank), Match(files, rank))
  }

  /** Permuting an unambiguous group changes neither its pair nor its lone file. */
  lemma SameOutcome(b: Base, g: seq<File>, h: seq<File>)
    requires multiset(g) == multiset(h) && |g| == |h| <= 2
    requires |g| == 2 ==> OutputOnly(g[0]) != OutputOnly(g[1])
    ensures PairFor(b, g) == PairFor(b, h)
    ensures |g| == 1 ==> g == h
  {
    TwoPermuted(g, h);
  }

  lemma UnambiguousIsOrderFree(files: seq<File>, later: seq<File>, rank: Base -> int)
    requires Unambiguous(files) && multiset(later) == multiset(files)
    ensures SameMatching(Match(later, rank), Match(files, rank))
  {
    PairsExactly(files, rank);
    PairsExactly(later, rank);
    forall p
      ensures p in Match(later, rank).pairs <==> p in Match(files, rank).pairs
    {
      GroupsPermuted(files, later, p.base);
      SameOutcome(p.base, Group(files, p.base), Group(later, p.base));
    }
    forall f
      ensures f in Match(later, rank).unmatched <==> f in Match(files, rank).unmatched
    {
      GroupsPermuted(files, later, f.base);
      SameOutcome(f.base, Group(files, f.base), Group(later, f.base));
    }
  }

  lemma {:induction false} GroupAppend(files: seq<File>, more: seq<File>, base: Base)
    ensures Group(files + more, base) == Group(files, base) + Group(more, base)
    decreases |more|
  {
    if more == [] {
      assert files + more == files;
    } else {
      assert (files + more)[..|files + more| - 1] == files + more[..|more| - 1];
      GroupAppend(files, more[..|more| - 1], base);
    }
  }

  /** Uploading file k before the others. */
  function ToFront(files: seq<File>, k: nat): seq<File>
    requires k < |files|
  {
    [files[k]] + (files[..k] + files[k + 1..])
  }

  lemma ToFrontGroup(files: seq<File>, k: nat)
    requires k < |files|
    ensures multiset(ToFront(files, k)) == multiset(files)
    ensures var g := Group(ToFront(files, k), files[k].base);
      |g| == |Group(files, files[k].base)| && |g| >= 1 && g[0] == files[k]
  {
    var f := files[k];
    assert files == files[..k] + [f] + files[k + 1..];
    GroupsPermuted(files, ToFront(files, k), f.base);
    GroupAppend([f], files[..k] + files[k + 1..], f.base);
    assert Group([f], f.base) == [f];
  }

  /** A group led by its last file makes another pair, or the same two the other way round. */
  lemma OtherOutcome(b: Base, g: seq<File>, h: seq<File>)
    requires NoRepeats(g) && multiset(g) == multiset(h) && |g| == |h| >= 2
    requires |g| == 2 ==> OutputOnly(g[0]) == OutputOnly(g[1])
    requires h[0] == g[|g| - 1]
    ensures PairFor(b, h) != PairFor(b, g)
  {
    if |g| == 2 {
      TwoPermuted(g, h);
    }
  }

  /** Three files or more, or two not told apart by name: another order of upload shows. */
  lemma AmbiguousShows(files: seq<File>, rank: Base -> int, b: Base) returns (later: seq<File>)
    requires NoRepeats(files)
    requires var g := Group(files, b); |g| > 2 || (|g| == 2 && OutputOnly(g[0]) == OutputOnly(g[1]))
    ensures multiset(later) == multiset(files)
    ensures !SameMatching(Match(later, rank), Match(files, rank))
  {
    var g := Group(files, b);
    var f := g[|g| - 1];
    InItsGroup(files, f);
    var k :| 0 <= k < |files| && files[k] == f;
    later := ToFront(files, k);
    ToFrontGroup(files, k);
    GroupsPermuted(files, later, b);
    GroupDistinct(files, b);
    OtherOutcome(b, g, Group(later, b));
    var p := PairFor(b, Group(later, b)).value;
    PairsExactly(later, rank);
    assert p in Match(later, rank).pairs;
    PairsExactly(files, rank);
    assert p !in Match(files, rank).pairs;
  }

  lemma {:induction false} GroupDistinct(files: seq<File>, base: Base)
    requires NoRepeats(files)
    ensures NoRepeats(Group(files, base))
  {
    if files != [] {
      var front, last := files[..|files| - 1], files[|files| - 1];
      GroupDistinct(front, base);
      InItsGroup(front, last);
    }
  }

  /** For distinct files, the order of upload makes no difference to what is paired with what, and
    * which way round, exactly when the names leave no choice. */
  lemma OrderFreeExactly(files: seq<File>, rank: Base -> int)
    requires NoRepeats(files)
    ensures OrderFree(files, rank) <==> Unambiguous(files)
  {
    if Unambiguous(files) {
      forall later | multiset(later) == multiset(files)
        ensures SameMatching(Match(later, rank), Match(files, rank))
      {
        UnambiguousIsOrderFree(files, later, rank);
      }
    } else {
      var b: Base :| var g := Group(files, b); !(|g| <= 2 && (|g| == 2 ==> OutputOnly(g[0]) != OutputOnly(g[1])));
      var later := AmbiguousShows(files, rank, b);
      assert !OrderFree(files, rank);
    }
  }
}
