/** The organizer's timeline: whole signal reports turned into the changes between them. */
module SignalLog {
  import opened Wrappers

  // ---- sort.Strings ----

  predicate LexLe(a: string, b: string) {
    a == "" || (b != "" && (a[0] < b[0] || (a[0] == b[0] && LexLe(a[1..], b[1..]))))
  }

  lemma {:induction false} LexTotal(a: string, b: string)
    ensures LexLe(a, b) || LexLe(b, a)
    ensures LexLe(a, b) && LexLe(b, a) ==> a == b
  {
    if a != "" && b != "" {
      LexTotal(a[1..], b[1..]);
      assert a == [a[0]] + a[1..] && b == [b[0]] + b[1..];
    }
  }

  lemma {:induction false} LexTransitive(a: string, b: string, c: string)
    requires LexLe(a, b) && LexLe(b, c)
    ensures LexLe(a, c)
  {
    if a != "" && a[0] == b[0] && b[0] == c[0] {
      LexTransitive(a[1..], b[1..], c[1..]);
    }
  }

  function Insert(x: string, sorted: seq<string>): seq<string> {
    if sorted == [] || LexLe(x, sorted[0]) then [x] + sorted else [sorted[0]] + Insert(x, sorted[1..])
  }

  function SortStrings(xs: seq<string>): seq<string> {
    if xs == [] then [] else Insert(xs[0], SortStrings(xs[1..]))
  }

  lemma {:induction false} InsertKeeps(x: string, sorted: seq<string>)
    ensures multiset(Insert(x, sorted)) == multiset{x} + multiset(sorted)
  {
    if sorted != [] && !LexLe(x, sorted[0]) {
      InsertKeeps(x, sorted[1..]);
      assert sorted == [sorted[0]] + sorted[1..];
    }
  }

  lemma {:induction false} SortKeeps(xs: seq<string>)
    ensures multiset(SortStrings(xs)) == multiset(xs)
  {
    if xs != [] {
      SortKeeps(xs[1..]);
      InsertKeeps(xs[0], SortStrings(xs[1..]));
      assert xs == [xs[0]] + xs[1..];
    }
  }

  predicate Ordered(xs: seq<string>) {
    forall i, j | 0 <= i < j < |xs| :: LexLe(xs[i], xs[j])
  }

  lemma {:induction false} InsertOrders(x: string, sorted: seq<string>)
    requires Ordered(sorted)
    ensures Ordered(Insert(x, sorted))
  {
    if sorted != [] {
      if LexLe(x, sorted[0]) {
        forall j | 0 <= j < |sorted|
          ensures LexLe(x, sorted[j])
        {
          if j > 0 {
            LexTransitive(x, sorted[0], sorted[j]);
          }
        }
      } else {
        LexTotal(x, sorted[0]);
        InsertOrders(x, sorted[1..]);
        InsertKeeps(x, sorted[1..]);
        forall y | y in Insert(x, sorted[1..])
          ensures LexLe(sorted[0], y)
        {
          assert y in multiset(Insert(x, sorted[1..]));
          assert y == x || y in sorted[1..];
        }
      }
    }
  }

  /** sort.Strings: ascending, and the same strings. */
  lemma {:induction false} SortOrders(xs: seq<string>)
    ensures Ordered(SortStrings(xs)) && multiset(SortStrings(xs)) == multiset(xs)
  {
    if xs != [] {
      SortOrders(xs[1..]);
      InsertOrders(xs[0], SortStrings(xs[1..]));
      SortKeeps(xs);
    }
  }

  lemma {:induction false} InsertCommutes(x: string, y: string, sorted: seq<string>)
    ensures Insert(x, Insert(y, sorted)) == Insert(y, Insert(x, sorted))
  {
    LexTotal(x, y);
    if sorted != [] {
      var z := sorted[0];
      if LexLe(x, z) && !LexLe(y, z) {
        LexTotal(y, z);
        LexTransitive(x, z, y);
      } else if LexLe(y, z) && !LexLe(x, z) {
        LexTotal(x, z);
        LexTransitive(y, z, x);
      } else if !LexLe(x, z) && !LexLe(y, z) {
        InsertCommutes(x, y, sorted[1..]);
      }
    }
  }

  lemma {:induction false} SortFrom(xs: seq<string>, k: nat)
    requires k < |xs|
    ensures SortStrings(xs) == Insert(xs[k], SortStrings(xs[..k] + xs[k + 1..]))
  {
    if k == 0 {
      assert xs[..0] + xs[1..] == xs[1..];
    } else {
      SortFrom(xs[1..], k - 1);
      var rest := xs[1..][..k - 1] + xs[1..][k..];
      assert (xs[..k] + xs[k + 1..])[1..] == rest && (xs[..k] + xs[k + 1..])[0] == xs[0];
      InsertCommutes(xs[0], xs[k], SortStrings(rest));
    }
  }

  lemma WithoutOne(xs: seq<string>, k: nat)
    requires k < |xs|
    ensures multiset(xs[..k] + xs[k + 1..]) == multiset(xs) - multiset{xs[k]}
  {
    assert xs == xs[..k] + [xs[k]] + xs[k + 1..];
  }

  /** Sorting forgets the order of iteration, so a log rendered twice reads identically even
    * though the runtime walks its maps in a different order each time. */
  lemma {:induction false} SortCanonical(xs: seq<string>, ys: seq<string>)
    requires multiset(xs) == multiset(ys)
    ensures SortStrings(xs) == SortStrings(ys)
    decreases |xs|
  {
    if xs == [] {
      assert |multiset(ys)| == 0;
    } else {
      assert xs[0] in multiset(ys);
      var k :| 0 <= k < |ys| && ys[k] == xs[0];
      WithoutOne(xs, 0);
      WithoutOne(ys, k);
      assert xs[..0] + xs[1..] == xs[1..];
      SortCanonical(xs[1..], ys[..k] + ys[k + 1..]);
      SortFrom(ys, k);
    }
  }

  // ---- Reports ----

  datatype Port = Port(port: int, rule: string, product: string, confirmed: bool)

  datatype Signals = Signals(
    dwell: map<string, int>, foreground: string, ports: seq<Port>, internet: bool,
    processes: seq<string>, extensions: seq<string>)

  datatype Change =
    | SwitchedTo(app: string) | Opened(app: string, ms: int)
    | Online | Offline
    | PortUp(key: string, text: string) | PortDown(key: string, text: string)
    | Appeared(name: string) | Exited(name: string)
    | Detected(name: string) | Removed(name: string)

  function Digits(n: nat): string {
    if n < 10 then [('0' as int + n) as char] else Digits(n / 10) + [('0' as int + n % 10) as char]
  }

  function Itoa(n: int): string { if n < 0 then "-" + Digits(-n) else Digits(n) }

  function PortKey(p: Port): string { p.rule + ":" + Itoa(p.port) }

  function PortText(p: Port): string { (if p.product == "" then p.rule else p.product) + " on :" + Itoa(p.port) }

  /** The confirmed ports by key; a later entry with the same key wins. */
  function PortLabels(ports: seq<Port>): map<string, string> {
    if ports == [] then map[]
    else
      var p := ports[|ports| - 1];
      var before := PortLabels(ports[..|ports| - 1]);
      if p.confirmed then before[PortKey(p) := PortText(p)] else before
  }

  function Keep(base: set<string>, next: seq<string>): seq<string> {
    if next == [] then []
    else Keep(base, next[..|next| - 1]) + if next[|next| - 1] in base then [] else [next[|next| - 1]]
  }

  function Elements(xs: seq<string>): set<string> { set x | x in xs }

  /** What is in next but not in base, sorted; repeats in next stay repeated. */
  function Added(base: seq<string>, next: seq<string>): seq<string> {
    SortStrings(Keep(Elements(base), next))
  }

  method ComputeAdded(base: seq<string>, next: seq<string>) returns (out: seq<string>)
    ensures out == Added(base, next)
    ensures Ordered(out) && Elements(out) == Elements(next) - Elements(base)
  {
    var seen := Elements(base);
    out := [];
    for k := 0 to |next|
      invariant out == Keep(seen, next[..k])
    {
      assert next[..k + 1][..k] == next[..k];
      if next[k] !in seen { out := out + [next[k]]; }
    }
    assert next[..|next|] == next;
    SortOrders(out);
    AddedElements(base, next);
    out := SortStrings(out);
  }

  /** Any order of a set's elements, sorted. */
  ghost function SortedSet(s: set<string>): seq<string> { SortStrings(Order(s)) }

  ghost function Order(s: set<string>): seq<string> {
    if s == {} then [] else var x :| x in s; [x] + Order(s - {x})
  }

  lemma {:induction false} OrderElements(s: set<string>)
    ensures multiset(Order(s)) == multiset(s)
  {
    if s != {} {
      var x :| x in s && Order(s) == [x] + Order(s - {x});
      OrderElements(s - {x});
      assert s == {x} + (s - {x});
    }
  }

  lemma OneMoreKey(next: set<string>, base: set<string>, left: set<string>, k: string)
    requires k in left && left <= next
    ensures multiset((next - (left - {k})) - base) ==
            multiset((next - left) - base) + if k in base then multiset{} else multiset{k}
  {
    var before, after := (next - left) - base, (next - (left - {k})) - base;
    if k in base {
      assert after == before;
    } else {
      assert after == before + {k} && k !in before;
    }
  }

  /** Walks the map in whatever order the runtime chooses. */
  method ComputeAddedKeys(base: map<string, string>, next: map<string, string>) returns (out: seq<string>)
    ensures out == SortedSet(next.Keys - base.Keys)
    ensures Ordered(out) && multiset(out) == multiset(next.Keys - base.Keys)
  {
    out := [];
    var left := next.Keys;
    while left != {}
      invariant left <= next.Keys
      invariant multiset(out) == multiset((next.Keys - left) - base.Keys)
    {
      var k :| k in left;
      OneMoreKey(next.Keys, base.Keys, left, k);
      if k !in base { out := out + [k]; }
      left := left - {k};
    }
    assert (next.Keys - {}) - base.Keys == next.Keys - base.Keys;
    OrderElements(next.Keys - base.Keys);
    SortCanonical(out, Order(next.Keys - base.Keys));
    SortOrders(out);
    out := SortStrings(out);
  }

  // ---- Differences ----

  ghost function DwellAdded(prev: Signals, cur: Signals): seq<string> {
    SortedSet(cur.dwell.Keys - prev.dwell.Keys)
  }

  /** What is said of each name in a list. */
  datatype Verb = StartedAnswering(labels: map<string, string>) | StoppedAnswering(labels: map<string, string>)
                | Appears | Exits | IsDetected | IsRemoved

  function TextOf(labels: map<string, string>, key: string): string { if key in labels then labels[key] else "" }

  function Say(verb: Verb, name: string): Change {
    match verb
    case StartedAnswering(labels) => PortUp(name, TextOf(labels, name))
    case StoppedAnswering(labels) => PortDown(name, TextOf(labels, name))
    case Appears => Appeared(name)
    case Exits => Exited(name)
    case IsDetected => Detected(name)
    case IsRemoved => Removed(name)
  }

  function Each(names: seq<string>, verb: Verb): seq<Change> {
    if names == [] then [] else Each(names[..|names| - 1], verb) + [Say(verb, names[|names| - 1])]
  }

  function EachOpened(names: seq<string>, cur: Signals): seq<Change> {
    if names == [] then []
    else
      var app := names[|names| - 1];
      EachOpened(names[..|names| - 1], cur) +
      if app == cur.foreground then [] else [Opened(app, if app in cur.dwell then cur.dwell[app] else 0)]
  }

  ghost function NetChange(prev: Signals, cur: Signals): seq<Change> {
    if cur.internet == prev.internet then [] else if cur.internet then [Online] else [Offline]
  }

  ghost function AppChanges(prev: Signals, cur: Signals): seq<Change> {
    (if cur.foreground != "" && cur.foreground != prev.foreground then [SwitchedTo(cur.foreground)] else [])
    + EachOpened(DwellAdded(prev, cur), cur)
  }

  ghost function PortChanges(prev: Signals, cur: Signals): seq<Change> {
    var was, is_ := PortLabels(prev.ports), PortLabels(cur.ports);
    Each(SortedSet(is_.Keys - was.Keys), StartedAnswering(is_))
    + Each(SortedSet(was.Keys - is_.Keys), StoppedAnswering(was))
  }

  ghost function NameChanges(prev: Signals, cur: Signals): seq<Change> {
    Each(Added(prev.processes, cur.processes), Appears)
    + Each(Added(cur.processes, prev.processes), Exits)
    + Each(Added(prev.extensions, cur.extensions), IsDetected)
    + Each(Added(cur.extensions, prev.extensions), IsRemoved)
  }

  ghost function Diff(prev: Signals, cur: Signals): seq<Change> {
    AppChanges(prev, cur) + NetChange(prev, cur) + PortChanges(prev, cur) + NameChanges(prev, cur)
  }

  method AppendEach(changes: seq<Change>, names: seq<string>, verb: Verb) returns (out: seq<Change>)
    ensures out == changes + Each(names, verb)
  {
    out := changes;
    for k := 0 to |names|
      invariant out == changes + Each(names[..k], verb)
    {
      assert names[..k + 1][..k] == names[..k];
      out := out + [Say(verb, names[k])];
    }
    assert names[..|names|] == names;
  }

  method DiffSignals(prev: Option<Signals>, cur: Signals) returns (changes: seq<Change>)
    ensures changes == ChangesSince(prev, cur)
  {
    changes := [];
    if prev.None? { return; }
    var old_ := prev.value;
    changes := AppDiff(old_, cur);
    if cur.internet != old_.internet {
      if cur.internet { changes := changes + [Online]; } else { changes := changes + [Offline]; }
    }
    assert changes == AppChanges(old_, cur) + NetChange(old_, cur);
    var ports := PortDiff(old_, cur);
    var names := NameDiff(old_, cur);
    changes := changes + ports + names;
  }

  method AppDiff(prev: Signals, cur: Signals) returns (changes: seq<Change>)
    ensures changes == AppChanges(prev, cur)
  {
    changes := [];
    if cur.foreground != "" && cur.foreground != prev.foreground {
      changes := changes + [SwitchedTo(cur.foreground)];
    }
    var apps := NewApps(prev, cur);
    changes := AppendOpened(changes, apps, cur);
  }

  method NewApps(prev: Signals, cur: Signals) returns (apps: seq<string>)
    ensures apps == DwellAdded(prev, cur)
  {
    var keys: map<string, string> := map k | k in prev.dwell :: "";
    var next: map<string, string> := map k | k in cur.dwell :: "";
    apps := ComputeAddedKeys(keys, next);
    assert next.Keys - keys.Keys == cur.dwell.Keys - prev.dwell.Keys;
  }

  method AppendOpened(changes: seq<Change>, apps: seq<string>, cur: Signals) returns (out: seq<Change>)
    ensures out == changes + EachOpened(apps, cur)
  {
    out := changes;
    for k := 0 to |apps|
      invariant out == changes + EachOpened(apps[..k], cur)
    {
      assert apps[..k + 1][..k] == apps[..k];
      if apps[k] != cur.foreground {
        out := out + [Opened(apps[k], if apps[k] in cur.dwell then cur.dwell[apps[k]] else 0)];
      }
    }
    assert apps[..|apps|] == apps;
  }

  method PortDiff(prev: Signals, cur: Signals) returns (changes: seq<Change>)
    ensures changes == PortChanges(prev, cur)
  {
    var was, is_ := PortLabels(prev.ports), PortLabels(cur.ports);
    var up := ComputeAddedKeys(was, is_);
    changes := AppendEach([], up, StartedAnswering(is_));
    var down := ComputeAddedKeys(is_, was);
    changes := AppendEach(changes, down, StoppedAnswering(was));
  }

  method NameDiff(prev: Signals, cur: Signals) returns (changes: seq<Change>)
    ensures changes == NameChanges(prev, cur)
  {
    var names := ComputeAdded(prev.processes, cur.processes);
    changes := AppendEach([], names, Appears);
    names := ComputeAdded(cur.processes, prev.processes);
    changes := AppendEach(changes, names, Exits);
    names := ComputeAdded(prev.extensions, cur.extensions);
    changes := AppendEach(changes, names, IsDetected);
    names := ComputeAdded(cur.extensions, prev.extensions);
    changes := AppendEach(changes, names, IsRemoved);
  }

  // ---- Replaying the changes ----

  /** What an organizer tracks from row to row. */
  datatype View = View(processes: set<string>, extensions: set<string>, ports: set<string>, internet: bool)

  function ViewOf(s: Signals): View {
    View(Elements(s.processes), Elements(s.extensions), PortLabels(s.ports).Keys, s.internet)
  }

  function Replay(v: View, c: Change): View {
    match c
    case Online => v.(internet := true)
    case Offline => v.(internet := false)
    case PortUp(key, _) => v.(ports := v.ports + {key})
    case PortDown(key, _) => v.(ports := v.ports - {key})
    case Appeared(name) => v.(processes := v.processes + {name})
    case Exited(name) => v.(processes := v.processes - {name})
    case Detected(name) => v.(extensions := v.extensions + {name})
    case Removed(name) => v.(extensions := v.extensions - {name})
    case _ => v
  }

  function ReplayAll(v: View, cs: seq<Change>): View {
    if cs == [] then v else Replay(ReplayAll(v, cs[..|cs| - 1]), cs[|cs| - 1])
  }

  lemma {:induction false} ReplayAppend(v: View, a: seq<Change>, b: seq<Change>)
    ensures ReplayAll(v, a + b) == ReplayAll(ReplayAll(v, a), b)
    decreases |b|
  {
    if b == [] {
      assert a + b == a;
    } else {
      ReplayAppend(v, a, b[..|b| - 1]);
      assert (a + b)[..|a + b| - 1] == a + b[..|b| - 1];
    }
  }

  /** What a list of names said with one verb does to the view. */
  function Effect(v: View, verb: Verb, names: set<string>): View {
    match verb
    case StartedAnswering(_) => v.(ports := v.ports + names)
    case StoppedAnswering(_) => v.(ports := v.ports - names)
    case Appears => v.(processes := v.processes + names)
    case Exits => v.(processes := v.processes - names)
    case IsDetected => v.(extensions := v.extensions + names)
    case IsRemoved => v.(extensions := v.extensions - names)
  }

  lemma {:induction false} ReplayEach(v: View, names: seq<string>, verb: Verb)
    ensures ReplayAll(v, Each(names, verb)) == Effect(v, verb, Elements(names))
    decreases |names|
  {
    if names == [] {
      EffectOfNone(v, verb);
    } else {
      var front, last := names[..|names| - 1], names[|names| - 1];
      ReplayEach(v, front, verb);
      assert Elements(names) == Elements(front) + {last};
      var cs := Each(names, verb);
      assert cs[..|cs| - 1] == Each(front, verb) && cs[|cs| - 1] == Say(verb, last);
      EffectOfOneMore(v, verb, Elements(front), last);
    }
  }

  lemma EffectOfNone(v: View, verb: Verb)
    ensures Effect(v, verb, {}) == v
  {
    assert v.ports + {} == v.ports && v.processes + {} == v.processes && v.extensions + {} == v.extensions;
    assert v.ports - {} == v.ports && v.processes - {} == v.processes && v.extensions - {} == v.extensions;
  }

  lemma EffectOfOneMore(v: View, verb: Verb, names: set<string>, name: string)
    ensures Replay(Effect(v, verb, names), Say(verb, name)) == Effect(v, verb, names + {name})
  {
    match verb {
      case StartedAnswering(_) => assert v.ports + names + {name} == v.ports + (names + {name});
      case StoppedAnswering(_) => assert v.ports - names - {name} == v.ports - (names + {name});
      case Appears => assert v.processes + names + {name} == v.processes + (names + {name});
      case Exits => assert v.processes - names - {name} == v.processes - (names + {name});
      case IsDetected => assert v.extensions + names + {name} == v.extensions + (names + {name});
      case IsRemoved => assert v.extensions - names - {name} == v.extensions - (names + {name});
    }
  }

  /** Saying what was added and then what was removed carries one set to the other. */
  lemma AddThenRemove(was: set<string>, is_: set<string>)
    ensures (was + (is_ - was)) - (was - is_) == is_
  {
  }

  lemma {:induction false} ReplayApps(v: View, names: seq<string>, cur: Signals)
    ensures ReplayAll(v, EachOpened(names, cur)) == v
    decreases |names|
  {
    if names != [] {
      var front, last := names[..|names| - 1], names[|names| - 1];
      ReplayApps(v, front, cur);
      ReplayAppend(v, EachOpened(front, cur), if last == cur.foreground then []
          else [Opened(last, if last in cur.dwell then cur.dwell[last] else 0)]);
    }
  }

  lemma {:induction false} KeepElements(base: set<string>, next: seq<string>)
    ensures Elements(Keep(base, next)) == Elements(next) - base
  {
    if next != [] {
      var front, last := next[..|next| - 1], next[|next| - 1];
      KeepElements(base, front);
      assert Elements(next) == Elements(front) + {last};
      assert Elements(Keep(base, next)) == Elements(Keep(base, front)) + if last in base then {} else {last};
    }
  }

  lemma SameElements(xs: seq<string>, ys: seq<string>)
    requires multiset(xs) == multiset(ys)
    ensures Elements(xs) == Elements(ys)
  {
    forall x
      ensures x in xs <==> x in ys
    {
      assert x in xs <==> x in multiset(xs);
      assert x in ys <==> x in multiset(ys);
    }
  }

  lemma AddedElements(base: seq<string>, next: seq<string>)
    ensures Elements(Added(base, next)) == Elements(next) - Elements(base)
  {
    KeepElements(Elements(base), next);
    SortKeeps(Keep(Elements(base), next));
    SameElements(Added(base, next), Keep(Elements(base), next));
  }

  lemma SortedSetElements(s: set<string>)
    ensures Elements(SortedSet(s)) == s
  {
    OrderElements(s);
    SortKeeps(Order(s));
    forall x
      ensures x in SortedSet(s) <==> x in s
    {
      assert x in SortedSet(s) <==> x in multiset(SortedSet(s));
    }
  }

  lemma ReplayProcesses(v: View, prev: Signals, cur: Signals)
    requires v.processes == Elements(prev.processes)
    ensures ReplayAll(v, Each(Added(prev.processes, cur.processes), Appears)
        + Each(Added(cur.processes, prev.processes), Exits))
            == v.(processes := Elements(cur.processes))
  {
    var a, b := Added(prev.processes, cur.processes), Added(cur.processes, prev.processes);
    AddedElements(prev.processes, cur.processes);
    AddedElements(cur.processes, prev.processes);
    ReplayAppend(v, Each(a, Appears), Each(b, Exits));
    ReplayEach(v, a, Appears);
    ReplayEach(Effect(v, Appears, Elements(a)), b, Exits);
    AddThenRemove(Elements(prev.processes), Elements(cur.processes));
  }

  lemma ReplayExtensions(v: View, prev: Signals, cur: Signals)
    requires v.extensions == Elements(prev.extensions)
    ensures ReplayAll(v, Each(Added(prev.extensions, cur.extensions), IsDetected)
        + Each(Added(cur.extensions, prev.extensions), IsRemoved))
            == v.(extensions := Elements(cur.extensions))
  {
    var a, b := Added(prev.extensions, cur.extensions), Added(cur.extensions, prev.extensions);
    AddedElements(prev.extensions, cur.extensions);
    AddedElements(cur.extensions, prev.extensions);
    ReplayAppend(v, Each(a, IsDetected), Each(b, IsRemoved));
    ReplayEach(v, a, IsDetected);
    ReplayEach(Effect(v, IsDetected, Elements(a)), b, IsRemoved);
    AddThenRemove(Elements(prev.extensions), Elements(cur.extensions));
  }

  lemma ReplayNames(v: View, prev: Signals, cur: Signals)
    requires v.processes == Elements(prev.processes) && v.extensions == Elements(prev.extensions)
    ensures ReplayAll(v, NameChanges(prev, cur)) == v.(processes := Elements(cur.processes),
        extensions := Elements(cur.extensions))
  {
    var procs := Each(Added(prev.processes, cur.processes), Appears)
        + Each(Added(cur.processes, prev.processes), Exits);
    var exts := Each(Added(prev.extensions, cur.extensions), IsDetected)
        + Each(Added(cur.extensions, prev.extensions), IsRemoved);
    assert NameChanges(prev, cur) == procs + exts;
    ReplayAppend(v, procs, exts);
    ReplayProcesses(v, prev, cur);
    ReplayExtensions(v.(processes := Elements(cur.processes)), prev, cur);
  }

  lemma ReplayPorts(v: View, prev: Signals, cur: Signals)
    requires v.ports == PortLabels(prev.ports).Keys
    ensures ReplayAll(v, PortChanges(prev, cur)) == v.(ports := PortLabels(cur.ports).Keys)
  {
    var was, is_ := PortLabels(prev.ports), PortLabels(cur.ports);
    var up, down := SortedSet(is_.Keys - was.Keys), SortedSet(was.Keys - is_.Keys);
    SortedSetElements(is_.Keys - was.Keys);
    SortedSetElements(was.Keys - is_.Keys);
    ReplayAppend(v, Each(up, StartedAnswering(is_)), Each(down, StoppedAnswering(was)));
    ReplayEach(v, up, StartedAnswering(is_));
    ReplayEach(Effect(v, StartedAnswering(is_), Elements(up)), down, StoppedAnswering(was));
    AddThenRemove(was.Keys, is_.Keys);
  }

  lemma ReplayAppChanges(v: View, prev: Signals, cur: Signals)
    ensures ReplayAll(v, AppChanges(prev, cur)) == v
  {
    var switched := if cur.foreground != "" && cur.foreground != prev.foreground then [SwitchedTo(cur.foreground)]
        else [];
    ReplayAppend(v, switched, EachOpened(DwellAdded(prev, cur), cur));
    assert switched != [] ==> switched[..0] == [];
    ReplayApps(v, DwellAdded(prev, cur), cur);
  }

  lemma ReplayNet(v: View, prev: Signals, cur: Signals)
    requires v.internet == prev.internet
    ensures ReplayAll(v, NetChange(prev, cur)) == v.(internet := cur.internet)
  {
    var net := NetChange(prev, cur);
    assert net != [] ==> net[..0] == [];
  }

  lemma ReplayFour(v: View, a: seq<Change>, b: seq<Change>, c: seq<Change>, d: seq<Change>)
    ensures ReplayAll(v, a + b + c + d) == ReplayAll(ReplayAll(ReplayAll(ReplayAll(v, a), b), c), d)
  {
    ReplayAppend(v, a + b + c, d);
    ReplayAppend(v, a + b, c);
    ReplayAppend(v, a, b);
  }

  /** The reported changes carry the older report's view to the newer one's, exactly. */
  lemma DiffReplays(prev: Signals, cur: Signals)
    ensures ReplayAll(ViewOf(prev), Diff(prev, cur)) == ViewOf(cur)
  {
    var v := ViewOf(prev);
    ReplayFour(v, AppChanges(prev, cur), NetChange(prev, cur), PortChanges(prev, cur), NameChanges(prev, cur));
    ReplayAppChanges(v, prev, cur);
    ReplayNet(v, prev, cur);
    ReplayPorts(v.(internet := cur.internet), prev, cur);
    ReplayNames(v.(internet := cur.internet, ports := PortLabels(cur.ports).Keys), prev, cur);
  }

  // ---- What each change says ----

  /** Port i is the last confirmed one with this key, and reads so. */
  predicate LabelsAt(ports: seq<Port>, i: nat, key: string, text: string) {
    && i < |ports| && ports[i].confirmed && PortKey(ports[i]) == key
    && text == (if ports[i].product != "" then ports[i].product else ports[i].rule) + " on :" + Itoa(ports[i].port)
    && forall j | i < j < |ports| :: ports[j].confirmed ==> PortKey(ports[j]) != key
  }

  /** A key's label comes from the last confirmed port with that key; no other port has one. */
  predicate Labels(ports: seq<Port>, key: string, text: string) {
    exists i | 0 <= i < |ports| :: LabelsAt(ports, i, key, text)
  }

  lemma {:induction false} LabelFound(ports: seq<Port>, key: string) returns (i: nat)
    requires key in PortLabels(ports)
    ensures LabelsAt(ports, i, key, PortLabels(ports)[key])
  {
    var front, p := ports[..|ports| - 1], ports[|ports| - 1];
    if p.confirmed && PortKey(p) == key {
      i := |ports| - 1;
    } else {
      i := LabelFound(front, key);
      assert forall j | 0 <= j < |front| :: front[j] == ports[j];
    }
  }

  lemma {:induction false} LabelKept(ports: seq<Port>, i: nat, key: string, text: string)
    requires LabelsAt(ports, i, key, text)
    ensures key in PortLabels(ports) && PortLabels(ports)[key] == text
  {
    if i < |ports| - 1 {
      var front := ports[..|ports| - 1];
      assert forall j | 0 <= j < |front| :: front[j] == ports[j];
      LabelKept(front, i, key, text);
    }
  }

  lemma PortLabelsExactly(ports: seq<Port>, key: string, text: string)
    ensures key in PortLabels(ports) && PortLabels(ports)[key] == text <==> Labels(ports, key, text)
  {
    if key in PortLabels(ports) {
      var i := LabelFound(ports, key);
      assert Labels(ports, key, PortLabels(ports)[key]);
    }
    forall i: nat | LabelsAt(ports, i, key, text)
      ensures key in PortLabels(ports) && PortLabels(ports)[key] == text
    {
      LabelKept(ports, i, key, text);
    }
  }

  lemma {:induction false} EachSays(names: seq<string>, verb: Verb, c: Change)
    ensures c in Each(names, verb) <==> exists n | n in names :: c == Say(verb, n)
  {
    if names != [] {
      EachSays(names[..|names| - 1], verb, c);
      assert names == names[..|names| - 1] + [names[|names| - 1]];
    }
  }

  lemma {:induction false} OpenedSays(names: seq<string>, cur: Signals, c: Change)
    ensures c in EachOpened(names, cur) <==>
            exists n | n in names :: n != cur.foreground && c == Opened(n, if n in cur.dwell then cur.dwell[n] else 0)
  {
    if names != [] {
      OpenedSays(names[..|names| - 1], cur, c);
      assert names == names[..|names| - 1] + [names[|names| - 1]];
    }
  }

  /** The application changes: a switch to another application in front, first of all, and every
    * application newly dwelt in that is not the one in front, with its time. */
  lemma AppsSaid(prev: Signals, cur: Signals, app: string, ms: int)
    ensures SwitchedTo(app) in Diff(prev, cur) <==> app != "" && app == cur.foreground && app != prev.foreground
    ensures SwitchedTo(app) in Diff(prev, cur) ==> Diff(prev, cur)[0] == SwitchedTo(app)
    ensures Opened(app, ms) in AppChanges(prev, cur) <==>
              app in cur.dwell && app !in prev.dwell && app != cur.foreground && ms == cur.dwell[app]
  {
    var names := DwellAdded(prev, cur);
    SortedSetElements(cur.dwell.Keys - prev.dwell.Keys);
    assert forall n :: n in names <==> n in Elements(names);
    OpenedSays(names, cur, SwitchedTo(app));
    OpenedSays(names, cur, Opened(app, ms));
    assert SwitchedTo(app) !in NetChange(prev, cur);
    NoSwitch(prev, cur, app);
  }

  lemma NoSwitch(prev: Signals, cur: Signals, app: string)
    ensures SwitchedTo(app) !in PortChanges(prev, cur) && SwitchedTo(app) !in NameChanges(prev, cur)
  {
    var was, is_ := PortLabels(prev.ports), PortLabels(cur.ports);
    var c := SwitchedTo(app);
    EachSays(SortedSet(is_.Keys - was.Keys), StartedAnswering(is_), c);
    EachSays(SortedSet(was.Keys - is_.Keys), StoppedAnswering(was), c);
    EachSays(Added(prev.processes, cur.processes), Appears, c);
    EachSays(Added(cur.processes, prev.processes), Exits, c);
    EachSays(Added(prev.extensions, cur.extensions), IsDetected, c);
    EachSays(Added(cur.extensions, prev.extensions), IsRemoved, c);
  }

  /** The port changes: exactly the keys that some port has come to be confirmed under, or no longer is,
    * with their labels. */
  lemma PortsSaid(prev: Signals, cur: Signals, key: string, text: string)
    ensures PortUp(key, text) in PortChanges(prev, cur) <==>
              Labels(cur.ports, key, text) && forall p | p in prev.ports :: p.confirmed ==> PortKey(p) != key
    ensures PortDown(key, text) in PortChanges(prev, cur) <==>
              Labels(prev.ports, key, text) && forall p | p in cur.ports :: p.confirmed ==> PortKey(p) != key
  {
    var was, is_ := PortLabels(prev.ports), PortLabels(cur.ports);
    EachSays(SortedSet(is_.Keys - was.Keys), StartedAnswering(is_), PortUp(key, text));
    EachSays(SortedSet(was.Keys - is_.Keys), StoppedAnswering(was), PortUp(key, text));
    EachSays(SortedSet(is_.Keys - was.Keys), StartedAnswering(is_), PortDown(key, text));
    EachSays(SortedSet(was.Keys - is_.Keys), StoppedAnswering(was), PortDown(key, text));
    SortedSetElements(is_.Keys - was.Keys);
    SortedSetElements(was.Keys - is_.Keys);
    assert key in SortedSet(is_.Keys - was.Keys) <==> key in Elements(SortedSet(is_.Keys - was.Keys));
    assert key in SortedSet(was.Keys - is_.Keys) <==> key in Elements(SortedSet(was.Keys - is_.Keys));
    PortLabelsExactly(cur.ports, key, text);
    PortLabelsExactly(prev.ports, key, text);
    PortKeys(cur.ports, key);
    PortKeys(prev.ports, key);
  }

  lemma {:induction false} PortKeys(ports: seq<Port>, key: string)
    ensures key in PortLabels(ports) <==> exists p | p in ports :: p.confirmed && PortKey(p) == key
  {
    if ports != [] {
      PortKeys(ports[..|ports| - 1], key);
      assert ports == ports[..|ports| - 1] + [ports[|ports| - 1]];
    }
  }

  function ReadDigits(s: string): int {
    if s == "" then 0 else ReadDigits(s[..|s| - 1]) * 10 + (s[|s| - 1] as int - '0' as int)
  }

  function ReadNumber(s: string): int { if s != "" && s[0] == '-' then -ReadDigits(s[1..]) else ReadDigits(s) }

  lemma {:induction false} DigitsRead(n: nat)
    ensures Digits(n) != "" && ReadDigits(Digits(n)) == n && forall c | c in Digits(n) :: '0' <= c <= '9'
  {
    if n >= 10 {
      DigitsRead(n / 10);
      var d := Digits(n);
      assert d[..|d| - 1] == Digits(n / 10);
    } else {
      assert Digits(n)[..0] == "" && ReadDigits("") == 0;
    }
  }

  lemma NumberReads(n: int)
    ensures ReadNumber(Itoa(n)) == n && ':' !in Itoa(n)
  {
    DigitsRead(if n < 0 then -n else n);
    if n < 0 {
      assert Itoa(n)[1..] == Digits(-n);
    } else {
      assert Digits(n)[0] in Digits(n);
    }
  }

  /** What stands before the last colon of a key, and after it. */
  function RuleOf(key: string): string {
    if key == "" then "" else if key[|key| - 1] == ':' then key[..|key| - 1] else RuleOf(key[..|key| - 1])
  }

  lemma {:induction false} RuleReads(rule: string, number: string)
    requires ':' !in number
    ensures RuleOf(rule + ":" + number) == rule
    decreases |number|
  {
    var key := rule + ":" + number;
    if number == "" {
      assert key[..|key| - 1] == rule;
    } else {
      var front := number[..|number| - 1];
      assert number == front + [number[|number| - 1]];
      RuleReads(rule, front);
      assert key[..|key| - 1] == rule + ":" + front;
    }
  }

  /** A key says which rule and which number: two ports share one exactly if they share both. */
  lemma PortKeyExactly(p: Port, q: Port)
    ensures PortKey(p) == PortKey(q) <==> p.rule == q.rule && p.port == q.port
  {
    KeyReads(p);
    KeyReads(q);
  }

  lemma KeyReads(p: Port)
    ensures RuleOf(PortKey(p)) == p.rule
    ensures |p.rule| < |PortKey(p)| && ReadNumber(PortKey(p)[|p.rule| + 1..]) == p.port
  {
    NumberReads(p.port);
    RuleReads(p.rule, Itoa(p.port));
    assert PortKey(p)[|p.rule| + 1..] == Itoa(p.port);
  }

  // ---- The timeline ----

  datatype EventType =
    | BootEvent | BufferedEvent | KeepaliveEvent | SignalChangeEvent | StoppedEvent | WebEvent(name: string)
  datatype Kind = Event(eventType: EventType) | Gap | OtherKind
  datatype Heading = Raw | Title | Headline(change: Change)
  datatype Detail = Plain(text: string) | Changes(changes: seq<Change>) | Standing(state: Signals)

  /** One row: payload is what its JSON decodes to, None when absent or unreadable. */
  datatype Entry = Entry(kind: Kind, title: Heading, detail: Detail, payload: Option<Signals>)

  predicate Unread(e: Entry) { e.title.Raw? && e.detail.Plain? }

  predicate BearsSignals(e: Entry) { e.kind.Event? && !e.kind.eventType.StoppedEvent? && e.payload.Some? }

  ghost function ChangesSince(prev: Option<Signals>, cur: Signals): seq<Change> {
    if prev.None? then [] else Diff(prev.value, cur)
  }

  /** How a row is written once its changes are known. */
  function Rewritten(e: Entry, changes: seq<Change>): Entry {
    match e.kind
    case OtherKind => e
    case Gap => e.(title := Title, detail := Plain("blackout"))
    case Event(t) =>
      if t.StoppedEvent? then
        e.(title := Title, detail := if e.detail == Plain("") then Plain("contestant stopped proctoring") else e.detail)
      else if e.payload.None? then e.(title := Title)
      else if changes == [] then e.(title := Title, detail := Standing(e.payload.value))
      else if t.SignalChangeEvent? then e.(title := Headline(changes[0]), detail := Changes(changes[1..]))
      else e.(title := Title, detail := Changes(changes))
  }

  ghost function Described(prev: Option<Signals>, e: Entry): Entry {
    Rewritten(e, if e.payload.Some? then ChangesSince(prev, e.payload.value) else [])
  }

  /** The newest report among these rows, which come newest first. */
  function Newest(es: seq<Entry>): Option<Signals> {
    if es == [] then None else if BearsSignals(es[0]) then es[0].payload else Newest(es[1..])
  }

  ghost function DescribedAll(es: seq<Entry>): seq<Entry> {
    if es == [] then [] else [Described(Newest(es[1..]), es[0])] + DescribedAll(es[1..])
  }

  lemma {:induction false} DescribedAt(es: seq<Entry>, i: nat)
    requires i < |es|
    ensures |DescribedAll(es)| == |es|
    ensures DescribedAll(es)[i] == Described(Newest(es[i + 1..]), es[i])
  {
    if i == 0 {
      if |es| > 1 {
        DescribedAt(es[1..], 0);
      }
    } else {
      DescribedAt(es[1..], i - 1);
      assert es[1..][i..] == es[i + 1..];
    }
  }

  /** The walk from the oldest row to the newest, rewriting in place and carrying the last report. */
  method DescribeEvents(entries: array<Entry>)
    modifies entries
    ensures entries[..] == DescribedAll(old(entries[..]))
  {
    var prev: Option<Signals> := None;
    ghost var before := entries[..];
    var i := entries.Length;
    while i > 0
      invariant 0 <= i <= entries.Length
      invariant entries[..i] == before[..i]
      invariant prev == Newest(before[i..])
      invariant forall k | i <= k < entries.Length :: entries[k] == Described(Newest(before[k + 1..]), before[k])
    {
      i := i - 1;
      assert entries[i] == entries[..i + 1][i] == before[i];
      assert before[i..][1..] == before[i + 1..];
      var described := DescribeEntry(entries[i], prev);
      if BearsSignals(entries[i]) { prev := entries[i].payload; }
      entries[i] := described;
      assert entries[..i] == before[..i];
    }
    forall k | 0 <= k < entries.Length
      ensures |DescribedAll(before)| == entries.Length && entries[..][k] == DescribedAll(before)[k]
    {
      DescribedAt(before, k);
    }
    if before == [] {
      assert entries[..] == [];
    }
  }

  method DescribeEntry(e: Entry, prev: Option<Signals>) returns (described: Entry)
    ensures described == Described(prev, e)
  {
    described := e;
    match e.kind {
      case OtherKind =>
      case Gap =>
        described := e.(title := Title, detail := Plain("blackout"));
      case Event(t) =>
        described := e.(title := Title);
        if t.StoppedEvent? {
          if e.detail == Plain("") { described := described.(detail := Plain("contestant stopped proctoring")); }
        } else if e.payload.Some? {
          var changes := DiffSignals(prev, e.payload.value);
          if t.SignalChangeEvent? && |changes| > 0 {
            described := described.(title := Headline(changes[0]), detail := Changes(changes[1..]));
          } else if |changes| > 0 {
            described := described.(detail := Changes(changes));
          } else {
            described := described.(detail := Standing(e.payload.value));
          }
        }
    }
  }

  /** What a described row shows. Only a signal-change row headlines, its first change; every row with a
    * readable report and a predecessor lists the changes left, or, if there are none, the standing
    * state; a stop without a reason is given one; and all else that is not a blackout is untouched. */
  lemma DescribedSays(prev: Option<Signals>, e: Entry)
    ensures var d := Described(prev, e);
            var changes := if prev.Some? && e.payload.Some? then Diff(prev.value, e.payload.value) else [];
            var reports := e.kind.Event? && e.kind.eventType != StoppedEvent && e.payload.Some?;
            var headlines := reports && changes != [] && e.kind.eventType == SignalChangeEvent;
      && d.kind == e.kind && d.payload == e.payload
      && d.title == (if e.kind.OtherKind? then e.title else if headlines then Headline(changes[0]) else Title)
      && d.detail == (if e.kind.Gap? then Plain("blackout")
                      else if reports && changes == [] then Standing(e.payload.value)
                      else if reports then Changes(if headlines then changes[1..] else changes)
                      else if e.kind == Event(StoppedEvent) && e.detail == Plain("")
                          then Plain("contestant stopped proctoring")
                      else e.detail)
  {
  }

  /** What a described row lets its reader conclude. A standing row says that nothing changed; only
    * where nothing is known yet, at the oldest report, is its state taken as given. */
  function ReadRow(known: Option<View>, e: Entry): Option<View> {
    if e.detail.Standing? then Some(if known.Some? then known.value else ViewOf(e.detail.state))
    else if e.detail.Changes? && known.Some? then
      Some(ReplayAll(known.value, (if e.title.Headline? then [e.title.change] else []) + e.detail.changes))
    else known
  }

  /** Reading a log from its oldest row up. */
  function ReadLog(log: seq<Entry>): Option<View> {
    if log == [] then None else ReadRow(ReadLog(log[1..]), log[0])
  }

  lemma ReadRewritten(known: Option<View>, e: Entry, changes: seq<Change>)
    requires Unread(e)
    ensures !BearsSignals(e) ==> ReadRow(known, Rewritten(e, changes)) == known
    ensures BearsSignals(e) && changes == [] ==>
              ReadRow(known, Rewritten(e, changes)) == Some(if known.Some? then known.value
                  else ViewOf(e.payload.value))
    ensures BearsSignals(e) && changes != [] && known.Some? ==>
              ReadRow(known, Rewritten(e, changes)) == Some(ReplayAll(known.value, changes))
  {
    if changes != [] {
      assert [changes[0]] + changes[1..] == changes && [] + changes == changes;
    }
  }

  /** The structured changes lose nothing: given only the oldest report, reading the changes of the
    * described rows from oldest to newest reproduces, after every row, the processes, extensions,
    * confirmed port keys and connectivity of the newest report so far. */
  lemma {:induction false} LogReproducesReports(es: seq<Entry>)
    requires forall e | e in es :: Unread(e)
    ensures ReadLog(DescribedAll(es)) == (if Newest(es).None? then None else Some(ViewOf(Newest(es).value)))
  {
    if es != [] {
      forall e | e in es[1..]
        ensures Unread(e)
      {
        assert e in es;
      }
      LogReproducesReports(es[1..]);
      assert DescribedAll(es)[1..] == DescribedAll(es[1..]);
      ReadDescribed(es[0], Newest(es[1..]));
    }
  }

  lemma ReadDescribed(e: Entry, prev: Option<Signals>)
    requires Unread(e)
    ensures ReadRow(if prev.None? then None else Some(ViewOf(prev.value)), Described(prev, e)) ==
            if BearsSignals(e) then Some(ViewOf(e.payload.value)) else if prev.None? then None
                else Some(ViewOf(prev.value))
  {
    var known := if prev.None? then None else Some(ViewOf(prev.value));
    var changes := if e.payload.Some? then ChangesSince(prev, e.payload.value) else [];
    ReadRewritten(known, e, changes);
    if BearsSignals(e) && prev.Some? {
      DiffReplays(prev.value, e.payload.value);
      assert ReplayAll(ViewOf(prev.value), []) == ViewOf(prev.value);
    }
  }
}
