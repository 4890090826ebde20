/**
 * Properties of the reorder step: the three cases of one step, the
 * invariants a whole run keeps, and delivery of a shuffled stream in order.
 */
module AssemblerProperties {
  import opened Wrappers
  import opened Issues
  import opened Assembler

  /** A stale item changes nothing, emits nothing, and is dropped once against the current cursor. */
  lemma StaleItem<T>(name: string, seqOf: T -> int, core: Core<T>, pkg: T)
    requires seqOf(pkg) < core.nextSeq
    ensures var st := Handle(name, seqOf, core, pkg);
            && st.after == core
            && st.emitted == []
            && st.issue.Some?
            && st.issue.value.id == PackageLessThanNextSeq
            && st.issue.value.nextSeq == core.nextSeq
            && st.issue.value.err == SequenceLessThanNext(name, seqOf(pkg), core.nextSeq)
            && DropsOf(pkg, st) == [Dropped(pkg, st.issue.value)]
  {
  }

  /** An early item is stored under its sequence value, replacing any earlier entry, and nothing else happens. */
  lemma EarlyItem<T>(name: string, seqOf: T -> int, core: Core<T>, pkg: T)
    requires seqOf(pkg) > core.nextSeq
    ensures var st := Handle(name, seqOf, core, pkg);
            && st.after.nextSeq == core.nextSeq
            && st.after.buffer == core.buffer[seqOf(pkg) := pkg]
            && st.emitted == []
            && st.issue == None
  {
  }

  /**
   * The expected item is emitted first, followed by the buffered items at
   * the next sequence values up to the first missing one; exactly those are
   * removed, and the cursor ends on a key the buffer does not hold.
   */
  lemma ExpectedItem<T>(name: string, seqOf: T -> int, core: Core<T>, pkg: T)
    requires seqOf(pkg) == core.nextSeq
    ensures var st := Handle(name, seqOf, core, pkg);
            && |st.emitted| >= 1
            && st.emitted[0] == pkg
            && (forall i | 1 <= i < |st.emitted| ::
                  core.nextSeq + i in core.buffer && st.emitted[i] == core.buffer[core.nextSeq + i])
            && st.after.nextSeq == core.nextSeq + |st.emitted|
            && st.after.nextSeq !in core.buffer
            && st.after.nextSeq !in st.after.buffer
            && (forall k :: k in st.after.buffer <==> k in core.buffer && !(core.nextSeq < k < st.after.nextSeq))
            && (forall k | k in st.after.buffer :: st.after.buffer[k] == core.buffer[k])
            && st.issue == None
  {
    DrainSpec(core.buffer, core.nextSeq + 1);
    var st := Handle(name, seqOf, core, pkg);
    var d := Drain(core.buffer, core.nextSeq + 1);
    assert st.emitted == [pkg] + d.emitted;
    forall i | 1 <= i < |st.emitted|
      ensures core.nextSeq + i in core.buffer && st.emitted[i] == core.buffer[core.nextSeq + i]
    {
      assert st.emitted[i] == d.emitted[i - 1];
    }
  }

  /**
   * Over any stream of items, from any state that satisfies the buffer
   * invariant: the invariant still holds at the end, the cursor never moves
   * back, the output carries the sequence values start, start + 1, ... with
   * no gap and no repeat, and every drop reports a stale item against a
   * cursor value, these values never decreasing.
   */
  lemma {:induction false} FeedInOrder<T>(name: string, seqOf: T -> int, start: Core<T>, pkgs: seq<T>)
    requires Ordered(seqOf, start)
    ensures var r := Feed(name, seqOf, start, pkgs);
            && Ordered(seqOf, r.after)
            && r.after.nextSeq == start.nextSeq + |r.emitted|
            && Numbered(seqOf, r.emitted, start.nextSeq)
            && (forall i | 0 <= i < |r.drops| ::
                  && r.drops[i].issue.id == PackageLessThanNextSeq
                  && seqOf(r.drops[i].pkg) < r.drops[i].issue.nextSeq
                  && start.nextSeq <= r.drops[i].issue.nextSeq <= r.after.nextSeq)
            && (forall i, j | 0 <= i < j < |r.drops| :: r.drops[i].issue.nextSeq <= r.drops[j].issue.nextSeq)
    decreases |pkgs|
  {
    if pkgs != [] {
      var last := pkgs[|pkgs| - 1];
      FeedInOrder(name, seqOf, start, pkgs[..|pkgs| - 1]);
      var prev := Feed(name, seqOf, start, pkgs[..|pkgs| - 1]);
      StepKeepsOrder(name, seqOf, prev.after, last);
      var st := Handle(name, seqOf, prev.after, last);
      var r := Feed(name, seqOf, start, pkgs);
      assert r.emitted == prev.emitted + st.emitted;
      assert r.drops == prev.drops + DropsOf(last, st);
      forall i | 0 <= i < |r.emitted|
        ensures seqOf(r.emitted[i]) == start.nextSeq + i
      {
        if i >= |prev.emitted| {
          assert r.emitted[i] == st.emitted[i - |prev.emitted|];
        } else {
          assert r.emitted[i] == prev.emitted[i];
        }
      }
    }
  }

  /** `items` has no repeated element: its sequence values are all different. */
  lemma {:induction false} NumberedItemsDistinct<T>(seqOf: T -> int, items: seq<T>, begin: int, x: T)
    requires Numbered(seqOf, items, begin)
    ensures multiset(items)[x] <= 1
    decreases |items|
  {
    if items != [] {
      var last := items[|items| - 1];
      var init := items[..|items| - 1];
      assert items == init + [last];
      assert Numbered(seqOf, init, begin);
      NumberedItemsDistinct(seqOf, init, begin, x);
    }
  }

  /** An element at two different positions of a sequence occurs at least twice in it. */
  lemma TwoPositions<T>(s: seq<T>, a: int, b: int)
    requires 0 <= a < b < |s| && s[a] == s[b]
    ensures multiset(s)[s[a]] >= 2
  {
    assert s == s[..a] + [s[a]] + s[a + 1..b] + [s[b]] + s[b + 1..];
  }

  /**
   * When `pkgs` is a rearrangement of the numbered `items`, every package is
   * the item its sequence value names, and no two packages share a sequence value.
   */
  lemma ShuffledFacts<T>(seqOf: T -> int, items: seq<T>, pkgs: seq<T>, begin: int)
    requires Numbered(seqOf, items, begin)
    requires multiset(pkgs) == multiset(items)
    ensures |pkgs| == |items|
    ensures forall j | 0 <= j < |pkgs| ::
              && begin <= seqOf(pkgs[j]) < begin + |items|
              && pkgs[j] == items[seqOf(pkgs[j]) - begin]
    ensures forall a, b | 0 <= a < b < |pkgs| :: seqOf(pkgs[a]) != seqOf(pkgs[b])
    ensures forall i | 0 <= i < |items| :: items[i] in pkgs
  {
    assert |pkgs| == |multiset(pkgs)| == |multiset(items)| == |items|;
    forall j | 0 <= j < |pkgs|
      ensures begin <= seqOf(pkgs[j]) < begin + |items| && pkgs[j] == items[seqOf(pkgs[j]) - begin]
    {
      assert pkgs[j] in multiset(pkgs);
      assert pkgs[j] in items;
      var i :| 0 <= i < |items| && items[i] == pkgs[j];
      assert seqOf(pkgs[j]) == begin + i;
    }
    forall a, b | 0 <= a < b < |pkgs|
      ensures seqOf(pkgs[a]) != seqOf(pkgs[b])
    {
      if seqOf(pkgs[a]) == seqOf(pkgs[b]) {
        assert pkgs[a] == pkgs[b];
        TwoPositions(pkgs, a, b);
        NumberedItemsDistinct(seqOf, items, begin, pkgs[a]);
        assert false;
      }
    }
    forall i | 0 <= i < |items|
      ensures items[i] in pkgs
    {
      assert items[i] in multiset(items);
    }
  }

  /** Every sequence value of the numbered items is carried by some package of a rearrangement of them. */
  lemma ValueIsSent<T>(seqOf: T -> int, items: seq<T>, pkgs: seq<T>, begin: int, i: int)
    requires Shuffled(seqOf, items, pkgs, begin)
    requires 0 <= i < |items|
    ensures exists m | 0 <= m < |pkgs| :: seqOf(pkgs[m]) == begin + i
  {
    assert items[i] in multiset(items);
    var m :| 0 <= m < |pkgs| && pkgs[m] == items[i];
  }

  /**
   * The state reached after the first j packages of a shuffled stream: the
   * output is the first items in order, nothing was dropped, each buffered
   * entry is the item it is keyed by, every package seen so far is emitted
   * or buffered, and no package still to come is emitted or buffered.
   */
  ghost predicate ShuffledProgress<T>(seqOf: T -> int, items: seq<T>, pkgs: seq<T>, begin: int, j: int, r: Run<T>)
  {
    && 0 <= j <= |pkgs|
    && begin <= r.after.nextSeq <= begin + |items|
    && r.emitted == items[..r.after.nextSeq - begin]
    && r.drops == []
    && (forall k | k in r.after.buffer ::
          r.after.nextSeq < k < begin + |items| && r.after.buffer[k] == items[k - begin])
    && (forall m | 0 <= m < j :: seqOf(pkgs[m]) < r.after.nextSeq || seqOf(pkgs[m]) in r.after.buffer)
    && (forall m | j <= m < |pkgs| :: seqOf(pkgs[m]) >= r.after.nextSeq && seqOf(pkgs[m]) !in r.after.buffer)
  }

  /** The packages are a rearrangement of the items numbered begin, begin + 1, ... */
  ghost predicate Shuffled<T>(seqOf: T -> int, items: seq<T>, pkgs: seq<T>, begin: int)
  {
    Numbered(seqOf, items, begin) && multiset(pkgs) == multiset(items)
  }

  /** The run after one more step from `prev`, as Feed extends a run. */
  function Extend<T>(name: string, seqOf: T -> int, prev: Run<T>, pkg: T): Run<T>
  {
    var st := Handle(name, seqOf, prev.after, pkg);
    Run(st.after, prev.emitted + st.emitted, prev.drops + DropsOf(pkg, st))
  }

  /** One more package of a shuffled stream keeps ShuffledProgress. */
  lemma ShuffledStep<T>(name: string, seqOf: T -> int, items: seq<T>, pkgs: seq<T>, begin: int, j: int, prev: Run<T>)
    requires Shuffled(seqOf, items, pkgs, begin)
    requires 0 <= j < |pkgs|
    requires ShuffledProgress(seqOf, items, pkgs, begin, j, prev)
    ensures ShuffledProgress(seqOf, items, pkgs, begin, j + 1, Extend(name, seqOf, prev, pkgs[j]))
  {
    ShuffledFacts(seqOf, items, pkgs, begin);
    var k := seqOf(pkgs[j]);
    assert forall m | j + 1 <= m < |pkgs| :: seqOf(pkgs[m]) != k;
    if k > prev.after.nextSeq {
      ShuffledEarly(name, seqOf, items, pkgs, begin, j, prev);
    } else {
      var d := Drain(prev.after.buffer, prev.after.nextSeq + 1);
      assert Extend(name, seqOf, prev, pkgs[j])
          == Run(Core(d.cursor, d.rest), prev.emitted + ([pkgs[j]] + d.emitted), prev.drops);
      ShuffledExpected(seqOf, items, pkgs, begin, j, prev);
    }
  }

  /** An early package of a shuffled stream is buffered, which keeps ShuffledProgress. */
  lemma ShuffledEarly<T>(name: string, seqOf: T -> int, items: seq<T>, pkgs: seq<T>, begin: int, j: int, prev: Run<T>)
    requires 0 <= j < |pkgs|
    requires ShuffledProgress(seqOf, items, pkgs, begin, j, prev)
    requires begin <= seqOf(pkgs[j]) < begin + |items| && pkgs[j] == items[seqOf(pkgs[j]) - begin]
    requires forall m | j + 1 <= m < |pkgs| :: seqOf(pkgs[m]) != seqOf(pkgs[j])
    requires seqOf(pkgs[j]) > prev.after.nextSeq
    ensures ShuffledProgress(seqOf, items, pkgs, begin, j + 1, Extend(name, seqOf, prev, pkgs[j]))
  {
    var x := pkgs[j];
    var st := Handle(name, seqOf, prev.after, x);
    assert st == Step(Core(prev.after.nextSeq, prev.after.buffer[seqOf(x) := x]), [], None);
    assert prev.emitted + st.emitted == prev.emitted;
  }

  /** The expected package of a shuffled stream is emitted and the buffer drained, which keeps ShuffledProgress. */
  lemma ShuffledExpected<T>(seqOf: T -> int, items: seq<T>, pkgs: seq<T>, begin: int, j: int, prev: Run<T>)
    requires 0 <= j < |pkgs|
    requires ShuffledProgress(seqOf, items, pkgs, begin, j, prev)
    requires begin <= seqOf(pkgs[j]) < begin + |items| && pkgs[j] == items[seqOf(pkgs[j]) - begin]
    requires forall m | j + 1 <= m < |pkgs| :: seqOf(pkgs[m]) != seqOf(pkgs[j])
    requires seqOf(pkgs[j]) <= prev.after.nextSeq
    ensures var d := Drain(prev.after.buffer, prev.after.nextSeq + 1);
            ShuffledProgress(seqOf, items, pkgs, begin, j + 1,
                             Run(Core(d.cursor, d.rest), prev.emitted + ([pkgs[j]] + d.emitted), prev.drops))
  {
    var x := pkgs[j];
    var c := prev.after.nextSeq;
    var buf := prev.after.buffer;
    assert seqOf(x) == c;
    var d := Drain(buf, c + 1);
    DrainShuffledOutput(items, begin, c, buf, x, prev.emitted);
    DrainShuffledPackages(seqOf, pkgs, j, c, buf);
  }

  /**
   * Draining after the expected item of a shuffled stream emits the next
   * items in order and keeps every remaining entry the item it is keyed by.
   */
  lemma DrainShuffledOutput<T>(items: seq<T>, begin: int, c: int, buf: map<int, T>, x: T, done: seq<T>)
    requires begin <= c < begin + |items| && x == items[c - begin]
    requires forall k | k in buf :: c < k < begin + |items| && buf[k] == items[k - begin]
    requires done == items[..c - begin]
    ensures var d := Drain(buf, c + 1);
            && c < d.cursor <= begin + |items|
            && done + ([x] + d.emitted) == items[..d.cursor - begin]
            && (forall k | k in d.rest :: d.cursor < k < begin + |items| && d.rest[k] == items[k - begin])
  {
    DrainSpec(buf, c + 1);
    var d := Drain(buf, c + 1);
    if d.cursor > c + 1 {
      assert d.emitted[d.cursor - c - 2] == buf[d.cursor - 1];
    }
    var e := [x] + d.emitted;
    forall i | 0 <= i < |e|
      ensures e[i] == items[c - begin + i]
    {
      if i > 0 {
        assert e[i] == d.emitted[i - 1] == buf[c + i];
      }
    }
    assert items[..d.cursor - begin] == items[..c - begin] + items[c - begin..d.cursor - begin];
  }

  /**
   * Draining after the expected item of a shuffled stream keeps every package
   * seen so far emitted or buffered, and every package still to come neither.
   */
  lemma DrainShuffledPackages<T>(seqOf: T -> int, pkgs: seq<T>, j: int, c: int, buf: map<int, T>)
    requires 0 <= j < |pkgs| && seqOf(pkgs[j]) == c
    requires forall m | 0 <= m < j :: seqOf(pkgs[m]) < c || seqOf(pkgs[m]) in buf
    requires forall m | j + 1 <= m < |pkgs| :: seqOf(pkgs[m]) > c && seqOf(pkgs[m]) !in buf
    ensures var d := Drain(buf, c + 1);
            && (forall m | 0 <= m < j + 1 :: seqOf(pkgs[m]) < d.cursor || seqOf(pkgs[m]) in d.rest)
            && (forall m | j + 1 <= m < |pkgs| :: seqOf(pkgs[m]) >= d.cursor && seqOf(pkgs[m]) !in d.rest)
  {
    DrainSpec(buf, c + 1);
  }

  /** After the first j packages of a shuffled stream, ShuffledProgress holds. */
  lemma {:induction false} ShuffledPrefix<T>(name: string, seqOf: T -> int, items: seq<T>, pkgs: seq<T>, begin: int, j: int)
    requires Shuffled(seqOf, items, pkgs, begin)
    requires 0 <= j <= |pkgs|
    ensures ShuffledProgress(seqOf, items, pkgs, begin, j, Feed(name, seqOf, Core(begin, map[]), pkgs[..j]))
    decreases j
  {
    if j == 0 {
      ShuffledFacts(seqOf, items, pkgs, begin);
      assert pkgs[..0] == [];
    } else {
      ShuffledPrefix(name, seqOf, items, pkgs, begin, j - 1);
      var prev := Feed(name, seqOf, Core(begin, map[]), pkgs[..j - 1]);
      ShuffledStep(name, seqOf, items, pkgs, begin, j - 1, prev);
      assert pkgs[..j][..j - 1] == pkgs[..j - 1];
      assert Feed(name, seqOf, Core(begin, map[]), pkgs[..j]) == Extend(name, seqOf, prev, pkgs[j - 1]);
    }
  }

  /**
   * Feeding any rearrangement of the items numbered begin, begin + 1, ...
   * from a cursor at begin delivers all of them in their original order,
   * drops none, and leaves the buffer empty and the cursor just past the last.
   */
  lemma ShuffledDelivered<T>(name: string, seqOf: T -> int, items: seq<T>, pkgs: seq<T>, begin: int)
    requires Numbered(seqOf, items, begin)
    requires multiset(pkgs) == multiset(items)
    ensures var r := Feed(name, seqOf, Core(begin, map[]), pkgs);
            && r.emitted == items
            && r.drops == []
            && r.after == Core(begin + |items|, map[])
  {
    ShuffledFacts(seqOf, items, pkgs, begin);
    ShuffledPrefix(name, seqOf, items, pkgs, begin, |pkgs|);
    assert pkgs[..|pkgs|] == pkgs;
    var r := Feed(name, seqOf, Core(begin, map[]), pkgs);
    var c := r.after.nextSeq;
    assert forall m | 0 <= m < |pkgs| :: seqOf(pkgs[m]) != c;
    if c < begin + |items| {
      ValueIsSent(seqOf, items, pkgs, begin, c - begin);
      assert false;
    }
    assert forall k :: k !in r.after.buffer;
    assert r.after.buffer == map[];
  }
}
