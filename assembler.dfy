/**
 * The reorder engine: items arrive in any order, each carrying a sequence
 * value, and leave strictly in sequence order. Early items wait in a side
 * buffer until the gap before them is filled; items behind the cursor are
 * dropped with an issue.
 *
 * The module first gives the reorder step as pure functions over the
 * engine's state (Drain, Handle, Feed), then the engine itself as a class
 * whose methods update its fields in place and are proved against those
 * functions.
 */
module Assembler {
  import opened Wrappers
  import opened Issues

  /** The error values the engine builds, kept by their arguments rather than their text. */
  datatype Cause =
    | SequenceFunctionNotSet(name: string)
    | SequenceLessThanNext(name: string, sequence: int, nextSeq: int)

  /** The issues the engine raises: cursor values are sequence values. */
  type EngineIssue = Issue<int, Cause>

  /** Which drop callback is installed: the default logger or one the caller supplied. */
  datatype Observer = DefaultLogger | Installed(handle: nat)

  /** An item dropped by the engine, with the issue that explains why. */
  datatype Dropped<T> = Dropped(pkg: T, issue: EngineIssue)

  /** One invocation of the drop callback: the callback called and the drop it was given. */
  datatype Notice<T> = Notice(observer: Observer, drop: Dropped<T>)

  /** The cursor and the side buffer: the whole state that reordering reads and writes. */
  datatype Core<T> = Core(nextSeq: int, buffer: map<int, T>)

  /** What draining the buffer from a cursor yields. */
  datatype Drained<T> = Drained(emitted: seq<T>, rest: map<int, T>, cursor: int)

  /** What handling one item yields: the new state, the items emitted, and the issue raised, if any. */
  datatype Step<T> = Step(after: Core<T>, emitted: seq<T>, issue: Option<EngineIssue>)

  /** What handling a whole sequence of items yields. */
  datatype Run<T> = Run(after: Core<T>, emitted: seq<T>, drops: seq<Dropped<T>>)

  /**
   * Emits the buffered items at cursor, cursor + 1, ..., removing each from
   * the buffer, and stops at the first missing key (see DrainSpec).
   */
  function Drain<T>(buffer: map<int, T>, cursor: int): Drained<T>
    decreases |buffer|
  {
    if cursor in buffer then
      var smaller := buffer - {cursor};
      assert smaller.Keys == buffer.Keys - {cursor};
      var d := Drain(smaller, cursor + 1);
      Drained([buffer[cursor]] + d.emitted, d.rest, d.cursor)
    else
      Drained([], buffer, cursor)
  }

  /**
   * Drain emits exactly the longest contiguous run of buffered successors,
   * in ascending order, removes just those entries, and stops with the
   * cursor on the first key the buffer lacks.
   */
  lemma {:induction false} DrainSpec<T>(buffer: map<int, T>, cursor: int)
    ensures var d := Drain(buffer, cursor);
            && d.cursor == cursor + |d.emitted|
            && (forall i | 0 <= i < |d.emitted| :: cursor + i in buffer && d.emitted[i] == buffer[cursor + i])
            && (forall k | cursor <= k < d.cursor :: k in buffer)
            && d.cursor !in buffer
            && (forall k :: k in d.rest <==> k in buffer && !(cursor <= k < d.cursor))
            && (forall k | k in d.rest :: d.rest[k] == buffer[k])
    decreases |buffer|
  {
    if cursor in buffer {
      var smaller := buffer - {cursor};
      assert smaller.Keys == buffer.Keys - {cursor};
      DrainSpec(smaller, cursor + 1);
      var d := Drain(smaller, cursor + 1);
      var emitted := [buffer[cursor]] + d.emitted;
      assert Drain(buffer, cursor) == Drained(emitted, d.rest, d.cursor);
      assert forall i | 1 <= i < |emitted| :: emitted[i] == d.emitted[i - 1];
      assert forall k | k in smaller :: k in buffer && smaller[k] == buffer[k];
    }
  }

  /** The reorder step for one item: drop it if stale, buffer it if early, emit and drain if expected. */
  function Handle<T>(name: string, seqOf: T -> int, core: Core<T>, pkg: T): Step<T>
  {
    var sequence := seqOf(pkg);
    if sequence < core.nextSeq then
      Step(core, [], Some(NewIssue(PackageLessThanNextSeq, core.nextSeq,
                                   SequenceLessThanNext(name, sequence, core.nextSeq))))
    else if sequence > core.nextSeq then
      Step(Core(core.nextSeq, core.buffer[sequence := pkg]), [], None)
    else
      var d := Drain(core.buffer, sequence + 1);
      Step(Core(d.cursor, d.rest), [pkg] + d.emitted, None)
  }

  /** The drops recorded by one step. */
  function DropsOf<T>(pkg: T, st: Step<T>): seq<Dropped<T>>
  {
    if st.issue.Some? then [Dropped(pkg, st.issue.value)] else []
  }

  /** Handles the items one after another, from the first to the last. */
  function Feed<T>(name: string, seqOf: T -> int, start: Core<T>, pkgs: seq<T>): Run<T>
    decreases |pkgs|
  {
    if pkgs == [] then
      Run(start, [], [])
    else
      var prev := Feed(name, seqOf, start, pkgs[..|pkgs| - 1]);
      var st := Handle(name, seqOf, prev.after, pkgs[|pkgs| - 1]);
      Run(st.after, prev.emitted + st.emitted, prev.drops + DropsOf(pkgs[|pkgs| - 1], st))
  }

  /**
   * The buffer invariant: every buffered key lies strictly beyond the cursor
   * and is the sequence value of the item stored under it.
   */
  predicate Ordered<T>(seqOf: T -> int, core: Core<T>)
  {
    forall k | k in core.buffer :: k > core.nextSeq && seqOf(core.buffer[k]) == k
  }

  /** The item sequence `items` carries the sequence values begin, begin + 1, ... in order. */
  predicate Numbered<T>(seqOf: T -> int, items: seq<T>, begin: int)
  {
    forall i | 0 <= i < |items| :: seqOf(items[i]) == begin + i
  }

  /**
   * The state of a started engine: the cursor has not moved back past begin,
   * the buffer invariant holds, and the output is exactly the items with
   * sequence values begin, ..., cursor - 1, in that order.
   */
  predicate Delivered<T>(seqOf: T -> int, begin: int, core: Core<T>, out: seq<T>)
  {
    && begin <= core.nextSeq
    && Ordered(seqOf, core)
    && |out| == core.nextSeq - begin
    && Numbered(seqOf, out, begin)
  }

  /**
   * Every callback invocation reports a stale item against a cursor value no
   * later than `cursor`, and the reported cursor values never decrease.
   */
  predicate StaleNotices<T>(seqOf: T -> int, notices: seq<Notice<T>>, cursor: int)
  {
    && (forall i | 0 <= i < |notices| ::
          && notices[i].drop.issue.id == PackageLessThanNextSeq
          && seqOf(notices[i].drop.pkg) < notices[i].drop.issue.nextSeq <= cursor)
    && (forall i, j | 0 <= i < j < |notices| :: notices[i].drop.issue.nextSeq <= notices[j].drop.issue.nextSeq)
  }

  /** The callback invocations caused by an issue: one if a callback is installed, none otherwise. */
  function NoticesFor<T>(callback: Option<Observer>, pkg: T, issue: Option<EngineIssue>): seq<Notice<T>>
  {
    if issue.Some? && callback.Some? then [Notice(callback.value, Dropped(pkg, issue.value))] else []
  }

  /**
   * The reorder engine. `outLog` stands for everything sent on the outbound
   * channel so far and `dropLog` for every call of the drop callback so far;
   * both only grow.
   */
  class Reassembler<T> {
    const name: string
    const seqOf: T -> int
    var dropCallback: Option<Observer>
    var buffer: map<int, T>
    var nextSeq: int
    var outLog: seq<T>
    var dropLog: seq<Notice<T>>

    /** The cursor value given to Start, and whether Start has run. */
    ghost var begin: int
    ghost var started: bool

    /**
     * Before Start nothing is buffered or emitted. Once started, the buffer
     * invariant holds; the output so far is exactly the items with sequence
     * values begin, ..., nextSeq - 1, in that order; and every callback
     * invocation reports a stale item, with cursor values that never decrease.
     */
    ghost predicate Valid()
      reads this
    {
      && (!started ==> buffer == map[] && outLog == [] && dropLog == [])
      && (started ==> Delivered(seqOf, begin, Core(nextSeq, buffer), outLog))
      && StaleNotices(seqOf, dropLog, nextSeq)
    }

    /** A fresh engine: empty buffer, zero cursor, the default logger as drop callback. */
    constructor (name: string, seqOf: T -> int)
      ensures this.name == name && this.seqOf == seqOf
      ensures dropCallback == Some(DefaultLogger)
      ensures buffer == map[] && nextSeq == 0 && outLog == [] && dropLog == []
      ensures !started && Valid()
    {
      this.name := name;
      this.seqOf := seqOf;
      dropCallback := Some(DefaultLogger);
      buffer := map[];
      nextSeq := 0;
      outLog := [];
      dropLog := [];
      begin := 0;
      started := false;
    }

    /** Sets the cursor to the first expected sequence value. */
    method Start(begin: int)
      requires Valid() && !started
      modifies this`nextSeq, this`begin, this`started
      ensures Valid() && started
      ensures nextSeq == begin && this.begin == begin
      ensures buffer == map[] && outLog == []
    {
      nextSeq := begin;
      this.begin := begin;
      started := true;
    }

    /** Installs a drop callback in place of the current one (None stands for nil). */
    method OnDrop(callback: Option<Observer>)
      modifies this`dropCallback
      ensures dropCallback == callback
      ensures old(Valid()) ==> Valid()
    {
      dropCallback := callback;
    }

    /**
     * Handles one arriving item. The new cursor and buffer are those of the
     * reorder step, the items it emits are appended to the output, and its
     * issue, if any, is passed to the installed callback.
     */
    method HandlePackage(pkg: T)
      requires Valid() && started
      modifies this`nextSeq, this`buffer, this`outLog, this`dropLog
      ensures Valid()
      ensures nextSeq >= old(nextSeq)
      ensures var st := Handle(name, seqOf, old(Core(nextSeq, buffer)), pkg);
              && Core(nextSeq, buffer) == st.after
              && outLog == old(outLog) + st.emitted
              && dropLog == old(dropLog) + NoticesFor(dropCallback, pkg, st.issue)
    {
      ghost var core := Core(nextSeq, buffer);
      ghost var st := Handle(name, seqOf, core, pkg);
      var sequence := seqOf(pkg);
      var issue: Option<EngineIssue> := None;
      if sequence < nextSeq {
        issue := Some(NewIssue(PackageLessThanNextSeq, nextSeq, SequenceLessThanNext(name, sequence, nextSeq)));
      } else if sequence > nextSeq {
        buffer := buffer[sequence := pkg];
      } else {
        outLog := outLog + [pkg];
        DrainBuffer();
        assert old(outLog) + [pkg] + Drain(core.buffer, sequence + 1).emitted
            == old(outLog) + st.emitted;
      }
      if issue.Some? && dropCallback.Some? {
        dropLog := dropLog + [Notice(dropCallback.value, Dropped(pkg, issue.value))];
      }
      StepKeepsDelivered(name, seqOf, begin, core, old(outLog), old(dropLog), dropCallback, pkg);
    }

    /**
     * The drain loop of the expected-item case: advances the cursor past the
     * item just emitted, then emits and removes buffered items for as long as
     * the buffer holds the cursor's key.
     */
    method DrainBuffer()
      modifies this`nextSeq, this`buffer, this`outLog
      ensures var d := Drain(old(buffer), old(nextSeq) + 1);
              && nextSeq == d.cursor && buffer == d.rest
              && outLog == old(outLog) + d.emitted
    {
      ghost var d := Drain(buffer, nextSeq + 1);
      while true
        invariant Drain(buffer, nextSeq + 1).rest == d.rest
        invariant Drain(buffer, nextSeq + 1).cursor == d.cursor
        invariant outLog + Drain(buffer, nextSeq + 1).emitted == old(outLog) + d.emitted
        decreases |buffer|
      {
        nextSeq := nextSeq + 1;
        if nextSeq in buffer {
          ghost var rest := Drain(buffer - {nextSeq}, nextSeq + 1);
          assert Drain(buffer, nextSeq) == Drained([buffer[nextSeq]] + rest.emitted, rest.rest, rest.cursor);
          assert outLog + ([buffer[nextSeq]] + rest.emitted) == (outLog + [buffer[nextSeq]]) + rest.emitted;
          outLog := outLog + [buffer[nextSeq]];
          buffer := buffer - {nextSeq};
        } else {
          break;
        }
      }
    }
  }

  /**
   * Builds an engine, failing when the sequence function is absent (None
   * stands for a nil function value).
   */
  method NewReassembler<T>(name: string, sequenceFunc: Option<T -> int>) returns (r: Result<Reassembler<T>, Cause>)
    ensures r.Failure? <==> sequenceFunc.None?
    ensures r.Failure? ==> r.error == SequenceFunctionNotSet(name)
    ensures r.Success? ==>
              && fresh(r.value)
              && r.value.name == name && r.value.seqOf == sequenceFunc.value
              && r.value.buffer == map[] && r.value.nextSeq == 0
              && r.value.outLog == [] && r.value.dropLog == []
              && r.value.dropCallback == Some(DefaultLogger)
              && !r.value.started && r.value.Valid()
  {
    if sequenceFunc.None? {
      return Failure(SequenceFunctionNotSet(name));
    }
    var engine := new Reassembler(name, sequenceFunc.value);
    return Success(engine);
  }

  /**
   * One reorder step keeps the buffer invariant, never moves the cursor
   * back, and emits exactly the items numbered from the old cursor up to the
   * new one; a stale drop carries the old cursor.
   */
  lemma StepKeepsOrder<T>(name: string, seqOf: T -> int, core: Core<T>, pkg: T)
    requires Ordered(seqOf, core)
    ensures var st := Handle(name, seqOf, core, pkg);
            && Ordered(seqOf, st.after)
            && st.after.nextSeq == core.nextSeq + |st.emitted|
            && Numbered(seqOf, st.emitted, core.nextSeq)
            && (st.issue.Some? ==>
                  st.issue.value.id == PackageLessThanNextSeq && st.issue.value.nextSeq == core.nextSeq &&
                  seqOf(pkg) < core.nextSeq)
  {
    var st := Handle(name, seqOf, core, pkg);
    var sequence := seqOf(pkg);
    if sequence == core.nextSeq {
      DrainSpec(core.buffer, sequence + 1);
      var d := Drain(core.buffer, sequence + 1);
      forall i | 0 <= i < |st.emitted|
        ensures seqOf(st.emitted[i]) == core.nextSeq + i
      {
        if i > 0 {
          assert st.emitted[i] == d.emitted[i - 1];
        }
      }
    }
  }

  /** One reorder step keeps a started engine's state and its callback log consistent. */
  lemma StepKeepsDelivered<T>(name: string, seqOf: T -> int, begin: int, core: Core<T>, out: seq<T>,
                              notices: seq<Notice<T>>, callback: Option<Observer>, pkg: T)
    requires Delivered(seqOf, begin, core, out) && StaleNotices(seqOf, notices, core.nextSeq)
    ensures var st := Handle(name, seqOf, core, pkg);
            && st.after.nextSeq >= core.nextSeq
            && Delivered(seqOf, begin, st.after, out + st.emitted)
            && StaleNotices(seqOf, notices + NoticesFor(callback, pkg, st.issue), st.after.nextSeq)
  {
    var st := Handle(name, seqOf, core, pkg);
    StepKeepsOrder(name, seqOf, core, pkg);
    var out' := out + st.emitted;
    forall i | 0 <= i < |out'|
      ensures seqOf(out'[i]) == begin + i
    {
      if i >= |out| {
        assert out'[i] == st.emitted[i - |out|];
      }
    }
  }
}
