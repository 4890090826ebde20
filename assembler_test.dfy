/**
 * The reassembler's own test scenario: the bytes of a message are cut into
 * numbered packages, the packages are shuffled, pushed through an engine
 * started at 0, and the receiver reads the message back.
 */
module AssemblerTest {
  import opened Wrappers
  import opened Assembler
  import AssemblerProperties

  /** A test package: a sequence number and one byte of payload (a char here). */
  datatype Package = Package(sequence: nat, data: char)

  /** The packages of a message, numbered from zero in message order. */
  function Packages(rawData: seq<char>): (ps: seq<Package>)
    ensures |ps| == |rawData|
    ensures forall i | 0 <= i < |ps| :: ps[i] == Package(i, rawData[i])
  {
    seq(|rawData|, i requires 0 <= i < |rawData| => Package(i, rawData[i]))
  }

  /** The payload bytes of packages, in the packages' order. */
  function Data(ps: seq<Package>): (data: seq<char>)
    ensures |data| == |ps|
    ensures forall i | 0 <= i < |ps| :: data[i] == ps[i].data
  {
    if ps == [] then [] else Data(ps[..|ps| - 1]) + [ps[|ps| - 1].data]
  }

  /** The sequence function of the test: a package's own sequence number. */
  function SequenceOf(p: Package): int
  {
    p.sequence
  }

  /**
   * Any shuffle of a message's packages, pushed one by one through a new
   * engine started at 0, comes out as the message itself, with no drops and
   * nothing left buffered.
   */
  method ReassembleShuffled(rawData: seq<char>, shuffled: seq<Package>) returns (received: seq<char>)
    requires multiset(shuffled) == multiset(Packages(rawData))
    ensures received == rawData
  {
    var created := NewReassembler("order", Some(SequenceOf));
    var assembler := created.value;
    assembler.Start(0);
    ghost var run: Run<Package> := Run(Core(0, map[]), [], []);
    for j := 0 to |shuffled|
      invariant assembler.Valid() && assembler.started
      invariant assembler.seqOf == SequenceOf && assembler.name == "order"
      invariant run == Feed("order", SequenceOf, Core(0, map[]), shuffled[..j])
      invariant Core(assembler.nextSeq, assembler.buffer) == run.after && assembler.outLog == run.emitted
    {
      ghost var st := Handle("order", SequenceOf, run.after, shuffled[j]);
      assembler.HandlePackage(shuffled[j]);
      assert shuffled[..j + 1][..j] == shuffled[..j];
      run := Run(st.after, run.emitted + st.emitted, run.drops + DropsOf(shuffled[j], st));
    }
    assert shuffled[..|shuffled|] == shuffled;
    ShuffledMessage(rawData, shuffled);
    received := Data(assembler.outLog);
  }

  /** Any shuffle of a message's packages is delivered as the message, with no drops and an empty buffer. */
  lemma ShuffledMessage(rawData: seq<char>, shuffled: seq<Package>)
    requires multiset(shuffled) == multiset(Packages(rawData))
    ensures var r := Feed("order", SequenceOf, Core(0, map[]), shuffled);
            && Data(r.emitted) == rawData && r.drops == [] && r.after == Core(|rawData|, map[])
  {
    AssemblerProperties.ShuffledDelivered("order", SequenceOf, Packages(rawData), shuffled, 0);
    var data := Data(Packages(rawData));
    assert data == rawData;
  }

  /** Sequence values 2, 0, 1 carrying 'C', 'A', 'B' come out as "ABC", with no drops. */
  lemma OutOfOrderExample()
    ensures var r := Feed("order", SequenceOf, Core(0, map[]),
                          [Package(2, 'C'), Package(0, 'A'), Package(1, 'B')]);
            && Data(r.emitted) == "ABC" && r.drops == [] && r.after == Core(3, map[])
  {
    var pkgs := [Package(2, 'C'), Package(0, 'A'), Package(1, 'B')];
    var items := Packages("ABC");
    assert items == [Package(0, 'A'), Package(1, 'B'), Package(2, 'C')];
    assert pkgs == [items[2]] + [items[0]] + [items[1]];
    ShuffledMessage("ABC", pkgs);
  }

  /** Sequence value 0 sent twice: the first copy is delivered, the second is dropped as stale against cursor 1. */
  lemma DuplicateExample()
    ensures var r := Feed("order", SequenceOf, Core(0, map[]), [Package(0, 'A'), Package(0, 'Z')]);
            && Data(r.emitted) == "A"
            && |r.drops| == 1 && r.drops[0].pkg == Package(0, 'Z')
            && r.drops[0].issue.id == Issues.PackageLessThanNextSeq && r.drops[0].issue.nextSeq == 1
  {
  }
}
