/** The resolver's analysis of scratch memory is the kernel's: the words of an accepted program
    pass the kernel's check, so every word read was written earlier on the same run. */
module Scratch {
  import opened Bpf
  import opened Statements
  import opened Acceptance
  import opened Machine
  import opened Simulation
  import opened ScratchCheck

  /** Every scratch word a statement reads is written on all ways to it. */
  predicate ReadsWritten(src: Source) {
    forall c, k :: 0 < c < |src.code| && 0 <= k < MEMWORDS && ReadsMem(src.At(c), k) ==> src.Written(c, k)
  }

  /** Statement `c` of the source stands for word `c - 1` of the program. */
  predicate MeansWord(src: Source, p: seq<Filter>, c: nat)
    requires |src.code| >= 1 && |p| == src.Len() && 0 < c < |src.code|
  {
    src.Encodable(c) && InstrOf(src.Resolved(c)) == Some(Decode(p[c - 1]))
  }

  predicate MeansWords(src: Source, p: seq<Filter>) {
    && |src.code| >= 1 && |p| == src.Len()
    && forall c :: 0 < c < |src.code| ==> MeansWord(src, p, c)
  }

  /** A statement and its word lead to the same places and use the same scratch words. */
  lemma SameFlow(src: Source, p: seq<Filter>, c: nat)
    requires MeansWords(src, p) && 0 < c < |src.code|
    ensures var i := Decode(p[c - 1]);
            && (forall d :: d > 0 ==> (src.Flows(c, d) <==> Leads(i, c - 1, d - 1)))
            && (forall k :: WritesMem(src.At(c), k) <==> Stores(i, k))
            && (forall k :: 0 <= k < MEMWORDS ==> (ReadsMem(src.At(c), k) <==> i.LoadMem? && i.k == k))
            && (i.LoadMem? ==> i.k < MEMWORDS)
  {
    hide Decode;
    assert MeansWord(src, p, c);
    var b := src.At(c);
    match b
    case Assign(left, op, right) =>
    case Jump(_, _, _, _, _, _) =>
    case Return(_, _) =>
  }

  lemma {:induction false} WrittenIsCertain(src: Source, p: seq<Filter>, c: nat, k: nat)
    requires MeansWords(src, p) && 0 < c < |src.code|
    ensures src.Written(c, k) <==> Certain(p, c - 1, k)
    decreases c
  {
    hide Decode, Leads, Stores, Source.Flows, MeansWords, WritesMem;
    MeansLength(src, p);
    forall q | 1 <= q < c
      ensures src.Flows(q, c) <==> Leads(Decode(p[q - 1]), q - 1, c - 1)
      ensures WritesMem(src.At(q), k) <==> Stores(Decode(p[q - 1]), k)
      ensures src.Written(q, k) <==> Certain(p, q - 1, k)
    {
      SameFlow(src, p, q);
      WrittenIsCertain(src, p, q, k);
    }
    if src.Written(c, k) {
      forall q | 0 <= q < c - 1 && Leads(Decode(p[q]), q, c - 1)
        ensures Stores(Decode(p[q]), k) || Certain(p, q, k)
      {
        assert src.Flows(q + 1, c);
      }
    }
  }

  lemma MeansLength(src: Source, p: seq<Filter>)
    requires MeansWords(src, p)
    ensures |src.code| == |p| + 1
  {
  }

  /** The resolver's requirement on a source is the kernel's on its words. */
  lemma ReadsWrittenIsChecked(src: Source, p: seq<Filter>)
    requires MeansWords(src, p)
    ensures ReadsWritten(src) <==> ScratchChecked(p)
  {
    hide Decode, Leads, Stores, Source.Flows, MeansWords, Certain, Source.Written, ReadsMem;
    MeansLength(src, p);
    if ReadsWritten(src) {
      forall pc | 0 <= pc < |p|
        ensures LoadsCertain(p, pc)
      {
        var i := Decode(p[pc]);
        SameFlow(src, p, pc + 1);
        if i.LoadMem? {
          assert ReadsMem(src.At(pc + 1), i.k);
          WrittenIsCertain(src, p, pc + 1, i.k);
        }
      }
    }
    if ScratchChecked(p) {
      forall c, k | 0 < c < |src.code| && 0 <= k < MEMWORDS && ReadsMem(src.At(c), k)
        ensures src.Written(c, k)
      {
        SameFlow(src, p, c);
        assert LoadsCertain(p, c - 1);
        WrittenIsCertain(src, p, c, k);
      }
    }
  }

  lemma AcceptedReadsWritten(src: Source)
    requires src.Accepted()
    ensures ReadsWritten(src)
  {
    forall c, k | 0 < c < |src.code| && 0 <= k < MEMWORDS && ReadsMem(src.At(c), k)
      ensures src.Written(c, k)
    {
      assert src.Fine(c);
    }
  }

  lemma ProgramMeans(src: Source)
    requires src.Accepted()
    ensures MeansWords(src, Program(src))
  {
    hide Decode, InstrAt, Source.Fine;
    forall c | 0 < c < |src.code|
      ensures MeansWord(src, Program(src), c)
    {
      InstrAtValid(src, c);
      ProgramAt(src, c);
    }
  }

  /** The kernel finds no read of an unwritten scratch word in the words of an accepted program. */
  lemma AcceptedIsChecked(src: Source)
    requires src.Accepted()
    ensures ScratchChecked(Program(src))
  {
    hide Program, MeansWords, Source.Accepted, ScratchChecked, ReadsWritten;
    AcceptedReadsWritten(src);
    ProgramMeans(src);
    ReadsWrittenIsChecked(src, Program(src));
  }

  /** No run of an accepted program reads a scratch word it has not written. */
  lemma {:induction false} AcceptedReadsOnlyWritten(m: Machine, src: Source, s: State, d: Data)
    requires src.Accepted()
    ensures !ReadsUnwritten(m, Program(src), 0, s, d, {})
  {
    AcceptedIsValid(src);
    AcceptedIsChecked(src);
    NeverReadsUnwritten(m, Program(src), 0, s, d, {});
  }

  /** Leftover scratch memory never changes what an accepted program returns. */
  lemma {:induction false} AcceptedForgetsScratch(m: Machine, src: Source, mem: Mem, mem': Mem, d: Data)
    requires src.Accepted()
    ensures RunOn(m, Program(src), 0, State(0, 0, mem), d) == RunOn(m, Program(src), 0, State(0, 0, mem'), d)
  {
    AcceptedIsValid(src);
    AcceptedIsChecked(src);
    LeftoversDoNotMatter(m, Program(src), mem, mem', d);
  }
}
