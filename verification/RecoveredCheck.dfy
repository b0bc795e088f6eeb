/** The recovered program passes the kernel's check of scratch memory when the original does. */
module RecoveredCheck {
  import opened Word
  import opened Bpf
  import opened Ebpf
  import opened Migration
  import opened Recovery
  import opened Folding
  import opened Relocation
  import opened ScratchCheck
  import opened Soundness

  /** Live groups keep their order. */
  lemma {:induction false} RankOrders(addr: seq<nat>, holes: set<nat>, g: nat, h: nat)
    requires g < h <= |addr| && Live(addr, holes, g)
    ensures Rank(addr, holes, g) < Rank(addr, holes, h)
  {
    hide LiveCount;
    JumpsToRank(addr, holes, g, h);
  }

  lemma RankUnique(addr: seq<nat>, holes: set<nat>, g: nat, h: nat)
    requires Live(addr, holes, g) && Live(addr, holes, h) && Rank(addr, holes, g) == Rank(addr, holes, h)
    ensures g == h
  {
    hide LiveCount;
    if g < h {
      RankOrders(addr, holes, g, h);
    } else if h < g {
      RankOrders(addr, holes, h, g);
    }
  }

  lemma NextRank(addr: seq<nat>, holes: set<nat>, g: nat, h: nat, x: nat)
    requires Live(addr, holes, g) && Live(addr, holes, h) && Rank(addr, holes, h) == Rank(addr, holes, g) + 1
    ensures g < h && (g < x < h ==> !Live(addr, holes, x))
  {
    hide LiveCount;
    if h < g {
      RankOrders(addr, holes, h, g);
    }
    if g < x < h && Live(addr, holes, x) {
      RankOrders(addr, holes, g, x);
      RankOrders(addr, holes, x, h);
    }
  }

  /** Where control goes in the recovered program it goes in the original one, perhaps over a
      group that was merged and writes nothing. */
  lemma {:induction false} EdgeBack(p: seq<Filter>, addr: seq<nat>, holes: set<nat>, out: seq<Filter>, g: nat, h: nat, k: nat)
    requires IsRecovered(p, addr, holes, out) && g < |p| && h < |p| && Live(addr, holes, g) && Live(addr, holes, h)
    requires var r := Rank(addr, holes, g); r < |out| && Leads(Decode(out[r]), r, Rank(addr, holes, h))
    requires Certain(p, h, k)
    ensures g < h && (Stores(Decode(out[Rank(addr, holes, g)]), k) || Certain(p, g, k))
  {
    hide Decode, LiveCount, Certain, IsRecovered;
    if Decode(p[g]).Goto? {
      GotoBack(p, addr, holes, out, g, h, k);
    } else if Decode(p[g]).Branch? {
      BranchBack(p, addr, holes, out, g, h, k);
    } else {
      PlainBack(p, addr, holes, out, g, h, k);
    }
  }

  lemma {:induction false} GotoBack(p: seq<Filter>, addr: seq<nat>, holes: set<nat>, out: seq<Filter>, g: nat, h: nat, k: nat)
    requires IsRecovered(p, addr, holes, out) && g < |p| && h < |p| && Live(addr, holes, g) && Live(addr, holes, h)
    requires var r := Rank(addr, holes, g); r < |out| && Leads(Decode(out[r]), r, Rank(addr, holes, h))
    requires Certain(p, h, k) && Decode(p[g]).Goto?
    ensures g < h && Certain(p, g, k)
  {
    hide Decode, LiveCount, Certain, ValidProgram;
    assert RecoveredAt(p, addr, holes, out, g);
    var t := g + 1 + Decode(p[g]).k;
    TargetIsLive(p, addr, holes, out, g, t);
    JumpsToRank(addr, holes, g, t);
    RankUnique(addr, holes, t, h);
    CertainNext(p, g, t, k);
  }

  lemma {:induction false} BranchBack(p: seq<Filter>, addr: seq<nat>, holes: set<nat>, out: seq<Filter>, g: nat, h: nat, k: nat)
    requires IsRecovered(p, addr, holes, out) && g < |p| && h < |p| && Live(addr, holes, g) && Live(addr, holes, h)
    requires var r := Rank(addr, holes, g); r < |out| && Leads(Decode(out[r]), r, Rank(addr, holes, h))
    requires Certain(p, h, k) && Decode(p[g]).Branch?
    ensures g < h && Certain(p, g, k)
  {
    hide Decode, LiveCount, Certain, ValidProgram;
    assert RecoveredAt(p, addr, holes, out, g);
    var i, r, f := Decode(p[g]), Rank(addr, holes, g), FalseTo(p, addr, holes, g);
    BranchLive(p, addr, holes, out, g);
    var t := g + 1 + i.jt;
    JumpsToRank(addr, holes, g, t);
    JumpsToRank(addr, holes, g, f);
    if Rank(addr, holes, h) == Rank(addr, holes, t) {
      RankUnique(addr, holes, t, h);
      CertainNext(p, g, t, k);
    } else {
      RankUnique(addr, holes, f, h);
      if i.jf == 0 && Merged(p, g + 1) && addr[g + 1] in holes {
        CertainNext(p, g + 1, f, k);
        CertainNext(p, g, g + 1, k);
      } else {
        CertainNext(p, g, f, k);
      }
    }
  }

  lemma {:induction false} PlainBack(p: seq<Filter>, addr: seq<nat>, holes: set<nat>, out: seq<Filter>, g: nat, h: nat, k: nat)
    requires IsRecovered(p, addr, holes, out) && g < |p| && h < |p| && Live(addr, holes, g) && Live(addr, holes, h)
    requires var r := Rank(addr, holes, g); r < |out| && Leads(Decode(out[r]), r, Rank(addr, holes, h))
    requires Certain(p, h, k) && !Decode(p[g]).Goto? && !Decode(p[g]).Branch?
    ensures g < h && (Stores(Decode(out[Rank(addr, holes, g)]), k) || Certain(p, g, k))
  {
    hide Decode, LiveCount, Certain, ValidProgram;
    assert RecoveredAt(p, addr, holes, out, g);
    NextRank(addr, holes, g, h, g + 1);
    NextRank(addr, holes, g, h, g + 2);
    if h > g + 1 {
      if !Merged(p, g + 1) {
        NotMergedIsLive(p, addr, holes, out, g + 1);
      }
      if h > g + 2 {
        NotMergedIsLive(p, addr, holes, out, g + 2);
      }
      CertainNext(p, g + 1, h, k);
      CertainNext(p, g, g + 1, k);
    } else {
      CertainNext(p, g, h, k);
    }
  }

  /** What is certain to be written at a live group is so in the recovered program. */
  lemma {:induction false} CertainKept(p: seq<Filter>, addr: seq<nat>, holes: set<nat>, out: seq<Filter>, g: nat, k: nat)
    requires IsRecovered(p, addr, holes, out) && |out| == LiveCount(addr, holes, 0, |p|)
    requires g < |p| && Live(addr, holes, g) && Certain(p, g, k)
    ensures Rank(addr, holes, g) < |out| && Certain(out, Rank(addr, holes, g), k)
    decreases g
  {
    hide Decode, LiveCount, Stores, Leads;
    LiveInside(p, addr, holes, out, g);
    FirstIsHead(p);
    LiveInside(p, addr, holes, out, 0);
    var to := Rank(addr, holes, g);
    RankOrders(addr, holes, 0, g);
    hide IsRecovered;
    forall r | 0 <= r < to && Leads(Decode(out[r]), r, to)
      ensures Stores(Decode(out[r]), k) || Certain(out, r, k)
    {
      var f := Unrank(addr, holes, |p|, r);
      EdgeBack(p, addr, holes, out, f, g, k);
      if !Stores(Decode(out[r]), k) {
        CertainKept(p, addr, holes, out, f, k);
      }
    }
  }

  lemma LiveInside(p: seq<Filter>, addr: seq<nat>, holes: set<nat>, out: seq<Filter>, g: nat)
    requires IsRecovered(p, addr, holes, out) && g < |p|
    ensures IsHead(p, g) ==> Live(addr, holes, g)
    ensures Live(addr, holes, g) ==> Rank(addr, holes, g) < |out|
    ensures Live(addr, holes, g) && Decode(out[Rank(addr, holes, g)]).LoadMem? ==>
              Decode(p[g]) == Decode(out[Rank(addr, holes, g)])
  {
    hide Decode, LiveCount;
    assert RecoveredAt(p, addr, holes, out, g);
  }

  lemma {:induction false} RecoveredChecked(p: seq<Filter>, addr: seq<nat>, holes: set<nat>, out: seq<Filter>)
    requires IsRecovered(p, addr, holes, out) && |out| == LiveCount(addr, holes, 0, |p|) && ScratchChecked(p)
    ensures ScratchChecked(out)
  {
    hide Decode, LiveCount, Certain;
    forall r | 0 <= r < |out|
      ensures LoadsCertain(out, r)
    {
      var g := Unrank(addr, holes, |p|, r);
      LiveInside(p, addr, holes, out, g);
      assert LoadsCertain(p, g);
      if Decode(out[r]).LoadMem? {
        CertainKept(p, addr, holes, out, g, Decode(p[g]).k);
      }
    }
  }

  /** The recovered program passes the check of scratch memory when the original one does. */
  lemma RecoveryIsChecked(p: seq<Filter>, addr: seq<nat>, e: seq<Insn>, e': seq<Insn>, c: seq<Filter>)
    requires IsMigration(p, addr, e) && Unfolded(e, e', 0) && |e| <= |c| && |e| < U32
    requires ScratchChecked(p)
    ensures Recover(e', |e|, c).Some? && ScratchChecked(Recover(e', |e|, c).value)
  {
    hide IsMigration, Recover, IsRecovered, ScratchChecked, LiveCount;
    var out, holes := Recovers(p, addr, e, e', c);
    RecoveredChecked(p, addr, holes, out);
  }
}
