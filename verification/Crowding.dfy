/** A table in which a key can find no place although buckets are vacant: the displacements a key
    may have reach only some of more than 1024 buckets. */
module Crowding {
  import opened Word
  import opened Chains
  import opened Verstable

  const BITS := 12
  const BUCKETS := 4096

  /** Keys of different lengths. */
  function Key(i: nat): (k: string)
    ensures |k| == i
  {
    seq(i, _ => 'x')
  }

  /** Each key belongs where the one with its length is probed for from bucket 0; but the key of
      length one belongs in bucket 0, too, and is displaced from there. */
  function Place(i: nat): u64 {
    if i == 1 then 0 else Probe(0, i, BUCKETS)
  }

  function CrowdHash(): Hash {
    (k: string) => Place(|k|)
  }

  lemma {:induction false} BucketsArePower()
    ensures Pow2(BITS) == BUCKETS
  {
    assert Pow2(6) == 64;
  }

  /** The first `d` probes from bucket 0 are taken, and nothing else is. */
  ghost predicate Crowd(l: Layout, m: map<string, u16>, d: nat) {
    && l.Sized() && l.h == CrowdHash() && |l.meta| == BUCKETS && l.Chained() && l.Holds(m)
    && |m| == d && (forall k :: k in m ==> |k| < d)
    && (forall i :: 0 <= i < d ==> l.Occ(Probe(0, i, BUCKETS)))
    && (forall b :: 0 <= b < BUCKETS && l.Occ(b) ==> b in Probed(0, d, BUCKETS))
    && (d == 1 ==> l.slots[0].key == Key(0) && l.pos[0] == 0 && l.meta[0].disp == LIMIT)
    && (d > 1 ==> l.slots[1].key == Key(1) && !l.meta[1].inHome)
  }

  lemma FirstProbes()
    ensures Probe(0, 0, BUCKETS) == 0 && Probe(0, 1, BUCKETS) == 1
  {
  }

  /** No earlier probe is the one at `d`. */
  lemma NewProbe(l: Layout, m: map<string, u16>, d: nat)
    requires Crowd(l, m, d) && d < BUCKETS
    ensures !l.Occ(Probe(0, d, BUCKETS)) && (d > 1 ==> Probe(0, d, BUCKETS) != 1)
  {
    hide Probe, Layout.Chained, Layout.Holds;
    BucketsArePower();
    FirstProbes();
    var e := Probe(0, d, BUCKETS);
    forall i | 0 <= i < d
      ensures Probe(0, i, BUCKETS) != e
    {
      ProbesDiffer(0, i, d, BITS);
    }
    assert e !in Probed(0, d, BUCKETS);
  }

  lemma NewKeyAbsent(l: Layout, m: map<string, u16>, d: nat)
    requires Crowd(l, m, d)
    ensures Key(d) !in m && l.Absent(Key(d))
  {
    hide Layout.Chained, Layout.Holds, Layout.Absent;
    HeldAbsent(l, m, Key(d));
  }

  /** The key of length one is linked in behind the one of length zero. */
  lemma CrowdsBehind(l: Layout, m: map<string, u16>) returns (r: Layout)
    requires Crowd(l, m, 1)
    ensures Crowd(r, m[Key(1) := 0], 2)
  {
    hide Layout.Chained, Layout.Holds, Layout.Absent, Probe, HashFrag, Probed;
    NewProbe(l, m, 1);
    NewKeyAbsent(l, m, 1);
    FirstProbes();
    r := LinkedAfter(l, 0, 1, 1, Key(1), 0);
    LinkAfter(l, 0, 1, 1, Key(1), 0);
    LinkHolds(l, m, 0, 1, 1, Key(1), 0);
    CountGrows(m, Key(1), 0);
    ProbedNext(1);
  }

  /** Every other key begins a chain of its own. */
  lemma CrowdsHome(l: Layout, m: map<string, u16>, d: nat) returns (r: Layout)
    requires Crowd(l, m, d) && d < LIMIT && d != 1
    ensures Crowd(r, m[Key(d) := 0], d + 1)
  {
    hide Layout.Chained, Layout.Holds, Layout.Absent, Probe, HashFrag, Probed;
    NewProbe(l, m, d);
    NewKeyAbsent(l, m, d);
    FirstProbes();
    r := PlacedHome(l, Key(d), 0);
    PlaceHome(l, Key(d), 0);
    FillHolds(l, m, Probe(0, d, BUCKETS), Key(d), 0, Meta(HashFrag(l.h(Key(d))), true, LIMIT), 0);
    CountGrows(m, Key(d), 0);
    ProbedNext(d);
  }

  lemma ProbedNext(d: nat)
    ensures Probed(0, d + 1, BUCKETS) == Probed(0, d, BUCKETS) + {Probe(0, d, BUCKETS)}
  {
    hide Probe;
  }

  function NoCrowd(): Layout {
    Layout(CrowdHash(), seq(BUCKETS, _ => Bucket("", 0)), seq(BUCKETS, _ => VACANT), seq(BUCKETS, _ => 0))
  }

  lemma NoCrowdYet()
    ensures Crowd(NoCrowd(), map[], 0)
  {
    hide Layout.Chained, Layout.Holds;
    AllVacant(NoCrowd());
  }

  lemma {:induction false} Crowds(d: nat) returns (l: Layout, m: map<string, u16>)
    requires d <= LIMIT
    ensures Crowd(l, m, d)
  {
    hide Crowd;
    if d == 0 {
      l, m := NoCrowd(), map[];
      NoCrowdYet();
    } else {
      var l', m' := Crowds(d - 1);
      if d == 2 {
        l := CrowdsBehind(l', m');
      } else {
        l := CrowdsHome(l', m', d - 1);
      }
      m := m'[Key(d - 1) := 0];
    }
  }

  /** An eviction can fail in a table that is well linked and not half full: the key in bucket 1,
      which has to make way for one that belongs there, finds no other place. */
  lemma EvictionCanFail() returns (l: Layout, m: map<string, u16>)
    ensures l.Sized() && l.Chained() && l.Holds(m) && |l.meta| == BUCKETS == Pow2(BITS) && 2 * |m| < BUCKETS
    ensures l.Occ(1) && !l.meta[1].inHome && l.HomeFull(l.HomeAt(1))
  {
    hide Crowd, Layout.Chained, Layout.Holds, Layout.HomeFull;
    l, m := Crowds(LIMIT);
    BucketsArePower();
    CrowdIsFull(l, m);
  }

  lemma CrowdIsFull(l: Layout, m: map<string, u16>)
    requires Crowd(l, m, LIMIT)
    ensures l.Sized() && l.Chained() && l.Holds(m) && |l.meta| == BUCKETS && |m| == LIMIT
    ensures l.Occ(1) && !l.meta[1].inHome && l.HomeAt(1) == 0 && l.HomeFull(0)
  {
    hide Layout.Chained, Layout.Holds, Probe, Probed;
    FirstProbes();
    assert l.Occ(Probe(0, 1, BUCKETS));
    assert l.HomeAt(1) == Place(1) % BUCKETS;
  }
}
