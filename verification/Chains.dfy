/** The layout of the label table: buckets whose metadata link the keys of one home bucket into
    a chain of increasing displacement. */
module Chains {
  import opened Word

  /** The end of a chain, and the limit that displacements stay below. */
  const LIMIT := 0x7ff

  type Hash = string -> u64

  /** A bucket's metadata: four bits of the hash, whether the key is in its home bucket, and the
      displacement of the next key of the chain. */
  datatype Meta = Meta(frag: nat, inHome: bool, disp: nat)

  const VACANT := Meta(0, false, 0)

  datatype Bucket = Bucket(key: string, val: u16)

  function HashFrag(h: u64): nat {
    h / 0x1000_0000_0000_0000
  }

  function Quadratic(d: nat): nat {
    (d * d + d) / 2
  }

  /** The bucket at a displacement from a home bucket. */
  function Probe(home: nat, d: nat, n: nat): (b: nat)
    requires n > 0
    ensures b < n
  {
    (home + Quadratic(d)) % n
  }

  function Home(h: Hash, key: string, n: nat): (b: nat)
    requires n > 0
    ensures b < n
  {
    h(key) % n
  }

  /** The state of a table: what the arrays hold, and at which displacement from its home each
      key is. */
  datatype Layout = Layout(h: Hash, slots: seq<Bucket>, meta: seq<Meta>, pos: seq<nat>) {

    predicate Sized() {
      |slots| == |meta| == |pos| && |meta| > 0
    }

    predicate Occ(b: nat) {
      b < |meta| && meta[b] != VACANT
    }

    function HomeAt(b: nat): (r: nat)
      requires Sized() && b < |meta|
      ensures r < |meta|
    {
      Home(h, slots[b].key, |meta|)
    }

    /** The bucket that the link of `b` leads to. */
    function Next(b: nat): (r: nat)
      requires Sized() && b < |meta|
      ensures r < |meta|
    {
      Probe(HomeAt(b), meta[b].disp, |meta|)
    }

    /** A key is where its displacement from its home says. */
    predicate PlacedAt(b: nat)
      requires Sized()
    {
      Occ(b) ==>
        && meta[b].frag == HashFrag(h(slots[b].key))
        && 0 < meta[b].disp <= LIMIT
        && pos[b] < LIMIT
        && b == Probe(HomeAt(b), pos[b], |meta|)
        && (meta[b].inHome <==> pos[b] == 0)
    }

    /** A link leads to a key of the same home, farther out. */
    predicate LinkedAt(b: nat)
      requires Sized()
    {
      Occ(b) && meta[b].disp != LIMIT ==>
        Occ(Next(b)) && HomeAt(Next(b)) == HomeAt(b) && pos[Next(b)] == meta[b].disp && pos[b] < meta[b].disp
    }

    /** A link does not skip a key of the same home. */
    predicate OrderedAt(a: nat, b: nat)
      requires Sized()
    {
      Occ(a) && Occ(b) && HomeAt(a) == HomeAt(b) && pos[a] < pos[b] ==> meta[a].disp <= pos[b]
    }

    /** The home bucket of a key begins the chain. */
    predicate RootedAt(b: nat)
      requires Sized()
    {
      Occ(b) ==> Occ(HomeAt(b)) && meta[HomeAt(b)].inHome
    }

    predicate UniqueAt(a: nat, b: nat)
      requires Sized()
    {
      Occ(a) && Occ(b) && slots[a].key == slots[b].key ==> a == b
    }

    predicate Unique() {
      Sized() && forall a, b :: 0 <= a < |meta| && 0 <= b < |meta| ==> UniqueAt(a, b)
    }

    /** Every occupied bucket is in exactly one chain, which starts at its home bucket and has
        increasing displacements. */
    predicate Chained() {
      && Sized() && Unique()
      && (forall b :: 0 <= b < |meta| ==> PlacedAt(b) && LinkedAt(b) && RootedAt(b))
      && (forall a, b :: 0 <= a < |meta| && 0 <= b < |meta| ==> OrderedAt(a, b))
    }

    /** Key `k` with value `v` is in some bucket. */
    predicate Has(k: string, v: u16)
      requires Sized()
    {
      exists b :: 0 <= b < |meta| && Occ(b) && slots[b].key == k && slots[b].val == v
    }

    /** The buckets hold exactly the entries of a map. */
    predicate Holds(m: map<string, u16>) {
      && Sized()
      && (forall b :: 0 <= b < |meta| && Occ(b) ==> slots[b].key in m && m[slots[b].key] == slots[b].val)
      && (forall k :: k in m ==> Has(k, m[k]))
    }

    /** No key of the home bucket finds a place. */
    predicate HomeFull(home: nat)
      requires Sized()
    {
      forall d :: 1 <= d < LIMIT ==> Occ(Probe(home, d, |meta|))
    }

    predicate Absent(k: string)
      requires Sized()
    {
      forall b :: 0 <= b < |meta| && Occ(b) ==> slots[b].key != k
    }

    /** The bucket filled with a key. */
    function Fill(b: nat, key: string, val: u16, m: Meta, d: nat): (r: Layout)
      requires Sized() && b < |meta|
      ensures r.Sized() && |r.meta| == |meta| && r.h == h
    {
      Layout(h, slots[b := Bucket(key, val)], meta[b := m], pos[b := d])
    }

    function SetMeta(b: nat, m: Meta): (r: Layout)
      requires Sized() && b < |meta|
      ensures r.Sized() && |r.meta| == |meta| && r.h == h
    {
      this.(meta := meta[b := m])
    }
  }

  /** The facts about one bucket, or about two. */
  lemma ChainedAt(l: Layout, b: nat)
    requires l.Chained() && b < |l.meta|
    ensures l.PlacedAt(b) && l.LinkedAt(b) && l.RootedAt(b)
  {
  }

  lemma ChainedPair(l: Layout, a: nat, b: nat)
    requires l.Chained() && a < |l.meta| && b < |l.meta|
    ensures l.OrderedAt(a, b) && l.OrderedAt(b, a) && l.UniqueAt(a, b)
  {
    assert l.OrderedAt(a, b) && l.OrderedAt(b, a);
  }

  /** Two keys of one home are in different buckets only at different displacements. */
  lemma SamePlace(l: Layout, a: nat, b: nat)
    requires l.Chained() && l.Occ(a) && l.Occ(b) && l.HomeAt(a) == l.HomeAt(b) && l.pos[a] == l.pos[b]
    ensures a == b
  {
    ChainedAt(l, a);
    ChainedAt(l, b);
  }

  /** A vacant home bucket has no chain. */
  lemma NoChain(l: Layout, home: nat, b: nat)
    requires l.Chained() && home < |l.meta| && !(l.Occ(home) && l.meta[home].inHome) && l.Occ(b)
    ensures l.HomeAt(b) != home
  {
    ChainedAt(l, b);
  }

  /** A new chain of one key in its vacant home bucket. */
  function PlacedHome(l: Layout, key: string, val: u16): Layout
    requires l.Sized()
  {
    l.Fill(Home(l.h, key, |l.meta|), key, val, Meta(HashFrag(l.h(key)), true, LIMIT), 0)
  }

  lemma PlaceHome(l: Layout, key: string, val: u16)
    requires l.Sized() && l.Chained() && l.Absent(key) && !l.Occ(Home(l.h, key, |l.meta|))
    ensures PlacedHome(l, key, val).Chained()
  {
    hide Probe, Home, Layout.Chained, HashFrag;
    var home := Home(l.h, key, |l.meta|);
    var r := PlacedHome(l, key, val);
    ProbeZero(home, |l.meta|);
    ChainedUnique(l);
    forall b | 0 <= b < |r.meta|
      ensures r.PlacedAt(b) && r.LinkedAt(b) && r.RootedAt(b)
    {
      if b != home {
        ChainedAt(l, b);
      }
    }
    forall a, b | 0 <= a < |r.meta| && 0 <= b < |r.meta|
      ensures r.OrderedAt(a, b) && r.UniqueAt(a, b)
    {
      if a != home && b != home {
        ChainedPair(l, a, b);
      } else if l.Occ(b) {
        NoChain(l, home, b);
      } else if l.Occ(a) {
        NoChain(l, home, a);
      }
    }
    IntroChained(r);
  }

  lemma IntroChained(r: Layout)
    requires r.Sized()
    requires forall b :: 0 <= b < |r.meta| ==> r.PlacedAt(b) && r.LinkedAt(b) && r.RootedAt(b)
    requires forall a, b :: 0 <= a < |r.meta| && 0 <= b < |r.meta| ==> r.OrderedAt(a, b) && r.UniqueAt(a, b)
    ensures r.Chained()
  {
  }

  lemma ChainedUnique(l: Layout)
    requires l.Chained()
    ensures l.Unique() && l.Sized()
  {
  }

  lemma ProbeZero(home: nat, n: nat)
    requires home < n
    ensures Probe(home, 0, n) == home
  {
  }

  /** A key added to a chain at a displacement between two of its keys, or at its end. */
  function LinkedAfter(l: Layout, prev: nat, e: nat, d: nat, key: string, val: u16): Layout
    requires l.Sized() && prev < |l.meta| && e < |l.meta|
  {
    l.Fill(e, key, val, Meta(HashFrag(l.h(key)), false, l.meta[prev].disp), d).SetMeta(prev, l.meta[prev].(disp := d))
  }

  /** Where a key can be linked in. */
  predicate CanLink(l: Layout, prev: nat, e: nat, d: nat, key: string)
    requires l.Sized()
  {
    && l.Occ(prev) && e < |l.meta| && !l.Occ(e)
    && l.HomeAt(prev) == Home(l.h, key, |l.meta|)
    && l.pos[prev] < d < LIMIT && d < l.meta[prev].disp
    && e == Probe(Home(l.h, key, |l.meta|), d, |l.meta|)
  }

  lemma LinkAfter(l: Layout, prev: nat, e: nat, d: nat, key: string, val: u16)
    requires l.Sized() && l.Chained() && l.Absent(key) && CanLink(l, prev, e, d, key)
    ensures LinkedAfter(l, prev, e, d, key, val).Chained()
  {
    hide Probe, Home, Layout.Chained, HashFrag;
    var r := LinkedAfter(l, prev, e, d, key, val);
    ChainedAt(l, prev);
    forall b | 0 <= b < |r.meta|
      ensures r.PlacedAt(b) && r.LinkedAt(b) && r.RootedAt(b)
    {
      ChainedAt(l, b);
    }
    forall a, b | 0 <= a < |r.meta| && 0 <= b < |r.meta|
      ensures r.OrderedAt(a, b) && r.UniqueAt(a, b)
    {
      LinkOrders(l, prev, e, d, key, val, a, b);
    }
    IntroChained(r);
  }

  lemma LinkOrders(l: Layout, prev: nat, e: nat, d: nat, key: string, val: u16, a: nat, b: nat)
    requires l.Sized() && l.Chained() && l.Absent(key) && CanLink(l, prev, e, d, key)
    requires a < |l.meta| && b < |l.meta|
    ensures var r := LinkedAfter(l, prev, e, d, key, val); r.Sized() && r.OrderedAt(a, b) && r.UniqueAt(a, b)
  {
    hide Probe, Home, Layout.Chained, HashFrag;
    ChainedPair(l, a, b);
    ChainedPair(l, prev, a);
    ChainedPair(l, prev, b);
    if l.Occ(b) && l.HomeAt(b) == l.HomeAt(prev) && l.pos[b] == l.pos[prev] {
      SamePlace(l, b, prev);
    }
    if l.Occ(a) && l.HomeAt(a) == l.HomeAt(prev) && l.pos[a] == l.pos[prev] {
      SamePlace(l, a, prev);
    }
  }

  /** A key taken out of its chain by the link before it. */
  function Detached(l: Layout, prev: nat, b: nat): Layout
    requires l.Sized() && prev < |l.meta| && b < |l.meta|
  {
    l.SetMeta(prev, l.meta[prev].(disp := l.meta[b].disp)).SetMeta(b, VACANT)
  }

  lemma Detach(l: Layout, prev: nat, b: nat)
    requires l.Sized() && l.Chained() && l.Occ(prev) && l.meta[prev].disp != LIMIT && l.Next(prev) == b
    ensures Detached(l, prev, b).Chained()
  {
    hide Probe, Home, Layout.Chained, HashFrag;
    var r := Detached(l, prev, b);
    ChainedAt(l, prev);
    ChainedAt(l, b);
    forall c | 0 <= c < |r.meta|
      ensures r.PlacedAt(c) && r.LinkedAt(c) && r.RootedAt(c)
    {
      ChainedAt(l, c);
      if l.Occ(c) && l.meta[c].disp != LIMIT && l.Next(c) == b {
        OnePredecessor(l, prev, c);
      }
    }
    forall a, c | 0 <= a < |r.meta| && 0 <= c < |r.meta|
      ensures r.OrderedAt(a, c) && r.UniqueAt(a, c)
    {
      ChainedPair(l, a, c);
      ChainedPair(l, b, c);
      if l.Occ(c) && l.HomeAt(c) == l.HomeAt(b) && l.pos[c] == l.pos[b] {
        SamePlace(l, c, b);
      }
    }
    IntroChained(r);
  }

  /** Only one link leads to a bucket. */
  lemma OnePredecessor(l: Layout, a: nat, c: nat)
    requires l.Sized() && l.Chained() && l.Occ(a) && l.Occ(c)
    requires l.meta[a].disp != LIMIT && l.meta[c].disp != LIMIT && l.Next(a) == l.Next(c)
    ensures a == c
  {
    ChainedAt(l, a);
    ChainedAt(l, c);
    ChainedPair(l, a, c);
    if l.pos[a] == l.pos[c] {
      SamePlace(l, a, c);
    }
  }

  /** The only key of a chain taken out. */
  lemma RemoveSingle(l: Layout, b: nat)
    requires l.Sized() && l.Chained() && l.Occ(b) && l.meta[b].inHome && l.meta[b].disp == LIMIT
    ensures l.SetMeta(b, VACANT).Chained()
  {
    hide Probe, Home, Layout.Chained, HashFrag;
    var r := l.SetMeta(b, VACANT);
    ChainedAt(l, b);
    ProbeZero(l.HomeAt(b), |l.meta|);
    forall c | 0 <= c < |r.meta|
      ensures r.PlacedAt(c) && r.LinkedAt(c) && r.RootedAt(c)
    {
      ChainedAt(l, c);
      ChainedPair(l, b, c);
      if l.Occ(c) && l.HomeAt(c) == l.HomeAt(b) && l.pos[c] == 0 {
        SamePlace(l, c, b);
      }
    }
    forall a, c | 0 <= a < |r.meta| && 0 <= c < |r.meta|
      ensures r.OrderedAt(a, c) && r.UniqueAt(a, c)
    {
      ChainedPair(l, a, c);
    }
    IntroChained(r);
  }

  /** Another key of the same home put in place of a key. */
  function Rekeyed(l: Layout, b: nat, key: string, val: u16): Layout
    requires l.Sized() && b < |l.meta|
  {
    l.Fill(b, key, val, l.meta[b].(frag := HashFrag(l.h(key))), l.pos[b])
  }

  lemma Rekey(l: Layout, b: nat, key: string, val: u16)
    requires l.Sized() && l.Chained() && l.Occ(b) && Home(l.h, key, |l.meta|) == l.HomeAt(b)
    requires forall c :: 0 <= c < |l.meta| && l.Occ(c) && l.slots[c].key == key ==> c == b
    ensures Rekeyed(l, b, key, val).Chained()
  {
    hide Probe, Home, Layout.Chained, HashFrag;
    var r := Rekeyed(l, b, key, val);
    ChainedAt(l, b);
    forall c | 0 <= c < |r.meta|
      ensures r.PlacedAt(c) && r.LinkedAt(c) && r.RootedAt(c)
    {
      ChainedAt(l, c);
    }
    forall a, c | 0 <= a < |r.meta| && 0 <= c < |r.meta|
      ensures r.OrderedAt(a, c) && r.UniqueAt(a, c)
    {
      ChainedPair(l, a, c);
    }
    IntroChained(r);
  }

  /** A map held by the buckets knows which keys are absent. */
  lemma HeldAbsent(l: Layout, m: map<string, u16>, k: string)
    requires l.Sized() && l.Holds(m)
    ensures l.Absent(k) <==> k !in m
  {
    if k in m {
      assert l.Has(k, m[k]);
    }
  }

  lemma FillHolds(l: Layout, m: map<string, u16>, b: nat, key: string, val: u16, meta: Meta, d: nat)
    requires l.Sized() && l.Holds(m) && b < |l.meta| && !l.Occ(b) && meta != VACANT && l.Absent(key)
    ensures l.Fill(b, key, val, meta, d).Holds(m[key := val])
  {
    hide Layout.Absent;
    var r := l.Fill(b, key, val, meta, d);
    HeldAbsent(l, m, key);
    var m' := m[key := val];
    forall k | k in m'
      ensures r.Has(k, m'[k])
    {
      if k == key {
        assert r.Occ(b);
      } else {
        assert l.Has(k, m[k]);
        var c :| 0 <= c < |l.meta| && l.Occ(c) && l.slots[c].key == k && l.slots[c].val == m[k];
        assert r.Occ(c) && r.slots[c].key == k;
      }
    }
  }

  lemma RelinkHolds(l: Layout, m: map<string, u16>, b: nat, meta: Meta)
    requires l.Sized() && l.Holds(m) && l.Occ(b) && meta != VACANT
    ensures l.SetMeta(b, meta).Holds(m)
  {
    var r := l.SetMeta(b, meta);
    forall k | k in m
      ensures r.Has(k, m[k])
    {
      assert l.Has(k, m[k]);
      var c :| 0 <= c < |l.meta| && l.Occ(c) && l.slots[c].key == k && l.slots[c].val == m[k];
      assert r.Occ(c);
    }
  }

  lemma VacateHolds(l: Layout, m: map<string, u16>, b: nat)
    requires l.Unique() && l.Holds(m) && l.Occ(b)
    ensures l.SetMeta(b, VACANT).Holds(m - {l.slots[b].key})
  {
    var r := l.SetMeta(b, VACANT);
    forall k | k in m && k != l.slots[b].key
      ensures r.Has(k, m[k])
    {
      assert l.Has(k, m[k]);
      var c :| 0 <= c < |l.meta| && l.Occ(c) && l.slots[c].key == k && l.slots[c].val == m[k];
      assert r.Occ(c);
    }
    forall c | 0 <= c < |l.meta| && r.Occ(c)
      ensures r.slots[c].key != l.slots[b].key
    {
      assert l.UniqueAt(c, b);
    }
  }

  lemma RekeyHolds(l: Layout, m: map<string, u16>, b: nat, key: string, val: u16)
    requires l.Unique() && l.Holds(m) && l.Occ(b)
    requires forall c :: 0 <= c < |l.meta| && l.Occ(c) && l.slots[c].key == key ==> c == b
    requires l.meta[b].disp > 0
    ensures Rekeyed(l, b, key, val).Holds((m - {l.slots[b].key})[key := val])
  {
    hide HashFrag;
    var v := l.SetMeta(b, VACANT);
    VacateHolds(l, m, b);
    assert v.Absent(key);
    FillHolds(v, m - {l.slots[b].key}, b, key, val, l.meta[b].(frag := HashFrag(l.h(key))), l.pos[b]);
    assert v.Fill(b, key, val, l.meta[b].(frag := HashFrag(l.h(key))), l.pos[b]) == Rekeyed(l, b, key, val);
  }

  // Quadratic probing.

  /** An odd factor has no part in the powers of two that divide a product. */
  lemma {:induction false} OddCancels(a: nat, b: nat, product: nat, m: nat)
    requires product == a * b && a % 2 == 1 && product % Pow2(m) == 0
    ensures b % Pow2(m) == 0
  {
    if m > 0 {
      hide Pow2;
      DoublePow2(m - 1);
      HalfMultiple(product, Pow2(m - 1));
      OddTimesOdd(a, b);
      HalfProduct(a, b);
      OddCancels(a, b / 2, product / 2, m - 1);
      TwiceMultiple(b / 2, Pow2(m - 1));
    }
  }

  lemma HalfMultiple(a: nat, n: nat)
    requires n > 0 && a % (2 * n) == 0
    ensures a % 2 == 0 && (a / 2) % n == 0
  {
    var q := a / (2 * n);
    assert a == 2 * (n * q) by {
      assert a == (2 * n) * q == 2 * (n * q);
    }
    MultipleMod(n, q);
  }

  lemma HalfProduct(a: nat, b: nat)
    requires b % 2 == 0
    ensures (a * b) / 2 == a * (b / 2)
  {
    assert a * b == 2 * (a * (b / 2));
  }

  lemma OddTimesOdd(a: nat, b: nat)
    requires a % 2 == 1
    ensures (a * b) % 2 == b % 2
  {
    var x := a / 2;
    assert a * b == (2 * x + 1) * b == 2 * (x * b) + b;
  }

  lemma MultipleMod(p: nat, q: nat)
    requires p > 0
    ensures (p * q) % p == 0
  {
    DivisionUnique(p * q, p, q);
  }

  lemma DivisionUnique(a: int, p: nat, q: int)
    requires p > 0 && a == p * q
    ensures a % p == 0
  {
    var r := a / p;
    assert a == p * r + a % p;
    assert p * (q - r) == a % p;
    Multiples(p, q - r);
  }

  lemma Multiples(p: int, x: int)
    requires p > 0
    ensures x >= 1 ==> p * x >= p
    ensures x <= -1 ==> p * x <= -p
  {
  }

  /** Two displacements below the number of buckets, a power of two, probe different buckets. */
  lemma {:induction false} ProbesDiffer(home: nat, i: nat, j: nat, m: nat)
    requires i < j < Pow2(m)
    ensures Probe(home, i, Pow2(m)) != Probe(home, j, Pow2(m))
  {
    hide Quadratic, Pow2;
    var n := Pow2(m);
    QuadraticsDiffer(i, j);
    if Probe(home, i, n) == Probe(home, j, n) {
      SameResidue(home + Quadratic(i), home + Quadratic(j), n);
      OddFactors(j - i, i + j + 1, Quadratic(j) - Quadratic(i), m);
    }
  }

  /** Factors of different parity that are both small have no large power of two in their product. */
  lemma {:induction false} OddFactors(x: nat, y: nat, diff: nat, m: nat)
    requires x * y == 2 * diff && (x + y) % 2 == 1
    requires 0 < x < 2 * Pow2(m) && 0 < y < 2 * Pow2(m)
    ensures diff % Pow2(m) != 0
  {
    hide Pow2;
    if x % 2 == 1 {
      OddFactor(x, y, diff, m);
    } else {
      Commutes(x, y);
      OddFactor(y, x, diff, m);
    }
  }

  lemma Commutes(x: nat, y: nat)
    ensures x * y == y * x
  {
  }

  lemma {:induction false} OddFactor(x: nat, y: nat, diff: nat, m: nat)
    requires x * y == 2 * diff && x % 2 == 1 && 0 < y < 2 * Pow2(m)
    ensures diff % Pow2(m) != 0
  {
    hide Pow2;
    if diff % Pow2(m) == 0 {
      TwiceMultiple(diff, Pow2(m));
      DoublePow2(m);
      OddCancels(x, y, 2 * diff, m + 1);
      SmallMultiple(y, Pow2(m + 1));
    }
  }

  lemma TwiceMultiple(a: nat, n: nat)
    requires n > 0 && a % n == 0
    ensures (2 * a) % (2 * n) == 0
  {
    var q := a / n;
    assert a == n * q;
    assert 2 * a == 2 * n * q;
    MultipleMod(2 * n, q);
  }

  lemma QuadraticsDiffer(i: nat, j: nat)
    requires i < j
    ensures Quadratic(i) <= Quadratic(j)
    ensures (j - i) * (i + j + 1) == 2 * (Quadratic(j) - Quadratic(i))
  {
    QuadraticDouble(i);
    QuadraticDouble(j);
    hide Quadratic;
    assert (j - i) * (i + j + 1) == j * j + j - i * i - i;
    assert i * i <= j * j;
  }

  lemma {:induction false} QuadraticDouble(d: nat)
    ensures 2 * Quadratic(d) == d * d + d
  {
    if d > 0 {
      QuadraticDouble(d - 1);
      assert d * d + d == (d - 1) * (d - 1) + (d - 1) + 2 * d;
    }
  }

  lemma SameResidue(a: nat, b: nat, n: nat)
    requires n > 0 && a <= b && a % n == b % n
    ensures (b - a) % n == 0
  {
    var p, q := a / n, b / n;
    assert b - a == n * q - n * p == n * (q - p);
    DivisionUnique(b - a, n, q - p);
  }

  lemma SmallMultiple(x: nat, n: nat)
    requires n > 0 && x % n == 0
    ensures x == 0 || x >= n
  {
  }

  /** The buckets probed at the displacements below `d`. */
  function Probed(home: nat, d: nat, n: nat): (s: set<nat>)
    requires n > 0
  {
    set i | 0 <= i < d :: Probe(home, i, n)
  }

  lemma {:induction false} ProbedCount(home: nat, d: nat, m: nat)
    requires d <= Pow2(m)
    ensures |Probed(home, d, Pow2(m))| == d
  {
    hide Probe;
    if d == 0 {
      assert Probed(home, 0, Pow2(m)) == {};
    } else {
      ProbedCount(home, d - 1, m);
      forall i | 0 <= i < d - 1
        ensures Probe(home, i, Pow2(m)) != Probe(home, d - 1, Pow2(m))
      {
        ProbesDiffer(home, i, d - 1, m);
      }
      assert Probed(home, d, Pow2(m)) == Probed(home, d - 1, Pow2(m)) + {Probe(home, d - 1, Pow2(m))};
    }
  }

  /** Every bucket is probed at some displacement below the number of buckets. */
  lemma {:induction false} ProbesAll(home: nat, b: nat, m: nat)
    requires b < Pow2(m)
    ensures exists d :: 0 <= d < Pow2(m) && Probe(home, d, Pow2(m)) == b
  {
    hide Probe;
    var n := Pow2(m);
    ProbedCount(home, n, m);
    SubsetOfSize(Probed(home, n, n), UpTo(n));
    assert b in Probed(home, n, n);
  }

  function UpTo(n: nat): (s: set<nat>)
    ensures forall b: nat :: b in s <==> b < n
    ensures |s| == n
  {
    if n == 0 then {}
    else
      assert n - 1 !in UpTo(n - 1);
      UpTo(n - 1) + {n - 1}
  }

  lemma SubsetOfSize(s: set<nat>, t: set<nat>)
    requires s <= t && |s| == |t|
    ensures s == t
  {
    if t - s != {} {
      var x :| x in t - s;
      SubsetSmaller(s, t - {x});
    }
  }

  lemma {:induction false} SubsetSmaller<T>(s: set<T>, t: set<T>)
    requires s <= t
    ensures |s| <= |t|
    decreases s
  {
    if x :| x in s {
      SubsetSmaller(s - {x}, t - {x});
    }
  }

  /** With a vacant bucket, a table of at most 1024 buckets has one that a key of any home can
      be placed in. */
  lemma {:induction false} VacancyFound(l: Layout, home: nat, e: nat, m: nat)
    requires l.Sized() && |l.meta| == Pow2(m) <= 1024
    requires home < |l.meta| && l.Occ(home) && e < |l.meta| && !l.Occ(e)
    ensures exists d :: 1 <= d < LIMIT && !l.Occ(Probe(home, d, |l.meta|))
  {
    ProbesAll(home, e, m);
    var d :| 0 <= d < Pow2(m) && Probe(home, d, Pow2(m)) == e;
    ProbeZero(home, |l.meta|);
  }

  /** The keys in the first `n` buckets. */
  function KeysBefore(l: Layout, n: nat): set<string>
    requires n <= |l.slots|
  {
    if n == 0 then {} else KeysBefore(l, n - 1) + {l.slots[n - 1].key}
  }

  lemma {:induction false} KeysBeforeSize(l: Layout, n: nat)
    requires n <= |l.slots|
    ensures |KeysBefore(l, n)| <= n
  {
    if n > 0 {
      KeysBeforeSize(l, n - 1);
    }
  }

  lemma {:induction false} KeyBefore(l: Layout, n: nat, b: nat)
    requires b < n <= |l.slots|
    ensures l.slots[b].key in KeysBefore(l, n)
  {
    if b < n - 1 {
      KeyBefore(l, n - 1, b);
    }
  }

  lemma {:induction false} SomeVacant(l: Layout, m: map<string, u16>, n: nat)
    requires l.Sized() && l.Unique() && l.Holds(m) && n <= |l.meta| && forall b :: 0 <= b < n ==> l.Occ(b)
    ensures |KeysBefore(l, n)| == n && KeysBefore(l, n) <= m.Keys
  {
    hide Layout.Holds, Layout.Unique, Layout.Occ;
    if n > 0 {
      SomeVacant(l, m, n - 1);
      HeldKey(l, m, n - 1);
      NewKey(l, n);
    }
  }

  lemma NewKey(l: Layout, n: nat)
    requires l.Unique() && 0 < n <= |l.meta| && forall b :: 0 <= b < n ==> l.Occ(b)
    ensures l.slots[n - 1].key !in KeysBefore(l, n - 1)
  {
    forall b | 0 <= b < n - 1
      ensures l.slots[b].key != l.slots[n - 1].key
    {
      assert l.UniqueAt(b, n - 1);
    }
    OtherKeys(l, n - 1, l.slots[n - 1].key);
  }

  lemma {:induction false} OtherKeys(l: Layout, n: nat, k: string)
    requires n <= |l.slots| && forall b :: 0 <= b < n ==> l.slots[b].key != k
    ensures k !in KeysBefore(l, n)
  {
    if n > 0 {
      OtherKeys(l, n - 1, k);
    }
  }

  lemma HeldKey(l: Layout, m: map<string, u16>, b: nat)
    requires l.Holds(m) && b < |l.meta| && l.Occ(b)
    ensures l.slots[b].key in m
  {
  }

  /** Fewer keys than buckets leave a bucket vacant. */
  lemma HasVacancy(l: Layout, m: map<string, u16>)
    requires l.Unique() && l.Holds(m) && |m| < |l.meta|
    ensures exists e :: 0 <= e < |l.meta| && !l.Occ(e)
  {
    if forall b :: 0 <= b < |l.meta| ==> l.Occ(b) {
      SomeVacant(l, m, |l.meta|);
      SubsetSmaller(KeysBefore(l, |l.meta|), m.Keys);
    }
  }
}
