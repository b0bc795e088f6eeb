/** The labels of a source in the label table: what the parser inserts and the resolver finds. */
module Labels {
  import opened Word
  import opened Bpf
  import opened Statements
  import opened Parser
  import opened Acceptance
  import opened Pipeline
  import opened Verstable
  import opened Chains

  /** The labels that the first `n` lines declare. */
  function Declares(lines: seq<Line>, n: nat): set<string>
    requires n <= |lines|
  {
    if n == 0 then {}
    else Declares(lines, n - 1) + (if lines[n - 1].labelDecl == "" then {} else {lines[n - 1].labelDecl})
  }

  lemma {:induction false} DeclaresLine(lines: seq<Line>, n: nat, t: nat)
    requires t < n <= |lines| && lines[t].labelDecl != ""
    ensures lines[t].labelDecl in Declares(lines, n)
  {
    if t < n - 1 {
      DeclaresLine(lines, n - 1, t);
    }
  }

  /** Labels inserted with their statement numbers, line by line, as the parser inserts them; not
      ok when memory is refused, which it is only for more labels than are safe. */
  method Insert(labels: LabelTable, lines: seq<Line>) returns (ok: bool)
    requires labels.t.Valid() && labels.t.model == map[] && labels.t.bucketCount <= SAFE_BUCKETS <= labels.t.limit
    requires |lines| < 4 * BPF_MAXINSNS + 2
    modifies labels.t, labels.t.buckets, labels.t.metadata
    ensures ok ==> labels.t.Valid() && TableOf(lines, labels.t.model, |lines|)
    ensures !ok ==> |Declares(lines, |lines|)| > SAFE_KEYS
  {
    hide TableOf, Duplicate, Count, Table.Valid, Table.Sound;
    var codeNr := 1;
    NothingDeclared(lines);
    for t := 0 to |lines|
      invariant labels.t.Valid() && TableOf(lines, labels.t.model, t) && codeNr == 1 + Count(lines, t)
      invariant labels.t.buckets == old(labels.t.buckets) || fresh(labels.t.buckets)
      invariant labels.t.metadata == old(labels.t.metadata) || fresh(labels.t.metadata)
      invariant |labels.t.model| <= SAFE_KEYS ==> labels.t.bucketCount <= SAFE_BUCKETS
    {
      ghost var before := labels.t.model;
      var l := lines[t].labelDecl;
      var r := 0;
      DeclaredBefore(lines, before, t);
      if l != "" {
        r := labels.InsertKey(l, codeNr);
        if r == -1 {
          KeysDeclared(lines, before, t);
          return false;
        }
        if r == 0 {
          CountGrows(before, l, codeNr);
        }
      }
      TableGrows(lines, before, labels.t.model, t);
      CountNext(lines, t);
      codeNr := codeNr + (if r == 1 || !lines[t].body.Empty? then 1 else 0);
    }
    ok := true;
  }

  lemma {:induction false} NothingDeclared(lines: seq<Line>)
    ensures TableOf(lines, map[], 0) && Count(lines, 0) == 0
  {
  }

  lemma CountNext(lines: seq<Line>, t: nat)
    requires t < |lines|
    ensures Count(lines, t + 1) == Count(lines, t) + (if Duplicate(lines, t) || !lines[t].body.Empty? then 1 else 0)
  {
    hide Duplicate;
  }

  /** A label that is not in the table is one more than the table has. */
  lemma {:induction false} KeysDeclared(lines: seq<Line>, table: map<string, u16>, n: nat)
    requires n < |lines| && TableOf(lines, table, n) && lines[n].labelDecl != "" && lines[n].labelDecl !in table
    ensures |Declares(lines, |lines|)| > |table|
  {
    hide Duplicate, Count, Declares;
    var all := Declares(lines, |lines|);
    forall l | l in table
      ensures l in all
    {
      assert DeclaredIn(lines, l, table[l], n);
      var t :| 0 <= t < n && FirstDeclares(lines, t, l);
      DeclaresLine(lines, |lines|, t);
    }
    DeclaresLine(lines, |lines|, n);
    assert |table.Keys + {lines[n].labelDecl}| == |table| + 1;
    SubsetSmaller(table.Keys + {lines[n].labelDecl}, all);
  }

  /** The table of a source: searching it gives what the source's labels mean to the resolver. */
  method OfSource(h: Hash, limit: nat, lines: seq<Line>, eofLabel: string) returns (labels: LabelTable, ok: bool)
    requires |lines| < 4 * BPF_MAXINSNS && SAFE_BUCKETS <= limit
    ensures ok ==> labels.t.Valid() && forall src :: IsSourceOf(src, lines, eofLabel) ==> src.table == labels.t.model
    ensures !ok ==> var all := WithEnd(lines, eofLabel); |Declares(all, |all|)| > SAFE_KEYS
  {
    hide IsSourceOf, TableOf, Table.Valid, Table.Sound;
    labels := new LabelTable(h, limit);
    var all := WithEnd(lines, eofLabel);
    ok := Insert(labels, all);
    if ok {
      forall src | IsSourceOf(src, lines, eofLabel)
        ensures src.table == labels.t.model
      {
        SourceTable(src, lines, eofLabel);
        TableUnique(all, src.table, labels.t.model);
      }
    }
  }

  lemma SourceTable(src: Source, lines: seq<Line>, eofLabel: string)
    requires |lines| < 4 * BPF_MAXINSNS && IsSourceOf(src, lines, eofLabel)
    ensures var all := WithEnd(lines, eofLabel); TableOf(all, src.table, |all|)
  {
  }

  /** What the resolver looks up for an arm. */
  method FindArm(labels: LabelTable, src: Source, l: Label, c: nat) returns (nr: nat)
    requires labels.t.Valid() && src.table == labels.t.model
    ensures nr == src.Dest(l, c)
  {
    if l.key == "" {
      return c + 1;
    }
    nr := labels.FindKey(l.key);
  }
}
