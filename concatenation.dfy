/** `CharacterMatrix.concatenate`: the matrices, all on one taxon namespace
    and each with one sequence per taxon of equal length, are joined column
    block by column block into a new matrix, and each block is recorded as a
    character subset. */
module Concatenation {
  import opened Wrappers
  import opened OrderedMaps
  import opened Text
  import opened Taxa
  import opened States
  import opened Sequences
  import opened Subsets
  import opened Registry
  import opened CellMaps
  import opened Matrices

  /** What extending an empty matrix by each part in turn leaves. */
  function Joined(parts: seq<Contents>): Contents {
    if parts == [] then map[]
    else Merged(ExtendAll, Joined(parts[..|parts| - 1]), parts[|parts| - 1])
  }

  /** The cells of `t` in each part, one after the other. */
  function Row(parts: seq<Contents>, t: Taxon): seq<Cell>
    requires forall p | p in parts :: t in p
  {
    if parts == [] then []
    else Row(parts[..|parts| - 1], t) + parts[|parts| - 1][t]
  }

  /** The first column of block `j`: the widths of the blocks before it, summed. */
  function Offset(widths: seq<nat>, j: nat): nat
    requires j <= |widths|
  {
    if j == 0 then 0 else Offset(widths, j - 1) + widths[j - 1]
  }

  /** The subset recording block `j`, under the label `name`. */
  function Block(name: string, widths: seq<nat>, j: nat): CharacterSubset
    requires j < |widths|
  {
    CharacterSubset(name, RangeSet(Offset(widths, j), Offset(widths, j) + widths[j]))
  }

  /** Each part has the taxa `keys`, and in part `j` every sequence has
      `widths[j]` cells. */
  predicate Blocks(parts: seq<Contents>, widths: seq<nat>, keys: set<Taxon>) {
    |widths| >= |parts| && forall j | 0 <= j < |parts| :: parts[j].Keys == keys && AllOfLength(parts[j], widths[j])
  }

  lemma {:induction false} JoinedKeys(parts: seq<Contents>, keys: set<Taxon>)
    requires parts != [] && forall p | p in parts :: p.Keys == keys
    ensures Joined(parts).Keys == keys
  {
    var n := |parts| - 1;
    if n > 0 {
      JoinedKeys(parts[..n], keys);
    }
  }

  /** Joining gives each taxon the concatenation of its sequences. */
  lemma {:induction false} JoinedRow(parts: seq<Contents>, t: Taxon)
    requires parts != [] && forall p | p in parts :: t in p
    ensures t in Joined(parts) && Joined(parts)[t] == Row(parts, t)
  {
    var n := |parts| - 1;
    if n > 0 {
      JoinedRow(parts[..n], t);
    } else {
      assert Joined(parts[..n]) == map[];
    }
  }

  /** Every part holds cells for `t`, `widths[k]` of them in part `k`. */
  predicate Lined(parts: seq<Contents>, widths: seq<nat>, t: Taxon) {
    |widths| >= |parts| && forall k | 0 <= k < |parts| :: t in parts[k] && |parts[k][t]| == widths[k]
  }

  lemma LinedFromBlocks(parts: seq<Contents>, widths: seq<nat>, keys: set<Taxon>, t: Taxon)
    requires Blocks(parts, widths, keys) && t in keys
    ensures Lined(parts, widths, t)
  {
    forall k | 0 <= k < |parts|
      ensures t in parts[k] && |parts[k][t]| == widths[k]
    {
      assert parts[k].Keys == keys && AllOfLength(parts[k], widths[k]);
    }
  }

  /** A row is the blocks laid end to end: block `j` sits at
      `Offset(widths, j)`. */
  lemma {:induction false} RowBlocks(parts: seq<Contents>, widths: seq<nat>, t: Taxon, j: nat)
    requires Lined(parts, widths, t) && j < |parts|
    ensures forall p | p in parts :: t in p
    ensures |Row(parts, t)| == Offset(widths, |parts|)
    ensures Offset(widths, j) + widths[j] <= |Row(parts, t)|
    ensures Row(parts, t)[Offset(widths, j)..Offset(widths, j) + widths[j]] == parts[j][t]
  {
    var n := |parts| - 1;
    var init := parts[..n];
    assert Lined(init, widths, t);
    RowLength(parts, widths, t);
    RowLength(init, widths, t);
    var front, last := Row(init, t), parts[n][t];
    assert Row(parts, t) == front + last;
    if j < n {
      RowBlocks(init, widths, t, j);
      OffsetMonotone(widths, j + 1, n);
      assert Row(parts, t)[..|front|] == front;
    }
  }

  lemma {:induction false} RowLength(parts: seq<Contents>, widths: seq<nat>, t: Taxon)
    requires Lined(parts, widths, t)
    ensures forall p | p in parts :: t in p
    ensures |Row(parts, t)| == Offset(widths, |parts|)
  {
    if parts != [] {
      var n := |parts| - 1;
      assert Lined(parts[..n], widths, t);
      RowLength(parts[..n], widths, t);
    }
  }

  /** The subset of block `j` cut out of a joined sequence gives back the
      sequence part `j` held. */
  lemma BlockRecoversPart(parts: seq<Contents>, widths: seq<nat>, keys: set<Taxon>, t: Taxon, j: nat)
    requires Blocks(parts, widths, keys) && t in keys && j < |parts|
    ensures t in Joined(parts)
    ensures Select(Joined(parts)[t], Block("", widths, j).indices) == parts[j][t]
  {
    LinedFromBlocks(parts, widths, keys, t);
    RowBlocks(parts, widths, t, j);
    JoinedRow(parts, t);
    SelectBlock(parts, widths, t, j);
  }

  lemma SelectBlock(parts: seq<Contents>, widths: seq<nat>, t: Taxon, j: nat)
    requires Lined(parts, widths, t) && j < |parts|
    ensures forall p | p in parts :: t in p
    ensures Select(Row(parts, t), Block("", widths, j).indices) == parts[j][t]
  {
    RowBlocks(parts, widths, t, j);
    SelectRange(Row(parts, t), Offset(widths, j), Offset(widths, j) + widths[j]);
  }

  lemma {:induction false} OffsetMonotone(widths: seq<nat>, a: nat, b: nat)
    requires a <= b <= |widths|
    ensures Offset(widths, a) <= Offset(widths, b)
    decreases b
  {
    if a < b {
      OffsetMonotone(widths, a, b - 1);
    }
  }

  /** The blocks of two different parts share no column, and each block
      starts where the one before it ends. */
  lemma BlocksDisjoint(widths: seq<nat>, a: nat, b: nat)
    requires a < b < |widths|
    ensures Block("", widths, a).indices * Block("", widths, b).indices == {}
    ensures Offset(widths, a) + widths[a] == Offset(widths, a + 1)
  {
    OffsetMonotone(widths, a + 1, b);
  }

  lemma OffsetSnoc(widths: seq<nat>, w: nat, j: nat)
    requires j <= |widths|
    ensures Offset(widths + [w], j) == Offset(widths, j)
    decreases j
  {
    if j > 0 {
      OffsetSnoc(widths, w, j - 1);
    }
  }

  /** The label the subset of part `cidx` is derived from: the matrix's own
      label, else `locus%03d` of its position. */
  function BaseLabel(name: Option<string>, cidx: nat): string {
    if name.Some? then name.value else LocusLabel(cidx)
  }

  /** The folded labels of `labels`: the keys a case-insensitive dict holding
      them files them under. */
  function FoldSet(labels: seq<string>): set<string> {
    set j | 0 <= j < |labels| :: Fold(labels[j])
  }

  lemma FoldSetSnoc(labels: seq<string>, name: string)
    ensures FoldSet(labels + [name]) == FoldSet(labels) + {Fold(name)}
  {
    var l := labels + [name];
    assert l[|labels|] == name;
    forall x | x in FoldSet(labels) ensures x in FoldSet(l) {
      var j :| 0 <= j < |labels| && x == Fold(labels[j]);
      assert l[j] == labels[j];
    }
  }

  /** The label `concatenate` means to give the block derived from `base`
      when `earlier` are the labels already given: `base` itself when no
      earlier label matches it ignoring case, otherwise the first of
      `base_002`, `base_003`, ... that matches none. */
  ghost predicate ChosenLabel(base: string, earlier: seq<string>, name: string) {
    && Fold(name) !in FoldSet(earlier)
    && (Fold(base) !in FoldSet(earlier) ==> name == base)
    && (Fold(base) in FoldSet(earlier) ==>
          exists i | 2 <= i :: name == Candidate(base, i) &&
            forall j | 2 <= j < i :: Fold(Candidate(base, j)) in FoldSet(earlier))
  }

  /** Subset `j` of the table, found by its label `labels[j]`, is block `j`. */
  ghost predicate SubsetsUpTo(table: SubsetTable, labels: seq<string>, widths: seq<nat>) {
    |labels| == |widths| &&
    forall j | 0 <= j < |labels| :: FindSubset(table, labels[j]) == Some(Block(labels[j], widths, j))
  }

  lemma SubsetsStep(table: SubsetTable, labels: seq<string>, widths: seq<nat>, name: string, w: nat)
    requires SubsetsUpTo(table, labels, widths) && !HasLabel(table, name)
    ensures AddSubset(table, Block(name, widths + [w], |widths|)).Ok?
    ensures SubsetsUpTo(AddSubset(table, Block(name, widths + [w], |widths|)).value, labels + [name], widths + [w])
  {
    var cs := Block(name, widths + [w], |widths|);
    var table' := AddSubset(table, cs).value;
    forall j | 0 <= j < |labels| + 1
      ensures FindSubset(table', (labels + [name])[j]) == Some(Block((labels + [name])[j], widths + [w], j))
    {
      OffsetSnoc(widths, w, j);
      if j < |labels| {
        assert HasLabel(table, labels[j]);
        AddKeepsOthers(table, cs, labels[j]);
      } else {
        AddThenFind(table, cs, name);
      }
    }
  }

  /** The alphabets registered after adopting each list in turn. */
  function Adopt(start: seq<StateAlphabet>, lists: seq<seq<StateAlphabet>>): seq<StateAlphabet> {
    if lists == [] then start
    else AppendNew(Adopt(start, lists[..|lists| - 1]), lists[|lists| - 1])
  }

  /** Adopting registers each alphabet of every list once, after those
      registered before. */
  lemma {:induction false} AdoptFacts(start: seq<StateAlphabet>, lists: seq<seq<StateAlphabet>>, x: StateAlphabet)
    ensures Distinct(start) ==> Distinct(Adopt(start, lists))
    ensures |Adopt(start, lists)| >= |start| && Adopt(start, lists)[..|start|] == start
    ensures x in Adopt(start, lists) <==> x in start || exists j | 0 <= j < |lists| :: x in lists[j]
  {
    if lists != [] {
      var n := |lists| - 1;
      AdoptFacts(start, lists[..n], x);
      AppendNewFacts(Adopt(start, lists[..n]), lists[n]);
      var prev := Adopt(start, lists[..n]);
      assert AppendNew(prev, lists[n])[..|prev|] == prev;
      assert AppendNew(prev, lists[n])[..|start|] == prev[..|start|];
      if x in Adopt(start, lists) && x !in start {
        assert x in Elements(Adopt(start, lists));
        if x !in prev {
          assert x in Elements(lists[n]);
        } else {
          var j :| 0 <= j < n && x in lists[..n][j];
          assert x in lists[j];
        }
      }
      if exists j | 0 <= j < |lists| :: x in lists[j] {
        var j :| 0 <= j < |lists| && x in lists[j];
        if j < n {
          assert x in lists[..n][j];
        } else {
          assert x in Elements(lists[n]);
        }
      }
    }
  }

  /** What `concatenate` reads of one input matrix: its namespace and that
      namespace's taxa, its own taxa in dict order with their cells, its
      state alphabets and its label. */
  datatype Part = Part(ns: TaxonNamespace, taxa: seq<Taxon>, keys: seq<Taxon>, cells: Contents,
                       alphabets: seq<StateAlphabet>, name: Option<string>)

  /** The part matrix `m` holds now. */
  function PartOf(m: CharacterMatrix): Part
    reads m, m.ns, m.table.entries.Values
  {
    Part(m.ns, m.ns.taxa, m.table.keys, m.Cells(), m.stateAlphabets, m.name)
  }

  /** A part read from a valid matrix whose taxa are members of its namespace. */
  predicate WellFormed(p: Part) {
    && Distinct(p.taxa) && Distinct(p.keys) && p.cells.Keys == Elements(p.keys)
    && forall t | t in p.cells :: t in p.taxa
  }

  /** Each taxon `m` holds a sequence for is one of its namespace's. */
  ghost predicate KeyedByMembers(m: CharacterMatrix)
    reads m, m.ns
  {
    forall t | t in m.table.entries :: t in m.ns.taxa
  }

  /** `cm.vector_size`: the `sequence_size` of the part. */
  function Width(p: Part): nat {
    FirstLength(p.keys, p.cells)
  }

  /** The width of the part read from `m` is `m.sequence_size`. */
  lemma WidthIsSequenceSize(m: CharacterMatrix)
    requires m.table.Valid()
    ensures Width(PartOf(m)) == m.SequenceSize()
  {
  }

  /** The checks `concatenate` makes of each part against the namespace `ns`
      of the first, which has `n` taxa, in the order it makes them: the same
      namespace object, one sequence per taxon, a first taxon to measure,
      every sequence as long as the first. */
  function Verdict(p: Part, ns: TaxonNamespace, n: nat): Outcome {
    if p.ns != ns then Fail(ValueError(DifferentNamespace))
    else if |p.keys| != n then Fail(ValueError(CountNotTaxa))
    else if n == 0 then Fail(IndexError)
    else if !AllOfLength(p.cells, Width(p)) then Fail(ValueError(UnequalLengths))
    else Pass
  }

  /** A part whose sequences are as many as its namespace's taxa holds one
      for every taxon. */
  lemma FillsNamespace(p: Part)
    requires WellFormed(p) && |p.keys| == |p.taxa|
    ensures p.cells.Keys == Elements(p.taxa)
  {
    var have := p.cells.Keys;
    var all := Elements(p.taxa);
    DistinctCard(p.taxa);
    DistinctCard(p.keys);
    assert have <= all;
    assert |all - have| == |all| - |have|;
  }

  /** A part that passed the checks holds a sequence of its width for every
      taxon of the namespace. */
  lemma PassedPart(p: Part, ns: TaxonNamespace)
    requires WellFormed(p) && Verdict(p, ns, |p.taxa|) == Pass
    ensures p.cells.Keys == Elements(p.taxa) && AllOfLength(p.cells, Width(p))
  {
    FillsNamespace(p);
  }

  /** A matrix that passed the checks holds, for every taxon of its
      namespace, a sequence exactly `sequence_size` long. */
  lemma PassedMatrix(m: CharacterMatrix, ns: TaxonNamespace)
    requires m.Valid() && KeyedByMembers(m) && Verdict(PartOf(m), ns, |m.ns.taxa|) == Pass
    ensures forall t | t in m.ns.taxa :: t in m.Cells() && |m.Cells()[t]| == m.SequenceSize()
  {
    var p := PartOf(m);
    assert WellFormed(p);
    PassedPart(p, ns);
    WidthIsSequenceSize(m);
  }

  /** The subset recording block `j` has as many positions as the block is
      wide: `len` of the subset is the input's `vector_size`. */
  lemma BlockLen(name: string, widths: seq<nat>, j: nat)
    requires j < |widths|
    ensures Block(name, widths, j).Len() == widths[j]
  {
    RangeSetSize(Offset(widths, j), Offset(widths, j) + widths[j]);
  }

  /** Every input matrix read into a part, before any is checked: nothing
      `concatenate` does changes them, so each reads as it would when the
      loop reaches it. */
  method ReadParts(ms: seq<CharacterMatrix>) returns (ps: seq<Part>)
    requires forall j | 0 <= j < |ms| :: ms[j].Valid() && KeyedByMembers(ms[j])
    ensures |ps| == |ms|
    ensures forall j | 0 <= j < |ms| :: ps[j] == old(PartOf(ms[j])) && WellFormed(ps[j])
    ensures forall j | 0 <= j < |ms| && ps[j].ns == ps[0].ns :: ps[j].taxa == ps[0].taxa
  {
    ps := [];
    var i := 0;
    while i < |ms|
      invariant i <= |ms| && |ps| == i
      invariant forall j | 0 <= j < i :: ps[j] == PartOf(ms[j]) && WellFormed(ps[j])
    {
      var m := ms[i];
      assert m.Valid() && KeyedByMembers(m);
      ps := ps + [PartOf(m)];
      i := i + 1;
    }
  }

  /** The per-matrix checks of `concatenate`, on the part read from it;
      `nseqs` is the count of the first part. Since the count must already
      equal the namespace size, the comparison with `nseqs` that follows can
      never fail. */
  method CheckPart(p: Part, ns: TaxonNamespace, n: nat, nseqs: nat) returns (r: Outcome)
    requires p.cells.Keys == Elements(p.keys)
    requires nseqs == n || nseqs == |p.keys|
    ensures r == Verdict(p, ns, n)
  {
    if p.ns != ns {
      return Fail(ValueError(DifferentNamespace));
    }
    if |p.keys| != n {
      return Fail(ValueError(CountNotTaxa));
    }
    if |p.keys| != nseqs {
      assert false;
    }
    if p.keys == [] {
      return Fail(IndexError);
    }
    assert p.keys[0] in Elements(p.keys);
    var v1 := |p.cells[p.keys[0]]|;
    var i := 0;
    while i < |p.keys|
      invariant i <= |p.keys|
      invariant forall j | 0 <= j < i :: p.keys[j] in p.cells && |p.cells[p.keys[j]]| == v1
    {
      assert p.keys[i] in Elements(p.keys);
      if |p.cells[p.keys[i]]| != v1 {
        return Fail(ValueError(UnequalLengths));
      }
      i := i + 1;
    }
    forall t | t in p.cells ensures |p.cells[t]| == v1 {
      var j :| 0 <= j < |p.keys| && p.keys[j] == t;
    }
    return Pass;
  }

  /** The sequences of the matrix `c` being built, once `parts` have been
      added: their join, keyed in the order of the first part. */
  ghost predicate Built(c: CharacterMatrix, taxa: set<Taxon>, keys0: seq<Taxon>, parts: seq<Contents>, widths: seq<nat>)
    reads c`table, c.table.entries.Values
  {
    && c.TableValid() && |widths| == |parts|
    && Blocks(parts, widths, taxa) && c.Cells() == Joined(parts)
    && c.table.keys == (if parts == [] then [] else keys0)
  }

  /** The subsets of `c`: block `j` under `labels[j]`, the next block
      starting at `pos`. */
  ghost predicate Recorded(c: CharacterMatrix, labels: seq<string>, widths: seq<nat>, pos: nat)
    reads c`subsets
  {
    SubsetsRecorded(c.subsets, labels, widths, pos)
  }

  ghost predicate SubsetsRecorded(table: SubsetTable, labels: seq<string>, widths: seq<nat>, pos: nat) {
    && pos == Offset(widths, |widths|) && SubsetsUpTo(table, labels, widths) && |table.keys| == |widths|
    && table.entries.Keys == FoldSet(labels)
  }

  /** Recording the next block under a label `tag` not yet taken. */
  lemma RecordStep(table: SubsetTable, labels: seq<string>, widths: seq<nat>, pos: nat, tag: string, width: nat)
    requires WellKeyed(table) && SubsetsRecorded(table, labels, widths, pos) && !HasLabel(table, tag)
    ensures AddSubset(table, CharacterSubset(tag, RangeSet(pos, pos + width))).Ok?
    ensures SubsetsRecorded(AddSubset(table, CharacterSubset(tag, RangeSet(pos, pos + width))).value,
                            labels + [tag], widths + [width], pos + width)
  {
    FoldSetSnoc(labels, tag);
    SubsetsStep(table, labels, widths, tag, width);
    OffsetSnoc(widths, width, |widths|);
    assert Block(tag, widths + [width], |widths|) == CharacterSubset(tag, RangeSet(pos, pos + width));
  }

  /** The disambiguation loop's promise about the stored subsets, read on
      the labels recorded so far. */
  lemma ChosenFromTable(table: SubsetTable, labels: seq<string>, base: string, tag: string)
    requires table.entries.Keys == FoldSet(labels)
    requires !HasLabel(table, tag) && (!HasLabel(table, base) ==> tag == base)
    requires HasLabel(table, base) ==>
               exists i | 2 <= i :: tag == Candidate(base, i) &&
                 forall j | 2 <= j < i :: HasLabel(table, Candidate(base, j))
    ensures ChosenLabel(base, labels, tag)
  {
  }

  /** The alphabets of `c`: for standard data, those of each part adopted. */
  ghost predicate Adopted(c: CharacterMatrix, kind: DataType, alph0: seq<StateAlphabet>, lists: seq<seq<StateAlphabet>>)
    reads c`stateAlphabets
  {
    c.stateAlphabets == if kind == Standard then Adopt(alph0, lists) else alph0
  }

  lemma BlocksStep(parts: seq<Contents>, widths: seq<nat>, keys: set<Taxon>, p: Contents, w: nat)
    requires Blocks(parts, widths, keys) && |widths| == |parts| && p.Keys == keys && AllOfLength(p, w)
    ensures Blocks(parts + [p], widths + [w], keys)
  {
  }

  lemma JoinedStep(parts: seq<Contents>, p: Contents)
    ensures Joined(parts + [p]) == Merged(ExtendAll, Joined(parts), p)
  {
    assert (parts + [p])[..|parts|] == parts;
  }

  lemma AdoptStep(start: seq<StateAlphabet>, lists: seq<seq<StateAlphabet>>, l: seq<StateAlphabet>)
    ensures Adopt(start, lists + [l]) == AppendNew(Adopt(start, lists), l)
  {
    assert (lists + [l])[..|lists|] == lists;
  }

  /** After the first part, every later part's taxa are already keys. */
  lemma KnownKeys(c: CharacterMatrix, p: Part, taxa: set<Taxon>, keys0: seq<Taxon>,
                  parts: seq<Contents>, widths: seq<nat>)
    requires Built(c, taxa, keys0, parts, widths) && parts != []
    requires p.cells.Keys == Elements(p.keys) && p.cells.Keys == taxa
    ensures forall x | x in p.keys :: x in keys0
  {
    JoinedKeys(parts, taxa);
    forall x | x in p.keys ensures x in keys0 {
      assert x in Elements(p.keys);
      assert x in c.table.entries;
    }
  }

  /** `concatenated_chars.extend(cm, ...)`: the sequences of the part, which
      holds one of `width` cells for every taxon, are joined on. */
  method ExtendPart(c: CharacterMatrix, p: Part, ghost taxa: set<Taxon>, ghost keys0: seq<Taxon>,
                    ghost parts: seq<Contents>, ghost widths: seq<nat>, width: nat)
    requires c.Valid() && Built(c, taxa, keys0, parts, widths)
    requires Distinct(p.keys) && p.cells.Keys == Elements(p.keys) && p.cells.Keys == taxa && AllOfLength(p.cells, width)
    requires parts == [] ==> keys0 == p.keys
    modifies c`table, c.table.entries.Values
    ensures c.Valid() && Built(c, taxa, keys0, parts + [p.cells], widths + [width])
    ensures c.subsets == old(c.subsets) && c.stateAlphabets == old(c.stateAlphabets)
    ensures forall u | u in c.table.entries && u !in old(c.table.entries) :: fresh(c.table.entries[u])
    ensures forall u | u in old(c.table.entries) :: u in c.table.entries && c.table.entries[u] == old(c.table.entries[u])
  {
    if parts == [] {
      AppendNewFresh([], keys0);
    } else {
      KnownKeys(c, p, taxa, keys0, parts, widths);
      AppendNewKnown(keys0, p.keys);
    }
    c.ExtendWith(p.keys, p.cells, ExtendAll);
    JoinedStep(parts, p.cells);
    BlocksStep(parts, widths, taxa, p.cells, width);
  }

  /** The alphabet step of the standard-data `extend`. */
  method AdoptPart(c: CharacterMatrix, kind: DataType, alphabets: seq<StateAlphabet>, ghost alph0: seq<StateAlphabet>,
                   ghost lists: seq<seq<StateAlphabet>>, ghost taxa: set<Taxon>, ghost keys0: seq<Taxon>,
                   ghost parts: seq<Contents>, ghost widths: seq<nat>)
    requires c.Valid() && Adopted(c, kind, alph0, lists) && Built(c, taxa, keys0, parts, widths)
    modifies c`stateAlphabets
    ensures c.Valid() && Adopted(c, kind, alph0, lists + [alphabets])
    ensures Built(c, taxa, keys0, parts, widths) && c.table == old(c.table) && c.subsets == old(c.subsets)
  {
    if kind == Standard {
      c.AdoptStateAlphabets(alphabets);
      AdoptStep(alph0, lists, alphabets);
    }
  }

  /** The label and subset of `concatenate` for the block of part `cidx`. */
  method RecordPart(c: CharacterMatrix, name: Option<string>, cidx: nat, ghost labels: seq<string>,
                    ghost widths: seq<nat>, pos: nat, width: nat)
    returns (pos': nat, tag: string)
    requires c.Valid() && Recorded(c, labels, widths, pos)
    modifies c`subsets
    ensures c.Valid() && Recorded(c, labels + [tag], widths + [width], pos')
    ensures ChosenLabel(BaseLabel(name, cidx), labels, tag)
  {
    var base := BaseLabel(name, cidx);
    tag := DisambiguatedLabel(c.subsets, base);
    ChosenFromTable(c.subsets, labels, base, tag);
    RecordStep(c.subsets, labels, widths, pos, tag, width);
    var added := c.NewCharacterSubset(tag, RangeSet(pos, pos + width));
    pos' := pos + width;
  }

  /** The body of the loop of `concatenate` for a part that passed its
      checks: extend by it (adopting its alphabets for standard data), then
      record its block under a label not yet taken. */
  method AppendPart(c: CharacterMatrix, p: Part, cidx: nat, ghost taxa: set<Taxon>, kind: DataType,
                    ghost keys0: seq<Taxon>, ghost alph0: seq<StateAlphabet>, ghost parts: seq<Contents>,
                    ghost widths: seq<nat>, ghost labels: seq<string>, ghost lists: seq<seq<StateAlphabet>>, pos: nat)
    returns (pos': nat, tag: string)
    requires State(c, kind, taxa, keys0, alph0, parts, widths, labels, lists, pos)
    requires Distinct(p.keys) && p.cells.Keys == Elements(p.keys) && p.cells.Keys == taxa && AllOfLength(p.cells, Width(p))
    requires parts == [] ==> keys0 == p.keys
    modifies c`table, c.table.entries.Values, c`subsets, c`stateAlphabets
    ensures State(c, kind, taxa, keys0, alph0, parts + [p.cells], widths + [Width(p)], labels + [tag],
                  lists + [p.alphabets], pos')
    ensures ChosenLabel(BaseLabel(p.name, cidx), labels, tag)
    ensures forall u | u in c.table.entries && u !in old(c.table.entries) :: fresh(c.table.entries[u])
    ensures forall u | u in old(c.table.entries) :: u in c.table.entries && c.table.entries[u] == old(c.table.entries[u])
  {
    var width := Width(p);
    ExtendPart(c, p, taxa, keys0, parts, widths, width);
    AdoptPart(c, kind, p.alphabets, alph0, lists, taxa, keys0, parts + [p.cells], widths + [width]);
    pos', tag := RecordKept(c, p.name, cidx, labels, widths, pos, width, kind, alph0, lists + [p.alphabets],
                            taxa, keys0, parts + [p.cells]);
  }

  /** `RecordPart`, which leaves the sequences and the alphabets as they were. */
  method RecordKept(c: CharacterMatrix, name: Option<string>, cidx: nat, ghost labels: seq<string>,
                    ghost widths: seq<nat>, pos: nat, width: nat, ghost kind: DataType, ghost alph0: seq<StateAlphabet>,
                    ghost lists: seq<seq<StateAlphabet>>, ghost taxa: set<Taxon>, ghost keys0: seq<Taxon>,
                    ghost parts: seq<Contents>)
    returns (pos': nat, tag: string)
    requires c.Valid() && Recorded(c, labels, widths, pos)
    requires Built(c, taxa, keys0, parts, widths + [width]) && Adopted(c, kind, alph0, lists)
    modifies c`subsets
    ensures c.Valid() && Recorded(c, labels + [tag], widths + [width], pos')
    ensures ChosenLabel(BaseLabel(name, cidx), labels, tag)
    ensures Built(c, taxa, keys0, parts, widths + [width]) && Adopted(c, kind, alph0, lists)
  {
    pos', tag := RecordPart(c, name, cidx, labels, widths, pos, width);
  }

  /** The cells of each part, in order. */
  function CellsOf(ps: seq<Part>): seq<Contents> {
    seq(|ps|, j requires 0 <= j < |ps| => ps[j].cells)
  }

  /** The state alphabets of each part, in order. */
  function AlphabetsOf(ps: seq<Part>): seq<seq<StateAlphabet>> {
    seq(|ps|, j requires 0 <= j < |ps| => ps[j].alphabets)
  }

  /** The width of each part, in order. */
  function WidthsOf(ps: seq<Part>): seq<nat> {
    seq(|ps|, j requires 0 <= j < |ps| => Width(ps[j]))
  }

  /** One more part read extends each of the lists above by one entry. */
  lemma PartsStep(ps: seq<Part>, i: nat)
    requires i < |ps|
    ensures CellsOf(ps[..i + 1]) == CellsOf(ps[..i]) + [ps[i].cells]
    ensures AlphabetsOf(ps[..i + 1]) == AlphabetsOf(ps[..i]) + [ps[i].alphabets]
    ensures WidthsOf(ps[..i + 1]) == WidthsOf(ps[..i]) + [Width(ps[i])]
  {
  }

  /** `CharacterMatrix.concatenate(char_matrices)`, building a matrix of
      `kind`; `ps` are the matrices as read. Fails on the first matrix whose
      checks fail; otherwise the new matrix holds, for every taxon, its
      sequences laid end to end, each matrix's columns form one block, and
      each block is a character subset labelled after its matrix: the
      label itself, or the first `label_002`, `label_003`, ... not yet given. */
  method Concatenate(ms: seq<CharacterMatrix>, kind: DataType, builtins: Builtins)
    returns (r: Result<CharacterMatrix>, ghost ps: seq<Part>, ghost widths: seq<nat>, ghost labels: seq<string>)
    requires forall j | 0 <= j < |ms| :: ms[j].Valid() && KeyedByMembers(ms[j])
    ensures |ps| == |ms| && forall j | 0 <= j < |ms| :: ps[j] == old(PartOf(ms[j]))
    ensures ms == [] ==> r == Err(IndexError)
    ensures ms != [] ==> (r.Ok? <==> forall j | 0 <= j < |ms| :: Verdict(ps[j], ps[0].ns, |ps[0].taxa|) == Pass)
    ensures ms != [] && r.Err? ==>
              exists j | 0 <= j < |ms| :: Verdict(ps[j], ps[0].ns, |ps[0].taxa|) == Fail(r.error) &&
                forall k | 0 <= k < j :: Verdict(ps[k], ps[0].ns, |ps[0].taxa|) == Pass
    ensures r.Ok? ==> fresh(r.value) && r.value.Valid() && r.value.kind == kind && r.value.ns == ps[0].ns
    ensures r.Ok? ==> widths == WidthsOf(ps) && |labels| == |ms|
    ensures r.Ok? ==> forall j | 0 <= j < |ms| :: ChosenLabel(BaseLabel(ps[j].name, j), labels[..j], labels[j])
    ensures r.Ok? ==> Blocks(CellsOf(ps), widths, Elements(ps[0].taxa)) && r.value.Cells() == Joined(CellsOf(ps))
    ensures r.Ok? ==> r.value.table.keys == ps[0].keys
    ensures r.Ok? ==> SubsetsUpTo(r.value.subsets, labels, widths) && |r.value.subsets.keys| == |ms|
    ensures r.Ok? && kind == Standard ==> r.value.stateAlphabets == Adopt([], AlphabetsOf(ps))
  {
    if ms == [] {
      return Err(IndexError), [], [], [];
    }
    assert ms[0].Valid();
    var read := ReadParts(ms);
    ps := read;
    r, widths, labels := Build(read, kind, builtins);
  }

  /** The matrix `c` as the loop of `concatenate` has built it so far: the
      parts' sequences joined, their blocks as subsets under `labels` and,
      for standard data, their alphabets adopted. */
  ghost predicate State(c: CharacterMatrix, kind: DataType, taxa: set<Taxon>, keys0: seq<Taxon>,
                        alph0: seq<StateAlphabet>, parts: seq<Contents>, widths: seq<nat>,
                        labels: seq<string>, lists: seq<seq<StateAlphabet>>, pos: nat)
    reads c, c.ns, c.table.entries.Values
  {
    && c.Valid() && c.kind == kind && Built(c, taxa, keys0, parts, widths)
    && Recorded(c, labels, widths, pos) && Adopted(c, kind, alph0, lists)
  }

  /** What the loop of `concatenate` has gone through: the first `i` parts,
      each of which passed its checks against `ns` and has its label. */
  ghost predicate Logged(ps: seq<Part>, i: nat, ns: TaxonNamespace, labels: seq<string>, parts: seq<Contents>,
                         widths: seq<nat>, lists: seq<seq<StateAlphabet>>)
  {
    && 0 < |ps| && i <= |ps| && |labels| == i
    && parts == CellsOf(ps[..i]) && widths == WidthsOf(ps[..i]) && lists == AlphabetsOf(ps[..i])
    && (forall j | 0 <= j < i :: Verdict(ps[j], ns, |ps[0].taxa|) == Pass)
    && (forall j | 0 <= j < i :: ChosenLabel(BaseLabel(ps[j].name, j), labels[..j], labels[j]))
  }

  lemma LogStep(ps: seq<Part>, i: nat, ns: TaxonNamespace, labels: seq<string>, parts: seq<Contents>,
                widths: seq<nat>, lists: seq<seq<StateAlphabet>>, tag: string)
    requires Logged(ps, i, ns, labels, parts, widths, lists) && i < |ps|
    requires Verdict(ps[i], ns, |ps[0].taxa|) == Pass && ChosenLabel(BaseLabel(ps[i].name, i), labels, tag)
    ensures Logged(ps, i + 1, ns, labels + [tag], parts + [ps[i].cells], widths + [Width(ps[i])],
                   lists + [ps[i].alphabets])
  {
    PartsStep(ps, i);
    var l := labels + [tag];
    assert l[..i] == labels && l[i] == tag;
    forall j | 0 <= j < i ensures l[..j] == labels[..j] && l[j] == labels[j] {
    }
  }

  lemma LogStart(ps: seq<Part>, ns: TaxonNamespace)
    requires ps != []
    ensures Logged(ps, 0, ns, [], [], [], [])
  {
    assert ps[..0] == [];
  }

  /** A new matrix on the namespace of the first part, nothing appended yet. */
  method Start(ps: seq<Part>, kind: DataType, builtins: Builtins) returns (c: CharacterMatrix)
    requires ps != [] && ps[0].ns.Valid()
    ensures fresh(c) && c.ns == ps[0].ns && c.table.entries == map[]
    ensures State(c, kind, Elements(ps[0].taxa), ps[0].keys, c.stateAlphabets, [], [], [], [], 0)
    ensures kind == Standard ==> c.stateAlphabets == []
  {
    c := new CharacterMatrix(kind, ps[0].ns, None, builtins);
  }

  /** Once every part is appended, `c` is the concatenation of all of them. */
  lemma Finish(c: CharacterMatrix, ps: seq<Part>, kind: DataType, alph0: seq<StateAlphabet>,
               parts: seq<Contents>, widths: seq<nat>, labels: seq<string>, lists: seq<seq<StateAlphabet>>, pos: nat)
    requires ps != []
    requires State(c, kind, Elements(ps[0].taxa), ps[0].keys, alph0, parts, widths, labels, lists, pos)
    requires Logged(ps, |ps|, c.ns, labels, parts, widths, lists)
    requires kind == Standard ==> alph0 == []
    ensures c.Valid() && c.kind == kind
    ensures widths == WidthsOf(ps) && |labels| == |ps|
    ensures forall j | 0 <= j < |ps| :: Verdict(ps[j], c.ns, |ps[0].taxa|) == Pass
    ensures forall j | 0 <= j < |ps| :: ChosenLabel(BaseLabel(ps[j].name, j), labels[..j], labels[j])
    ensures Blocks(CellsOf(ps), widths, Elements(ps[0].taxa)) && c.Cells() == Joined(CellsOf(ps))
    ensures c.table.keys == ps[0].keys
    ensures SubsetsUpTo(c.subsets, labels, widths) && |c.subsets.keys| == |ps|
    ensures kind == Standard ==> c.stateAlphabets == Adopt([], AlphabetsOf(ps))
  {
    assert ps[..|ps|] == ps;
  }

  /** Append part `i`, which passed its checks. */
  method Accept(c: CharacterMatrix, ps: seq<Part>, i: nat, kind: DataType, ghost taxa: set<Taxon>,
                ghost keys0: seq<Taxon>, ghost alph0: seq<StateAlphabet>, ghost parts: seq<Contents>,
                ghost widths: seq<nat>, ghost labels: seq<string>, ghost lists: seq<seq<StateAlphabet>>, pos: nat)
    returns (pos': nat, ghost parts': seq<Contents>, ghost widths': seq<nat>,
             ghost labels': seq<string>, ghost lists': seq<seq<StateAlphabet>>)
    requires State(c, kind, taxa, keys0, alph0, parts, widths, labels, lists, pos)
    requires Logged(ps, i, c.ns, labels, parts, widths, lists) && i < |ps|
    requires WellFormed(ps[i]) && (ps[i].ns == c.ns ==> ps[i].taxa == ps[0].taxa)
    requires taxa == Elements(ps[0].taxa) && keys0 == ps[0].keys
    requires Verdict(ps[i], c.ns, |ps[0].taxa|) == Pass
    modifies c`table, c.table.entries.Values, c`subsets, c`stateAlphabets
    ensures State(c, kind, taxa, keys0, alph0, parts', widths', labels', lists', pos')
    ensures Logged(ps, i + 1, c.ns, labels', parts', widths', lists')
    ensures forall u | u in c.table.entries && u !in old(c.table.entries) :: fresh(c.table.entries[u])
    ensures forall u | u in old(c.table.entries) :: u in c.table.entries && c.table.entries[u] == old(c.table.entries[u])
  {
    var p := ps[i];
    PassedPart(p, c.ns);
    assert parts == [] ==> i == 0;
    var tag;
    pos', tag := AppendPart(c, p, i, taxa, kind, keys0, alph0, parts, widths, labels, lists, pos);
    LogStep(ps, i, c.ns, labels, parts, widths, lists, tag);
    parts', widths', labels', lists' := parts + [p.cells], widths + [Width(p)], labels + [tag], lists + [p.alphabets];
  }

  /** The checks of `concatenate` on each part in turn, up to the first
      that fails: the first `k` parts pass, and `verdict` is the outcome of
      the next one, or `Pass` when every part does. */
  method Screen(ps: seq<Part>, ns: TaxonNamespace) returns (k: nat, verdict: Outcome)
    requires ps != []
    requires forall j | 0 <= j < |ps| :: WellFormed(ps[j])
    ensures k <= |ps|
    ensures forall j | 0 <= j < k :: Verdict(ps[j], ns, |ps[0].taxa|) == Pass
    ensures k < |ps| ==> verdict.Fail? && verdict == Verdict(ps[k], ns, |ps[0].taxa|)
    ensures k == |ps| ==> verdict == Pass
  {
    var n := |ps[0].taxa|;
    var nseqs := |ps[0].keys|;
    k := 0;
    while k < |ps|
      invariant k <= |ps|
      invariant forall j | 0 <= j < k :: Verdict(ps[j], ns, n) == Pass
      invariant k > 0 ==> nseqs == n
    {
      verdict := CheckPart(ps[k], ns, n, nseqs);
      if verdict.Fail? {
        return;
      }
      k := k + 1;
    }
    verdict := Pass;
  }

  /** The loop of `concatenate` over the first `k` parts, each of which
      passed its checks: every one is appended to the new matrix `c`. */
  method Run(c: CharacterMatrix, ps: seq<Part>, kind: DataType, ghost alph0: seq<StateAlphabet>, k: nat)
    returns (ghost parts: seq<Contents>, ghost widths: seq<nat>,
             ghost labels: seq<string>, ghost lists: seq<seq<StateAlphabet>>, ghost pos: nat)
    requires ps != [] && k <= |ps| && c.ns == ps[0].ns && c.table.entries == map[]
    requires State(c, kind, Elements(ps[0].taxa), ps[0].keys, alph0, [], [], [], [], 0)
    requires forall j | 0 <= j < |ps| :: WellFormed(ps[j])
    requires forall j | 0 <= j < |ps| && ps[j].ns == ps[0].ns :: ps[j].taxa == ps[0].taxa
    requires forall j | 0 <= j < k :: Verdict(ps[j], c.ns, |ps[0].taxa|) == Pass
    modifies c`table, c`subsets, c`stateAlphabets
    ensures State(c, kind, Elements(ps[0].taxa), ps[0].keys, alph0, parts, widths, labels, lists, pos)
    ensures Logged(ps, k, c.ns, labels, parts, widths, lists)
  {
    ghost var taxa := Elements(ps[0].taxa);
    ghost var keys0 := ps[0].keys;
    parts, widths, labels, lists := [], [], [], [];
    LogStart(ps, c.ns);
    var p := 0;
    var i := 0;
    while i < k
      invariant i <= k
      invariant State(c, kind, taxa, keys0, alph0, parts, widths, labels, lists, p)
      invariant Logged(ps, i, c.ns, labels, parts, widths, lists)
      invariant forall u | u in c.table.entries :: fresh(c.table.entries[u])
    {
      p, parts, widths, labels, lists := Accept(c, ps, i, kind, taxa, keys0, alph0, parts, widths, labels, lists, p);
      i := i + 1;
    }
    pos := p;
  }

  /** `concatenate` over the matrices as read: a new matrix on the namespace
      of the first, then every part appended in turn. */
  method Build(ps: seq<Part>, kind: DataType, builtins: Builtins)
    returns (r: Result<CharacterMatrix>, ghost widths: seq<nat>, ghost labels: seq<string>)
    requires ps != [] && ps[0].ns.Valid()
    requires forall j | 0 <= j < |ps| :: WellFormed(ps[j])
    requires forall j | 0 <= j < |ps| && ps[j].ns == ps[0].ns :: ps[j].taxa == ps[0].taxa
    ensures r.Ok? <==> forall j | 0 <= j < |ps| :: Verdict(ps[j], ps[0].ns, |ps[0].taxa|) == Pass
    ensures r.Err? ==>
              exists j | 0 <= j < |ps| :: Verdict(ps[j], ps[0].ns, |ps[0].taxa|) == Fail(r.error) &&
                forall k | 0 <= k < j :: Verdict(ps[k], ps[0].ns, |ps[0].taxa|) == Pass
    ensures r.Ok? ==> fresh(r.value) && r.value.Valid() && r.value.kind == kind && r.value.ns == ps[0].ns
    ensures r.Ok? ==> widths == WidthsOf(ps) && |labels| == |ps|
    ensures r.Ok? ==> forall j | 0 <= j < |ps| :: ChosenLabel(BaseLabel(ps[j].name, j), labels[..j], labels[j])
    ensures r.Ok? ==> Blocks(CellsOf(ps), widths, Elements(ps[0].taxa)) && r.value.Cells() == Joined(CellsOf(ps))
    ensures r.Ok? ==> r.value.table.keys == ps[0].keys
    ensures r.Ok? ==> SubsetsUpTo(r.value.subsets, labels, widths) && |r.value.subsets.keys| == |ps|
    ensures r.Ok? && kind == Standard ==> r.value.stateAlphabets == Adopt([], AlphabetsOf(ps))
  {
    var k, verdict := Screen(ps, ps[0].ns);
    var c := Start(ps, kind, builtins);
    ghost var alph0 := c.stateAlphabets;
    ghost var parts, lists, pos;
    parts, widths, labels, lists, pos := Run(c, ps, kind, alph0, k);
    if k < |ps| {
      return Err(verdict.error), widths, labels;
    }
    Finish(c, ps, kind, alph0, parts, widths, labels, lists, pos);
    return Ok(c), widths, labels;
  }
}
