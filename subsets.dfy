/** Character subsets and the table a matrix keeps them in. The table is a
    case-insensitive ordered dict: it is modelled as an ordered map keyed by
    the folded label, whose values keep the label as given. */
module Subsets {
  import opened Wrappers
  import opened OrderedMaps
  import opened Text

  /** A named set of 0-based column positions. */
  datatype CharacterSubset = CharacterSubset(name: string, indices: set<int>) {
    /** `len(subset)`: the number of distinct positions. */
    function Len(): (n: nat)
      ensures n == |indices|
      ensures n == 0 <==> indices == {}
    {
      |indices|
    }
  }

  type SubsetTable = OrderedMap<string, CharacterSubset>

  /** Every subset is filed under its folded label. */
  ghost predicate WellKeyed(table: SubsetTable) {
    table.Valid() && forall k | k in table.entries :: k == Fold(table.entries[k].name)
  }

  /** `label in character_subsets`: some stored subset has this label, ignoring case. */
  predicate HasLabel(table: SubsetTable, name: string) {
    Fold(name) in table.entries
  }

  lemma HasLabelMeaning(table: SubsetTable, name: string)
    requires WellKeyed(table)
    ensures HasLabel(table, name) <==>
              exists k | k in table.entries :: LabelMatches(table.entries[k].name, name, false)
  {
    if !HasLabel(table, name) {
      forall k | k in table.entries ensures !LabelMatches(table.entries[k].name, name, false) {
        assert k == Fold(table.entries[k].name);
      }
    }
  }

  /** `character_subsets[label]` for a present label. */
  function FindSubset(table: SubsetTable, name: string): (r: Option<CharacterSubset>)
    ensures r.Some? <==> HasLabel(table, name)
    ensures r.Some? ==> r.value in table.entries.Values
  {
    if Fold(name) in table.entries then Some(table.entries[Fold(name)]) else None
  }

  /** `add_character_subset`: refuses a label already present in any case. */
  function AddSubset(table: SubsetTable, cs: CharacterSubset): (r: Result<SubsetTable>)
    ensures r.Err? <==> HasLabel(table, cs.name)
    ensures r.Err? ==> r.error == ValueError(DuplicateSubsetLabel)
    ensures r.Ok? ==> r.value.entries == table.entries[Fold(cs.name) := cs]
    ensures r.Ok? && WellKeyed(table) ==>
              WellKeyed(r.value) && r.value.keys == table.keys + [Fold(cs.name)]
  {
    if Fold(cs.name) in table.entries then Err(ValueError(DuplicateSubsetLabel))
    else Ok(table.Put(Fold(cs.name), cs))
  }

  /** A subset just added is what a lookup of its label, in any case, returns. */
  lemma AddThenFind(table: SubsetTable, cs: CharacterSubset, name: string)
    requires AddSubset(table, cs).Ok?
    requires LabelMatches(name, cs.name, false)
    ensures FindSubset(AddSubset(table, cs).value, name) == Some(cs)
  {
  }

  /** Adding a subset leaves every other label's subset where it was. */
  lemma AddKeepsOthers(table: SubsetTable, cs: CharacterSubset, name: string)
    requires AddSubset(table, cs).Ok?
    requires !LabelMatches(name, cs.name, false)
    ensures FindSubset(AddSubset(table, cs).value, name) == FindSubset(table, name)
  {
  }

  /** `"locus%03d" % cidx`: the label given to the part of a concatenation
      that came from an unlabelled matrix. */
  function LocusLabel(cidx: nat): string {
    "locus" + Format03(cidx)
  }

  /** `"%s_%03d" % (base, i)` */
  function Candidate(base: string, i: nat): string {
    base + "_" + Format03(i)
  }

  lemma SuffixOfEqual(p: string, x: string, y: string)
    requires p + x == p + y
    ensures x == y
  {
    assert x == (p + x)[|p|..];
    assert y == (p + y)[|p|..];
  }

  lemma FoldCandidate(base: string, i: nat)
    ensures Fold(Candidate(base, i)) == Fold(base + "_") + Format03(i)
  {
    FoldConcat(base + "_", Format03(i));
    FoldDigits(Format03(i));
  }

  /** Distinct counters give candidates that differ even ignoring case. */
  lemma CandidateFoldInjective(base: string, a: nat, b: nat)
    requires Fold(Candidate(base, a)) == Fold(Candidate(base, b))
    ensures a == b
  {
    FoldCandidate(base, a);
    FoldCandidate(base, b);
    SuffixOfEqual(Fold(base + "_"), Format03(a), Format03(b));
    Format03Injective(a, b);
  }

  /** The automatic labels of two different parts differ even ignoring case. */
  lemma LocusLabelsDiffer(a: nat, b: nat)
    requires Fold(LocusLabel(a)) == Fold(LocusLabel(b))
    ensures a == b
  {
    FoldConcat("locus", Format03(a));
    FoldConcat("locus", Format03(b));
    FoldDigits(Format03(a));
    FoldDigits(Format03(b));
    SuffixOfEqual(Fold("locus"), Format03(a), Format03(b));
    Format03Injective(a, b);
  }

  lemma {:induction false} CardOfDistinctInside<T>(s: seq<T>, bound: set<T>)
    requires Distinct(s)
    requires Elements(s) <= bound
    ensures |s| <= |bound|
  {
    DistinctCard(s);
    assert |Elements(s)| <= |bound| by {
      var rest := bound - Elements(s);
      assert bound == Elements(s) + rest;
    }
  }

  /** The label the disambiguation loop tests while its counter is `k`. */
  function Attempt(base: string, k: nat): string
    requires k >= 2
  {
    if k == 2 then base else Candidate(base, k - 1)
  }

  lemma AttemptFoldInjective(base: string, a: nat, b: nat)
    requires 2 <= a && 2 <= b
    requires Fold(Attempt(base, a)) == Fold(Attempt(base, b))
    ensures a == b
  {
    if a != 2 && b != 2 {
      CandidateFoldInjective(base, a - 1, b - 1);
    }
  }

  /** The folded labels the loop has found taken before its counter reaches `i`. */
  ghost function Tried(base: string, i: nat): (r: seq<string>)
    requires i >= 2
    ensures |r| == i - 2
    ensures forall j | 0 <= j < |r| :: r[j] == Fold(Attempt(base, j + 2))
  {
    if i == 2 then [] else Tried(base, i - 1) + [Fold(Attempt(base, i - 1))]
  }

  lemma TriedDistinct(base: string, i: nat)
    requires i >= 2
    ensures Distinct(Tried(base, i))
  {
    var r := Tried(base, i);
    forall a, b | 0 <= a < b < |r| ensures r[a] != r[b] {
      if r[a] == r[b] {
        AttemptFoldInjective(base, a + 2, b + 2);
      }
    }
  }

  /** The label-disambiguation loop of `concatenate` as it is meant to work:
      the label itself when free, otherwise `label_002`, `label_003`, ... up
      to the first candidate no stored subset has, ignoring case. */
  method DisambiguatedLabel(table: SubsetTable, base: string) returns (name: string)
    ensures !HasLabel(table, name)
    ensures !HasLabel(table, base) ==> name == base
    ensures HasLabel(table, base) ==>
              exists i | 2 <= i :: name == Candidate(base, i) &&
                forall j | 2 <= j < i :: HasLabel(table, Candidate(base, j))
  {
    name := base;
    var i := 2;
    while HasLabel(table, name)
      invariant 2 <= i && name == Attempt(base, i)
      invariant Elements(Tried(base, i)) <= table.entries.Keys
      decreases |table.entries.Keys| - (i - 2)
    {
      TriedDistinct(base, i + 1);
      ElementsConcat(Tried(base, i), [Fold(name)]);
      CardOfDistinctInside(Tried(base, i + 1), table.entries.Keys);
      name := Candidate(base, i);
      i := i + 1;
    }
    if i > 2 {
      forall j | 2 <= j < i - 1 ensures HasLabel(table, Candidate(base, j)) {
        assert Tried(base, i)[j - 1] == Fold(Attempt(base, j + 1));
      }
      assert name == Candidate(base, i - 1);
      assert HasLabel(table, base) by {
        assert Tried(base, i)[0] == Fold(base);
      }
    }
  }

  /** The same loop as written at lines 315-318: its body assigns `label`,
      which the condition never reads, so `cs_label` keeps its first value.
      The result is the label the loop leaves with, or `None` when it has not
      left after `fuel` turns. */
  function CollisionLoopAsWritten(table: SubsetTable, csLabel: string, newLabel: string, i: nat, fuel: nat): Option<string>
    decreases fuel
  {
    if !HasLabel(table, csLabel) then Some(csLabel)
    else if fuel == 0 then None
    else
      var discarded := Candidate(newLabel, i);
      CollisionLoopAsWritten(table, csLabel, newLabel, i + 1, fuel - 1)
  }

  /** Once the first label collides, no number of turns ends the loop as written. */
  lemma {:induction false} CollisionLoopNeverExits(table: SubsetTable, csLabel: string, newLabel: string, i: nat, fuel: nat)
    requires HasLabel(table, csLabel)
    ensures CollisionLoopAsWritten(table, csLabel, newLabel, i, fuel) == None
    decreases fuel
  {
    if fuel > 0 {
      CollisionLoopNeverExits(table, csLabel, newLabel, i + 1, fuel - 1);
    }
  }

  /** Concatenating two matrices both labelled "gene" reaches the loop with
      "gene" already taken; as written it never leaves, while the corrected
      loop settles on "gene_002". */
  lemma SameLabelTwice(fuel: nat)
    ensures var table := AddSubset(EmptyMap(), CharacterSubset("gene", {0})).value;
            CollisionLoopAsWritten(table, "gene", "gene", 2, fuel) == None &&
            !HasLabel(table, Candidate("gene", 2))
  {
    var table := AddSubset(EmptyMap(), CharacterSubset("gene", {0})).value;
    assert HasLabel(table, "gene");
    CollisionLoopNeverExits(table, "gene", "gene", 2, fuel);
    assert |Candidate("gene", 2)| != |"gene"|;
    assert Fold(Candidate("gene", 2)) != Fold("gene");
  }
}
