/** Taxa and the taxon namespace, as far as the character matrix uses them.
    The namespace itself lives outside the matrix code; it is modelled here
    as an ordered, duplicate-free list of taxon references with label lookup
    (`get_taxon`), lookup-or-create (`require_taxon`), creation (`new_taxon`)
    and idempotent registration (`add_taxon`). Taxon identity is reference
    identity. */
module Taxa {
  import opened Wrappers
  import opened OrderedMaps
  import opened Text

  /** A taxon; `name` is its label. */
  class Taxon {
    const name: string

    constructor (name: string)
      ensures this.name == name
    {
      this.name := name;
    }
  }

  /** The first taxon of `taxa` whose label (`name`) matches `name`. */
  function FindByLabel(taxa: seq<Taxon>, name: string, caseSensitive: bool): (r: Option<Taxon>)
    ensures r.Some? ==> r.value in taxa && LabelMatches(r.value.name, name, caseSensitive)
    ensures r.Some? ==> forall j | 0 <= j < IndexOf(taxa, r.value) :: !LabelMatches(taxa[j].name, name, caseSensitive)
    ensures r.None? <==> forall t | t in taxa :: !LabelMatches(t.name, name, caseSensitive)
  {
    if taxa == [] then None
    else if LabelMatches(taxa[0].name, name, caseSensitive) then Some(taxa[0])
    else
      var r := FindByLabel(taxa[1..], name, caseSensitive);
      assert forall t | t in taxa :: t == taxa[0] || t in taxa[1..];
      if r.Some? then
        IndexOfTail(taxa, r.value);
        r
      else r
  }

  /** A namespace member that is the first to carry its label is what a
      lookup of that label returns. */
  lemma {:induction false} FirstOfLabelFound(taxa: seq<Taxon>, k: Taxon, caseSensitive: bool)
    requires k in taxa
    requires forall j | 0 <= j < IndexOf(taxa, k) :: !LabelMatches(taxa[j].name, k.name, caseSensitive)
    ensures FindByLabel(taxa, k.name, caseSensitive) == Some(k)
  {
    if taxa[0] != k {
      assert !LabelMatches(taxa[0].name, k.name, caseSensitive);
      IndexOfTail(taxa, k);
      FirstOfLabelFound(taxa[1..], k, caseSensitive);
    }
  }

  /** Members appended later do not change which taxon a label lookup finds,
      unless it found none. */
  lemma {:induction false} FindByLabelAppend(a: seq<Taxon>, b: seq<Taxon>, name: string, caseSensitive: bool)
    ensures FindByLabel(a, name, caseSensitive).Some? ==>
              FindByLabel(a + b, name, caseSensitive) == FindByLabel(a, name, caseSensitive)
    ensures FindByLabel(a, name, caseSensitive).None? ==>
              FindByLabel(a + b, name, caseSensitive) == FindByLabel(b, name, caseSensitive)
  {
    if a != [] {
      assert (a + b)[0] == a[0] && (a + b)[1..] == a[1..] + b;
      FindByLabelAppend(a[1..], b, name, caseSensitive);
    } else {
      assert a + b == b;
    }
  }

  class TaxonNamespace {
    var taxa: seq<Taxon>
    /** The case sensitivity label lookups use when the caller gives none. */
    const isCaseSensitive: bool

    ghost predicate Valid()
      reads this
    {
      Distinct(taxa)
    }

    constructor (isCaseSensitive: bool)
      ensures Valid() && taxa == [] && this.isCaseSensitive == isCaseSensitive
    {
      taxa := [];
      this.isCaseSensitive := isCaseSensitive;
    }

    function Len(): nat
      reads this
    {
      |taxa|
    }

    predicate Contains(t: Taxon)
      reads this
    {
      t in taxa
    }

    /** `get_taxon(label, case_sensitive)` */
    function GetTaxon(name: string, caseSensitive: bool): Option<Taxon>
      reads this
    {
      FindByLabel(taxa, name, caseSensitive)
    }

    /** `add_taxon(t)`: appends `t` unless it is already a member. */
    method AddTaxon(t: Taxon)
      requires Valid()
      modifies this
      ensures Valid()
      ensures taxa == AppendNew(old(taxa), [t])
    {
      if t !in taxa {
        DistinctSnoc(taxa, t);
        taxa := taxa + [t];
      }
    }

    /** `new_taxon(label)`: creates a taxon and appends it. */
    method NewTaxon(name: string) returns (t: Taxon)
      requires Valid()
      modifies this
      ensures Valid() && fresh(t) && t.name == name
      ensures taxa == old(taxa) + [t]
    {
      t := new Taxon(name);
      DistinctSnoc(taxa, t);
      taxa := taxa + [t];
    }

    /** `require_taxon(label, case_sensitive)`: the first member with a matching
        label, or a new member with that label. */
    method RequireTaxon(name: string, caseSensitive: bool) returns (t: Taxon)
      requires Valid()
      modifies this
      ensures Valid() && t in taxa
      ensures old(GetTaxon(name, caseSensitive)).Some? ==>
                t == old(GetTaxon(name, caseSensitive)).value && taxa == old(taxa)
      ensures old(GetTaxon(name, caseSensitive)).None? ==>
                fresh(t) && t.name == name && taxa == old(taxa) + [t]
    {
      var found := GetTaxon(name, caseSensitive);
      if found.Some? {
        t := found.value;
      } else {
        t := NewTaxon(name);
      }
    }
  }
}
