/** The character matrix: a map from taxa of one taxon namespace to their
    character sequences, with the namespace-ordered view, padding, the bulk
    merges, column export, character subsets, taxon reconciliation, and for
    the discrete kinds the state-alphabet bookkeeping.

    Each loop of the source is one method here, proved against a function
    on values from `CellMaps`. The body of a loop is often a method of its
    own (`CopyTurn`, `ExtendTurn`, `RemapTurn`, `DictStep`, `ReconTurn`,
    `ReconMove`, ...), and the facts a turn keeps are ghost predicates with
    lemmas that carry them from one turn to the next (`...Start`, `...Step`,
    `...Done`). They add nothing to what the source does: the split keeps
    the frame and invariant reasoning of each proof small. */
module Matrices {
  import opened Wrappers
  import opened OrderedMaps
  import opened Text
  import opened Taxa
  import opened States
  import opened Sequences
  import opened Subsets
  import opened Registry
  import opened CellMaps

  /** What `m[key]` accepts: a position in the namespace, a taxon label, or a taxon. */
  datatype Key = ByIndex(index: int) | ByLabel(name: string) | ByTaxon(taxon: Taxon)

  /** A key of the mapping `from_dict` reads: a taxon label or a taxon. */
  datatype DictKey = LabelKey(name: string) | TaxonKey(taxon: Taxon)

  /** A subset named by its label, or given directly. */
  datatype SubsetRef = SubsetNamed(name: string) | SubsetGiven(subset: CharacterSubset)

  /** No sequence object is held by two taxa. */
  ghost predicate Unshared(table: OrderedMap<Taxon, CharacterSequence>) {
    forall a, b | a in table.entries && b in table.entries && a != b :: table.entries[a] != table.entries[b]
  }

  /** Storing an object no taxon holds keeps every object held once. */
  lemma UnsharedPut(table: OrderedMap<Taxon, CharacterSequence>, t: Taxon, s: CharacterSequence)
    requires Unshared(table) && s !in table.entries.Values
    ensures Unshared(table.Put(t, s))
  {
    var e := table.Put(t, s).entries;
    forall a, b | a in e && b in e && a != b ensures e[a] != e[b] {
      if a != t && b != t {
        assert e[a] == table.entries[a] && e[b] == table.entries[b];
      } else if a == t {
        assert e[b] == table.entries[b] && e[b] in table.entries.Values;
      } else {
        assert e[a] == table.entries[a] && e[a] in table.entries.Values;
      }
    }
  }

  class CharacterMatrix {
    /** The kind of data, `data_type`. */
    const kind: DataType
    const ns: TaxonNamespace
    var name: Option<string>
    /** `_taxon_sequence_map` */
    var table: OrderedMap<Taxon, CharacterSequence>
    var characterTypes: seq<CharacterType>
    /** `character_subsets`, keyed by folded label. */
    var subsets: SubsetTable
    var stateAlphabets: seq<StateAlphabet>
    /** `_default_state_alphabet` */
    var defaultAlphabet: Option<StateAlphabet>

    ghost predicate Valid()
      reads this, ns
    {
      TableValid() && WellKeyed(subsets) && ns.Valid()
    }

    /** The sequence table is a dict holding a distinct object per taxon. */
    ghost predicate TableValid()
      reads this`table
    {
      table.Valid() && Unshared(table)
    }

    /** The cells each taxon's sequence holds. */
    function Cells(): (c: Contents)
      reads this`table, table.entries.Values
      ensures c.Keys == table.entries.Keys
    {
      map t | t in table.entries :: table.entries[t].cells
    }

    /** A new, empty matrix on `ns`; the fixed-alphabet kinds nominate their
        built-in alphabet as default through the setter and then append it a
        second time. */
    constructor (kind: DataType, ns: TaxonNamespace, name: Option<string>, builtins: Builtins)
      requires ns.Valid()
      ensures Valid()
      ensures this.kind == kind && this.ns == ns && this.name == name
      ensures table.keys == [] && table.entries == map[]
      ensures characterTypes == [] && subsets.keys == []
      ensures kind.FixedAlphabet() ==>
                stateAlphabets == [builtins.For(kind), builtins.For(kind)] &&
                defaultAlphabet == Some(builtins.For(kind))
      ensures !kind.FixedAlphabet() ==> stateAlphabets == [] && defaultAlphabet == None
    {
      this.kind := kind;
      this.ns := ns;
      this.name := name;
      table := EmptyMap();
      characterTypes := [];
      subsets := EmptyMap();
      stateAlphabets := [];
      defaultAlphabet := None;
      new;
      if kind.FixedAlphabet() {
        SetDefaultStateAlphabet(builtins.For(kind));
        stateAlphabets := stateAlphabets + [builtins.For(kind)];
      }
    }

    /** `_resolve_key(key)` */
    function ResolveKey(key: Key): (r: Result<Taxon>)
      reads this, ns
      ensures key.ByIndex? ==> (r.Ok? <==> 0 <= key.index < |ns.taxa|)
      ensures key.ByIndex? && r.Ok? ==> r.value == ns.taxa[key.index]
      ensures key.ByIndex? && r.Err? ==> r.error == IndexError
      ensures key.ByLabel? ==>
                (r.Ok? <==> exists t | t in ns.taxa :: LabelMatches(t.name, key.name, ns.isCaseSensitive))
      ensures key.ByLabel? && r.Ok? ==>
                r.value in ns.taxa && LabelMatches(r.value.name, key.name, ns.isCaseSensitive)
      ensures key.ByLabel? && r.Err? ==> r.error == KeyError
      ensures key.ByTaxon? ==> r == Ok(key.taxon)
    {
      match key
      case ByIndex(i) => if 0 <= i < |ns.taxa| then Ok(ns.taxa[i]) else Err(IndexError)
      case ByLabel(s) =>
        var found := ns.GetTaxon(s, ns.isCaseSensitive);
        if found.Some? then Ok(found.value) else Err(KeyError)
      case ByTaxon(t) => Ok(t)
    }

    /** `taxon in m`: the taxon itself, no key resolution. */
    predicate Contains(t: Taxon)
      reads this
      ensures Contains(t) <==> t in table.entries
    {
      t in table.entries
    }

    /** `key in m` as written (line 750): the key itself is looked up among
        the table's keys, which are taxa, so an index or a label never is. */
    predicate HasKey(key: Key)
      reads this
    {
      key.ByTaxon? && key.taxon in table.entries
    }

    /** `key in m` as its documentation describes it: the key resolved
        through the namespace, as `m[key]` resolves it, then looked up. */
    predicate HasResolvedKey(key: Key)
      reads this, ns
    {
      ResolveKey(key).Ok? && ResolveKey(key).value in table.entries
    }

    /** As written, the index of a member holding a sequence is not `in` the
        matrix although the member is; the resolved lookup finds it. */
    lemma IndexKeyMissed(i: int)
      requires 0 <= i < |ns.taxa| && ns.taxa[i] in table.entries
      ensures !HasKey(ByIndex(i)) && HasKey(ByTaxon(ns.taxa[i]))
      ensures HasResolvedKey(ByIndex(i))
    {
    }

    /** As written, the label of a member holding a sequence is not `in` the
        matrix; the resolved lookup finds the member the label names. */
    lemma LabelKeyMissed(name: string)
      requires ns.GetTaxon(name, ns.isCaseSensitive).Some?
      requires ns.GetTaxon(name, ns.isCaseSensitive).value in table.entries
      ensures !HasKey(ByLabel(name)) && HasResolvedKey(ByLabel(name))
    {
    }

    /** The resolved lookup agrees with iteration: a member, named by its
        position or by itself, is `in` the matrix exactly when iterating the
        matrix visits it; for a taxon key both lookups agree. */
    lemma ResolvedKeyMeansVisited()
      requires ns.Valid()
      ensures forall i | 0 <= i < |ns.taxa| :: HasResolvedKey(ByIndex(i)) <==> ns.taxa[i] in Taxa()
      ensures forall t | t in ns.taxa :: HasResolvedKey(ByTaxon(t)) <==> t in Taxa()
      ensures forall t :: HasResolvedKey(ByTaxon(t)) == HasKey(ByTaxon(t))
    {
      forall t | t in ns.taxa ensures (t in table.entries <==> t in Taxa()) {
        assert t in Elements(Taxa()) <==> t in Elements(ns.taxa) * table.entries.Keys;
      }
    }

    /** `len(m)` */
    function Len(): (n: nat)
      requires table.Valid()
      reads this
      ensures n == |table.entries|
    {
      LenIsEntryCount(table);
      |table.keys|
    }

    /** `iter(m)`: the namespace's taxa that have a sequence, in namespace order. */
    function Taxa(): (r: seq<Taxon>)
      reads this, ns
      ensures Elements(r) == Elements(ns.taxa) * table.entries.Keys
      ensures forall i | 0 <= i < |r| :: r[i] in table.entries && r[i] in ns.taxa
      ensures ns.Valid() ==> Distinct(r)
      ensures ns.Valid() ==> forall i, j | 0 <= i < j < |r| :: IndexOf(ns.taxa, r[i]) < IndexOf(ns.taxa, r[j])
    {
      FilterInKeepsOrder(ns.taxa, table.entries.Keys);
      FilterIn(ns.taxa, table.entries.Keys)
    }

    /** `new_sequence(taxon, values)` */
    method NewSequence(t: Taxon, cells: seq<Cell>) returns (r: Result<CharacterSequence>)
      requires Valid()
      modifies this`table
      ensures Valid()
      ensures r.Err? <==> t in old(table.entries) || t !in ns.taxa
      ensures r.Err? ==> table == old(table)
      ensures r.Err? && t in old(table.entries) ==> r.error == ValueError(SequenceExists)
      ensures r.Err? && t !in old(table.entries) ==> r.error == ValueError(NotInNamespace)
      ensures r.Ok? ==> fresh(r.value) && r.value.cells == cells && table.keys == old(table.keys) + [t]
      ensures r.Ok? ==> table.entries == old(table.entries)[t := r.value]
      ensures r.Ok? ==> Cells() == old(Cells())[t := cells]
    {
      if t in table.entries {
        return Err(ValueError(SequenceExists));
      }
      if t !in ns.taxa {
        return Err(ValueError(NotInNamespace));
      }
      var s := new CharacterSequence(cells);
      table := table.Put(t, s);
      return Ok(s);
    }

    /** `m[key]`: the taxon's sequence, created empty when it has none. */
    method Get(key: Key) returns (r: Result<CharacterSequence>)
      requires Valid()
      modifies this`table
      ensures Valid()
      ensures ResolveKey(key).Err? ==> r == Err(ResolveKey(key).error) && table == old(table)
      ensures ResolveKey(key).Ok? && ResolveKey(key).value in old(table.entries) ==>
                r == Ok(old(table.entries)[ResolveKey(key).value]) && table == old(table)
      ensures ResolveKey(key).Ok? && ResolveKey(key).value !in old(table.entries) ==>
                if ResolveKey(key).value in ns.taxa then
                  r.Ok? && fresh(r.value) && r.value.cells == [] &&
                  table.keys == old(table.keys) + [ResolveKey(key).value] &&
                  table.entries == old(table.entries)[ResolveKey(key).value := r.value]
                else
                  r == Err(ValueError(NotInNamespace)) && table == old(table)
      ensures r.Ok? ==> ResolveKey(key).value in table.entries && table.entries[ResolveKey(key).value] == r.value
    {
      var t := ResolveKey(key);
      if t.Err? {
        return Err(t.error);
      }
      if t.value in table.entries {
        return Ok(table.entries[t.value]);
      }
      r := NewSequence(t.value, []);
    }

    /** The store at the end of `m[key] = values`, for a resolved member taxon. */
    method Store(t: Taxon, cells: seq<Cell>)
      requires TableValid()
      modifies this`table
      ensures TableValid()
      ensures t in table.entries && fresh(table.entries[t])
      ensures table.keys == AppendNew(old(table.keys), [t])
      ensures table.entries == old(table.entries)[t := table.entries[t]]
      ensures fresh(table.entries.Values - old(table.entries.Values))
      ensures Cells() == old(Cells())[t := cells]
    {
      var s := new CharacterSequence(cells);
      Place(t, s);
    }

    /** `self._taxon_sequence_map[t] = s` for a sequence no taxon holds. */
    method Place(t: Taxon, s: CharacterSequence)
      requires TableValid() && s !in table.entries.Values
      modifies this`table
      ensures TableValid()
      ensures table.keys == AppendNew(old(table.keys), [t])
      ensures table.entries == old(table.entries)[t := s]
      ensures Cells() == old(Cells())[t := s.cells]
    {
      ghost var before := Cells();
      UnsharedPut(table, t, s);
      table := table.Put(t, s);
      assert Cells() == before[t := s.cells];
    }

    /** `m[key] = values`: wraps the values in a new sequence. */
    method Set(key: Key, cells: seq<Cell>) returns (r: Outcome)
      requires Valid()
      modifies this`table
      ensures Valid()
      ensures ResolveKey(key).Err? ==> r == Fail(ResolveKey(key).error) && table == old(table)
      ensures ResolveKey(key).Ok? && ResolveKey(key).value !in ns.taxa ==>
                r == Fail(ValueError(NotInNamespace)) && table == old(table)
      ensures ResolveKey(key).Ok? && ResolveKey(key).value in ns.taxa ==>
                var t := ResolveKey(key).value;
                r == Pass && t in table.entries && fresh(table.entries[t]) &&
                table.keys == AppendNew(old(table.keys), [t]) &&
                table.entries == old(table.entries)[t := table.entries[t]] &&
                Cells() == old(Cells())[t := cells]
    {
      var t := ResolveKey(key);
      if t.Err? {
        return Fail(t.error);
      }
      if t.value !in ns.taxa {
        return Fail(ValueError(NotInNamespace));
      }
      Store(t.value, cells);
      return Pass;
    }

    /** `del m[taxon]`: the taxon itself, no key resolution. */
    method Delete(t: Taxon) returns (r: Outcome)
      requires Valid()
      modifies this`table
      ensures Valid()
      ensures r.Fail? <==> t !in old(table.entries)
      ensures r.Fail? ==> r.error == KeyError && table == old(table)
      ensures r.Pass? ==> table.keys == FilterOut(old(table.keys), {t})
      ensures r.Pass? ==> table.entries == old(table.entries) - {t}
    {
      if t !in table.entries {
        return Fail(KeyError);
      }
      table := table.Remove(t);
      return Pass;
    }

    /** `clear()` */
    method Clear()
      requires Valid()
      modifies this`table
      ensures Valid()
      ensures table.keys == [] && Cells() == map[]
    {
      table := EmptyMap();
    }

    /** `sequence_size`: the length of the sequence stored first, or 0. */
    function SequenceSize(): (n: nat)
      requires table.Valid()
      reads this, table.entries.Values
      ensures table.keys == [] ==> n == 0
      ensures table.keys != [] ==> n == |Cells()[table.keys[0]]|
    {
      FirstLength(table.keys, Cells())
    }

    /** `sequence_size` never exceeds `max_sequence_size` when the first
        sequence belongs to a member, and equals it when every sequence
        iteration visits has one length. */
    lemma SequenceSizeAtMostMax()
      requires table.Valid() && table.keys != [] && table.keys[0] in ns.taxa
      ensures SequenceSize() <= MaxLen(Widths())
      ensures AllOfLength(Cells(), SequenceSize()) ==> SequenceSize() == MaxLen(Widths())
    {
      var t := table.keys[0];
      assert t in table.entries;
      var ks := Taxa();
      assert t in Elements(ks);
      var j :| 0 <= j < |ks| && ks[j] == t;
      assert Widths()[j] == SequenceSize();
    }

    /** The lengths of the sequences, in iteration order. */
    function Widths(): (w: seq<nat>)
      reads this, ns, table.entries.Values
      ensures |w| == |Taxa()|
      ensures forall i | 0 <= i < |w| :: w[i] == |Cells()[Taxa()[i]]|
    {
      var ks := Taxa();
      var cs := Cells();
      seq(|ks|, i requires 0 <= i < |ks| && ks[i] in cs => |cs[ks[i]]|)
    }

    /** `max_sequence_size`: the longest sequence the iteration visits, or 0. */
    method MaxSequenceSize() returns (r: nat)
      ensures r == MaxLen(Widths())
      ensures forall i | 0 <= i < |Taxa()| :: |Cells()[Taxa()[i]]| <= r
      ensures Taxa() != [] ==> exists i | 0 <= i < |Taxa()| :: |Cells()[Taxa()[i]]| == r
      ensures Taxa() == [] ==> r == 0
      ensures forall t | t in table.entries && t in ns.taxa :: |Cells()[t]| <= r
    {
      var ks := Taxa();
      ghost var ws := Widths();
      r := 0;
      var i := 0;
      while i < |ks|
        invariant 0 <= i <= |ks|
        invariant r == MaxLen(ws[..i])
      {
        assert ws[..i + 1][..i] == ws[..i];
        if |table.entries[ks[i]].cells| > r {
          r := |table.entries[ks[i]].cells|;
        }
        i := i + 1;
      }
      assert ws[..i] == ws;
      forall t | t in table.entries && t in ns.taxa ensures |Cells()[t]| <= r {
        assert t in Elements(ks);
        var j :| 0 <= j < |ks| && ks[j] == t;
        assert ws[j] <= r;
      }
    }

    /** `fill(value, size, append)`: pads every sequence the iteration visits
        to `size`, or to the longest length when no size is given, and
        returns the size used. */
    method Fill(v: Cell, size: Option<int>, append: bool) returns (used: int)
      requires Valid()
      modifies table.entries.Values
      ensures size.Some? ==> used == size.value
      ensures size.None? ==> used == old(MaxLen(Widths()))
      ensures size.None? ==> forall t | t in old(Cells()) && t in ns.taxa :: |old(Cells())[t]| <= used
      ensures Cells() == Filled(old(Cells()), Elements(ns.taxa), v, used, append)
    {
      if size.None? {
        used := MaxSequenceSize();
      } else {
        used := size.value;
      }
      PadMembers(v, used, append);
    }

    /** The loop of `fill` over the iteration, for a given size. */
    method PadMembers(v: Cell, n: int, append: bool)
      requires Valid()
      modifies table.entries.Values
      ensures Cells() == Filled(old(Cells()), Elements(ns.taxa), v, n, append)
    {
      var ks := Taxa();
      FilterInDistinct(ns.taxa, table.entries.Keys);
      PadAll(ks, v, n, append);
      FilledSameMembers(old(Cells()), Elements(ks), Elements(ns.taxa), v, n, append);
    }

    /** The padding of the sequences of the taxa `ks`, in turn. */
    method PadAll(ks: seq<Taxon>, v: Cell, n: int, append: bool)
      requires TableValid() && Distinct(ks) && forall k | k in ks :: k in table.entries
      modifies table.entries.Values
      ensures Cells() == Filled(old(Cells()), Elements(ks), v, n, append)
    {
      ghost var before := Cells();
      var i := 0;
      while i < |ks|
        invariant 0 <= i <= |ks|
        invariant Cells() == Filled(before, Elements(ks[..i]), v, n, append)
      {
        i := PadStep(ks, before, v, n, append, i);
      }
      ElementsWhole(ks);
    }

    /** Turn `i` of `PadAll`. */
    method PadStep(ks: seq<Taxon>, ghost before: Contents, v: Cell, n: int, append: bool, i: nat) returns (next: nat)
      requires TableValid() && Distinct(ks) && forall k | k in ks :: k in table.entries
      requires i < |ks| && before.Keys == table.entries.Keys
      requires Cells() == Filled(before, Elements(ks[..i]), v, n, append)
      modifies table.entries[ks[i]]
      ensures next == i + 1 && Cells() == Filled(before, Elements(ks[..next]), v, n, append)
    {
      var k := ks[i];
      DistinctNotInPrefix(ks, i);
      PadEntry(k, v, n, append);
      FilledStep(before, Elements(ks[..i]), v, n, append, k);
      ElementsPrefix(ks, i);
      next := i + 1;
    }

    /** The padding loop of `fill` for one taxon's sequence. */
    method PadEntry(k: Taxon, v: Cell, n: int, append: bool)
      requires TableValid() && k in table.entries
      modifies table.entries[k]
      ensures Cells() == old(Cells())[k := Padded(old(Cells())[k], v, n, append)]
    {
      var s := table.entries[k];
      ghost var before := Cells();
      s.PadTo(v, n, append);
      forall t | t in table.entries && t != k ensures Cells()[t] == before[t] {
        assert table.entries[t] != s;
      }
      UpdatedContents(Cells(), before, k, Padded(before[k], v, n, append));
    }

    /** One turn of `fill_taxa`: an empty sequence for `t` unless it has one. */
    method AddEmpty(t: Taxon)
      requires TableValid()
      modifies this`table
      ensures TableValid()
      ensures table.keys == AppendNew(old(table.keys), [t])
      ensures Cells() == WithEmpty(old(Cells()), {t})
      ensures fresh(table.entries.Values - old(table.entries.Values))
    {
      AppendNewOne(table.keys, t);
      WithEmptyOne(Cells(), t);
      if !Contains(t) {
        Store(t, []);
      }
    }

    /** `fill_taxa()`: an empty sequence for every namespace taxon without one. */
    method FillTaxa()
      requires Valid()
      modifies this`table
      ensures Valid()
      ensures table.keys == AppendNew(old(table.keys), ns.taxa)
      ensures Cells() == WithEmpty(old(Cells()), Elements(ns.taxa))
      ensures fresh(table.entries.Values - old(table.entries.Values))
    {
      ghost var keys0 := table.keys;
      ghost var cells0 := Cells();
      ghost var entries0 := table.entries;
      var i := 0;
      while i < |ns.taxa|
        invariant 0 <= i <= |ns.taxa|
        invariant TableValid()
        invariant table.keys == AppendNew(keys0, ns.taxa[..i])
        invariant Cells() == WithEmpty(cells0, Elements(ns.taxa[..i]))
        invariant fresh(table.entries.Values - old(table.entries.Values))
      {
        var t := ns.taxa[i];
        AddEmpty(t);
        WithEmptyStep(cells0, Elements(ns.taxa[..i]), t);
        ElementsPrefix(ns.taxa, i);
        AppendNewSnoc(keys0, ns.taxa[..i], t);
        i := i + 1;
      }
      assert ns.taxa[..i] == ns.taxa;
    }

    /** `pack(value, size, append)`: `fill_taxa` then `fill`. Without a size,
        every namespace taxon ends with a sequence of one common length. */
    method Pack(v: Cell, size: Option<int>, append: bool) returns (ghost used: int)
      requires Valid()
      modifies this`table, table.entries.Values
      ensures Valid()
      ensures table.keys == AppendNew(old(table.keys), ns.taxa)
      ensures Cells() == Filled(WithEmpty(old(Cells()), Elements(ns.taxa)), Elements(ns.taxa), v, used, append)
      ensures size.Some? ==> used == size.value
      ensures size.None? ==> forall t | t in ns.taxa :: t in Cells() && |Cells()[t]| == used
      ensures size.None? && table.keys != [] && table.keys[0] in ns.taxa ==> SequenceSize() == used
      ensures ns.taxa != [] ==> table.keys != []
    {
      ghost var keys0 := table.keys;
      FillTaxa();
      AppendNewFacts(keys0, ns.taxa);
      if ns.taxa != [] {
        assert ns.taxa[0] in Elements(table.keys);
      }
      used := Fill(v, size, append);
      if size.None? {
        FilledToMaxEqualizes(WithEmpty(old(Cells()), Elements(ns.taxa)), Elements(ns.taxa), v, used, append);
      }
    }

    /** None of the sequence objects in `avoid` is in this table. */
    ghost predicate Avoids(avoid: set<CharacterSequence>)
      reads this`table
    {
      forall t | t in table.entries :: table.entries[t] !in avoid
    }

    /** Objects of `other`'s table that this table also holds are held under
        the same taxon in both. */
    ghost predicate SharesOnlySameTaxon(other: CharacterMatrix)
      reads this, other
    {
      forall t, u | t in other.table.entries && u in table.entries && t != u ::
        other.table.entries[t] != table.entries[u]
    }

    /** `self[taxon].extend(values)` for a taxon with a sequence. */
    method ExtendEntry(t: Taxon, more: seq<Cell>)
      requires TableValid() && t in table.entries
      modifies table.entries[t]
      ensures Cells() == old(Cells())[t := old(Cells())[t] + more]
    {
      var s := table.entries[t];
      ghost var before := Cells();
      s.Extend(more);
      forall u | u in table.entries && u != t ensures Cells()[u] == before[u] {
        assert table.entries[u] != s;
      }
      UpdatedContents(Cells(), before, t, before[t] + more);
    }

    /** The loop shared by `add_sequences`, `replace_sequences` and
        `update_sequences`: a copy of each source sequence is stored under
        its taxon when the mode takes it. */
    method CopyFrom(other: CharacterMatrix, mode: Merge)
      requires Valid() && other.Valid()
      requires !mode.ExtendsShared()
      modifies this`table
      ensures Valid()
      ensures Cells() == Merged(mode, old(Cells()), old(other.Cells()))
      ensures table.keys == if mode.AddsTaxa() then AppendNew(old(table.keys), old(other.table.keys)) else old(table.keys)
    {
      CopyEach(other.table.keys, other.Cells(), mode);
    }

    /** The loop of `CopyFrom` over the source's taxa `oks`, whose sequences
        hold `theirs`. */
    method CopyEach(oks: seq<Taxon>, theirs: Contents, mode: Merge)
      requires TableValid() && Distinct(oks) && theirs.Keys == Elements(oks)
      requires !mode.ExtendsShared()
      modifies this`table
      ensures TableValid()
      ensures Cells() == Merged(mode, old(Cells()), theirs)
      ensures table.keys == if mode.AddsTaxa() then AppendNew(old(table.keys), oks) else old(table.keys)
    {
      ghost var mine := Cells();
      ghost var keys0 := table.keys;
      ghost var entries0 := table.entries;
      assert forall t | t in oks :: t in theirs;
      var i := 0;
      while i < |oks|
        invariant 0 <= i <= |oks|
        invariant TableValid()
        invariant Cells() == MergeSeq(mode, mine, theirs, oks[..i])
        invariant table.keys == KeysSeq(mode, keys0, oks[..i])
      {
        var t := oks[i];
        MergeSeqSnoc(mode, mine, theirs, oks, i);
        KeysSeqSnoc(mode, keys0, oks, i);
        AppendNewOne(table.keys, t);
        CopyTurn(t, theirs[t], mode);
        i := i + 1;
      }
      MergeLoopComplete(mode, mine, theirs, oks, keys0);
    }

    /** One turn of `CopyEach`: a new sequence holding `v` for `t` when the
        mode takes it. */
    method CopyTurn(t: Taxon, v: seq<Cell>, mode: Merge)
      requires TableValid() && !mode.ExtendsShared()
      modifies this`table
      ensures TableValid()
      ensures Cells() == MergeOne(mode, old(Cells()), t, v)
      ensures table.keys == if mode.AddsTaxa() then AppendNew(old(table.keys), [t]) else old(table.keys)
      ensures fresh(table.entries.Values - old(table.entries.Values))
    {
      if (Contains(t) && mode.ReplacesShared()) || (!Contains(t) && mode.AddsTaxa()) {
        Store(t, v);
      }
    }

    /** The loop shared by `extend_sequences` and `extend_matrix`: each
        shared taxon's sequence is extended in place by the source's cells;
        with `addNew`, the other taxa get a copy. */
    method ExtendFrom(other: CharacterMatrix, addNew: bool, ghost avoid: set<CharacterSequence>)
      requires Valid() && other.Valid()
      requires SharesOnlySameTaxon(other) && Avoids(avoid)
      modifies this`table, table.entries.Values
      ensures Valid()
      ensures Cells() == Merged(if addNew then ExtendAll else ExtendShared, old(Cells()), old(other.Cells()))
      ensures table.keys == if addNew then AppendNew(old(table.keys), old(other.table.keys)) else old(table.keys)
      ensures forall t | t in old(table.entries) :: t in table.entries && table.entries[t] == old(table.entries[t])
      ensures Avoids(avoid)
      ensures forall u | u in table.entries && u !in old(table.entries) :: fresh(table.entries[u])
    {
      ExtendEach(other.table.keys, other.table.entries, other.Cells(), if addNew then ExtendAll else ExtendShared, avoid);
    }

    /** The loop of `ExtendFrom` over the source's taxa `oks`, whose
        sequences `oes` hold `theirs`. The source's sequences are read as the
        loop reaches them: one this matrix also holds is extended only under
        its own taxon, so each is read before it is extended. */
    method ExtendEach(oks: seq<Taxon>, oes: map<Taxon, CharacterSequence>, ghost theirs: Contents, mode: Merge,
                      ghost avoid: set<CharacterSequence>)
      requires mode.ExtendsShared() && Avoids(avoid)
      requires TableValid() && Distinct(oks) && oes.Keys == Elements(oks) && theirs.Keys == oes.Keys
      requires forall t | t in oes :: oes[t].cells == theirs[t]
      requires forall t, u | t in oes && u in table.entries && t != u :: oes[t] != table.entries[u]
      modifies this`table, table.entries.Values
      ensures TableValid()
      ensures Cells() == Merged(mode, old(Cells()), theirs)
      ensures table.keys == if mode.AddsTaxa() then AppendNew(old(table.keys), oks) else old(table.keys)
      ensures forall t | t in old(table.entries) :: t in table.entries && table.entries[t] == old(table.entries[t])
      ensures Avoids(avoid)
      ensures forall u | u in table.entries && u !in old(table.entries) :: fresh(table.entries[u])
    {
      ghost var mine := Cells();
      ghost var keys0 := table.keys;
      ghost var entries0 := table.entries;
      ExtendLoopStart(oks, oes, theirs, mode);
      var i := 0;
      while i < |oks|
        invariant 0 <= i <= |oks|
        invariant ExtendLoopState(oks, oes, theirs, mine, keys0, entries0, mode, i)
        invariant Avoids(avoid)
        invariant forall u | u in table.entries && u !in entries0 :: fresh(table.entries[u])
      {
        i := ExtendStep(oks, oes, theirs, mine, keys0, entries0, mode, i, avoid);
      }
      ExtendLoopDone(oks, oes, theirs, mine, keys0, entries0, mode);
    }

    /** What `ExtendEach` knows after its first `i` turns. */
    ghost predicate ExtendLoopState(oks: seq<Taxon>, oes: map<Taxon, CharacterSequence>, theirs: Contents,
                                    mine: Contents, keys0: seq<Taxon>, entries0: map<Taxon, CharacterSequence>,
                                    mode: Merge, i: nat)
      reads this, table.entries.Values, oes.Values
    {
      && ExtendedUpTo(oks, theirs, mine, keys0, entries0, mode, i)
      && (forall j | i <= j < |oks| :: oks[j] in oes && oes[oks[j]].cells == theirs[oks[j]])
    }

    /** The table after the first `i` turns of `ExtendEach`. */
    ghost predicate ExtendedUpTo(oks: seq<Taxon>, theirs: Contents, mine: Contents, keys0: seq<Taxon>,
                                 entries0: map<Taxon, CharacterSequence>, mode: Merge, i: nat)
      reads this, table.entries.Values
    {
      && i <= |oks|
      && (forall t | t in oks :: t in theirs)
      && TableValid()
      && Cells() == MergeSeq(mode, mine, theirs, oks[..i])
      && table.keys == KeysSeq(mode, keys0, oks[..i])
      && (forall u | u in entries0 :: u in table.entries && table.entries[u] == entries0[u])
      && table.entries.Keys <= entries0.Keys + Elements(oks[..i])
    }

    /** The state `ExtendEach` starts from. */
    lemma ExtendLoopStart(oks: seq<Taxon>, oes: map<Taxon, CharacterSequence>, theirs: Contents, mode: Merge)
      requires TableValid() && oes.Keys == Elements(oks) && theirs.Keys == oes.Keys
      requires forall t | t in oes :: oes[t].cells == theirs[t]
      ensures ExtendLoopState(oks, oes, theirs, Cells(), table.keys, table.entries, mode, 0)
    {
      assert oks[..0] == [];
    }

    /** The state `ExtendEach` leaves after its last turn. */
    lemma ExtendLoopDone(oks: seq<Taxon>, oes: map<Taxon, CharacterSequence>, theirs: Contents,
                         mine: Contents, keys0: seq<Taxon>, entries0: map<Taxon, CharacterSequence>, mode: Merge)
      requires Distinct(oks) && theirs.Keys == Elements(oks)
      requires ExtendLoopState(oks, oes, theirs, mine, keys0, entries0, mode, |oks|)
      ensures TableValid()
      ensures Cells() == Merged(mode, mine, theirs)
      ensures table.keys == if mode.AddsTaxa() then AppendNew(keys0, oks) else keys0
      ensures forall u | u in entries0 :: u in table.entries && table.entries[u] == entries0[u]
    {
      MergeLoopComplete(mode, mine, theirs, oks, keys0);
    }

    /** The loop of `ExtendEach` run on the cells `theirs` another matrix
        holds under its taxa `oks` rather than on its sequence objects: what
        `extend` does when none of that matrix's sequences is one of this
        matrix's, so none changes while the loop reads them. */
    method ExtendWith(oks: seq<Taxon>, theirs: Contents, mode: Merge)
      requires mode.ExtendsShared() && TableValid() && Distinct(oks) && theirs.Keys == Elements(oks)
      modifies this`table, table.entries.Values
      ensures TableValid()
      ensures Cells() == Merged(mode, old(Cells()), theirs)
      ensures table.keys == if mode.AddsTaxa() then AppendNew(old(table.keys), oks) else old(table.keys)
      ensures forall t | t in old(table.entries) :: t in table.entries && table.entries[t] == old(table.entries[t])
      ensures forall u | u in table.entries && u !in old(table.entries) :: fresh(table.entries[u])
    {
      ghost var mine := Cells();
      ghost var keys0 := table.keys;
      ghost var entries0 := table.entries;
      ExtendedStart(oks, theirs, mode);
      var i := 0;
      while i < |oks|
        invariant 0 <= i <= |oks|
        invariant ExtendedUpTo(oks, theirs, mine, keys0, entries0, mode, i)
        invariant forall u | u in table.entries && u !in entries0 :: fresh(table.entries[u])
      {
        ExtendAt(oks, theirs[oks[i]], theirs, mine, keys0, entries0, mode, i, {});
        i := i + 1;
      }
      ExtendedDone(oks, theirs, mine, keys0, entries0, mode);
    }

    /** The state `ExtendWith` starts from. */
    lemma ExtendedStart(oks: seq<Taxon>, theirs: Contents, mode: Merge)
      requires TableValid() && theirs.Keys == Elements(oks)
      ensures ExtendedUpTo(oks, theirs, Cells(), table.keys, table.entries, mode, 0)
    {
      assert oks[..0] == [];
    }

    /** The state `ExtendWith` leaves after its last turn. */
    lemma ExtendedDone(oks: seq<Taxon>, theirs: Contents, mine: Contents, keys0: seq<Taxon>,
                       entries0: map<Taxon, CharacterSequence>, mode: Merge)
      requires Distinct(oks) && theirs.Keys == Elements(oks)
      requires ExtendedUpTo(oks, theirs, mine, keys0, entries0, mode, |oks|)
      ensures TableValid()
      ensures Cells() == Merged(mode, mine, theirs)
      ensures table.keys == if mode.AddsTaxa() then AppendNew(keys0, oks) else keys0
      ensures forall u | u in entries0 :: u in table.entries && table.entries[u] == entries0[u]
    {
      MergeLoopComplete(mode, mine, theirs, oks, keys0);
    }

    /** Turn `i` of `ExtendEach`: the source's sequences still to come are
        not the one this turn extends, so they keep their cells. */
    method ExtendStep(oks: seq<Taxon>, oes: map<Taxon, CharacterSequence>, ghost theirs: Contents,
                      ghost mine: Contents, ghost keys0: seq<Taxon>, ghost entries0: map<Taxon, CharacterSequence>,
                      mode: Merge, i: nat, ghost avoid: set<CharacterSequence>) returns (next: nat)
      requires mode.ExtendsShared() && Distinct(oks) && i < |oks| && Avoids(avoid)
      requires forall t, u | t in oes && u in entries0 && t != u :: oes[t] != entries0[u]
      requires ExtendLoopState(oks, oes, theirs, mine, keys0, entries0, mode, i)
      modifies this`table, if oks[i] in entries0 then {entries0[oks[i]]} else {}
      ensures next == i + 1 && ExtendLoopState(oks, oes, theirs, mine, keys0, entries0, mode, next)
      ensures Avoids(avoid)
      ensures forall u | u in old(table.entries) :: u in table.entries && table.entries[u] == old(table.entries[u])
      ensures forall u | u in table.entries && u !in old(table.entries) :: fresh(table.entries[u])
    {
      var t := oks[i];
      ghost var target := if t in entries0 then {entries0[t]} else {};
      DistinctMeans(oks);
      assert forall j | i < j < |oks| :: oes[oks[j]] !in target;
      ExtendAt(oks, oes[t].cells, theirs, mine, keys0, entries0, mode, i, avoid);
      forall j | i < j < |oks| ensures oes[oks[j]].cells == theirs[oks[j]] {
        assert oes[oks[j]] !in target;
      }
      next := i + 1;
    }

    /** The table side of turn `i` of `ExtendEach`, given the cells `more`
        of the source's sequence. */
    method ExtendAt(oks: seq<Taxon>, more: seq<Cell>, ghost theirs: Contents, ghost mine: Contents,
                    ghost keys0: seq<Taxon>, ghost entries0: map<Taxon, CharacterSequence>, mode: Merge, i: nat,
                    ghost avoid: set<CharacterSequence>)
      requires mode.ExtendsShared() && Distinct(oks) && i < |oks| && Avoids(avoid)
      requires ExtendedUpTo(oks, theirs, mine, keys0, entries0, mode, i)
      requires more == theirs[oks[i]]
      modifies this`table, if oks[i] in entries0 then {entries0[oks[i]]} else {}
      ensures ExtendedUpTo(oks, theirs, mine, keys0, entries0, mode, i + 1)
      ensures Avoids(avoid)
      ensures forall u | u in old(table.entries) :: u in table.entries && table.entries[u] == old(table.entries[u])
      ensures forall u | u in table.entries && u !in old(table.entries) :: fresh(table.entries[u])
    {
      var t := oks[i];
      DistinctNotInPrefix(oks, i);
      ElementsPrefix(oks, i);
      MergeSeqSnoc(mode, mine, theirs, oks, i);
      KeysSeqSnoc(mode, keys0, oks, i);
      AppendNewOne(table.keys, t);
      assert t in table.entries ==> t in entries0;
      ExtendTurn(t, more, mode, avoid);
    }

    /** One turn of `ExtendEach`: the sequence of `t` extended in place by
        `v`, or with `addNew` a new sequence holding it. */
    method ExtendTurn(t: Taxon, v: seq<Cell>, mode: Merge, ghost avoid: set<CharacterSequence>)
      requires TableValid() && mode.ExtendsShared() && Avoids(avoid)
      modifies this`table, if t in table.entries then {table.entries[t]} else {}
      ensures TableValid()
      ensures Cells() == MergeOne(mode, old(Cells()), t, v)
      ensures table.keys == if mode.AddsTaxa() then AppendNew(old(table.keys), [t]) else old(table.keys)
      ensures forall u | u in old(table.entries) :: u in table.entries && table.entries[u] == old(table.entries[u])
      ensures Avoids(avoid)
      ensures forall u | u in table.entries && u !in old(table.entries) :: fresh(table.entries[u])
    {
      if Contains(t) {
        ExtendEntry(t, v);
      } else if mode.AddsTaxa() {
        StoreNew(t, v, avoid);
      }
    }

    /** `Store` for a taxon without a sequence: a new object, so the table
        still holds none of `avoid`. */
    method StoreNew(t: Taxon, cells: seq<Cell>, ghost avoid: set<CharacterSequence>)
      requires TableValid() && t !in table.entries && Avoids(avoid)
      modifies this`table
      ensures TableValid() && Avoids(avoid)
      ensures table.keys == AppendNew(old(table.keys), [t])
      ensures t in table.entries && table.entries == old(table.entries)[t := table.entries[t]]
      ensures fresh(table.entries[t])
      ensures Cells() == old(Cells())[t := cells]
    {
      Store(t, cells);
    }

    /** `add_sequences(other)`: a copy of each of `other`'s sequences whose
        taxon has none here; refused unless both share one namespace object. */
    method AddSequences(other: CharacterMatrix) returns (r: Outcome)
      requires Valid() && other.Valid()
      modifies this`table
      ensures Valid()
      ensures r.Fail? <==> other.ns != ns
      ensures r.Fail? ==> r.error == TaxonNamespaceError && table == old(table)
      ensures r.Pass? ==> Cells() == Merged(AddNew, old(Cells()), old(other.Cells()))
      ensures r.Pass? ==> table.keys == AppendNew(old(table.keys), old(other.table.keys))
    {
      if other.ns != ns {
        return Fail(TaxonNamespaceError);
      }
      CopyFrom(other, AddNew);
      return Pass;
    }

    /** `replace_sequences(other)`: a copy of `other`'s sequence for each taxon
        both hold; refused unless both share one namespace object. */
    method ReplaceSequences(other: CharacterMatrix) returns (r: Outcome)
      requires Valid() && other.Valid()
      modifies this`table
      ensures Valid()
      ensures r.Fail? <==> other.ns != ns
      ensures r.Fail? ==> r.error == TaxonNamespaceError && table == old(table)
      ensures r.Pass? ==> Cells() == Merged(ReplaceShared, old(Cells()), old(other.Cells()))
      ensures r.Pass? ==> table.keys == old(table.keys)
    {
      if other.ns != ns {
        return Fail(TaxonNamespaceError);
      }
      CopyFrom(other, ReplaceShared);
      return Pass;
    }

    /** `update_sequences(other)`: a copy of every one of `other`'s sequences;
        refused unless both share one namespace object. */
    method UpdateSequences(other: CharacterMatrix) returns (r: Outcome)
      requires Valid() && other.Valid()
      modifies this`table
      ensures Valid()
      ensures r.Fail? <==> other.ns != ns
      ensures r.Fail? ==> r.error == TaxonNamespaceError && table == old(table)
      ensures r.Pass? ==> Cells() == Merged(UpdateAll, old(Cells()), old(other.Cells()))
      ensures r.Pass? ==> table.keys == AppendNew(old(table.keys), old(other.table.keys))
    {
      if other.ns != ns {
        return Fail(TaxonNamespaceError);
      }
      CopyFrom(other, UpdateAll);
      return Pass;
    }

    /** `extend_sequences(other)`: each taxon both hold gets `other`'s cells
        appended in place; refused unless both share one namespace object. */
    method ExtendSequences(other: CharacterMatrix) returns (r: Outcome)
      requires Valid() && other.Valid() && SharesOnlySameTaxon(other)
      modifies this`table, table.entries.Values
      ensures Valid()
      ensures r.Fail? <==> other.ns != ns
      ensures r.Fail? ==> r.error == TaxonNamespaceError && table == old(table) && Cells() == old(Cells())
      ensures r.Pass? ==> Cells() == Merged(ExtendShared, old(Cells()), old(other.Cells()))
      ensures r.Pass? ==> table == old(table)
    {
      if other.ns != ns {
        return Fail(TaxonNamespaceError);
      }
      ExtendFrom(other, false, {});
      return Pass;
    }

    /** `extend_matrix(other)`: each taxon both hold gets `other`'s cells
        appended in place, every other taxon of `other` a copy of its
        sequence; refused unless both share one namespace object. */
    method ExtendMatrix(other: CharacterMatrix) returns (r: Outcome)
      requires Valid() && other.Valid() && SharesOnlySameTaxon(other)
      modifies this`table, table.entries.Values
      ensures Valid()
      ensures r.Fail? <==> other.ns != ns
      ensures r.Fail? ==> r.error == TaxonNamespaceError && table == old(table) && Cells() == old(Cells())
      ensures r.Pass? ==> Cells() == Merged(ExtendAll, old(Cells()), old(other.Cells()))
      ensures r.Pass? ==> table.keys == AppendNew(old(table.keys), old(other.table.keys))
      ensures r.Pass? ==> forall t | t in old(table.entries) :: table.entries[t] == old(table.entries[t])
    {
      if other.ns != ns {
        return Fail(TaxonNamespaceError);
      }
      ExtendFrom(other, true, {});
      return Pass;
    }

    /** The `default_state_alphabet` getter: the nominated alphabet, else the
        only registered one; none or several registered is a type error. */
    function DefaultStateAlphabet(): (r: Result<StateAlphabet>)
      reads this
      ensures defaultAlphabet.Some? ==> r == Ok(defaultAlphabet.value)
      ensures defaultAlphabet.None? ==> (r.Ok? <==> |stateAlphabets| == 1)
      ensures defaultAlphabet.None? && r.Ok? ==> r.value == stateAlphabets[0]
      ensures defaultAlphabet.None? && |stateAlphabets| == 0 ==> r == Err(TypeError(NoAlphabets))
      ensures defaultAlphabet.None? && |stateAlphabets| > 1 ==> r == Err(TypeError(MultipleAlphabets))
    {
      if defaultAlphabet.Some? then Ok(defaultAlphabet.value)
      else if |stateAlphabets| == 1 then Ok(stateAlphabets[0])
      else if |stateAlphabets| > 1 then Err(TypeError(MultipleAlphabets))
      else Err(TypeError(NoAlphabets))
    }

    /** The `default_state_alphabet` setter: registers the alphabet unless it
        already is, and nominates it. */
    method SetDefaultStateAlphabet(sa: StateAlphabet)
      requires kind.Discrete()
      modifies this`stateAlphabets, this`defaultAlphabet
      ensures stateAlphabets == AppendNew(old(stateAlphabets), [sa])
      ensures sa in stateAlphabets && defaultAlphabet == Some(sa)
      ensures DefaultStateAlphabet() == Ok(sa)
    {
      if sa !in stateAlphabets {
        stateAlphabets := stateAlphabets + [sa];
      }
      defaultAlphabet := Some(sa);
    }
  

    /** The cell loop of `remap_to_state_alphabet_by_symbol` for the sequence of `k`. */
    method RemapEntry(k: Taxon, sa: StateAlphabet) returns (r: Outcome)
      requires TableValid() && k in table.entries
      modifies table.entries[k]
      ensures r.Pass? <==> RemapCells(old(Cells())[k], sa).Ok?
      ensures r.Pass? ==> Cells() == old(Cells())[k := RemapCells(old(Cells())[k], sa).value]
      ensures r.Fail? ==> r.error == RemapCells(old(Cells())[k], sa).error
      ensures r.Fail? ==> Cells() == old(Cells())[k := RemappedUntilStuck(old(Cells())[k], sa)]
    {
      var s := table.entries[k];
      ghost var before := Cells();
      r := s.RemapBySymbol(sa);
      forall t | t in table.entries && t != k ensures Cells()[t] == before[t] {
        assert table.entries[t] != s;
      }
      UpdatedContents(Cells(), before, k, s.cells);
    }

    /** What the sequence loop of `remap_to_state_alphabet_by_symbol` knows
        after its first `i` turns without an error. */
    ghost predicate RemapState(before: Contents, keys: seq<Taxon>, sa: StateAlphabet, i: nat)
      reads this`table, table.entries.Values
    {
      && i <= |keys|
      && (forall t | t in keys :: t in before)
      && (forall j | 0 <= j < i :: RemapCells(before[keys[j]], sa).Ok?)
      && Cells() == Remapped(before, Elements(keys[..i]), sa)
    }

    /** The contents after remapping the `i`-th sequence too. */
    static lemma RemapNext(before: Contents, keys: seq<Taxon>, sa: StateAlphabet, i: nat, now: Contents)
      requires i < |keys| && (forall t | t in keys :: t in before)
      requires forall j | 0 <= j < i :: RemapCells(before[keys[j]], sa).Ok?
      requires RemapCells(before[keys[i]], sa).Ok?
      requires now == Remapped(before, Elements(keys[..i]), sa)[keys[i] := RemapCells(before[keys[i]], sa).value]
      ensures forall j | 0 <= j < i + 1 :: RemapCells(before[keys[j]], sa).Ok?
      ensures now == Remapped(before, Elements(keys[..i + 1]), sa)
    {
      RemappedStep(before, Elements(keys[..i]), sa, keys[i]);
      ElementsPrefix(keys, i);
    }

    /** The sequence loop walks `keys`, the table's keys, from the cells `before`. */
    ghost predicate RemapFrame(keys: seq<Taxon>, before: Contents)
      reads this`table
    {
      TableValid() && keys == table.keys && before.Keys == table.entries.Keys
    }

    /** Turn `i` of the sequence loop: remaps the `i`-th sequence in dict order. */
    method RemapTurn(keys: seq<Taxon>, ghost before: Contents, sa: StateAlphabet, i: nat) returns (next: nat, r: Outcome)
      requires i < |keys| && RemapFrame(keys, before) && RemapState(before, keys, sa, i)
      modifies table.entries[keys[i]]
      ensures RemapFrame(keys, before)
      ensures r.Pass? <==> RemapCells(before[keys[i]], sa).Ok?
      ensures r.Pass? ==> next == i + 1 && RemapState(before, keys, sa, next)
      ensures r.Fail? ==> r.error == RemapCells(before[keys[i]], sa).error
      ensures r.Fail? ==> Cells() == Remapped(before, Elements(keys[..i]), sa)[keys[i] :=
                                      RemappedUntilStuck(before[keys[i]], sa)]
    {
      var k := keys[i];
      r := RemapEntry(k, sa);
      next := i + 1;
      if r.Pass? {
        RemapNext(before, keys, sa, i, Cells());
      }
    }

    /** The sequence loop of `remap_to_state_alphabet_by_symbol`, over the
        sequences in dict order; it stops at the first cell that cannot be
        remapped, with the cells before it already remapped. */
    method RemapSequences(sa: StateAlphabet) returns (r: Outcome)
      requires Valid()
      modifies table.entries.Values
      ensures Valid()
      ensures r == RemapOutcome(old(Cells()), old(table.keys), sa)
      ensures Cells() == RemapLeaves(old(Cells()), old(table.keys), sa)
    {
      ghost var before := Cells();
      var keys := table.keys;
      RemapStart(before, keys, sa);
      var i := 0;
      while i < |keys|
        invariant 0 <= i <= |keys|
        invariant RemapFrame(keys, before) && RemapState(before, keys, sa, i)
      {
        var turn;
        ghost var at := i;
        i, turn := RemapTurn(keys, before, sa, i);
        if turn.Fail? {
          RemapStoppedAt(before, keys, sa, at, turn);
          return turn;
        }
      }
      RemapDone(before, keys, sa);
      return Pass;
    }

    /** The sequence loop starts from the cells as they are. */
    lemma RemapStart(before: Contents, keys: seq<Taxon>, sa: StateAlphabet)
      requires TableValid() && keys == table.keys && before == Cells()
      ensures RemapFrame(keys, before) && RemapState(before, keys, sa, 0)
    {
      assert keys[..0] == [];
      assert Remapped(before, {}, sa) == before;
    }

    /** The sequence loop ends with an error at turn `at`. */
    lemma RemapStoppedAt(before: Contents, keys: seq<Taxon>, sa: StateAlphabet, at: nat, r: Outcome)
      requires at < |keys| && forall t | t in keys :: t in before
      requires forall j | 0 <= j < at :: RemapCells(before[keys[j]], sa).Ok?
      requires r.Fail? && RemapCells(before[keys[at]], sa).Err?
      requires r.error == RemapCells(before[keys[at]], sa).error
      requires Cells() == Remapped(before, Elements(keys[..at]), sa)[keys[at] := RemappedUntilStuck(before[keys[at]], sa)]
      ensures r == RemapOutcome(before, keys, sa) && Cells() == RemapLeaves(before, keys, sa)
    {
      FirstUnmappableAt(before, keys, sa, at);
    }

    /** The sequence loop ends after its last turn. */
    lemma RemapDone(before: Contents, keys: seq<Taxon>, sa: StateAlphabet)
      requires RemapState(before, keys, sa, |keys|)
      ensures RemapOutcome(before, keys, sa) == Pass && Cells() == RemapLeaves(before, keys, sa)
    {
      FirstUnmappableAt(before, keys, sa, |keys|);
      ElementsWhole(keys);
    }

    /** `ct.state_alphabet = sa` for every column type. */
    method RetypeCharacters(sa: StateAlphabet)
      modifies set ct | ct in characterTypes
      ensures forall ct | ct in characterTypes :: ct.alphabet == Some(sa)
    {
      var i := 0;
      while i < |characterTypes|
        invariant 0 <= i <= |characterTypes|
        invariant forall j | 0 <= j < i :: characterTypes[j].alphabet == Some(sa)
      {
        characterTypes[i].alphabet := Some(sa);
        i := i + 1;
      }
    }

    /** `remap_to_state_alphabet_by_symbol(sa, purge)`: every cell's state
        replaced by the state of `sa` with its symbol, then every column type
        bound to `sa`, and with `purge` `sa` left as the only and default
        alphabet. A cell that cannot be remapped raises with the sequences
        before it remapped. */
    method RemapToStateAlphabetBySymbol(sa: StateAlphabet, purge: bool) returns (r: Outcome)
      requires Valid() && kind.Discrete()
      modifies table.entries.Values, set ct | ct in characterTypes, this`stateAlphabets, this`defaultAlphabet
      ensures Valid()
      ensures r == RemapOutcome(old(Cells()), old(table.keys), sa)
      ensures Cells() == RemapLeaves(old(Cells()), old(table.keys), sa)
      ensures r.Pass? ==> forall ct | ct in characterTypes :: ct.alphabet == Some(sa)
      ensures r.Pass? && purge ==> stateAlphabets == [sa] && defaultAlphabet == Some(sa)
      ensures r.Fail? || !purge ==> stateAlphabets == old(stateAlphabets) && defaultAlphabet == old(defaultAlphabet)
      ensures r.Fail? ==> forall ct | ct in old(characterTypes) :: ct.alphabet == old(ct.alphabet)
    {
      r := RemapSequences(sa);
      if r.Pass? {
        Rebind(sa, purge);
      }
    }

    /** The part of `remap_to_state_alphabet_by_symbol` after the cells:
        column types, and with `purge` the alphabet list and default. */
    method Rebind(sa: StateAlphabet, purge: bool)
      requires Valid() && kind.Discrete()
      modifies set ct | ct in characterTypes, this`stateAlphabets, this`defaultAlphabet
      ensures Valid() && Cells() == old(Cells())
      ensures forall ct | ct in characterTypes :: ct.alphabet == Some(sa)
      ensures purge ==> stateAlphabets == [sa] && defaultAlphabet == Some(sa)
      ensures !purge ==> stateAlphabets == old(stateAlphabets) && defaultAlphabet == old(defaultAlphabet)
    {
      RetypeCharacters(sa);
      if purge {
        stateAlphabets := [sa];
        SetDefaultStateAlphabet(sa);
      }
    }

    /** `remap_to_default_state_alphabet_by_symbol(purge)`: remapping onto the
        default alphabet, which must be found first. */
    method RemapToDefaultStateAlphabetBySymbol(purge: bool) returns (r: Outcome)
      requires Valid() && kind.Discrete()
      modifies table.entries.Values, set ct | ct in characterTypes, this`stateAlphabets, this`defaultAlphabet
      ensures Valid()
      ensures old(DefaultStateAlphabet()).Err? ==>
                r == Fail(old(DefaultStateAlphabet()).error) && Cells() == old(Cells()) &&
                stateAlphabets == old(stateAlphabets) && defaultAlphabet == old(defaultAlphabet)
      ensures old(DefaultStateAlphabet()).Ok? ==>
                var sa := old(DefaultStateAlphabet()).value;
                r == RemapOutcome(old(Cells()), old(table.keys), sa) &&
                Cells() == RemapLeaves(old(Cells()), old(table.keys), sa) &&
                (r.Pass? ==> forall ct | ct in characterTypes :: ct.alphabet == Some(sa)) &&
                (r.Pass? && purge ==> stateAlphabets == [sa] && defaultAlphabet == Some(sa)) &&
                (r.Fail? || !purge ==> stateAlphabets == old(stateAlphabets) && defaultAlphabet == old(defaultAlphabet)) &&
                (r.Fail? ==> forall ct | ct in old(characterTypes) :: ct.alphabet == old(ct.alphabet))
      ensures old(DefaultStateAlphabet()).Err? ==>
                forall ct | ct in old(characterTypes) :: ct.alphabet == old(ct.alphabet)
    {
      var d := DefaultStateAlphabet();
      if d.Err? {
        return Fail(d.error);
      }
      r := RemapToStateAlphabetBySymbol(d.value, purge);
    }

    /** `update_taxon_namespace()`: every taxon with a sequence that is not a
        member is added to the namespace, in dict order. */
    method UpdateTaxonNamespace()
      requires Valid()
      modifies ns
      ensures Valid()
      ensures ns.taxa == AppendNew(old(ns.taxa), table.keys)
      ensures forall t | t in table.entries :: t in ns.taxa
      ensures Elements(Taxa()) == table.entries.Keys
    {
      var keys := table.keys;
      var i := 0;
      while i < |keys|
        invariant 0 <= i <= |keys|
        invariant ns.Valid()
        invariant ns.taxa == AppendNew(old(ns.taxa), keys[..i])
      {
        AppendNewSnoc(old(ns.taxa), keys[..i], keys[i]);
        ElementsPrefix(keys, i);
        ns.AddTaxon(keys[i]);
        i := i + 1;
      }
      assert keys[..i] == keys;
      AppendNewFacts(old(ns.taxa), keys);
    }

    /** `add_character_subset(cs)`: refused when a subset already carries its
        label, ignoring case; returns the subset stored. */
    method AddCharacterSubset(cs: CharacterSubset) returns (r: Result<CharacterSubset>)
      requires Valid()
      modifies this`subsets
      ensures Valid()
      ensures r.Err? <==> old(HasLabel(subsets, cs.name))
      ensures r.Err? ==> r.error == ValueError(DuplicateSubsetLabel) && subsets == old(subsets)
      ensures r.Ok? ==> r.value == cs && subsets == AddSubset(old(subsets), cs).value
      ensures r.Ok? ==> subsets.keys == old(subsets.keys) + [Fold(cs.name)]
      ensures FindSubset(subsets, cs.name).Some?
    {
      var added := AddSubset(subsets, cs);
      if added.Err? {
        return Err(added.error);
      }
      subsets := added.value;
      return Ok(cs);
    }

    /** `new_character_subset(label, indices)` */
    method NewCharacterSubset(name: string, indices: set<int>) returns (r: Result<CharacterSubset>)
      requires Valid()
      modifies this`subsets
      ensures Valid()
      ensures r.Err? <==> old(HasLabel(subsets, name))
      ensures r.Err? ==> r.error == ValueError(DuplicateSubsetLabel) && subsets == old(subsets)
      ensures r.Ok? ==> r.value == CharacterSubset(name, indices)
      ensures r.Ok? ==> FindSubset(subsets, name) == Some(CharacterSubset(name, indices))
      ensures r.Ok? ==> subsets == AddSubset(old(subsets), CharacterSubset(name, indices)).value
      ensures r.Ok? ==> subsets.keys == old(subsets.keys) + [Fold(name)]
    {
      r := AddCharacterSubset(CharacterSubset(name, indices));
    }

    /** The alphabet step of the standard-data `extend`: each of the other
        matrix's alphabets `theirs` not registered here is appended, in order. */
    method AdoptStateAlphabets(theirs: seq<StateAlphabet>)
      modifies this`stateAlphabets
      ensures stateAlphabets == AppendNew(old(stateAlphabets), theirs)
    {
      var i := 0;
      while i < |theirs|
        invariant i <= |theirs|
        invariant stateAlphabets == AppendNew(old(stateAlphabets), theirs[..i])
      {
        AppendNewSnoc(old(stateAlphabets), theirs[..i], theirs[i]);
        ElementsPrefix(theirs, i);
        if theirs[i] !in stateAlphabets {
          stateAlphabets := stateAlphabets + [theirs[i]];
        }
        i := i + 1;
      }
      assert theirs[..|theirs|] == theirs;
    }

    /** The copy a clone starts from: everything of `src` but its sequences. */
    constructor Shell(src: CharacterMatrix)
      requires src.Valid()
      ensures Valid() && table == EmptyMap()
      ensures kind == src.kind && ns == src.ns && name == src.name
      ensures characterTypes == src.characterTypes && subsets == src.subsets
      ensures stateAlphabets == src.stateAlphabets && defaultAlphabet == src.defaultAlphabet
    {
      kind := src.kind;
      ns := src.ns;
      name := src.name;
      table := EmptyMap();
      characterTypes := src.characterTypes;
      subsets := src.subsets;
      stateAlphabets := src.stateAlphabets;
      defaultAlphabet := src.defaultAlphabet;
    }

    /** One sequence of an export: a new copy of `cells` holding only the
        columns in `keep`, stored under `t`. */
    method AddKept(t: Taxon, cells: seq<Cell>, keep: set<int>)
      requires TableValid()
      modifies this`table
      ensures TableValid()
      ensures table.keys == AppendNew(old(table.keys), [t])
      ensures Cells() == old(Cells())[t := Select(cells, keep)]
    {
      var s := new CharacterSequence(cells);
      s.KeepColumns(keep);
      Place(t, s);
    }

    /** `export_character_indices(indices)`: a clone on the same namespace
        whose every sequence keeps exactly the columns in `indices`, in their
        order; this matrix is left as it is. */
    method ExportCharacterIndices(indices: set<int>) returns (c: CharacterMatrix)
      requires Valid()
      ensures fresh(c) && c.Valid()
      ensures c.kind == kind && c.ns == ns && c.name == name && c.subsets == subsets
      ensures c.characterTypes == characterTypes
      ensures c.stateAlphabets == stateAlphabets && c.defaultAlphabet == defaultAlphabet
      ensures c.table.keys == table.keys
      ensures c.Cells() == SelectedOn(Cells(), table.entries.Keys, indices)
    {
      c := new CharacterMatrix.Shell(this);
      var keys := table.keys;
      ghost var mine := Cells();
      c.KeptStart(mine, keys, indices);
      var i := 0;
      while i < |keys|
        invariant 0 <= i <= |keys|
        invariant fresh(c) && c.KeptUpTo(mine, keys, indices, i)
        invariant c.name == name && c.subsets == subsets && c.characterTypes == characterTypes
        invariant c.stateAlphabets == stateAlphabets && c.defaultAlphabet == defaultAlphabet
      {
        assert table.entries[keys[i]].cells == mine[keys[i]];
        i := c.KeepTurn(mine, keys, indices, i, table.entries[keys[i]].cells);
      }
      c.KeptDone(mine, keys, indices);
    }

    /** A clone being exported after its first `i` sequences, of the taxa
        `keys` whose cells were `mine`. */
    ghost predicate KeptUpTo(mine: Contents, keys: seq<Taxon>, keep: set<int>, i: nat)
      reads this`table, table.entries.Values
    {
      && i <= |keys| && Distinct(keys) && mine.Keys == Elements(keys)
      && TableValid() && table.keys == keys[..i]
      && Cells() == SelectedOn(mine, Elements(keys[..i]), keep)
    }

    lemma KeptStart(mine: Contents, keys: seq<Taxon>, keep: set<int>)
      requires Distinct(keys) && mine.Keys == Elements(keys)
      requires TableValid() && table == EmptyMap()
      ensures KeptUpTo(mine, keys, keep, 0)
    {
      assert keys[..0] == [];
    }

    lemma KeptDone(mine: Contents, keys: seq<Taxon>, keep: set<int>)
      requires KeptUpTo(mine, keys, keep, |keys|)
      ensures TableValid() && table.keys == keys
      ensures Cells() == SelectedOn(mine, mine.Keys, keep)
    {
      assert keys[..|keys|] == keys;
    }

    /** Turn `i` of the export loop: the `i`-th taxon's cells, kept. */
    method KeepTurn(ghost mine: Contents, keys: seq<Taxon>, keep: set<int>, i: nat, cells: seq<Cell>) returns (next: nat)
      requires i < |keys| && KeptUpTo(mine, keys, keep, i) && cells == mine[keys[i]]
      modifies this`table
      ensures next == i + 1 && KeptUpTo(mine, keys, keep, next)
    {
      var t := keys[i];
      DistinctNotInPrefix(keys, i);
      ElementsPrefix(keys, i);
      AppendNewOne(table.keys, t);
      SelectedOnStep(mine, Elements(keys[..i]), keep, t);
      AddKept(t, cells, keep);
      next := i + 1;
    }

    /** The subset `export_character_subset` exports: a label is looked up
        among the stored subsets, ignoring case. */
    function ResolveSubset(ref: SubsetRef): (r: Result<CharacterSubset>)
      reads this
      ensures ref.SubsetGiven? ==> r == Ok(ref.subset)
      ensures ref.SubsetNamed? ==> (r.Ok? <==> HasLabel(subsets, ref.name))
      ensures r.Err? ==> r.error == KeyError
      ensures ref.SubsetNamed? && r.Ok? && WellKeyed(subsets) ==>
                r.value in subsets.entries.Values && LabelMatches(r.value.name, ref.name, false)
    {
      match ref
      case SubsetGiven(cs) => Ok(cs)
      case SubsetNamed(wanted) =>
        var found := FindSubset(subsets, wanted);
        if found.Some? then Ok(found.value) else Err(KeyError)
    }

    /** `export_character_subset(subset)`: the export of the subset's columns. */
    method ExportCharacterSubset(ref: SubsetRef) returns (r: Result<CharacterMatrix>)
      requires Valid()
      ensures ResolveSubset(ref).Err? ==> r == Err(ResolveSubset(ref).error)
      ensures ResolveSubset(ref).Ok? ==>
                r.Ok? && fresh(r.value) && r.value.Valid() && r.value.ns == ns &&
                r.value.kind == kind && r.value.name == name && r.value.subsets == subsets &&
                r.value.characterTypes == characterTypes &&
                r.value.stateAlphabets == stateAlphabets && r.value.defaultAlphabet == defaultAlphabet &&
                r.value.table.keys == table.keys &&
                r.value.Cells() == SelectedOn(Cells(), table.entries.Keys, ResolveSubset(ref).value.indices)
    {
      var cs := ResolveSubset(ref);
      if cs.Err? {
        return Err(cs.error);
      }
      var c := ExportCharacterIndices(cs.value.indices);
      return Ok(c);
    }

    /** `__copy__`: a new matrix of the same kind, label and namespace whose
        table holds this matrix's sequence objects themselves, in the same
        order; its subsets, column types and alphabets are those of a new
        matrix. */
    method ShallowCopy(builtins: Builtins) returns (c: CharacterMatrix)
      requires Valid()
      ensures fresh(c) && c.Valid()
      ensures c.kind == kind && c.ns == ns && c.name == name
      ensures c.table == table && c.Cells() == Cells()
      ensures c.SharesOnlySameTaxon(this) && SharesOnlySameTaxon(c)
      ensures c.characterTypes == [] && c.subsets.keys == []
      ensures kind.FixedAlphabet() ==>
                c.stateAlphabets == [builtins.For(kind), builtins.For(kind)] &&
                c.defaultAlphabet == Some(builtins.For(kind))
      ensures !kind.FixedAlphabet() ==> c.stateAlphabets == [] && c.defaultAlphabet == None
    {
      c := new CharacterMatrix(kind, ns, name, builtins);
      ghost var alphabets, default := c.stateAlphabets, c.defaultAlphabet;
      var keys := table.keys;
      assert keys[..0] == [];
      var i := 0;
      while i < |keys|
        invariant 0 <= i <= |keys|
        invariant fresh(c) && c.Valid() && c.kind == kind && c.ns == ns && c.name == name
        invariant c.characterTypes == [] && c.subsets.keys == []
        invariant c.stateAlphabets == alphabets && c.defaultAlphabet == default
        invariant c.table.keys == keys[..i]
        invariant c.table.entries == SharedUpTo(table, i)
      {
        SharedNext(table, i);
        c.Place(keys[i], table.entries[keys[i]]);
        i := i + 1;
      }
      SharedAll(table);
    }

    /** The entries of the first `i` keys of `table`. */
    static ghost function SharedUpTo(table: OrderedMap<Taxon, CharacterSequence>, i: nat): map<Taxon, CharacterSequence>
      requires i <= |table.keys|
    {
      map t | t in Elements(table.keys[..i]) && t in table.entries :: table.entries[t]
    }

    /** The next key is new, and its sequence is not among the entries so far. */
    static lemma SharedNext(table: OrderedMap<Taxon, CharacterSequence>, i: nat)
      requires table.Valid() && Unshared(table) && i < |table.keys|
      ensures var t := table.keys[i];
              && AppendNew(table.keys[..i], [t]) == table.keys[..i + 1]
              && table.entries[t] !in SharedUpTo(table, i).Values
              && SharedUpTo(table, i + 1) == SharedUpTo(table, i)[t := table.entries[t]]
    {
      var t := table.keys[i];
      DistinctNotInPrefix(table.keys, i);
      ElementsPrefix(table.keys, i);
      AppendNewOne(table.keys[..i], t);
      assert table.keys[..i] + [t] == table.keys[..i + 1];
      assert t in Elements(table.keys);
      forall u | u in SharedUpTo(table, i) ensures SharedUpTo(table, i)[u] != table.entries[t] {
        assert u != t;
      }
    }

    /** Every key shared is the whole table. */
    static lemma SharedAll(table: OrderedMap<Taxon, CharacterSequence>)
      requires table.Valid()
      ensures table.keys[..|table.keys|] == table.keys
      ensures SharedUpTo(table, |table.keys|) == table.entries
    {
      assert table.keys[..|table.keys|] == table.keys;
    }

    /** The taxon mapping of `_clone_from` towards the namespace `target`:
        each taxon of this namespace maps to itself when the namespace is
        kept, otherwise to the member of `target` its label requires. */
    method CloneTaxonMapping(target: TaxonNamespace) returns (memo: map<Taxon, Taxon>)
      requires Valid() && target.Valid()
      modifies target
      ensures target.Valid()
      ensures memo.Keys == Elements(old(ns.taxa))
      ensures target == ns ==> target.taxa == old(target.taxa) && forall t | t in memo :: memo[t] == t
      ensures target != ns ==>
                |target.taxa| >= |old(target.taxa)| && target.taxa[..|old(target.taxa)|] == old(target.taxa)
      ensures target != ns ==> RequiredAmong(target.taxa, target.isCaseSensitive, memo)
    {
      var taxa := ns.taxa;
      memo := map[];
      if target == ns {
        var i := 0;
        while i < |taxa|
          invariant 0 <= i <= |taxa|
          invariant memo.Keys == Elements(taxa[..i]) && forall t | t in memo :: memo[t] == t
          invariant target.taxa == old(target.taxa)
        {
          ElementsPrefix(taxa, i);
          memo := memo[taxa[i] := taxa[i]];
          i := i + 1;
        }
        assert taxa[..i] == taxa;
        return;
      }
      ghost var start := target.taxa;
      var i := 0;
      while i < |taxa|
        invariant 0 <= i <= |taxa|
        invariant target.Valid() && |target.taxa| >= |start| && target.taxa[..|start|] == start
        invariant memo.Keys == Elements(taxa[..i])
        invariant RequiredAmong(target.taxa, target.isCaseSensitive, memo)
      {
        ElementsPrefix(taxa, i);
        memo := RequireCounterpart(target, taxa[i], memo);
        i := i + 1;
      }
      assert taxa[..i] == taxa;
    }

    /** The taxon `from_dict` uses for `key`, looked up or registered in the
        namespace, now a member; with `cells` then stored under it. */
    method DictTurn(key: DictKey, cells: seq<Cell>, caseSensitive: bool) returns (t: Taxon)
      requires TableValid() && ns.Valid()
      modifies this`table, ns
      ensures TableValid() && ns.Valid() && t in ns.taxa
      ensures |ns.taxa| >= |old(ns.taxa)| && ns.taxa[..|old(ns.taxa)|] == old(ns.taxa)
      ensures key.TaxonKey? ==> t == key.taxon
      ensures key.LabelKey? ==> LabelMatches(t.name, key.name, caseSensitive)
      ensures key.LabelKey? && old(ns.GetTaxon(key.name, caseSensitive)).Some? ==>
                t == old(ns.GetTaxon(key.name, caseSensitive)).value
      ensures table.keys == AppendNew(old(table.keys), [t])
      ensures Cells() == old(Cells())[t := cells]
    {
      t := RequireDictKey(ns, key, caseSensitive);
      Store(t, cells);
    }

    /** What `from_dict` knows after its first `i` keys, resolved to `placed`:
        the namespace only grew, from `taxa0`, and the table holds the
        assignments so far on top of `keys0` and `cells0`. */
    ghost predicate DictState(source: seq<(DictKey, seq<Cell>)>, caseSensitive: bool, taxa0: seq<Taxon>,
                              keys0: seq<Taxon>, cells0: Contents, placed: seq<Taxon>, i: nat)
      reads this`table, table.entries.Values, ns
    {
      && i <= |source| && |placed| == i
      && TableValid() && ns.Valid()
      && |ns.taxa| >= |taxa0| && ns.taxa[..|taxa0|] == taxa0
      && Resolved(source, caseSensitive, taxa0, ns.taxa, placed)
      && table.keys == AppendNew(keys0, placed)
      && Cells() == AssignAll(cells0, placed, DictValues(source[..i]))
    }

    /** The entry for `from_dict`'s `i`-th key, for `i` up to the end. */
    method DictStep(source: seq<(DictKey, seq<Cell>)>, caseSensitive: bool, ghost taxa0: seq<Taxon>,
                    ghost keys0: seq<Taxon>, ghost cells0: Contents, ghost placed: seq<Taxon>, i: nat)
      returns (next: nat, ghost placed': seq<Taxon>)
      requires i < |source| && DictState(source, caseSensitive, taxa0, keys0, cells0, placed, i)
      modifies this`table, ns
      ensures next == i + 1 && DictState(source, caseSensitive, taxa0, keys0, cells0, placed', next)
    {
      ghost var before := ns.taxa;
      var t := DictTurn(source[i].0, source[i].1, caseSensitive);
      placed' := placed + [t];
      ResolvedStep(source, caseSensitive, taxa0, before, ns.taxa, placed, t);
      AppendNewSnoc(keys0, placed, t);
      DictValuesSnoc(source, i);
      AssignAllSnoc(cells0, placed, DictValues(source[..i]), t, source[i].1);
      next := i + 1;
    }

    /** `from_dict(d, m)`: each key of `d` in turn resolved to a namespace
        taxon, a label through `require_taxon`, a taxon registered unless
        a member, and its values stored under it; a later key resolving to
        the same taxon overwrites an earlier one. */
    method FromDict(source: seq<(DictKey, seq<Cell>)>, caseSensitive: bool) returns (ghost placed: seq<Taxon>)
      requires Valid()
      modifies this`table, ns
      ensures Valid()
      ensures |ns.taxa| >= |old(ns.taxa)| && ns.taxa[..|old(ns.taxa)|] == old(ns.taxa)
      ensures |placed| == |source| && Resolved(source, caseSensitive, old(ns.taxa), ns.taxa, placed)
      ensures table.keys == AppendNew(old(table.keys), placed)
      ensures Cells() == AssignAll(old(Cells()), placed, DictValues(source))
    {
      ghost var taxa0 := ns.taxa;
      ghost var keys0 := table.keys;
      ghost var cells0 := Cells();
      placed := [];
      assert source[..0] == [];
      var i := 0;
      while i < |source|
        invariant 0 <= i <= |source|
        invariant DictState(source, caseSensitive, taxa0, keys0, cells0, placed, i)
        invariant WellKeyed(subsets)
      {
        i, placed := DictStep(source, caseSensitive, taxa0, keys0, cells0, placed, i);
      }
      assert source[..i] == source;
    }

    /** The move at the end of a turn of `reconstruct_taxon_namespace`: the
        sequence of `o` is stored under `t`, appended to the key order, and
        `o` is deleted. */
    method Rekey(o: Taxon, t: Taxon)
      requires TableValid() && o in table.entries && t !in table.entries
      modifies this`table
      ensures TableValid()
      ensures table.entries == (old(table.entries) - {o})[t := old(table.entries)[o]]
      ensures table.keys == FilterOut(old(table.keys), {o}) + [t]
    {
      var s := table.entries[o];
      table := table.Put(t, s);
      assert table.keys == old(table.keys) + [t];
      FilterOutSnoc(old(table.keys), o, t);
      table := table.Remove(o);
    }

    /** What `reconstruct_taxon_namespace` knows after its first `i` turns
        over the taxa `table0.keys`, read on the current table and
        namespace (see `ReconValues`). */
    ghost predicate ReconState(table0: OrderedMap<Taxon, CharacterSequence>, memo0: map<Taxon, Taxon>,
                               taxa0: seq<Taxon>, unify: bool, caseSensitive: bool, quiet: bool,
                               memo: map<Taxon, Taxon>, placed: map<Taxon, Taxon>, targets: seq<Taxon>, i: nat)
      reads this`table, ns
    {
      && TableValid() && ns.Valid()
      && ReconValues(table0, memo0, taxa0, unify, caseSensitive, quiet, memo, placed, targets, i, table, ns.taxa)
    }

    lemma ReconStart(table0: OrderedMap<Taxon, CharacterSequence>, memo0: map<Taxon, Taxon>, taxa0: seq<Taxon>,
                     unify: bool, caseSensitive: bool, quiet: bool)
      requires TableValid() && ns.Valid() && table0 == table && taxa0 == ns.taxa
      requires quiet ==> memo0 == map[]
      ensures ReconState(table0, memo0, taxa0, unify, caseSensitive, quiet, memo0, map[], [], 0)
    {
      assert table0.keys[..0] == [] && table0.keys[0..] == table0.keys;
      assert ns.taxa[..|taxa0|] == taxa0;
    }

    lemma ReconDone(table0: OrderedMap<Taxon, CharacterSequence>, memo0: map<Taxon, Taxon>, taxa0: seq<Taxon>,
                    unify: bool, caseSensitive: bool, quiet: bool, memo: map<Taxon, Taxon>, placed: map<Taxon, Taxon>,
                    targets: seq<Taxon>)
      requires ReconState(table0, memo0, taxa0, unify, caseSensitive, quiet, memo, placed, targets, |table0.keys|)
      ensures TableValid() && ns.Valid() && |ns.taxa| >= |taxa0| && ns.taxa[..|taxa0|] == taxa0
      ensures MemoGrew(memo0, memo, unify, caseSensitive)
      ensures quiet ==> table == table0 && ns.taxa == taxa0
      ensures |targets| == |table0.keys| && NoClash(table0.keys, targets) && MemoHolds(table0.keys, targets, memo)
      ensures Chosen(table0.keys, targets, memo0, unify, caseSensitive, taxa0, ns.taxa)
      ensures forall x | x in targets :: x in ns.taxa
      ensures MovedUpTo(table0, targets, |targets|, table.entries) && Distinct(targets)
    {
      assert table0.keys[..|table0.keys|] == table0.keys;
      assert table0.keys[|table0.keys|..] == [];
      MovedFromPlaced(table0, placed, targets, [], table.entries);
      assert targets + [] == targets;
      NoClashDistinct(table0.keys, targets);
    }

    /** Turn `i` of `reconstruct_taxon_namespace`, for the taxon `o`: with
        `unify`, or when `o` is not a member, its sequence moves; otherwise
        it stays. */
    method ReconTurn(ghost table0: OrderedMap<Taxon, CharacterSequence>, ghost memo0: map<Taxon, Taxon>,
                     ghost taxa0: seq<Taxon>, unify: bool, caseSensitive: bool, ghost quiet: bool,
                     memo: map<Taxon, Taxon>, ghost placed: map<Taxon, Taxon>, ghost targets: seq<Taxon>,
                     i: nat, o: Taxon)
      returns (next: nat, memo': map<Taxon, Taxon>, ghost placed': map<Taxon, Taxon>, ghost t: Taxon, r: Outcome)
      requires i < |table0.keys| && o == table0.keys[i]
      requires ReconState(table0, memo0, taxa0, unify, caseSensitive, quiet, memo, placed, targets, i)
      requires quiet ==> unify && memo0 == map[] && FindByLabel(taxa0, o.name, caseSensitive) == Some(o)
      modifies this`table, ns
      ensures TableValid() && ns.Valid() && MemoGrew(memo0, memo', unify, caseSensitive)
      ensures |ns.taxa| >= |taxa0| && ns.taxa[..|taxa0|] == taxa0
      ensures r.Fail? ==> r.error == TaxonNamespaceReconstructionError && !quiet
      ensures next == i + 1
      ensures r.Pass? ==>
                ReconState(table0, memo0, taxa0, unify, caseSensitive, quiet, memo', placed', targets + [t], next)
      ensures r.Fail? ==> FailedAt(table0, memo0, taxa0, unify, caseSensitive, targets + [t], memo', ns.taxa)
      ensures r.Fail? ==> MovedUpTo(table0, targets + [t], |targets|, table.entries)
    {
      next := i + 1;
      ReconNext(table0, memo0, taxa0, unify, caseSensitive, quiet, memo, placed, targets, table, ns.taxa);
      if unify || o !in ns.taxa {
        memo', placed', t, r := ReconMove(table0, memo0, taxa0, unify, caseSensitive, quiet, memo, placed, targets, i, o);
      } else {
        memo', placed', t, r := memo, placed[o := o], o, Pass;
        StayStep(table0, memo0, taxa0, unify, caseSensitive, quiet, memo, placed, targets, table, ns.taxa);
      }
    }

    /** The moving branch of `ReconTurn`: the sequence of `o` goes to the
        target `ReconTarget` picks, unless another sequence is already
        there. */
    method ReconMove(ghost table0: OrderedMap<Taxon, CharacterSequence>, ghost memo0: map<Taxon, Taxon>,
                     ghost taxa0: seq<Taxon>, unify: bool, caseSensitive: bool, ghost quiet: bool,
                     memo: map<Taxon, Taxon>, ghost placed: map<Taxon, Taxon>, ghost targets: seq<Taxon>,
                     i: nat, o: Taxon)
      returns (memo': map<Taxon, Taxon>, ghost placed': map<Taxon, Taxon>, t: Taxon, r: Outcome)
      requires i < |table0.keys| && o == table0.keys[i]
      requires ReconState(table0, memo0, taxa0, unify, caseSensitive, quiet, memo, placed, targets, i)
      requires quiet ==> unify && memo0 == map[] && FindByLabel(taxa0, o.name, caseSensitive) == Some(o)
      requires unify || o !in ns.taxa
      requires o in table.entries
      modifies this`table, ns
      ensures TableValid() && ns.Valid() && MemoGrew(memo0, memo', unify, caseSensitive)
      ensures |ns.taxa| >= |taxa0| && ns.taxa[..|taxa0|] == taxa0
      ensures r.Fail? ==> r.error == TaxonNamespaceReconstructionError && !quiet
      ensures r.Pass? ==>
                ReconState(table0, memo0, taxa0, unify, caseSensitive, quiet, memo', placed', targets + [t], i + 1)
      ensures r.Fail? ==> FailedAt(table0, memo0, taxa0, unify, caseSensitive, targets + [t], memo', ns.taxa)
      ensures r.Fail? ==> MovedUpTo(table0, targets + [t], |targets|, table.entries)
    {
      ghost var table1, taxa1 := table, ns.taxa;
      t, memo' := ReconTarget(ns, o, memo, unify, caseSensitive);
      if Clash(table.entries.Keys, o, t) {
        FailStep(table0, memo0, taxa0, unify, caseSensitive, quiet, memo, placed, targets, table1, taxa1, t, memo',
                 ns.taxa);
        return memo', placed, t, Fail(TaxonNamespaceReconstructionError);
      }
      if t != o {
        Rekey(o, t);
      }
      placed', r := placed[o := t], Pass;
      MoveStep(table0, memo0, taxa0, unify, caseSensitive, quiet, memo, placed, targets, table1, taxa1, t, memo',
               table, ns.taxa);
    }

    /** `reconstruct_taxon_namespace(unify_taxa_by_label, taxon_mapping_memo)`
        with the guard as intended. Original `k` (in the table's order) gets
        the target `targets[k]` that `ChosenTarget` describes: with `unify`
        off a member keeps its sequence; otherwise the memo's entry (made a
        member), else with `unify` the first member whose label matches (a
        new one if none did), else a new taxon with the label. The call
        fails exactly when some turn's target is another taxon still holding
        a sequence (`ClashAt`); the turns before it have then moved their
        sequences, and the rest are where they were. */
    method ReconstructTaxonNamespace(unify: bool, caseSensitive: bool, memo0: map<Taxon, Taxon>)
      returns (r: Outcome, memo: map<Taxon, Taxon>, ghost targets: seq<Taxon>)
      requires Valid()
      modifies this`table, ns
      ensures Valid() && MemoGrew(memo0, memo, unify, caseSensitive)
      ensures |ns.taxa| >= |old(ns.taxa)| && ns.taxa[..|old(ns.taxa)|] == old(ns.taxa)
      ensures r.Fail? ==> r.error == TaxonNamespaceReconstructionError
      ensures Chosen(old(table.keys), targets, memo0, unify, caseSensitive, old(ns.taxa), ns.taxa)
      ensures forall x | x in targets :: x in ns.taxa
      ensures MemoHolds(old(table.keys), targets, memo)
      ensures r.Pass? <==> |targets| == |old(table.keys)| && NoClash(old(table.keys), targets)
      ensures r.Pass? ==> MovedUpTo(old(table), targets, |targets|, table.entries) && Distinct(targets)
      ensures r.Fail? ==> (0 < |targets| && NoClash(old(table.keys), targets[..|targets| - 1]) &&
                           ClashAt(old(table.keys), targets, |targets| - 1))
      ensures r.Fail? ==> MovedUpTo(old(table), targets, |targets| - 1, table.entries)
      ensures Quiet(old(table.keys), old(ns.taxa), memo0, unify, caseSensitive) ==>
                r == Pass && table == old(table) && ns.taxa == old(ns.taxa)
    {
      ghost var table0 := table;
      ghost var taxa0 := ns.taxa;
      ghost var quiet := Quiet(table.keys, ns.taxa, memo0, unify, caseSensitive);
      ghost var placed;
      ReconStart(table0, memo0, taxa0, unify, caseSensitive, quiet);
      r, memo, placed, targets := ReconLoop(table0, memo0, taxa0, unify, caseSensitive, quiet);
      if r.Pass? {
        ReconDone(table0, memo0, taxa0, unify, caseSensitive, quiet, memo, placed, targets);
      }
    }

    /** The loop of `reconstruct_taxon_namespace` over the original taxa,
        stopping at the first turn that meets the guard; `targets` holds the
        targets of the turns taken, that one included. */
    method ReconLoop(ghost table0: OrderedMap<Taxon, CharacterSequence>, memo0: map<Taxon, Taxon>,
                     ghost taxa0: seq<Taxon>, unify: bool, caseSensitive: bool, ghost quiet: bool)
      returns (r: Outcome, memo: map<Taxon, Taxon>, ghost placed: map<Taxon, Taxon>, ghost targets: seq<Taxon>)
      requires table == table0
      requires ReconState(table0, memo0, taxa0, unify, caseSensitive, quiet, memo0, map[], [], 0)
      requires quiet ==> (unify && memo0 == map[] &&
                          forall o | o in table0.keys :: FindByLabel(taxa0, o.name, caseSensitive) == Some(o))
      modifies this`table, ns
      ensures TableValid() && ns.Valid() && MemoGrew(memo0, memo, unify, caseSensitive)
      ensures |ns.taxa| >= |taxa0| && ns.taxa[..|taxa0|] == taxa0
      ensures r.Pass? ==> ReconState(table0, memo0, taxa0, unify, caseSensitive, quiet, memo, placed, targets,
                                     |table0.keys|)
      ensures r.Fail? ==> r.error == TaxonNamespaceReconstructionError && !quiet
      ensures r.Fail? ==> FailedAt(table0, memo0, taxa0, unify, caseSensitive, targets, memo, ns.taxa)
      ensures r.Fail? ==> MovedUpTo(table0, targets, |targets| - 1, table.entries)
    {
      var originals := table.keys;
      memo, placed, targets, r := memo0, map[], [], Pass;
      var i := 0;
      while i < |originals|
        invariant originals == table0.keys && i <= |originals| && |targets| == i && r == Pass
        invariant ReconState(table0, memo0, taxa0, unify, caseSensitive, quiet, memo, placed, targets, i)
        decreases |originals| - i
      {
        var turn;
        ghost var t;
        ghost var done := targets;
        i, memo, placed, t, turn :=
          ReconTurn(table0, memo0, taxa0, unify, caseSensitive, quiet, memo, placed, targets, i, originals[i]);
        targets := targets + [t];
        if turn.Fail? {
          assert |targets| - 1 == |done|;
          return turn, memo, placed, targets;
        }
      }
    }
  }

  /** The taxon `from_dict` uses for `key`: a label through `require_taxon`,
      a taxon as it is, registered unless a member. */
  method RequireDictKey(ns: TaxonNamespace, key: DictKey, caseSensitive: bool) returns (t: Taxon)
    requires ns.Valid()
    modifies ns
    ensures ns.Valid() && t in ns.taxa
    ensures |ns.taxa| >= |old(ns.taxa)| && ns.taxa[..|old(ns.taxa)|] == old(ns.taxa)
    ensures key.TaxonKey? ==> t == key.taxon
    ensures key.LabelKey? ==> LabelMatches(t.name, key.name, caseSensitive)
    ensures key.LabelKey? && old(ns.GetTaxon(key.name, caseSensitive)).Some? ==>
              t == old(ns.GetTaxon(key.name, caseSensitive)).value
  {
    match key {
      case LabelKey(n) =>
        t := ns.RequireTaxon(n, caseSensitive);
      case TaxonKey(given) =>
        t := given;
        ns.AddTaxon(t);
        AppendNewOne(old(ns.taxa), t);
    }
  }

  /** The values of `from_dict`'s pairs, in order. */
  function DictValues(source: seq<(DictKey, seq<Cell>)>): (r: seq<seq<Cell>>)
    ensures |r| == |source| && forall i | 0 <= i < |source| :: r[i] == source[i].1
  {
    seq(|source|, i requires 0 <= i < |source| => source[i].1)
  }

  lemma DictValuesSnoc(source: seq<(DictKey, seq<Cell>)>, i: nat)
    requires i < |source|
    ensures DictValues(source[..i + 1]) == DictValues(source[..i]) + [source[i].1]
  {
  }

  /** The taxa `placed` that the keys of `source` resolved to: members of
      `taxa`, the given taxon for a taxon key, and for a label the member of
      `taxa0` carrying it when there was one, otherwise a taxon with a
      matching label. */
  ghost predicate Resolved(source: seq<(DictKey, seq<Cell>)>, caseSensitive: bool, taxa0: seq<Taxon>,
                           taxa: seq<Taxon>, placed: seq<Taxon>)
  {
    |placed| <= |source| &&
    forall i | 0 <= i < |placed| :: ResolvedKey(source[i].0, caseSensitive, taxa0, taxa, placed[i])
  }

  /** The taxon `u` that `key` resolved to, a member of `taxa`. */
  ghost predicate ResolvedKey(key: DictKey, caseSensitive: bool, taxa0: seq<Taxon>, taxa: seq<Taxon>, u: Taxon) {
    && u in taxa
    && (key.TaxonKey? ==> u == key.taxon)
    && (key.LabelKey? ==> LabelMatches(u.name, key.name, caseSensitive))
    && (key.LabelKey? && FindByLabel(taxa0, key.name, caseSensitive).Some? ==>
          u == FindByLabel(taxa0, key.name, caseSensitive).value)
  }

  /** One more key resolved, by a namespace that only grew. */
  lemma ResolvedStep(source: seq<(DictKey, seq<Cell>)>, caseSensitive: bool, taxa0: seq<Taxon>,
                     before: seq<Taxon>, after: seq<Taxon>, placed: seq<Taxon>, t: Taxon)
    requires |placed| < |source| && Resolved(source, caseSensitive, taxa0, before, placed)
    requires |before| >= |taxa0| && before[..|taxa0|] == taxa0
    requires |after| >= |before| && after[..|before|] == before
    requires t in after
    requires source[|placed|].0.TaxonKey? ==> t == source[|placed|].0.taxon
    requires source[|placed|].0.LabelKey? ==> LabelMatches(t.name, source[|placed|].0.name, caseSensitive)
    requires source[|placed|].0.LabelKey? && FindByLabel(before, source[|placed|].0.name, caseSensitive).Some? ==>
               t == FindByLabel(before, source[|placed|].0.name, caseSensitive).value
    ensures Resolved(source, caseSensitive, taxa0, after, placed + [t])
  {
    var key := source[|placed|].0;
    if key.LabelKey? && FindByLabel(taxa0, key.name, caseSensitive).Some? {
      assert taxa0 + before[|taxa0|..] == before;
      FindByLabelAppend(taxa0, before[|taxa0|..], key.name, caseSensitive);
    }
    assert ResolvedKey(key, caseSensitive, taxa0, after, t);
    PrefixMembers(before, after);
    forall j | 0 <= j < |placed|
      ensures ResolvedKey(source[j].0, caseSensitive, taxa0, after, placed[j])
    {
      assert ResolvedKey(source[j].0, caseSensitive, taxa0, before, placed[j]);
    }
    assert forall j | 0 <= j < |placed| :: (placed + [t])[j] == placed[j];
  }

  /** Each taxon mapped so far maps to the member of `taxa` a lookup of its
      label finds. */
  ghost predicate RequiredAmong(taxa: seq<Taxon>, caseSensitive: bool, memo: map<Taxon, Taxon>) {
    forall u | u in memo :: memo[u] in taxa && FindByLabel(taxa, u.name, caseSensitive) == Some(memo[u])
  }

  /** Appending members keeps every lookup that found one. */
  lemma RequiredAmongAppend(taxa: seq<Taxon>, added: seq<Taxon>, caseSensitive: bool, memo: map<Taxon, Taxon>)
    requires RequiredAmong(taxa, caseSensitive, memo)
    ensures RequiredAmong(taxa + added, caseSensitive, memo)
  {
    forall u | u in memo
      ensures FindByLabel(taxa + added, u.name, caseSensitive) == Some(memo[u])
    {
      FindByLabelAppend(taxa, added, u.name, caseSensitive);
    }
  }

  /** One turn of the mapping loop of `_clone_from`: `require_taxon` in
      `target` for the label of `t`. */
  method RequireCounterpart(target: TaxonNamespace, t: Taxon, memo: map<Taxon, Taxon>) returns (next: map<Taxon, Taxon>)
    requires target.Valid() && RequiredAmong(target.taxa, target.isCaseSensitive, memo)
    modifies target
    ensures target.Valid() && RequiredAmong(target.taxa, target.isCaseSensitive, next)
    ensures |target.taxa| >= |old(target.taxa)| && target.taxa[..|old(target.taxa)|] == old(target.taxa)
    ensures next.Keys == memo.Keys + {t}
  {
    ghost var before := target.taxa;
    ghost var found := target.GetTaxon(t.name, target.isCaseSensitive);
    var t2 := target.RequireTaxon(t.name, target.isCaseSensitive);
    if found.Some? {
      RequiredFound(before, target.isCaseSensitive, memo, t, t2);
    } else {
      RequiredNew(before, target.isCaseSensitive, memo, t, t2);
    }
    next := memo[t := t2];
  }

  /** `require_taxon` found the member a lookup of the label finds. */
  lemma RequiredFound(taxa: seq<Taxon>, caseSensitive: bool, memo: map<Taxon, Taxon>, t: Taxon, t2: Taxon)
    requires RequiredAmong(taxa, caseSensitive, memo)
    requires FindByLabel(taxa, t.name, caseSensitive) == Some(t2)
    ensures RequiredAmong(taxa, caseSensitive, memo[t := t2])
  {
  }

  /** `require_taxon` appended a new member with the label, which no member had. */
  lemma RequiredNew(taxa: seq<Taxon>, caseSensitive: bool, memo: map<Taxon, Taxon>, t: Taxon, t2: Taxon)
    requires RequiredAmong(taxa, caseSensitive, memo)
    requires FindByLabel(taxa, t.name, caseSensitive).None? && t2.name == t.name
    ensures RequiredAmong(taxa + [t2], caseSensitive, memo[t := t2])
  {
    RequiredAmongAppend(taxa, [t2], caseSensitive, memo);
    FindByLabelAppend(taxa, [t2], t.name, caseSensitive);
    assert FindByLabel([t2], t.name, caseSensitive) == Some(t2);
  }

  /** The memo of `reconstruct_taxon_namespace` kept what it was given and
      gained only entries whose taxon carries the original's label: a
      matching one with `unify`, the same one otherwise. */
  ghost predicate MemoGrew(memo0: map<Taxon, Taxon>, memo: map<Taxon, Taxon>, unify: bool, caseSensitive: bool) {
    && (forall o | o in memo0 :: o in memo && memo[o] == memo0[o])
    && (forall o | o in memo && o !in memo0 ::
          if unify then LabelMatches(memo[o].name, o.name, caseSensitive) else memo[o].name == o.name)
  }

  lemma MemoGrewStep(memo0: map<Taxon, Taxon>, memo: map<Taxon, Taxon>, memo': map<Taxon, Taxon>,
                     unify: bool, caseSensitive: bool, o: Taxon, t: Taxon)
    requires MemoGrew(memo0, memo, unify, caseSensitive)
    requires memo' == memo || (o !in memo && memo' == memo[o := t] &&
               if unify then LabelMatches(t.name, o.name, caseSensitive) else t.name == o.name)
    ensures MemoGrew(memo0, memo', unify, caseSensitive)
  {
  }

  /** The taxa the sequences were moved to. */
  function Targets(placed: map<Taxon, Taxon>): set<Taxon> {
    set o | o in placed :: placed[o]
  }

  lemma TargetsPut(placed: map<Taxon, Taxon>, o: Taxon, t: Taxon)
    requires o !in placed
    ensures Targets(placed[o := t]) == Targets(placed) + {t}
  {
    forall x | x in Targets(placed) ensures x in Targets(placed[o := t]) {
      var y :| y in placed && placed[y] == x;
      assert placed[o := t][y] == x;
    }
    assert placed[o := t][o] == t;
  }

  /** The guard of `reconstruct_taxon_namespace` as written (line 595): a
      target that already has a sequence is an error, even when it is the
      original taxon itself. */
  predicate ClashAsWritten(keys: set<Taxon>, o: Taxon, t: Taxon) {
    t in keys
  }

  /** The guard as intended: an error only when the sequence would land on
      another taxon's sequence. */
  predicate Clash(keys: set<Taxon>, o: Taxon, t: Taxon) {
    t != o && t in keys
  }

  /** With `unify` (the default), a taxon that is a namespace member and the
      first to carry its label is required back as itself; the guard as
      written then raises on it, the intended guard lets it stay. */
  lemma SelfMappedClashesAsWritten(taxa: seq<Taxon>, keys: set<Taxon>, o: Taxon, caseSensitive: bool)
    requires o in keys && o in taxa
    requires forall j | 0 <= j < IndexOf(taxa, o) :: !LabelMatches(taxa[j].name, o.name, caseSensitive)
    ensures FindByLabel(taxa, o.name, caseSensitive) == Some(o)
    ensures ClashAsWritten(keys, o, FindByLabel(taxa, o.name, caseSensitive).value)
    ensures !Clash(keys, o, FindByLabel(taxa, o.name, caseSensitive).value)
  {
    FirstOfLabelFound(taxa, o, caseSensitive);
  }

  /** Every sequence key is a member that a lookup of its own label finds,
      and no memo is given: the setting where reconstruction has nothing to
      move. */
  predicate Quiet(keys: seq<Taxon>, taxa: seq<Taxon>, memo0: map<Taxon, Taxon>, unify: bool, caseSensitive: bool) {
    unify && memo0 == map[] && forall o | o in keys :: FindByLabel(taxa, o.name, caseSensitive) == Some(o)
  }

  /** The target `reconstruct_taxon_namespace` picks for `o`: the memo's
      entry, registered in the namespace; otherwise the member its label
      requires (with `unify`) or a new taxon with its label, remembered. */
  method ReconTarget(ns: TaxonNamespace, o: Taxon, memo: map<Taxon, Taxon>, unify: bool, caseSensitive: bool)
    returns (t: Taxon, memo': map<Taxon, Taxon>)
    requires ns.Valid()
    modifies ns
    ensures ns.Valid() && t in ns.taxa
    ensures |ns.taxa| >= |old(ns.taxa)| && ns.taxa[..|old(ns.taxa)|] == old(ns.taxa)
    ensures o in memo ==> t == memo[o] && memo' == memo
    ensures o !in memo ==> memo' == memo[o := t]
    ensures o !in memo && unify ==> LabelMatches(t.name, o.name, caseSensitive)
    ensures o !in memo && unify && old(ns.GetTaxon(o.name, caseSensitive)).Some? ==>
              t == old(ns.GetTaxon(o.name, caseSensitive)).value && ns.taxa == old(ns.taxa)
    ensures o !in memo && !unify ==> t.name == o.name && t != o
    ensures Picked(o, t, memo, memo', unify, caseSensitive, old(ns.taxa), ns.taxa)
  {
    if o in memo {
      t := memo[o];
      ns.AddTaxon(t);
      AppendNewOne(old(ns.taxa), t);
      memo' := memo;
    } else {
      if unify {
        t := ns.RequireTaxon(o.name, caseSensitive);
        if old(ns.GetTaxon(o.name, caseSensitive)).None? {
          FindByLabelAppend(old(ns.taxa), [t], o.name, caseSensitive);
          assert FindByLabel([t], o.name, caseSensitive) == Some(t);
        }
      } else {
        t := ns.NewTaxon(o.name);
      }
      memo' := memo[o := t];
    }
    assert ns.taxa[..|old(ns.taxa)|] == old(ns.taxa);
  }

  /** The sequences of the first `i` original taxa sit under their targets
      `placed`, the later ones are where they were, and nothing else is
      in `entries`. */
  ghost predicate PlacedUpTo(table0: OrderedMap<Taxon, CharacterSequence>, placed: map<Taxon, Taxon>, i: nat,
                             entries: map<Taxon, CharacterSequence>)
    requires table0.Valid() && i <= |table0.keys|
  {
    && placed.Keys == Elements(table0.keys[..i])
    && PlacedHeld(table0, placed, entries)
    && LaterHeld(table0, i, entries)
    && KeysSplit(table0, placed, i, entries)
  }

  ghost predicate PlacedHeld(table0: OrderedMap<Taxon, CharacterSequence>, placed: map<Taxon, Taxon>,
                             entries: map<Taxon, CharacterSequence>)
  {
    forall o | o in placed :: o in table0.entries && placed[o] in entries && entries[placed[o]] == table0.entries[o]
  }

  ghost predicate LaterHeld(table0: OrderedMap<Taxon, CharacterSequence>, i: nat, entries: map<Taxon, CharacterSequence>)
    requires table0.Valid() && i <= |table0.keys|
  {
    forall j | i <= j < |table0.keys| ::
      table0.keys[j] in entries && entries[table0.keys[j]] == table0.entries[table0.keys[j]]
  }

  ghost predicate KeysSplit(table0: OrderedMap<Taxon, CharacterSequence>, placed: map<Taxon, Taxon>, i: nat,
                            entries: map<Taxon, CharacterSequence>)
    requires i <= |table0.keys|
  {
    && entries.Keys == Targets(placed) + Elements(table0.keys[i..])
    && (forall o | o in placed :: placed[o] !in Elements(table0.keys[i..]))
  }

  lemma PlacedStay(table0: OrderedMap<Taxon, CharacterSequence>, placed: map<Taxon, Taxon>, i: nat,
                   entries: map<Taxon, CharacterSequence>)
    requires table0.Valid() && i < |table0.keys| && PlacedUpTo(table0, placed, i, entries)
    ensures PlacedUpTo(table0, placed[table0.keys[i] := table0.keys[i]], i + 1, entries)
  {
    ElementsPrefix(table0.keys, i);
    ElementsSuffix(table0.keys, i);
    DistinctNotInPrefix(table0.keys, i);
    HeldStay(table0, placed, i, entries);
    LaterStay(table0, i, entries);
    SplitStay(table0, placed, i, entries);
  }

  lemma HeldStay(table0: OrderedMap<Taxon, CharacterSequence>, placed: map<Taxon, Taxon>, i: nat,
                 entries: map<Taxon, CharacterSequence>)
    requires table0.Valid() && i < |table0.keys|
    requires PlacedHeld(table0, placed, entries) && LaterHeld(table0, i, entries)
    ensures PlacedHeld(table0, placed[table0.keys[i] := table0.keys[i]], entries)
  {
  }

  lemma LaterStay(table0: OrderedMap<Taxon, CharacterSequence>, i: nat, entries: map<Taxon, CharacterSequence>)
    requires table0.Valid() && i < |table0.keys| && LaterHeld(table0, i, entries)
    ensures LaterHeld(table0, i + 1, entries)
  {
  }

  lemma SplitStay(table0: OrderedMap<Taxon, CharacterSequence>, placed: map<Taxon, Taxon>, i: nat,
                  entries: map<Taxon, CharacterSequence>)
    requires i < |table0.keys| && KeysSplit(table0, placed, i, entries)
    requires Elements(table0.keys[i..]) == {table0.keys[i]} + Elements(table0.keys[i + 1..])
    requires table0.keys[i] !in Elements(table0.keys[i + 1..]) && table0.keys[i] !in placed
    ensures KeysSplit(table0, placed[table0.keys[i] := table0.keys[i]], i + 1, entries)
  {
    TargetsPut(placed, table0.keys[i], table0.keys[i]);
  }

  lemma PlacedMove(table0: OrderedMap<Taxon, CharacterSequence>, placed: map<Taxon, Taxon>, i: nat,
                   entries: map<Taxon, CharacterSequence>, entries': map<Taxon, CharacterSequence>, t: Taxon)
    requires table0.Valid() && i < |table0.keys| && PlacedUpTo(table0, placed, i, entries)
    requires t != table0.keys[i] && t !in entries
    requires entries' == (entries - {table0.keys[i]})[t := entries[table0.keys[i]]]
    ensures PlacedUpTo(table0, placed[table0.keys[i] := t], i + 1, entries')
  {
    ElementsPrefix(table0.keys, i);
    ElementsSuffix(table0.keys, i);
    DistinctNotInPrefix(table0.keys, i);
    HeldMove(table0, placed, i, entries, entries', t);
    LaterMove(table0, i, entries, entries', t);
    SplitMove(table0, placed, i, entries, entries', t);
  }

  lemma HeldMove(table0: OrderedMap<Taxon, CharacterSequence>, placed: map<Taxon, Taxon>, i: nat,
                 entries: map<Taxon, CharacterSequence>, entries': map<Taxon, CharacterSequence>, t: Taxon)
    requires table0.Valid() && i < |table0.keys|
    requires PlacedHeld(table0, placed, entries) && LaterHeld(table0, i, entries)
    requires forall o | o in placed :: placed[o] != table0.keys[i]
    requires t !in entries
    requires entries' == (entries - {table0.keys[i]})[t := entries[table0.keys[i]]]
    ensures PlacedHeld(table0, placed[table0.keys[i] := t], entries')
  {
  }

  lemma LaterMove(table0: OrderedMap<Taxon, CharacterSequence>, i: nat,
                  entries: map<Taxon, CharacterSequence>, entries': map<Taxon, CharacterSequence>, t: Taxon)
    requires table0.Valid() && i < |table0.keys| && LaterHeld(table0, i, entries)
    requires t !in entries
    requires entries' == (entries - {table0.keys[i]})[t := entries[table0.keys[i]]]
    ensures LaterHeld(table0, i + 1, entries')
  {
    DistinctMeans(table0.keys);
    forall j | i + 1 <= j < |table0.keys| ensures table0.keys[j] != table0.keys[i] {
    }
  }

  lemma SplitMove(table0: OrderedMap<Taxon, CharacterSequence>, placed: map<Taxon, Taxon>, i: nat,
                  entries: map<Taxon, CharacterSequence>, entries': map<Taxon, CharacterSequence>, t: Taxon)
    requires i < |table0.keys| && KeysSplit(table0, placed, i, entries)
    requires Elements(table0.keys[i..]) == {table0.keys[i]} + Elements(table0.keys[i + 1..])
    requires table0.keys[i] !in Elements(table0.keys[i + 1..]) && table0.keys[i] !in placed
    requires t !in entries
    requires entries'.Keys == (entries.Keys - {table0.keys[i]}) + {t}
    ensures KeysSplit(table0, placed[table0.keys[i] := t], i + 1, entries')
  {
    TargetsPut(placed, table0.keys[i], t);
  }

  /** The memo kept what it was given, and records every taxon whose
      sequence moved; with `unify` off, members stayed. */
  ghost predicate MemoKept(memo0: map<Taxon, Taxon>, memo: map<Taxon, Taxon>, placed: map<Taxon, Taxon>,
                           unify: bool, caseSensitive: bool, taxa0: seq<Taxon>)
  {
    && MemoGrew(memo0, memo, unify, caseSensitive)
    && (forall o | o in placed && placed[o] != o :: o in memo && memo[o] == placed[o])
    && (forall o | o in placed && !unify && o in taxa0 :: placed[o] == o)
  }

  lemma MemoStep(memo0: map<Taxon, Taxon>, memo: map<Taxon, Taxon>, memo': map<Taxon, Taxon>,
                 placed: map<Taxon, Taxon>, unify: bool, caseSensitive: bool, taxa0: seq<Taxon>, o: Taxon, t: Taxon)
    requires MemoKept(memo0, memo, placed, unify, caseSensitive, taxa0) && o !in placed
    requires MemoGrew(memo0, memo', unify, caseSensitive)
    requires memo' == memo || (o !in memo && memo' == memo[o := t])
    requires t != o ==> o in memo' && memo'[o] == t
    requires !unify && o in taxa0 ==> t == o
    ensures MemoKept(memo0, memo', placed[o := t], unify, caseSensitive, taxa0)
  {
  }

  lemma MembersStep(placed: map<Taxon, Taxon>, placed': map<Taxon, Taxon>, taxa: seq<Taxon>, taxa': seq<Taxon>,
                    o: Taxon, t: Taxon)
    requires forall x | x in placed :: placed[x] in taxa
    requires |taxa'| >= |taxa| && taxa'[..|taxa|] == taxa && t in taxa' && placed' == placed[o := t]
    ensures forall x | x in placed' :: placed'[x] in taxa'
  {
    PrefixMembers(taxa, taxa');
  }

  /** When nothing is to move: the table and namespace are as they were and
      every taxon done was placed on itself. */
  ghost predicate QuietUpTo(table0: OrderedMap<Taxon, CharacterSequence>, taxa0: seq<Taxon>,
                            memo: map<Taxon, Taxon>, placed: map<Taxon, Taxon>, i: nat,
                            table: OrderedMap<Taxon, CharacterSequence>, taxa: seq<Taxon>)
    requires i <= |table0.keys|
  {
    table == table0 && taxa == taxa0 && memo.Keys == Elements(table0.keys[..i]) &&
    forall o | o in placed :: placed[o] == o
  }

  lemma QuietStep(table0: OrderedMap<Taxon, CharacterSequence>, taxa0: seq<Taxon>,
                  memo: map<Taxon, Taxon>, placed: map<Taxon, Taxon>, i: nat,
                  table: OrderedMap<Taxon, CharacterSequence>, o: Taxon)
    requires i < |table0.keys| && o == table0.keys[i]
    requires QuietUpTo(table0, taxa0, memo, placed, i, table, taxa0)
    ensures QuietUpTo(table0, taxa0, memo[o := o], placed[o := o], i + 1, table, taxa0)
  {
    ElementsPrefix(table0.keys, i);
  }

  /** The target `reconstruct_taxon_namespace` chooses for the original taxon
      `o`, given the memo `memo0` it was called with, the namespace `taxa0` it
      started from, the namespace `taxa` it leaves and the targets `earlier`
      chosen before: with `unify` off a member keeps its sequence; otherwise
      the memo's entry; otherwise, with `unify`, the first member whose label
      matches (a new one if none did); otherwise a new taxon with the label. */
  ghost predicate ChosenTarget(o: Taxon, t: Taxon, memo0: map<Taxon, Taxon>, unify: bool, caseSensitive: bool,
                               taxa0: seq<Taxon>, taxa: seq<Taxon>, earlier: seq<Taxon>)
  {
    if !unify && o in taxa0 then t == o
    else if o in memo0 then t == memo0[o]
    else if unify then FindByLabel(taxa, o.name, caseSensitive) == Some(t)
    else t.name == o.name && t !in taxa0 && t !in earlier
  }

  /** Original `keys[k]` got the target `targets[k]`, for every turn taken. */
  ghost predicate Chosen(keys: seq<Taxon>, targets: seq<Taxon>, memo0: map<Taxon, Taxon>, unify: bool,
                         caseSensitive: bool, taxa0: seq<Taxon>, taxa: seq<Taxon>)
  {
    |targets| <= |keys| &&
    forall k | 0 <= k < |targets| ::
      ChosenTarget(keys[k], targets[k], memo0, unify, caseSensitive, taxa0, taxa, targets[..k])
  }

  /** The intended guard at turn `k`: the target is another taxon, and a
      sequence is there, moved there by an earlier turn or not yet moved away. */
  ghost predicate ClashAt(keys: seq<Taxon>, targets: seq<Taxon>, k: nat)
    requires k < |keys| && k < |targets|
  {
    targets[k] != keys[k] && (targets[k] in targets[..k] || targets[k] in keys[k + 1..])
  }

  /** No turn taken met the guard. */
  ghost predicate NoClash(keys: seq<Taxon>, targets: seq<Taxon>) {
    |targets| <= |keys| && forall k | 0 <= k < |targets| :: !ClashAt(keys, targets, k)
  }

  /** Every original whose sequence went elsewhere has its target in the memo. */
  ghost predicate MemoHolds(keys: seq<Taxon>, targets: seq<Taxon>, memo: map<Taxon, Taxon>)
    requires |targets| <= |keys|
  {
    forall k | 0 <= k < |targets| && targets[k] != keys[k] :: keys[k] in memo && memo[keys[k]] == targets[k]
  }

  /** The table after the first `d` moves: original `k < d` has its sequence
      under `targets[k]`, the later originals still hold theirs, and no other
      taxon holds one. */
  ghost predicate MovedUpTo(table0: OrderedMap<Taxon, CharacterSequence>, targets: seq<Taxon>, d: nat,
                            entries: map<Taxon, CharacterSequence>)
    requires table0.Valid() && d <= |table0.keys| && d <= |targets|
  {
    && entries.Keys == Elements(targets[..d]) + Elements(table0.keys[d..])
    && (forall k | 0 <= k < d :: targets[k] in entries && entries[targets[k]] == table0.entries[table0.keys[k]])
    && (forall k | d <= k < |table0.keys| ::
          table0.keys[k] in entries && entries[table0.keys[k]] == table0.entries[table0.keys[k]])
  }

  /** The last turn taken met the guard: the earlier turns did not, its
      target was chosen as the others were, and every target is a namespace
      member. */
  ghost predicate FailedAt(table0: OrderedMap<Taxon, CharacterSequence>, memo0: map<Taxon, Taxon>, taxa0: seq<Taxon>,
                           unify: bool, caseSensitive: bool, targets: seq<Taxon>, memo: map<Taxon, Taxon>,
                           taxa: seq<Taxon>)
  {
    && 0 < |targets| <= |table0.keys|
    && Chosen(table0.keys, targets, memo0, unify, caseSensitive, taxa0, taxa)
    && NoClash(table0.keys, targets[..|targets| - 1])
    && ClashAt(table0.keys, targets, |targets| - 1)
    && !NoClash(table0.keys, targets)
    && MemoHolds(table0.keys, targets, memo)
    && (forall x | x in targets :: x in taxa)
  }

  /** The intended guard keeps sequences apart: when no turn met it, no two
      originals got the same target. */
  lemma NoClashDistinct(keys: seq<Taxon>, targets: seq<Taxon>)
    requires Distinct(keys) && NoClash(keys, targets)
    ensures Distinct(targets)
  {
    forall j, k | 0 <= j < k < |targets| ensures targets[j] != targets[k] {
      assert targets[..k][j] == targets[j];
      assert keys[j + 1..][k - j - 1] == keys[k];
      assert !ClashAt(keys, targets, j) && !ClashAt(keys, targets, k);
    }
  }

  /** After a call that passed, read per taxon: the table holds a sequence
      exactly for each target, each original's sequence is under its own
      target, the memo records every target other than the original, and
      with `unify` off a member kept its sequence. */
  lemma MovedMeans(table0: OrderedMap<Taxon, CharacterSequence>, memo0: map<Taxon, Taxon>, taxa0: seq<Taxon>,
                   unify: bool, caseSensitive: bool, targets: seq<Taxon>, memo: map<Taxon, Taxon>, taxa: seq<Taxon>,
                   entries: map<Taxon, CharacterSequence>)
    requires table0.Valid() && |targets| == |table0.keys|
    requires MovedUpTo(table0, targets, |targets|, entries)
    requires Chosen(table0.keys, targets, memo0, unify, caseSensitive, taxa0, taxa)
    requires MemoHolds(table0.keys, targets, memo)
    ensures entries.Keys == Elements(targets)
    ensures forall k | 0 <= k < |targets| :: entries[targets[k]] == table0.entries[table0.keys[k]]
    ensures forall k | 0 <= k < |targets| && targets[k] != table0.keys[k] ::
              table0.keys[k] in memo && memo[table0.keys[k]] == targets[k]
    ensures forall k | 0 <= k < |targets| && !unify && table0.keys[k] in taxa0 :: targets[k] == table0.keys[k]
  {
    assert targets[..|targets|] == targets;
    assert table0.keys[|targets|..] == [];
    forall k | 0 <= k < |targets| && !unify && table0.keys[k] in taxa0 ensures targets[k] == table0.keys[k] {
      assert ChosenTarget(table0.keys[k], targets[k], memo0, unify, caseSensitive, taxa0, taxa, targets[..k]);
    }
  }

  /** What `ReconTarget` leaves: the namespace grew by `t` at most, and `t`
      is the memo's entry, the member the label finds, or a new taxon. */
  ghost predicate Picked(o: Taxon, t: Taxon, memo: map<Taxon, Taxon>, memo': map<Taxon, Taxon>, unify: bool,
                         caseSensitive: bool, taxa1: seq<Taxon>, taxa2: seq<Taxon>)
  {
    && |taxa2| >= |taxa1| && taxa2[..|taxa1|] == taxa1 && t in taxa2
    && (forall x | x in taxa2 :: x in taxa1 || x == t)
    && (o in memo ==> t == memo[o] && memo' == memo)
    && (o !in memo ==> memo' == memo[o := t])
    && (o !in memo && unify ==> FindByLabel(taxa2, o.name, caseSensitive) == Some(t))
    && (o !in memo && !unify ==> t.name == o.name && t !in taxa1)
    && (o !in memo && unify && FindByLabel(taxa1, o.name, caseSensitive).Some? ==>
          t == FindByLabel(taxa1, o.name, caseSensitive).value && taxa2 == taxa1)
  }

  /** The targets of the turns taken so far, against the loop's bookkeeping:
      `placed` records them, the namespace gained only them, and the memo
      gained entries only for the originals already handled. */
  ghost predicate TargetsKept(keys: seq<Taxon>, placed: map<Taxon, Taxon>, targets: seq<Taxon>,
                              memo0: map<Taxon, Taxon>, memo: map<Taxon, Taxon>, unify: bool, caseSensitive: bool,
                              taxa0: seq<Taxon>, taxa: seq<Taxon>)
  {
    && Chosen(keys, targets, memo0, unify, caseSensitive, taxa0, taxa) && NoClash(keys, targets)
    && MemoHolds(keys, targets, memo)
    && (forall k | 0 <= k < |targets| :: keys[k] in placed && placed[keys[k]] == targets[k])
    && (forall x | x in taxa :: x in taxa0 || x in targets)
    && (forall x | x in memo && x !in memo0 :: x in keys[..|targets|])
  }

  /** A longer namespace keeps every target chosen: label lookups that found
      a member still find it. */
  lemma ChosenGrow(keys: seq<Taxon>, targets: seq<Taxon>, memo0: map<Taxon, Taxon>, unify: bool,
                   caseSensitive: bool, taxa0: seq<Taxon>, taxa: seq<Taxon>, taxa': seq<Taxon>)
    requires Chosen(keys, targets, memo0, unify, caseSensitive, taxa0, taxa)
    requires |taxa'| >= |taxa| && taxa'[..|taxa|] == taxa
    ensures Chosen(keys, targets, memo0, unify, caseSensitive, taxa0, taxa')
  {
    var more := taxa'[|taxa|..];
    assert taxa' == taxa + more;
    forall k | 0 <= k < |targets|
      ensures ChosenTarget(keys[k], targets[k], memo0, unify, caseSensitive, taxa0, taxa', targets[..k])
    {
      FindByLabelAppend(taxa, more, keys[k].name, caseSensitive);
    }
  }

  lemma ChosenSnoc(keys: seq<Taxon>, targets: seq<Taxon>, memo0: map<Taxon, Taxon>, unify: bool,
                   caseSensitive: bool, taxa0: seq<Taxon>, taxa: seq<Taxon>, t: Taxon)
    requires Chosen(keys, targets, memo0, unify, caseSensitive, taxa0, taxa) && |targets| < |keys|
    requires ChosenTarget(keys[|targets|], t, memo0, unify, caseSensitive, taxa0, taxa, targets)
    ensures Chosen(keys, targets + [t], memo0, unify, caseSensitive, taxa0, taxa)
  {
    var l := targets + [t];
    assert l[..|targets|] == targets;
    forall k | 0 <= k < |targets| ensures l[..k] == targets[..k] && l[k] == targets[k] {
    }
  }

  lemma NoClashSnoc(keys: seq<Taxon>, targets: seq<Taxon>, t: Taxon)
    requires NoClash(keys, targets) && |targets| < |keys| && !ClashAt(keys, targets + [t], |targets|)
    ensures NoClash(keys, targets + [t])
  {
    var l := targets + [t];
    forall k | 0 <= k < |targets| ensures !ClashAt(keys, l, k) {
      assert l[..k] == targets[..k] && l[k] == targets[k];
      assert !ClashAt(keys, targets, k);
    }
  }

  /** No earlier turn targeted the next original: that turn would have met
      the guard, the original still holding its sequence. */
  lemma OriginalUntargeted(keys: seq<Taxon>, targets: seq<Taxon>)
    requires Distinct(keys) && |targets| < |keys| && NoClash(keys, targets)
    ensures keys[|targets|] !in targets
  {
    var i := |targets|;
    forall k | 0 <= k < i ensures targets[k] != keys[i] {
      assert keys[k] != keys[i];
      assert keys[k + 1..][i - k - 1] == keys[i];
      assert !ClashAt(keys, targets, k);
    }
  }

  /** Moving the next original to its target `t`: the bookkeeping extends,
      provided the guard lets it through. */
  lemma TargetsMove(keys: seq<Taxon>, placed: map<Taxon, Taxon>, targets: seq<Taxon>, memo0: map<Taxon, Taxon>,
                    memo: map<Taxon, Taxon>, memo': map<Taxon, Taxon>, unify: bool, caseSensitive: bool,
                    taxa0: seq<Taxon>, taxa1: seq<Taxon>, taxa2: seq<Taxon>, t: Taxon)
    requires Distinct(keys) && |targets| < |keys|
    requires TargetsKept(keys, placed, targets, memo0, memo, unify, caseSensitive, taxa0, taxa1)
    requires MemoGrew(memo0, memo, unify, caseSensitive)
    requires |taxa1| >= |taxa0| && taxa1[..|taxa0|] == taxa0
    requires unify || keys[|targets|] !in taxa1
    requires forall x | x in targets :: x in taxa1
    requires Picked(keys[|targets|], t, memo, memo', unify, caseSensitive, taxa1, taxa2)
    ensures Chosen(keys, targets + [t], memo0, unify, caseSensitive, taxa0, taxa2)
    ensures MemoHolds(keys, targets + [t], memo')
    ensures !ClashAt(keys, targets + [t], |targets|) ==>
              TargetsKept(keys, placed[keys[|targets|] := t], targets + [t], memo0, memo', unify, caseSensitive,
                          taxa0, taxa2)
  {
    var i := |targets|;
    var o := keys[i];
    var l := targets + [t];
    DistinctNotInPrefix(keys, i);
    assert o !in keys[..i];
    assert o in memo <==> o in memo0;
    PrefixMembers(taxa0, taxa1);
    ChosenGrow(keys, targets, memo0, unify, caseSensitive, taxa0, taxa1, taxa2);
    assert ChosenTarget(o, t, memo0, unify, caseSensitive, taxa0, taxa2, targets);
    ChosenSnoc(keys, targets, memo0, unify, caseSensitive, taxa0, taxa2, t);
    forall k | 0 <= k < i ensures keys[k] != o && l[k] == targets[k] {
      assert keys[k] in keys[..i];
    }
    ElementsPrefix(keys, i);
    if !ClashAt(keys, l, i) {
      NoClashSnoc(keys, targets, t);
    }
  }

  /** Keeping the next original where it is (a member, with `unify` off). */
  lemma TargetsStay(keys: seq<Taxon>, placed: map<Taxon, Taxon>, targets: seq<Taxon>, memo0: map<Taxon, Taxon>,
                    memo: map<Taxon, Taxon>, unify: bool, caseSensitive: bool, taxa0: seq<Taxon>, taxa: seq<Taxon>)
    requires Distinct(keys) && |targets| < |keys|
    requires TargetsKept(keys, placed, targets, memo0, memo, unify, caseSensitive, taxa0, taxa)
    requires !unify && keys[|targets|] in taxa
    ensures TargetsKept(keys, placed[keys[|targets|] := keys[|targets|]], targets + [keys[|targets|]], memo0, memo,
                        unify, caseSensitive, taxa0, taxa)
  {
    var i := |targets|;
    var o := keys[i];
    var l := targets + [o];
    OriginalUntargeted(keys, targets);
    ChosenSnoc(keys, targets, memo0, unify, caseSensitive, taxa0, taxa, o);
    NoClashSnoc(keys, targets, o);
    DistinctNotInPrefix(keys, i);
    forall k | 0 <= k < i ensures keys[k] != o && l[k] == targets[k] {
      assert keys[k] in keys[..i];
    }
    ElementsPrefix(keys, i);
  }

  /** The taxa the sequences of the first `|targets|` originals were moved to
      are exactly the targets chosen for them. */
  lemma TargetsAre(keys: seq<Taxon>, placed: map<Taxon, Taxon>, targets: seq<Taxon>)
    requires |targets| <= |keys| && placed.Keys == Elements(keys[..|targets|])
    requires forall k | 0 <= k < |targets| :: keys[k] in placed && placed[keys[k]] == targets[k]
    ensures Targets(placed) == Elements(targets)
  {
    forall x | x in Targets(placed) ensures x in targets {
      var o :| o in placed && placed[o] == x;
      assert o in keys[..|targets|];
      var k :| 0 <= k < |targets| && keys[..|targets|][k] == o;
      assert targets[k] == x;
    }
    forall k | 0 <= k < |targets| ensures targets[k] in Targets(placed) {
      assert keys[k] in placed;
    }
  }

  /** The guard at turn `i`, read on the table, is the guard on the targets. */
  lemma ClashMeans(table0: OrderedMap<Taxon, CharacterSequence>, placed: map<Taxon, Taxon>, targets: seq<Taxon>,
                   entries: map<Taxon, CharacterSequence>, t: Taxon)
    requires table0.Valid() && |targets| < |table0.keys|
    requires PlacedUpTo(table0, placed, |targets|, entries)
    requires forall k | 0 <= k < |targets| :: table0.keys[k] in placed && placed[table0.keys[k]] == targets[k]
    ensures Clash(entries.Keys, table0.keys[|targets|], t) <==> ClashAt(table0.keys, targets + [t], |targets|)
  {
    var i := |targets|;
    TargetsAre(table0.keys, placed, targets);
    ElementsSuffix(table0.keys, i);
    assert (targets + [t])[..i] == targets;
  }

  /** The table the loop leaves after `|targets|` moves. */
  lemma MovedFromPlaced(table0: OrderedMap<Taxon, CharacterSequence>, placed: map<Taxon, Taxon>, targets: seq<Taxon>,
                        more: seq<Taxon>, entries: map<Taxon, CharacterSequence>)
    requires table0.Valid() && |targets| <= |table0.keys|
    requires PlacedUpTo(table0, placed, |targets|, entries)
    requires forall k | 0 <= k < |targets| :: table0.keys[k] in placed && placed[table0.keys[k]] == targets[k]
    ensures MovedUpTo(table0, targets + more, |targets|, entries)
  {
    var l := targets + more;
    assert l[..|targets|] == targets;
    TargetsAre(table0.keys, placed, targets);
    forall k | 0 <= k < |targets| ensures l[k] == targets[k] {
    }
  }

  /** What `reconstruct_taxon_namespace` knows after its first `i` turns
      over the taxa `table0.keys`, with the table `table` and the namespace
      `taxa`: the sequences moved so far sit under their targets `targets`,
      all namespace members, chosen as `ChosenTarget` says; the namespace and
      the memo only grew. */
  ghost predicate ReconValues(table0: OrderedMap<Taxon, CharacterSequence>, memo0: map<Taxon, Taxon>,
                              taxa0: seq<Taxon>, unify: bool, caseSensitive: bool, quiet: bool,
                              memo: map<Taxon, Taxon>, placed: map<Taxon, Taxon>, targets: seq<Taxon>, i: nat,
                              table: OrderedMap<Taxon, CharacterSequence>, taxa: seq<Taxon>)
  {
    && |targets| == i
    && ReconPlaced(table0, memo0, taxa0, unify, caseSensitive, quiet, memo, placed, i, table, taxa)
    && ReconTargets(table0, memo0, taxa0, unify, caseSensitive, memo, placed, targets, taxa)
  }

  /** The table, the memo and the namespace after `i` turns. */
  ghost predicate ReconPlaced(table0: OrderedMap<Taxon, CharacterSequence>, memo0: map<Taxon, Taxon>,
                              taxa0: seq<Taxon>, unify: bool, caseSensitive: bool, quiet: bool,
                              memo: map<Taxon, Taxon>, placed: map<Taxon, Taxon>, i: nat,
                              table: OrderedMap<Taxon, CharacterSequence>, taxa: seq<Taxon>)
  {
    && table0.Valid() && i <= |table0.keys|
    && |taxa| >= |taxa0| && taxa[..|taxa0|] == taxa0
    && PlacedUpTo(table0, placed, i, table.entries)
    && (forall o | o in placed :: placed[o] in taxa)
    && MemoKept(memo0, memo, placed, unify, caseSensitive, taxa0)
    && (quiet ==> QuietUpTo(table0, taxa0, memo, placed, i, table, taxa))
  }

  /** The targets chosen in the turns taken, all namespace members. */
  ghost predicate ReconTargets(table0: OrderedMap<Taxon, CharacterSequence>, memo0: map<Taxon, Taxon>,
                               taxa0: seq<Taxon>, unify: bool, caseSensitive: bool, memo: map<Taxon, Taxon>,
                               placed: map<Taxon, Taxon>, targets: seq<Taxon>, taxa: seq<Taxon>)
  {
    && (forall x | x in targets :: x in taxa)
    && TargetsKept(table0.keys, placed, targets, memo0, memo, unify, caseSensitive, taxa0, taxa)
  }

  /** Before a turn: the next original still holds its sequence. */
  lemma ReconNext(table0: OrderedMap<Taxon, CharacterSequence>, memo0: map<Taxon, Taxon>, taxa0: seq<Taxon>,
                  unify: bool, caseSensitive: bool, quiet: bool, memo: map<Taxon, Taxon>, placed: map<Taxon, Taxon>,
                  targets: seq<Taxon>, table: OrderedMap<Taxon, CharacterSequence>, taxa: seq<Taxon>)
    requires ReconValues(table0, memo0, taxa0, unify, caseSensitive, quiet, memo, placed, targets, |targets|, table, taxa)
    requires |targets| < |table0.keys|
    ensures table0.keys[|targets|] in table.entries
    ensures MemoGrew(memo0, memo, unify, caseSensitive)
  {
  }

  /** A member keeping its sequence, with `unify` off. */
  lemma StayStep(table0: OrderedMap<Taxon, CharacterSequence>, memo0: map<Taxon, Taxon>, taxa0: seq<Taxon>,
                 unify: bool, caseSensitive: bool, quiet: bool, memo: map<Taxon, Taxon>, placed: map<Taxon, Taxon>,
                 targets: seq<Taxon>, table: OrderedMap<Taxon, CharacterSequence>, taxa: seq<Taxon>)
    requires ReconValues(table0, memo0, taxa0, unify, caseSensitive, quiet, memo, placed, targets, |targets|, table, taxa)
    requires |targets| < |table0.keys| && !unify && table0.keys[|targets|] in taxa
    requires quiet ==> unify
    ensures ReconValues(table0, memo0, taxa0, unify, caseSensitive, quiet, memo,
                        placed[table0.keys[|targets|] := table0.keys[|targets|]], targets + [table0.keys[|targets|]],
                        |targets| + 1, table, taxa)
  {
    var i := |targets|;
    var o := table0.keys[i];
    DistinctNotInPrefix(table0.keys, i);
    PrefixMembers(taxa0, taxa);
    PlacedStay(table0, placed, i, table.entries);
    TargetsStay(table0.keys, placed, targets, memo0, memo, unify, caseSensitive, taxa0, taxa);
    OriginalUntargeted(table0.keys, targets);
    MemoStep(memo0, memo, memo, placed, unify, caseSensitive, taxa0, o, o);
    MembersStep(placed, placed[o := o], taxa, taxa, o, o);
  }

  /** The facts both outcomes of a moving turn share: the target was chosen
      as `ChosenTarget` says, and the guard on the table is `ClashAt`. */
  lemma PickStep(table0: OrderedMap<Taxon, CharacterSequence>, memo0: map<Taxon, Taxon>, taxa0: seq<Taxon>,
                 unify: bool, caseSensitive: bool, quiet: bool, memo: map<Taxon, Taxon>, placed: map<Taxon, Taxon>,
                 targets: seq<Taxon>, table1: OrderedMap<Taxon, CharacterSequence>, taxa1: seq<Taxon>, t: Taxon,
                 memo': map<Taxon, Taxon>, taxa2: seq<Taxon>)
    requires table0.Valid() && |targets| < |table0.keys|
    requires |taxa1| >= |taxa0| && taxa1[..|taxa0|] == taxa0
    requires PlacedUpTo(table0, placed, |targets|, table1.entries)
    requires forall x | x in targets :: x in taxa1
    requires TargetsKept(table0.keys, placed, targets, memo0, memo, unify, caseSensitive, taxa0, taxa1)
    requires MemoGrew(memo0, memo, unify, caseSensitive)
    requires unify || table0.keys[|targets|] !in taxa1
    requires Picked(table0.keys[|targets|], t, memo, memo', unify, caseSensitive, taxa1, taxa2)
    ensures MemoGrew(memo0, memo', unify, caseSensitive)
    ensures |taxa2| >= |taxa0| && taxa2[..|taxa0|] == taxa0
    ensures Chosen(table0.keys, targets + [t], memo0, unify, caseSensitive, taxa0, taxa2)
    ensures MemoHolds(table0.keys, targets + [t], memo')
    ensures forall x | x in targets + [t] :: x in taxa2
    ensures Clash(table1.entries.Keys, table0.keys[|targets|], t) <==> ClashAt(table0.keys, targets + [t], |targets|)
    ensures !ClashAt(table0.keys, targets + [t], |targets|) ==>
              TargetsKept(table0.keys, placed[table0.keys[|targets|] := t], targets + [t], memo0, memo', unify,
                          caseSensitive, taxa0, taxa2)
  {
    var i := |targets|;
    var o := table0.keys[i];
    DistinctNotInPrefix(table0.keys, i);
    PrefixMembers(taxa0, taxa1);
    if o !in memo && unify {
      assert FindByLabel(taxa2, o.name, caseSensitive) == Some(t);
    }
    MemoGrewStep(memo0, memo, memo', unify, caseSensitive, o, t);
    PrefixTrans(taxa0, taxa1, taxa2);
    TargetsMove(table0.keys, placed, targets, memo0, memo, memo', unify, caseSensitive, taxa0, taxa1, taxa2, t);
    ClashMeans(table0, placed, targets, table1.entries, t);
    PrefixMembers(taxa1, taxa2);
  }

  /** A moving turn that met the guard. */
  lemma FailStep(table0: OrderedMap<Taxon, CharacterSequence>, memo0: map<Taxon, Taxon>, taxa0: seq<Taxon>,
                 unify: bool, caseSensitive: bool, quiet: bool, memo: map<Taxon, Taxon>, placed: map<Taxon, Taxon>,
                 targets: seq<Taxon>, table1: OrderedMap<Taxon, CharacterSequence>, taxa1: seq<Taxon>, t: Taxon,
                 memo': map<Taxon, Taxon>, taxa2: seq<Taxon>)
    requires ReconValues(table0, memo0, taxa0, unify, caseSensitive, quiet, memo, placed, targets, |targets|, table1,
                         taxa1)
    requires |targets| < |table0.keys|
    requires quiet ==> (unify && memo0 == map[] &&
                        FindByLabel(taxa0, table0.keys[|targets|].name, caseSensitive) == Some(table0.keys[|targets|]))
    requires unify || table0.keys[|targets|] !in taxa1
    requires Picked(table0.keys[|targets|], t, memo, memo', unify, caseSensitive, taxa1, taxa2)
    requires Clash(table1.entries.Keys, table0.keys[|targets|], t)
    ensures !quiet && MemoGrew(memo0, memo', unify, caseSensitive)
    ensures |taxa2| >= |taxa0| && taxa2[..|taxa0|] == taxa0
    ensures FailedAt(table0, memo0, taxa0, unify, caseSensitive, targets + [t], memo', taxa2)
    ensures MovedUpTo(table0, targets + [t], |targets|, table1.entries)
  {
    assert (targets + [t])[..|targets|] == targets;
    PickStep(table0, memo0, taxa0, unify, caseSensitive, quiet, memo, placed, targets, table1, taxa1, t, memo', taxa2);
    QuietPick(table0, taxa0, memo, placed, targets, table1, taxa1, t, memo', taxa2, quiet, unify,
              caseSensitive);
    MovedFromPlaced(table0, placed, targets, [t], table1.entries);
  }

  /** When nothing is to move, the target is the original itself and the
      namespace does not change. */
  lemma QuietPick(table0: OrderedMap<Taxon, CharacterSequence>, taxa0: seq<Taxon>, memo: map<Taxon, Taxon>,
                  placed: map<Taxon, Taxon>, targets: seq<Taxon>, table1: OrderedMap<Taxon, CharacterSequence>,
                  taxa1: seq<Taxon>, t: Taxon, memo': map<Taxon, Taxon>, taxa2: seq<Taxon>, quiet: bool,
                  unify: bool, caseSensitive: bool)
    requires table0.Valid() && |targets| < |table0.keys|
    requires quiet ==> QuietUpTo(table0, taxa0, memo, placed, |targets|, table1, taxa1)
    requires quiet ==>
               FindByLabel(taxa0, table0.keys[|targets|].name, caseSensitive) == Some(table0.keys[|targets|])
    requires quiet ==> unify
    requires Picked(table0.keys[|targets|], t, memo, memo', unify, caseSensitive, taxa1, taxa2)
    ensures quiet ==> t == table0.keys[|targets|] && taxa2 == taxa1
    ensures quiet ==> memo' == memo[t := t]
  {
    DistinctNotInPrefix(table0.keys, |targets|);
  }

  /** A moving turn that passed the guard: the sequence now sits under its
      target. */
  lemma MoveStep(table0: OrderedMap<Taxon, CharacterSequence>, memo0: map<Taxon, Taxon>, taxa0: seq<Taxon>,
                 unify: bool, caseSensitive: bool, quiet: bool, memo: map<Taxon, Taxon>, placed: map<Taxon, Taxon>,
                 targets: seq<Taxon>, table1: OrderedMap<Taxon, CharacterSequence>, taxa1: seq<Taxon>, t: Taxon,
                 memo': map<Taxon, Taxon>, table2: OrderedMap<Taxon, CharacterSequence>, taxa2: seq<Taxon>)
    requires ReconValues(table0, memo0, taxa0, unify, caseSensitive, quiet, memo, placed, targets, |targets|, table1,
                         taxa1)
    requires |targets| < |table0.keys|
    requires quiet ==> (unify && memo0 == map[] &&
                        FindByLabel(taxa0, table0.keys[|targets|].name, caseSensitive) == Some(table0.keys[|targets|]))
    requires unify || table0.keys[|targets|] !in taxa1
    requires Picked(table0.keys[|targets|], t, memo, memo', unify, caseSensitive, taxa1, taxa2)
    requires !Clash(table1.entries.Keys, table0.keys[|targets|], t)
    requires t != table0.keys[|targets|] ==>
               table2.entries == (table1.entries - {table0.keys[|targets|]})[t := table1.entries[table0.keys[|targets|]]]
    requires t == table0.keys[|targets|] ==> table2 == table1
    ensures MemoGrew(memo0, memo', unify, caseSensitive)
    ensures ReconValues(table0, memo0, taxa0, unify, caseSensitive, quiet, memo', placed[table0.keys[|targets|] := t],
                        targets + [t], |targets| + 1, table2, taxa2)
  {
    PickStep(table0, memo0, taxa0, unify, caseSensitive, quiet, memo, placed, targets, table1, taxa1, t, memo', taxa2);
    MovePlaced(table0, memo0, taxa0, unify, caseSensitive, quiet, memo, placed, targets, table1, taxa1, t, memo',
               table2, taxa2);
  }

  /** `MoveStep` for the table, the memo and the namespace. */
  lemma MovePlaced(table0: OrderedMap<Taxon, CharacterSequence>, memo0: map<Taxon, Taxon>, taxa0: seq<Taxon>,
                   unify: bool, caseSensitive: bool, quiet: bool, memo: map<Taxon, Taxon>, placed: map<Taxon, Taxon>,
                   targets: seq<Taxon>, table1: OrderedMap<Taxon, CharacterSequence>, taxa1: seq<Taxon>, t: Taxon,
                   memo': map<Taxon, Taxon>, table2: OrderedMap<Taxon, CharacterSequence>, taxa2: seq<Taxon>)
    requires ReconPlaced(table0, memo0, taxa0, unify, caseSensitive, quiet, memo, placed, |targets|, table1, taxa1)
    requires |targets| < |table0.keys|
    requires quiet ==> (unify && memo0 == map[] &&
                        FindByLabel(taxa0, table0.keys[|targets|].name, caseSensitive) == Some(table0.keys[|targets|]))
    requires unify || table0.keys[|targets|] !in taxa1
    requires Picked(table0.keys[|targets|], t, memo, memo', unify, caseSensitive, taxa1, taxa2)
    requires MemoGrew(memo0, memo', unify, caseSensitive)
    requires !Clash(table1.entries.Keys, table0.keys[|targets|], t)
    requires t != table0.keys[|targets|] ==>
               table2.entries == (table1.entries - {table0.keys[|targets|]})[t := table1.entries[table0.keys[|targets|]]]
    requires t == table0.keys[|targets|] ==> table2 == table1
    ensures ReconPlaced(table0, memo0, taxa0, unify, caseSensitive, quiet, memo', placed[table0.keys[|targets|] := t],
                        |targets| + 1, table2, taxa2)
  {
    var i := |targets|;
    var o := table0.keys[i];
    QuietPick(table0, taxa0, memo, placed, targets, table1, taxa1, t, memo', taxa2, quiet, unify, caseSensitive);
    if quiet {
      QuietStep(table0, taxa0, memo, placed, i, table1, o);
    }
    DistinctNotInPrefix(table0.keys, i);
    PrefixTrans(taxa0, taxa1, taxa2);
    PlaceStep(table0, placed, i, table1, table2, t);
    MemoStep(memo0, memo, memo', placed, unify, caseSensitive, taxa0, o, t);
    MembersStep(placed, placed[o := t], taxa1, taxa2, o, t);
  }

  /** The table after a turn that passed the guard. */
  lemma PlaceStep(table0: OrderedMap<Taxon, CharacterSequence>, placed: map<Taxon, Taxon>, i: nat,
                  table1: OrderedMap<Taxon, CharacterSequence>, table2: OrderedMap<Taxon, CharacterSequence>, t: Taxon)
    requires table0.Valid() && i < |table0.keys| && PlacedUpTo(table0, placed, i, table1.entries)
    requires !Clash(table1.entries.Keys, table0.keys[i], t)
    requires t != table0.keys[i] ==>
               table2.entries == (table1.entries - {table0.keys[i]})[t := table1.entries[table0.keys[i]]]
    requires t == table0.keys[i] ==> table2 == table1
    ensures PlacedUpTo(table0, placed[table0.keys[i] := t], i + 1, table2.entries)
  {
    if t != table0.keys[i] {
      PlacedMove(table0, placed, i, table1.entries, table2.entries, t);
    } else {
      PlacedStay(table0, placed, i, table1.entries);
    }
  }
}
