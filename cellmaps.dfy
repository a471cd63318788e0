/** Specifications over the cell contents of a matrix: a map from each taxon
    with a sequence to the cells of that sequence. The bulk merges, padding
    and dict-style assignment are stated here on values; the matrix methods
    are proved to leave their contents equal to these. */
module CellMaps {
  import opened Wrappers
  import opened OrderedMaps
  import opened Taxa
  import opened States
  import opened Sequences

  type Contents = map<Taxon, seq<Cell>>

  /** The entries of `m` whose taxon lies in `ks`. */
  function Restrict(m: Contents, ks: set<Taxon>): (r: Contents)
    ensures r.Keys == m.Keys * ks
    ensures forall t | t in r :: r[t] == m[t]
  {
    map t | t in m && t in ks :: m[t]
  }

  lemma RestrictAll(m: Contents, ks: set<Taxon>)
    requires m.Keys <= ks
    ensures Restrict(m, ks) == m
  {
  }

  /** `a` is `b` with the cells of `k` set to `x`. */
  lemma UpdatedContents(a: Contents, b: Contents, k: Taxon, x: seq<Cell>)
    requires a.Keys == b.Keys + {k} && a[k] == x
    requires forall t | t in a && t != k :: a[t] == b[t]
    ensures a == b[k := x]
  {
  }

  /** The five bulk merges of one matrix's sequences into another's. */
  datatype Merge = AddNew | ReplaceShared | UpdateAll | ExtendShared | ExtendAll {
    /** Taxa of the source without a sequence in the destination gain one. */
    predicate AddsTaxa() {
      AddNew? || UpdateAll? || ExtendAll?
    }

    /** Shared taxa get the source's cells in place of their own. */
    predicate ReplacesShared() {
      ReplaceShared? || UpdateAll?
    }

    /** Shared taxa get the source's cells after their own, in place. */
    predicate ExtendsShared() {
      ExtendShared? || ExtendAll?
    }
  }

  /** The destination contents after merging `theirs` into `mine`. */
  function Merged(mode: Merge, mine: Contents, theirs: Contents): (r: Contents)
    ensures r.Keys == if mode.AddsTaxa() then mine.Keys + theirs.Keys else mine.Keys
    ensures forall t | t in mine && t !in theirs :: r[t] == mine[t]
    ensures forall t | t in mine && t in theirs ::
              r[t] == if mode.ReplacesShared() then theirs[t]
                      else if mode.ExtendsShared() then mine[t] + theirs[t]
                      else mine[t]
    ensures mode.AddsTaxa() ==> forall t | t in theirs && t !in mine :: r[t] == theirs[t]
  {
    map t | t in mine.Keys + theirs.Keys && (t in mine || mode.AddsTaxa()) ::
      if t !in theirs then mine[t]
      else if t !in mine then theirs[t]
      else if mode.ReplacesShared() then theirs[t]
      else if mode.ExtendsShared() then mine[t] + theirs[t]
      else mine[t]
  }

  /** Merging one more source entry extends the merge by that entry. */
  lemma MergedStep(mode: Merge, mine: Contents, theirs: Contents, done: set<Taxon>, t: Taxon)
    requires t in theirs && t !in done
    ensures Merged(mode, mine, Restrict(theirs, done + {t})) ==
              if t in mine then Merged(mode, mine, Restrict(theirs, done))[t := Merged(mode, mine, theirs)[t]]
              else if mode.AddsTaxa() then Merged(mode, mine, Restrict(theirs, done))[t := theirs[t]]
              else Merged(mode, mine, Restrict(theirs, done))
  {
    var th := Restrict(theirs, done);
    assert Restrict(theirs, done + {t}) == th[t := theirs[t]];
    MergedPut(mode, mine, th, t, theirs[t]);
  }

  /** What a merge leaves for a taxon with the cells `mine` here and `theirs` in the source. */
  function SharedCells(mode: Merge, mine: seq<Cell>, theirs: seq<Cell>): seq<Cell> {
    if mode.ReplacesShared() then theirs
    else if mode.ExtendsShared() then mine + theirs
    else mine
  }

  /** Merging a source with one more entry `t` changes at most the entry of `t`. */
  lemma MergedPut(mode: Merge, mine: Contents, theirs: Contents, t: Taxon, v: seq<Cell>)
    requires t !in theirs
    ensures Merged(mode, mine, theirs[t := v]) ==
              if t in mine then Merged(mode, mine, theirs)[t := SharedCells(mode, mine[t], v)]
              else if mode.AddsTaxa() then Merged(mode, mine, theirs)[t := v]
              else Merged(mode, mine, theirs)
  {
    if t in mine {
      MergedPutShared(mode, mine, theirs, t, v);
    } else if mode.AddsTaxa() {
      MergedPutAdded(mode, mine, theirs, t, v);
    } else {
      MergedPutSkipped(mode, mine, theirs, t, v);
    }
  }

  lemma MergedPutShared(mode: Merge, mine: Contents, theirs: Contents, t: Taxon, v: seq<Cell>)
    requires t !in theirs && t in mine
    ensures Merged(mode, mine, theirs[t := v]) == Merged(mode, mine, theirs)[t := SharedCells(mode, mine[t], v)]
  {
  }

  lemma MergedPutAdded(mode: Merge, mine: Contents, theirs: Contents, t: Taxon, v: seq<Cell>)
    requires t !in theirs && t !in mine && mode.AddsTaxa()
    ensures Merged(mode, mine, theirs[t := v]) == Merged(mode, mine, theirs)[t := v]
  {
  }

  lemma MergedPutSkipped(mode: Merge, mine: Contents, theirs: Contents, t: Taxon, v: seq<Cell>)
    requires t !in theirs && t !in mine && !mode.AddsTaxa()
    ensures Merged(mode, mine, theirs[t := v]) == Merged(mode, mine, theirs)
  {
  }

  /** What one turn of a merge loop does with the source entry `t`, whose
      cells are `v`. */
  function MergeOne(mode: Merge, cur: Contents, t: Taxon, v: seq<Cell>): Contents {
    if t in cur then
      if mode.ReplacesShared() then cur[t := v]
      else if mode.ExtendsShared() then cur[t := cur[t] + v]
      else cur
    else if mode.AddsTaxa() then cur[t := v]
    else cur
  }

  /** The merge loop's contents after the source taxa `ts`, in turn. */
  function MergeSeq(mode: Merge, mine: Contents, theirs: Contents, ts: seq<Taxon>): Contents
    requires forall t | t in ts :: t in theirs
    decreases |ts|
  {
    if ts == [] then mine
    else
      var last := ts[|ts| - 1];
      MergeOne(mode, MergeSeq(mode, mine, theirs, ts[..|ts| - 1]), last, theirs[last])
  }

  /** The key order a merge loop leaves after the source taxa `ts`: new
      taxa are appended only by the modes that add them. */
  function KeysSeq(mode: Merge, keys: seq<Taxon>, ts: seq<Taxon>): seq<Taxon>
    decreases |ts|
  {
    if ts == [] then keys
    else
      var k := KeysSeq(mode, keys, ts[..|ts| - 1]);
      var last := ts[|ts| - 1];
      if mode.AddsTaxa() && last !in k then k + [last] else k
  }

  lemma MergeSeqSnoc(mode: Merge, mine: Contents, theirs: Contents, ts: seq<Taxon>, i: nat)
    requires i < |ts| && forall t | t in ts :: t in theirs
    ensures MergeSeq(mode, mine, theirs, ts[..i + 1]) ==
              MergeOne(mode, MergeSeq(mode, mine, theirs, ts[..i]), ts[i], theirs[ts[i]])
  {
    assert ts[..i + 1][..i] == ts[..i];
  }

  lemma KeysSeqSnoc(mode: Merge, keys: seq<Taxon>, ts: seq<Taxon>, i: nat)
    requires i < |ts|
    ensures KeysSeq(mode, keys, ts[..i + 1]) ==
              var k := KeysSeq(mode, keys, ts[..i]);
              if mode.AddsTaxa() && ts[i] !in k then k + [ts[i]] else k
  {
    assert ts[..i + 1][..i] == ts[..i];
  }

  /** Running the merge loop over distinct source taxa is the merge of those
      entries. */
  lemma {:induction false} MergeSeqIsMerged(mode: Merge, mine: Contents, theirs: Contents, ts: seq<Taxon>)
    requires Distinct(ts) && forall t | t in ts :: t in theirs
    ensures MergeSeq(mode, mine, theirs, ts) == Merged(mode, mine, Restrict(theirs, Elements(ts)))
    decreases |ts|
  {
    if ts != [] {
      var n := |ts| - 1;
      var last := ts[n];
      DistinctPrefix(ts, n);
      MergeSeqIsMerged(mode, mine, theirs, ts[..n]);
      DistinctNotInPrefix(ts, n);
      ElementsPrefix(ts, n);
      assert ts[..n + 1] == ts;
      MergeOneMerged(mode, mine, theirs, Elements(ts[..n]), last);
    }
  }

  /** A merge loop's turn for a new source taxon extends the merge of the
      source taxa done so far by that taxon. */
  lemma MergeOneMerged(mode: Merge, mine: Contents, theirs: Contents, done: set<Taxon>, t: Taxon)
    requires t in theirs && t !in done
    ensures MergeOne(mode, Merged(mode, mine, Restrict(theirs, done)), t, theirs[t]) ==
              Merged(mode, mine, Restrict(theirs, done + {t}))
  {
    MergedStep(mode, mine, theirs, done, t);
  }

  /** The key order the merge loop leaves is the dict's insertion order. */
  lemma {:induction false} KeysSeqIsAppendNew(mode: Merge, keys: seq<Taxon>, ts: seq<Taxon>)
    ensures KeysSeq(mode, keys, ts) == if mode.AddsTaxa() then AppendNew(keys, ts) else keys
    decreases |ts|
  {
    if ts != [] {
      var n := |ts| - 1;
      KeysSeqIsAppendNew(mode, keys, ts[..n]);
      assert ts[..n] + [ts[n]] == ts;
      AppendNewSnoc(keys, ts[..n], ts[n]);
      AppendNewOne(AppendNew(keys, ts[..n]), ts[n]);
    }
  }

  /** The whole merge loop over a source whose taxa are `oks`. */
  lemma MergeLoopComplete(mode: Merge, mine: Contents, theirs: Contents, oks: seq<Taxon>, keys: seq<Taxon>)
    requires Distinct(oks) && theirs.Keys == Elements(oks)
    ensures MergeSeq(mode, mine, theirs, oks[..|oks|]) == Merged(mode, mine, theirs)
    ensures KeysSeq(mode, keys, oks[..|oks|]) == if mode.AddsTaxa() then AppendNew(keys, oks) else keys
  {
    assert oks[..|oks|] == oks;
    MergeSeqIsMerged(mode, mine, theirs, oks);
    RestrictAll(theirs, Elements(oks));
    KeysSeqIsAppendNew(mode, keys, oks);
  }

  /** `update_sequences` is `replace_sequences` followed by `add_sequences`. */
  lemma UpdateIsReplaceThenAdd(mine: Contents, theirs: Contents)
    ensures Merged(UpdateAll, mine, theirs) == Merged(AddNew, Merged(ReplaceShared, mine, theirs), theirs)
  {
  }

  /** `extend_matrix` is `extend_sequences` followed by `add_sequences`. */
  lemma ExtendAllIsExtendThenAdd(mine: Contents, theirs: Contents)
    ensures Merged(ExtendAll, mine, theirs) == Merged(AddNew, Merged(ExtendShared, mine, theirs), theirs)
  {
  }

  /** Adding, replacing and updating twice from the same source is doing it once. */
  lemma MergeIdempotent(mode: Merge, mine: Contents, theirs: Contents)
    requires !mode.ExtendsShared()
    ensures Merged(mode, Merged(mode, mine, theirs), theirs) == Merged(mode, mine, theirs)
  {
  }

  /** After `extend_matrix`, the columns past a shared taxon's old length are
      exactly the source's cells. */
  lemma ExtendedTail(mine: Contents, theirs: Contents, t: Taxon)
    requires t in mine && t in theirs
    ensures var s := Merged(ExtendAll, mine, theirs)[t];
            |s| == |mine[t]| + |theirs[t]| &&
            Select(s, RangeSet(|mine[t]|, |s|)) == theirs[t] &&
            Select(s, RangeSet(0, |mine[t]|)) == mine[t]
  {
    var s := Merged(ExtendAll, mine, theirs)[t];
    SelectRange(s, |mine[t]|, |s|);
    SelectRange(s, 0, |mine[t]|);
    assert s[|mine[t]|..] == theirs[t];
    assert s[..|mine[t]|] == mine[t];
  }

  /** `fill`: every sequence of a taxon in `members` padded to `n`. */
  function Filled(m: Contents, members: set<Taxon>, v: Cell, n: int, append: bool): (r: Contents)
    ensures r.Keys == m.Keys
    ensures forall t | t in m :: r[t] == if t in members then Padded(m[t], v, n, append) else m[t]
  {
    map t | t in m :: if t in members then Padded(m[t], v, n, append) else m[t]
  }

  lemma FilledStep(m: Contents, members: set<Taxon>, v: Cell, n: int, append: bool, k: Taxon)
    requires k in m
    ensures Filled(m, members + {k}, v, n, append) ==
              Filled(m, members, v, n, append)[k := Padded(m[k], v, n, append)]
  {
  }

  lemma FilledSameMembers(m: Contents, a: set<Taxon>, b: set<Taxon>, v: Cell, n: int, append: bool)
    requires forall t | t in m :: t in a <==> t in b
    ensures Filled(m, a, v, n, append) == Filled(m, b, v, n, append)
  {
  }

  /** Padding to at least every member's length leaves all of them exactly that long. */
  lemma FilledToMaxEqualizes(m: Contents, members: set<Taxon>, v: Cell, n: int, append: bool)
    requires forall t | t in m && t in members :: |m[t]| <= n
    ensures forall t | t in m && t in members :: |Filled(m, members, v, n, append)[t]| == n
  {
  }

  /** `fill_taxa`: an empty sequence for every member without one. */
  function WithEmpty(m: Contents, members: set<Taxon>): (r: Contents)
    ensures r.Keys == m.Keys + members
    ensures forall t | t in m :: r[t] == m[t]
    ensures forall t | t in members && t !in m :: r[t] == []
  {
    map t | t in m.Keys + members :: if t in m then m[t] else []
  }

  lemma WithEmptyOne(m: Contents, t: Taxon)
    ensures WithEmpty(m, {t}) == if t in m then m else m[t := []]
  {
  }

  lemma WithEmptyStep(m: Contents, members: set<Taxon>, t: Taxon)
    ensures WithEmpty(WithEmpty(m, members), {t}) == WithEmpty(m, members + {t})
  {
  }

  /** `d[k] = v` for each pair in turn. */
  function AssignAll(m: Contents, ts: seq<Taxon>, vs: seq<seq<Cell>>): (r: Contents)
    requires |ts| == |vs|
    decreases |ts|
  {
    if ts == [] then m else AssignAll(m[ts[0] := vs[0]], ts[1..], vs[1..])
  }

  lemma {:induction false} AssignAllSnoc(m: Contents, ts: seq<Taxon>, vs: seq<seq<Cell>>, t: Taxon, v: seq<Cell>)
    requires |ts| == |vs|
    ensures AssignAll(m, ts + [t], vs + [v]) == AssignAll(m, ts, vs)[t := v]
    decreases |ts|
  {
    if ts == [] {
      assert ts + [t] == [t] && vs + [v] == [v];
    } else {
      assert (ts + [t])[1..] == ts[1..] + [t];
      assert (vs + [v])[1..] == vs[1..] + [v];
      AssignAllSnoc(m[ts[0] := vs[0]], ts[1..], vs[1..], t, v);
    }
  }

  /** With distinct keys, each key ends with its own value and every other
      entry is untouched. */
  lemma {:induction false} AssignAllDistinct(m: Contents, ts: seq<Taxon>, vs: seq<seq<Cell>>)
    requires |ts| == |vs| && Distinct(ts)
    ensures AssignAll(m, ts, vs).Keys == m.Keys + Elements(ts)
    ensures forall i | 0 <= i < |ts| :: AssignAll(m, ts, vs)[ts[i]] == vs[i]
    ensures forall t | t in m && t !in ts :: AssignAll(m, ts, vs)[t] == m[t]
    decreases |ts|
  {
    if ts != [] {
      DistinctCons(ts);
      AssignAllDistinct(m[ts[0] := vs[0]], ts[1..], vs[1..]);
      ElementsCons(ts);
      var r := AssignAll(m, ts, vs);
      forall i | 0 <= i < |ts| ensures r[ts[i]] == vs[i] {
        if i > 0 {
          assert ts[1..][i - 1] == ts[i];
        } else {
          assert ts[0] !in ts[1..];
        }
      }
    }
  }

  /** Whatever the keys, an entry assigned by its last pair holds that
      pair's value, and an entry no pair assigns is untouched. */
  lemma {:induction false} AssignAllLastWins(m: Contents, ts: seq<Taxon>, vs: seq<seq<Cell>>)
    requires |ts| == |vs|
    ensures AssignAll(m, ts, vs).Keys == m.Keys + Elements(ts)
    ensures forall i | 0 <= i < |ts| && (forall j | i < j < |ts| :: ts[j] != ts[i]) ::
              AssignAll(m, ts, vs)[ts[i]] == vs[i]
    ensures forall t | t in m && t !in ts :: AssignAll(m, ts, vs)[t] == m[t]
    decreases |ts|
  {
    if ts != [] {
      var n := |ts| - 1;
      AssignAllLastWins(m, ts[..n], vs[..n]);
      assert ts == ts[..n] + [ts[n]] && vs == vs[..n] + [vs[n]];
      AssignAllSnoc(m, ts[..n], vs[..n], ts[n], vs[n]);
      ElementsPrefix(ts, n);
      forall i | 0 <= i < n && (forall j | i < j < |ts| :: ts[j] != ts[i])
        ensures AssignAll(m, ts, vs)[ts[i]] == vs[i]
      {
        assert ts[..n][i] == ts[i] && vs[..n][i] == vs[i];
        assert forall j | i < j < n :: ts[..n][j] == ts[j];
      }
    }
  }

  /** The entries of `m` whose taxon lies in `ks`, each keeping only the
      columns whose position is in `keep`. */
  function SelectedOn(m: Contents, ks: set<Taxon>, keep: set<int>): (r: Contents)
    ensures r.Keys == m.Keys * ks
    ensures forall t | t in r :: r[t] == Select(m[t], keep)
  {
    map t | t in m && t in ks :: Select(m[t], keep)
  }

  lemma SelectedOnStep(m: Contents, ks: set<Taxon>, keep: set<int>, t: Taxon)
    requires t in m
    ensures SelectedOn(m, ks + {t}, keep) == SelectedOn(m, ks, keep)[t := Select(m[t], keep)]
  {
  }

  /** Every sequence has `w` cells. */
  predicate AllOfLength(m: Contents, w: nat) {
    forall t | t in m :: |m[t]| == w
  }

  /** `sequence_size` of a table with key order `keys`: the length of the
      sequence stored under the first key, or 0 with none. */
  function FirstLength(keys: seq<Taxon>, m: Contents): (n: nat)
    ensures keys == [] ==> n == 0
  {
    if keys != [] && keys[0] in m then |m[keys[0]]| else 0
  }

  /** The longest of the lengths, or 0 for none. */
  function MaxLen(ws: seq<nat>): (r: nat)
    ensures forall i | 0 <= i < |ws| :: ws[i] <= r
    ensures ws == [] ==> r == 0
    ensures ws != [] ==> exists i | 0 <= i < |ws| :: ws[i] == r
  {
    if ws == [] then 0
    else
      var rest := MaxLen(ws[..|ws| - 1]);
      assert forall i | 0 <= i < |ws| - 1 :: ws[..|ws| - 1][i] == ws[i];
      if ws[|ws| - 1] > rest then ws[|ws| - 1] else rest
  }

  /** Every sequence of `m` can be remapped onto `sa`. */
  predicate AllMappable(m: Contents, sa: StateAlphabet) {
    forall t | t in m :: RemapCells(m[t], sa).Ok?
  }

  /** `m` with the sequence of each taxon of `ks` that can be remapped onto
      `sa` remapped. */
  function Remapped(m: Contents, ks: set<Taxon>, sa: StateAlphabet): (r: Contents)
    ensures r.Keys == m.Keys
    ensures forall t | t in m :: r[t] == if t in ks && RemapCells(m[t], sa).Ok? then RemapCells(m[t], sa).value else m[t]
  {
    map t | t in m :: if t in ks && RemapCells(m[t], sa).Ok? then RemapCells(m[t], sa).value else m[t]
  }

  lemma RemappedStep(m: Contents, ks: set<Taxon>, sa: StateAlphabet, k: Taxon)
    requires k in m && RemapCells(m[k], sa).Ok?
    ensures Remapped(m, ks + {k}, sa) == Remapped(m, ks, sa)[k := RemapCells(m[k], sa).value]
  {
  }

  /** The position in `ks` of the first taxon whose sequence cannot be
      remapped onto `sa`, or `|ks|` when there is none. */
  function FirstUnmappable(m: Contents, ks: seq<Taxon>, sa: StateAlphabet): (k: nat)
    requires forall t | t in ks :: t in m
    ensures k <= |ks|
    ensures forall j | 0 <= j < k :: RemapCells(m[ks[j]], sa).Ok?
    ensures k < |ks| ==> RemapCells(m[ks[k]], sa).Err?
  {
    if ks == [] || RemapCells(m[ks[0]], sa).Err? then 0
    else 1 + FirstUnmappable(m, ks[1..], sa)
  }

  /** A position before which every sequence can be remapped, and at which
      one cannot (or the end), is the first unmappable position. */
  lemma {:induction false} FirstUnmappableAt(m: Contents, ks: seq<Taxon>, sa: StateAlphabet, i: nat)
    requires forall t | t in ks :: t in m
    requires i <= |ks|
    requires forall j | 0 <= j < i :: RemapCells(m[ks[j]], sa).Ok?
    requires i < |ks| ==> RemapCells(m[ks[i]], sa).Err?
    ensures FirstUnmappable(m, ks, sa) == i
  {
    if i > 0 {
      assert RemapCells(m[ks[0]], sa).Ok?;
      forall j | 0 <= j < i - 1 ensures RemapCells(m[ks[1..][j]], sa).Ok? {
        assert ks[1..][j] == ks[j + 1];
      }
      FirstUnmappableAt(m, ks[1..], sa, i - 1);
    }
  }

  /** With `ks` listing every taxon of `m`, the scan finds no unmappable
      sequence exactly when all can be remapped. */
  lemma FirstUnmappableAll(m: Contents, ks: seq<Taxon>, sa: StateAlphabet)
    requires m.Keys == Elements(ks)
    ensures FirstUnmappable(m, ks, sa) == |ks| <==> AllMappable(m, sa)
  {
    var k := FirstUnmappable(m, ks, sa);
    if k == |ks| {
      forall t | t in m ensures RemapCells(m[t], sa).Ok? {
        var j :| 0 <= j < |ks| && ks[j] == t;
      }
    }
  }

  /** A cell sequence remapped up to, not including, its first unmappable cell. */
  function RemappedUntilStuck(cells: seq<Cell>, sa: StateAlphabet): seq<Cell> {
    var p := MappablePrefix(cells, sa);
    assert forall i | 0 <= i < p :: cells[..p][i] == cells[i];
    RemapCells(cells[..p], sa).value + cells[p..]
  }

  /** Where `remap_to_state_alphabet_by_symbol` stops on an unmappable cell:
      the sequences before the failing one remapped, the failing one remapped
      up to that cell, the rest untouched. */
  function RemapStopped(m: Contents, ks: seq<Taxon>, sa: StateAlphabet): (r: Contents)
    requires forall t | t in ks :: t in m
    requires FirstUnmappable(m, ks, sa) < |ks|
    ensures r.Keys == m.Keys
  {
    var k := FirstUnmappable(m, ks, sa);
    Remapped(m, Elements(ks[..k]), sa)[ks[k] := RemappedUntilStuck(m[ks[k]], sa)]
  }

  /** The outcome of the sequence loop of `remap_to_state_alphabet_by_symbol`
      over the taxa `ks` in turn. */
  function RemapOutcome(m: Contents, ks: seq<Taxon>, sa: StateAlphabet): Outcome
    requires forall t | t in ks :: t in m
  {
    var k := FirstUnmappable(m, ks, sa);
    if k == |ks| then Pass else Fail(RemapCells(m[ks[k]], sa).error)
  }

  /** The contents that loop leaves `m` with. */
  function RemapLeaves(m: Contents, ks: seq<Taxon>, sa: StateAlphabet): Contents
    requires forall t | t in ks :: t in m
  {
    if FirstUnmappable(m, ks, sa) == |ks| then Remapped(m, Elements(ks), sa)
    else RemapStopped(m, ks, sa)
  }

  /** Over every taxon of `m`, the loop passes exactly when every sequence can
      be remapped, and then remaps them all; otherwise it raises the error of
      the first sequence, in turn, that cannot be remapped, with the sequences
      before it remapped, that one remapped up to its first unmappable cell,
      and the sequences after it untouched. */
  lemma RemapRunMeaning(m: Contents, ks: seq<Taxon>, sa: StateAlphabet)
    requires m.Keys == Elements(ks) && Distinct(ks)
    ensures var r, after := RemapOutcome(m, ks, sa), RemapLeaves(m, ks, sa);
            && after.Keys == m.Keys
            && (r.Pass? <==> AllMappable(m, sa))
            && (r.Pass? ==> after == Remapped(m, m.Keys, sa))
            && (r.Fail? ==>
                  var k := FirstUnmappable(m, ks, sa);
                  && k < |ks|
                  && r.error == RemapCells(m[ks[k]], sa).error
                  && after[ks[k]] == RemappedUntilStuck(m[ks[k]], sa)
                  && (forall j | 0 <= j < k :: after[ks[j]] == RemapCells(m[ks[j]], sa).value)
                  && (forall j | k < j < |ks| :: after[ks[j]] == m[ks[j]]))
  {
    FirstUnmappableAll(m, ks, sa);
    if FirstUnmappable(m, ks, sa) < |ks| {
      RemapStoppedMeaning(m, ks, sa);
    }
  }

  /** Where the loop stops, sequence by sequence. */
  lemma RemapStoppedMeaning(m: Contents, ks: seq<Taxon>, sa: StateAlphabet)
    requires m.Keys == Elements(ks) && Distinct(ks) && FirstUnmappable(m, ks, sa) < |ks|
    ensures var k, after := FirstUnmappable(m, ks, sa), RemapStopped(m, ks, sa);
            && after[ks[k]] == RemappedUntilStuck(m[ks[k]], sa)
            && (forall j | 0 <= j < k :: after[ks[j]] == RemapCells(m[ks[j]], sa).value)
            && (forall j | k < j < |ks| :: after[ks[j]] == m[ks[j]])
  {
    var k, r := FirstUnmappable(m, ks, sa), RemapStopped(m, ks, sa);
    DistinctMeans(ks);
    forall j | k < j < |ks| ensures r[ks[j]] == m[ks[j]] {
      assert ks[j] != ks[k];
    }
    forall j | 0 <= j < k ensures r[ks[j]] == RemapCells(m[ks[j]], sa).value {
      assert ks[j] != ks[k];
      assert ks[j] in Elements(ks[..k]) by { assert ks[..k][j] == ks[j]; }
    }
  }

  /** A sequence stuck at its first unmappable cell keeps that cell and all
      after it, and has every cell before it remapped. */
  lemma RemappedUntilStuckMeaning(cells: seq<Cell>, sa: StateAlphabet)
    ensures var p := MappablePrefix(cells, sa);
            var r := RemappedUntilStuck(cells, sa);
            |r| == |cells| && r[p..] == cells[p..] &&
            forall i | 0 <= i < p :: r[i] == RemapCell(cells[i], sa).value
  {
    var p := MappablePrefix(cells, sa);
    assert forall i | 0 <= i < p :: cells[..p][i] == cells[i];
  }

  /** Remapping every sequence twice onto one symbol-consistent alphabet is
      remapping once. */
  lemma RemapAllIdempotent(m: Contents, sa: StateAlphabet)
    requires SymbolConsistent(sa) && AllMappable(m, sa)
    ensures AllMappable(Remapped(m, m.Keys, sa), sa)
    ensures Remapped(Remapped(m, m.Keys, sa), m.Keys, sa) == Remapped(m, m.Keys, sa)
  {
    var once := Remapped(m, m.Keys, sa);
    forall t | t in m ensures RemapCells(once[t], sa) == Ok(once[t]) {
      RemapIdempotent(m[t], sa);
    }
  }
}
