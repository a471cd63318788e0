/** `CharacterSequence`: the growable, list-like sequence of cells held for one
    taxon. It is an object so that in-place growth (`extend`, `fill`), column
    deletion and state remapping are visible through every reference to it,
    including the references a shallow matrix copy shares. */
module Sequences {
  import opened Wrappers
  import opened OrderedMaps
  import opened States

  /** `s` padded with `v` up to length `n`, at the end when `append` and at
      the front otherwise; a sequence already `n` long stays as it is. */
  function Padded(s: seq<Cell>, v: Cell, n: int, append: bool): (r: seq<Cell>)
    ensures |s| >= n ==> r == s
    ensures |s| < n ==> |r| == n
    ensures append ==> r[..|s|] == s
    ensures !append ==> r[|r| - |s|..] == s
    ensures append ==> forall i | |s| <= i < |r| :: r[i] == v
    ensures !append ==> forall i | 0 <= i < |r| - |s| :: r[i] == v
  {
    if |s| >= n then s
    else if append then s + Repeat(v, n - |s|)
    else Repeat(v, n - |s|) + s
  }

  lemma {:induction false} RepeatGrow(v: Cell, k: nat)
    ensures Repeat(v, k + 1) == [v] + Repeat(v, k)
    ensures Repeat(v, k + 1) == Repeat(v, k) + [v]
  {
    if k > 0 {
      RepeatGrow(v, k - 1);
    }
  }

  /** The cells of `s` at positions `lo` and beyond whose position is in `keep`. */
  function Kept(s: seq<Cell>, keep: set<int>, lo: nat): seq<Cell>
    decreases |s| - lo
  {
    if lo >= |s| then []
    else (if lo in keep then [s[lo]] else []) + Kept(s, keep, lo + 1)
  }

  /** The cells of `s` whose position is in `keep`, in their original order. */
  function Select(s: seq<Cell>, keep: set<int>): seq<Cell> {
    Kept(s, keep, 0)
  }

  /** The positions `lo, lo + 1, ..., hi - 1`, as `range(lo, hi)` gives them. */
  function RangeSet(lo: int, hi: int): (r: set<int>)
    ensures forall i :: i in r <==> lo <= i < hi
    decreases hi - lo
  {
    if lo >= hi then {} else {lo} + RangeSet(lo + 1, hi)
  }

  /** `len(range(lo, hi))`: the range holds `hi - lo` positions. */
  lemma {:induction false} RangeSetSize(lo: int, hi: int)
    requires lo <= hi
    ensures |RangeSet(lo, hi)| == hi - lo
    decreases hi - lo
  {
    if lo < hi {
      RangeSetSize(lo + 1, hi);
      assert lo !in RangeSet(lo + 1, hi);
    }
  }

  /** The number of positions in `[lo, hi)` that lie in `keep`. */
  function CountIn(keep: set<int>, lo: int, hi: int): nat
    decreases hi - lo
  {
    if lo >= hi then 0 else (if lo in keep then 1 else 0) + CountIn(keep, lo + 1, hi)
  }

  /** Keeping a set of positions leaves one cell per kept position within the sequence. */
  lemma {:induction false} SelectLength(s: seq<Cell>, keep: set<int>, lo: nat)
    ensures |Kept(s, keep, lo)| == CountIn(keep, lo, |s|)
    decreases |s| - lo
  {
    if lo < |s| {
      SelectLength(s, keep, lo + 1);
    }
  }

  /** Keeping a contiguous range of positions is slicing. */
  lemma {:induction false} KeptRange(s: seq<Cell>, a: nat, b: nat, lo: nat)
    requires a <= b <= |s|
    requires lo <= |s|
    ensures Kept(s, RangeSet(a, b), lo) == if lo <= a then s[a..b] else if lo <= b then s[lo..b] else []
    decreases |s| - lo
  {
    if lo < |s| {
      KeptRange(s, a, b, lo + 1);
      if a <= lo < b {
        assert s[lo..b] == [s[lo]] + s[lo + 1..b];
      }
    }
  }

  lemma SelectRange(s: seq<Cell>, a: nat, b: nat)
    requires a <= b <= |s|
    ensures Select(s, RangeSet(a, b)) == s[a..b]
  {
    KeptRange(s, a, b, 0);
  }

  /** Keeping every position leaves the sequence as it was. */
  lemma {:induction false} SelectAll(s: seq<Cell>, keep: set<int>, lo: nat)
    requires forall i | 0 <= i < |s| :: i in keep
    requires lo <= |s|
    ensures Kept(s, keep, lo) == s[lo..]
    decreases |s| - lo
  {
    if lo < |s| {
      SelectAll(s, keep, lo + 1);
      assert s[lo..] == [s[lo]] + s[lo + 1..];
    }
  }

  /** `"".join` of the parts when `sep` is empty, `sep.join` in general. */
  function Join(parts: seq<string>, sep: string): string {
    if parts == [] then ""
    else if |parts| == 1 then parts[0]
    else parts[0] + sep + Join(parts[1..], sep)
  }

  /** `str` of a cell: a state shows its symbol; a raw value is rendered by `show`. */
  function CellText(c: Cell, show: real -> string): string {
    match c
    case State(st) => st.symbol
    case Continuous(x) => show(x)
  }

  function Texts(cells: seq<Cell>, show: real -> string): (r: seq<string>)
    ensures |r| == |cells|
    ensures forall i | 0 <= i < |cells| :: r[i] == CellText(cells[i], show)
  {
    seq(|cells|, i requires 0 <= i < |cells| => CellText(cells[i], show))
  }

  /** `symbols_as_list` after `extend`: the texts of the old cells, then
      those of the cells added. */
  lemma TextsOfExtended(a: seq<Cell>, b: seq<Cell>, show: real -> string)
    ensures Texts(a + b, show) == Texts(a, show) + Texts(b, show)
  {
    assert forall i | 0 <= i < |b| :: (a + b)[|a| + i] == b[i];
  }

  /** Remapping onto a symbol-consistent alphabet leaves `symbols_as_list`
      as it was: every cell still shows its symbol. */
  lemma RemapKeepsTexts(cells: seq<Cell>, sa: StateAlphabet, show: real -> string)
    requires SymbolConsistent(sa) && RemapCells(cells, sa).Ok?
    ensures Texts(RemapCells(cells, sa).value, show) == Texts(cells, show)
  {
    RemapKeepsSymbols(cells, sa);
    var r := RemapCells(cells, sa).value;
    forall i | 0 <= i < |cells| ensures CellText(r[i], show) == CellText(cells[i], show) {
      assert Mappable(cells[i], sa);
    }
  }

  /** Joining one-character parts with no separator gives one character per part. */
  lemma {:induction false} JoinSingletons(parts: seq<string>)
    requires forall i | 0 <= i < |parts| :: |parts[i]| == 1
    ensures |Join(parts, "")| == |parts|
    ensures forall i | 0 <= i < |parts| :: Join(parts, "")[i] == parts[i][0]
  {
    if |parts| > 1 {
      JoinSingletons(parts[1..]);
      assert Join(parts, "") == parts[0] + Join(parts[1..], "");
    }
  }

  class CharacterSequence {
    var cells: seq<Cell>

    constructor (cells: seq<Cell>)
      ensures this.cells == cells
    {
      this.cells := cells;
    }

    /** `values()` */
    function Values(): seq<Cell>
      reads this
    {
      cells
    }

    /** `symbols_as_list()`: the text of each cell, in order. */
    function SymbolsAsList(show: real -> string): seq<string>
      reads this
    {
      Texts(cells, show)
    }

    /** `symbols_as_string(sep)` */
    function SymbolsAsString(sep: string, show: real -> string): string
      reads this
    {
      Join(SymbolsAsList(show), sep)
    }

    /** `list.extend`: appends `more` in place. */
    method Extend(more: seq<Cell>)
      modifies this
      ensures cells == old(cells) + more
    {
      cells := cells + more;
    }

    /** The padding loop of `fill` for one sequence: add `v` until the length reaches `n`. */
    method PadTo(v: Cell, n: int, append: bool)
      modifies this
      ensures cells == Padded(old(cells), v, n, append)
    {
      ghost var was := cells;
      ghost var added: nat := 0;
      while |cells| < n
        invariant |cells| == |was| + added
        invariant added > 0 ==> |cells| <= n
        invariant append ==> cells == was + Repeat(v, added)
        invariant !append ==> cells == Repeat(v, added) + was
        decreases n - |cells|
      {
        RepeatGrow(v, added);
        if append {
          cells := cells + [v];
        } else {
          cells := [v] + cells;
        }
        added := added + 1;
      }
      assert added == 0 ==> Repeat(v, added) == [];
    }

    /** The column loop of `export_character_indices` for one sequence: walks
        the positions from last to first and deletes each not in `keep`. */
    method KeepColumns(keep: set<int>)
      modifies this
      ensures cells == Select(old(cells), keep)
    {
      ghost var was := cells;
      var i := |cells|;
      while i > 0
        invariant 0 <= i <= |was|
        invariant cells == was[..i] + Kept(was, keep, i)
      {
        i := i - 1;
        if i !in keep {
          cells := cells[..i] + cells[i + 1..];
        }
        assert was[..i + 1] == was[..i] + [was[i]];
      }
    }

    /** The cell loop of `remap_to_state_alphabet_by_symbol` for one sequence.
        Cells before the first that cannot be remapped are already remapped
        when the error is raised. */
    method RemapBySymbol(sa: StateAlphabet) returns (r: Outcome)
      modifies this
      ensures r.Pass? <==> old(RemapCells(cells, sa)).Ok?
      ensures r.Pass? ==> cells == old(RemapCells(cells, sa)).value
      ensures r.Fail? ==> r.error == old(RemapCells(cells, sa)).error
      ensures r.Fail? ==>
                var k := MappablePrefix(old(cells), sa);
                cells == RemapCells(old(cells)[..k], sa).value + old(cells)[k..]
    {
      ghost var was := cells;
      var i := 0;
      while i < |cells|
        invariant 0 <= i <= |was| == |cells|
        invariant forall j | 0 <= j < i :: Mappable(was[j], sa)
        invariant RemapCells(was[..i], sa).Ok?
        invariant cells == RemapCells(was[..i], sa).value + was[i..]
      {
        var c := RemapCell(cells[i], sa);
        if c.Err? {
          PrefixStops(was, sa, i);
          return Fail(c.error);
        }
        RemapStep(was, sa, i, cells);
        cells := cells[i := c.value];
        i := i + 1;
      }
      assert was[..i] == was;
      return Pass;
    }
  }

  lemma {:induction false} PrefixStops(cells: seq<Cell>, sa: StateAlphabet, i: nat)
    requires i < |cells|
    requires forall j | 0 <= j < i :: Mappable(cells[j], sa)
    requires !Mappable(cells[i], sa)
    ensures MappablePrefix(cells, sa) == i
    ensures RemapCells(cells, sa).Err?
    ensures RemapCells(cells, sa).error == RemapCell(cells[i], sa).error
  {
    if i > 0 {
      PrefixStops(cells[1..], sa, i - 1);
    }
  }

  lemma RemapStep(was: seq<Cell>, sa: StateAlphabet, i: nat, cells: seq<Cell>)
    requires i < |was|
    requires RemapCells(was[..i], sa).Ok?
    requires cells == RemapCells(was[..i], sa).value + was[i..]
    requires Mappable(was[i], sa)
    ensures RemapCells(was[..i + 1], sa).Ok?
    ensures cells[i := RemapCell(was[i], sa).value] == RemapCells(was[..i + 1], sa).value + was[i + 1..]
  {
    RemapSnoc(was, sa, i);
    assert was[i..] == [was[i]] + was[i + 1..];
  }

  lemma RemapSnoc(cells: seq<Cell>, sa: StateAlphabet, i: nat)
    requires i < |cells|
    requires RemapCells(cells[..i], sa).Ok?
    requires Mappable(cells[i], sa)
    ensures RemapCells(cells[..i + 1], sa).Ok?
    ensures RemapCells(cells[..i + 1], sa).value == RemapCells(cells[..i], sa).value + [RemapCell(cells[i], sa).value]
  {
    var p := cells[..i + 1];
    assert forall j | 0 <= j < i + 1 :: p[j] == cells[j];
    assert forall j | 0 <= j < i :: Mappable(cells[..i][j], sa);
  }
}
