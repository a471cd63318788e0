/** State alphabets, state identities and the cells of a character sequence.
    Alphabets and states are identity-bearing objects defined outside the
    matrix code; an alphabet is modelled by the symbol-to-state table it
    answers `symbol_state_map()` with. A cell is either a reference to a state
    (discrete data) or a raw value (continuous data). */
module States {
  import opened Wrappers

  class StateIdentity {
    const symbol: string

    constructor (symbol: string)
      ensures this.symbol == symbol
    {
      this.symbol := symbol;
    }
  }

  class StateAlphabet {
    /** `symbol_state_map()`: the state each symbol denotes. */
    const symbolStates: map<string, StateIdentity>

    constructor (symbolStates: map<string, StateIdentity>)
      ensures this.symbolStates == symbolStates
    {
      this.symbolStates := symbolStates;
    }
  }

  /** An alphabet whose table sends every symbol to a state carrying that symbol. */
  predicate SymbolConsistent(sa: StateAlphabet) {
    forall s | s in sa.symbolStates :: sa.symbolStates[s].symbol == s
  }

  datatype Cell = State(state: StateIdentity) | Continuous(value: real)

  /** A column type: binds a column to a state alphabet. */
  class CharacterType {
    var alphabet: Option<StateAlphabet>

    constructor (alphabet: Option<StateAlphabet>)
      ensures this.alphabet == alphabet
    {
      this.alphabet := alphabet;
    }
  }

  /** A cell can be remapped onto `sa` when it holds a state whose symbol `sa` knows. */
  predicate Mappable(c: Cell, sa: StateAlphabet) {
    c.State? && c.state.symbol in sa.symbolStates
  }

  /** One step of `remap_to_state_alphabet_by_symbol`: the state of `sa` with
      the cell's symbol; a raw value has no symbol, an unknown symbol has no
      counterpart. */
  function RemapCell(c: Cell, sa: StateAlphabet): (r: Result<Cell>)
    ensures r.Ok? <==> Mappable(c, sa)
    ensures r.Ok? ==> r.value.State? && r.value.state in sa.symbolStates.Values
    ensures r.Ok? ==> r.value.state == sa.symbolStates[c.state.symbol]
    ensures !c.State? ==> r == Err(AttributeError)
    ensures c.State? && !Mappable(c, sa) ==> r == Err(KeyError)
  {
    if !c.State? then Err(AttributeError)
    else if c.state.symbol !in sa.symbolStates then Err(KeyError)
    else Ok(State(sa.symbolStates[c.state.symbol]))
  }

  /** How many leading cells can be remapped before the first that cannot. */
  function MappablePrefix(cells: seq<Cell>, sa: StateAlphabet): (k: nat)
    ensures k <= |cells|
    ensures forall i | 0 <= i < k :: Mappable(cells[i], sa)
    ensures k < |cells| ==> !Mappable(cells[k], sa)
  {
    if cells == [] || !Mappable(cells[0], sa) then 0
    else 1 + MappablePrefix(cells[1..], sa)
  }

  /** Every cell remapped onto `sa`, or the error of the first that cannot be. */
  function RemapCells(cells: seq<Cell>, sa: StateAlphabet): (r: Result<seq<Cell>>)
    ensures r.Ok? <==> forall i | 0 <= i < |cells| :: Mappable(cells[i], sa)
    ensures r.Ok? ==> |r.value| == |cells|
    ensures r.Ok? ==> forall i | 0 <= i < |cells| :: r.value[i] == RemapCell(cells[i], sa).value
    ensures r.Err? ==> r.error == RemapCell(cells[MappablePrefix(cells, sa)], sa).error
  {
    if cells == [] then Ok([])
    else
      match RemapCell(cells[0], sa)
      case Err(e) => Err(e)
      case Ok(c) =>
        match RemapCells(cells[1..], sa)
        case Err(e) => Err(e)
        case Ok(rest) => Ok([c] + rest)
  }

  /** Remapping onto a symbol-consistent alphabet changes which state each cell
      points to but not the symbol it shows. */
  lemma RemapKeepsSymbols(cells: seq<Cell>, sa: StateAlphabet)
    requires SymbolConsistent(sa)
    requires RemapCells(cells, sa).Ok?
    ensures forall i | 0 <= i < |cells| ::
              RemapCells(cells, sa).value[i].state.symbol == cells[i].state.symbol
  {
    var r := RemapCells(cells, sa).value;
    forall i | 0 <= i < |cells| ensures r[i].state.symbol == cells[i].state.symbol {
      assert Mappable(cells[i], sa);
      var s := cells[i].state.symbol;
      assert r[i].state == sa.symbolStates[s];
    }
  }

  /** Remapping twice onto the same symbol-consistent alphabet is remapping once. */
  lemma {:induction false} RemapIdempotent(cells: seq<Cell>, sa: StateAlphabet)
    requires SymbolConsistent(sa)
    requires RemapCells(cells, sa).Ok?
    ensures RemapCells(RemapCells(cells, sa).value, sa) == RemapCells(cells, sa)
  {
    var once := RemapCells(cells, sa).value;
    RemapKeepsSymbols(cells, sa);
    forall i | 0 <= i < |once| ensures Mappable(once[i], sa) {
      assert once[i].state.symbol == cells[i].state.symbol;
    }
    var twice := RemapCells(once, sa).value;
    assert |twice| == |once|;
    forall i | 0 <= i < |once| ensures twice[i] == once[i] {
      var sym := cells[i].state.symbol;
      assert once[i] == State(sa.symbolStates[sym]);
      assert once[i].state.symbol == sym;
      assert twice[i] == State(sa.symbolStates[once[i].state.symbol]);
    }
    assert twice == once;
  }
}
