/** The kinds of character matrix, their data-type tags, and the table that
    finds a matrix kind from its tag. */
module Registry {
  import opened Wrappers
  import opened States

  datatype DataType = Continuous | Standard | Dna | Rna | Nucleotide | Protein | Restriction | Infinite {
    /** The class attribute `data_type`. */
    function Tag(): string {
      match this
      case Continuous => "continuous"
      case Standard => "standard"
      case Dna => "dna"
      case Rna => "rna"
      case Nucleotide => "nucleotide"
      case Protein => "protein"
      case Restriction => "restriction"
      case Infinite => "infinite"
    }

    /** Matrices of this kind carry state alphabets. */
    predicate Discrete() {
      !Continuous?
    }

    /** Matrices of this kind start out with a built-in alphabet. */
    predicate FixedAlphabet() {
      Discrete() && !Standard?
    }
  }

  /** The kinds `data_type_matrix_map` lists, in its order. */
  const Registered: seq<DataType> := [DataType.Continuous, Dna, Rna, Protein, Standard, Restriction, Infinite]

  /** `data_type_matrix_map` */
  function DataTypeMatrixMap(): map<string, DataType> {
    map["continuous" := DataType.Continuous, "dna" := Dna, "rna" := Rna, "protein" := Protein,
        "standard" := Standard, "restriction" := Restriction, "infinite" := Infinite]
  }

  lemma TagsDistinct(a: DataType, b: DataType)
    requires a.Tag() == b.Tag()
    ensures a == b
  {
  }

  /** `get_char_matrix_type(data_type)`: no tag is a type error, an unknown tag
      a key error. */
  function GetCharMatrixType(tag: Option<string>): (r: Result<DataType>)
    ensures tag.None? ==> r == Err(TypeError(NoDataType))
    ensures tag.Some? ==> (r.Ok? <==> exists d | d in Registered :: d.Tag() == tag.value)
    ensures tag.Some? && r.Err? ==> r.error == KeyError
    ensures r.Ok? ==> r.value in Registered && r.value.Tag() == tag.value
  {
    match tag
    case None => Err(TypeError(NoDataType))
    case Some(s) =>
      if s in DataTypeMatrixMap() then
        var d := DataTypeMatrixMap()[s];
        assert d in Registered && d.Tag() == s;
        Ok(d)
      else Err(KeyError)
  }

  /** Every registered kind is found again from its own tag. */
  lemma RegisteredRoundTrip(d: DataType)
    requires d in Registered
    ensures GetCharMatrixType(Some(d.Tag())) == Ok(d)
  {
    var r := GetCharMatrixType(Some(d.Tag()));
    assert r.Ok? by {
      assert d in Registered && d.Tag() == d.Tag();
    }
    TagsDistinct(r.value, d);
  }

  /** The generic nucleotide kind has a tag but no entry: looking it up fails. */
  lemma NucleotideUnregistered()
    ensures Nucleotide !in Registered
    ensures GetCharMatrixType(Some(Nucleotide.Tag())) == Err(KeyError)
  {
  }

  /** The alphabets the fixed-alphabet kinds are born with. */
  datatype Builtins = Builtins(dna: StateAlphabet, rna: StateAlphabet, nucleotide: StateAlphabet,
                               protein: StateAlphabet, restriction: StateAlphabet, infinite: StateAlphabet)
  {
    function For(d: DataType): StateAlphabet
      requires d.FixedAlphabet()
    {
      match d
      case Dna => dna
      case Rna => rna
      case Nucleotide => nucleotide
      case Protein => protein
      case Restriction => restriction
      case Infinite => infinite
    }
  }
}
