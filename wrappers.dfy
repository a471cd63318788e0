/** Option, Result and Outcome values, and the error kinds that the character
    matrix operations raise. Each Python exception the source raises becomes an
    `Err`/`Fail` carrying one of these kinds. */
module Wrappers {

  datatype Option<+T> = None | Some(value: T)

  datatype Result<+T> = Ok(value: T) | Err(error: Error)

  datatype Outcome = Pass | Fail(error: Error)

  /** Why a `ValueError` was raised. */
  datatype ValueReason =
    | SequenceExists          // new_sequence on a taxon that already has one
    | NotInNamespace          // taxon is not a member of the matrix's namespace
    | DifferentNamespace      // concatenate: matrices do not share one namespace object
    | CountNotTaxa            // concatenate: sequence count differs from namespace size
    | UnequalLengths          // concatenate: sequences of one matrix differ in length
    | DuplicateSubsetLabel    // a character subset with this label already exists

  /** Why a `TypeError` was raised. */
  datatype TypeReason =
    | NoDataType              // get_char_matrix_type(None)
    | NoAlphabets             // default alphabet asked of a matrix with none registered
    | MultipleAlphabets       // default alphabet asked of a matrix with several and none nominated

  datatype Error =
    | IndexError                          // integer key outside the namespace
    | KeyError                            // unknown label, subset label, symbol or data type; absent map key
    | ValueError(reason: ValueReason)
    | TypeError(why: TypeReason)
    | AttributeError                      // a cell without a state symbol met during remapping
    | TaxonNamespaceError                 // merge across different namespace objects
    | TaxonNamespaceReconstructionError   // two sequences would share one taxon
}
