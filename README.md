# Character matrices of DendroPy, modelled in Dafny

This project models the character-matrix container of DendroPy
(`dendropy/datamodel/charmatrixmodel.py`): a map from the taxa of one taxon
namespace to their character sequences, with everything the matrix does to
that map. It proves what each of those operations promises.

- Keyed access: `_resolve_key`, `m[key]`, `m[key] = values`, `new_sequence`,
  `in`, `del`, `clear`.
- Views: iteration in namespace order, `len`, `sequence_size`,
  `max_sequence_size`.
- Padding: `fill`, `fill_taxa`, `pack`.
- The five bulk merges: `add_sequences`, `replace_sequences`,
  `update_sequences`, `extend_sequences`, `extend_matrix`.
- `concatenate`: column blocks, and one character subset per block.
- Character subsets, kept in a case-insensitive ordered dict.
- Column export: `export_character_subset`, `export_character_indices`.
- Taxon bookkeeping: `update_taxon_namespace`, `reconstruct_taxon_namespace`,
  `from_dict`, the taxon mapping of `_clone_from`, and the sequence sharing
  of `__copy__`.
- Alphabets of the discrete kinds: the `default_state_alphabet` property,
  the built-in alphabets of the fixed-alphabet kinds, and
  `remap_to_state_alphabet_by_symbol`.
- The type registry: `data_type_matrix_map` and `get_char_matrix_type`.

Layout:

- `CharacterMatrix` (`matrices.dfy`) is a class. Its sequence dict is an
  insertion-ordered map field (`table`) that the methods reassign.
- `CharacterSequence` (`sequences.dfy`) is a class too. So in-place growth,
  column deletion and remapping reach every matrix that holds the same
  sequence object, including a shallow copy.
- Each method is proved against a specification on values (`cellmaps.dfy`):
  - `Merged` for the merges;
  - `Filled` and `WithEmpty` for padding;
  - `SelectedOn` for export;
  - `AssignAll` for `from_dict`;
  - `Remapped`, `RemapOutcome` and `RemapLeaves` for remapping.
- Lemmas relate these specifications to each other (update is replace then
  add, extend_matrix is extend then add, merges are idempotent, remapping is
  idempotent). They also relate them to what a reader expects: a block of a
  concatenation gives back the matrix it came from.

Errors the source raises become `Err`/`Fail` values carrying the exception
kind (`wrappers.dfy`).

`concatenate` (`concatenation.dfy`) works in three steps:
1. It reads each input matrix into a `Part` value.
2. It checks the parts in turn up to the first failure (`Screen`).
3. It appends the parts that passed (`Run`).

The source interleaves checking and appending in one loop. The outcome is
the same, because the checks read only the input matrices, and appending
never changes those.

## Model

| member | source | states |
|---|---|---|
| `Text.Format03RoundTrip` | dendropy/datamodel/charmatrixmodel.py:311 | reading the digits of `"%03d" % n` back gives `n` |
| `Text.Format03Injective` | dendropy/datamodel/charmatrixmodel.py:317 | different counters give different `"%03d"` renderings |
| `Registry.GetCharMatrixType` | dendropy/datamodel/charmatrixmodel.py:1496-1503 | no tag is a `TypeError`; a tag is found exactly when some registered kind carries it, and then the kind found carries that tag; any other tag is a `KeyError` |
| `Registry.RegisteredRoundTrip` | dendropy/datamodel/charmatrixmodel.py:1486-1494 | every registered kind is found again from its own `data_type` tag |
| `Registry.NucleotideUnregistered` | dendropy/datamodel/charmatrixmodel.py:1423-1426 | the nucleotide kind has a tag, but looking that tag up fails with `KeyError` |
| `States.RemapCell` | dendropy/datamodel/charmatrixmodel.py:1313 | a cell is remapped exactly when it holds a state whose symbol the alphabet knows, and then to the alphabet's state for that symbol; a raw value is an `AttributeError`, an unknown symbol a `KeyError` |
| `States.RemapCells` | dendropy/datamodel/charmatrixmodel.py:1312-1313 | a sequence remaps exactly when every cell does, cell by cell; otherwise the error is that of the first cell that cannot |
| `States.RemapKeepsSymbols` | dendropy/datamodel/charmatrixmodel.py:1310-1313 | on a symbol-consistent alphabet, remapping keeps the symbol every cell shows |
| `States.RemapIdempotent` | dendropy/datamodel/charmatrixmodel.py:1300-1313 | remapping twice onto one symbol-consistent alphabet is remapping once |
| `Sequences.Padded` | dendropy/datamodel/charmatrixmodel.py:904-908 | a sequence at least `n` long is unchanged; a shorter one ends exactly `n` long, keeping its cells as a prefix (append) or a suffix (insert at the front), with the padding value everywhere else |
| `Sequences.CharacterSequence.PadTo` | dendropy/datamodel/charmatrixmodel.py:904-908 | the padding loop leaves the sequence padded as `Padded` says |
| `Sequences.CharacterSequence.KeepColumns` | dendropy/datamodel/charmatrixmodel.py:1182-1184 | deleting from the last position backwards every position not kept leaves exactly the kept cells, in their order |
| `Sequences.CharacterSequence.RemapBySymbol` | dendropy/datamodel/charmatrixmodel.py:1312-1313 | the cell loop succeeds exactly when the whole sequence remaps, and then holds the remapped cells; on failure it raises the first cell's error, with the cells before that one already remapped and the rest untouched |
| `Sequences.CharacterSequence.Extend` | dendropy/datamodel/charmatrixmodel.py:1045 | `extend` appends the other cells after the sequence's own, in place |
| `Sequences.SelectLength` | dendropy/datamodel/charmatrixmodel.py:1182-1184 | keeping a set of positions leaves one cell per kept position that lies inside the sequence |
| `Sequences.SelectRange` | dendropy/datamodel/charmatrixmodel.py:319 | keeping the positions of `range(a, b)` is the slice from `a` to `b` |
| `Sequences.SelectAll` | dendropy/datamodel/charmatrixmodel.py:1183 | keeping every position leaves the sequence unchanged |
| `Sequences.JoinSingletons` | dendropy/datamodel/charmatrixmodel.py:177-186 | with one-character symbols, `symbols_as_string()` has one character per cell, the cell's symbol |
| `Sequences.TextsOfExtended` | dendropy/datamodel/charmatrixmodel.py:166-175 | `symbols_as_list` of a sequence extended in place (line 1045) is its old list followed by that of the added cells |
| `Sequences.RemapKeepsTexts` | dendropy/datamodel/charmatrixmodel.py:166-175 | after remapping onto a symbol-consistent alphabet (lines 1312-1313), `symbols_as_list` is what it was |
| `Sequences.RangeSet` | dendropy/datamodel/charmatrixmodel.py:319 | the positions of `range(lo, hi)` are exactly those from `lo` up to, not including, `hi` |
| `Sequences.RangeSetSize` | dendropy/datamodel/charmatrixmodel.py:319 | `range(lo, hi)` holds `hi - lo` positions when `lo <= hi` |
| `Subsets.CharacterSubset.Len` | dendropy/datamodel/charmatrixmodel.py:217-218 | a subset's length is the number of its distinct positions, zero exactly when it has none |
| `Subsets.HasLabelMeaning` | dendropy/datamodel/charmatrixmodel.py:1143 | a label is in the subset table exactly when a stored subset has a label equal to it ignoring case |
| `Subsets.FindSubset` | dendropy/datamodel/charmatrixmodel.py:1170 | a lookup finds a subset exactly when the label is present, and what it finds is a stored subset |
| `Subsets.AddSubset` | dendropy/datamodel/charmatrixmodel.py:1142-1146 | adding fails with `ValueError` exactly when the label is taken in any case; otherwise the subset is filed under its folded label, appended to the order, and the table stays keyed by folded labels |
| `Subsets.AddThenFind` | dendropy/datamodel/charmatrixmodel.py:1145-1146 | a subset just added is what a lookup of its label, in any case, returns |
| `Subsets.AddKeepsOthers` | dendropy/datamodel/charmatrixmodel.py:1145 | adding a subset leaves every other label's lookup as it was |
| `Subsets.LocusLabelsDiffer` | dendropy/datamodel/charmatrixmodel.py:310-311 | the automatic labels `locus%03d` of two different parts differ even ignoring case |
| `Subsets.CandidateFoldInjective` | dendropy/datamodel/charmatrixmodel.py:317 | the numbered variants `label_%03d` for different counters differ even ignoring case |
| `Subsets.DisambiguatedLabel` | dendropy/datamodel/charmatrixmodel.py:314-318 | the label chosen is free; it is the label itself when that is free, otherwise the first of `label_002`, `label_003`, … that is free; the loop ends |
| `Subsets.CollisionLoopNeverExits` | dendropy/datamodel/charmatrixmodel.py:315-318 | as written, once the first label collides, no number of turns ends the loop |
| `Subsets.SameLabelTwice` | dendropy/datamodel/charmatrixmodel.py:316-317 | two matrices labelled `gene` make the loop as written spin, while `gene_002` is free |
| `Taxa.FindByLabel` | dendropy/datamodel/charmatrixmodel.py:632-635 | a label lookup finds a member with a matching label and none before it, and finds nothing exactly when no member matches |
| `Taxa.FirstOfLabelFound` | dendropy/datamodel/charmatrixmodel.py:585-587 | a member that is the first to carry its label is what a lookup of that label returns |
| `Taxa.FindByLabelAppend` | dendropy/datamodel/charmatrixmodel.py:428 | members added later do not change a lookup that already found a taxon |
| `Taxa.TaxonNamespace.AddTaxon` | dendropy/datamodel/charmatrixmodel.py:594 | `add_taxon` appends the taxon unless it is already a member; the namespace stays duplicate-free |
| `Taxa.TaxonNamespace.NewTaxon` | dendropy/datamodel/charmatrixmodel.py:590 | `new_taxon` appends a new taxon with the label |
| `Taxa.TaxonNamespace.RequireTaxon` | dendropy/datamodel/charmatrixmodel.py:585-587 | `require_taxon` returns the member a lookup finds and leaves the namespace alone, or else appends a new taxon with the label |
| `CellMaps.Merged` | dendropy/datamodel/charmatrixmodel.py:945-1077 | the five merges: which taxa gain a sequence, what a shared taxon ends with (theirs, mine then theirs, or mine), and that a taxon only the destination holds is untouched |
| `CellMaps.MergeSeqIsMerged` | dendropy/datamodel/charmatrixmodel.py:966-968 | running a merge loop over distinct source taxa, one turn each, gives the merge of those entries |
| `CellMaps.MergeLoopComplete` | dendropy/datamodel/charmatrixmodel.py:1018-1019 | the loop over all of the source's taxa gives the merge, and the key order is the destination's followed by the new taxa in source order |
| `CellMaps.UpdateIsReplaceThenAdd` | dendropy/datamodel/charmatrixmodel.py:995-1019 | `update_sequences` is `replace_sequences` followed by `add_sequences` |
| `CellMaps.ExtendAllIsExtendThenAdd` | dendropy/datamodel/charmatrixmodel.py:1047-1077 | `extend_matrix` is `extend_sequences` followed by `add_sequences` |
| `CellMaps.MergeIdempotent` | dendropy/datamodel/charmatrixmodel.py:945-1019 | adding, replacing or updating twice from one source is doing it once |
| `CellMaps.ExtendedTail` | dendropy/datamodel/charmatrixmodel.py:1074-1075 | after `extend_matrix` a shared taxon's sequence has the old cells in its first columns and exactly the source's cells after them |
| `CellMaps.Filled` | dendropy/datamodel/charmatrixmodel.py:902-908 | `fill` pads exactly the sequences of the visited taxa and keeps every other one |
| `CellMaps.FilledToMaxEqualizes` | dendropy/datamodel/charmatrixmodel.py:900-908 | padding to at least every visited length leaves every visited sequence exactly that long |
| `CellMaps.WithEmpty` | dendropy/datamodel/charmatrixmodel.py:916-918 | `fill_taxa` gives every namespace taxon a sequence, an empty one where there was none, and keeps every existing one |
| `CellMaps.AssignAllDistinct` | dendropy/datamodel/charmatrixmodel.py:426-434 | assigning under distinct taxa gives each its own value and leaves every other entry alone |
| `CellMaps.AssignAllLastWins` | dendropy/datamodel/charmatrixmodel.py:426-434 | when two keys reach one taxon, the last assignment wins; untouched entries stay |
| `CellMaps.SelectedOn` | dendropy/datamodel/charmatrixmodel.py:1181-1184 | an export keeps the chosen taxa and, for each, exactly the kept columns |
| `CellMaps.MaxLen` | dendropy/datamodel/charmatrixmodel.py:871-875 | the maximum bounds every length and is one of them, or 0 for none |
| `CellMaps.FirstUnmappable` | dendropy/datamodel/charmatrixmodel.py:1311-1313 | the position of the first sequence, in dict order, that cannot be remapped, or the end |
| `CellMaps.RemapRunMeaning` | dendropy/datamodel/charmatrixmodel.py:1311-1313 | the remap loop passes exactly when every sequence can be remapped, and then remaps all; otherwise it raises the first failing sequence's error, with the earlier sequences remapped, that one remapped up to its bad cell, and the later ones untouched |
| `CellMaps.RemappedUntilStuckMeaning` | dendropy/datamodel/charmatrixmodel.py:1312-1313 | a sequence stuck at its first unmappable cell keeps that cell and all after it, and has every cell before it remapped |
| `CellMaps.RemapAllIdempotent` | dendropy/datamodel/charmatrixmodel.py:1310-1313 | remapping a whole matrix twice onto one symbol-consistent alphabet is remapping once |
| `Concatenation.Concatenate` | dendropy/datamodel/charmatrixmodel.py:282-323 | an empty list is an `IndexError`; the result is a matrix exactly when every input passes its checks, else the error of the first that fails; on success each taxon's sequence is its input sequences laid end to end, the key order is the first input's, each input's columns form one block, stored as a subset under the input's label (or `locus%03d`) when no earlier block's label matches it ignoring case, else under the first of `label_002`, `label_003`, … that matches none, and standard data adopts every input's alphabets |
| `Concatenation.Build` | dendropy/datamodel/charmatrixmodel.py:292-323 | the same, over the inputs as read, block labels chosen by the same rule |
| `Concatenation.Screen` | dendropy/datamodel/charmatrixmodel.py:296-306 | the inputs before the one returned pass their checks, and that one fails with the verdict returned, or all pass |
| `Concatenation.CheckPart` | dendropy/datamodel/charmatrixmodel.py:297-306 | the checks on one input: the same namespace object, as many sequences as taxa, a first taxon to measure, all sequences of one length, each with its error |
| `Concatenation.ReadParts` | dendropy/datamodel/charmatrixmodel.py:296 | each input is read as it is, and inputs on one namespace see the same taxa |
| `Concatenation.FillsNamespace` | dendropy/datamodel/charmatrixmodel.py:299-300 | an input with as many sequences as namespace taxa, keyed by members, holds one for every taxon |
| `Concatenation.PassedPart` | dendropy/datamodel/charmatrixmodel.py:299-306 | an input that passed holds a sequence of one common width for every taxon |
| `Concatenation.WidthIsSequenceSize` | dendropy/datamodel/charmatrixmodel.py:858-860 | the width `concatenate` reads from an input as `vector_size` is that matrix's `sequence_size` |
| `Concatenation.PassedMatrix` | dendropy/datamodel/charmatrixmodel.py:299-306 | a matrix that passed the checks holds, for every namespace taxon, a sequence exactly `sequence_size` long |
| `Concatenation.JoinedRow` | dendropy/datamodel/charmatrixmodel.py:307-309 | extending by each input in turn gives every taxon its input sequences, one after the other |
| `Concatenation.RowBlocks` | dendropy/datamodel/charmatrixmodel.py:319-320 | in a joined sequence, input `j`'s cells start at the sum of the widths before it |
| `Concatenation.BlockLen` | dendropy/datamodel/charmatrixmodel.py:319-321 | the subset recorded for input `j` has exactly as many positions as block `j` is wide, the input's `vector_size` (line 320) |
| `Concatenation.BlockRecoversPart` | dendropy/datamodel/charmatrixmodel.py:319-322 | exporting the columns of block `j` from the joined sequence gives back the sequence input `j` held |
| `Concatenation.BlocksDisjoint` | dendropy/datamodel/charmatrixmodel.py:319-320 | the blocks of two inputs share no column, and each block starts where the one before it ends |
| `Concatenation.SubsetsStep` | dendropy/datamodel/charmatrixmodel.py:321-322 | adding the next block under a free label succeeds and keeps every earlier block findable under its own label |
| `Concatenation.AdoptFacts` | dendropy/datamodel/charmatrixmodel.py:1369-1371 | adopting alphabets registers each one once, after those already registered, and nothing else |
| `Concatenation.ExtendPart` | dendropy/datamodel/charmatrixmodel.py:307-309 | extending by a passing input joins its sequences on, and keeps the key order of the first input |
| `Concatenation.AdoptPart` | dendropy/datamodel/charmatrixmodel.py:1369-1371 | for standard data, the input's alphabets are adopted; sequences and subsets stay |
| `Concatenation.RecordPart` | dendropy/datamodel/charmatrixmodel.py:310-322 | the block of input `cidx` is stored as a subset under the label the rule above chooses given the earlier labels, every earlier block stays findable under its own label, and the next block starts after it |
| `Matrices.CharacterMatrix.constructor` | dendropy/datamodel/charmatrixmodel.py:1396-1403 | a new matrix is empty; a fixed-alphabet kind nominates its built-in alphabet as default and lists it twice; other kinds start with no alphabet |
| `Matrices.CharacterMatrix.ResolveKey` | dendropy/datamodel/charmatrixmodel.py:619-638 | an index resolves exactly when `0 <= i < len(ns)`, to `ns[i]`, else `IndexError`; a label resolves exactly when a member carries it, else `KeyError`; a taxon is passed through |
| `Matrices.CharacterMatrix.IndexKeyMissed` | dendropy/datamodel/charmatrixmodel.py:750 | as written, `i in m` is false for the index of a member that holds a sequence, though the member itself is `in`; resolving the index as `m[i]` does finds it |
| `Matrices.CharacterMatrix.LabelKeyMissed` | dendropy/datamodel/charmatrixmodel.py:750 | as written, a member's label is not `in` the matrix though the member holds a sequence; resolving the label finds it |
| `Matrices.CharacterMatrix.ResolvedKeyMeansVisited` | dendropy/datamodel/charmatrixmodel.py:729-750 | the documented test: a member, named by its index or by itself, is `in` the matrix exactly when iteration visits it; for a taxon key the documented and the written test agree |
| `Matrices.CharacterMatrix.Len` | dendropy/datamodel/charmatrixmodel.py:842 | `len` is the number of sequences |
| `Matrices.CharacterMatrix.Taxa` | dendropy/datamodel/charmatrixmodel.py:793-797 | iteration yields exactly the namespace taxa that have a sequence, each once, in namespace order |
| `Matrices.CharacterMatrix.NewSequence` | dendropy/datamodel/charmatrixmodel.py:640-665 | fails with `ValueError` exactly when the taxon has a sequence or is not a member, changing nothing; otherwise stores a new sequence of the values under it, appended to the order |
| `Matrices.CharacterMatrix.Get` | dendropy/datamodel/charmatrixmodel.py:667-698 | returns the resolved taxon's sequence; without one, a new empty sequence is stored for a member and returned, a non-member is a `ValueError`; key errors pass through unchanged |
| `Matrices.CharacterMatrix.Set` | dendropy/datamodel/charmatrixmodel.py:700-727 | a key that does not resolve to a member fails and changes nothing; otherwise exactly that taxon's entry becomes a new sequence of the values |
| `Matrices.CharacterMatrix.Store` | dendropy/datamodel/charmatrixmodel.py:726-727 | storing a new sequence replaces one entry and keeps every other |
| `Matrices.CharacterMatrix.Delete` | dendropy/datamodel/charmatrixmodel.py:770 | `del` fails with `KeyError` exactly when the taxon has no sequence; otherwise removes just that entry and its place in the order |
| `Matrices.CharacterMatrix.Clear` | dendropy/datamodel/charmatrixmodel.py:776 | `clear` leaves no sequence |
| `Matrices.CharacterMatrix.SequenceSizeAtMostMax` | dendropy/datamodel/charmatrixmodel.py:844-876 | when the first sequence stored belongs to a namespace member, `sequence_size` is at most `max_sequence_size`, and equal to it when every sequence has that one length |
| `Matrices.CharacterMatrix.MaxSequenceSize` | dendropy/datamodel/charmatrixmodel.py:862-876 | at least the length of every sequence iteration visits, equal to one of them, 0 when there is none |
| `Matrices.CharacterMatrix.Fill` | dendropy/datamodel/charmatrixmodel.py:881-909 | returns the size given, or else the longest visited length; every visited sequence is padded to it, the rest untouched |
| `Matrices.CharacterMatrix.PadMembers` | dendropy/datamodel/charmatrixmodel.py:902-908 | the loop pads the sequence of every namespace taxon that has one |
| `Matrices.CharacterMatrix.PadAll` | dendropy/datamodel/charmatrixmodel.py:902-908 | padding the given taxa in turn pads each of them once |
| `Matrices.CharacterMatrix.PadEntry` | dendropy/datamodel/charmatrixmodel.py:903-908 | padding one taxon's sequence leaves every other sequence alone |
| `Matrices.CharacterMatrix.AddEmpty` | dendropy/datamodel/charmatrixmodel.py:917-918 | a taxon without a sequence gets an empty one; one with a sequence keeps it |
| `Matrices.CharacterMatrix.FillTaxa` | dendropy/datamodel/charmatrixmodel.py:911-918 | every namespace taxon ends with a sequence; new ones are empty and appended in namespace order |
| `Matrices.CharacterMatrix.Pack` | dendropy/datamodel/charmatrixmodel.py:920-943 | `fill_taxa` then `fill`; a non-empty namespace leaves at least one sequence; without a size, every namespace taxon ends with a sequence of one common length, and `sequence_size` is that length when the first sequence is a member's |
| `Matrices.CharacterMatrix.ExtendEntry` | dendropy/datamodel/charmatrixmodel.py:1045 | extending one taxon's sequence in place leaves every other sequence alone |
| `Matrices.CharacterMatrix.CopyFrom` | dendropy/datamodel/charmatrixmodel.py:966-968 | the copying loop leaves the merge of the source into the destination, with new taxa appended in source order |
| `Matrices.CharacterMatrix.ExtendFrom` | dendropy/datamodel/charmatrixmodel.py:1073-1077 | the extending loop leaves the extend-merge, keeps every existing sequence object under its taxon, and adds new taxa in source order |
| `Matrices.CharacterMatrix.ExtendWith` | dendropy/datamodel/charmatrixmodel.py:1073-1077 | extending by given cells gives the extend-merge |
| `Matrices.CharacterMatrix.AddSequences` | dendropy/datamodel/charmatrixmodel.py:945-968 | fails with `TaxonNamespaceError`, changing nothing, exactly when the namespaces differ; otherwise a taxon only the source holds gains a copy, and all others are unchanged |
| `Matrices.CharacterMatrix.ReplaceSequences` | dendropy/datamodel/charmatrixmodel.py:970-993 | namespace gate as above; shared taxa get the source's cells, no taxon is added |
| `Matrices.CharacterMatrix.UpdateSequences` | dendropy/datamodel/charmatrixmodel.py:995-1019 | namespace gate as above; every source taxon ends with the source's cells |
| `Matrices.CharacterMatrix.ExtendSequences` | dendropy/datamodel/charmatrixmodel.py:1021-1045 | namespace gate as above; shared taxa get the source's cells appended in place, the table itself is unchanged |
| `Matrices.CharacterMatrix.ExtendMatrix` | dendropy/datamodel/charmatrixmodel.py:1047-1077 | namespace gate as above; shared taxa are extended in place, the same objects, and the source's other taxa gain copies |
| `Matrices.CharacterMatrix.DefaultStateAlphabet` | dendropy/datamodel/charmatrixmodel.py:1274-1283 | the nominated alphabet, else the only registered one; with none registered or several, a `TypeError` of each kind |
| `Matrices.CharacterMatrix.SetDefaultStateAlphabet` | dendropy/datamodel/charmatrixmodel.py:1284-1288 | the alphabet is registered once and nominated, so the getter returns it |
| `Matrices.CharacterMatrix.RemapEntry` | dendropy/datamodel/charmatrixmodel.py:1312-1313 | remapping one sequence passes exactly when it can be remapped; other sequences stay |
| `Matrices.CharacterMatrix.RemapSequences` | dendropy/datamodel/charmatrixmodel.py:1311-1313 | the sequence loop ends with the outcome and contents `RemapRunMeaning` describes |
| `Matrices.CharacterMatrix.RetypeCharacters` | dendropy/datamodel/charmatrixmodel.py:1314-1315 | every column type is bound to the alphabet |
| `Matrices.CharacterMatrix.Rebind` | dendropy/datamodel/charmatrixmodel.py:1314-1318 | column types rebound; with purge the alphabet is the only one and the default; the cells stay |
| `Matrices.CharacterMatrix.RemapToStateAlphabetBySymbol` | dendropy/datamodel/charmatrixmodel.py:1300-1318 | cells remapped as `RemapRunMeaning` says; on success column types are rebound and, with purge, the alphabet is the only one and the default; on failure alphabets and column types are as they were |
| `Matrices.CharacterMatrix.RemapToDefaultStateAlphabetBySymbol` | dendropy/datamodel/charmatrixmodel.py:1320-1332 | a missing default is its `TypeError` with cells, alphabets and column types unchanged; otherwise the remap onto the default: cells as `RemapRunMeaning` says, on a pass every column type bound to it and, with purge, it the only alphabet and the default; on a fail or without purge the alphabets as they were, and on a fail every column type as it was |
| `Matrices.CharacterMatrix.UpdateTaxonNamespace` | dendropy/datamodel/charmatrixmodel.py:600-608 | every taxon with a sequence ends a member, appended in dict order, and iteration then visits every sequence |
| `Matrices.CharacterMatrix.AddCharacterSubset` | dendropy/datamodel/charmatrixmodel.py:1137-1146 | fails with `ValueError`, changing nothing, exactly when the label is taken in any case; otherwise stores and returns the subset; either way the label is then found |
| `Matrices.CharacterMatrix.NewCharacterSubset` | dendropy/datamodel/charmatrixmodel.py:1148-1155 | the same for a subset built from a label and positions, which a lookup then returns |
| `Matrices.CharacterMatrix.AdoptStateAlphabets` | dendropy/datamodel/charmatrixmodel.py:1369-1371 | each of the other matrix's alphabets not yet registered is appended, in order |
| `Matrices.CharacterMatrix.Shell` | dendropy/datamodel/charmatrixmodel.py:1179 | the clone an export is meant to start from (intended; see Left out): the source's kind, namespace, label, subsets and alphabets, no sequences |
| `Matrices.CharacterMatrix.AddKept` | dendropy/datamodel/charmatrixmodel.py:1181-1184 | one exported sequence holds exactly the kept columns of the original |
| `Matrices.CharacterMatrix.ExportCharacterIndices` | dendropy/datamodel/charmatrixmodel.py:1173-1185 | the documented export (intended; see Left out): a new matrix of the same kind, label, subsets, column types and alphabets, on the same namespace and taxa in the same order, whose every sequence holds exactly the original cells at the given positions, in order; this matrix is untouched |
| `Matrices.CharacterMatrix.ResolveSubset` | dendropy/datamodel/charmatrixmodel.py:1166-1170 | a given subset is used as is; a label resolves exactly when it is present in any case, to a stored subset with that label, else `KeyError` |
| `Matrices.CharacterMatrix.ExportCharacterSubset` | dendropy/datamodel/charmatrixmodel.py:1160-1171 | an unknown label is a `KeyError`; otherwise the documented export of the subset's positions (intended; see Left out): a new matrix of the same kind, label, subsets, column types and alphabets, on the same namespace and taxa, keeping exactly those columns |
| `Matrices.CharacterMatrix.ShallowCopy` | dendropy/datamodel/charmatrixmodel.py:515-524 | a new matrix of the same kind, label and namespace, holding the very same sequence objects under the same taxa, in the same order; built from label and namespace only, it has no character subsets and no column types, and the alphabets a new matrix of its kind starts with |
| `Matrices.CharacterMatrix.CloneTaxonMapping` | dendropy/datamodel/charmatrixmodel.py:501-509 | every taxon of the source namespace is mapped: to itself when the namespace is kept, otherwise to the target member its label finds; the target only grows |
| `Matrices.RequireDictKey` | dendropy/datamodel/charmatrixmodel.py:427-432 | a label key resolves to the member it finds, or a new member with that label; a taxon key is used as is and registered; the namespace only grows |
| `Matrices.CharacterMatrix.FromDict` | dendropy/datamodel/charmatrixmodel.py:424-435 | each key resolves to a member (label keys to the member already carrying the label, if any); the contents are the pairs assigned in turn, later ones winning; the namespace only grows |
| `Matrices.ReconTarget` | dendropy/datamodel/charmatrixmodel.py:577-594 | the target of a taxon: the memo's entry, registered; else, with unify, the first member its label finds before the call (the namespace then unchanged), or a new member with the label; without unify, always a new taxon with its label; the memo then maps the taxon to it |
| `Matrices.CharacterMatrix.Rekey` | dendropy/datamodel/charmatrixmodel.py:597-598 | the sequence moves from the old taxon to the new one, which goes last in the order |
| `Matrices.CharacterMatrix.ReconstructTaxonNamespace` | dendropy/datamodel/charmatrixmodel.py:569-598 | each original taxon, in dict order, gets exactly one target: with unify off a member keeps itself, else the memo's entry, else with unify the first member its label finds, else a new taxon; the call fails exactly when some turn's target is another taxon whose sequence is there (moved there earlier or not yet moved away), and then the earlier turns' sequences are under their targets and the rest where they were; on a pass every sequence is under its own target, the targets are distinct members, and the memo records each move; when every taxon is a member first to carry its label, nothing changes |
| `Matrices.NoClashDistinct` | dendropy/datamodel/charmatrixmodel.py:595-598 | when no turn meets the intended guard, no two original taxa get the same target, so no sequence is lost |
| `Matrices.MovedMeans` | dendropy/datamodel/charmatrixmodel.py:569-598 | after a pass the table holds a sequence exactly under each target, each original's sequence under its own target, every moved taxon's target is in the memo, and with unify off every member kept its sequence |
| `Matrices.SelfMappedClashesAsWritten` | dendropy/datamodel/charmatrixmodel.py:595-596 | with unify, a member first to carry its label is mapped to itself, which the guard as written treats as a clash and the intended guard does not |

## Left out

- Reading and writing files and streams are not modelled: `_parse_from_stream`, `concatenate_from_streams`, `concatenate_from_paths`, `read` and `write` all do I/O through readers and writers that are outside this model.
- `description`, `__str__`, `__hash__`/`__eq__`, the legacy `taxon_seq_map` property and `reindex_subcomponent_taxa` are not modelled. They are presentation, identity (which is Dafny reference identity), or stubs.
- `sequences()` is not a member of its own: it is `m[t]` for each taxon iteration visits.
- `__deepcopy__`, `taxon_namespace_scoped_copy` and the deep copy in `_clone_from` are left out: they run on annotation machinery that is not part of this model. Only the taxon mapping of `_clone_from` is modelled.
- `coerce_values` is modelled as the identity, and `append_taxon_sequence` is left out. The state tables they use are not part of this model.
- `new_char_matrix` is not a separate member: it is the registry lookup followed by the constructor.
- The positional-argument constructors of the discrete kinds (for example lines 1396-1405) call `self.clone_from(*args)`, which no class in this file defines (only `_clone_from`, line 497, and a reference at line 554), so as written they raise `AttributeError`. The base constructor's positional form, which goes to `_clone_from` (line 474), is modelled by its taxon mapping only, as below.
- Matrices.CharacterMatrix.ExportCharacterIndices: as written every call raises before any column is deleted. For the discrete kinds, `self.__class__(self)` (line 1179) reaches the undefined `clone_from` and raises `AttributeError`. For the other kinds, `clone.taxon_seq_map` (line 1181) runs the legacy getter, whose first line (1234) names an undefined `msg` and raises `NameError`. The model gives the export its documented meaning (lines 1175-1178) instead.
- Matrices.CharacterMatrix.ExportCharacterSubset: reaches that export for every label that resolves, so as written it raises the same errors; the model states the documented export.
- Matrices.CharacterMatrix.Shell: models `self.__class__(self)` (line 1179) as the clone that `_clone_from` (lines 497-513) builds, with no sequences yet. For the discrete kinds the call raises as written, as said above.
- Taxon namespaces, taxa and state alphabets are defined elsewhere. Each is modelled by the little the matrix uses:
  - a namespace is a duplicate-free list with label lookup;
  - an alphabet is its symbol-to-state table;
  - the built-in alphabets are a parameter.
- Case-insensitive label comparison folds ASCII letters only.
- Cells are values. Remapping in the source assigns `cell.value` on cell objects, so a cell object shared by two sequences would be remapped once for both. That aliasing is not modelled.
- Matrices.CharacterMatrix.Pack: the default `value=None` of `pack` (line 920) pads with `None`, which no `Cell` represents, so the model always takes a padding cell as a parameter.
- `Matrices.CharacterMatrix.Set`: always wraps the values in a new sequence. Passing an existing `CharacterSequence`, which the source stores as it is, is not modelled.
- `Matrices.CharacterMatrix.CopyFrom`: states the cells the copies hold, not that each copy is a new object. The same holds for `AddSequences`, `ReplaceSequences` and `UpdateSequences`.
- `Matrices.CharacterMatrix.ExportCharacterIndices`: states the cells of the export, not that its sequences are new objects.
- `Matrices.CharacterMatrix.ExtendSequences`: requires that the two matrices share no sequence object between different taxa. If they do, the source's result depends on dict order. A shallow copy and the matrix itself meet this requirement. The same applies to `ExtendMatrix`.
- `Matrices.CharacterMatrix.Shell`: shares the source's list of column types instead of deep-copying it.
- `Matrices.CharacterMatrix.CloneTaxonMapping`: `require_taxon` is called with the target namespace's own case sensitivity, its default.
- `Matrices.CharacterMatrix.ReconstructTaxonNamespace`: does not state the key order the moves leave. The ensures state where each sequence ends up.
- Concatenation.CheckPart: the length check iterates `cm.items()` (line 304), but the matrix's `items` is commented out (lines 811-813), so as written every matrix that passes the count checks raises `AttributeError` there. The model gives `items()` its commented-out meaning: the pairs of the namespace's taxa that have a sequence, in namespace order.
- Concatenation.Concatenate: as written it therefore raises `AttributeError` at line 304 for the first input that passes the count checks, and, past that, at the `extend` call described next; the model states the intended concatenation.
- `Concatenation.Concatenate`: the call to `extend` (line 307) goes to a base-class `extend` that is commented out (lines 1112-1132); the standard kind's override (line 1365) calls it too. It is given the meaning of `extend_matrix`, plus the standard kind's alphabet adoption.
- `Concatenation.Concatenate`: requires every input matrix's sequences to be keyed by namespace members. Otherwise `cm[0]` could create a sequence inside an input.
- `Concatenation.Concatenate`: the third check, against the first matrix's count, can never fail once the second has passed. It is modelled as a dead branch.
- `Concatenation.Concatenate`: lengths are compared against the first sequence in dict order, not the namespace's first taxon. Once every taxon has a sequence, both tests accept the same inputs.

## Findings

| source | as written | input that shows it | evidently intended | confidence | as-written member | corrected member |
|---|---|---|---|---|---|---|
| dendropy/datamodel/charmatrixmodel.py:315-318 | the loop body assigns `label`, but the condition tests `cs_label`, which never changes, so a colliding label loops forever | concatenating two matrices both labelled `gene`; the loop is reached only once `cm.items()` (line 304) and `extend` (line 307) resolve, which as written they do not (see Left out) | `cs_label = "%s_%03d" % (new_label, i)`, so the second block is labelled `gene_002` | high; not executed | `Subsets.SameLabelTwice` | `Subsets.DisambiguatedLabel` |
| dendropy/datamodel/charmatrixmodel.py:595-596 | with `unify_taxa_by_label` (the default), `require_taxon` maps a member back to itself, which already holds its sequence, so the guard raises | `reconstruct_taxon_namespace()` on any matrix whose first sequence belongs to a namespace member that is the first to carry its label | only a sequence landing on another taxon's sequence is an error; a taxon mapped to itself stays | medium; not executed | `Matrices.SelfMappedClashesAsWritten` | `Matrices.CharacterMatrix.ReconstructTaxonNamespace` |
| dendropy/datamodel/charmatrixmodel.py:729-750 | `__contains__` tests the key itself against the dict (line 750), although its documentation says the key is resolved as `m[key]` resolves it, so an index or a label is never `in` the matrix | `0 in m`, where the namespace's first taxon holds a sequence | the key resolved through the namespace, then looked up | medium; not executed | `Matrices.CharacterMatrix.IndexKeyMissed` | `Matrices.CharacterMatrix.ResolvedKeyMeansVisited` |
