# fragments — a Dafny model of the fragment decoder's post-processing

`fragments` generates protein backbone fragments (chains of Cα atoms) with a
trained decoder network. This project models the deterministic code around
the network:

- the `Output` view over a decoder vector: displacement, bend angles, and the
  sines and cosines of the dihedral angles;
- the reconstruction of Cartesian atoms from those angles (`to_cartesian`)
  and the flat angle list (`to_original`);
- the label helpers `one_hot_to_string`, `extract_ss`, `angles_distribution`
  and `hec_distribution`;
- the scraper's line validator `check_if_correct` (Rust), including
  `split_whitespace`;
- the candidate selection of the prediction script: the population default,
  the error list, and the first smallest error.

Modules:

- `Wrappers`: `Result`/`Option` and the Python exceptions the code can raise.
- `Geometry`: `Vec3` as a value, plus `Numerics`, a record of the numeric
  routines the code calls. These are `np.radians`, `np.cos`, `np.sin`,
  `np.linalg.norm`, `compute_dihedral` and `z_matrix_to_cartesian`, and the
  model takes them as parameters.
- `PyList`: `list.index` and clamped slicing.
- `FeatureVector`: `Output` and `to_cartesian`.
- `Statistics`: the label helpers.
- `Scraper`: `check_if_correct`.
- `Prediction`: the selection in `make_prediction.py`.

### Behaviour worth noting

- **Atom count.** `to_cartesian` returns n + 2 atoms for n residues: three
  seed atoms, then one atom per remaining angle pair.
- **Last bond.** When n >= 2, the last placed atom uses the norm of the
  displacement as its bond length instead of `bond_length`.
- **Malformed vectors.** A vector whose length is not 3 + 3n is not rejected.
  `n = int((len - 3) / 3)` rounds toward zero, and up to two trailing entries
  are ignored. An empty vector gives n = -1, a vector of 1 or 2 entries gives
  n = 0, and in both cases the angle views are empty.
- **Population.** A population of 0 falls back to 10, because the test is
  truthiness. A negative population gives an empty candidate list, so
  `np.min` raises.

## Model

| member | source | states |
|---|---|---|
| FeatureVector.ResidueCount | SCRIPTS/statistics/statistics.py:9 | n rounds (len - 3) / 3 toward zero: once len >= 3 the vector holds 3 + 3n to 5 + 3n entries; an empty vector gives -1 and one of 1 or 2 entries gives 0 |
| FeatureVector.Displacement | SCRIPTS/statistics/statistics.py:16-17 | the first three entries (fewer for a shorter vector) |
| FeatureVector.Alpha | SCRIPTS/statistics/statistics.py:19-22 | n bend angles, each the stored entry 3 + i multiplied by 180 |
| FeatureVector.SinTheta | SCRIPTS/statistics/statistics.py:24-27 | n entries read from 3 + n on |
| FeatureVector.CosTheta | SCRIPTS/statistics/statistics.py:29-32 | n entries read from 3 + 2n on |
| FeatureVector.Theta | SCRIPTS/statistics/statistics.py:34-35 | one dihedral per residue, computed from the matching sine and cosine entries |
| FeatureVector.Layout | SCRIPTS/statistics/statistics.py:16-32 | the four views, laid end to end, are exactly the first 3 + 3n entries, and at most two entries are left over |
| FeatureVector.TrailingEntriesUnread | SCRIPTS/statistics/statistics.py:16-35 | vectors that agree on their first 3 + 3n entries give the same displacement, angles, sines, cosines and dihedrals |
| FeatureVector.Interleave | SCRIPTS/statistics/statistics.py:38 | the pairs (alpha_i, theta_i) flattened in order: position 2i holds alpha_i and 2i + 1 holds theta_i |
| FeatureVector.ToOriginal | SCRIPTS/statistics/statistics.py:37-39 | fails (np.concatenate of nothing) exactly when n <= 0; otherwise 3 + 2n values: the displacement, then each bend angle followed by its dihedral |
| FeatureVector.Chain | SCRIPTS/statistics/statistics.py:47-70 | after k loop steps the atom list holds k + 3 atoms |
| FeatureVector.ChainAppendOnly | SCRIPTS/statistics/statistics.py:69 | the loop only appends: the list after j steps is a prefix of the list after any later step |
| FeatureVector.ChainAtom | SCRIPTS/statistics/statistics.py:55-69 | atom i >= 3 is placed from atoms i-3, i-2 and i-1, with angle pair i-2 and the bond of step i-3 |
| FeatureVector.CartesianSeeds | SCRIPTS/statistics/statistics.py:47-51 | the finished list has n + 2 atoms; it starts with the origin, (bond, 0, 0) and the apex of the first bend angle, which lies in the plane z = 0 |
| FeatureVector.CartesianBonds | SCRIPTS/statistics/statistics.py:53-70 | atoms 3 to n are placed with bond_length; when n >= 2 the last atom is placed with the norm of the displacement |
| FeatureVector.ToCartesian | SCRIPTS/statistics/statistics.py:41-72 | fails (alpha[0] raises) exactly when n < 1; otherwise returns the chain after n - 1 steps |
| FeatureVector.ToCartesianDefault | SCRIPTS/statistics/statistics.py:41 | without a bond length, the chain is built with the default of 3.8 |
| Geometry.Add | SCRIPTS/statistics/statistics.py:68 | undoing the shift is the inverse of subtracting the first atom |
| Statistics.BlockEnd | SCRIPTS/statistics/statistics.py:83 | the slice vector[i:i+categories] ends at i + categories, or earlier at the end of the vector |
| Statistics.BlocksPartition | SCRIPTS/statistics/statistics.py:82-85 | the blocks the loop reads cover the vector in order, none empty, all but the last exactly `categories` long |
| Statistics.BlocksFromPartition | SCRIPTS/statistics/statistics.py:82-85 | the same partition property for the rest of the vector from any position i |
| Statistics.BlockAt | SCRIPTS/statistics/statistics.py:83-85 | when the rest is m full blocks, block j is entries [i + c·j, i + c·j + c) |
| Statistics.OneHotFromSucceeds | SCRIPTS/statistics/statistics.py:82-85 | from any position, decoding succeeds exactly when every remaining block contains 1.0 |
| Statistics.OneHotFromDecodes | SCRIPTS/statistics/statistics.py:82-85 | from any position, a successful decoding extends the string so far by one code per remaining block |
| Statistics.OneHotPerBlock | SCRIPTS/statistics/statistics.py:78-86 | the result is Ok exactly when every block contains 1.0, and then character j is the code at the first 1.0 of block j |
| Statistics.OneHotUsesCodes | SCRIPTS/statistics/statistics.py:84 | every decoded character is one of the codes |
| Statistics.OneHotNoCodes | SCRIPTS/statistics/statistics.py:80-83 | with no codes, the empty vector decodes to "" and any other vector raises ValueError |
| Statistics.OneHotToString | SCRIPTS/statistics/statistics.py:78-86 | the loop returns the decoding above, including the ValueError when a block has no 1.0 |
| Statistics.ExtractSs | SCRIPTS/statistics/statistics.py:96-100 | every decoded character is H, E or C |
| Statistics.TripleBlocks | SCRIPTS/statistics/statistics.py:100 | 3m entries split into the m triples [3j, 3j + 3) |
| Statistics.ExtractSsBlocks | SCRIPTS/statistics/statistics.py:96-100 | for 23m entries the loop reads exactly the m triples after the first 20m entries |
| Statistics.ExtractSsSucceeds | SCRIPTS/statistics/statistics.py:96-100 | for 23m entries, the extraction succeeds exactly when each of the m triples contains 1.0 |
| Statistics.ExtractSsLetters | SCRIPTS/statistics/statistics.py:96-100 | then the result has m letters, letter j being H, E or C as the first 1.0 of triple j is at 0, 1 or 2 |
| Statistics.AnglesDistribution | SCRIPTS/statistics/statistics.py:89-93 | as many records as the shorter of the labels and the angles; record i holds label i, the bend angle and the dihedral of residue i |
| Statistics.LabelledConcat | SCRIPTS/statistics/statistics.py:107-113 | filtering by label distributes over concatenation of the record lists |
| Statistics.LabelledMembers | SCRIPTS/statistics/statistics.py:107-113 | a pair is in a label's list exactly when some record with that label carries it |
| Statistics.LabelledCount | SCRIPTS/statistics/statistics.py:107-113 | a label's list has one entry per record with that label |
| Statistics.HecDistribution | SCRIPTS/statistics/statistics.py:103-114 | the three lists are the H, E and C records' angle pairs in input order; together they hold one pair per H, E or C record |
| Scraper.TokenLength | SCRIPTS/data/scraper/src/lib.rs:21 | the length of the leading run of non-white-space characters |
| Scraper.SplitWhitespace | SCRIPTS/data/scraper/src/lib.rs:21 | every field is non-empty and free of white space |
| Scraper.SplitSkipsWhitespace | SCRIPTS/data/scraper/src/lib.rs:21 | leading white space produces no field |
| Scraper.SplitTakesToken | SCRIPTS/data/scraper/src/lib.rs:21 | a token followed by white space or the end becomes the next field |
| Scraper.TokenLengthOfToken | SCRIPTS/data/scraper/src/lib.rs:21 | a token followed by white space or the end is read whole |
| Scraper.SplitJoin | SCRIPTS/data/scraper/src/lib.rs:21 | splitting fields joined by non-empty white-space runs (any runs at the ends) gives back the fields |
| Scraper.CheckIfCorrect | SCRIPTS/data/scraper/src/lib.rs:17-39 | true exactly when field 4 uses only the 20 amino-acid codes and field 5 only H, E and C |
| Scraper.WellFormedJoin | SCRIPTS/data/scraper/src/lib.rs:17-39 | for a line built from fields, the verdict is "field 4 in the amino-acid alphabet and field 5 in the structure alphabet" |
| Scraper.OnlyFieldsFourAndFiveMatter | SCRIPTS/data/scraper/src/lib.rs:21-24 | two lines that agree on fields 4 and 5 get the same verdict, whatever their other fields and spacing |
| Scraper.OneBadCharacterRejects | SCRIPTS/data/scraper/src/lib.rs:25-38 | one character outside its alphabet in field 4 or 5 (a lower-case letter, say) rejects the line |
| Prediction.Population | src/apps/make_prediction.py:25-28 | a missing argument or 0 gives 10; any other value is used as given |
| Prediction.Candidates | src/apps/make_prediction.py:38-39 | one vector per draw index, none for a negative population |
| Prediction.Errors | src/apps/make_prediction.py:42 | one non-negative error per candidate, the absolute difference between its span and the requested one |
| Prediction.Min | src/apps/make_prediction.py:45 | a member of the list no larger than any member |
| Prediction.SelectIndex | src/apps/make_prediction.py:45 | fails (np.min of nothing) exactly on no errors; otherwise the first position of a smallest error |
| Prediction.Select | src/apps/make_prediction.py:25-45 | fails exactly when the population is negative; otherwise the chosen candidate is the draw at its index within the population |
| Prediction.SelectIsFirstBest | src/apps/make_prediction.py:42-45 | the chosen candidate's error is no larger than any other's, and every earlier candidate's is strictly larger |
| Prediction.PopulationSize | src/apps/make_prediction.py:25-42 | a positive population gives that many candidates and errors, and the selection succeeds |
| Prediction.SelectExample | src/apps/make_prediction.py:45 | errors [0.5, 0.1, 0.3] select index 1 |
| PyList.IndexOf | src/apps/make_prediction.py:45 | `list.index`: the first position holding the value |

## Left out

- Numerics: `np.radians`, `np.cos`, `np.sin`, `np.sqrt`, `np.arctan2`, `np.degrees`, `np.linalg.norm`, `compute_dihedral` and `z_matrix_to_cartesian` are parameters (the `Numerics` record). Floating point is modelled by exact reals, so rounding, NaN and float32 are not captured.
- The `coordinates` module is not part of this model. `Vec3.subtract`/`Vec3.add` update their receiver in place; here they are values, because every vector they touch is a fresh copy.
- The placeholder `c_new = (9.999, 9.999, 9.999)` is not modelled. It is a constant, so modelling the call to `z_matrix_to_cartesian` as a function `place` of its other arguments loses nothing, provided that call writes only `c_new`.
- `to_pdb` has an empty body and `compute_r1n` is not in the modelled source; the prediction uses `r1n` as a parameter.
- `DecoderLoader.predict` and `LabelMLP.format` (the network and its input) are the parameter `draw`. Argument parsing, logging, reading the model files and printing are I/O.
- Scraper functions `collect_files`, `read_lines` and `get_extension`, the `pymodule` registration, and `SCRIPTS/test.py` do file I/O or Python bindings; they are not modelled.
- Scraper.CheckIfCorrect: a line with fewer than six fields makes the Rust code panic on `elements[4]`/`elements[5]`; the model states this as a precondition instead of modelling the panic.
- Statistics.HecDistribution: labels are single characters (`AngleRecord.ss: char`), so a multi-character label, which the source compares as a string and never matches, is not representable.
- Statistics.AnglesDistribution: records are typed triples; the source's lists `[ss, alpha, theta]` are not modelled as heterogeneous Python lists.
- PyList.Slice: negative slice bounds never arise in the modelled code, so Python's wrap-around for negative indices is not modelled.
- Statistics.OneHotToString: each code is one character (`codes` is a string), so a list of multi-character codes appended whole by `string += codes[index]` is not modelled; the only caller passes "HEC".
