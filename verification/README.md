# LD matrix assembly, modelled in Dafny

`make_ld_matrix.py` turns pairwise linkage-disequilibrium (LD) records into a
correlation matrix over a fixed reference ordering of variants. A reference
table gives the variants; each is keyed by chromosome and base-pair position
(`CHR`, `BP`), and its 0-based row number is its index. The pairwise table
(`CHR_A`, `BP_A`, `CHR_B`, `BP_B`, `R2`) is read in chunks. Each record is
resolved to an index pair through the reference. Records with an endpoint
outside the reference are dropped. The surviving `(id1, id2, val)` triplets are
accumulated, and duplicates on `(id1, id2)` are removed, first one wins. The
result is exported in one or both of two forms:

- a lower-triangular text matrix: a `1.0` line, then for each row `i` the
  values at columns `0 .. i-1` and a trailing diagonal `1.0`;
- a MATLAB record holding 1-based `id1`, `id2`, the values and `nsnp`.

The model follows the program's stages. There is one module per stage, each in
its own file:

- `LdTypes` (ld_types.dfy): keys, records, triplets and the four fatal errors.
- `RefIndex` (ref_index.dfy): the `(CHR, BP)` → row index and the
  duplicated-key check.
- `Resolve` (resolve.dfy): per-record resolution and filtering, the chunk loop
  as a method, and chunking as a function.
- `Dedup` (dedup.dfy): keep-first deduplication as a specification function,
  and the deduplication pass as a method.
- `Materialize` (materialize.dfy): the order check, the transposed sparse
  matrix, the row-by-row text export as a method, and the 1-based sparse
  export.
- `Pipeline` (pipeline.dfy): the whole run as a method, proved equal to a
  stage-by-stage specification `Run`.
- `Example` (example.dfy): a worked run with four variants.

Correlation values are never inspected, so they are an opaque type parameter
`V`. A text row is a sequence of cells: `Zero` for an absent pair, `Value(v)`
for a stored value, and `Diagonal` for the trailing `1.0`.

Edge cases in the code's behaviour:

- For an empty reference (`nsnp = 0`) the code still writes the `1.0` line, so
  the text export has one line rather than `nsnp`.
- An LD table with a header and no data rows is read as one empty chunk. The
  run then goes on: nothing is dropped, the sparse record is empty, and the
  text export holds only the diagonal and zeros. If the chunk loop ran zero
  times, the accumulator would stay `None` and the code would fail at the
  drop-duplicates step. The model reports this as `EmptyLdTable`. The chunked
  reader never yields zero chunks, so it is reachable only for a chunk
  sequence given directly to `Pipeline.MakeLdMatrix`.
- If the order check fails, the run stops before the MATLAB export as well. The
  two exports are therefore not independent: the text export is attempted
  first.
- For a repeated key, the reference dictionary keeps the last row's index.
  The length check then rejects the table anyway.

## Model

| member | source | states |
|---|---|---|
| `RefIndex.IndexMap` | make_ld_matrix.py:43 | The dictionary's keys are exactly the reference keys. Each key maps to a row that carries it. A later row with the same key overwrites an earlier one, so the index kept is that of the last occurrence. |
| `RefIndex.DistinctIffCard` | make_ld_matrix.py:44 | The number of distinct keys is at most the row count. It equals the row count exactly when no `(CHR, BP)` repeats, which is what the length check relies on. |
| `RefIndex.BuildIndex` | make_ld_matrix.py:42-44 | The index is built exactly when the keys are pairwise distinct. It then maps every row's key to that row's position, has no other keys, and all its values are below `nsnp`. Otherwise it fails with the duplicated-pair error. |
| `RefIndex.BuildIndexIsPositionMap` | make_ld_matrix.py:42-44 | For distinct keys, the index is the unique map from each row's key to its position. |
| `Resolve.ResolveChunk` | make_ld_matrix.py:57-63 | A chunk's frame is no longer than the chunk. Every id it emits is a value of the reference index. |
| `Resolve.ResolveChunkIsMaskFilter` | make_ld_matrix.py:57-62 | The frame is the order-preserving selection of the records whose mask entry is true. The m-th triplet comes from the m-th masked position, and the positions strictly increase. A record is selected exactly when both endpoints resolve. |
| `Resolve.ResolveChunkAppend` | make_ld_matrix.py:56-64 | Resolving a concatenation equals concatenating the resolutions, because the filter works per record. |
| `Resolve.Chunk` | make_ld_matrix.py:52 | The reader always yields at least one chunk, and each holds at most `chunksize` records. A table with no data rows yields a single empty chunk. Otherwise every chunk is non-empty. |
| `Resolve.FlattenChunk` | make_ld_matrix.py:52 | Concatenating the chunks gives back the record stream, for any chunk size. |
| `Resolve.Accumulate` | make_ld_matrix.py:55-64 | The chunk loop leaves no table when it runs zero times, that is, for an empty chunk sequence. Otherwise the accumulated table equals the resolution of the whole concatenated stream. |
| `Resolve.ChunkSizeInvariance` | make_ld_matrix.py:52-64 | Any two chunk sizes give the same accumulated table, and it is the resolution of the whole record stream. |
| `Dedup.KeepFirstSelectsFirstOccurrences` | make_ld_matrix.py:70 | The deduplicated table is the order-preserving subsequence of first occurrences. A row is kept exactly when no earlier row has its `(id1, id2)`. |
| `Dedup.KeepFirstKeys` | make_ld_matrix.py:70 | After deduplication the keys are pairwise distinct and every input key is still present. For every key, the kept row is the one that came first. |
| `Dedup.DropDuplicates` | make_ld_matrix.py:69-71 | The one-pass deduplication with a seen-set yields the keep-first table. The reported drop count is the old length minus the new length. |
| `Materialize.LookupPair` | make_ld_matrix.py:79-84 | Looking up a pair gives a value only when some triplet has that `(id1, id2)` and that value. It gives nothing exactly when no triplet has that pair. |
| `Materialize.Transposed` | make_ld_matrix.py:79 | The sparse matrix holds a cell at `[id2, id1]` for every triplet, and no other cells. |
| `Materialize.TransposedAgrees` | make_ld_matrix.py:79-84 | With distinct keys, the transposed cell `[b, a]` is present exactly when the pair `(a, b)` has a value, and it holds that value. |
| `Materialize.TriangleRowEntries` | make_ld_matrix.py:82-86 | Row `i` has `i` entries and then the diagonal, and row 0 is the diagonal alone. Entry `j` is the value of triplet `(j, i)` when one exists, and zero otherwise. |
| `Materialize.WriteLowerTriangular` | make_ld_matrix.py:77-86 | The text export fails with the order error exactly when some triplet has `id1 >= id2`. Otherwise it yields the `1.0` line and rows `1 .. nsnp-1`, each read from the transposed matrix. The result equals the directly indexed lower triangle. |
| `Materialize.SparseExport` | make_ld_matrix.py:93 | The MATLAB record has three columns as long as the table, and `nsnp` as given. |
| `Materialize.SparseExportRoundTrip` | make_ld_matrix.py:93 | Shifting the indices back to 0-based recovers the table, in order. For an in-range table every exported index lies in `[1, nsnp]`. |
| `Pipeline.KeptTableIsWellFormed` | make_ld_matrix.py:69-79 | The table handed to both exports has distinct keys, and its indices lie in `[0, nsnp)`. |
| `Pipeline.RunEarlyExits` | make_ld_matrix.py:36-69 | A run stops early in three cases. It fails with the no-output error when neither output is requested. Otherwise it fails with the duplicated-pair error when the index cannot be built. Otherwise it fails with the empty-table error when the chunk sequence is empty. |
| `Pipeline.WriteOutputs` | make_ld_matrix.py:73-94 | The export stage first produces the text export when requested, and fails before writing anything if the order check fails. It then produces the MATLAB record when requested. |
| `Pipeline.MakeLdMatrix` | make_ld_matrix.py:35-94 | The run equals the stage-by-stage specification. Errors are checked in this order: no output requested, duplicated reference key, empty chunk sequence, order violation (text export only). Otherwise the requested exports of the deduplicated table are produced, with the drop count. |
| `Pipeline.ProcessTable` | make_ld_matrix.py:55-94 | Once the index is built, the chunk loop, deduplication and exports together equal the stage-by-stage specification. |
| `Pipeline.NoOutputFailsFirst` | make_ld_matrix.py:36-37 | Requesting neither output fails with the no-output error, whatever the inputs. |
| `Pipeline.HeaderOnlyTableRun` | make_ld_matrix.py:52-93 | A header-only LD table, read as one empty chunk, does not make the run fail. Nothing is dropped. The sparse record has empty columns and `nsnp`. Every entry of the text export below the diagonal is zero. |
| `Pipeline.RunIsChunkSizeInvariant` | make_ld_matrix.py:52-64 | The outcome of a whole run does not depend on the chunk size. |
| `Pipeline.ExportsAreWellFormed` | make_ld_matrix.py:77-94 | For a deduplicated, in-range table, the sparse record holds distinct 1-based pairs in `[1, nsnp]`. The text export has `nsnp` rows, or one row when `nsnp` is 0, and row `i` has `i` entries and then the diagonal. |
| `Pipeline.RunOutputsAreWellFormed` | make_ld_matrix.py:35-94 | Every successful run produces well-formed exports sized by the reference. |
| `Example.FourVariantRun` | make_ld_matrix.py:35-94 | Take four distinct variants and records (0,1)=v0, (0,2)=v1, (1,2)=v2 and (0,1)=v3. The run drops one duplicate and keeps v0. It exports id1 = [1,1,2], id2 = [2,3,3], val = [v0,v1,v2] and nsnp = 4. The text rows are the diagonal, (v0, diagonal), (v1, v2, diagonal) and (0, 0, 0, diagonal). |

## Left out

- Running plink (`execute_command`, make_ld_matrix.py:15-18 and 46-49) is left out. It is subprocess I/O with an external tool; the LD table is an input.
- Argument parsing (`parse_args`, make_ld_matrix.py:22-33) is left out. The two output paths are a `Config`; the chunk size is a parameter of `Resolve.Chunk`.
- Reading and parsing the whitespace-delimited files (`pd.read_csv`, lines 41 and 52) is left out. Both tables are in-memory sequences, and the chunked reader is a sequence of chunks (`Resolve.Chunk` says how one is cut).
- Floating-point semantics of `R2` are left out. Values pass through untouched and are an opaque type parameter.
- `str(x)` formatting, tab joining and the file writes (lines 81-86) are left out. Rows are sequences of cells, so the difference between printing `0.0` and `0` is not modelled.
- `sio.savemat` serialisation (lines 92-94) is left out. Only the record handed to it is modelled.
- The progress and "Done" prints and the printed MATLAB reconstruction recipe (lines 65-66, 71, 75, 90, 96-103) are left out.
- Materialize.WriteLowerTriangular: requires distinct `(id1, id2)` keys and indices below `nsnp`. For other input, `csr_matrix` would sum duplicates or raise; its internals are left out. The pipeline always meets both requirements (`Pipeline.KeptTableIsWellFormed`).
- Dedup.DropDuplicates: returns the new table instead of mutating the data frame in place. The frame is a local object that nothing else refers to, so no aliasing is lost.
- The line-78 `assert` is modelled as always active. Under `python -O` it would be skipped; that mode is not modelled.
- Resolve.Chunk: requires a chunk size of at least 1. This stands for the reader rejecting a smaller `--chunksize`, which is pandas behaviour outside this model. The same requirement carries over to `Resolve.FlattenChunk`, `Resolve.ChunkSizeInvariance`, `Pipeline.HeaderOnlyTableRun` and `Pipeline.RunIsChunkSizeInvariant`.
- A zero-byte LD file, on which `read_csv` itself raises at line 52, is left out. The model's reader input is a record sequence, which always has a header.
- The pandas exceptions behind the errors are left out. Each is represented by the `LdTypes.Error` case it stands for; for example, the crash on a loop that ran zero times is `EmptyLdTable`.
