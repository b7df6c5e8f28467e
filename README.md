# Chunk stitching of `SequenceLabeler.predict` and `predict_proba`

`finetune`'s sequence labeler scores long documents in overlapping chunks of
`max_length` tokens. The comment at lines 66-69 of
`finetune/sequence_labeling.py` draws the layout the stitching expects: each
chunk begins `step_size = (max_length - 2) // 3` tokens after the previous one.
The chunker itself is not part of this model, so that layout is a hypothesis of
the tiling lemmas. It is assumed only of what the chunker cuts, the character
locations and the tokens; the decoded labels and probability rows of a token
shared by two chunks may differ, and the windows decide which one is kept. The labeler keeps only one trusted window of each chunk, and
which window depends on the chunk's position in its document:

- a document's only chunk is kept whole;
- its first chunk contributes `[:2*step]`;
- its last chunk contributes `[step:]`;
- a middle chunk contributes `[step:2*step]`.

`predict` walks the chunks' decoded labels and character locations. It skips
padding (location `-1`) and run-length merges neighbouring tokens with equal
labels into text spans. When a document's last chunk has been seen, it emits one
`(subseqs, labels)` record for that document. `predict_proba` uses the same
windows and emits one `(token, {class: probability})` entry per windowed token.
It emits one list per document.

The model has five modules:

- `PythonSeq`: the Python value semantics the code relies on:
  - `x or default`;
  - slices with negative and clamped bounds;
  - `zip` truncating to the shorter operand;
  - `dict(pairs)` with the last key winning.
- `Chunks`:
  - the step size;
  - start- and end-of-document flags and `doc_idx`;
  - window selection;
  - under an explicit stride layout, the proof that the windows of one
    document's chunks tile the document.
- `Spans`:
  - the inner merge loop of `predict`, as a left fold (`MergeTokens`) and as a
    method (`MergeWindow`);
  - an independent reference `Group` that cuts the covered pieces of text into
    maximal runs of one label;
  - the proof that the two agree and that no character is lost or duplicated.
- `Predict`: the outer loop of `predict` as a method. It is proved to produce
  `Records`, a reference that holds, for every end-of-document chunk in chunk
  order, the grouping of that document's trusted tokens.
- `PredictProba`: the same for `predict_proba` against `ProbaRecords`.

Both methods are proved against their reference through a loop invariant
(`Inv`). Each loop turn calls a per-turn lemma (`ChunkStep`). The lemmas beside
the references then state what the source promises:

- one record per document;
- maximal spans;
- exact text coverage;
- when the chunks' locations (or tokens) follow the stride layout, the same
  result as a single pass over the document's whole location (or token)
  stream, paired with the labels (or rows) that the windows pick.

## Model

| member | source | states |
|---|---|---|
| Chunks.StepSize | finetune/sequence_labeling.py:48-49 | the step is the floor of `(max_length - 2) / 3`: its triple fits in the chunk size and the next triple does not |
| PythonSeq.Slice | finetune/sequence_labeling.py:78-85 | Python slicing never lengthens a sequence; inside the bounds it is the plain subsequence; for a non-negative stop it is empty when the stop does not exceed the start; a stop past the end is cut to the end |
| PythonSeq.Bound | finetune/sequence_labeling.py:78-85 | Python's normalisation of one slice bound against a length; a plain definition, whose meaning `PythonSeq.BoundIsPosition` states |
| PythonSeq.BoundIsPosition | finetune/sequence_labeling.py:78-85 | a normalised bound is a position of the sequence: an in-range bound is kept, a negative bound within the length counts back from the end, and a bound further out is clamped to the nearer end |
| PythonSeq.SliceSplit | finetune/sequence_labeling.py:96-100 | two adjacent in-range slices glue back to the slice over their union, so consecutive `X[doc_idx][start_of_token:position]` pieces lose and duplicate nothing |
| PythonSeq.Zip | finetune/sequence_labeling.py:59 | `zip` yields as many pairs as the shorter operand has elements |
| PythonSeq.ZipPairs | finetune/sequence_labeling.py:87 | pair `k` of a zip is element `k` of each operand |
| PythonSeq.ZipAppend | finetune/sequence_labeling.py:87 | zipping two concatenations whose first parts have equal lengths is concatenating the zips, so zipping the windows chunk by chunk is zipping the stitched streams |
| PythonSeq.DictLookup | finetune/sequence_labeling.py:167 | `dict(pairs)` holds exactly the keys of the pairs, and a key no later pair repeats maps to its own value |
| PythonSeq.Dict | finetune/sequence_labeling.py:167 | `dict(pairs)` built by inserting the pairs in order; a plain definition, whose meaning `PythonSeq.DictLookup` states |
| Chunks.StartsCount | finetune/sequence_labeling.py:70-74 | counts the document starts among the first `n` chunks, one per raised flag (with the side bound that the count is at most `n`) |
| Chunks.DocIndex | finetune/sequence_labeling.py:56-74 | the value of `doc_idx` once chunk `i` has been seen: -1 plus one per document start up to chunk `i` (with the side bound that it lies between -1 and `i`); `Chunks.DocIndexInRange` states when it indexes a text |
| Chunks.EndOfDoc | finetune/sequence_labeling.py:61-64 | the `end_of_doc` test; a plain definition, whose meaning `Chunks.LastChunkEndsDoc` and `Chunks.EndOfDocIffNextDocument` state |
| Chunks.DocIndexInRange | finetune/sequence_labeling.py:56-96 | when the first chunk starts a document and there are no more document starts than texts, `doc_idx` indexes a text from the first chunk on |
| Chunks.StartsCountMonotone | finetune/sequence_labeling.py:74 | `doc_idx` never decreases from chunk to chunk |
| Chunks.LastChunkEndsDoc | finetune/sequence_labeling.py:61-64 | the final chunk always ends a document |
| Chunks.EndOfDocIffNextDocument | finetune/sequence_labeling.py:60-74 | a chunk ends its document exactly when the next chunk belongs to the next document, and otherwise the next chunk is in the same document |
| Chunks.EndsTrailStarts | finetune/sequence_labeling.py:60-104 | after any prefix of chunks, every started document has ended except possibly the current one |
| Chunks.EveryDocumentEndsOnce | finetune/sequence_labeling.py:60-107 | over the whole batch there are exactly as many end-of-document chunks as start-of-document chunks |
| Chunks.EndChunkFlushesItsDocument | finetune/sequence_labeling.py:74-107 | an end-of-document chunk is preceded by exactly `doc_idx` end-of-document chunks, so its record lands at index `doc_idx` |
| Chunks.SelectWindow | finetune/sequence_labeling.py:70-85 | the slice chosen from the two flags; a plain definition, whose meaning `Chunks.WindowIsTrustedRange` states |
| Chunks.Apply | finetune/sequence_labeling.py:78-85 | taking a window's Python slice of a chunk; a plain definition, whose meaning `Chunks.WindowIsTrustedRange` states |
| Chunks.TrustedRange | finetune/sequence_labeling.py:70-85 | the trusted range of a chunk is a half-open range inside the chunk |
| Chunks.WindowIsTrustedRange | finetune/sequence_labeling.py:70-85 | the slice taken depends only on the two flags: whole (start and end), `[0, min(2*step, n))` (start only), `[min(step, n), n)` (end only), `[min(step, n), min(2*step, n))` (neither) |
| Chunks.ApplyLength | finetune/sequence_labeling.py:78-85 | the same window cut from two equally long chunks gives equally long results, so the label and location windows stay aligned |
| Chunks.SliceOfSlice | finetune/sequence_labeling.py:78-85 | a slice of a slice is one slice of the document |
| Chunks.PrefixConcat | finetune/sequence_labeling.py:66-69 | a prefix followed by the next run of the document is the longer prefix |
| Chunks.RunWindows | finetune/sequence_labeling.py:78-85 | for a chunk placed at offset `o` of a document, each window is the matching run of the document |
| Chunks.FirstWindow | finetune/sequence_labeling.py:66-78 | under the stride layout the first chunk's window is the document's first `2*step` tokens |
| Chunks.MiddleWindow | finetune/sequence_labeling.py:66-85 | under the stride layout each middle chunk's window extends the stitched prefix by exactly the next `step` tokens |
| Chunks.StitchedPrefix | finetune/sequence_labeling.py:66-85 | the windows of the first `j` chunks of a document are exactly its first `(j+1)*step` tokens: no gap and no overlap |
| Chunks.OnlyWindow | finetune/sequence_labeling.py:70-76 | a document's only chunk is kept whole and is the whole document |
| Chunks.LastWindow | finetune/sequence_labeling.py:80-82 | the last chunk's window completes the stitched prefix to the whole document |
| Chunks.WindowsTileDocument | finetune/sequence_labeling.py:66-85 | when a document's chunks follow the stride layout, their trusted windows concatenated are exactly the document's token stream |
| Chunks.WindowInOneDocument | finetune/sequence_labeling.py:60-85 | inside one document a chunk starts it exactly when it is the first and ends it exactly when it is the last, so it gets the window of its position |
| Chunks.DocWindowsStitched | finetune/sequence_labeling.py:59-85 | the windows the batch loop takes for a document's chunks are that document's own stitching of its chunks |
| Spans.MergeToken | finetune/sequence_labeling.py:87-102 | one token: a `-1` location leaves everything unchanged; otherwise the cursor moves to the location, the last label is the token's, and a new span opens exactly when there is none yet or the label differs from the last one |
| Spans.MergeTokens | finetune/sequence_labeling.py:87-102 | the merge loop keeps `len(doc_subseqs) == len(doc_labels)` |
| Spans.MergeTokensAppend | finetune/sequence_labeling.py:59-102 | merging two token stretches in turn is merging their concatenation, which is why the accumulator is carried across a document's chunks |
| Spans.Kept | finetune/sequence_labeling.py:88-90 | the tokens kept after dropping padding are exactly the input's non-`-1` tokens: every kept token is an input token and not at `-1`, and every input token not at `-1` is kept; `Spans.KeptAppend` adds that order is kept |
| Spans.KeptAppend | finetune/sequence_labeling.py:87-90 | dropping padding keeps order: the kept tokens of a concatenation are those of each part, in turn |
| Spans.SentinelsChangeNothing | finetune/sequence_labeling.py:88-90 | `-1` positions change nothing: merging a stream equals merging its non-padding tokens alone |
| Spans.PiecesPerKeptToken | finetune/sequence_labeling.py:88-102 | each non-padding token covers exactly one piece of text |
| Spans.CursorAppend | finetune/sequence_labeling.py:88-102 | the cursor after a concatenated stream is the cursor after the second part started where the first part left it |
| Spans.PiecesAppend | finetune/sequence_labeling.py:96-102 | the pieces of a concatenated stream are the pieces of each part, the second starting at the first's final cursor |
| Spans.Group | finetune/sequence_labeling.py:92-100 | the reference grouping: its first span carries the first piece's label, it has one span more than there are label changes, no two neighbouring spans share a label, and its texts concatenated are the pieces' texts |
| Spans.PrependGroup | finetune/sequence_labeling.py:92-100 | putting the first piece in front of a grouping of the rest keeps the reference grouping's properties: first label, span count, maximality and joined text |
| Spans.AddPieceCons | finetune/sequence_labeling.py:94-100 | appending a piece to a grouping only touches its end |
| Spans.PrependAddPiece | finetune/sequence_labeling.py:94-100 | adding a piece at the front and at the back commute |
| Spans.GroupSnoc | finetune/sequence_labeling.py:94-100 | grouping one more piece joins it to the last span when the labels agree and opens a span otherwise, which is what the loop body does |
| Spans.MergeTokenAddsPiece | finetune/sequence_labeling.py:92-102 | one merge step adds the text from the cursor to the token's location as one more piece of the grouping |
| Spans.MergeTokensGroups | finetune/sequence_labeling.py:87-102 | the merge loop's spans are the reference grouping of the pieces seen so far, and its cursor is the last non-padding location |
| Spans.DocumentSpans | finetune/sequence_labeling.py:72-102 | from a fresh accumulator, the merge yields the maximal label runs of the pieces, with no two neighbouring labels equal |
| Spans.PiecesCoverText | finetune/sequence_labeling.py:96-102 | with monotone locations inside the text, the pieces concatenated are the text from the cursor to the final cursor |
| Spans.DocumentCoversText | finetune/sequence_labeling.py:75-102 | with monotone locations, `"".join(doc_subseqs)` is `X[doc_idx][0:start_of_token]` |
| Spans.JoinedSpanList | finetune/sequence_labeling.py:96-100 | the spans' texts concatenated are `"".join(doc_subseqs)` |
| Spans.MergeWindow | finetune/sequence_labeling.py:87-102 | the inner loop over one window leaves `doc_subseqs`, `doc_labels` and `start_of_token` as the merge fold over the zipped window |
| Predict.SameDocument | finetune/sequence_labeling.py:70-74 | a chunk that does not start a document reads the same text as its predecessor |
| Predict.MergeChunk | finetune/sequence_labeling.py:70-102 | merging one chunk's window into the carried accumulator (reset at a document start) yields the document's reference spans and cursor up to that chunk |
| Predict.Flush | finetune/sequence_labeling.py:104-107 | appending the finished accumulator keeps the output lists in step with the reference records |
| Predict.ChunkStep | finetune/sequence_labeling.py:59-107 | one turn of the chunk loop keeps `doc_idx`, the accumulator and the output lists in step with the reference |
| Predict.Predict | finetune/sequence_labeling.py:47-107 | `all_subseqs` and `all_labels` hold, record by record, exactly the reference records: one per end-of-document chunk, in chunk order, each the maximal label runs of its document's trusted tokens |
| Predict.RecordsCount | finetune/sequence_labeling.py:104-107 | `len(all_subseqs) == len(all_labels) ==` the number of end-of-document chunks |
| Predict.RecordsPrefix | finetune/sequence_labeling.py:104-107 | a record, once emitted, is never changed by later chunks |
| Predict.RecordOfDocument | finetune/sequence_labeling.py:56-107 | the record of document `doc_idx` is at index `doc_idx` and holds that document's spans |
| Predict.OneRecordPerDocument | finetune/sequence_labeling.py:60-107 | over the whole batch there is exactly one record per document |
| Predict.RecordsMaximal | finetune/sequence_labeling.py:92-100 | in every record no two neighbouring labels are equal |
| Predict.DocumentCoversText | finetune/sequence_labeling.py:75-102 | with monotone locations, a document's spans concatenated are its text up to the final `start_of_token`, carried across its chunks |
| Predict.MatchedText | finetune/sequence_labeling.py:104-107 | the joined `all_subseqs[d]` is the joined text of record `d` |
| Predict.DocTokensZip | finetune/sequence_labeling.py:59-87 | with equally long label and location chunks, a document's trusted tokens are its stitched labels zipped with its stitched locations |
| Predict.DocTokensOfLayout | finetune/sequence_labeling.py:66-87 | when a document's character location chunks follow the stride layout over its location stream, its trusted tokens pair every location of the document, once and in order, with the label of the chunk whose window holds it; the labels of overlapping chunks need not agree |
| Predict.ChunkingIsTransparent | finetune/sequence_labeling.py:59-107 | when the location chunks follow the stride layout, a document's record is what one merge pass over the document's whole location stream would give, each location paired with the label its window picked |
| PredictProba.ProbaMapColumns | finetune/sequence_labeling.py:167 | with distinct class names, `dict(zip(classes_, proba_t))` maps each class to its own column and has no other key |
| PredictProba.ProbaMap | finetune/sequence_labeling.py:167 | `dict(zip(classes_, proba_t))`; a plain definition, whose meaning `PredictProba.ProbaMapColumns` states |
| PredictProba.Entries | finetune/sequence_labeling.py:164-168 | one entry per zipped (token, row) pair |
| PredictProba.EntriesAt | finetune/sequence_labeling.py:164-168 | entry `k` is token `k` with the map of row `k`, in order and with no merging |
| PredictProba.EntriesAppend | finetune/sequence_labeling.py:164-168 | entries of a concatenation are the concatenated entries |
| PredictProba.AppendWindow | finetune/sequence_labeling.py:164-168 | the inner loop appends exactly the entries of the zipped window to `seq_result` |
| PredictProba.ChunkStep | finetune/sequence_labeling.py:147-173 | one turn of the chunk loop keeps `seq_result` and `result` in step with the reference |
| PredictProba.PredictProba | finetune/sequence_labeling.py:142-175 | `result` is exactly the reference: one list per end-of-document chunk, in chunk order, holding the entries of its document's windows |
| PredictProba.RecordsCount | finetune/sequence_labeling.py:172-173 | `len(result)` is the number of end-of-document chunks |
| PredictProba.RecordsPrefix | finetune/sequence_labeling.py:172-173 | a list, once appended, is never changed by later chunks |
| PredictProba.RecordOfDocument | finetune/sequence_labeling.py:153-173 | the list of a document's last chunk sits at that document's index and holds its entries |
| PredictProba.OneRecordPerDocument | finetune/sequence_labeling.py:148-173 | over the whole batch there is exactly one list per document |
| PredictProba.DocEntriesZip | finetune/sequence_labeling.py:153-168 | with equally long token and probability chunks, a document's entries are those of its stitched tokens zipped with its stitched rows |
| PredictProba.DocEntriesLength | finetune/sequence_labeling.py:153-168 | a document's `seq_result` has as many entries as its chunks' token windows have tokens together |
| PredictProba.ChunkingIsTransparent | finetune/sequence_labeling.py:147-173 | when the token chunks follow the stride layout, a document's list pairs every token of the document, once and in order, with the map of the probability row of the chunk whose window holds it; the rows of overlapping chunks need not agree |

## Left out

- `finetune`, `featurize` and the graph code (`_format_for_encoding`, `_target_placeholder`, `_target_encoder`, `_target_model`, `_predict_op`, `_predict_proba_op`): training and TensorFlow code, outside the stitching logic.
- `_text_to_ids`, `_predict`, `_predict_proba` and `sequence_decode`: the tokenizer, the model and the decoder are defined elsewhere. Their outputs become inputs: per-chunk labels, character locations, tokens and probability rows, plus one flag per chunk. The flag stands for `token_ids[i][0][0] == encoder.start`.
- `indico_to_finetune_sequence` and `finetune_to_indico_sequence` (lines 45, 109-114, 138): the format adapter in `finetune.utils` is not part of this model. `Predict.Predict` returns the `(all_subseqs, all_labels)` pair that line 109 hands to it.
- The labeler passes the adapter's output at line 45 to the tokenizer and slices the original `X` at line 96. The model takes the texts it slices as an input; it does not relate them to what was tokenized.
- The binding of `doc_subseqs` at line 45 is overwritten by the first chunk, which must start a document. That requirement is part of `Valid`: without it the source fails with an unbound name at line 94 or 107, or indexes `X[-1]`.
- Predict.Predict: its precondition `Valid` also asks for no more document starts than texts in `X`. This keeps `X[doc_idx]` at line 96 in range. The requirement is stronger than the source's: a surplus document whose windows hold only `-1` positions never evaluates `X[doc_idx]`, and the source then appends an empty record for it. The model does not cover that case.
- Probability values are floats. They are an opaque type, and nothing is claimed about them summing to one.
- The chunk layout is not computed. How chunks are cut is decided by the tokenizer, so the tiling lemmas (`Chunks.WindowsTileDocument` and the `ChunkingIsTransparent` lemmas) take the stride layout (`Chunks.IsLayout`) as a hypothesis about the character location chunks or the token chunks only. Nothing is assumed about the decoded labels or probability rows: each chunk is scored on its own.
- PythonSeq.Dict: Dafny maps are unordered, so the model drops the insertion order (the `classes_` order) of the dicts built at line 167; nothing in the stitching relies on that order.
- Chunks.StepSize: a configuration whose step is zero or negative (`max_length < 5`) is not rejected, because the code does not reject it. The slices then follow Python's negative-bound rules, as `PythonSeq.Slice` models them.
- PredictProba.PredictProba: as in the code, `-1` positions are not skipped on this path, and probability rows are not merged.
- PredictProba.PredictProba: `end_of_doc` at line 150 tests `len(arr_encoded.char_locs)`. The model reads it as the length of the flag sequence, which `Valid` makes equal to the number of token chunks, since both come from the same encoded batch.
- Aliasing: the source appends the very list objects it goes on mutating. This is harmless, because after an end-of-document chunk the next chunk starts a document and rebinds the accumulators before touching them. The model uses values.
