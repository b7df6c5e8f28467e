/** `SequenceLabeler.predict`, lines 47-107: the hard-label path. Each chunk's
    decoded labels and char locations are cut to the chunk's trusted window and
    merged into the spans of the document the chunk belongs to; the spans of a
    document are flushed when its last chunk has been merged. */
module Predict {
  import opened PythonSeq
  import opened Chunks
  import opened Spans

  /** What the stitching reads: the raw texts `X`, whether each chunk starts a
      document, the decoded labels per chunk and the char locations per chunk. */
  datatype Batch<L> = Batch(texts: seq<string>, startsDoc: seq<bool>, labels: seq<seq<L>>, charLocs: seq<seq<int>>)

  /** How many chunks `zip(labels, arr_encoded.char_locs)` runs over. */
  function Count<L>(b: Batch<L>): nat
  {
    if |b.labels| <= |b.charLocs| then |b.labels| else |b.charLocs|
  }

  /** What the source needs of its inputs: one boundary flag per entry of
      `char_locs` (both come from the same encoded batch); a first chunk that
      starts a document, since otherwise `doc_labels` is unbound and `doc_idx`
      is -1 when the first chunk is merged; and no more documents than texts. */
  ghost predicate Valid<L>(b: Batch<L>)
  {
    |b.startsDoc| == |b.charLocs| &&
    (Count(b) > 0 ==> b.startsDoc[0]) &&
    StartsCount(b.startsDoc, Count(b)) <= |b.texts|
  }

  /** The (label, char location) pairs chunk `i` is trusted for. */
  function ChunkTokens<L>(b: Batch<L>, step: int, i: nat): seq<(L, int)>
    requires |b.startsDoc| == |b.charLocs| && i < Count(b)
  {
    var w := ChunkWindow(b.startsDoc, step, i);
    Zip(Apply(w, b.labels[i]), Apply(w, b.charLocs[i]))
  }

  /** The trusted tokens of the document chunk `i` belongs to, from that
      document's first chunk up to chunk `i`. */
  function DocTokens<L>(b: Batch<L>, step: int, i: nat): seq<(L, int)>
    requires Valid(b) && i < Count(b)
    decreases i
  {
    if b.startsDoc[i] then ChunkTokens(b, step, i)
    else DocTokens(b, step, i - 1) + ChunkTokens(b, step, i)
  }

  /** The text of the document chunk `i` belongs to. */
  function DocText<L>(b: Batch<L>, i: nat): string
    requires Valid(b) && i < Count(b)
  {
    DocIndexInRange(b.startsDoc, i, Count(b), |b.texts|);
    b.texts[DocIndex(b.startsDoc, i)]
  }

  /** The reference for one document: the maximal runs of equal labels over the
      pieces of text its trusted tokens cover, from its first chunk up to `i`. */
  function DocSpans<L(==)>(b: Batch<L>, step: int, i: nat): seq<Span<L>>
    requires Valid(b) && i < Count(b)
  {
    Group(Pieces(0, DocText(b, i), DocTokens(b, step, i)))
  }

  /** The reference output after `n` chunks: one record per end-of-document
      chunk, in chunk order, holding that document's spans. */
  function Records<L(==)>(b: Batch<L>, step: int, n: nat): seq<seq<Span<L>>>
    requires Valid(b) && n <= Count(b)
  {
    if n == 0 then []
    else Records(b, step, n - 1) + (if EndOfDoc(b.startsDoc, n - 1) then [DocSpans(b, step, n - 1)] else [])
  }

  /** The chunk after a non-start chunk's predecessor belongs to the same text. */
  lemma {:induction false} SameDocument<L>(b: Batch<L>, i: nat)
    requires Valid(b) && 0 < i < Count(b) && !b.startsDoc[i]
    ensures DocIndex(b.startsDoc, i) == DocIndex(b.startsDoc, i - 1)
    ensures DocText(b, i) == DocText(b, i - 1)
  {
  }

  /** Merging chunk `i`'s trusted tokens into the accumulator of the document so
      far (a fresh one at a document start) yields that document's reference
      spans up to chunk `i`. */
  lemma {:induction false} MergeChunk<L>(b: Batch<L>, step: int, i: nat, acc: DocAcc<L>)
    requires Valid(b) && i < Count(b) && WellFormed(acc)
    requires b.startsDoc[i] ==> acc == EmptyAcc()
    requires !b.startsDoc[i] ==> SpansOf(acc) == DocSpans(b, step, i - 1) && acc.cursor == Cursor(0, DocTokens(b, step, i - 1))
    ensures var r := MergeTokens(acc, DocText(b, i), ChunkTokens(b, step, i));
            SpansOf(r) == DocSpans(b, step, i) && r.cursor == Cursor(0, DocTokens(b, step, i))
  {
    var text, tokens := DocText(b, i), ChunkTokens(b, step, i);
    if b.startsDoc[i] {
      DocumentSpans(text, tokens);
    } else {
      SameDocument(b, i);
      MergeTokensGroups(acc, text, tokens, Pieces(0, text, DocTokens(b, step, i - 1)));
      PiecesAppend(0, text, DocTokens(b, step, i - 1), tokens);
    }
  }

  /** The output lists hold, record by record, the spans of `records`. */
  ghost predicate Matches<L>(allSubseqs: seq<seq<string>>, allLabels: seq<seq<L>>, records: seq<seq<Span<L>>>)
  {
    |allSubseqs| == |allLabels| == |records| &&
    forall d :: 0 <= d < |allLabels| ==>
      |allSubseqs[d]| == |allLabels[d]| && SpanList(allSubseqs[d], allLabels[d]) == records[d]
  }

  /** Appending a record that matches keeps the output matching the reference. */
  lemma {:induction false} Flush<L>(allSubseqs: seq<seq<string>>, allLabels: seq<seq<L>>, records: seq<seq<Span<L>>>,
                 subseqs: seq<string>, labels: seq<L>, record: seq<Span<L>>)
    requires Matches(allSubseqs, allLabels, records)
    requires |subseqs| == |labels| && SpanList(subseqs, labels) == record
    ensures Matches(allSubseqs + [subseqs], allLabels + [labels], records + [record])
  {
  }

  /** The state of the loop of lines 59-107 after `i` chunks: `doc_idx` is the
      index of the last document started, the accumulator holds that document's
      reference spans so far, and the output lists match the reference records. */
  ghost predicate Inv<L>(b: Batch<L>, step: int, i: nat, docIdx: int, acc: DocAcc<L>,
                             allSubseqs: seq<seq<string>>, allLabels: seq<seq<L>>)
  {
    Valid(b) && i <= Count(b) && WellFormed(acc) &&
    docIdx == StartsCount(b.startsDoc, i) - 1 &&
    (i > 0 ==> SpansOf(acc) == DocSpans(b, step, i - 1) && acc.cursor == Cursor(0, DocTokens(b, step, i - 1))) &&
    Matches(allSubseqs, allLabels, Records(b, step, i))
  }

  /** One turn of the loop keeps `Inv`: the turn at chunk `i` moves `doc_idx`
      on at a document start, merges the chunk's trusted tokens into the
      accumulator (a fresh one at a document start), and flushes it at an end
      of document. */
  lemma {:induction false} ChunkStep<L>(b: Batch<L>, step: int, i: nat, docIdx: int, acc: DocAcc<L>,
                     allSubseqs: seq<seq<string>>, allLabels: seq<seq<L>>,
                     i': nat, docIdx': int, acc': DocAcc<L>, allSubseqs': seq<seq<string>>, allLabels': seq<seq<L>>)
    requires Inv(b, step, i, docIdx, acc, allSubseqs, allLabels) && i < Count(b) && i' == i + 1
    requires docIdx' == if b.startsDoc[i] then docIdx + 1 else docIdx
    requires acc' == MergeTokens(if b.startsDoc[i] then EmptyAcc() else acc, DocText(b, i), ChunkTokens(b, step, i))
    requires allSubseqs' == if EndOfDoc(b.startsDoc, i) then allSubseqs + [acc'.subseqs] else allSubseqs
    requires allLabels' == if EndOfDoc(b.startsDoc, i) then allLabels + [acc'.labels] else allLabels
    ensures Inv(b, step, i', docIdx', acc', allSubseqs', allLabels')
  {
    assert i' - 1 == i;
    assert docIdx' == StartsCount(b.startsDoc, i') - 1 by {
      assert StartsCount(b.startsDoc, i') == StartsCount(b.startsDoc, i) + (if b.startsDoc[i] then 1 else 0);
    }
    assert SpansOf(acc') == DocSpans(b, step, i) && acc'.cursor == Cursor(0, DocTokens(b, step, i)) by {
      MergeChunk(b, step, i, if b.startsDoc[i] then EmptyAcc() else acc);
    }
    assert Matches(allSubseqs', allLabels', Records(b, step, i')) by {
      if EndOfDoc(b.startsDoc, i) {
        assert Records(b, step, i') == Records(b, step, i) + [DocSpans(b, step, i)];
        Flush(allSubseqs, allLabels, Records(b, step, i), acc'.subseqs, acc'.labels, DocSpans(b, step, i));
      } else {
        assert Records(b, step, i') == Records(b, step, i);
      }
    }
  }

  /** Lines 47-107, with `labels = self._predict(...)` and the encoded batch
      given as inputs and `startsDoc[i]` standing for the start-marker test. */
  method Predict<L(==)>(texts: seq<string>, maxLength: Option<int>, configMaxLength: int,
                        startsDoc: seq<bool>, labels: seq<seq<L>>, charLocs: seq<seq<int>>)
    returns (allSubseqs: seq<seq<string>>, allLabels: seq<seq<L>>)
    requires Valid(Batch(texts, startsDoc, labels, charLocs))
    ensures var b := Batch(texts, startsDoc, labels, charLocs);
            Matches(allSubseqs, allLabels, Records(b, StepSize(OrElse(maxLength, configMaxLength)), Count(b)))
  {
    ghost var b := Batch(texts, startsDoc, labels, charLocs);
    var maxLen := OrElse(maxLength, configMaxLength);
    var chunkSize := maxLen - 2;
    var step := chunkSize / 3;
    assert step == StepSize(maxLen);
    allSubseqs, allLabels := [], [];
    var docIdx := -1;
    var docSubseqs: seq<string>, docLabels: seq<L>, startOfToken := [], [], 0;
    var n := if |labels| <= |charLocs| then |labels| else |charLocs|;
    var i := 0;
    while i < n
      invariant n == Count(b) && i <= n
      invariant Inv(b, step, i, docIdx, DocAcc(docSubseqs, docLabels, startOfToken), allSubseqs, allLabels)
    {
      ghost var i0, idx0, acc0, subseqs0, labels0 := i, docIdx, DocAcc(docSubseqs, docLabels, startOfToken), allSubseqs, allLabels;
      var startOfDoc := startsDoc[i];
      var endOfDoc := i + 1 >= |charLocs| || startsDoc[i + 1];
      if startOfDoc {
        docSubseqs, docLabels := [], [];
        docIdx := docIdx + 1;
        startOfToken := 0;
      }
      var w := SelectWindow(startOfDoc, endOfDoc, step);
      var labelSeq, positionSeq := Apply(w, labels[i]), Apply(w, charLocs[i]);
      DocIndexInRange(startsDoc, i, n, |texts|);
      assert w == ChunkWindow(startsDoc, step, i);
      assert Zip(labelSeq, positionSeq) == ChunkTokens(b, step, i);
      assert docIdx == DocIndex(startsDoc, i) && texts[docIdx] == DocText(b, i);
      docSubseqs, docLabels, startOfToken := MergeWindow(docSubseqs, docLabels, startOfToken, texts[docIdx], labelSeq, positionSeq);
      if endOfDoc {
        allSubseqs := allSubseqs + [docSubseqs];
        allLabels := allLabels + [docLabels];
      }
      i := i + 1;
      ChunkStep(b, step, i0, idx0, acc0, subseqs0, labels0, i, docIdx, DocAcc(docSubseqs, docLabels, startOfToken), allSubseqs, allLabels);
    }
  }

  // ---------------------------------------------------------------- the records

  /** One record per end-of-document chunk seen. */
  lemma {:induction false} RecordsCount<L>(b: Batch<L>, step: int, n: nat)
    requires Valid(b) && n <= Count(b)
    ensures |Records(b, step, n)| == EndsCount(b.startsDoc, n)
  {
    if n > 0 {
      RecordsCount(b, step, n - 1);
    }
  }

  /** Later chunks only append records. */
  lemma {:induction false} RecordsPrefix<L>(b: Batch<L>, step: int, m: nat, n: nat, d: nat)
    requires Valid(b) && m <= n <= Count(b) && d < |Records(b, step, m)|
    ensures d < |Records(b, step, n)| && Records(b, step, n)[d] == Records(b, step, m)[d]
    decreases n
  {
    if m < n {
      RecordsPrefix(b, step, m, n - 1, d);
    }
  }

  /** The record of the document that ends at chunk `e` is the `DocIndex(e)`-th,
      so record `d` belongs to text `X[d]`, and holds that document's spans. */
  lemma {:induction false} RecordOfDocument<L>(b: Batch<L>, step: int, e: nat)
    requires Valid(b) && e < Count(b) && EndOfDoc(b.startsDoc, e)
    ensures 0 <= DocIndex(b.startsDoc, e) < |Records(b, step, Count(b))|
    ensures Records(b, step, Count(b))[DocIndex(b.startsDoc, e)] == DocSpans(b, step, e)
  {
    var d := DocIndex(b.startsDoc, e);
    assert |Records(b, step, e)| == d by {
      RecordsCount(b, step, e);
      EndChunkFlushesItsDocument(b.startsDoc, e);
    }
    assert d < |Records(b, step, e + 1)| && Records(b, step, e + 1)[d] == DocSpans(b, step, e) by {
      assert Records(b, step, e + 1) == Records(b, step, e) + [DocSpans(b, step, e)];
    }
    RecordsPrefix(b, step, e + 1, Count(b), DocIndex(b.startsDoc, e));
  }

  /** When every chunk is scored, there is one record per document. */
  lemma {:induction false} OneRecordPerDocument<L>(b: Batch<L>, step: int)
    requires Valid(b) && Count(b) == |b.startsDoc| > 0
    ensures |Records(b, step, Count(b))| == StartsCount(b.startsDoc, |b.startsDoc|)
  {
    RecordsCount(b, step, Count(b));
    EveryDocumentEndsOnce(b.startsDoc);
  }

  /** No two neighbouring spans of a record carry the same label. */
  lemma {:induction false} RecordsMaximal<L>(b: Batch<L>, step: int, n: nat)
    requires Valid(b) && n <= Count(b)
    ensures forall d :: 0 <= d < |Records(b, step, n)| ==> Maximal(Records(b, step, n)[d])
  {
    if n > 0 {
      RecordsMaximal(b, step, n - 1);
      var prev, r := Records(b, step, n - 1), Records(b, step, n);
      forall d | 0 <= d < |r| ensures Maximal(r[d]) {
        if d < |prev| {
          assert r[d] == prev[d];
        } else {
          assert r[d] == DocSpans(b, step, n - 1);
        }
      }
    }
  }

  /** When a document's char locations are non-decreasing and within its text,
      its spans concatenate to the text up to the last location. */
  lemma {:induction false} DocumentCoversText<L>(b: Batch<L>, step: int, e: nat)
    requires Valid(b) && e < Count(b)
    requires Monotone(0, DocTokens(b, step, e), |DocText(b, e)|)
    ensures 0 <= Cursor(0, DocTokens(b, step, e)) <= |DocText(b, e)|
    ensures Joined(DocSpans(b, step, e)) == DocText(b, e)[..Cursor(0, DocTokens(b, step, e))]
  {
    PiecesCoverText(0, DocText(b, e), DocTokens(b, step, e));
  }

  /** The texts of a matched record, concatenated, are its spans' texts. */
  lemma {:induction false} MatchedText<L>(allSubseqs: seq<seq<string>>, allLabels: seq<seq<L>>, records: seq<seq<Span<L>>>, d: nat)
    requires Matches(allSubseqs, allLabels, records) && d < |records|
    ensures Concat(allSubseqs[d]) == Joined(records[d])
  {
    JoinedSpanList(allSubseqs[d], allLabels[d]);
  }

  // ---------------------------------------------------------------- the tiling

  /** Within a document, the trusted tokens are the zip of the labels' windows
      and the char locations' windows, each stitched separately. */
  lemma {:induction false} DocTokensZip<L>(b: Batch<L>, step: int, i: nat)
    requires Valid(b) && i < Count(b)
    requires forall k :: 0 <= k <= i ==> |b.labels[k]| == |b.charLocs[k]|
    ensures |DocWindows(b.startsDoc, b.labels, step, i)| == |DocWindows(b.startsDoc, b.charLocs, step, i)|
    ensures DocTokens(b, step, i) == Zip(DocWindows(b.startsDoc, b.labels, step, i), DocWindows(b.startsDoc, b.charLocs, step, i))
    decreases i
  {
    var w := ChunkWindow(b.startsDoc, step, i);
    var lw, cw := Apply(w, b.labels[i]), Apply(w, b.charLocs[i]);
    ApplyLength(w, b.labels[i], b.charLocs[i]);
    if !b.startsDoc[i] {
      DocTokensZip(b, step, i - 1);
      ZipAppend(DocWindows(b.startsDoc, b.labels, step, i - 1), lw, DocWindows(b.startsDoc, b.charLocs, step, i - 1), cw);
    }
  }

  /** When a document's char location chunks are laid out at `step` strides
      over the document's whole char location stream, its trusted tokens visit
      every location of the document once and in order, each paired with the
      label that the chunk whose window holds it decoded. Only the locations
      are assumed to agree across overlapping chunks: each chunk is scored on
      its own, so the labels of shared tokens may differ, and the windows pick
      one of them. */
  lemma {:induction false} DocTokensOfLayout<L>(b: Batch<L>, step: nat, s: nat, e: nat, docLocs: seq<int>)
    requires Valid(b) && OneDocument(b.startsDoc, s, e) && e < Count(b)
    requires forall k :: 0 <= k <= e ==> |b.labels[k]| == |b.charLocs[k]|
    requires IsLayout(docLocs, b.charLocs[s..e + 1], step)
    ensures |DocWindows(b.startsDoc, b.labels, step, e)| == |docLocs|
    ensures DocTokens(b, step, e) == Zip(DocWindows(b.startsDoc, b.labels, step, e), docLocs)
  {
    assert DocWindows(b.startsDoc, b.charLocs, step, e) == docLocs by {
      DocWindowsStitched(b.startsDoc, b.charLocs, step, s, e, e, e - s + 1);
      WindowsTileDocument(docLocs, b.charLocs[s..e + 1], step);
    }
    DocTokensZip(b, step, e);
  }

  /** Chunking does not change the outcome: under that layout a document's
      spans are those of merging, in one go over the whole document, its char
      locations paired with the stitched labels. */
  lemma {:induction false} ChunkingIsTransparent<L>(b: Batch<L>, step: nat, s: nat, e: nat, docLocs: seq<int>)
    requires Valid(b) && OneDocument(b.startsDoc, s, e) && e < Count(b)
    requires forall k :: 0 <= k <= e ==> |b.labels[k]| == |b.charLocs[k]|
    requires IsLayout(docLocs, b.charLocs[s..e + 1], step)
    ensures DocSpans(b, step, e)
         == SpansOf(MergeTokens(EmptyAcc(), DocText(b, e), Zip(DocWindows(b.startsDoc, b.labels, step, e), docLocs)))
  {
    DocTokensOfLayout(b, step, s, e, docLocs);
    DocumentSpans(DocText(b, e), Zip(DocWindows(b.startsDoc, b.labels, step, e), docLocs));
  }
}
