/** Chunk-level arithmetic shared by `SequenceLabeler.predict` and
    `SequenceLabeler.predict_proba`: the step size, which chunks start and end a
    document, and which slice of each chunk is trusted. */
module Chunks {
  import opened PythonSeq

  /** `(max_length - 2) // 3`: Python's `//` floors, so `step` is the largest
      integer whose triple fits in the chunk size `max_length - 2`. */
  function StepSize(maxLength: int): (step: int)
    ensures 3 * step <= maxLength - 2 < 3 * step + 3
  {
    (maxLength - 2) / 3
  }

  // ---------------------------------------------------------------- boundaries

  /** Chunk `i` ends a document when it is the last chunk or the next chunk
      starts one (`startsDoc[i]` stands for `token_ids[i][0][0] == encoder.start`). */
  function EndOfDoc(startsDoc: seq<bool>, i: nat): bool
    requires i < |startsDoc|
  {
    i + 1 >= |startsDoc| || startsDoc[i + 1]
  }

  /** How many of the first `n` chunks start a document. */
  function StartsCount(startsDoc: seq<bool>, n: nat): (r: nat)
    requires n <= |startsDoc|
    ensures r <= n
  {
    if n == 0 then 0 else StartsCount(startsDoc, n - 1) + (if startsDoc[n - 1] then 1 else 0)
  }

  /** How many of the first `n` chunks end a document. */
  function EndsCount(startsDoc: seq<bool>, n: nat): nat
    requires n <= |startsDoc|
  {
    if n == 0 then 0 else EndsCount(startsDoc, n - 1) + (if EndOfDoc(startsDoc, n - 1) then 1 else 0)
  }

  /** The value of `doc_idx` once chunk `i` has been seen: the zero-based index
      of the document chunk `i` belongs to. */
  function DocIndex(startsDoc: seq<bool>, i: nat): (r: int)
    requires i < |startsDoc|
    ensures -1 <= r <= i
  {
    StartsCount(startsDoc, i + 1) - 1
  }

  lemma {:induction false} StartsCountMonotone(startsDoc: seq<bool>, m: nat, n: nat)
    requires m <= n <= |startsDoc|
    ensures StartsCount(startsDoc, m) <= StartsCount(startsDoc, n)
    decreases n
  {
    if m < n {
      StartsCountMonotone(startsDoc, m, n - 1);
    }
  }

  /** With the first chunk starting a document, `doc_idx` is a valid index into
      the texts from the first chunk on. */
  lemma {:induction false} DocIndexInRange(startsDoc: seq<bool>, i: nat, n: nat, docs: nat)
    requires i < n <= |startsDoc| && startsDoc[0] && StartsCount(startsDoc, n) <= docs
    ensures 0 <= DocIndex(startsDoc, i) < docs
  {
    StartsCountMonotone(startsDoc, 1, i + 1);
    StartsCountMonotone(startsDoc, i + 1, n);
  }

  /** The final chunk always ends a document. */
  lemma {:induction false} LastChunkEndsDoc(startsDoc: seq<bool>)
    requires |startsDoc| > 0
    ensures EndOfDoc(startsDoc, |startsDoc| - 1)
  {
  }

  /** A chunk ends its document exactly when the next chunk belongs to the next
      document, and otherwise the next chunk continues the same document. */
  lemma {:induction false} EndOfDocIffNextDocument(startsDoc: seq<bool>, i: nat)
    requires i + 1 < |startsDoc|
    ensures EndOfDoc(startsDoc, i) <==> DocIndex(startsDoc, i + 1) == DocIndex(startsDoc, i) + 1
    ensures !EndOfDoc(startsDoc, i) <==> DocIndex(startsDoc, i + 1) == DocIndex(startsDoc, i)
  {
  }

  /** Once the first chunk starts a document, every document seen so far has
      ended except possibly the one chunk `n - 1` is in. */
  lemma {:induction false} EndsTrailStarts(startsDoc: seq<bool>, n: nat)
    requires 0 < n <= |startsDoc| && startsDoc[0]
    ensures EndsCount(startsDoc, n) + (if EndOfDoc(startsDoc, n - 1) then 0 else 1) == StartsCount(startsDoc, n)
  {
    if n > 1 {
      EndsTrailStarts(startsDoc, n - 1);
    }
  }

  /** Every document ends exactly once: over the whole batch there are as many
      end-of-document chunks as start-of-document chunks. */
  lemma {:induction false} EveryDocumentEndsOnce(startsDoc: seq<bool>)
    requires |startsDoc| > 0 && startsDoc[0]
    ensures EndsCount(startsDoc, |startsDoc|) == StartsCount(startsDoc, |startsDoc|)
  {
    EndsTrailStarts(startsDoc, |startsDoc|);
  }

  /** The record flushed at an end-of-document chunk `e` is the `DocIndex(e)`-th
      one: documents are flushed in order, one each. */
  lemma {:induction false} EndChunkFlushesItsDocument(startsDoc: seq<bool>, e: nat)
    requires e < |startsDoc| && startsDoc[0] && EndOfDoc(startsDoc, e)
    ensures EndsCount(startsDoc, e) == DocIndex(startsDoc, e)
  {
    EndsTrailStarts(startsDoc, e + 1);
  }

  // ---------------------------------------------------------------- windows

  /** The slice a chunk is trusted for, as the Python slice the source takes:
      `s[:stop]`, `s[start:]` or `s[start:stop]`. */
  datatype Window = Whole | Head(stop: int) | Tail(start: int) | Middle(start: int, stop: int)

  /** The slice taken of a chunk given its document-boundary flags. */
  function SelectWindow(startOfDoc: bool, endOfDoc: bool, step: int): Window
  {
    if startOfDoc then
      if endOfDoc then Whole else Head(2 * step)
    else
      if endOfDoc then Tail(step) else Middle(step, 2 * step)
  }

  function Apply<T>(w: Window, s: seq<T>): seq<T>
  {
    match w
    case Whole => s
    case Head(stop) => Slice(s, 0, stop)
    case Tail(start) => Slice(s, start, |s|)
    case Middle(start, stop) => Slice(s, start, stop)
  }

  /** The window of the chunk `i` of a batch. */
  function ChunkWindow(startsDoc: seq<bool>, step: int, i: nat): Window
    requires i < |startsDoc|
  {
    SelectWindow(startsDoc[i], EndOfDoc(startsDoc, i), step)
  }

  /** The trusted half-open token range of a chunk of `n` tokens, stated
      directly: the only chunk of a document is trusted whole, a first chunk up
      to `2 * step`, a last chunk from `step`, and a middle chunk from `step` to
      `2 * step`, each bound cut back to the chunk's length. */
  function TrustedRange(startOfDoc: bool, endOfDoc: bool, step: nat, n: nat): (range: (nat, nat))
    ensures range.0 <= range.1 <= n
  {
    var a, b := Min(step, n), Min(2 * step, n);
    if startOfDoc && endOfDoc then (0, n)
    else if startOfDoc then (0, b)
    else if endOfDoc then (a, n)
    else (a, b)
  }

  /** For a non-negative step the Python slices the source takes are exactly the
      trusted ranges. */
  lemma {:induction false} WindowIsTrustedRange<T>(s: seq<T>, startOfDoc: bool, endOfDoc: bool, step: int)
    requires step >= 0
    ensures var range := TrustedRange(startOfDoc, endOfDoc, step, |s|);
            Apply(SelectWindow(startOfDoc, endOfDoc, step), s) == s[range.0..range.1]
  {
  }

  // ---------------------------------------------------------------- tiling

  /** Where chunk `j` of a document begins: `j * step` tokens in. */
  function Offset(j: nat, step: nat): nat
  {
    if j == 0 then 0 else Offset(j - 1, step) + step
  }

  /** Chunk `j` of a document's chunks is the run of `doc` that begins at token
      `Offset(j, step)`, and, unless it is the last chunk, holds at least
      `2 * step` tokens. */
  ghost predicate ChunkFits<T>(doc: seq<T>, chunks: seq<seq<T>>, step: nat, j: nat)
    requires j < |chunks|
  {
    Offset(j, step) + |chunks[j]| <= |doc| &&
    chunks[j] == doc[Offset(j, step)..Offset(j, step) + |chunks[j]|] &&
    (j < |chunks| - 1 ==> |chunks[j]| >= 2 * step)
  }

  /** The layout the chunker is assumed to produce for one document of tokens
      `doc`: every chunk fits at its `step` stride, and the last chunk reaches
      the document's end and, when there are several chunks, holds at least
      `step` tokens. */
  ghost predicate IsLayout<T>(doc: seq<T>, chunks: seq<seq<T>>, step: nat)
  {
    |chunks| > 0 &&
    (forall j :: 0 <= j < |chunks| ==> ChunkFits(doc, chunks, step, j)) &&
    Offset(|chunks| - 1, step) + |chunks[|chunks| - 1]| == |doc| &&
    (|chunks| > 1 ==> |chunks[|chunks| - 1]| >= step)
  }

  /** The trusted windows of the first `j` chunks of one document, concatenated;
      chunk 0 is the document's first chunk and `chunks[|chunks| - 1]` its last. */
  function Stitched<T>(chunks: seq<seq<T>>, step: int, j: nat): seq<T>
    requires j <= |chunks|
  {
    if j == 0 then []
    else Stitched(chunks, step, j - 1) + Apply(SelectWindow(j == 1, j == |chunks|, step), chunks[j - 1])
  }

  /** A window's length depends only on the chunk's length. */
  lemma {:induction false} ApplyLength<A, B>(w: Window, a: seq<A>, b: seq<B>)
    requires |a| == |b|
    ensures |Apply(w, a)| == |Apply(w, b)|
  {
  }

  lemma {:induction false} SliceOfSlice<T>(s: seq<T>, a: nat, b: nat, i: nat, j: nat)
    requires a <= b <= |s| && i <= j <= b - a
    ensures s[a..b][i..j] == s[a + i..a + j]
  {
    forall k | 0 <= k < j - i ensures s[a..b][i..j][k] == s[a + i + k] {
      assert s[a..b][i..j][k] == s[a..b][i + k];
    }
  }

  /** A prefix of `s` followed by the run after it is a longer prefix. */
  lemma {:induction false} PrefixConcat<T>(s: seq<T>, x: seq<T>, y: seq<T>, a: nat, b: nat)
    requires a <= b <= |s| && x == s[..a] && y == s[a..b]
    ensures x + y == s[..b]
  {
    assert s[..a] + s[a..b] == s[..b];
  }

  /** The trusted windows of a chunk `c` that is the run of `doc` beginning at
      token `o`, in document coordinates. */
  lemma {:induction false} RunWindows<T>(doc: seq<T>, c: seq<T>, o: nat, step: nat)
    requires o + |c| <= |doc| && c == doc[o..o + |c|]
    ensures |c| >= 2 * step ==>
      Apply(Head(2 * step), c) == doc[o..o + 2 * step] &&
      Apply(Middle(step, 2 * step), c) == doc[o + step..o + 2 * step]
    ensures o + |c| == |doc| && |c| >= step ==> Apply(Tail(step), c) == doc[o + step..]
    ensures o + |c| == |doc| ==> Apply(Whole, c) == doc[o..]
  {
    if |c| >= 2 * step {
      SliceOfSlice(doc, o, o + |c|, 0, 2 * step);
      SliceOfSlice(doc, o, o + |c|, step, 2 * step);
    }
    if o + |c| == |doc| && |c| >= step {
      SliceOfSlice(doc, o, o + |c|, step, |c|);
    }
  }

  /** The first chunk of several is trusted up to `2 * step`: its window is
      the document's first `2 * step` tokens. */
  lemma {:induction false} FirstWindow<T>(doc: seq<T>, chunks: seq<seq<T>>, step: nat)
    requires 1 < |chunks| && ChunkFits(doc, chunks, step, 0)
    ensures Offset(2, step) <= |doc| && Stitched(chunks, step, 1) == doc[..Offset(2, step)]
  {
    var c := chunks[0];
    assert Offset(1, step) == step && Offset(2, step) == 2 * step;
    var window := Apply(Head(2 * step), c);
    assert Stitched(chunks, step, 1) == [] + window == window;
    assert window == doc[..2 * step] by {
      RunWindows(doc, c, 0, step);
      assert doc[0..2 * step] == doc[..2 * step];
    }
  }

  /** A middle chunk `j - 1` extends the stitched prefix by its window, up to
      where chunk `j + 1` begins. */
  lemma {:induction false} MiddleWindow<T>(doc: seq<T>, chunks: seq<seq<T>>, step: nat, j: nat)
    requires 2 <= j < |chunks| && ChunkFits(doc, chunks, step, j - 1)
    requires Offset(j, step) <= |doc| && Stitched(chunks, step, j - 1) == doc[..Offset(j, step)]
    ensures Offset(j + 1, step) <= |doc| && Stitched(chunks, step, j) == doc[..Offset(j + 1, step)]
  {
    var c, o := chunks[j - 1], Offset(j - 1, step);
    assert Offset(j, step) == o + step && Offset(j + 1, step) == o + 2 * step;
    assert o + |c| <= |doc| && c == doc[o..o + |c|] && |c| >= 2 * step;
    var prev, window := Stitched(chunks, step, j - 1), Apply(Middle(step, 2 * step), c);
    assert Stitched(chunks, step, j) == prev + window by {
      assert SelectWindow(j == 1, j == |chunks|, step) == Middle(step, 2 * step);
    }
    assert window == doc[o + step..o + 2 * step] by {
      RunWindows(doc, c, o, step);
    }
    assert prev == doc[..o + step];
    PrefixConcat(doc, prev, window, o + step, o + 2 * step);
  }

  /** Before the last chunk, the first `j` trusted windows are the document up
      to where chunk `j + 1` begins. */
  lemma {:induction false} StitchedPrefix<T>(doc: seq<T>, chunks: seq<seq<T>>, step: nat, j: nat, next: nat)
    requires 1 <= j < |chunks| && next == j + 1
    requires forall i :: 0 <= i < j ==> ChunkFits(doc, chunks, step, i)
    ensures Offset(next, step) <= |doc|
    ensures Stitched(chunks, step, j) == doc[..Offset(next, step)]
  {
    if j == 1 {
      assert ChunkFits(doc, chunks, step, 0);
      FirstWindow(doc, chunks, step);
    } else {
      assert ChunkFits(doc, chunks, step, j - 1);
      StitchedPrefix(doc, chunks, step, j - 1, j);
      MiddleWindow(doc, chunks, step, j);
    }
  }

  /** The only chunk of a document is trusted whole. */
  lemma {:induction false} OnlyWindow<T>(doc: seq<T>, chunks: seq<seq<T>>, step: nat)
    requires |chunks| == 1 && ChunkFits(doc, chunks, step, 0) && |chunks[0]| == |doc|
    ensures Stitched(chunks, step, 1) == doc
  {
    var c := chunks[0];
    var window := Apply(Whole, c);
    assert Stitched(chunks, step, 1) == [] + window == window;
    assert doc[0..|c|] == doc;
  }

  /** The last of several chunks is trusted from `step` on, which completes
      the document. */
  lemma {:induction false} LastWindow<T>(doc: seq<T>, chunks: seq<seq<T>>, step: nat)
    requires 1 < |chunks| && ChunkFits(doc, chunks, step, |chunks| - 1)
    requires Offset(|chunks| - 1, step) + |chunks[|chunks| - 1]| == |doc| && |chunks[|chunks| - 1]| >= step
    requires Offset(|chunks|, step) <= |doc| && Stitched(chunks, step, |chunks| - 1) == doc[..Offset(|chunks|, step)]
    ensures Stitched(chunks, step, |chunks|) == doc
  {
    var k := |chunks|;
    var c, o := chunks[k - 1], Offset(k - 1, step);
    assert Offset(k, step) == o + step;
    var prev, window := Stitched(chunks, step, k - 1), Apply(Tail(step), c);
    assert Stitched(chunks, step, k) == prev + window;
    assert window == doc[o + step..|doc|] by {
      RunWindows(doc, c, o, step);
    }
    PrefixConcat(doc, prev, window, o + step, |doc|);
    assert doc[..|doc|] == doc;
  }

  /** Under that layout the trusted windows of consecutive chunks abut in
      document order: stitched together they are the document, each token once. */
  lemma {:induction false} WindowsTileDocument<T>(doc: seq<T>, chunks: seq<seq<T>>, step: nat)
    requires IsLayout(doc, chunks, step)
    ensures Stitched(chunks, step, |chunks|) == doc
  {
    var k := |chunks|;
    assert ChunkFits(doc, chunks, step, k - 1);
    if k == 1 {
      OnlyWindow(doc, chunks, step);
    } else {
      StitchedPrefix(doc, chunks, step, k - 1, k);
      LastWindow(doc, chunks, step);
    }
  }

  /** The trusted windows of chunks `s..i` of a batch, where `s` is the chunk
      that starts the document chunk `i` belongs to, concatenated. */
  function DocWindows<T>(startsDoc: seq<bool>, chunks: seq<seq<T>>, step: int, i: nat): seq<T>
    requires i < |startsDoc| && i < |chunks|
  {
    var piece := Apply(ChunkWindow(startsDoc, step, i), chunks[i]);
    if i == 0 || startsDoc[i] then piece else DocWindows(startsDoc, chunks, step, i - 1) + piece
  }

  /** Chunks `s..e` of a batch make up one document. */
  ghost predicate OneDocument(startsDoc: seq<bool>, s: nat, e: nat)
  {
    s <= e < |startsDoc| && startsDoc[s] && EndOfDoc(startsDoc, e) &&
    forall k :: s < k <= e ==> !startsDoc[k]
  }

  /** Inside one document, a chunk starts it exactly when it is the first and
      ends it exactly when it is the last. */
  lemma {:induction false} WindowInOneDocument(startsDoc: seq<bool>, step: int, s: nat, e: nat, i: nat)
    requires OneDocument(startsDoc, s, e) && s <= i <= e
    ensures ChunkWindow(startsDoc, step, i) == SelectWindow(i == s, i == e, step)
  {
    if i < e {
      assert !startsDoc[i + 1];
    }
  }

  /** Within one document, the batch's windows are the document's own stitching
      of its chunks. */
  lemma {:induction false} DocWindowsStitched<T>(startsDoc: seq<bool>, chunks: seq<seq<T>>, step: int, s: nat, e: nat, i: nat, j: nat)
    requires OneDocument(startsDoc, s, e) && e < |chunks| && s <= i <= e && j == i - s + 1
    ensures DocWindows(startsDoc, chunks, step, i) == Stitched(chunks[s..e + 1], step, j)
    decreases i
  {
    var cs := chunks[s..e + 1];
    var piece := Apply(ChunkWindow(startsDoc, step, i), chunks[i]);
    assert Stitched(cs, step, j) == Stitched(cs, step, j - 1) + piece by {
      assert cs[j - 1] == chunks[i];
      WindowInOneDocument(startsDoc, step, s, e, i);
    }
    if i > s {
      assert !startsDoc[i];
      DocWindowsStitched(startsDoc, chunks, step, s, e, i - 1, j - 1);
      calc {
        DocWindows(startsDoc, chunks, step, i);
        DocWindows(startsDoc, chunks, step, i - 1) + piece;
        Stitched(cs, step, j - 1) + piece;
      }
    } else {
      calc {
        DocWindows(startsDoc, chunks, step, i);
        piece;
        Stitched(cs, step, j - 1) + piece;
      }
    }
  }
}
