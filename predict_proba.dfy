/** `SequenceLabeler.predict_proba`, lines 129-175: the probability path. Each
    chunk's tokens and per-token class probabilities are cut to the chunk's
    trusted window, each token is paired with a class-to-probability map, and a
    document's list is flushed when its last chunk has been seen. */
module PredictProba {
  import opened PythonSeq
  import opened Chunks

  /** What the stitching reads: whether each chunk starts a document, the
      tokens of each chunk, and the probability rows of each chunk (one row of
      class probabilities per token). */
  datatype ProbaBatch<T, F> = ProbaBatch(startsDoc: seq<bool>, tokens: seq<seq<T>>, probas: seq<seq<seq<F>>>)

  /** How many chunks `zip(arr_encoded.tokens, batch_probas)` runs over. */
  function Count<T, F>(b: ProbaBatch<T, F>): nat
  {
    if |b.tokens| <= |b.probas| then |b.tokens| else |b.probas|
  }

  /** What the source needs: one boundary flag per chunk of the encoded batch
      (its `tokens` and its `char_locs` have one entry per chunk each), and a
      first chunk that starts a document, since otherwise `seq_result` is
      unbound when the first token is appended. */
  ghost predicate Valid<T, F>(b: ProbaBatch<T, F>)
  {
    |b.startsDoc| == |b.tokens| && (Count(b) > 0 ==> b.startsDoc[0])
  }

  /** The class-to-probability map of one token: `dict(zip(classes, row))`. */
  function ProbaMap<C, F>(classes: seq<C>, row: seq<F>): map<C, F>
  {
    Dict(Zip(classes, row))
  }

  /** With distinct class names, the map sends each class to its own column of
      the row, and holds no other key; a row shorter than the class list drops
      the classes past its end. */
  lemma {:induction false} ProbaMapColumns<C, F>(classes: seq<C>, row: seq<F>)
    requires forall c, d :: 0 <= c < d < |classes| ==> classes[c] != classes[d]
    ensures forall c :: 0 <= c < Min(|classes|, |row|) ==>
              classes[c] in ProbaMap(classes, row) && ProbaMap(classes, row)[classes[c]] == row[c]
    ensures forall x :: x in ProbaMap(classes, row) ==> exists c :: 0 <= c < Min(|classes|, |row|) && classes[c] == x
  {
    var pairs := Zip(classes, row);
    ZipPairs(classes, row);
    DictLookup(pairs);
    forall c | 0 <= c < |pairs| ensures LastWithKey(pairs, c) {
      forall j | c < j < |pairs| ensures pairs[j].0 != pairs[c].0 {
        assert pairs[j].0 == classes[j] && pairs[c].0 == classes[c];
      }
    }
  }

  /** `(token, dict(zip(classes, proba_t)))` for each pair of a chunk's window. */
  function Entries<T, C, F>(classes: seq<C>, pairs: seq<(T, seq<F>)>): (r: seq<(T, map<C, F>)>)
    ensures |r| == |pairs|
  {
    if pairs == [] then [] else [(pairs[0].0, ProbaMap(classes, pairs[0].1))] + Entries(classes, pairs[1..])
  }

  /** Entry `k` is token `k` with the map of row `k`. */
  lemma {:induction false} EntriesAt<T, C, F>(classes: seq<C>, pairs: seq<(T, seq<F>)>)
    ensures forall k :: 0 <= k < |pairs| ==>
              Entries(classes, pairs)[k] == (pairs[k].0, ProbaMap(classes, pairs[k].1))
    decreases |pairs|
  {
    if pairs != [] {
      EntriesAt(classes, pairs[1..]);
      var r := Entries(classes, pairs);
      forall k | 0 <= k < |pairs| ensures r[k] == (pairs[k].0, ProbaMap(classes, pairs[k].1)) {
        if k > 0 {
          assert r[k] == Entries(classes, pairs[1..])[k - 1];
        }
      }
    }
  }

  lemma {:induction false} EntriesAppend<T, C, F>(classes: seq<C>, a: seq<(T, seq<F>)>, b: seq<(T, seq<F>)>)
    ensures Entries(classes, a + b) == Entries(classes, a) + Entries(classes, b)
  {
    if a != [] {
      assert (a + b)[1..] == a[1..] + b;
      EntriesAppend(classes, a[1..], b);
    } else {
      assert a + b == b;
    }
  }

  /** The entries chunk `i` contributes. */
  function ChunkEntries<T, C, F>(b: ProbaBatch<T, F>, classes: seq<C>, step: int, i: nat): seq<(T, map<C, F>)>
    requires |b.startsDoc| == |b.tokens| && i < Count(b)
  {
    var w := ChunkWindow(b.startsDoc, step, i);
    Entries(classes, Zip(Apply(w, b.tokens[i]), Apply(w, b.probas[i])))
  }

  /** The entries of the document chunk `i` belongs to, from that document's
      first chunk up to chunk `i`. */
  function DocEntries<T, C, F>(b: ProbaBatch<T, F>, classes: seq<C>, step: int, i: nat): seq<(T, map<C, F>)>
    requires Valid(b) && i < Count(b)
    decreases i
  {
    if b.startsDoc[i] then ChunkEntries(b, classes, step, i)
    else DocEntries(b, classes, step, i - 1) + ChunkEntries(b, classes, step, i)
  }

  /** The reference output after `n` chunks: one list per end-of-document chunk. */
  function ProbaRecords<T, C, F>(b: ProbaBatch<T, F>, classes: seq<C>, step: int, n: nat): seq<seq<(T, map<C, F>)>>
    requires Valid(b) && n <= Count(b)
  {
    if n == 0 then []
    else ProbaRecords(b, classes, step, n - 1)
         + (if EndOfDoc(b.startsDoc, n - 1) then [DocEntries(b, classes, step, n - 1)] else [])
  }

  /** Lines 164-168 over one chunk's window. */
  method AppendWindow<T, C, F>(seqResult: seq<(T, map<C, F>)>, classes: seq<C>, tokenSeq: seq<T>, probaSeq: seq<seq<F>>)
    returns (r: seq<(T, map<C, F>)>)
    ensures r == seqResult + Entries(classes, Zip(tokenSeq, probaSeq))
  {
    ghost var pairs := Zip(tokenSeq, probaSeq);
    ZipPairs(tokenSeq, probaSeq);
    r := seqResult;
    var k := 0;
    while k < |tokenSeq| && k < |probaSeq|
      invariant 0 <= k <= |pairs|
      invariant r + Entries(classes, pairs[k..]) == seqResult + Entries(classes, pairs)
    {
      assert pairs[k..][0] == (tokenSeq[k], probaSeq[k]) && pairs[k..][1..] == pairs[k + 1..];
      r := r + [(tokenSeq[k], Dict(Zip(classes, probaSeq[k])))];
      k := k + 1;
    }
  }

  /** The state of the loop of lines 147-173 after `i` chunks. */
  ghost predicate Inv<T, C, F>(b: ProbaBatch<T, F>, classes: seq<C>, step: int, i: nat,
                               seqResult: seq<(T, map<C, F>)>, result: seq<seq<(T, map<C, F>)>>)
  {
    Valid(b) && i <= Count(b) &&
    (i > 0 ==> seqResult == DocEntries(b, classes, step, i - 1)) &&
    result == ProbaRecords(b, classes, step, i)
  }

  /** One turn of the loop keeps `Inv`. */
  lemma {:induction false} ChunkStep<T, C, F>(b: ProbaBatch<T, F>, classes: seq<C>, step: int, i: nat,
                           seqResult: seq<(T, map<C, F>)>, result: seq<seq<(T, map<C, F>)>>)
    requires Inv(b, classes, step, i, seqResult, result) && i < Count(b)
    ensures var r := (if b.startsDoc[i] then [] else seqResult) + ChunkEntries(b, classes, step, i);
            if EndOfDoc(b.startsDoc, i) then Inv(b, classes, step, i + 1, r, result + [r])
            else Inv(b, classes, step, i + 1, r, result)
  {
    if b.startsDoc[i] {
      assert [] + ChunkEntries(b, classes, step, i) == ChunkEntries(b, classes, step, i);
    }
  }

  /** Lines 129-175, with `batch_probas = self._predict_proba(...)` and the
      encoded batch given as inputs and `startsDoc[i]` standing for the
      start-marker test. */
  method PredictProba<T, C, F>(classes: seq<C>, maxLength: Option<int>, configMaxLength: int,
                               startsDoc: seq<bool>, tokens: seq<seq<T>>, probas: seq<seq<seq<F>>>)
    returns (result: seq<seq<(T, map<C, F>)>>)
    requires Valid(ProbaBatch(startsDoc, tokens, probas))
    ensures result == ProbaRecords(ProbaBatch(startsDoc, tokens, probas), classes,
                                   StepSize(OrElse(maxLength, configMaxLength)), Count(ProbaBatch(startsDoc, tokens, probas)))
  {
    ghost var b := ProbaBatch(startsDoc, tokens, probas);
    var maxLen := OrElse(maxLength, configMaxLength);
    var chunkSize := maxLen - 2;
    var step := chunkSize / 3;
    assert step == StepSize(maxLen);
    result := [];
    var seqResult: seq<(T, map<C, F>)> := [];
    var n := if |tokens| <= |probas| then |tokens| else |probas|;
    var i := 0;
    while i < n
      invariant n == Count(b) && i <= n
      invariant Inv(b, classes, step, i, seqResult, result)
    {
      ChunkStep(b, classes, step, i, seqResult, result);
      var startOfDoc := startsDoc[i];
      var endOfDoc := i + 1 >= |startsDoc| || startsDoc[i + 1];
      if startOfDoc {
        seqResult := [];
      }
      var w := SelectWindow(startOfDoc, endOfDoc, step);
      assert w == ChunkWindow(startsDoc, step, i);
      seqResult := AppendWindow(seqResult, classes, Apply(w, tokens[i]), Apply(w, probas[i]));
      if endOfDoc {
        result := result + [seqResult];
      }
      i := i + 1;
    }
  }

  // ---------------------------------------------------------------- the records

  /** One list per end-of-document chunk seen. */
  lemma {:induction false} RecordsCount<T, C, F>(b: ProbaBatch<T, F>, classes: seq<C>, step: int, n: nat)
    requires Valid(b) && n <= Count(b)
    ensures |ProbaRecords(b, classes, step, n)| == EndsCount(b.startsDoc, n)
  {
    if n > 0 {
      RecordsCount(b, classes, step, n - 1);
    }
  }

  /** Later chunks only append lists. */
  lemma {:induction false} RecordsPrefix<T, C, F>(b: ProbaBatch<T, F>, classes: seq<C>, step: int, m: nat, n: nat, d: nat)
    requires Valid(b) && m <= n <= Count(b) && d < |ProbaRecords(b, classes, step, m)|
    ensures d < |ProbaRecords(b, classes, step, n)|
    ensures ProbaRecords(b, classes, step, n)[d] == ProbaRecords(b, classes, step, m)[d]
    decreases n
  {
    if m < n {
      RecordsPrefix(b, classes, step, m, n - 1, d);
    }
  }

  /** The list of the document that ends at chunk `e` is the `DocIndex(e)`-th. */
  lemma {:induction false} RecordOfDocument<T, C, F>(b: ProbaBatch<T, F>, classes: seq<C>, step: int, e: nat)
    requires Valid(b) && e < Count(b) && EndOfDoc(b.startsDoc, e)
    ensures 0 <= DocIndex(b.startsDoc, e) < |ProbaRecords(b, classes, step, Count(b))|
    ensures ProbaRecords(b, classes, step, Count(b))[DocIndex(b.startsDoc, e)] == DocEntries(b, classes, step, e)
  {
    var d := DocIndex(b.startsDoc, e);
    assert |ProbaRecords(b, classes, step, e)| == d by {
      RecordsCount(b, classes, step, e);
      EndChunkFlushesItsDocument(b.startsDoc, e);
    }
    assert d < |ProbaRecords(b, classes, step, e + 1)| && ProbaRecords(b, classes, step, e + 1)[d] == DocEntries(b, classes, step, e) by {
      assert ProbaRecords(b, classes, step, e + 1) == ProbaRecords(b, classes, step, e) + [DocEntries(b, classes, step, e)];
    }
    RecordsPrefix(b, classes, step, e + 1, Count(b), d);
  }

  /** When every chunk is scored, there is one list per document. */
  lemma {:induction false} OneRecordPerDocument<T, C, F>(b: ProbaBatch<T, F>, classes: seq<C>, step: int)
    requires Valid(b) && Count(b) == |b.startsDoc| > 0
    ensures |ProbaRecords(b, classes, step, Count(b))| == StartsCount(b.startsDoc, |b.startsDoc|)
  {
    RecordsCount(b, classes, step, Count(b));
    EveryDocumentEndsOnce(b.startsDoc);
  }

  // ---------------------------------------------------------------- the tiling

  /** Within a document, the entries are those of the tokens' windows zipped
      with the probability rows' windows, each stitched separately. */
  lemma {:induction false} DocEntriesZip<T, C, F>(b: ProbaBatch<T, F>, classes: seq<C>, step: int, i: nat)
    requires Valid(b) && i < Count(b)
    requires forall k :: 0 <= k <= i ==> |b.tokens[k]| == |b.probas[k]|
    ensures |DocWindows(b.startsDoc, b.tokens, step, i)| == |DocWindows(b.startsDoc, b.probas, step, i)|
    ensures DocEntries(b, classes, step, i)
         == Entries(classes, Zip(DocWindows(b.startsDoc, b.tokens, step, i), DocWindows(b.startsDoc, b.probas, step, i)))
    decreases i
  {
    var w := ChunkWindow(b.startsDoc, step, i);
    var tw, pw := Apply(w, b.tokens[i]), Apply(w, b.probas[i]);
    ApplyLength(w, b.tokens[i], b.probas[i]);
    if !b.startsDoc[i] {
      var ts, ps := DocWindows(b.startsDoc, b.tokens, step, i - 1), DocWindows(b.startsDoc, b.probas, step, i - 1);
      DocEntriesZip(b, classes, step, i - 1);
      ZipAppend(ts, tw, ps, pw);
      EntriesAppend(classes, Zip(ts, ps), Zip(tw, pw));
    }
  }

  /** A document's list has one entry per token of its chunks' windows. */
  lemma {:induction false} DocEntriesLength<T, C, F>(b: ProbaBatch<T, F>, classes: seq<C>, step: int, i: nat)
    requires Valid(b) && i < Count(b)
    requires forall k :: 0 <= k <= i ==> |b.tokens[k]| == |b.probas[k]|
    ensures |DocEntries(b, classes, step, i)| == |DocWindows(b.startsDoc, b.tokens, step, i)|
  {
    DocEntriesZip(b, classes, step, i);
  }

  /** Chunking does not change the outcome: when a document's token chunks
      are laid out at `step` strides over its whole token stream, its list
      pairs every token of the document, once and in order, with the map of
      the probability row that the chunk whose window holds it produced. Only
      the tokens are assumed to agree across overlapping chunks: each chunk is
      scored on its own, so the rows of shared tokens may differ. */
  lemma {:induction false} ChunkingIsTransparent<T, C, F>(b: ProbaBatch<T, F>, classes: seq<C>, step: nat, s: nat, e: nat,
                                       docTokens: seq<T>)
    requires Valid(b) && OneDocument(b.startsDoc, s, e) && e < Count(b)
    requires forall k :: 0 <= k <= e ==> |b.tokens[k]| == |b.probas[k]|
    requires IsLayout(docTokens, b.tokens[s..e + 1], step)
    ensures |DocWindows(b.startsDoc, b.probas, step, e)| == |docTokens|
    ensures DocEntries(b, classes, step, e)
         == Entries(classes, Zip(docTokens, DocWindows(b.startsDoc, b.probas, step, e)))
  {
    assert DocWindows(b.startsDoc, b.tokens, step, e) == docTokens by {
      DocWindowsStitched(b.startsDoc, b.tokens, step, s, e, e, e - s + 1);
      WindowsTileDocument(docTokens, b.tokens[s..e + 1], step);
    }
    DocEntriesZip(b, classes, step, e);
  }
}
