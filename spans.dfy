/** The hard-label merge of one document: the inner loop of
    `SequenceLabeler.predict`, which walks (label, char location) pairs,
    skips padding, and run-length merges equal labels into text spans. */
module Spans {
  import opened PythonSeq

  /** The char location the tokenizer gives padding and special tokens. */
  const Sentinel := -1

  /** A stretch of document text and the label it carries. */
  datatype Span<L> = Span(text: string, tag: L)

  /** One document's accumulator: `doc_subseqs`, `doc_labels`, `start_of_token`. */
  datatype DocAcc<L> = DocAcc(subseqs: seq<string>, labels: seq<L>, cursor: int)

  /** The accumulator as a start-of-document chunk resets it. */
  function EmptyAcc<L>(): DocAcc<L>
  {
    DocAcc([], [], 0)
  }

  predicate WellFormed<L>(acc: DocAcc<L>)
  {
    |acc.subseqs| == |acc.labels|
  }

  /** The spans an accumulator holds, text `k` paired with label `k`. */
  function SpanList<L>(subseqs: seq<string>, labels: seq<L>): seq<Span<L>>
    requires |subseqs| == |labels|
  {
    seq(|labels|, k requires 0 <= k < |labels| => Span(subseqs[k], labels[k]))
  }

  function SpansOf<L>(acc: DocAcc<L>): seq<Span<L>>
    requires WellFormed(acc)
  {
    SpanList(acc.subseqs, acc.labels)
  }

  /** The spans' texts, concatenated. */
  function Joined<L>(spans: seq<Span<L>>): string
    decreases |spans|
  {
    if spans == [] then [] else spans[0].text + Joined(spans[1..])
  }

  lemma {:induction false} JoinedSpanList<L>(subseqs: seq<string>, labels: seq<L>)
    requires |subseqs| == |labels|
    ensures Joined(SpanList(subseqs, labels)) == Concat(subseqs)
    decreases |labels|
  {
    if labels != [] {
      assert SpanList(subseqs, labels)[1..] == SpanList(subseqs[1..], labels[1..]);
      JoinedSpanList(subseqs[1..], labels[1..]);
    }
  }

  /** `"".join(ss)` */
  function Concat(ss: seq<string>): string
  {
    if ss == [] then [] else ss[0] + Concat(ss[1..])
  }

  // ---------------------------------------------------------------- the merge

  /** One iteration of the merge loop: a sentinel position is skipped; otherwise
      the text from the cursor to `position` opens a new span when there is no
      span yet or the label differs from the last span's, and is appended to the
      last span when the label is the same; the cursor moves to `position`. The
      precondition is what `doc_labels[-1]` needs. */
  function MergeToken<L(==)>(acc: DocAcc<L>, text: string, tag: L, position: int): (r: DocAcc<L>)
    requires acc.subseqs != [] ==> acc.labels != []
    ensures WellFormed(acc) ==> WellFormed(r)
    ensures position == Sentinel ==> r == acc
    ensures position != Sentinel ==> r.cursor == position && r.labels != [] && r.labels[|r.labels| - 1] == tag
    ensures position != Sentinel && WellFormed(acc) ==>
      (|r.labels| == |acc.labels| + 1 <==> acc.labels == [] || tag != acc.labels[|acc.labels| - 1])
  {
    if position == Sentinel then acc
    else
      var piece := Slice(text, acc.cursor, position);
      if acc.subseqs == [] || tag != acc.labels[|acc.labels| - 1] then
        DocAcc(acc.subseqs + [piece], acc.labels + [tag], position)
      else
        DocAcc(acc.subseqs[..|acc.subseqs| - 1] + [acc.subseqs[|acc.subseqs| - 1] + piece], acc.labels, position)
  }

  /** The merge loop run over `tokens`, left to right. */
  function MergeTokens<L(==)>(acc: DocAcc<L>, text: string, tokens: seq<(L, int)>): (r: DocAcc<L>)
    requires WellFormed(acc)
    ensures WellFormed(r)
    decreases |tokens|
  {
    if tokens == [] then acc
    else MergeTokens(MergeToken(acc, text, tokens[0].0, tokens[0].1), text, tokens[1..])
  }

  /** Merging two stretches of tokens in turn is merging their concatenation, so
      a document's chunks can be merged one after another. */
  lemma {:induction false} MergeTokensAppend<L>(acc: DocAcc<L>, text: string, a: seq<(L, int)>, b: seq<(L, int)>)
    requires WellFormed(acc)
    ensures MergeTokens(acc, text, a + b) == MergeTokens(MergeTokens(acc, text, a), text, b)
    decreases |a|
  {
    if a == [] {
      assert a + b == b;
    } else {
      assert (a + b)[0] == a[0] && (a + b)[1..] == a[1..] + b;
      MergeTokensAppend(MergeToken(acc, text, a[0].0, a[0].1), text, a[1..], b);
    }
  }

  /** The tokens that are not padding. */
  function Kept<L>(tokens: seq<(L, int)>): (r: seq<(L, int)>)
    ensures |r| <= |tokens|
    ensures forall k :: 0 <= k < |r| ==> r[k].1 != Sentinel
    ensures forall k :: 0 <= k < |r| ==> r[k] in tokens
    ensures forall k :: 0 <= k < |tokens| && tokens[k].1 != Sentinel ==> tokens[k] in r
  {
    if tokens == [] then []
    else if tokens[0].1 == Sentinel then Kept(tokens[1..])
    else [tokens[0]] + Kept(tokens[1..])
  }

  /** Filtering keeps order: the kept tokens of a concatenation are the kept
      tokens of each part, in turn. */
  lemma {:induction false} KeptAppend<L>(a: seq<(L, int)>, b: seq<(L, int)>)
    ensures Kept(a + b) == Kept(a) + Kept(b)
    decreases |a|
  {
    if a == [] {
      assert a + b == b;
    } else {
      assert (a + b)[0] == a[0] && (a + b)[1..] == a[1..] + b;
      KeptAppend(a[1..], b);
    }
  }

  /** Padding positions change nothing: the merge over a stream equals the merge
      over its non-padding tokens alone. */
  lemma {:induction false} SentinelsChangeNothing<L>(acc: DocAcc<L>, text: string, tokens: seq<(L, int)>)
    requires WellFormed(acc)
    ensures MergeTokens(acc, text, tokens) == MergeTokens(acc, text, Kept(tokens))
    decreases |tokens|
  {
    if tokens != [] {
      var acc' := MergeToken(acc, text, tokens[0].0, tokens[0].1);
      SentinelsChangeNothing(acc', text, tokens[1..]);
      if tokens[0].1 != Sentinel {
        var k := Kept(tokens);
        assert k[0] == tokens[0] && k[1..] == Kept(tokens[1..]);
      }
    }
  }

  // ---------------------------------------------------------------- reference

  /** The piece of text each non-padding token covers: from the previous
      non-padding token's char location (or `cursor`) to its own. */
  function Pieces<L>(cursor: int, text: string, tokens: seq<(L, int)>): seq<Span<L>>
    decreases |tokens|
  {
    if tokens == [] then []
    else if tokens[0].1 == Sentinel then Pieces(cursor, text, tokens[1..])
    else [Span(Slice(text, cursor, tokens[0].1), tokens[0].0)] + Pieces(tokens[0].1, text, tokens[1..])
  }

  /** Where the cursor ends up: the last non-padding char location, or `cursor`. */
  function Cursor<L>(cursor: int, tokens: seq<(L, int)>): int
    decreases |tokens|
  {
    if tokens == [] then cursor
    else if tokens[0].1 == Sentinel then Cursor(cursor, tokens[1..])
    else Cursor(tokens[0].1, tokens[1..])
  }

  /** One piece per non-padding token. */
  lemma {:induction false} PiecesPerKeptToken<L>(cursor: int, text: string, tokens: seq<(L, int)>)
    ensures |Pieces(cursor, text, tokens)| == |Kept(tokens)|
    decreases |tokens|
  {
    if tokens != [] {
      if tokens[0].1 == Sentinel {
        PiecesPerKeptToken(cursor, text, tokens[1..]);
      } else {
        PiecesPerKeptToken(tokens[0].1, text, tokens[1..]);
      }
    }
  }

  lemma {:induction false} CursorAppend<L>(cursor: int, a: seq<(L, int)>, b: seq<(L, int)>)
    ensures Cursor(cursor, a + b) == Cursor(Cursor(cursor, a), b)
    decreases |a|
  {
    if a == [] {
      assert a + b == b;
    } else {
      assert (a + b)[0] == a[0] && (a + b)[1..] == a[1..] + b;
      CursorAppend(if a[0].1 == Sentinel then cursor else a[0].1, a[1..], b);
    }
  }

  lemma {:induction false} PiecesAppend<L>(cursor: int, text: string, a: seq<(L, int)>, b: seq<(L, int)>)
    ensures Pieces(cursor, text, a + b) == Pieces(cursor, text, a) + Pieces(Cursor(cursor, a), text, b)
    ensures Cursor(cursor, a + b) == Cursor(Cursor(cursor, a), b)
    decreases |a|
  {
    CursorAppend(cursor, a, b);
    if a == [] {
      assert a + b == b;
    } else {
      var c := if a[0].1 == Sentinel then cursor else a[0].1;
      var head := if a[0].1 == Sentinel then [] else [Span(Slice(text, cursor, a[0].1), a[0].0)];
      assert (a + b)[0] == a[0] && (a + b)[1..] == a[1..] + b;
      assert Pieces(cursor, text, a + b) == head + Pieces(c, text, a[1..] + b);
      assert Pieces(cursor, text, a) == head + Pieces(c, text, a[1..]);
      assert Cursor(cursor, a) == Cursor(c, a[1..]);
      PiecesAppend(c, text, a[1..], b);
    }
  }

  /** How often the label changes between neighbouring pieces. */
  function LabelChanges<L(==)>(pieces: seq<Span<L>>): nat
  {
    if |pieces| < 2 then 0
    else (if pieces[0].tag != pieces[1].tag then 1 else 0) + LabelChanges(pieces[1..])
  }

  /** No two neighbouring spans carry the same label. */
  ghost predicate Maximal<L>(spans: seq<Span<L>>)
  {
    forall k :: 0 < k < |spans| ==> spans[k - 1].tag != spans[k].tag
  }

  /** A piece put in front of a grouping: it joins the first span when the
      labels agree and becomes a span of its own otherwise. */
  function Prepend<L(==)>(p: Span<L>, g: seq<Span<L>>): seq<Span<L>>
  {
    if g != [] && g[0].tag == p.tag then [Span(p.text + g[0].text, p.tag)] + g[1..] else [p] + g
  }

  /** The reference grouping: pieces are cut into maximal runs of one label and
      each run becomes one span whose text is the run's texts in order. */
  function Group<L(==)>(pieces: seq<Span<L>>): (g: seq<Span<L>>)
    ensures pieces != [] ==> g != [] && g[0].tag == pieces[0].tag
    ensures pieces == [] ==> g == []
    ensures pieces != [] ==> |g| == 1 + LabelChanges(pieces)
    ensures Maximal(g)
    ensures Joined(g) == Joined(pieces)
    decreases |pieces|
  {
    if pieces == [] then []
    else
      var g := Group(pieces[1..]);
      PrependGroup(pieces, g);
      Prepend(pieces[0], g)
  }

  /** The step of `Group`: the first piece put in front of a grouping of the
      rest groups all the pieces. */
  lemma {:induction false} PrependGroup<L>(pieces: seq<Span<L>>, g: seq<Span<L>>)
    requires pieces != []
    requires pieces[1..] == [] ==> g == []
    requires pieces[1..] != [] ==> g != [] && g[0].tag == pieces[1].tag && |g| == 1 + LabelChanges(pieces[1..])
    requires Maximal(g) && Joined(g) == Joined(pieces[1..])
    ensures Prepend(pieces[0], g) != [] && Prepend(pieces[0], g)[0].tag == pieces[0].tag
    ensures |Prepend(pieces[0], g)| == 1 + LabelChanges(pieces)
    ensures Maximal(Prepend(pieces[0], g))
    ensures Joined(Prepend(pieces[0], g)) == Joined(pieces)
  {
    var p, r := pieces[0], Prepend(pieces[0], g);
    assert r[1..] == if g != [] && g[0].tag == p.tag then g[1..] else g;
  }

  /** What one more piece does to a grouping: it joins the last span when the
      labels agree and becomes a span of its own otherwise. */
  function AddPiece<L(==)>(g: seq<Span<L>>, q: Span<L>): seq<Span<L>>
  {
    if g == [] || g[|g| - 1].tag != q.tag then g + [q]
    else g[..|g| - 1] + [Span(g[|g| - 1].text + q.text, q.tag)]
  }

  lemma {:induction false} AddPieceCons<L>(x: Span<L>, g: seq<Span<L>>, q: Span<L>)
    requires g != []
    ensures AddPiece([x] + g, q) == [x] + AddPiece(g, q)
  {
    assert ([x] + g)[|g|] == g[|g| - 1];
    assert ([x] + g)[..|g|] == [x] + g[..|g| - 1];
  }

  /** Adding a piece at either end of a grouping commutes. */
  lemma {:induction false} PrependAddPiece<L>(p: Span<L>, g: seq<Span<L>>, q: Span<L>)
    ensures Prepend(p, AddPiece(g, q)) == AddPiece(Prepend(p, g), q)
  {
    if g == [] {
      assert AddPiece(g, q) == [q];
      assert Prepend(p, g) == [p];
    } else {
      var a := AddPiece(g, q);
      assert g == [g[0]] + g[1..];
      if |g| == 1 {
        assert a == if g[0].tag != q.tag then [g[0], q] else [Span(g[0].text + q.text, q.tag)];
        if g[0].tag == p.tag {
          assert Prepend(p, g) == [Span(p.text + g[0].text, p.tag)];
          assert a[0].tag == p.tag;
          if g[0].tag == q.tag {
            assert p.text + (g[0].text + q.text) == (p.text + g[0].text) + q.text;
          }
        } else {
          assert Prepend(p, g) == [p] + g;
          AddPieceCons(p, g, q);
        }
      } else {
        AddPieceCons(g[0], g[1..], q);
        assert a == [g[0]] + AddPiece(g[1..], q);
        if g[0].tag == p.tag {
          AddPieceCons(Span(p.text + g[0].text, p.tag), g[1..], q);
        } else {
          AddPieceCons(p, g, q);
        }
      }
    }
  }

  lemma {:induction false} GroupSnoc<L>(pieces: seq<Span<L>>, q: Span<L>)
    ensures Group(pieces + [q]) == AddPiece(Group(pieces), q)
    decreases |pieces|
  {
    if pieces == [] {
      assert pieces + [q] == [q];
      assert Group([q]) == Prepend(q, Group([]));
    } else {
      var p, rest := pieces[0], pieces[1..];
      assert (pieces + [q])[0] == p && (pieces + [q])[1..] == rest + [q];
      GroupSnoc(rest, q);
      PrependAddPiece(p, Group(rest), q);
    }
  }

  /** The merge state machine computes the reference grouping: started from an
      accumulator that holds the grouping of `done`, merging `tokens` leaves the
      grouping of `done` followed by the tokens' pieces. */
  lemma {:induction false} MergeTokensGroups<L>(acc: DocAcc<L>, text: string, tokens: seq<(L, int)>, done: seq<Span<L>>)
    requires WellFormed(acc) && SpansOf(acc) == Group(done)
    ensures SpansOf(MergeTokens(acc, text, tokens)) == Group(done + Pieces(acc.cursor, text, tokens))
    ensures MergeTokens(acc, text, tokens).cursor == Cursor(acc.cursor, tokens)
    decreases |tokens|
  {
    if tokens == [] {
      assert done + [] == done;
    } else {
      var (tag, position) := tokens[0];
      var acc' := MergeToken(acc, text, tag, position);
      if position == Sentinel {
        MergeTokensGroups(acc', text, tokens[1..], done);
      } else {
        var q := Span(Slice(text, acc.cursor, position), tag);
        assert SpansOf(acc') == Group(done + [q]) by {
          MergeTokenAddsPiece(acc, text, tag, position);
          GroupSnoc(done, q);
        }
        var rest := Pieces(position, text, tokens[1..]);
        assert Pieces(acc.cursor, text, tokens) == [q] + rest;
        ConcatAssoc(done, [q], rest);
        MergeTokensGroups(acc', text, tokens[1..], done + [q]);
      }
    }
  }

  lemma ConcatAssoc<T>(a: seq<T>, b: seq<T>, c: seq<T>)
    ensures a + b + c == a + (b + c)
  {
  }

  lemma {:induction false} MergeTokenAddsPiece<L>(acc: DocAcc<L>, text: string, tag: L, position: int)
    requires WellFormed(acc) && position != Sentinel
    ensures SpansOf(MergeToken(acc, text, tag, position)) == AddPiece(SpansOf(acc), Span(Slice(text, acc.cursor, position), tag))
  {
    var r := MergeToken(acc, text, tag, position);
    var a := AddPiece(SpansOf(acc), Span(Slice(text, acc.cursor, position), tag));
    assert |SpansOf(r)| == |a|;
    forall k | 0 <= k < |a| ensures SpansOf(r)[k] == a[k] {
    }
  }

  /** For one document — accumulator reset, cursor at 0 — the spans the merge
      leaves are the maximal runs of equal labels over the non-padding tokens'
      pieces of text; in particular neighbouring spans never share a label. */
  lemma {:induction false} DocumentSpans<L>(text: string, tokens: seq<(L, int)>)
    ensures SpansOf(MergeTokens(EmptyAcc(), text, tokens)) == Group(Pieces(0, text, tokens))
    ensures MergeTokens(EmptyAcc(), text, tokens).cursor == Cursor(0, tokens)
    ensures Maximal(SpansOf(MergeTokens(EmptyAcc(), text, tokens)))
  {
    MergeTokensGroups(EmptyAcc(), text, tokens, []);
    assert [] + Pieces(0, text, tokens) == Pieces(0, text, tokens);
  }

  // ---------------------------------------------------------------- text coverage

  /** The non-padding char locations never move backwards from `cursor` and
      never pass the end of the text. */
  ghost predicate Monotone<L>(cursor: int, tokens: seq<(L, int)>, n: nat)
    decreases |tokens|
  {
    if tokens == [] then true
    else if tokens[0].1 == Sentinel then Monotone(cursor, tokens[1..], n)
    else cursor <= tokens[0].1 <= n && Monotone(tokens[0].1, tokens[1..], n)
  }

  /** Under monotone char locations the pieces cover the text from `cursor` to
      the final cursor, each character once and in order. */
  lemma {:induction false} PiecesCoverText<L>(cursor: int, text: string, tokens: seq<(L, int)>)
    requires 0 <= cursor <= |text| && Monotone(cursor, tokens, |text|)
    ensures cursor <= Cursor(cursor, tokens) <= |text|
    ensures Joined(Pieces(cursor, text, tokens)) == text[cursor..Cursor(cursor, tokens)]
    decreases |tokens|
  {
    if tokens != [] {
      var p := tokens[0].1;
      if p == Sentinel {
        PiecesCoverText(cursor, text, tokens[1..]);
      } else {
        PiecesCoverText(p, text, tokens[1..]);
        var rest := Pieces(p, text, tokens[1..]);
        var ps := Pieces(cursor, text, tokens);
        assert ps == [Span(text[cursor..p], tokens[0].0)] + rest;
        assert ps[1..] == rest;
        assert Joined(ps) == text[cursor..p] + text[p..Cursor(p, tokens[1..])];
        SliceSplit(text, cursor, p, Cursor(p, tokens[1..]));
      }
    }
  }

  /** No character is dropped or duplicated: when a document's char locations
      are monotone, its spans concatenated are the text up to the cursor. */
  lemma {:induction false} DocumentCoversText<L>(text: string, tokens: seq<(L, int)>)
    requires Monotone(0, tokens, |text|)
    ensures var r := MergeTokens(EmptyAcc(), text, tokens);
            0 <= r.cursor <= |text| && Concat(r.subseqs) == text[..r.cursor]
  {
    var r := MergeTokens(EmptyAcc(), text, tokens);
    DocumentSpans(text, tokens);
    PiecesCoverText(0, text, tokens);
    JoinedSpanList(r.subseqs, r.labels);
  }

  // ---------------------------------------------------------------- the loop

  /** Lines 87-102 as the source runs them over one chunk's window. */
  method MergeWindow<L(==)>(docSubseqs: seq<string>, docLabels: seq<L>, startOfToken: int,
                            text: string, labelSeq: seq<L>, positionSeq: seq<int>)
    returns (subseqs: seq<string>, labels: seq<L>, cursor: int)
    requires |docSubseqs| == |docLabels|
    ensures DocAcc(subseqs, labels, cursor)
         == MergeTokens(DocAcc(docSubseqs, docLabels, startOfToken), text, Zip(labelSeq, positionSeq))
  {
    ghost var tokens := Zip(labelSeq, positionSeq);
    ZipPairs(labelSeq, positionSeq);
    ghost var goal := MergeTokens(DocAcc(docSubseqs, docLabels, startOfToken), text, tokens);
    subseqs, labels, cursor := docSubseqs, docLabels, startOfToken;
    var k := 0;
    while k < |labelSeq| && k < |positionSeq|
      invariant 0 <= k <= |tokens|
      invariant |subseqs| == |labels|
      invariant MergeTokens(DocAcc(subseqs, labels, cursor), text, tokens[k..]) == goal
    {
      var tag, position := labelSeq[k], positionSeq[k];
      assert tokens[k..][0] == (tag, position) && tokens[k..][1..] == tokens[k + 1..];
      k := k + 1;
      if position == Sentinel {
        continue;
      }
      if subseqs == [] || tag != labels[|labels| - 1] {
        subseqs := subseqs + [Slice(text, cursor, position)];
        labels := labels + [tag];
      } else {
        subseqs := subseqs[..|subseqs| - 1] + [subseqs[|subseqs| - 1] + Slice(text, cursor, position)];
      }
      cursor := position;
    }
  }
}
