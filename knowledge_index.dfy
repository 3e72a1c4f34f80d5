/** `KnowledgeIndex.chunk_text`, identical in core/bot_workflow/knowledge.py
    and bot_workflow/knowledge.py: overlapping chunks of a text, each end
    pushed forward to the first `\b` found by `re.search` in the rest of the
    text. Python's `\w` is taken as its ASCII part. */
module KnowledgeIndex {
  import opened Base
  import opened Text

  const DEFAULT_CHUNK_SIZE := 2000
  const DEFAULT_OVERLAP := 400

  /** `\b` matches at `i`: a word character on exactly one side, the ends
      of `t` counting as non-word. */
  predicate IsBoundary(t: string, i: int)
  {
    0 <= i <= |t| && ((i > 0 && IsWordChar(t[i - 1])) != (i < |t| && IsWordChar(t[i])))
  }

  /** The first `\b` of `t` at or after `i`. */
  function FirstBoundary(t: string, i: nat): (r: Option<nat>)
    requires i <= |t| + 1
    ensures r.Some? ==> i <= r.value <= |t|
    decreases |t| + 1 - i
  {
    if i > |t| then None
    else if IsBoundary(t, i) then Some(i)
    else FirstBoundary(t, i + 1)
  }

  /** `FirstBoundary` finds a boundary with none before it, or reports that
      there is none. */
  lemma {:induction false} FirstBoundaryIsFirst(t: string, i: nat)
    requires i <= |t| + 1
    ensures var r := FirstBoundary(t, i);
            (r.Some? ==> IsBoundary(t, r.value) && forall j :: i <= j < r.value ==> !IsBoundary(t, j))
            && (r.None? ==> forall j :: i <= j <= |t| ==> !IsBoundary(t, j))
    decreases |t| + 1 - i
  {
    if i <= |t| && !IsBoundary(t, i) {
      FirstBoundaryIsFirst(t, i + 1);
    }
  }

  /** The boundary adjustment as written: `\b` searched in `text[end:]`, so
      the character before `end` is not looked at. */
  function AdjustEnd(text: string, end: nat): (e: nat)
    requires end <= |text|
    ensures end <= e <= |text|
  {
    if end < |text| then
      match FirstBoundary(text[end..], 0)
      case Some(b) => b + end
      case None => end
    else end
  }

  /** The end only moves forward, and it moves exactly when `text[end]` is
      not a word character and a word character follows; it then lands on
      the first such character. */
  lemma AdjustEndMoves(text: string, end: nat)
    requires end <= |text|
    ensures var e := AdjustEnd(text, end);
            (e != end <==> end < |text| && !IsWordChar(text[end])
                           && exists j :: end < j < |text| && IsWordChar(text[j]))
            && (e != end ==> e < |text| && IsWordChar(text[e]) && forall j :: end <= j < e ==> !IsWordChar(text[j]))
  {
    if end < |text| {
      var t := text[end..];
      if !IsWordChar(t[0]) {
        var r := FirstBoundary(t, 0);
        FirstBoundaryIsFirst(t, 0);
        var stop := if r.Some? then r.value else |t|;
        var j := 1;
        while j < stop
          invariant 1 <= j <= stop || (stop == 0 && j == 1)
          invariant forall k :: 0 <= k < j && k < |t| ==> !IsWordChar(t[k])
        {
          assert !IsBoundary(t, j);
          j := j + 1;
        }
        if r.Some? {
          assert r.value != 0;
          assert forall k :: end <= k < r.value + end ==> text[k] == t[k - end];
        } else {
          forall k | end < k < |text|
            ensures !IsWordChar(text[k])
          {
            assert text[k] == t[k - end];
          }
        }
      } else {
        assert IsBoundary(t, 0);
      }
    }
  }

  /** The slice bounds `chunk_text` produces from loop position `pos` on.
      `fixed` selects the corrected boundary search. */
  function Bounds(text: string, chunkSize: nat, overlap: nat, pos: nat, fixed: bool): (r: seq<(nat, nat)>)
    requires overlap < chunkSize && (pos == 0 || pos >= chunkSize)
    ensures forall k :: 0 <= k < |r| ==> r[k].0 <= r[k].1 <= |text|
    decreases |text| - pos
  {
    if pos >= |text| then []
    else
      var s := if pos == 0 then 0 else pos - overlap;
      var nominal := Min(pos + chunkSize, |text|);
      var e := if fixed then AdjustEndFixed(text, nominal) else AdjustEnd(text, nominal);
      [(s, e)] + Bounds(text, chunkSize, overlap, s + chunkSize, fixed)
  }

  function Slices(text: string, bounds: seq<(nat, nat)>): seq<string>
    requires forall k :: 0 <= k < |bounds| ==> bounds[k].0 <= bounds[k].1 <= |text|
  {
    seq(|bounds|, k requires 0 <= k < |bounds| => text[bounds[k].0..bounds[k].1])
  }

  /** `chunk_text(text, chunk_size, overlap)` as written. */
  function ChunkText(text: string, chunkSize: nat, overlap: nat): seq<string>
    requires overlap < chunkSize
  {
    Slices(text, Bounds(text, chunkSize, overlap, 0, false))
  }

  /** The loop of `chunk_text`. The source has no guard: with an overlap
      not below the chunk size the position stops growing and the loop
      does not end, so such calls are outside the model. */
  method ChunkTextLoop(text: string, chunkSize: nat, overlap: nat) returns (chunks: seq<string>)
    requires overlap < chunkSize
    ensures chunks == ChunkText(text, chunkSize, overlap)
  {
    chunks := [];
    var start: nat := 0;
    while start < |text|
      invariant start == 0 || start >= chunkSize
      invariant chunks + Slices(text, Bounds(text, chunkSize, overlap, start, false)) == ChunkText(text, chunkSize, overlap)
      decreases |text| - start
    {
      ghost var pos := start;
      BoundsStep(text, chunkSize, overlap, pos, false);
      var end := Min(start + chunkSize, |text|);
      if start != 0 {
        start := start - overlap;
      }
      if end < |text| {
        var boundary := FirstBoundary(text[end..], 0);
        if boundary.Some? {
          end := boundary.value + end;
        }
      }
      assert end == AdjustEnd(text, Min(pos + chunkSize, |text|));
      ghost var rest := Bounds(text, chunkSize, overlap, start + chunkSize, false);
      assert Bounds(text, chunkSize, overlap, pos, false) == [(start, end)] + rest;
      SlicesCons(text, (start, end), rest);
      assert (chunks + [text[start..end]]) + Slices(text, rest) == chunks + ([text[start..end]] + Slices(text, rest));
      chunks := chunks + [text[start..end]];
      start := start + chunkSize;
    }
  }

  /** One iteration of the loop from position `pos`. */
  lemma BoundsStep(text: string, chunkSize: nat, overlap: nat, pos: nat, fixed: bool)
    requires overlap < chunkSize && (pos == 0 || pos >= chunkSize) && pos < |text|
    ensures var s := if pos == 0 then 0 else pos - overlap;
            var nominal := Min(pos + chunkSize, |text|);
            Bounds(text, chunkSize, overlap, pos, fixed)
            == [(s, if fixed then AdjustEndFixed(text, nominal) else AdjustEnd(text, nominal))]
               + Bounds(text, chunkSize, overlap, s + chunkSize, fixed)
  {
  }

  lemma SlicesCons(text: string, b: (nat, nat), rest: seq<(nat, nat)>)
    requires b.0 <= b.1 <= |text|
    requires forall k :: 0 <= k < |rest| ==> rest[k].0 <= rest[k].1 <= |text|
    ensures Slices(text, [b] + rest) == [text[b.0..b.1]] + Slices(text, rest)
  {
  }

  /** The chunks cover the text: none for an empty text; otherwise the first
      starts at 0 and the last ends at the text's end. */
  lemma ChunksCoverText(text: string, chunkSize: nat, overlap: nat, fixed: bool)
    requires overlap < chunkSize
    ensures var b := Bounds(text, chunkSize, overlap, 0, fixed);
            (b == [] <==> text == [])
            && (b != [] ==> b[0].0 == 0 && b[|b| - 1].1 == |text|)
  {
    if text != [] {
      LastBoundEnds(text, chunkSize, overlap, 0, fixed);
    }
  }

  lemma {:induction false} LastBoundEnds(text: string, chunkSize: nat, overlap: nat, pos: nat, fixed: bool)
    requires overlap < chunkSize && (pos == 0 || pos >= chunkSize) && pos < |text|
    ensures var b := Bounds(text, chunkSize, overlap, pos, fixed);
            b != [] && b[|b| - 1].1 == |text|
    decreases |text| - pos
  {
    var s := if pos == 0 then 0 else pos - overlap;
    if s + chunkSize < |text| {
      LastBoundEnds(text, chunkSize, overlap, s + chunkSize, fixed);
    } else {
      assert Min(pos + chunkSize, |text|) == |text|;
    }
  }

  /** The first chunk starts at 0 and each next one chunk_size - overlap
      characters later; each chunk starts no later than the previous one
      ends (strictly before it when the overlap is positive): the chunks
      leave no gap. */
  lemma ChunksOverlap(text: string, chunkSize: nat, overlap: nat, fixed: bool)
    requires overlap < chunkSize
    ensures var b := Bounds(text, chunkSize, overlap, 0, fixed);
            (b != [] ==> b[0].0 == 0)
            && forall k :: 0 <= k < |b| - 1 ==>
                 b[k + 1].0 == b[k].0 + (chunkSize - overlap)
                 && b[k + 1].0 <= b[k].1 && (overlap > 0 ==> b[k + 1].0 < b[k].1)
  {
    var b := Bounds(text, chunkSize, overlap, 0, fixed);
    forall k | 0 <= k < |b| - 1
      ensures b[k + 1].0 == b[k].0 + (chunkSize - overlap)
              && b[k + 1].0 <= b[k].1 && (overlap > 0 ==> b[k + 1].0 < b[k].1)
    {
      BoundsLink(text, chunkSize, overlap, 0, fixed, k);
    }
  }

  /** Chunks `k` and `k + 1` of the bounds computed from `pos`. */
  lemma {:induction false} BoundsLink(text: string, chunkSize: nat, overlap: nat, pos: nat, fixed: bool, k: nat)
    requires overlap < chunkSize && (pos == 0 || pos >= chunkSize)
    requires k + 1 < |Bounds(text, chunkSize, overlap, pos, fixed)|
    ensures var b := Bounds(text, chunkSize, overlap, pos, fixed);
            b[k + 1].0 == b[k].0 + (chunkSize - overlap)
            && b[k + 1].0 <= b[k].1 && (overlap > 0 ==> b[k + 1].0 < b[k].1)
    decreases k
  {
    var s := if pos == 0 then 0 else pos - overlap;
    var next := s + chunkSize;
    BoundsStep(text, chunkSize, overlap, pos, fixed);
    if k == 0 {
      HeadLink(text, chunkSize, overlap, pos, fixed);
    } else {
      BoundsLink(text, chunkSize, overlap, next, fixed, k - 1);
    }
  }

  /** The first two chunks from position `pos`. */
  lemma HeadLink(text: string, chunkSize: nat, overlap: nat, pos: nat, fixed: bool)
    requires overlap < chunkSize && (pos == 0 || pos >= chunkSize)
    requires |Bounds(text, chunkSize, overlap, pos, fixed)| >= 2
    ensures var b := Bounds(text, chunkSize, overlap, pos, fixed);
            b[1].0 == b[0].0 + (chunkSize - overlap)
            && b[1].0 <= b[0].1 && (overlap > 0 ==> b[1].0 < b[0].1)
  {
    var s := if pos == 0 then 0 else pos - overlap;
    var next := s + chunkSize;
    BoundsStep(text, chunkSize, overlap, pos, fixed);
    BoundsStep(text, chunkSize, overlap, next, fixed);
    var b := Bounds(text, chunkSize, overlap, pos, fixed);
    assert b[0].0 == s && b[0].1 >= Min(pos + chunkSize, |text|);
    assert b[1].0 == next - overlap;
  }

  /** The corrected adjustment: `\b` searched in the whole text from `end`,
      so the character before `end` counts. */
  function AdjustEndFixed(text: string, end: nat): (e: nat)
    requires end <= |text|
    ensures end <= e <= |text|
  {
    if end < |text| then
      match FirstBoundary(text, end)
      case Some(b) => b
      case None => end
    else end
  }

  /** `chunk_text` with the corrected boundary search. */
  function ChunkTextFixed(text: string, chunkSize: nat, overlap: nat): seq<string>
    requires overlap < chunkSize
  {
    Slices(text, Bounds(text, chunkSize, overlap, 0, true))
  }

  /** As written, a word can be cut: "ab" in chunks of one character splits
      into "a" and "b", because `\b` matches at the start of "b". */
  lemma ChunkTextCutsWords()
    ensures ChunkText("ab", 1, 0) == ["a", "b"]
  {
    assert AdjustEnd("ab", 1) == 1 by {
      assert "ab"[1..] == "b";
      assert IsBoundary("b", 0);
      assert FirstBoundary("b", 0) == Some(0);
    }
    assert AdjustEnd("ab", 2) == 2;
    assert Bounds("ab", 1, 0, 2, false) == [];
    assert Bounds("ab", 1, 0, 1, false) == [(1, 2)] by {
      BoundsStep("ab", 1, 0, 1, false);
    }
    assert Bounds("ab", 1, 0, 0, false) == [(0, 1), (1, 2)] by {
      BoundsStep("ab", 1, 0, 0, false);
    }
    assert "ab"[0..1] == "a" && "ab"[1..2] == "b";
  }

  /** With the corrected search no chunk ends between two word characters. */
  lemma FixedChunksEndOnWordEdges(text: string, chunkSize: nat, overlap: nat)
    requires overlap < chunkSize
    ensures var b := Bounds(text, chunkSize, overlap, 0, true);
            forall k :: 0 <= k < |b| && 0 < b[k].1 < |text| ==>
              !(IsWordChar(text[b[k].1 - 1]) && IsWordChar(text[b[k].1]))
  {
    FixedBoundsEndOnWordEdges(text, chunkSize, overlap, 0);
  }

  lemma {:induction false} FixedBoundsEndOnWordEdges(text: string, chunkSize: nat, overlap: nat, pos: nat)
    requires overlap < chunkSize && (pos == 0 || pos >= chunkSize)
    ensures var b := Bounds(text, chunkSize, overlap, pos, true);
            forall k :: 0 <= k < |b| && 0 < b[k].1 < |text| ==>
              !(IsWordChar(text[b[k].1 - 1]) && IsWordChar(text[b[k].1]))
    decreases |text| - pos
  {
    if pos < |text| {
      var s := if pos == 0 then 0 else pos - overlap;
      var b := Bounds(text, chunkSize, overlap, pos, true);
      var rest := Bounds(text, chunkSize, overlap, s + chunkSize, true);
      FixedBoundsEndOnWordEdges(text, chunkSize, overlap, s + chunkSize);
      AdjustEndFixedOnEdge(text, Min(pos + chunkSize, |text|));
      BoundsStep(text, chunkSize, overlap, pos, true);
      assert b == [b[0]] + rest;
      forall k | 0 < k < |b|
        ensures b[k] == rest[k - 1]
      {
      }
    }
  }

  /** The corrected end is never between two word characters. */
  lemma AdjustEndFixedOnEdge(text: string, end: nat)
    requires end <= |text|
    ensures var e := AdjustEndFixed(text, end);
            0 < e < |text| ==> !(IsWordChar(text[e - 1]) && IsWordChar(text[e]))
  {
    FirstBoundaryIsFirst(text, end);
    if end < |text| && FirstBoundary(text, end).None? {
      NoBoundaryNoWord(text, end);
    }
  }

  /** With no `\b` from `end` on, every character from `end` on is a
      non-word character. */
  lemma NoBoundaryNoWord(text: string, end: nat)
    requires end < |text| && FirstBoundary(text, end).None?
    ensures !IsWordChar(text[end])
  {
    FirstBoundaryIsFirst(text, end);
    assert !IsBoundary(text, |text|);
    var j := |text| - 1;
    while j > end
      invariant end <= j < |text|
      invariant forall k :: j <= k < |text| ==> !IsWordChar(text[k])
    {
      assert !IsBoundary(text, j);
      j := j - 1;
    }
  }
}
