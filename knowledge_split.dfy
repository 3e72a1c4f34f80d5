/** `Knowledge.split_into_chunks` and `Knowledge.split_into_paragraphs` of
    the first revision (knowledge.py): the word packer that groups the words
    of a file into chunks of at most `chunk_size` characters, and the
    paragraph filter. Reading the files and indexing the pieces are I/O and
    are not modelled. */
module KnowledgeSplit {
  import opened Base
  import opened Text

  const DEFAULT_CHUNK_SIZE := 1000
  const DEFAULT_MAX_PARAGRAPH_LENGTH := 8192 * 3
  const DEFAULT_MIN_PARAGRAPH_LENGTH := 10

  /** The loop state of `split_into_chunks`: the chunks emitted so far and
      `current_chunk`. */
  datatype Packing = Packing(chunks: seq<string>, current: string)

  /** One word of the loop. A word that would make the current chunk longer
      than `chunkSize` (counting a joining space even when the chunk is
      empty) flushes the current chunk and starts a new one; otherwise it is
      appended after a space, or alone when the chunk is empty. With `fixed`
      an empty current chunk is never flushed. */
  function Step(st: Packing, word: string, chunkSize: int, fixed: bool): Packing
  {
    if |st.current| + |word| + 1 > chunkSize && !(fixed && st.current == "") then
      Packing(st.chunks + [st.current], word)
    else if st.current != "" then
      Packing(st.chunks, st.current + " " + word)
    else
      Packing(st.chunks, word)
  }

  /** The loop state after the given words. */
  function Pack(words: seq<string>, chunkSize: int, fixed: bool): Packing
    decreases |words|
  {
    if words == [] then Packing([], "")
    else Step(Pack(words[..|words| - 1], chunkSize, fixed), words[|words| - 1], chunkSize, fixed)
  }

  /** After the loop, a non-empty current chunk is emitted as the last one. */
  function Finish(st: Packing): seq<string>
  {
    if st.current != "" then st.chunks + [st.current] else st.chunks
  }

  /** `split_into_chunks(content, chunk_size)` as written (`fixed` false),
      or with the empty-chunk flush removed (`fixed` true). */
  function SplitIntoChunks(content: string, chunkSize: int, fixed: bool): seq<string>
  {
    Finish(Pack(SplitWs(content), chunkSize, fixed))
  }

  /** The loop of `split_into_chunks`. */
  method SplitIntoChunksLoop(content: string, chunkSize: int, fixed: bool) returns (chunks: seq<string>)
    ensures chunks == SplitIntoChunks(content, chunkSize, fixed)
  {
    chunks := [];
    var current := "";
    var words := SplitWs(content);
    for i := 0 to |words|
      invariant Packing(chunks, current) == Pack(words[..i], chunkSize, fixed)
    {
      assert words[..i + 1][..i] == words[..i];
      if |current| + |words[i]| + 1 > chunkSize && !(fixed && current == "") {
        chunks := chunks + [current];
        current := words[i];
      } else {
        if current != "" {
          current := current + " ";
        }
        current := current + words[i];
      }
    }
    assert words[..|words|] == words;
    if current != "" {
      chunks := chunks + [current];
    }
  }

  /** The words of each chunk, one chunk after the other. */
  function WordsOf(chunks: seq<string>): seq<string>
    decreases |chunks|
  {
    if chunks == [] then []
    else WordsOf(chunks[..|chunks| - 1]) + SplitWs(chunks[|chunks| - 1])
  }

  /** A chunk is its words joined by single spaces, and a chunk of two or
      more words fits in `chunkSize`. */
  predicate Shaped(c: string, chunkSize: int)
  {
    c == Join(SplitWs(c), " ") && (|SplitWs(c)| >= 2 ==> |c| <= chunkSize)
  }

  /** What holds of the loop state after `words`. */
  predicate Packed(words: seq<string>, st: Packing, chunkSize: int, fixed: bool)
  {
    WordsOf(st.chunks) + SplitWs(st.current) == words
    && (forall k :: 0 <= k < |st.chunks| ==> Shaped(st.chunks[k], chunkSize))
    && Shaped(st.current, chunkSize)
    && (words == [] <==> st == Packing([], ""))
    && (words != [] ==> st.current != "")
    && (forall k :: 1 <= k < |st.chunks| ==> st.chunks[k] != "")
    && ((st.chunks != [] && st.chunks[0] == "") <==> (!fixed && words != [] && |words[0]| >= chunkSize))
  }

  lemma {:induction false} PackIsPacked(words: seq<string>, chunkSize: int, fixed: bool)
    requires forall k :: 0 <= k < |words| ==> IsWord(words[k])
    ensures Packed(words, Pack(words, chunkSize, fixed), chunkSize, fixed)
    decreases |words|
  {
    if words != [] {
      var prefix := words[..|words| - 1];
      var w := words[|words| - 1];
      assert words == prefix + [w];
      PackIsPacked(prefix, chunkSize, fixed);
      var st := Pack(prefix, chunkSize, fixed);
      assert Pack(words, chunkSize, fixed) == Step(st, w, chunkSize, fixed);
      if |st.current| + |w| + 1 > chunkSize && !(fixed && st.current == "") {
        FlushKeepsPacked(prefix, w, st, chunkSize, fixed);
      } else if st.current != "" {
        ExtendKeepsPacked(prefix, w, st, chunkSize, fixed);
      } else {
        StartKeepsPacked(prefix, w, st, chunkSize, fixed);
      }
    }
  }

  /** A word that overflows flushes the current chunk. */
  lemma FlushKeepsPacked(prefix: seq<string>, w: string, st: Packing, chunkSize: int, fixed: bool)
    requires Packed(prefix, st, chunkSize, fixed) && IsWord(w)
    requires |st.current| + |w| + 1 > chunkSize && !(fixed && st.current == "")
    ensures Packed(prefix + [w], Packing(st.chunks + [st.current], w), chunkSize, fixed)
  {
    SplitWsWord(w);
    var cs := st.chunks + [st.current];
    assert cs[..|cs| - 1] == st.chunks;
    assert WordsOf(cs) == WordsOf(st.chunks) + SplitWs(st.current);
    if prefix != [] {
      assert (prefix + [w])[0] == prefix[0];
      assert cs[0] == (if st.chunks == [] then st.current else st.chunks[0]);
    }
  }

  /** A word that fits is appended after a space. */
  lemma ExtendKeepsPacked(prefix: seq<string>, w: string, st: Packing, chunkSize: int, fixed: bool)
    requires Packed(prefix, st, chunkSize, fixed) && IsWord(w)
    requires |st.current| + |w| + 1 <= chunkSize && st.current != ""
    ensures Packed(prefix + [w], Packing(st.chunks, st.current + " " + w), chunkSize, fixed)
  {
    SplitWsWord(w);
    SplitWsAppend(st.current, " " + w);
    assert (" " + w)[1..] == w;
    assert st.current + (" " + w) == st.current + " " + w;
    var ws := SplitWs(st.current);
    assert ws != [];
    JoinSnoc(ws, w, " ");
    assert SplitWs(st.current + " " + w) == ws + [w];
    assert prefix != [];
    assert (prefix + [w])[0] == prefix[0];
  }

  /** The first word starts the first chunk when it fits (or always, with
      `fixed`). */
  lemma StartKeepsPacked(prefix: seq<string>, w: string, st: Packing, chunkSize: int, fixed: bool)
    requires Packed(prefix, st, chunkSize, fixed) && IsWord(w)
    requires !(|st.current| + |w| + 1 > chunkSize && !(fixed && st.current == "")) && st.current == ""
    ensures Packed(prefix + [w], Packing(st.chunks, w), chunkSize, fixed)
  {
    SplitWsWord(w);
    assert prefix == [];
    assert prefix + [w] == [w];
  }

  /** Splitting every chunk on whitespace and concatenating the results
      gives the words of the content, in order. */
  lemma ChunksKeepWords(content: string, chunkSize: int, fixed: bool)
    ensures WordsOf(SplitIntoChunks(content, chunkSize, fixed)) == SplitWs(content)
  {
    var st := Pack(SplitWs(content), chunkSize, fixed);
    PackIsPacked(SplitWs(content), chunkSize, fixed);
    if st.current != "" {
      var cs := st.chunks + [st.current];
      assert cs[..|cs| - 1] == st.chunks;
    }
  }

  /** Every chunk is its words joined by single spaces; a chunk of several
      words is at most `chunkSize` long (a single word may be longer). */
  lemma ChunksAreShaped(content: string, chunkSize: int, fixed: bool)
    ensures var r := SplitIntoChunks(content, chunkSize, fixed);
            forall k :: 0 <= k < |r| ==>
              r[k] == Join(SplitWs(r[k]), " ") && (|SplitWs(r[k])| >= 2 ==> |r[k]| <= chunkSize)
  {
    PackIsPacked(SplitWs(content), chunkSize, fixed);
    var r := SplitIntoChunks(content, chunkSize, fixed);
    assert forall k :: 0 <= k < |r| ==> Shaped(r[k], chunkSize);
  }

  /** As written, an empty chunk can only come first, and comes first
      exactly when the first word is at least `chunkSize` long. Content
      without words gives no chunks, and content with words some. */
  lemma EmptyChunkOnlyFirst(content: string, chunkSize: int)
    ensures var r := SplitIntoChunks(content, chunkSize, false);
            var words := SplitWs(content);
            (forall k :: 1 <= k < |r| ==> r[k] != "")
            && ((r != [] && r[0] == "") <==> (words != [] && |words[0]| >= chunkSize))
            && (r == [] <==> words == [])
  {
    PackIsPacked(SplitWs(content), chunkSize, false);
  }

  /** For example, the single word "a" with a chunk size of 1 gives an
      empty chunk before it. */
  lemma EmptyFirstChunk()
    ensures SplitIntoChunks("a", 1, false) == ["", "a"]
  {
    SplitWsWord("a");
    assert Pack(["a"], 1, false) == Step(Pack([], 1, false), "a", 1, false);
  }

  /** Without the empty flush no chunk is empty, and there are chunks
      exactly when there are words. */
  lemma FixedChunksNonEmpty(content: string, chunkSize: int)
    ensures var r := SplitIntoChunks(content, chunkSize, true);
            (forall k :: 0 <= k < |r| ==> r[k] != "")
            && (r == [] <==> SplitWs(content) == [])
  {
    PackIsPacked(SplitWs(content), chunkSize, true);
  }

  /** A word is its own only word. */
  lemma SplitWsWord(w: string)
    requires IsWord(w)
    ensures SplitWs(w) == [w]
  {
    WordLenAppend(w, []);
    assert w + [] == w;
    assert w[..|w|] == w && w[|w|..] == [];
  }

  /** The run of non-space characters at the front of `a + s` is the one of
      `a` when it ends inside `a` or when `s` starts with a space. */
  lemma {:induction false} WordLenAppend(a: string, s: string)
    requires WordLen(a) < |a| || s == [] || IsSpace(s[0])
    ensures WordLen(a + s) == WordLen(a)
    decreases |a|
  {
    if a == [] {
    } else if IsSpace(a[0]) {
      assert (a + s)[0] == a[0];
    } else {
      assert (a + s)[0] == a[0];
      assert (a + s)[1..] == a[1..] + s;
      WordLenAppend(a[1..], s);
    }
  }

  /** Splitting on whitespace distributes over a concatenation whose two
      sides meet at a space. */
  lemma {:induction false} SplitWsAppend(a: string, s: string)
    requires s != [] && IsSpace(s[0])
    ensures SplitWs(a + s) == SplitWs(a) + SplitWs(s)
    decreases |a|
  {
    if a == [] {
      assert a + s == s;
    } else if IsSpace(a[0]) {
      assert (a + s)[0] == a[0];
      assert (a + s)[1..] == a[1..] + s;
      SplitWsAppend(a[1..], s);
    } else {
      var n := WordLen(a);
      WordLenAppend(a, s);
      assert (a + s)[0] == a[0];
      assert (a + s)[..n] == a[..n];
      assert (a + s)[n..] == a[n..] + s;
      SplitWsAppend(a[n..], s);
    }
  }

  /** `split_into_paragraphs` keeps, in order, the pieces of
      `content.split("\n\n")` that are at least `minLen` long. */
  function Kept(parts: seq<string>, minLen: int): seq<string>
  {
    if parts == [] then []
    else (if |parts[0]| < minLen then [] else [parts[0]]) + Kept(parts[1..], minLen)
  }

  /** The loop of `split_into_paragraphs`; `maxLen` is accepted and not
      used. */
  method SplitIntoParagraphs(content: string, maxLen: int, minLen: int) returns (r: seq<string>)
    ensures r == Kept(SplitOn(content, "\n\n"), minLen)
  {
    var parts := SplitOn(content, "\n\n");
    r := [];
    for i := 0 to |parts|
      invariant Kept(parts, minLen) == r + Kept(parts[i..], minLen)
    {
      assert parts[i..][1..] == parts[i + 1..];
      if |parts[i]| >= minLen {
        r := r + [parts[i]];
      }
    }
    assert parts[|parts|..] == [];
  }

  /** The paragraphs kept are pieces of the content between blank-line
      separators, in their order, each at least `minLen` long, and every
      such piece of that length is kept. */
  lemma ParagraphsKept(content: string, minLen: int)
    ensures Join(SplitOn(content, "\n\n"), "\n\n") == content
    ensures var parts := SplitOn(content, "\n\n");
            var r := Kept(parts, minLen);
            IsSubsequence(r, parts)
            && (forall k :: 0 <= k < |r| ==> |r[k]| >= minLen)
            && (forall k :: 0 <= k < |parts| && |parts[k]| >= minLen ==> parts[k] in r)
  {
    JoinSplitOn(content, "\n\n");
    KeptFilters(SplitOn(content, "\n\n"), minLen);
  }

  lemma KeptFilters(parts: seq<string>, minLen: int)
    ensures var r := Kept(parts, minLen);
            IsSubsequence(r, parts)
            && (forall k :: 0 <= k < |r| ==> |r[k]| >= minLen)
            && (forall k :: 0 <= k < |parts| && |parts[k]| >= minLen ==> parts[k] in r)
  {
    KeptIsSubsequence(parts, minLen);
    KeptAreLong(parts, minLen);
    KeptAllLong(parts, minLen);
  }

  /** The kept paragraphs keep their order. */
  lemma {:induction false} KeptIsSubsequence(parts: seq<string>, minLen: int)
    ensures IsSubsequence(Kept(parts, minLen), parts)
    decreases |parts|
  {
    if parts == [] {
      assert IsSubsequenceWitness([], [], parts);
    } else {
      KeptIsSubsequence(parts[1..], minLen);
      SubsequenceCons(Kept(parts[1..], minLen), parts[1..], parts[0]);
      assert parts == [parts[0]] + parts[1..];
    }
  }

  /** Every kept paragraph is at least `minLen` long. */
  lemma {:induction false} KeptAreLong(parts: seq<string>, minLen: int)
    ensures var r := Kept(parts, minLen);
            forall k :: 0 <= k < |r| ==> |r[k]| >= minLen
    decreases |parts|
  {
    if parts != [] {
      KeptAreLong(parts[1..], minLen);
      var head := if |parts[0]| < minLen then [] else [parts[0]];
      var r := Kept(parts, minLen);
      assert r == head + Kept(parts[1..], minLen);
      forall k | 0 <= k < |r|
        ensures |r[k]| >= minLen
      {
        if k >= |head| {
          assert r[k] == Kept(parts[1..], minLen)[k - |head|];
        }
      }
    }
  }

  /** Every paragraph of at least `minLen` characters is kept. */
  lemma {:induction false} KeptAllLong(parts: seq<string>, minLen: int)
    ensures forall k :: 0 <= k < |parts| && |parts[k]| >= minLen ==> parts[k] in Kept(parts, minLen)
    decreases |parts|
  {
    if parts != [] {
      KeptAllLong(parts[1..], minLen);
      forall k | 0 <= k < |parts| && |parts[k]| >= minLen
        ensures parts[k] in Kept(parts, minLen)
      {
        if k > 0 {
          assert parts[k] == parts[1..][k - 1];
        }
      }
    }
  }
}
