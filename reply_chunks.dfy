/** Splitting a generated reply into Discord-sized pieces and the order in
    which they are posted (`send_discord_response`, identical in
    core/bot_workflow/discord_chat_handler.py and
    bot_workflow/discord_chat_handler.py): fixed 1800-character slices, the
    first of which replaces the "typing" placeholder with the disclaimer
    appended, the rest sent as further replies in order. */
module ReplyChunks {
  import opened Base

  const CHUNK_SIZE: int := 1800

  /** Concatenation of a list of strings. */
  function Concat(parts: seq<string>): string
  {
    if parts == [] then [] else Concat(parts[..|parts| - 1]) + parts[|parts| - 1]
  }

  /** `ceil(n / CHUNK_SIZE)` */
  function ChunkCount(n: nat): nat
  {
    (n + CHUNK_SIZE - 1) / CHUNK_SIZE
  }

  /** The k-th slice `s[k*1800 : k*1800 + 1800]`, cut at the end of `s`. */
  function Slice(s: string, k: nat): string
    requires k * CHUNK_SIZE <= |s|
  {
    s[k * CHUNK_SIZE..Min(k * CHUNK_SIZE + CHUNK_SIZE, |s|)]
  }

  /** `for i in range(0, len(s), 1800): chunks.append(s[i:i + 1800])` */
  method ComputeChunks(s: string) returns (chunks: seq<string>)
    ensures |chunks| == ChunkCount(|s|)
    ensures forall k :: 0 <= k < |chunks| ==> k * CHUNK_SIZE <= |s| && chunks[k] == Slice(s, k)
    ensures Concat(chunks) == s
  {
    chunks := [];
    var i := 0;
    while i < |s|
      invariant i == |chunks| * CHUNK_SIZE
      invariant i <= |s| + CHUNK_SIZE - 1
      invariant forall k :: 0 <= k < |chunks| ==> k * CHUNK_SIZE <= |s| && chunks[k] == Slice(s, k)
      invariant Concat(chunks) == s[..Min(i, |s|)]
      decreases |s| - i
    {
      var end := Min(i + CHUNK_SIZE, |s|);
      assert s[..end] == s[..i] + s[i..end];
      chunks := chunks + [s[i..end]];
      i := i + CHUNK_SIZE;
    }
    assert s[..Min(i, |s|)] == s;
    assert |chunks| == ChunkCount(|s|) by {
      assert (|chunks| - 1) * CHUNK_SIZE < |s| || |s| == 0;
    }
  }

  /** Every slice but the last has exactly 1800 characters, and the last has
      between 1 and 1800. */
  lemma SliceLengths(s: string, k: nat)
    requires k < ChunkCount(|s|)
    ensures k * CHUNK_SIZE < |s|
    ensures k + 1 < ChunkCount(|s|) ==> |Slice(s, k)| == CHUNK_SIZE
    ensures 0 < |Slice(s, k)| <= CHUNK_SIZE
  {
  }

  /** An empty reply has no slices; a non-empty one has at least one. */
  lemma ChunkCountZero(n: nat)
    ensures ChunkCount(n) == 0 <==> n == 0
  {
  }

  /** One Discord action: editing an already sent message (optionally
      attaching a log file), or sending a further reply. */
  datatype Post = Edit(messageId: int, content: string, attachment: Option<string>) | SendReply(content: string)

  /** Posts the chunks of `resp`: a RuntimeError (naming the content) when
      there are none, otherwise the first chunk with the disclaimer as an
      edit and every later chunk as its own reply, in order. */
  method SendDiscordResponse(placeholderId: int, resp: string, disclaimer: string) returns (r: Result<seq<Post>>)
    ensures resp == [] ==> r == Err(RuntimeError("Ended up with 0 chunks while trying to chunk message with content '" + resp + "'"))
    ensures resp != [] ==> r.Ok? && |r.value| == ChunkCount(|resp|)
    ensures resp != [] ==> r.Ok? && r.value[0] == Edit(placeholderId, Slice(resp, 0) + disclaimer, None)
    ensures resp != [] ==> r.Ok? && forall k :: 1 <= k < |r.value| ==> k * CHUNK_SIZE <= |resp| && r.value[k] == SendReply(Slice(resp, k))
  {
    var chunks := ComputeChunks(resp);
    if |chunks| == 0 {
      return Err(RuntimeError("Ended up with 0 chunks while trying to chunk message with content '" + resp + "'"));
    }
    var posts := [Edit(placeholderId, chunks[0] + disclaimer, None)];
    if |chunks| >= 2 {
      for j := 1 to |chunks|
        invariant |posts| == j
        invariant posts[0] == Edit(placeholderId, chunks[0] + disclaimer, None)
        invariant forall k :: 1 <= k < j ==> posts[k] == SendReply(chunks[k])
      {
        posts := posts + [SendReply(chunks[j])];
      }
    }
    return Ok(posts);
  }

  /** Sent texts, without the disclaimer, put back together give the reply. */
  lemma {:induction false} ConcatSlices(s: string, n: nat)
    requires n <= ChunkCount(|s|)
    ensures Concat(seq(n, k requires 0 <= k < n => Slice(s, k))) == s[..Min(n * CHUNK_SIZE, |s|)]
  {
    if n > 0 {
      var parts := seq(n, k requires 0 <= k < n => Slice(s, k));
      ConcatSlices(s, n - 1);
      assert parts[..n - 1] == seq(n - 1, k requires 0 <= k < n - 1 => Slice(s, k));
      var a := (n - 1) * CHUNK_SIZE;
      assert s[..Min(n * CHUNK_SIZE, |s|)] == s[..a] + s[a..Min(a + CHUNK_SIZE, |s|)];
    }
  }
}
