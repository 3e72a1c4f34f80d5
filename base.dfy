/** Shared vocabulary of the model: optional values, the Python exceptions the
    bot raises, the message record every history stores, and the few Python
    list idioms (`l[-m:]`, append-then-pop(0), filtering by id) that several
    revisions of the bot repeat. */
module Base {

  datatype Option<T> = None | Some(value: T)

  /** The Python exception classes the modelled code raises or lets escape.
      Only RuntimeError keeps its text, because callers show it to users;
      SystemExit keeps the process exit status; PatternError is `re.error`,
      raised for a regular expression that does not compile. */
  datatype Error =
    | ValueError
    | KeyError
    | TypeError
    | RuntimeError(detail: string)
    | AttributeError
    | IndexError
    | RecursionError
    | SystemExit(status: int)
    | PatternError

  /** A Python call that either returns a value or raises. */
  datatype Result<T> = Ok(value: T) | Err(error: Error)

  /** One remembered chat message (text already speaker-tagged). The send
      time is an integer timestamp; attachments are not kept in histories. */
  datatype Message = Message(text: string, nick: string, isBot: bool, messageId: int, sent: int)

  function Min(a: int, b: int): int { if a <= b then a else b }

  /** Python's `l[-m:]`. For a positive m it keeps the last m elements; since
      `-0 == 0`, m == 0 keeps the whole list; a negative m drops the first -m
      elements. */
  function PyTail<T>(l: seq<T>, m: int): (r: seq<T>)
    ensures |r| <= |l| && r == l[|l| - |r|..]
    ensures 0 < m ==> |r| == Min(m, |l|)
    ensures m == 0 ==> r == l
    ensures m < 0 ==> |r| == if -m >= |l| then 0 else |l| + m
  {
    if m > 0 then (if m >= |l| then l else l[|l| - m..])
    else if m == 0 then l
    else if -m >= |l| then []
    else l[-m..]
  }

  /** Python's `l[:n]` for n >= 0: the first n elements, or all of them. */
  function PyTake<T>(l: seq<T>, n: nat): (r: seq<T>)
    ensures |r| == Min(n, |l|) && r == l[..|r|]
  {
    if n >= |l| then l else l[..n]
  }

  /** `append(x)` followed by `if len > cap: pop(0)`: exactly one element
      is dropped from the head when the bound is exceeded. */
  function AppendBounded<T>(l: seq<T>, x: T, cap: int): (r: seq<T>)
    ensures |l| + 1 > cap ==> r == (l + [x])[1..]
    ensures |l| + 1 <= cap ==> r == l + [x]
    ensures 0 <= cap && |l| <= cap ==> |r| <= cap
    ensures r != [] ==> r[|r| - 1] == x
    ensures cap >= 1 ==> r != []
  {
    if |l| + 1 > cap then (l + [x])[1..] else l + [x]
  }

  /** The messages of `l` whose id differs from `id`, in order
      (`[m for m in l if m.message_id != id]`). */
  function WithoutId(l: seq<Message>, id: int): (r: seq<Message>)
    ensures |r| <= |l|
    ensures forall m :: m in r <==> m in l && m.messageId != id
  {
    if l == [] then []
    else if l[0].messageId == id then WithoutId(l[1..], id)
    else [l[0]] + WithoutId(l[1..], id)
  }

  /** `r` is `l` with some elements left out, order kept. */
  ghost predicate IsSubsequence<T>(r: seq<T>, l: seq<T>)
  {
    exists idx: seq<nat> ::
      |idx| == |r|
      && (forall k :: 0 <= k < |idx| ==> idx[k] < |l| && l[idx[k]] == r[k])
      && (forall j, k :: 0 <= j < k < |idx| ==> idx[j] < idx[k])
  }

  lemma {:induction false} WithoutIdIsSubsequence(l: seq<Message>, id: int)
    ensures IsSubsequence(WithoutId(l, id), l)
  {
    if l == [] {
      assert IsSubsequenceWitness([], WithoutId(l, id), l);
    } else {
      WithoutIdIsSubsequence(l[1..], id);
      SubsequenceCons(WithoutId(l[1..], id), l[1..], l[0]);
      assert l == [l[0]] + l[1..];
    }
  }

  /** A subsequence of `l` is one of `[x] + l`, with or without `x` in front. */
  lemma SubsequenceCons<T>(r: seq<T>, l: seq<T>, x: T)
    requires IsSubsequence(r, l)
    ensures IsSubsequence(r, [x] + l) && IsSubsequence([x] + r, [x] + l)
  {
    var idx: seq<nat> :| |idx| == |r|
      && (forall k :: 0 <= k < |idx| ==> idx[k] < |l| && l[idx[k]] == r[k])
      && (forall j, k :: 0 <= j < k < |idx| ==> idx[j] < idx[k]);
    var shifted := seq(|idx|, k requires 0 <= k < |idx| => idx[k] + 1);
    assert IsSubsequenceWitness(shifted, r, [x] + l);
    assert IsSubsequenceWitness([0] + shifted, [x] + r, [x] + l);
  }

  ghost predicate IsSubsequenceWitness<T>(idx: seq<nat>, r: seq<T>, l: seq<T>)
    ensures IsSubsequenceWitness(idx, r, l) ==> IsSubsequence(r, l)
  {
    |idx| == |r|
    && (forall k :: 0 <= k < |idx| ==> idx[k] < |l| && l[idx[k]] == r[k])
    && (forall j, k :: 0 <= j < k < |idx| ==> idx[j] < idx[k])
  }
}
