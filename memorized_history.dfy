/** The bounded short-term memory of the older bot revision
    (bot_workflow/types.py): tail insertion with head eviction, removal by id,
    cloning, and the "drop duplicate ending user messages" view handed to the
    prompt builder. */
module MemorizedHistory {
  import opened Base

  /** The default `memory_length` of a MemorizedMessageHistory. */
  const DEFAULT_MEMORY_LENGTH: int := 8

  /** Messages i and i+1 are both from users (neither is from a bot). */
  predicate UserPairAt(mem: seq<Message>, i: int)
  {
    0 <= i && i + 1 < |mem| && !mem[i].isBot && !mem[i + 1].isBot
  }

  /** No two adjacent messages are both user messages. */
  predicate NoUserPair(mem: seq<Message>)
  {
    forall i :: 0 <= i < |mem| ==> !UserPairAt(mem, i)
  }

  /** The first index i at which messages i and i+1 are both user messages. */
  function FirstUserPair(mem: seq<Message>): (r: Option<nat>)
    ensures r.Some? ==> UserPairAt(mem, r.value)
    ensures r.Some? ==> forall k :: 0 <= k < r.value ==> !UserPairAt(mem, k)
    ensures r.None? <==> NoUserPair(mem)
  {
    if |mem| < 2 then None
    else if !mem[0].isBot && !mem[1].isBot then assert UserPairAt(mem, 0); Some(0)
    else match FirstUserPair(mem[1..])
      case None =>
        assert forall k :: 1 <= k < |mem| ==> (UserPairAt(mem, k) <==> UserPairAt(mem[1..], k - 1));
        None
      case Some(i) =>
        assert forall k :: 1 <= k < |mem| ==> (UserPairAt(mem, k) <==> UserPairAt(mem[1..], k - 1));
        assert UserPairAt(mem, i + 1);
        Some(i + 1)
  }

  /** A user pair at i with none before it is the first one. */
  lemma FirstUserPairAt(mem: seq<Message>, i: nat)
    requires i + 1 < |mem| && !mem[i].isBot && !mem[i + 1].isBot
    requires forall k :: 0 <= k < i ==> !UserPairAt(mem, k)
    ensures FirstUserPair(mem) == Some(i)
  {
    assert UserPairAt(mem, i);
  }

  /** The message list `without_dupe_ending_user_msgs` rebuilds from: the
      whole history when no user pair exists, otherwise everything before
      the first user pair followed by the history's last message. */
  function DedupeEnding(mem: seq<Message>): seq<Message>
  {
    match FirstUserPair(mem)
    case None => mem
    case Some(i) => mem[..i] + [mem[|mem| - 1]]
  }

  class MemorizedMessageHistory {
    var memory: seq<Message>
    var capacity: int

    constructor (initial: Option<seq<Message>>, memoryLength: int)
      ensures initial.None? ==> memory == []
      ensures initial.Some? ==> memory == PyTail(initial.value, memoryLength)
      ensures capacity == memoryLength
    {
      memory := if initial.None? then [] else PyTail(initial.value, memoryLength);
      capacity := memoryLength;
    }

    method Add(message: Message)
      modifies this
      ensures memory == AppendBounded(old(memory), message, capacity)
      ensures capacity == old(capacity)
    {
      memory := memory + [message];
      if |memory| > capacity {
        memory := memory[1..];
      }
    }

    method Remove(message: Message)
      modifies this
      ensures memory == WithoutId(old(memory), message.messageId)
      ensures capacity == old(capacity)
    {
      memory := WithoutId(memory, message.messageId);
    }

    method Clone() returns (c: MemorizedMessageHistory)
      ensures fresh(c)
      ensures c.memory == PyTail(memory, capacity) && c.capacity == capacity
      ensures 0 < capacity && |memory| <= capacity ==> c.memory == memory
    {
      c := new MemorizedMessageHistory(Some(memory), capacity);
    }

    /** Copies messages until the first adjacent user pair (i, i+1); there
        the copy of message i is replaced by the last message and the copy
        is returned, rebuilt with the default capacity. */
    method WithoutDupeEndingUserMsgs() returns (h: MemorizedMessageHistory)
      ensures fresh(h)
      ensures h.memory == PyTail(DedupeEnding(memory), DEFAULT_MEMORY_LENGTH)
      ensures h.capacity == DEFAULT_MEMORY_LENGTH
    {
      var mem := memory;
      var ret: seq<Message> := [];
      var i := 0;
      while i < |mem|
        invariant 0 <= i <= |mem|
        invariant ret == mem[..i]
        invariant forall k :: 0 <= k < i ==> !UserPairAt(mem, k)
      {
        ret := ret + [mem[i]];
        assert ret == mem[..i + 1];
        if i < |mem| - 1 {
          var duplicateUserMessages := !mem[i].isBot && !mem[i + 1].isBot;
          if duplicateUserMessages {
            FirstUserPairAt(mem, i);
            assert ret[..|ret| - 1] == mem[..i];
            ret := ret[..|ret| - 1];
            ret := ret + [mem[|mem| - 1]];
            assert ret == DedupeEnding(mem);
            h := new MemorizedMessageHistory(Some(ret), DEFAULT_MEMORY_LENGTH);
            return;
          }
        }
        i := i + 1;
      }
      assert ret == mem;
      assert NoUserPair(mem);
      h := new MemorizedMessageHistory(Some(ret), DEFAULT_MEMORY_LENGTH);
    }

    function AsList(): seq<Message>
      reads this
    {
      memory
    }
  }

  /** The deduplicated list is never longer than the history, ends with the
      history's last message, and contains no two adjacent user messages. */
  lemma {:induction false} DedupeEndingShape(mem: seq<Message>)
    requires mem != []
    ensures |DedupeEnding(mem)| <= |mem|
    ensures DedupeEnding(mem)[|DedupeEnding(mem)| - 1] == mem[|mem| - 1]
    ensures NoUserPair(DedupeEnding(mem))
  {
    match FirstUserPair(mem)
    case None =>
    case Some(i) =>
      var r := mem[..i] + [mem[|mem| - 1]];
      assert r == DedupeEnding(mem);
      forall j | 0 <= j < |r|
        ensures !UserPairAt(r, j)
      {
        if j + 1 < i {
          assert !UserPairAt(mem, j);
        } else if j + 1 == i {
          // message i is a user message, so message i-1 must be a bot's
          assert !UserPairAt(mem, i - 1);
          assert r[j] == mem[i - 1];
        }
      }
  }

  /** With no adjacent user pair the history comes back unchanged. */
  lemma DedupeEndingNoPair(mem: seq<Message>)
    requires forall i :: 0 <= i < |mem| - 1 ==> mem[i].isBot || mem[i + 1].isBot
    ensures DedupeEnding(mem) == mem
  {
    assert NoUserPair(mem);
  }

  /** Dropping a prefix keeps a list free of adjacent user pairs. */
  lemma NoUserPairDrop(mem: seq<Message>, d: nat)
    requires NoUserPair(mem) && d <= |mem|
    ensures NoUserPair(mem[d..])
  {
    forall j | 0 <= j < |mem| - d
      ensures !UserPairAt(mem[d..], j)
    {
      assert !UserPairAt(mem, j + d);
    }
  }

  /** So the history rebuilt from the deduplicated list (its last
      `memory_length` messages) has no adjacent user pair either. */
  lemma RebuiltHasNoUserPair(mem: seq<Message>, m: int)
    requires mem != []
    ensures NoUserPair(PyTail(DedupeEnding(mem), m))
  {
    DedupeEndingShape(mem);
    var r := DedupeEnding(mem);
    NoUserPairDrop(r, |r| - |PyTail(r, m)|);
  }

  /** An example: [user A, user B, bot C, user D] becomes [user D]; the
      pair at 0 leaves nothing before it. */
  lemma DedupeEndingExample(a: Message, b: Message, c: Message, d: Message)
    requires !a.isBot && !b.isBot && c.isBot && !d.isBot
    ensures DedupeEnding([a, b, c, d]) == [d]
  {
    assert FirstUserPair([a, b, c, d]) == Some(0);
  }
}
