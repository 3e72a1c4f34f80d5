/** The bounded conversation history of the current bot revision
    (core/bot_workflow/types.py): a capacity-bounded list of message snapshots
    with tail insertion, insertion after an anchor message, removal by id and
    cloning, and a synchronized wrapper that tracks which message ids are still
    pending and hands out the finalized view. The asyncio lock is modelled by
    treating every method as atomic. */
module History {
  import opened Base

  /** The default `memory_length` of a MessageSnapshotHistory. */
  const DEFAULT_MEMORY_LENGTH: int := 14

  /** Index of the first message carrying `id`, if any. */
  function IndexOfId(mem: seq<Message>, id: int): (r: Option<nat>)
    ensures r.Some? ==> r.value < |mem| && mem[r.value].messageId == id
    ensures r.Some? ==> forall k :: 0 <= k < r.value ==> mem[k].messageId != id
    ensures r.None? <==> forall k :: 0 <= k < |mem| ==> mem[k].messageId != id
  {
    if mem == [] then None
    else if mem[0].messageId == id then Some(0)
    else match IndexOfId(mem[1..], id)
      case None => None
      case Some(i) => Some(i + 1)
  }

  /** What `add_after(id, msg)` leaves in the list: None when no message
      carries `id`; otherwise the list with `msg` inserted right after the
      first such message, then one head element dropped if over capacity. */
  function InsertAfterId(mem: seq<Message>, id: int, msg: Message, cap: int): Option<seq<Message>>
  {
    match IndexOfId(mem, id)
    case None => None
    case Some(i) =>
      var ins := mem[..i + 1] + [msg] + mem[i + 1..];
      Some(if |ins| > cap then ins[1..] else ins)
  }

  /** Messages whose ids are not pending, in history order. */
  function Finalized(mem: seq<Message>, pending: set<int>): seq<Message>
  {
    if mem == [] then []
    else if mem[0].messageId in pending then Finalized(mem[1..], pending)
    else [mem[0]] + Finalized(mem[1..], pending)
  }

  class MessageSnapshotHistory {
    var memory: seq<Message>
    var capacity: int

    /** `MessageSnapshotHistory(initial_history, memory_length)` */
    constructor (initial: Option<seq<Message>>, memoryLength: int)
      ensures initial.None? ==> memory == []
      ensures initial.Some? ==> memory == PyTail(initial.value, memoryLength)
      ensures capacity == memoryLength
    {
      memory := if initial.None? then [] else PyTail(initial.value, memoryLength);
      capacity := memoryLength;
    }

    /** Appends at the tail; if the list is then longer than the capacity
        the head (only the head) is dropped. */
    method Add(message: Message)
      modifies this
      ensures memory == AppendBounded(old(memory), message, capacity)
      ensures capacity == old(capacity)
    {
      memory := memory + [message];
      if |memory| > capacity {
        memory := memory[1..];
      }
    }

    /** Scans for the first message with id `id`; when found, inserts
        `newMessage` right after it, drops the head if over capacity and
        answers true; otherwise answers false and changes nothing. */
    method AddAfter(id: int, newMessage: Message) returns (found: bool)
      modifies this
      ensures found <==> exists k :: 0 <= k < |old(memory)| && old(memory)[k].messageId == id
      ensures found ==> memory == InsertAfterId(old(memory), id, newMessage, capacity).value
      ensures !found ==> memory == old(memory)
      ensures capacity == old(capacity)
    {
      var index := 0;
      while index < |memory|
        invariant 0 <= index <= |memory|
        invariant forall k :: 0 <= k < index ==> memory[k].messageId != id
      {
        if memory[index].messageId == id {
          memory := memory[..index + 1] + [newMessage] + memory[index + 1..];
          if |memory| > capacity {
            memory := memory[1..];
          }
          return true;
        }
        index := index + 1;
      }
      return false;
    }

    /** Drops every message carrying the id of `message`. */
    method Remove(message: Message)
      modifies this
      ensures memory == WithoutId(old(memory), message.messageId)
      ensures capacity == old(capacity)
    {
      memory := WithoutId(memory, message.messageId);
    }

    /** A new history built from a copy of this one's messages and capacity. */
    method Clone() returns (c: MessageSnapshotHistory)
      ensures fresh(c)
      ensures c.memory == PyTail(memory, capacity) && c.capacity == capacity
      ensures 0 < capacity && |memory| <= capacity ==> c.memory == memory
    {
      c := new MessageSnapshotHistory(Some(memory), capacity);
    }
  }

  class SynchronizedMessageHistory {
    const backing: MessageSnapshotHistory
    var pending: set<int>

    constructor (history: MessageSnapshotHistory)
      ensures backing == history && pending == {}
    {
      backing := history;
      pending := {};
    }

    method Add(message: Message, isPending: bool)
      modifies this, backing
      ensures backing.memory == AppendBounded(old(backing.memory), message, backing.capacity)
      ensures backing.capacity == old(backing.capacity)
      ensures pending == if isPending then old(pending) + {message.messageId} else old(pending)
    {
      backing.Add(message);
      if isPending {
        pending := pending + {message.messageId};
      }
    }

    /** The anchor lookup result is dropped: the id becomes pending even
        when no anchor was found and nothing was inserted. */
    method AddAfter(id: int, message: Message, isPending: bool)
      modifies this, backing
      ensures InsertAfterId(old(backing.memory), id, message, backing.capacity).Some? ==>
                backing.memory == InsertAfterId(old(backing.memory), id, message, backing.capacity).value
      ensures InsertAfterId(old(backing.memory), id, message, backing.capacity).None? ==>
                backing.memory == old(backing.memory)
      ensures backing.capacity == old(backing.capacity)
      ensures pending == if isPending then old(pending) + {message.messageId} else old(pending)
    {
      var _ := backing.AddAfter(id, message);
      if isPending {
        pending := pending + {message.messageId};
      }
    }

    /** Removes a pending id; a non-pending id is a ValueError and nothing
        changes. */
    method MarkFinalized(messageId: int) returns (r: Result<()>)
      modifies this
      ensures old(messageId in pending) ==> r == Ok(()) && pending == old(pending) - {messageId}
      ensures old(messageId !in pending) ==> r == Err(ValueError) && pending == old(pending)
    {
      if messageId in pending {
        pending := pending - {messageId};
        r := Ok(());
      } else {
        r := Err(ValueError);
      }
    }

    function IsPending(messageId: int): bool
      reads this
    {
      messageId in pending
    }

    /** Collects the non-pending messages in order and wraps them in a new
        history of default capacity, which keeps the last 14 of them. */
    method GetFinalizedMessageHistory() returns (h: MessageSnapshotHistory)
      ensures fresh(h)
      ensures h.memory == PyTail(Finalized(backing.memory, pending), DEFAULT_MEMORY_LENGTH)
      ensures h.capacity == DEFAULT_MEMORY_LENGTH
    {
      var retMsgs: seq<Message> := [];
      var i := 0;
      while i < |backing.memory|
        invariant 0 <= i <= |backing.memory|
        invariant retMsgs == Finalized(backing.memory[..i], pending)
      {
        FinalizedAppend(backing.memory[..i], backing.memory[i], pending);
        assert backing.memory[..i + 1] == backing.memory[..i] + [backing.memory[i]];
        if !IsPending(backing.memory[i].messageId) {
          retMsgs := retMsgs + [backing.memory[i]];
        }
        i := i + 1;
      }
      assert backing.memory[..i] == backing.memory;
      h := new MessageSnapshotHistory(Some(retMsgs), DEFAULT_MEMORY_LENGTH);
    }
  }

  lemma {:induction false} FinalizedAppend(mem: seq<Message>, m: Message, pending: set<int>)
    ensures Finalized(mem + [m], pending) ==
              Finalized(mem, pending) + (if m.messageId in pending then [] else [m])
  {
    if mem == [] {
      assert [m][1..] == [];
    } else {
      assert (mem + [m])[1..] == mem[1..] + [m];
      FinalizedAppend(mem[1..], m, pending);
    }
  }

  /** The finalized view holds exactly the non-pending messages: nothing in
      it is pending, and every non-pending message of the history is in it. */
  lemma {:induction false} FinalizedExactlyNonPending(mem: seq<Message>, pending: set<int>)
    ensures forall m :: m in Finalized(mem, pending) ==> m.messageId !in pending
    ensures forall m :: m in mem && m.messageId !in pending ==> m in Finalized(mem, pending)
    ensures |Finalized(mem, pending)| <= |mem|
  {
    if mem != [] {
      FinalizedExactlyNonPending(mem[1..], pending);
      assert forall m :: m in mem ==> m == mem[0] || m in mem[1..];
    }
  }

  /** The finalized view keeps history order: it is a subsequence. */
  lemma {:induction false} FinalizedKeepsOrder(mem: seq<Message>, pending: set<int>)
    ensures IsSubsequence(Finalized(mem, pending), mem)
  {
    if mem == [] {
      assert IsSubsequenceWitness([], Finalized(mem, pending), mem);
    } else {
      FinalizedKeepsOrder(mem[1..], pending);
      SubsequenceCons(Finalized(mem[1..], pending), mem[1..], mem[0]);
      assert mem == [mem[0]] + mem[1..];
    }
  }

  /** With no pending ids the finalized view is the whole history. */
  lemma {:induction false} FinalizedNoPending(mem: seq<Message>)
    ensures Finalized(mem, {}) == mem
  {
    if mem != [] {
      FinalizedNoPending(mem[1..]);
      assert mem == [mem[0]] + mem[1..];
    }
  }

  /** add_after places the new message immediately after the anchor (the
      first message with that id), keeps everything else in order, and when
      the history was below capacity drops nothing. */
  lemma AddAfterPlacement(mem: seq<Message>, id: int, msg: Message, cap: int)
    requires IndexOfId(mem, id).Some? && |mem| < cap
    ensures InsertAfterId(mem, id, msg, cap).Some?
    ensures var i := IndexOfId(mem, id).value;
            var r := InsertAfterId(mem, id, msg, cap).value;
            |r| == |mem| + 1 && r[..i + 1] == mem[..i + 1] && r[i] .messageId == id
            && r[i + 1] == msg && r[i + 2..] == mem[i + 1..]
  {
  }

  /** When add_after pushes a full history over capacity the head is
      dropped, and that head is the anchor itself when the anchor was the
      first message: the new message then leads the history. */
  lemma AddAfterOverCapacity(mem: seq<Message>, id: int, msg: Message, cap: int)
    requires IndexOfId(mem, id) == Some(0) && |mem| == cap && cap >= 1
    ensures InsertAfterId(mem, id, msg, cap) == Some([msg] + mem[1..])
  {
    assert (mem[..1] + [msg] + mem[1..])[1..] == [msg] + mem[1..];
  }

  /** Tail insertion and insertion after an anchor both keep a history that
      is within its capacity within it. */
  lemma {:induction false} InsertionKeepsBound(mem: seq<Message>, id: int, msg: Message, cap: int)
    requires |mem| <= cap
    ensures |AppendBounded(mem, msg, cap)| <= cap
    ensures InsertAfterId(mem, id, msg, cap).Some? ==> |InsertAfterId(mem, id, msg, cap).value| <= cap
  {
  }

  /** Given history [A, C] with room for three, add_after(A.id, B) yields
      [A, B, C]. */
  lemma InsertAfterExample(a: Message, b: Message, c: Message)
    requires a.messageId != c.messageId
    ensures InsertAfterId([a, c], a.messageId, b, 3) == Some([a, b, c])
  {
    assert IndexOfId([a, c], a.messageId) == Some(0);
    assert [a, c][..1] + [b] + [a, c][1..] == [a, b, c];
  }

  /** A synchronized add (pending or not) followed by mark_finalized of the
      same id leaves the pending set as it was before, provided the id was
      not pending already. */
  method PendingLifecycle(h: SynchronizedMessageHistory, m: Message) returns (r: Result<()>)
    requires m.messageId !in h.pending
    modifies h, h.backing
    ensures r == Ok(()) && h.pending == old(h.pending)
    ensures m in h.backing.memory || h.backing.capacity < 1
  {
    h.Add(m, true);
    r := h.MarkFinalized(m.messageId);
  }
}
