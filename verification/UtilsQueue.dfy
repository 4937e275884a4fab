/** The bounded queue of byte blocks of utils_queue.c. */
module UtilsQueue {
  import opened Common

  type Block = seq<Byte>

  datatype Status = Success | ParamInvalid | ValueTooLong | QueueFull | QueueEmpty | MallocFailed | MemcpyFailed

  const MAX_QUEUE_VALUE_LEN: nat := 1024

  /** Status of pushing a copy of a block; a null or empty block is refused. */
  function PushStatus(list: seq<Block>, capacity: nat, value: Option<Block>, alloc: bool): Status {
    if value.None? || value.value == [] then ParamInvalid
    else if |value.value| > MAX_QUEUE_VALUE_LEN then ValueTooLong
    else if |list| >= capacity then QueueFull
    else if !alloc then MallocFailed
    else Success
  }

  /** Status of handing over a block; there is no length limit here. */
  function PushMemStatus(list: seq<Block>, capacity: nat, value: Option<Block>, alloc: bool): Status {
    if value.None? || value.value == [] then ParamInvalid
    else if |list| >= capacity then QueueFull
    else if !alloc then MallocFailed
    else Success
  }

  /** Status of popping into a buffer of the given size, or of taking the block over (None). */
  function PopStatus(list: seq<Block>, size: Option<nat>): Status {
    if size == Some(0) then ParamInvalid
    else if list == [] then QueueEmpty
    else if size.Some? && |list[0]| > size.value then MemcpyFailed
    else Success
  }

  /** A block goes in if and only if it is there, not empty and, when it is copied, not too long, and there is
      room and memory; the first of these that fails is reported. */
  lemma PushSucceeds(list: seq<Block>, capacity: nat, value: Option<Block>, alloc: bool)
    ensures PushMemStatus(list, capacity, value, alloc).Success? <==>
      value.Some? && 0 < |value.value| && |list| < capacity && alloc
    ensures PushStatus(list, capacity, value, alloc).Success? <==>
      value.Some? && 0 < |value.value| <= 1024 && |list| < capacity && alloc
    ensures PushStatus(list, capacity, value, alloc).QueueFull? <==>
      value.Some? && 0 < |value.value| <= 1024 && |list| >= capacity
    ensures PushMemStatus(list, capacity, value, alloc).QueueFull? <==>
      value.Some? && 0 < |value.value| && |list| >= capacity
  {}

  /** A block comes out if and only if there is one and it is taken over, or fits the buffer. */
  lemma PopSucceeds(list: seq<Block>, size: Option<nat>)
    ensures PopStatus(list, size).Success? <==>
      list != [] && size != Some(0) && (size.Some? ==> |list[0]| <= size.value)
    ensures PopStatus(list, size).QueueEmpty? <==> list == [] && size != Some(0)
  {}

  class Queue {
    var capacity: nat
    var count: nat
    var list: seq<Block>

    predicate Valid()
      reads this
    {
      0 < capacity && count == |list| <= capacity && forall i :: 0 <= i < |list| ==> list[i] != []
    }

    constructor (capacity: nat)
      requires capacity > 0
      ensures Valid() && this.capacity == capacity && list == []
    {
      this.capacity, count, list := capacity, 0, [];
    }

    /** A capacity of zero is refused, and so is any when memory runs out. */
    static method Create(capacity: nat, alloc: bool) returns (queue: Queue?)
      ensures queue == null <==> capacity == 0 || !alloc
      ensures queue != null ==> fresh(queue) && queue.Valid() && queue.capacity == capacity && queue.list == []
    {
      if capacity == 0 || !alloc {
        return null;
      }
      queue := new Queue(capacity);
    }

    method Push(value: Option<Block>, alloc: bool) returns (status: Status)
      requires Valid()
      modifies this`count, this`list
      ensures Valid()
      ensures status == PushStatus(old(list), capacity, value, alloc)
      ensures list == if status.Success? then old(list) + [value.value] else old(list)
    {
      if value.None? || value.value == [] {
        return ParamInvalid;
      }
      if |value.value| > MAX_QUEUE_VALUE_LEN {
        return ValueTooLong;
      }
      if count >= capacity {
        return QueueFull;
      }
      if !alloc {
        return MallocFailed;
      }
      list := list + [value.value];
      count := count + 1;
      status := Success;
    }

    /** On success the caller's pointer is cleared: exactly one of caller and queue owns the block. */
    method PushMem(value: Option<Block>, alloc: bool) returns (status: Status, left: Option<Block>)
      requires Valid()
      modifies this`count, this`list
      ensures Valid()
      ensures status == PushMemStatus(old(list), capacity, value, alloc)
      ensures list == if status.Success? then old(list) + [value.value] else old(list)
      ensures left == if status.Success? then None else value
    {
      left := value;
      if value.None? || value.value == [] {
        return ParamInvalid, left;
      }
      if count >= capacity {
        return QueueFull, left;
      }
      if !alloc {
        return MallocFailed, left;
      }
      list := list + [value.value];
      left := None;
      count := count + 1;
      status := Success;
    }

    /** A pop that fails, also for a too small buffer, loses nothing. */
    method Pop(size: Option<nat>) returns (status: Status, value: Block)
      requires Valid()
      modifies this`count, this`list
      ensures Valid()
      ensures status == PopStatus(old(list), size)
      ensures if status.Success? then old(list) == [value] + list else list == old(list) && value == []
    {
      value := [];
      if size == Some(0) {
        return ParamInvalid, value;
      }
      if count == 0 {
        return QueueEmpty, value;
      }
      if size.Some? && |list[0]| > size.value {
        return MemcpyFailed, value;
      }
      value := list[0];
      list := list[1..];
      count := count - 1;
      status := Success;
    }
  }
}
