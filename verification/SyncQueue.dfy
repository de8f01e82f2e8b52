/** queue.c, a linked queue, and sync_queue.c, whose calls are atomic steps that may have to wait. */
module SyncQueue {
  import opened Common

  class Node<T> {
    const data: T
    var next: Node?<T>

    constructor (element: T)
      ensures data == element && next == null
    {
      data, next := element, null;
    }
  }

  class Queue<T> {
    var first: Node?<T>
    var last: Node?<T>
    var elemNum: nat
    ghost var spine: seq<Node<T>>

    ghost predicate Valid()
      reads this, spine
    {
      && elemNum == |spine|
      && (if spine == [] then first == null else first == spine[0] && last == spine[|spine| - 1])
      && (forall i, j :: 0 <= i && j == i + 1 && j < |spine| ==> spine[i].next == spine[j])
      && (spine != [] ==> last.next == null)
      && (forall i, j :: 0 <= i < j < |spine| ==> spine[i] != spine[j])
    }

    ghost function Contents(): (s: seq<T>)
      reads this, spine
      ensures |s| == |spine|
    {
      seq(|spine|, i requires 0 <= i < |spine| reads this, spine => spine[i].data)
    }

    constructor ()
      ensures Valid() && Contents() == []
    {
      first, last, elemNum, spine := null, null, 0, [];
    }

    method Push(element: T)
      requires Valid()
      modifies this, spine
      ensures Valid() && Contents() == old(Contents()) + [element]
      ensures spine[..|old(spine)|] == old(spine) && fresh(spine[|old(spine)|..])
    {
      var item := new Node(element);
      if first == null {
        first := item;
      } else {
        last.next := item;
      }
      last := item;
      elemNum := elemNum + 1;
      spine := spine + [item];
    }

    method Pop() returns (r: Option<T>)
      requires Valid()
      modifies this
      ensures Valid()
      ensures if old(Contents()) == [] then r == None && Contents() == []
              else r == Some(old(Contents())[0]) && Contents() == old(Contents())[1..]
      ensures spine == if old(spine) == [] then [] else old(spine)[1..]
    {
      if elemNum == 0 { return None; }
      var item := first;
      first := item.next;
      if last == item { last := null; }
      elemNum := elemNum - 1;
      spine := spine[1..];
      r := Some(item.data);
    }

    method Top() returns (r: Option<T>)
      requires Valid()
      ensures r == if Contents() == [] then None else Some(Contents()[0])
    {
      if elemNum == 0 { return None; }
      r := Some(first.data);
    }

    method GetN(n: nat) returns (r: Option<T>)
      requires Valid()
      ensures r == if n < |Contents()| then Some(Contents()[n]) else None
    {
      if n >= elemNum { return None; }
      var i, item := 0, first;
      while i < n
        invariant 0 <= i <= n && item == spine[i]
      {
        item := item.next;
        i := i + 1;
      }
      r := Some(item.data);
    }

    /** The first element that the condition hits. */
    method Find(hit: T -> bool) returns (r: Option<T>)
      requires Valid()
      ensures r == FirstSuch(Contents(), hit)
    {
      var item := first;
      ghost var i := 0;
      assert Contents()[0..] == Contents();
      while item != null && !hit(item.data)
        invariant 0 <= i <= |spine|
        invariant item == if i < |spine| then spine[i] else null
        invariant FirstSuch(Contents(), hit) == FirstSuch(Contents()[i..], hit)
        decreases |spine| - i
      {
        assert Contents()[i..][1..] == Contents()[i + 1..];
        assert i + 1 < |spine| ==> item.next == spine[i + 1];
        item := item.next;
        i := i + 1;
      }
      if item != null { r := Some(item.data); } else { r := None; }
    }
  }

  function FirstSuch<T>(s: seq<T>, hit: T -> bool): (r: Option<T>)
    ensures r.Some? ==> r.value in s && hit(r.value)
    ensures r.None? ==> forall x :: x in s ==> !hit(x)
  {
    if s == [] then None else if hit(s[0]) then Some(s[0]) else FirstSuch(s[1..], hit)
  }

  // ---- the calls of a SyncQueue as steps

  datatype Channel<T> = Channel(items: seq<T>, maxSize: int, term: bool)

  datatype PushStep = Dropped | PushWaits | Pushed

  /** A push after term is dropped; a full queue makes it wait. */
  function PushOn<T>(q: Channel<T>, x: T): (PushStep, Channel<T>) {
    if q.term then (Dropped, q) else ResumeOn(q, x)
  }

  /** A push that has waited does not look at term again. */
  function ResumeOn<T>(q: Channel<T>, x: T): (PushStep, Channel<T>) {
    if q.maxSize > 0 && |q.items| >= q.maxSize then (PushWaits, q) else (Pushed, q.(items := q.items + [x]))
  }

  datatype TakeStep<T> = Ended | TakeWaits | Took(item: T)

  /** sync_queue_get_top: the element stays. */
  function TopOf<T>(q: Channel<T>): TakeStep<T> {
    if q.items != [] then Took(q.items[0]) else if q.term then Ended else TakeWaits
  }

  function PopFrom<T>(q: Channel<T>): (TakeStep<T>, Channel<T>) {
    (TopOf(q), if q.items == [] then q else q.(items := q.items[1..]))
  }

  class SyncQueue<T> {
    const queue: Queue<T>
    const maxSize: int
    var term: bool

    ghost predicate Valid()
      reads this, queue, queue.spine
    {
      queue.Valid() && (maxSize > 0 ==> queue.elemNum <= maxSize)
    }

    ghost function Abs(): Channel<T>
      reads this, queue, queue.spine
    {
      Channel(queue.Contents(), maxSize, term)
    }

    constructor (size: int)
      ensures Valid() && fresh(queue) && fresh(queue.spine) && Abs() == Channel([], size, false)
    {
      queue := new Queue();
      maxSize, term := size, false;
    }

    method Push(item: T) returns (step: PushStep)
      requires Valid()
      modifies queue, queue.spine
      ensures Valid() && (step, Abs()) == PushOn(old(Abs()), item)
      ensures step.Dropped? <==> term
      ensures step.PushWaits? <==> !term && maxSize > 0 && |old(queue.Contents())| >= maxSize
      ensures queue.Contents() == old(queue.Contents()) + (if step.Pushed? then [item] else [])
    {
      if term { return Dropped; }
      step := Resume(item);
    }

    method Resume(item: T) returns (step: PushStep)
      requires Valid()
      modifies queue, queue.spine
      ensures Valid() && (step, Abs()) == ResumeOn(old(Abs()), item)
      ensures step == if maxSize > 0 && |old(queue.Contents())| >= maxSize then PushWaits else Pushed
      ensures queue.Contents() == old(queue.Contents()) + (if step.Pushed? then [item] else [])
    {
      if maxSize > 0 && queue.elemNum >= maxSize { return PushWaits; }
      queue.Push(item);
      step := Pushed;
    }

    method Pop() returns (step: TakeStep<T>)
      requires Valid()
      modifies queue
      ensures Valid() && (step, Abs()) == PopFrom(old(Abs()))
      ensures var s := old(queue.Contents());
        if s == [] then queue.Contents() == [] && step == (if term then Ended else TakeWaits)
        else queue.Contents() == s[1..] && step == Took(s[0])
    {
      if queue.elemNum == 0 {
        return if term then Ended else TakeWaits;
      }
      var item := queue.Pop();
      step := Took(item.value);
    }

    method GetTop() returns (step: TakeStep<T>)
      requires Valid()
      ensures step == TopOf(Abs())
      ensures var s := queue.Contents(); step == if s != [] then Took(s[0]) else if term then Ended else TakeWaits
    {
      if queue.elemNum == 0 {
        return if term then Ended else TakeWaits;
      }
      var item := queue.Top();
      step := Took(item.value);
    }

    method Find(hit: T -> bool) returns (r: Option<T>)
      requires Valid()
      ensures r == FirstSuch(Abs().items, hit)
    {
      r := queue.Find(hit);
    }

    method Term()
      requires Valid()
      modifies this
      ensures Valid() && Abs() == old(Abs()).(term := true)
    {
      term := true;
    }
  }
}
