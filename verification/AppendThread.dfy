/** The filter, append and dedup threads around the container queue, as interleaved atomic steps. */
module AppendThread {
  import opened Common
  import opened SyncQueue

  /** A sealed container: its id and what is retrieved as its metadata. */
  datatype Box = Box(id: nat, fps: set<ChunkFp>)

  /** Who holds index_lock. Filter takes it for good when dedup has ended. */
  datatype Lock = Free | ByFilter | ByDedup

  /** write_container_async: nothing, a container about to be pushed, or a push that waits. */
  datatype Filter = Filtering | Sealed(box: Box) | Waiting(box: Box)

  /** append_thread between its calls. */
  datatype Append = Idle | Holding(box: Box) | Wrote(box: Box)

  /** retrieve_container_meta_by_id between the queue and the disk. */
  datatype Lookup = NoLookup | NotQueued(id: nat) | Answer(id: nat, fps: set<ChunkFp>)

  datatype Threads = Threads(
    lock: Lock,
    filter: Filter,
    append: Append,
    lookup: Lookup,
    queue: Channel<Box>,
    disk: map<nat, set<ChunkFp>>,
    visible: map<nat, set<ChunkFp>>,    // history: the ids index_update has put into the key-value store
    accepted: seq<Box>,                 // history: what sync_queue_push has accepted, in order
    stored: map<nat, set<ChunkFp>>)     // history: what earlier backups have published

  /** What the backup finds: everything published before is in the index and on disk. */
  predicate Found(stored: map<nat, set<ChunkFp>>, disk: map<nat, set<ChunkFp>>) {
    forall id :: id in stored ==> id in disk && disk[id] == stored[id]
  }

  function Start(maxSize: int, stored: map<nat, set<ChunkFp>>, disk: map<nat, set<ChunkFp>>): Threads {
    Threads(Free, Filtering, Idle, NoLookup, Channel([], maxSize, false), disk, stored, [], stored)
  }

  datatype Step =
    | FilterLocks | FilterUnlocks | Publish(box: Box) | Push | Term
    | AppendTop | AppendWrite | AppendPop
    | DedupLocks | DedupUnlocks | AskQueue(id: nat) | ReadDisk

  /** When a thread can take the step; a container gets a fresh id, and the store is closed only after
      the filter thread has ended. */
  predicate Enabled(t: Threads, s: Step) {
    match s
    case FilterLocks => t.lock.Free? && !t.queue.term
    case FilterUnlocks => t.lock.ByFilter? && t.filter.Filtering?
    case Publish(b) => t.lock.ByFilter? && t.filter.Filtering? && !t.queue.term && b.id !in t.visible
    case Push => !t.filter.Filtering?
    case Term => t.lock.ByFilter? && t.filter.Filtering?
    case AppendTop => t.append.Idle? && TopOf(t.queue).Took?
    case AppendWrite => t.append.Holding?
    case AppendPop => t.append.Wrote?
    case DedupLocks => t.lock.Free?
    case DedupUnlocks => t.lock.ByDedup? && !t.lookup.NotQueued?
    case AskQueue(id) => t.lock.ByDedup? && !t.lookup.NotQueued? && id in t.visible
    case ReadDisk => t.lookup.NotQueued?
  }

  function HasId(id: nat): Box -> bool {
    (b: Box) => b.id == id
  }

  function Next(t: Threads, s: Step): Threads
    requires Enabled(t, s)
  {
    match s
    case FilterLocks => t.(lock := ByFilter)
    case FilterUnlocks => t.(lock := Free)
    case Publish(b) => t.(filter := Sealed(b), visible := t.visible[b.id := b.fps])
    case Push =>
      var b := t.filter.box;
      var (r, q) := if t.filter.Sealed? then PushOn(t.queue, b) else ResumeOn(t.queue, b);
      t.(queue := q, filter := if r.PushWaits? then Waiting(b) else Filtering,
         accepted := if r.Pushed? then t.accepted + [b] else t.accepted)
    case Term => t.(queue := t.queue.(term := true))
    case AppendTop => t.(append := Holding(TopOf(t.queue).item))
    case AppendWrite => t.(disk := t.disk[t.append.box.id := t.append.box.fps], append := Wrote(t.append.box))
    case AppendPop => t.(queue := PopFrom(t.queue).1, append := Idle)
    case DedupLocks => t.(lock := ByDedup)
    case DedupUnlocks => t.(lock := Free, lookup := NoLookup)
    case AskQueue(id) =>
      var found := FirstSuch(t.queue.items, HasId(id));
      t.(lookup := if found.Some? then Answer(id, found.value.fps) else NotQueued(id))
    case ReadDisk =>
      var id := t.lookup.id;
      t.(lookup := Answer(id, if id in t.disk then t.disk[id] else {}))
  }

  // ---- what every interleaving keeps

  predicate Findable(t: Threads, id: nat, fps: set<ChunkFp>) {
    Box(id, fps) in t.queue.items || (id in t.disk && t.disk[id] == fps)
  }

  /** The box that filter is about to push is published and new to the queue. */
  ghost predicate PushOk(t: Threads) {
    t.filter != Filtering ==>
      var b := t.filter.box;
      t.lock.ByFilter? && !t.queue.term && b.id in t.visible && t.visible[b.id] == b.fps
      && forall a :: a in t.accepted ==> a.id != b.id
  }

  /** FIFO and bounded: what was accepted is what has left the queue, then what is queued. */
  ghost predicate QueueOk(t: Threads) {
    && (t.queue.maxSize > 0 ==> |t.queue.items| <= t.queue.maxSize)
    && |t.queue.items| <= |t.accepted|
    && t.queue.items == t.accepted[|t.accepted| - |t.queue.items|..]
    && (forall b :: b in t.accepted ==> b.id in t.visible && t.visible[b.id] == b.fps)
  }

  /** Nothing accepted is lost: it is queued or on disk, and the append thread writes before it pops. */
  ghost predicate KeptOk(t: Threads) {
    && (forall b :: b in t.accepted ==> Findable(t, b.id, b.fps))
    && (t.append != Idle ==> t.queue.items != [] && t.append.box == t.queue.items[0])
    && (t.append.Wrote? ==> t.append.box.id in t.disk && t.disk[t.append.box.id] == t.append.box.fps)
  }

  /** Every visible id was there before or was accepted, except the one that filter is still pushing. */
  ghost predicate VisibleOk(t: Threads) {
    forall id :: id in t.visible && (t.filter != Filtering ==> id != t.filter.box.id) ==>
      id in t.stored || Box(id, t.visible[id]) in t.accepted
  }

  /** What was there before stays, and no id is used twice. */
  ghost predicate StoredOk(t: Threads) {
    && (forall id :: id in t.stored ==> id in t.visible && t.visible[id] == t.stored[id])
    && (forall id :: id in t.stored ==> id in t.disk && t.disk[id] == t.stored[id])
    && (forall b :: b in t.accepted ==> b.id !in t.stored)
    && (t.filter != Filtering ==> t.filter.box.id !in t.stored)
  }

  /** A lookup that has missed the queue will find the container on disk. */
  ghost predicate LookupOk(t: Threads) {
    t.lookup != NoLookup ==>
      && t.lock.ByDedup? && t.lookup.id in t.visible
      && (t.lookup.NotQueued? ==> t.lookup.id in t.disk && t.disk[t.lookup.id] == t.visible[t.lookup.id])
      && (t.lookup.Answer? ==> t.lookup.fps == t.visible[t.lookup.id])
  }

  ghost predicate Good(t: Threads) {
    PushOk(t) && QueueOk(t) && KeptOk(t) && VisibleOk(t) && StoredOk(t) && LookupOk(t)
  }

  lemma PushKeeps(t: Threads)
    requires Good(t) && Enabled(t, Push)
    ensures Good(Next(t, Push))
  {
    var t' := Next(t, Push);
    assert t'.accepted == t.accepted || t'.accepted == t.accepted + [t.filter.box];
    forall b | b in t'.accepted ensures Findable(t', b.id, b.fps) {
      if b in t.accepted { assert Findable(t, b.id, b.fps); }
    }
  }

  lemma WriteKeeps(t: Threads)
    requires Good(t) && t.append.Holding?
    ensures Good(Next(t, AppendWrite))
  {
    var t' := Next(t, AppendWrite);
    assert t.append.box in t.accepted;
    forall b | b in t.accepted ensures Findable(t', b.id, b.fps) {
      assert Findable(t, b.id, b.fps);
    }
  }

  lemma PopKeeps(t: Threads)
    requires Good(t) && t.append.Wrote?
    ensures Good(Next(t, AppendPop))
  {
    var t' := Next(t, AppendPop);
    assert t.queue.items == [t.append.box] + t'.queue.items;
    forall b | b in t.accepted ensures Findable(t', b.id, b.fps) {
      assert Findable(t, b.id, b.fps);
    }
  }

  lemma AskKeeps(t: Threads, id: nat)
    requires Good(t) && Enabled(t, AskQueue(id))
    ensures Good(Next(t, AskQueue(id)))
  {
    var box := Box(id, t.visible[id]);
    assert id !in t.stored ==> box in t.accepted && Findable(t, id, box.fps);
    if box in t.queue.items { assert HasId(id)(box); }
    assert forall b :: b in t.queue.items ==> b in t.accepted;
    assert forall b :: b in t.accepted ==> Findable(Next(t, AskQueue(id)), b.id, b.fps) == Findable(t, b.id, b.fps);
  }

  lemma PublishKeeps(t: Threads, b: Box)
    requires Good(t) && Enabled(t, Publish(b))
    ensures Good(Next(t, Publish(b)))
  {
    var t' := Next(t, Publish(b));
    assert forall a :: a in t.accepted ==> Findable(t', a.id, a.fps) == Findable(t, a.id, a.fps);
  }

  lemma ReadKeeps(t: Threads)
    requires Good(t) && Enabled(t, ReadDisk)
    ensures Good(Next(t, ReadDisk))
  {
    var t' := Next(t, ReadDisk);
    assert forall a :: a in t.accepted ==> Findable(t', a.id, a.fps) == Findable(t, a.id, a.fps);
  }

  lemma StepKeeps(t: Threads, s: Step)
    requires Good(t) && Enabled(t, s)
    ensures Good(Next(t, s))
  {
    var t' := Next(t, s);
    match s
    case Push => PushKeeps(t);
    case AppendWrite => WriteKeeps(t);
    case AppendPop => PopKeeps(t);
    case AskQueue(id) => AskKeeps(t, id);
    case Publish(b) => PublishKeeps(t, b);
    case ReadDisk => ReadKeeps(t);
    case _ => assert forall b :: b in t.accepted ==> Findable(t', b.id, b.fps) == Findable(t, b.id, b.fps);
  }

  /** None: some step was not enabled. */
  function Run(maxSize: int, stored: map<nat, set<ChunkFp>>, disk: map<nat, set<ChunkFp>>, steps: seq<Step>): Option<Threads> {
    if steps == [] then Some(Start(maxSize, stored, disk))
    else
      var n := |steps| - 1;
      var t := Run(maxSize, stored, disk, steps[..n]);
      if t.None? || !Enabled(t.value, steps[n]) then None else Some(Next(t.value, steps[n]))
  }

  lemma {:induction false} EveryInterleaving(maxSize: int, stored: map<nat, set<ChunkFp>>,
                                             disk: map<nat, set<ChunkFp>>, steps: seq<Step>)
    requires Found(stored, disk) && Run(maxSize, stored, disk, steps).Some?
    ensures Good(Run(maxSize, stored, disk, steps).value) && Run(maxSize, stored, disk, steps).value.queue.maxSize == maxSize
  {
    if steps != [] {
      var n := |steps| - 1;
      EveryInterleaving(maxSize, stored, disk, steps[..n]);
      StepKeeps(Run(maxSize, stored, disk, steps[..n]).value, steps[n]);
    }
  }

  /** Dedup can see exactly what earlier backups and the filter thread have published. */
  lemma {:induction false} VisibleIsPublished(maxSize: int, stored: map<nat, set<ChunkFp>>, disk: map<nat, set<ChunkFp>>,
                                              steps: seq<Step>, id: nat, fps: set<ChunkFp>)
    requires Found(stored, disk) && Run(maxSize, stored, disk, steps).Some?
    ensures var t := Run(maxSize, stored, disk, steps).value;
      (id in t.visible && t.visible[id] == fps) <==> (id in stored && stored[id] == fps) || Publish(Box(id, fps)) in steps
  {
    if steps != [] {
      var n := |steps| - 1;
      VisibleIsPublished(maxSize, stored, disk, steps[..n], id, fps);
      EveryInterleaving(maxSize, stored, disk, steps[..n]);
      var t := Run(maxSize, stored, disk, steps[..n]).value;
      assert steps == steps[..n] + [steps[n]];
      if steps[n].Publish? && steps[n].box.id == id {
        NotPublished(maxSize, stored, disk, steps[..n], id, fps);
      }
    }
  }

  lemma NotPublished(maxSize: int, stored: map<nat, set<ChunkFp>>, disk: map<nat, set<ChunkFp>>, steps: seq<Step>, id: nat,
                     fps: set<ChunkFp>)
    requires Run(maxSize, stored, disk, steps).Some? && id !in Run(maxSize, stored, disk, steps).value.visible
    ensures Publish(Box(id, fps)) !in steps && id !in stored
  {
    if steps != [] {
      var n := |steps| - 1;
      NotPublished(maxSize, stored, disk, steps[..n], id, fps);
      assert steps == steps[..n] + [steps[n]];
    }
  }

  /** In every interleaving, from any disk and index that agree: whatever id dedup can see while it may hold
      index_lock is in the queue or on disk, and a lookup, whether it ends in the queue or on disk, answers with
      that container. */
  lemma InBufferOrOnDisk(maxSize: int, stored: map<nat, set<ChunkFp>>, disk: map<nat, set<ChunkFp>>, steps: seq<Step>,
                      id: nat)
    requires Found(stored, disk) && Run(maxSize, stored, disk, steps).Some?
    ensures var t := Run(maxSize, stored, disk, steps).value;
      && (!t.lock.ByFilter? && id in t.visible ==> Findable(t, id, t.visible[id]))
      && (t.lookup == NotQueued(id) ==> id in t.disk && id in t.visible && t.disk[id] == t.visible[id])
      && (t.lookup.Answer? && t.lookup.id == id ==> id in t.visible && t.lookup.fps == t.visible[id])
  {
    EveryInterleaving(maxSize, stored, disk, steps);
    var t := Run(maxSize, stored, disk, steps).value;
    if !t.lock.ByFilter? && id in t.visible {
      assert id in t.stored || Box(id, t.visible[id]) in t.accepted;
    }
  }

  /** The queue is FIFO and bounded, and when the append thread ends every published container is on
      disk. */
  lemma NothingAcceptedIsLost(maxSize: int, stored: map<nat, set<ChunkFp>>, disk: map<nat, set<ChunkFp>>, steps: seq<Step>,
                      id: nat)
    requires Found(stored, disk) && Run(maxSize, stored, disk, steps).Some?
    ensures var t := Run(maxSize, stored, disk, steps).value;
      && (maxSize > 0 ==> |t.queue.items| <= maxSize)
      && |t.queue.items| <= |t.accepted| && t.queue.items == t.accepted[|t.accepted| - |t.queue.items|..]
      && (TopOf(t.queue).Ended? && id in t.visible ==> id in t.disk && t.disk[id] == t.visible[id])
  {
    EveryInterleaving(maxSize, stored, disk, steps);
    var t := Run(maxSize, stored, disk, steps).value;
    if TopOf(t.queue).Ended? && id in t.visible {
      if id !in t.stored { assert Box(id, t.visible[id]) in t.accepted && Findable(t, id, t.visible[id]); }
    }
  }
}
