/** Types the whole pipeline shares. */
module Common {
  type Byte = x: nat | x < 256

  datatype Option<+T> = None | Some(value: T)

  /** A SHA-1 digest. Two chunks with the same digest are taken to be the same chunk. */
  datatype Digest = Digest(hash: seq<Byte>)
  type ChunkFp = f: Digest | |f.hash| == 20 witness Digest(seq(20, _ => 0))

  type ContainerId = int
  const TEMPORARY_ID: ContainerId := -1

  const CONTAINER_SIZE: nat := 4194304
  const CONTAINER_META_SIZE: nat := 32768
  const CONTAINER_META_ENTRY: nat := 28
  const DATA_AREA: nat := CONTAINER_SIZE - CONTAINER_META_SIZE

  /** A recipe entry: a chunk pointer. */
  datatype Pointer = Pointer(fp: ChunkFp, id: ContainerId, size: nat)

  /** Some element, always the same one for the same set. */
  ghost function AnyOf<T>(s: set<T>): (x: T)
    requires s != {}
    ensures x in s
  {
    var x :| x in s;
    x
  }

  /** g_hash_table_iter_next: some key not yet visited. */
  method IterNext<T(==)>(left: set<T>) returns (x: T)
    requires left != {}
    ensures x in left
  {
    x :| x in left;
  }

  // ---- sequences

  function Flat<T>(parts: seq<seq<T>>): seq<T> {
    if parts == [] then [] else parts[0] + Flat(parts[1..])
  }

  lemma {:induction false} FlatSnoc<T>(parts: seq<seq<T>>, part: seq<T>)
    ensures Flat(parts + [part]) == Flat(parts) + part
  {
    if parts == [] {
      assert parts + [part] == [part] && [part][1..] == [];
    } else {
      assert (parts + [part])[1..] == parts[1..] + [part];
      FlatSnoc(parts[1..], part);
    }
  }

  lemma Regroup<T>(a: seq<T>, b: seq<T>, c: seq<T>)
    ensures a + b + c == a + (b + c)
  {}

  lemma Regroup4<T>(a: seq<T>, b: seq<T>, c: seq<T>, d: seq<T>)
    ensures a + (b + (c + d)) == (a + b + c) + d
  {}
}
