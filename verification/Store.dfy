/** The write-back database: writes wait in a queue, Flush compresses them to disk, and neither is visible. */
module Store {
  import opened Bytes
  import opened Rle

  type Map = map<seq<Byte>, seq<Byte>>

  class Database {
    var queue: Map
    var disk: Map
    /** The last value put under each key and not deleted since. */
    ghost var contents: Map

    ghost predicate Valid()
      reads this
    {
      && contents.Keys == queue.Keys + disk.Keys
      && (forall k | k in queue :: contents[k] == queue[k])
      && (forall k | k in disk && k !in queue :: disk[k] == Compressed(contents[k]))
    }

    constructor ()
      ensures Valid() && contents == map[]
    {
      queue, disk, contents := map[], map[], map[];
    }

    method Put(key: seq<Byte>, value: seq<Byte>)
      requires Valid()
      modifies this
      ensures Valid() && contents == old(contents)[key := value]
    {
      queue := queue[key := value];
      contents := contents[key := value];
    }

    /** The last value put, exactly when it is still queued or survives the codec; None when there is none. */
    method Get(key: seq<Byte>) returns (r: Option<seq<Byte>>)
      requires Valid()
      ensures key !in contents ==> r == None
      ensures key in contents ==> (r == Some(contents[key]) <==> key in queue || Faithful(contents[key]))
      ensures key in contents && key !in queue ==> r == Decompressed(Compressed(contents[key])) && r.Some?
    {
      if key in queue {
        return Some(queue[key]);
      }
      if key !in disk {
        return None;
      }
      RoundTrip(contents[key]);
      r := Decompress(disk[key]);
    }

    method Delete(key: seq<Byte>)
      requires Valid()
      modifies this
      ensures Valid() && contents == old(contents) - {key}
    {
      queue := queue - {key};
      disk := disk - {key};
      contents := contents - {key};
    }

    /** Everything queued goes to disk, compressed; the contents stay. */
    method Flush()
      requires Valid()
      modifies `queue, `disk
      ensures Valid() && queue == map[] && disk.Keys == contents.Keys
    {
      hide Compressed;
      var batch := Batch(queue);
      queue := map[];
      disk := disk + batch;
    }
  }

  /** The batch of compressed values. */
  method Batch(queue: Map) returns (batch: Map)
    ensures batch.Keys == queue.Keys && forall k | k in batch :: batch[k] == Compressed(queue[k])
  {
    hide Compressed;
    batch := map[];
    var todo := queue.Keys;
    while todo != {}
      invariant todo <= queue.Keys && batch.Keys == queue.Keys - todo
      invariant forall k | k in batch :: batch[k] == Compressed(queue[k])
      decreases todo
    {
      var k :| k in todo;
      var c := Compress(queue[k]);
      batch := batch[k := c];
      todo := todo - {k};
    }
  }
}
