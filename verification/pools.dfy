/** The pool of bencode writers. Every pooled writer is empty and owns its buffer, so
    that nothing of an earlier reply is left in a later one. */
module Pools {
  import opened Bytes
  import opened Bencode
  import opened Dictionary

  class DictionaryPool {
    var free: set<Dictionary>
    var created: int32

    ghost function Buffers(): set<object>
      reads this, free
    {
      set d | d in free :: d.buf
    }

    ghost predicate Valid()
      reads this, free, Buffers()
    {
      && (forall d | d in free :: d.Valid() && d.Contents() == [D])
      && (forall d, e | d in free && e in free :: d != e ==> d.buf != e.buf)
    }

    /** A writer that is not in the pool shares no buffer with one that is. */
    ghost predicate Apart(d: Dictionary)
      reads this, free, d
    {
      d !in free && forall e | e in free :: e.buf != d.buf
    }

    constructor ()
      ensures Valid() && free == {} && created == 0
    {
      free, created := {}, 0;
    }

    /** Any pooled writer, or a new one. */
    method Get() returns (d: Dictionary)
      requires Valid()
      modifies this
      ensures Valid() && Apart(d) && d.Valid() && d.Contents() == [D]
      ensures free == old(free) - {d} && (d in old(free) || (fresh(d) && fresh(d.buf)))
    {
      var usePooled: bool := *;
      if usePooled && free != {} {
        d :| d in free;
        free := free - {d};
      } else {
        created := I32(created + 1);
        d := new Dictionary();
      }
    }

    /** The writer is reset first. */
    method Put(d: Dictionary)
      requires Valid() && Apart(d) && d.Valid()
      modifies this`free, d, d.buf
      ensures Valid() && free == old(free) + {d} && (d.buf == old(d.buf) || fresh(d.buf))
    {
      d.Reset();
      free := free + {d};
    }
  }
}
