/**
 Pools of reusable objects. held is history: the objects that somebody has got and not put back. An
 object is never pooled twice, and never pooled while it is held.
 */
module ObjPool {

  class Pool<T(==)> {
    var free: seq<T>
    ghost var held: set<T>

    ghost predicate Valid()
      reads this
    {
      && (forall i, j :: 0 <= i < j < |free| ==> free[i] != free[j])
      && (forall i :: 0 <= i < |free| ==> free[i] !in held)
    }

    constructor ()
      ensures Valid() && free == [] && held == {}
    {
      free, held := [], {};
    }

    /** Hands out some pooled object or, if there is none or the pool prefers to, the new one. */
    method Get(made: T) returns (t: T)
      requires Valid() && made !in free && made !in held
      modifies this
      ensures Valid()
      ensures t == made || t in old(free)
      ensures t !in old(held) && held == old(held) + {t} && t !in free
      ensures forall x :: x in free ==> x in old(free)
    {
      var k :| 0 <= k <= |free|;
      if k < |free| {
        t := free[k];
        free := free[..k] + free[k + 1..];
      } else {
        t := made;
      }
      held := held + {t};
    }

    method Put(t: T)
      requires Valid() && t in held
      modifies this
      ensures Valid()
      ensures free == old(free) + [t] && held == old(held) - {t}
    {
      free := free + [t];
      held := held - {t};
    }
  }
}
