/**
 * The dedup set of the scope creator: the referents of the scopes created so
 * far.  A scope is offered by its referent; a scope without one (None) is
 * never reported as present and is always accepted.
 */
module NodeSets {
  import opened Wrappers

  class NodeSet {
    var pointers: set<int>

    constructor ()
      ensures pointers == {}
    {
      pointers := {};
    }

    /** contains: only a scope with a referent can be reported present. */
    method Contains(referent: Option<int>) returns (present: bool)
      ensures present <==> (referent.Some? && referent.value in pointers)
    {
      present := referent.Some? && referent.value in pointers;
    }

    /** insert: true when the scope is new (or has no referent); the referent is then recorded. */
    method Insert(referent: Option<int>) returns (inserted: bool)
      modifies this
      ensures inserted <==> (referent.None? || referent.value !in old(pointers))
      ensures referent.Some? ==> pointers == old(pointers) + {referent.value}
      ensures referent.None? ==> pointers == old(pointers)
    {
      if referent.Some? {
        inserted := referent.value !in pointers;
        pointers := pointers + {referent.value};
      } else {
        inserted := true;
      }
    }

    /** erase: forget the scope's referent, if it has one. */
    method Erase(referent: Option<int>)
      modifies this
      ensures referent.Some? ==> pointers == old(pointers) - {referent.value}
      ensures referent.None? ==> pointers == old(pointers)
    {
      if referent.Some? {
        pointers := pointers - {referent.value};
      }
    }
  }
}
