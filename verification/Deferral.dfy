/** Errors about missing resources that are put off in check mode, because an upstream step would provide
    the resource once applied (isDeferred in internal/engine/exec.go). */
module Deferral {
  import opened StepGraph
  import opened Wrappers

  /** Would an error about the missing resource be put off, given what upstream steps would provide? */
  ghost predicate Deferrable(provided: set<Resource>, missing: Resource) {
    missing in provided || exists q :: q in provided && ParentOf(missing, q)
  }

  /** isDeferred, for an error that names the resource it misses, or names none. */
  method IsDeferred(provided: set<Resource>, missing: Option<Resource>) returns (deferred: bool)
    ensures deferred <==> missing.Some? && Deferrable(provided, missing.value)
  {
    if |provided| == 0 || missing.None? {
      return false;
    }
    var r := missing.value;
    if r in provided {
      return true;
    }
    if r.kind == PathKind {
      // The source ranges over a map here, in no particular order.
      var todo := provided;
      while todo != {}
        invariant todo <= provided
        invariant forall q :: q in provided && q !in todo ==> !ParentOf(r, q)
        decreases todo
      {
        var q :| q in todo;
        if q.kind == PathKind && r.name + "/" <= q.name {
          assert ParentOf(r, q);
          return true;
        }
        todo := todo - {q};
      }
    }
    return false;
  }
}
