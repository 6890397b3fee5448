/** `poverride(target, sparse)`: write the items of a sparse tree over a
    target tree whose sub-sections already exist.

    As with `replicate`, the target is a value here and the operation gives
    back the value it is left with, complete or as far as it got. */
module SparseOverride {
  import opened ConfigNode

  /** An empty `sparse` changes nothing (the original only rebinds its
      local name); otherwise every item of `sparse` is applied in
      iteration order. */
  function Overridden(target: Dict, sparse: Dict, path: seq<string>): Outcome
    decreases Size(sparse), 1
  {
    if IsEmpty(sparse) then Done(target)
    else OverrideItems(target, Items(sparse), 0, Size(sparse), path)
  }

  /** The loop over `sparse.items()` from the `i`-th item on. */
  function OverrideItems(t: Dict, es: seq<Entry>, i: nat, bound: nat, path: seq<string>): Outcome
    requires i <= |es|
    requires forall j :: 0 <= j < |es| && es[j].val.Section? ==> Size(es[j].val.d) < bound
    decreases bound, 0, |es| - i
  {
    if i == |es| then Done(t)
    else
      var r := OverrideEntry(t, es[i], bound, path);
      if r.Failed? then r else OverrideItems(r.d, es, i + 1, bound, path)
  }

  /** One item: a section is looked up in the target (a missing one is a
      `KeyError`) and overridden in place; a list or scalar is assigned. */
  function OverrideEntry(t: Dict, e: Entry, bound: nat, path: seq<string>): Outcome
    requires e.val.Section? ==> Size(e.val.d) < bound
    decreases bound, 0, 0
  {
    if e.val.Section? then
      var child := Get(t, e.key);
      if child.None? then Failed(t, MissingKey(path + [e.key]))
      else if child.value.Section? then
        var r := Overridden(child.value.d, e.val.d, path + [e.key]);
        var t2 := Put(t, e.key, Section(r.d));
        if r.Failed? then Failed(t2, r.err) else Done(t2)
      // A scalar or a list cannot take items; an empty sparse section
      // returns before trying.
      else if IsEmpty(e.val.d) then Done(t)
      else Failed(t, TypeMismatch(path + [e.key]))
    else Done(Set(t, e.key, e.val))
  }

  // ---------------------------------------------------------------- method

  /** `poverride(target, sparse)`. */
  method POverride(target: Dict, sparse: Dict, path: seq<string>) returns (r: Outcome)
    ensures r == Overridden(target, sparse, path)
    decreases Size(sparse), 1
  {
    if IsEmpty(sparse) {
      return Done(target);
    }
    r := OverrideAll(target, Items(sparse), Size(sparse), path);
  }

  /** The loop of lines 137-143 over the items `es` of `sparse`. */
  method OverrideAll(target: Dict, es: seq<Entry>, bound: nat, path: seq<string>) returns (r: Outcome)
    requires forall j :: 0 <= j < |es| && es[j].val.Section? ==> Size(es[j].val.d) < bound
    ensures r == OverrideItems(target, es, 0, bound, path)
    decreases bound, 0, 1
  {
    var t := target;
    var i := 0;
    while i < |es|
      invariant 0 <= i <= |es|
      invariant OverrideItems(t, es, i, bound, path) == OverrideItems(target, es, 0, bound, path)
    {
      var step := OverrideItem(t, es[i], bound, path);
      if step.Failed? {
        return step;
      }
      t := step.d;
      i := i + 1;
    }
    return Done(t);
  }

  /** Lines 137-143 for one item `(key, val)` of `sparse`. */
  method OverrideItem(t: Dict, e: Entry, bound: nat, path: seq<string>) returns (r: Outcome)
    requires e.val.Section? ==> Size(e.val.d) < bound
    ensures r == OverrideEntry(t, e, bound, path)
    decreases bound, 0, 0
  {
    if !e.val.Section? {
      return Done(Set(t, e.key, e.val));
    }
    var child := Get(t, e.key);
    if child.None? {
      return Failed(t, MissingKey(path + [e.key]));
    }
    if child.value.Section? {
      var sub := POverride(child.value.d, e.val.d, path + [e.key]);
      var t2 := Put(t, e.key, Section(sub.d));
      if sub.Failed? {
        return Failed(t2, sub.err);
      }
      return Done(t2);
    } else if !IsEmpty(e.val.d) {
      return Failed(t, TypeMismatch(path + [e.key]));
    }
    return Done(t);
  }

  // ------------------------------------------------------------ properties

  /** The target already holds every section `sparse` names: each section
      item of `sparse` is a section of the target that fits in turn, or a
      scalar or list facing an empty sparse section. */
  predicate Fits(target: Dict, sparse: Dict)
    decreases Size(sparse), 1
  {
    var es := Items(sparse);
    forall i :: 0 <= i < |es| ==> FitsEntry(target, es[i], Size(sparse))
  }

  predicate FitsEntry(target: Dict, e: Entry, bound: nat)
    requires e.val.Section? ==> Size(e.val.d) < bound
    decreases bound, 0
  {
    e.val.Section? ==>
      match Get(target, e.key)
      case None => false
      case Some(x) => if x.Section? then Fits(x.d, e.val.d) else IsEmpty(e.val.d)
  }

  /** Every item of `sparse` has been written: a list or scalar holds the
      sparse value, a section is a section where the sparse one is
      applied in turn. */
  predicate Applied(target: Dict, sparse: Dict)
    decreases Size(sparse), 1
  {
    var es := Items(sparse);
    forall i :: 0 <= i < |es| ==> AppliedEntry(target, es[i], Size(sparse))
  }

  predicate AppliedEntry(target: Dict, e: Entry, bound: nat)
    requires e.val.Section? ==> Size(e.val.d) < bound
    decreases bound, 0
  {
    match Get(target, e.key)
    case None => false
    case Some(x) =>
      if e.val.Section? then x.Section? ==> Applied(x.d, e.val.d)
      else x == e.val
  }

  /** One item leaves every other key's lookup, own or through the
      side-section, as it was. */
  lemma EntryFrame(t: Dict, e: Entry, bound: nat, path: seq<string>, k: string)
    requires e.val.Section? ==> Size(e.val.d) < bound
    requires k != e.key
    ensures var r := OverrideEntry(t, e, bound, path).d;
      Get(r, k) == Get(t, k) && OwnGet(r, k) == OwnGet(t, k)
  {
    if e.val.Section? {
      var child := Get(t, e.key);
      if child.Some? && child.value.Section? {
        PutEffect(t, e.key, Section(Overridden(child.value.d, e.val.d, path + [e.key]).d));
      }
    } else {
      SetEffect(t, e.key, e.val);
    }
  }

  lemma {:induction false} ItemsFrame(t: Dict, es: seq<Entry>, i: nat, bound: nat, path: seq<string>, k: string)
    requires i <= |es|
    requires forall j :: 0 <= j < |es| && es[j].val.Section? ==> Size(es[j].val.d) < bound
    requires forall j :: i <= j < |es| ==> es[j].key != k
    ensures var r := OverrideItems(t, es, i, bound, path).d;
      Get(r, k) == Get(t, k) && OwnGet(r, k) == OwnGet(t, k)
    decreases |es| - i
  {
    if i < |es| {
      EntryFrame(t, es[i], bound, path, k);
      var r := OverrideEntry(t, es[i], bound, path);
      if !r.Failed? {
        ItemsFrame(r.d, es, i + 1, bound, path, k);
      }
    }
  }

  /** Keys that `sparse` does not name keep their lookup, own or through
      the side-section, whether `poverride` completes or raises. */
  lemma OverrideFrame(target: Dict, sparse: Dict, path: seq<string>, k: string)
    requires !Has(sparse, k)
    ensures var r := Overridden(target, sparse, path).d;
      Get(r, k) == Get(target, k) && OwnGet(r, k) == OwnGet(target, k)
  {
    if !IsEmpty(sparse) {
      var es := Items(sparse);
      assert forall j :: 0 <= j < |es| ==> es[j].key == Keys(sparse)[j] && Keys(sparse)[j] in Keys(sparse);
      ItemsFrame(target, es, 0, Size(sparse), path, k);
    }
  }

  /** One item goes through exactly when the target fits it. */
  lemma {:induction false} EntryDone(t: Dict, e: Entry, bound: nat, path: seq<string>)
    requires e.val.Section? ==> Size(e.val.d) < bound && WF(e.val.d)
    ensures OverrideEntry(t, e, bound, path).Done? <==> FitsEntry(t, e, bound)
    decreases bound, 0, 0
  {
    if e.val.Section? {
      var child := Get(t, e.key);
      if child.Some? && child.value.Section? {
        OverrideDone(child.value.d, e.val.d, path + [e.key]);
      }
    }
  }

  lemma {:induction false} ItemsDone(t: Dict, es: seq<Entry>, i: nat, bound: nat, path: seq<string>)
    requires i <= |es|
    requires forall j :: 0 <= j < |es| && es[j].val.Section? ==> Size(es[j].val.d) < bound && WF(es[j].val.d)
    requires forall j, j' :: i <= j < j' < |es| ==> es[j].key != es[j'].key
    ensures OverrideItems(t, es, i, bound, path).Done? <==> forall j :: i <= j < |es| ==> FitsEntry(t, es[j], bound)
    decreases bound, 0, |es| - i
  {
    if i < |es| {
      var r := OverrideEntry(t, es[i], bound, path);
      EntryDone(t, es[i], bound, path);
      if r.Done? {
        ItemsDone(r.d, es, i + 1, bound, path);
        forall j | i < j < |es|
          ensures FitsEntry(r.d, es[j], bound) == FitsEntry(t, es[j], bound)
        {
          EntryFrame(t, es[i], bound, path, es[j].key);
        }
      }
    }
  }

  /** `poverride` completes exactly when every sub-section `sparse` names
      already exists in the target; otherwise it raises. */
  lemma {:induction false} OverrideDone(target: Dict, sparse: Dict, path: seq<string>)
    requires WF(sparse)
    ensures Overridden(target, sparse, path).Done? <==> Fits(target, sparse)
    decreases Size(sparse), 1
  {
    if !IsEmpty(sparse) {
      var es := Items(sparse);
      KeysUnique(sparse);
      forall j | 0 <= j < |es| && es[j].val.Section?
        ensures WF(es[j].val.d)
      {
        GetWF(sparse, es[j].key);
      }
      ItemsDone(target, es, 0, Size(sparse), path);
    }
  }

  lemma {:induction false} EntryApplied(t: Dict, e: Entry, bound: nat, path: seq<string>)
    requires e.val.Section? ==> Size(e.val.d) < bound && WF(e.val.d)
    requires OverrideEntry(t, e, bound, path).Done?
    ensures AppliedEntry(OverrideEntry(t, e, bound, path).d, e, bound)
    decreases bound, 0, 0
  {
    if e.val.Section? {
      var child := Get(t, e.key);
      if child.value.Section? {
        var r := Overridden(child.value.d, e.val.d, path + [e.key]);
        OverrideApplied(child.value.d, e.val.d, path + [e.key]);
        PutEffect(t, e.key, Section(r.d));
      }
    } else {
      SetEffect(t, e.key, e.val);
    }
  }

  lemma AppliedOnlyKey(t: Dict, t': Dict, e: Entry, bound: nat)
    requires e.val.Section? ==> Size(e.val.d) < bound
    requires Get(t, e.key) == Get(t', e.key)
    ensures AppliedEntry(t, e, bound) == AppliedEntry(t', e, bound)
  {
  }

  lemma {:induction false} ItemsApplied(t: Dict, es: seq<Entry>, i: nat, bound: nat, path: seq<string>)
    requires i <= |es|
    requires forall j :: 0 <= j < |es| && es[j].val.Section? ==> Size(es[j].val.d) < bound && WF(es[j].val.d)
    requires forall j, j' :: i <= j < j' < |es| ==> es[j].key != es[j'].key
    requires OverrideItems(t, es, i, bound, path).Done?
    ensures forall j :: i <= j < |es| ==> AppliedEntry(OverrideItems(t, es, i, bound, path).d, es[j], bound)
    decreases bound, 0, |es| - i
  {
    if i < |es| {
      var r := OverrideEntry(t, es[i], bound, path);
      EntryApplied(t, es[i], bound, path);
      ItemsApplied(r.d, es, i + 1, bound, path);
      ItemsFrame(r.d, es, i + 1, bound, path, es[i].key);
      AppliedOnlyKey(r.d, OverrideItems(t, es, i, bound, path).d, es[i], bound);
    }
  }

  /** After a complete `poverride(target, sparse)` every leaf of `sparse`
      is in the target, whether or not its key existed before. */
  lemma {:induction false} OverrideApplied(target: Dict, sparse: Dict, path: seq<string>)
    requires WF(sparse)
    requires Overridden(target, sparse, path).Done?
    ensures Applied(Overridden(target, sparse, path).d, sparse)
    decreases Size(sparse), 1
  {
    if !IsEmpty(sparse) {
      var es := Items(sparse);
      KeysUnique(sparse);
      forall j | 0 <= j < |es| && es[j].val.Section?
        ensures WF(es[j].val.d)
      {
        GetWF(sparse, es[j].key);
      }
      ItemsApplied(target, es, 0, Size(sparse), path);
    }
  }
}
