/** `replicate` and `pdeepcopy`: copy a configuration tree into another.

    The target is changed in place in the original; here each operation
    takes the target's value and gives back the value it is left with.
    `path` names the keys leading from the top-level call to `source`; it is
    only used to say where a failure happened. */
module Replication {
  import opened ConfigNode

  lemma DefaultsSmaller(d: Dict)
    requires d.defaults.Some?
    ensures Size(d.defaults.value) < Size(d)
  {
  }

  /** `replicate(target, source)`: an empty source changes nothing (the
      original only rebinds its local name); otherwise the side-section of
      `source` is deep-copied onto `target`, then every item of `source` is
      copied in, in iteration order. */
  function Replicated(target: Dict, source: Dict, path: seq<string>): Outcome
    decreases Size(source), 1
  {
    if IsEmpty(source) then Done(target)
    else if source.defaults.Some? then
      DefaultsSmaller(source);
      match Copied(source.defaults.value, path)
      case Failed(_, err) => Failed(target, err)
      case Done(c) => ReplicateItems(target.(defaults := Some(c)), Items(source), 0, Size(source), path)
    else ReplicateItems(target, Items(source), 0, Size(source), path)
  }

  /** `pdeepcopy(source)`: `source` replicated into a fresh section. */
  function Copied(source: Dict, path: seq<string>): Outcome
    decreases Size(source), 3
  {
    Replicated(Empty(), source, path)
  }

  /** The loop over `source.items()` from the `i`-th item on. */
  function ReplicateItems(t: Dict, es: seq<Entry>, i: nat, bound: nat, path: seq<string>): Outcome
    requires i <= |es|
    requires forall j :: 0 <= j < |es| && es[j].val.Section? ==> Size(es[j].val.d) < bound
    decreases bound, 0, |es| - i
  {
    if i == |es| then Done(t)
    else
      var r := ReplicateEntry(t, es[i], bound, path);
      if r.Failed? then r else ReplicateItems(r.d, es, i + 1, bound, path)
  }

  /** One item of the loop: a section is created in the target when the
      target lacks it and then replicated into; a list or scalar is
      assigned. */
  function ReplicateEntry(t: Dict, e: Entry, bound: nat, path: seq<string>): Outcome
    requires e.val.Section? ==> Size(e.val.d) < bound
    decreases bound, 0, 0
  {
    if e.val.Section? then
      var v := e.val.d;
      var t1 := if Has(t, e.key) then t else Set(t, e.key, Section(Empty()));
      var child := Get(t1, e.key);
      if child.Some? && child.value.Section? then
        var r := ReplicateSection(child.value.d, v, path + [e.key]);
        var t2 := Put(t1, e.key, Section(r.d));
        if r.Failed? then Failed(t2, r.err) else Done(t2)
      // The target holds a scalar or a list here: giving it a `defaults_`
      // or items raises; an empty source without one leaves it alone.
      else if v.defaults.Some? || !IsEmpty(v) then Failed(t1, TypeMismatch(path + [e.key]))
      else Done(t1)
    else Done(Set(t, e.key, e.val))
  }

  /** Replicating the source section `v` into the target section `c`: the
      side-section first, then the items. */
  function ReplicateSection(c: Dict, v: Dict, path: seq<string>): Outcome
    decreases Size(v), 2
  {
    if v.defaults.Some? then
      DefaultsSmaller(v);
      match Copied(v.defaults.value, path)
      case Failed(_, err) => Failed(c, err)
      case Done(cd) => Replicated(c.(defaults := Some(cd)), v, path)
    else Replicated(c, v, path)
  }

  // ---------------------------------------------------------------- methods

  /** `replicate(target, source)`. */
  method Replicate(target: Dict, source: Dict, path: seq<string>) returns (r: Outcome)
    ensures r == Replicated(target, source, path)
    decreases Size(source), 1
  {
    if IsEmpty(source) {
      return Done(target);
    }
    var t := target;
    if source.defaults.Some? {
      var c := PDeepCopy(source.defaults.value, path);
      if c.Failed? {
        return Failed(target, c.err);
      }
      t := t.(defaults := Some(c.d));
    }
    r := ReplicateAll(t, Items(source), Size(source), path);
  }

  /** The loop of lines 108-119 over the items `es` of the source. */
  method ReplicateAll(target: Dict, es: seq<Entry>, bound: nat, path: seq<string>) returns (r: Outcome)
    requires forall j :: 0 <= j < |es| && es[j].val.Section? ==> Size(es[j].val.d) < bound
    ensures r == ReplicateItems(target, es, 0, bound, path)
    decreases bound, 0, 1
  {
    var t := target;
    var i := 0;
    while i < |es|
      invariant 0 <= i <= |es|
      invariant ReplicateItems(t, es, i, bound, path) == ReplicateItems(target, es, 0, bound, path)
    {
      var step := ReplicateItem(t, es[i], bound, path);
      if step.Failed? {
        return step;
      }
      t := step.d;
      i := i + 1;
    }
    return Done(t);
  }

  /** Lines 108-119 for one item `(key, val)` of `source`. */
  method ReplicateItem(t: Dict, e: Entry, bound: nat, path: seq<string>) returns (r: Outcome)
    requires e.val.Section? ==> Size(e.val.d) < bound
    ensures r == ReplicateEntry(t, e, bound, path)
    decreases bound, 0, 0
  {
    if !e.val.Section? {
      return Done(Set(t, e.key, e.val));
    }
    var v := e.val.d;
    var t1 := t;
    if !Has(t1, e.key) {
      t1 := Set(t1, e.key, Section(Empty()));
    }
    var child := Get(t1, e.key);
    if child.Some? && child.value.Section? {
      var sub := ReplicateInto(child.value.d, v, path + [e.key]);
      var t2 := Put(t1, e.key, Section(sub.d));
      if sub.Failed? {
        return Failed(t2, sub.err);
      }
      return Done(t2);
    } else if v.defaults.Some? || !IsEmpty(v) {
      return Failed(t1, TypeMismatch(path + [e.key]));
    }
    return Done(t1);
  }

  /** Lines 113-115 of `replicate`: copy the side-section of `v` onto the
      target section `c`, then replicate `v` into it. */
  method ReplicateInto(c: Dict, v: Dict, path: seq<string>) returns (r: Outcome)
    ensures r == ReplicateSection(c, v, path)
    decreases Size(v), 2
  {
    var c' := c;
    if v.defaults.Some? {
      var cd := PDeepCopy(v.defaults.value, path);
      if cd.Failed? {
        return Failed(c, cd.err);
      }
      c' := c.(defaults := Some(cd.d));
    }
    r := Replicate(c', v, path);
  }

  /** `pdeepcopy(source)`. */
  method PDeepCopy(source: Dict, path: seq<string>) returns (r: Outcome)
    ensures r == Copied(source, path)
    decreases Size(source), 3
  {
    r := Replicate(Empty(), source, path);
  }

  // ----------------------------------------------------------- properties

  /** Every item of `source` is in `target`: a list or scalar with the
      same value, a section as a section that covers it in turn. The one
      exception is an empty source section without a side-section that
      meets a scalar or a list, which stays as it is. */
  predicate Covers(target: Dict, source: Dict)
    decreases Size(source), 1
  {
    var es := Items(source);
    forall i :: 0 <= i < |es| ==> Holds(target, es[i], Size(source))
  }

  predicate Holds(target: Dict, e: Entry, bound: nat)
    requires e.val.Section? ==> Size(e.val.d) < bound
    decreases bound, 0
  {
    match Get(target, e.key)
    case None => false
    case Some(x) =>
      if e.val.Section? then
        if x.Section? then Covers(x.d, e.val.d) else IsEmpty(e.val.d) && e.val.d.defaults.None?
      else x == e.val
  }

  /** One item leaves every other key's lookup, own or through the
      side-section, as it was. */
  lemma EntryFrame(t: Dict, e: Entry, bound: nat, path: seq<string>, k: string)
    requires e.val.Section? ==> Size(e.val.d) < bound
    requires k != e.key
    ensures var r := ReplicateEntry(t, e, bound, path).d;
      Get(r, k) == Get(t, k) && OwnGet(r, k) == OwnGet(t, k)
  {
    if e.val.Section? {
      var t1 := if Has(t, e.key) then t else Set(t, e.key, Section(Empty()));
      SetEffect(t, e.key, Section(Empty()));
      var child := Get(t1, e.key);
      if child.Some? && child.value.Section? {
        var r := ReplicateSection(child.value.d, e.val.d, path + [e.key]);
        PutEffect(t1, e.key, Section(r.d));
      }
    } else {
      SetEffect(t, e.key, e.val);
    }
  }

  /** The rest of the loop leaves a key it does not visit as it was. */
  lemma {:induction false} ItemsFrame(t: Dict, es: seq<Entry>, i: nat, bound: nat, path: seq<string>, k: string)
    requires i <= |es|
    requires forall j :: 0 <= j < |es| && es[j].val.Section? ==> Size(es[j].val.d) < bound
    requires forall j :: i <= j < |es| ==> es[j].key != k
    ensures var r := ReplicateItems(t, es, i, bound, path).d;
      Get(r, k) == Get(t, k) && OwnGet(r, k) == OwnGet(t, k)
    decreases |es| - i
  {
    if i < |es| {
      EntryFrame(t, es[i], bound, path, k);
      var r := ReplicateEntry(t, es[i], bound, path);
      if !r.Failed? {
        ItemsFrame(r.d, es, i + 1, bound, path, k);
      }
    }
  }

  /** An item that went through leaves its key holding what the source
      holds. */
  lemma {:induction false} EntryCovers(t: Dict, e: Entry, bound: nat, path: seq<string>)
    requires e.val.Section? ==> Size(e.val.d) < bound && WF(e.val.d)
    requires ReplicateEntry(t, e, bound, path).Done?
    ensures Holds(ReplicateEntry(t, e, bound, path).d, e, bound)
    decreases bound, 0, 0
  {
    if e.val.Section? {
      var t1 := if Has(t, e.key) then t else Set(t, e.key, Section(Empty()));
      SetEffect(t, e.key, Section(Empty()));
      var child := Get(t1, e.key);
      if child.Some? && child.value.Section? {
        var r := ReplicateSection(child.value.d, e.val.d, path + [e.key]);
        SectionCovers(child.value.d, e.val.d, path + [e.key]);
        PutEffect(t1, e.key, Section(r.d));
      }
    } else {
      SetEffect(t, e.key, e.val);
    }
  }

  lemma {:induction false} SectionCovers(c: Dict, v: Dict, path: seq<string>)
    requires WF(v)
    requires ReplicateSection(c, v, path).Done?
    ensures Covers(ReplicateSection(c, v, path).d, v)
    decreases Size(v), 2
  {
    if v.defaults.Some? {
      DefaultsSmaller(v);
      var cd := Copied(v.defaults.value, path);
      ReplicateCovers(c.(defaults := Some(cd.d)), v, path);
    } else {
      ReplicateCovers(c, v, path);
    }
  }

  lemma HoldsOnlyKey(t: Dict, t': Dict, e: Entry, bound: nat)
    requires e.val.Section? ==> Size(e.val.d) < bound
    requires Get(t, e.key) == Get(t', e.key)
    ensures Holds(t, e, bound) == Holds(t', e, bound)
  {
  }

  /** The rest of the loop, when it goes through, leaves every item it
      visits covered. */
  lemma {:induction false} ItemsCover(t: Dict, es: seq<Entry>, i: nat, bound: nat, path: seq<string>)
    requires i <= |es|
    requires forall j :: 0 <= j < |es| && es[j].val.Section? ==> Size(es[j].val.d) < bound && WF(es[j].val.d)
    requires forall j, j' :: i <= j < j' < |es| ==> es[j].key != es[j'].key
    requires ReplicateItems(t, es, i, bound, path).Done?
    ensures forall j :: i <= j < |es| ==> Holds(ReplicateItems(t, es, i, bound, path).d, es[j], bound)
    decreases bound, 0, |es| - i
  {
    if i < |es| {
      var r := ReplicateEntry(t, es[i], bound, path);
      EntryCovers(t, es[i], bound, path);
      ItemsCover(r.d, es, i + 1, bound, path);
      ItemsFrame(r.d, es, i + 1, bound, path, es[i].key);
      HoldsOnlyKey(r.d, ReplicateItems(t, es, i, bound, path).d, es[i], bound);
    }
  }

  /** After a complete `replicate(target, source)` every item of `source`
      is in `target`. */
  lemma {:induction false} ReplicateCovers(target: Dict, source: Dict, path: seq<string>)
    requires WF(source)
    requires Replicated(target, source, path).Done?
    ensures Covers(Replicated(target, source, path).d, source)
    decreases Size(source), 1
  {
    if !IsEmpty(source) {
      var es := Items(source);
      KeysUnique(source);
      forall j | 0 <= j < |es| && es[j].val.Section?
        ensures WF(es[j].val.d)
      {
        GetWF(source, es[j].key);
      }
      var t := if source.defaults.Some? then target.(defaults := Some(Copied(source.defaults.value, path).d)) else target;
      ItemsCover(t, es, 0, Size(source), path);
    }
  }

  /** `replicate` never touches an own entry whose key `source` lacks,
      whether it completes or raises. */
  lemma ReplicateKeepsOwn(target: Dict, source: Dict, path: seq<string>, k: string)
    requires !Has(source, k)
    ensures OwnGet(Replicated(target, source, path).d, k) == OwnGet(target, k)
  {
    if !IsEmpty(source) {
      var es := Items(source);
      assert forall j :: 0 <= j < |es| ==> es[j].key == Keys(source)[j] && Keys(source)[j] in Keys(source);
      if source.defaults.Some? {
        var c := Copied(source.defaults.value, path);
        if c.Done? {
          ItemsFrame(target.(defaults := Some(c.d)), es, 0, Size(source), path, k);
        }
      } else {
        ItemsFrame(target, es, 0, Size(source), path, k);
      }
    }
  }

  /** A key the rest of the loop makes visible was visible before or is
      one of the keys it visits. */
  lemma ItemsOnlyAdd(t: Dict, es: seq<Entry>, i: nat, bound: nat, path: seq<string>, k: string)
    requires i <= |es|
    requires forall j :: 0 <= j < |es| && es[j].val.Section? ==> Size(es[j].val.d) < bound
    requires Has(ReplicateItems(t, es, i, bound, path).d, k)
    ensures Has(t, k) || exists j :: i <= j < |es| && es[j].key == k
  {
    if forall j :: i <= j < |es| ==> es[j].key != k {
      ItemsFrame(t, es, i, bound, path, k);
    }
  }

  /** `pdeepcopy(d)`, when it completes, holds exactly the keys of `d`,
      each covered as `Covers` says. */
  lemma {:induction false} CopiedKeys(source: Dict, path: seq<string>)
    requires WF(source)
    requires Copied(source, path).Done?
    ensures forall k :: Has(Copied(source, path).d, k) <==> Has(source, k)
    ensures Covers(Copied(source, path).d, source)
    decreases Size(source)
  {
    var r := Copied(source, path).d;
    ReplicateCovers(Empty(), source, path);
    if !IsEmpty(source) {
      var es := Items(source);
      var ks := Keys(source);
      forall k | Has(source, k)
        ensures Has(r, k)
      {
        var j :| 0 <= j < |ks| && ks[j] == k;
        assert Holds(r, es[j], Size(source));
      }
      var t := Empty();
      if source.defaults.Some? {
        DefaultsSmaller(source);
        CopiedKeys(source.defaults.value, path);
        t := Empty().(defaults := Some(Copied(source.defaults.value, path).d));
      }
      forall k | Has(r, k)
        ensures Has(source, k)
      {
        ItemsOnlyAdd(t, es, 0, Size(source), path, k);
        if !Has(t, k) {
          var j :| 0 <= j < |es| && es[j].key == k;
          assert ks[j] in ks;
        }
      }
    }
  }

  // ------------------------------------------------------- the side-section

  /** No own section of `source` has a key its side-section also shows:
      then the item loop never writes through into the copied
      side-section. */
  ghost predicate Disjoint(source: Dict)
    requires source.defaults.Some?
  {
    forall k :: HasOwn(source, k) && OwnGet(source, k).value.Section? ==> !Has(source.defaults.value, k)
  }

  /** `c` shows exactly the keys of `d`, and covers `d`. */
  ghost predicate CopyOf(c: Dict, d: Dict)
  {
    (forall k :: Has(c, k) <==> Has(d, k)) && Covers(c, d)
  }

  /** Replacing the section at a key of `c` by one covering what `d` holds
      there keeps `c` a copy of `d`. */
  lemma PutKeepsCopy(c: Dict, d: Dict, k: string, x: Dict)
    requires CopyOf(c, d) && Has(c, k)
    requires Get(d, k).Some? && Get(d, k).value.Section? && Covers(x, Get(d, k).value.d)
    ensures CopyOf(Put(c, k, Section(x)), d)
  {
    var c' := Put(c, k, Section(x));
    PutEffect(c, k, Section(x));
    var es := Items(d);
    forall j | 0 <= j < |es|
      ensures Holds(c', es[j], Size(d))
    {
      if es[j].key != k {
        assert Holds(c, es[j], Size(d));
        HoldsOnlyKey(c, c', es[j], Size(d));
      }
    }
  }

  /** One item of the loop: the side-section stays a copy of `d`. */
  lemma EntryKeepsCopy(t: Dict, e: Entry, bound: nat, path: seq<string>, d: Dict)
    requires e.val.Section? ==> Size(e.val.d) < bound && WF(e.val.d)
    requires t.defaults.Some? && CopyOf(t.defaults.value, d)
    requires e.val.Section? && Has(d, e.key) ==> Get(d, e.key) == Some(e.val)
    requires ReplicateEntry(t, e, bound, path).Done?
    ensures ReplicateEntry(t, e, bound, path).d.defaults.Some?
    ensures CopyOf(ReplicateEntry(t, e, bound, path).d.defaults.value, d)
  {
    if e.val.Section? {
      var t1 := if Has(t, e.key) then t else Set(t, e.key, Section(Empty()));
      var child := Get(t1, e.key);
      if child.Some? && child.value.Section? {
        var r := ReplicateSection(child.value.d, e.val.d, path + [e.key]);
        SectionCovers(child.value.d, e.val.d, path + [e.key]);
        if !HasOwn(t1, e.key) && Has(t1.defaults.value, e.key) {
          PutKeepsCopy(t1.defaults.value, d, e.key, r.d);
        }
      }
    }
  }

  lemma {:induction false} ItemsKeepCopy(t: Dict, es: seq<Entry>, i: nat, bound: nat, path: seq<string>, d: Dict)
    requires i <= |es|
    requires forall j :: 0 <= j < |es| && es[j].val.Section? ==> Size(es[j].val.d) < bound && WF(es[j].val.d)
    requires forall j :: i <= j < |es| && es[j].val.Section? && Has(d, es[j].key) ==> Get(d, es[j].key) == Some(es[j].val)
    requires t.defaults.Some? && CopyOf(t.defaults.value, d)
    requires ReplicateItems(t, es, i, bound, path).Done?
    ensures ReplicateItems(t, es, i, bound, path).d.defaults.Some?
    ensures CopyOf(ReplicateItems(t, es, i, bound, path).d.defaults.value, d)
    decreases |es| - i
  {
    if i < |es| {
      EntryKeepsCopy(t, es[i], bound, path, d);
      ItemsKeepCopy(ReplicateEntry(t, es[i], bound, path).d, es, i + 1, bound, path, d);
    }
  }

  /** After a complete `replicate(target, source)` of a non-empty source
      with a side-section, the target's side-section shows exactly the
      keys of the source's and covers it, as a deep copy does. */
  lemma ReplicateDefaults(target: Dict, source: Dict, path: seq<string>)
    requires WF(source) && !IsEmpty(source) && source.defaults.Some? && Disjoint(source)
    requires Replicated(target, source, path).Done?
    ensures Replicated(target, source, path).d.defaults.Some?
    ensures CopyOf(Replicated(target, source, path).d.defaults.value, source.defaults.value)
  {
    var d := source.defaults.value;
    var c := Copied(d, path);
    CopiedKeys(d, path);
    var es := Items(source);
    forall j | 0 <= j < |es|
      ensures es[j].val.Section? ==> WF(es[j].val.d)
      ensures es[j].val.Section? && Has(d, es[j].key) ==> Get(d, es[j].key) == Some(es[j].val)
    {
      if es[j].val.Section? {
        GetWF(source, es[j].key);
      }
    }
    ItemsKeepCopy(target.(defaults := Some(c.d)), es, 0, Size(source), path, d);
  }

  /** The same for a sub-section the loop replicates into: its
      side-section becomes a copy of the source sub-section's. */
  lemma SectionDefaults(c: Dict, v: Dict, path: seq<string>)
    requires WF(v) && v.defaults.Some? && Disjoint(v)
    requires ReplicateSection(c, v, path).Done?
    ensures ReplicateSection(c, v, path).d.defaults.Some?
    ensures CopyOf(ReplicateSection(c, v, path).d.defaults.value, v.defaults.value)
  {
    var cd := Copied(v.defaults.value, path);
    CopiedKeys(v.defaults.value, path);
    if !IsEmpty(v) {
      ReplicateDefaults(c.(defaults := Some(cd.d)), v, path);
    }
  }

  function Leaf(x: string): Dict
  {
    Dict([Entry("x", Scalar(Text(x)))], None)
  }

  /** A source whose own section `k` is also a key of its side-section. */
  function Overlapping(): Dict
  {
    Dict([Entry("k", Section(Leaf("1")))], Some(Dict([Entry("k", Section(Leaf("0")))], None)))
  }

  lemma LeafReplicated(c: Dict, x: string)
    requires c == Empty() || c == Leaf("0")
    ensures ReplicateSection(c, Leaf(x), ["k"]) == Done(Leaf(x))
  {
    var v := Leaf(x);
    assert Keys(v) == ["x"];
    assert Items(v) == [Entry("x", Scalar(Text(x)))];
    assert ReplicateSection(c, v, ["k"]) == ReplicateItems(c, Items(v), 0, Size(v), ["k"]);
    assert SetEntries(c.entries, "x", Scalar(Text(x))) == [Entry("x", Scalar(Text(x)))];
  }

  function Side(x: string): Dict
  {
    Dict([Entry("k", Section(Leaf(x)))], None)
  }

  lemma CopyOverlapping()
    ensures Copied(Overlapping().defaults.value, []) == Done(Side("0"))
  {
    var d := Side("0");
    assert Overlapping().defaults.value == d;
    assert Keys(d) == ["k"];
    assert Items(d) == [Entry("k", Section(Leaf("0")))];
    LeafReplicated(Empty(), "0");
    assert ReplicateEntry(Empty(), Entry("k", Section(Leaf("0"))), Size(d), []) == Done(Side("0"));
    assert Copied(d, []) == ReplicateItems(Empty(), Items(d), 0, Size(d), []);
  }

  lemma LoopOverlapping()
    ensures var t := Empty().(defaults := Some(Side("0")));
      ReplicateItems(t, Items(Overlapping()), 0, Size(Overlapping()), [])
        == Done(Dict([], Some(Side("1"))))
  {
    var src := Overlapping();
    assert OwnKeys(src.entries) == ["k"];
    assert NotOwn(["k"], src) == [];
    assert Keys(src) == ["k"];
    assert Items(src) == [Entry("k", Section(Leaf("1")))];
    var t := Empty().(defaults := Some(Side("0")));
    assert Get(t, "k") == Some(Section(Leaf("0")));
    LeafReplicated(Leaf("0"), "1");
    assert ReplicateEntry(t, Entry("k", Section(Leaf("1"))), Size(src), []) == Done(Dict([], Some(Side("1"))));
  }

  lemma NotCopyOverlapping()
    ensures !CopyOf(Side("1"), Side("0"))
  {
    assert Get(Leaf("1"), "x") == Some(Scalar(Text("1")));
    assert Items(Leaf("0")) == [Entry("x", Scalar(Text("0")))];
    assert !Holds(Leaf("1"), Entry("x", Scalar(Text("0"))), Size(Leaf("0")));
    assert !Covers(Leaf("1"), Leaf("0"));
    assert Items(Side("0"))[0] == Entry("k", Section(Leaf("0")));
    assert !Holds(Side("1"), Items(Side("0"))[0], Size(Side("0")));
  }

  /** Without `Disjoint` the side-section is not left a copy: the item
      loop finds the own section `k` of the source through the copied
      side-section, so `target[key]` is the copy's object and `replicate`
      writes the own section's content into it. */
  lemma ReplicateWritesThrough()
    ensures Replicated(Empty(), Overlapping(), []) == Done(Dict([], Some(Side("1"))))
    ensures !CopyOf(Side("1"), Overlapping().defaults.value)
  {
    CopyOverlapping();
    LoopOverlapping();
    NotCopyOverlapping();
    assert Keys(Overlapping()) != [] by {
      assert OwnKeys(Overlapping().entries) == ["k"];
    }
  }
}
