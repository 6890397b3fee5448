/** `un_many(cfig)`: delete every `__MANY__` placeholder from a tree, at
    each level reached through sections that are not placeholders.

    `fixed` selects between the deletion as the original writes it, which
    removes the first placeholder `cfig.items()` yields at a level, and a
    corrected deletion that removes the placeholder from the whole
    `defaults_` chain of the level (see `UnmanyLeavesPlaceholder`). */
module Placeholders {
  import opened ConfigNode

  /** The placeholder removed from `d` and, recursively, from its
      `defaults_` side-sections. */
  function DropMany(d: Dict): (r: Dict)
    ensures !Has(r, MANY)
    ensures forall k :: k != MANY ==> Get(r, k) == Get(d, k) && OwnGet(r, k) == OwnGet(d, k)
    decreases d
  {
    DelOwnEffect(d, MANY);
    var d1 := DelOwn(d, MANY);
    if d.defaults.None? then d1
    else
      var rest := DropMany(d.defaults.value);
      var r := d1.(defaults := Some(rest));
      assert forall k :: k != MANY ==> HasOwn(r, k) == HasOwn(d, k) && OwnGet(r, k) == OwnGet(d, k);
      r
  }

  /** `un_many(cfig)`: an empty section is left alone; otherwise every item
      of a snapshot of `cfig.items()` is visited in order. */
  function Unmanied(d: Dict, path: seq<string>, fixed: bool): Outcome
    decreases Size(d), 1
  {
    if IsEmpty(d) then Done(d)
    else UnmanyItems(d, Items(d), 0, Size(d), path, fixed)
  }

  function UnmanyItems(t: Dict, es: seq<Entry>, i: nat, bound: nat, path: seq<string>, fixed: bool): Outcome
    requires i <= |es|
    requires forall j :: 0 <= j < |es| && es[j].val.Section? ==> Size(es[j].val.d) < bound
    decreases bound, 0, |es| - i
  {
    if i == |es| then Done(t)
    else
      var r := UnmanyEntry(t, es[i], bound, path, fixed);
      if r.Failed? then r else UnmanyItems(r.d, es, i + 1, bound, path, fixed)
  }

  /** One item: the placeholder is deleted (an own entry first, else the
      own entry of `defaults_`, else `KeyError`); a section is visited in
      turn and written back; a list or scalar is left as it is. */
  function UnmanyEntry(t: Dict, e: Entry, bound: nat, path: seq<string>, fixed: bool): Outcome
    requires e.val.Section? ==> Size(e.val.d) < bound
    decreases bound, 0, 0
  {
    if e.key == MANY then
      if fixed then Done(DropMany(t))
      else if HasOwn(t, MANY) then Done(DelOwn(t, MANY))
      else if t.defaults.Some? && HasOwn(t.defaults.value, MANY) then
        Done(t.(defaults := Some(DelOwn(t.defaults.value, MANY))))
      else Failed(t, MissingKey(path + [MANY]))
    else if e.val.Section? then
      var r := Unmanied(e.val.d, path + [e.key], fixed);
      var t2 := Put(t, e.key, Section(r.d));
      if r.Failed? then Failed(t2, r.err) else Done(t2)
    else Done(t)
  }

  // ---------------------------------------------------------------- method

  /** `un_many(cfig)` as written. */
  method UnMany(cfig: Dict, path: seq<string>) returns (r: Outcome)
    ensures r == Unmanied(cfig, path, false)
    decreases Size(cfig), 1
  {
    if IsEmpty(cfig) {
      return Done(cfig);
    }
    r := UnmanyAll(cfig, Items(cfig), Size(cfig), path);
  }

  /** The loop of lines 215-224 over the items `es` of `cfig`, as written. */
  method UnmanyAll(cfig: Dict, es: seq<Entry>, bound: nat, path: seq<string>) returns (r: Outcome)
    requires forall j :: 0 <= j < |es| && es[j].val.Section? ==> Size(es[j].val.d) < bound
    ensures r == UnmanyItems(cfig, es, 0, bound, path, false)
    decreases bound, 0, 1
  {
    var t := cfig;
    var i := 0;
    while i < |es|
      invariant 0 <= i <= |es|
      invariant UnmanyItems(t, es, i, bound, path, false) == UnmanyItems(cfig, es, 0, bound, path, false)
    {
      var step := UnmanyItem(t, es[i], bound, path);
      if step.Failed? {
        return step;
      }
      t := step.d;
      i := i + 1;
    }
    return Done(t);
  }

  /** Lines 215-224 for one item `(key, val)`, as written. */
  method UnmanyItem(t: Dict, e: Entry, bound: nat, path: seq<string>) returns (r: Outcome)
    requires e.val.Section? ==> Size(e.val.d) < bound
    ensures r == UnmanyEntry(t, e, bound, path, false)
    decreases bound, 0, 0
  {
    if e.key == MANY {
      if HasOwn(t, MANY) {
        return Done(DelOwn(t, MANY));
      } else if t.defaults.Some? && HasOwn(t.defaults.value, MANY) {
        return Done(t.(defaults := Some(DelOwn(t.defaults.value, MANY))));
      }
      return Failed(t, MissingKey(path + [MANY]));
    } else if e.val.Section? {
      var sub := UnMany(e.val.d, path + [e.key]);
      var t2 := Put(t, e.key, Section(sub.d));
      if sub.Failed? {
        return Failed(t2, sub.err);
      }
      return Done(t2);
    }
    return Done(t);
  }

  // ------------------------------------------------------------ properties

  /** The section a key denotes, if it denotes one. */
  function SubAt(d: Dict, k: string): (r: Option<Dict>)
    ensures r.Some? ==> Get(d, k) == Some(Section(r.value)) && Size(r.value) < Size(d)
    ensures r.None? ==> Get(d, k).None? || !Get(d, k).value.Section?
  {
    if Has(d, k) && Get(d, k).value.Section? then
      GetSmaller(d, k);
      Some(Get(d, k).value.d)
    else None
  }

  /** No placeholder is visible at any level reached through sections. */
  ghost predicate Clean(d: Dict)
    decreases Size(d)
  {
    && !Has(d, MANY)
    && forall k :: SubAt(d, k).Some? ==> Clean(SubAt(d, k).value)
  }

  /** The rest of the loop neither deletes `k` nor visits a section at
      `k`. */
  predicate Untouched(es: seq<Entry>, i: nat, k: string)
  {
    forall j :: i <= j < |es| ==> es[j].key != k || (k != MANY && !es[j].val.Section?)
  }

  lemma EntryFrame(t: Dict, e: Entry, bound: nat, path: seq<string>, fixed: bool, k: string)
    requires e.val.Section? ==> Size(e.val.d) < bound
    requires e.key != k || (k != MANY && !e.val.Section?)
    ensures var r := UnmanyEntry(t, e, bound, path, fixed).d;
      Get(r, k) == Get(t, k) && OwnGet(r, k) == OwnGet(t, k)
  {
    if e.key == MANY {
      DelOwnEffect(t, MANY);
      if t.defaults.Some? {
        DelOwnEffect(t.defaults.value, MANY);
      }
    } else if e.val.Section? {
      PutEffect(t, e.key, Section(Unmanied(e.val.d, path + [e.key], fixed).d));
    }
  }

  lemma {:induction false} ItemsFrame(t: Dict, es: seq<Entry>, i: nat, bound: nat, path: seq<string>, fixed: bool, k: string)
    requires i <= |es|
    requires forall j :: 0 <= j < |es| && es[j].val.Section? ==> Size(es[j].val.d) < bound
    requires Untouched(es, i, k)
    ensures var r := UnmanyItems(t, es, i, bound, path, fixed).d;
      Get(r, k) == Get(t, k) && OwnGet(r, k) == OwnGet(t, k)
    decreases |es| - i
  {
    if i < |es| {
      EntryFrame(t, es[i], bound, path, fixed, k);
      var r := UnmanyEntry(t, es[i], bound, path, fixed);
      if !r.Failed? {
        ItemsFrame(r.d, es, i + 1, bound, path, fixed, k);
      }
    }
  }

  /** Lists and scalars other than the placeholder are left as they are,
      whether `un_many` completes or raises. */
  lemma UnmanyKeepsLeaves(d: Dict, path: seq<string>, fixed: bool, k: string)
    requires k != MANY && !(Has(d, k) && Get(d, k).value.Section?)
    ensures Get(Unmanied(d, path, fixed).d, k) == Get(d, k)
  {
    if !IsEmpty(d) {
      var es := Items(d);
      ItemsFrame(d, es, 0, Size(d), path, fixed, k);
    }
  }

  /** The corrected `un_many` never raises. */
  lemma {:induction false} UnmanyFixedDone(d: Dict, path: seq<string>)
    ensures Unmanied(d, path, true).Done?
    decreases Size(d), 1
  {
    if !IsEmpty(d) {
      ItemsFixedDone(d, Items(d), 0, Size(d), path);
    }
  }

  lemma {:induction false} ItemsFixedDone(t: Dict, es: seq<Entry>, i: nat, bound: nat, path: seq<string>)
    requires i <= |es|
    requires forall j :: 0 <= j < |es| && es[j].val.Section? ==> Size(es[j].val.d) < bound
    ensures UnmanyItems(t, es, i, bound, path, true).Done?
    decreases bound, 0, |es| - i
  {
    if i < |es| {
      var e := es[i];
      if e.key != MANY && e.val.Section? {
        UnmanyFixedDone(e.val.d, path + [e.key]);
      }
      ItemsFixedDone(UnmanyEntry(t, e, bound, path, true).d, es, i + 1, bound, path);
    }
  }

  /** The corrected loop writes the `m`-th item, a section, back cleaned. */
  lemma {:induction false} ItemsFixedSection(t: Dict, es: seq<Entry>, i: nat, m: nat, bound: nat, path: seq<string>)
    requires i <= m < |es| && es[m].key != MANY && es[m].val.Section?
    requires forall j :: 0 <= j < |es| && es[j].val.Section? ==> Size(es[j].val.d) < bound
    requires forall j, j' :: i <= j < j' < |es| ==> es[j].key != es[j'].key
    ensures Get(UnmanyItems(t, es, i, bound, path, true).d, es[m].key)
      == Some(Section(Unmanied(es[m].val.d, path + [es[m].key], true).d))
    decreases |es| - i
  {
    var e := es[i];
    var r := UnmanyEntry(t, e, bound, path, true);
    if e.key != MANY && e.val.Section? {
      UnmanyFixedDone(e.val.d, path + [e.key]);
    }
    assert r.Done?;
    assert UnmanyItems(t, es, i, bound, path, true) == UnmanyItems(r.d, es, i + 1, bound, path, true);
    if i == m {
      PutEffect(t, e.key, Section(Unmanied(e.val.d, path + [e.key], true).d));
      ItemsFrame(r.d, es, i + 1, bound, path, true, e.key);
    } else {
      ItemsFixedSection(r.d, es, i + 1, m, bound, path);
    }
  }

  lemma {:induction false} ItemsFixedMany(t: Dict, es: seq<Entry>, i: nat, m: nat, bound: nat, path: seq<string>)
    requires i <= m < |es| && es[m].key == MANY
    requires forall j :: 0 <= j < |es| && es[j].val.Section? ==> Size(es[j].val.d) < bound
    requires forall j, j' :: i <= j < j' < |es| ==> es[j].key != es[j'].key
    ensures !Has(UnmanyItems(t, es, i, bound, path, true).d, MANY)
    decreases |es| - i
  {
    var e := es[i];
    var r := UnmanyEntry(t, e, bound, path, true);
    if e.val.Section? {
      UnmanyFixedDone(e.val.d, path + [e.key]);
    }
    if i == m {
      ItemsFrame(r.d, es, i + 1, bound, path, true, MANY);
    } else {
      ItemsFixedMany(r.d, es, i + 1, m, bound, path);
    }
  }

  /** The corrected `un_many` leaves no placeholder visible at the level
      it was called on. */
  lemma FixedNoMany(d: Dict, path: seq<string>)
    requires WF(d)
    ensures !Has(Unmanied(d, path, true).d, MANY)
  {
    if IsEmpty(d) {
      assert forall k :: !Has(d, k);
    } else if Has(d, MANY) {
      FixedDropsOwnMany(d, path);
    } else {
      ItemsFrame(d, Items(d), 0, Size(d), path, true, MANY);
    }
  }

  lemma FixedDropsOwnMany(d: Dict, path: seq<string>)
    requires WF(d) && !IsEmpty(d) && Has(d, MANY)
    ensures !Has(UnmanyItems(d, Items(d), 0, Size(d), path, true).d, MANY)
  {
    var es := Items(d);
    var m := ItemIndex(d, MANY);
    ItemsFixedMany(d, es, 0, m, Size(d), path);
  }

  /** Where a key sits among the items of a well-formed section, whose
      keys are all different. */
  lemma ItemIndex(d: Dict, k: string) returns (m: nat)
    requires WF(d) && Has(d, k)
    ensures m < |Items(d)| && Items(d)[m].key == k
    ensures forall j, j' :: 0 <= j < j' < |Items(d)| ==> Items(d)[j].key != Items(d)[j'].key
  {
    var ks := Keys(d);
    ItemsUnique(d);
    assert k in ks;
    m :| 0 <= m < |ks| && ks[m] == k;
  }

  lemma ItemsUnique(d: Dict)
    requires WF(d)
    ensures forall j, j' :: 0 <= j < j' < |Items(d)| ==> Items(d)[j].key != Items(d)[j'].key
  {
    KeysUnique(d);
  }

  lemma FixedSections(d: Dict, path: seq<string>)
    requires WF(d) && !IsEmpty(d)
    ensures forall j :: 0 <= j < |Items(d)| && Items(d)[j].key != MANY && Items(d)[j].val.Section? ==>
      Get(Unmanied(d, path, true).d, Items(d)[j].key)
        == Some(Section(Unmanied(Items(d)[j].val.d, path + [Items(d)[j].key], true).d))
  {
    var es := Items(d);
    ItemsUnique(d);
    assert Unmanied(d, path, true) == UnmanyItems(d, es, 0, Size(d), path, true);
    forall m | 0 <= m < |es| && es[m].key != MANY && es[m].val.Section?
      ensures Get(UnmanyItems(d, es, 0, Size(d), path, true).d, es[m].key)
        == Some(Section(Unmanied(es[m].val.d, path + [es[m].key], true).d))
    {
      ItemsFixedSection(d, es, 0, m, Size(d), path);
    }
  }

  /** The corrected `un_many` leaves no placeholder visible anywhere in
      the tree it reaches through sections. */
  lemma {:induction false} UnmanyFixedClean(d: Dict, path: seq<string>)
    requires WF(d)
    ensures Unmanied(d, path, true).Done?
    ensures Clean(Unmanied(d, path, true).d)
    decreases Size(d), 1
  {
    UnmanyFixedDone(d, path);
    FixedNoMany(d, path);
    var r := Unmanied(d, path, true).d;
    if IsEmpty(d) {
      assert forall k :: !Has(d, k);
    } else {
      FixedSections(d, path);
      forall k | SubAt(r, k).Some?
        ensures Clean(SubAt(r, k).value)
      {
        CleanChild(d, path, k);
      }
    }
  }

  lemma {:induction false} CleanChild(d: Dict, path: seq<string>, k: string)
    requires WF(d) && !IsEmpty(d)
    requires forall j :: 0 <= j < |Items(d)| && Items(d)[j].key != MANY && Items(d)[j].val.Section? ==>
      Get(Unmanied(d, path, true).d, Items(d)[j].key)
        == Some(Section(Unmanied(Items(d)[j].val.d, path + [Items(d)[j].key], true).d))
    requires k != MANY
    requires SubAt(Unmanied(d, path, true).d, k).Some?
    ensures Clean(SubAt(Unmanied(d, path, true).d, k).value)
    decreases Size(d), 0
  {
    var es := Items(d);
    if Has(d, k) {
      var j := ItemIndex(d, k);
      if es[j].val.Section? {
        GetWF(d, k);
        UnmanyFixedClean(es[j].val.d, path + [k]);
      } else {
        assert Untouched(es, 0, k);
        ItemsFrame(d, es, 0, Size(d), path, true, k);
      }
    } else {
      assert Untouched(es, 0, k);
      ItemsFrame(d, es, 0, Size(d), path, true, k);
    }
  }

  lemma {:induction false} ItemsUnchanged(d: Dict, es: seq<Entry>, i: nat, bound: nat, path: seq<string>, fixed: bool)
    requires i <= |es|
    requires forall j :: 0 <= j < |es| && es[j].val.Section? ==> Size(es[j].val.d) < bound
    requires forall j :: i <= j < |es| ==> es[j].key != MANY && Get(d, es[j].key) == Some(es[j].val)
    requires forall j :: i <= j < |es| && es[j].val.Section? ==> Clean(es[j].val.d)
    ensures UnmanyItems(d, es, i, bound, path, fixed) == Done(d)
    decreases bound, 0, |es| - i
  {
    if i < |es| {
      var e := es[i];
      if e.val.Section? {
        CleanUnchanged(e.val.d, path + [e.key], fixed);
        PutSame(d, e.key);
      }
      ItemsUnchanged(d, es, i + 1, bound, path, fixed);
    }
  }

  /** A tree without visible placeholders is left exactly as it is, by
      either version. */
  lemma {:induction false} CleanUnchanged(d: Dict, path: seq<string>, fixed: bool)
    requires Clean(d)
    ensures Unmanied(d, path, fixed) == Done(d)
    decreases Size(d), 1
  {
    if !IsEmpty(d) {
      var es := Items(d);
      forall j | 0 <= j < |es|
        ensures es[j].key != MANY && Get(d, es[j].key) == Some(es[j].val)
        ensures es[j].val.Section? ==> Clean(es[j].val.d)
      {
        assert Keys(d)[j] in Keys(d);
        if es[j].val.Section? {
          assert SubAt(d, es[j].key) == Some(es[j].val.d);
        }
      }
      ItemsUnchanged(d, es, 0, Size(d), path, fixed);
    }
  }

  /** The corrected `un_many` is idempotent: a second call changes
      nothing. */
  lemma UnmanyFixedIdempotent(d: Dict, path: seq<string>)
    requires WF(d)
    ensures Unmanied(Unmanied(d, path, true).d, path, true) == Unmanied(d, path, true)
  {
    UnmanyFixedClean(d, path);
    CleanUnchanged(Unmanied(d, path, true).d, path, true);
  }

  /** The original leaves a placeholder visible when a level holds one as
      an own entry and another in its `defaults_`: only the own entry is
      deleted, so `'__MANY__' in cfig` still holds after the call, and a
      second call deletes the other one. The corrected version removes
      both at once. */
  lemma UnmanyLeavesPlaceholder(s: Dict, u: Dict)
    ensures var side := Dict([Entry(MANY, Section(u))], None);
      var cfig := Dict([Entry(MANY, Section(s))], Some(side));
      var once := Dict([], Some(side));
      var twice := Dict([], Some(Dict([], None)));
      && Unmanied(cfig, [], false) == Done(once)
      && Has(once, MANY)
      && Unmanied(once, [], false) == Done(twice)
      && Unmanied(cfig, [], true) == Done(twice)
  {
    var side := Dict([Entry(MANY, Section(u))], None);
    var cfig := Dict([Entry(MANY, Section(s))], Some(side));
    var once := Dict([], Some(side));
    var twice := Dict([], Some(Dict([], None)));
    assert OwnKeys(side.entries) == [MANY];
    assert Keys(side) == [MANY];
    assert OwnKeys(cfig.entries) == [MANY];
    assert NotOwn([MANY], cfig) == [];
    assert Keys(cfig) == [MANY];
    var es := Items(cfig);
    assert es == [Entry(MANY, Section(s))];
    assert DelOwn(cfig, MANY) == once;
    assert UnmanyItems(cfig, es, 0, Size(cfig), [], false) == UnmanyItems(once, es, 1, Size(cfig), [], false);
    assert OwnKeys(once.entries) == [];
    assert NotOwn([MANY], once) == [MANY];
    assert Keys(once) == [MANY];
    var es' := Items(once);
    assert es' == [Entry(MANY, Section(u))];
    assert DelOwn(side, MANY) == Dict([], None);
    assert UnmanyItems(once, es', 0, Size(once), [], false) == UnmanyItems(twice, es', 1, Size(once), [], false);
    assert DropMany(cfig) == twice;
    assert UnmanyItems(cfig, es, 0, Size(cfig), [], true) == UnmanyItems(twice, es, 1, Size(cfig), [], true);
  }

  /** While the loop runs over a tree with unique own keys, every item
      still to be visited is what `cfig[key]` denotes at that point, so
      visiting the snapshot's section is visiting `cfig[key]`. */
  lemma UnmanyLookupStep(t: Dict, es: seq<Entry>, i: nat, bound: nat, path: seq<string>, fixed: bool)
    requires i < |es|
    requires forall j :: 0 <= j < |es| && es[j].val.Section? ==> Size(es[j].val.d) < bound
    requires forall j, j' :: i <= j < j' < |es| ==> es[j].key != es[j'].key
    requires forall j :: i <= j < |es| ==> Get(t, es[j].key) == Some(es[j].val)
    ensures forall j :: i < j < |es| ==> Get(UnmanyEntry(t, es[i], bound, path, fixed).d, es[j].key) == Some(es[j].val)
  {
    forall j | i < j < |es|
      ensures Get(UnmanyEntry(t, es[i], bound, path, fixed).d, es[j].key) == Get(t, es[j].key)
    {
      EntryFrame(t, es[i], bound, path, fixed, es[j].key);
    }
  }

  lemma {:induction false} ItemsOwnRemoved(t: Dict, es: seq<Entry>, i: nat, bound: nat, path: seq<string>)
    requires i <= |es|
    requires forall j :: 0 <= j < |es| && es[j].val.Section? ==> Size(es[j].val.d) < bound
    requires (exists j :: i <= j < |es| && es[j].key == MANY) || !HasOwn(t, MANY)
    requires UnmanyItems(t, es, i, bound, path, false).Done?
    ensures !HasOwn(UnmanyItems(t, es, i, bound, path, false).d, MANY)
    decreases |es| - i
  {
    if i < |es| {
      var e := es[i];
      var r := UnmanyEntry(t, e, bound, path, false);
      if e.key == MANY {
        DelOwnEffect(t, MANY);
      } else {
        EntryFrame(t, e, bound, path, false, MANY);
      }
      ItemsOwnRemoved(r.d, es, i + 1, bound, path);
    }
  }

  /** When the original completes, the level it was called on holds no
      placeholder of its own. */
  lemma UnmanyOwnRemoved(d: Dict, path: seq<string>)
    requires Unmanied(d, path, false).Done?
    ensures !HasOwn(Unmanied(d, path, false).d, MANY)
  {
    if !IsEmpty(d) {
      var es := Items(d);
      var ks := Keys(d);
      if Has(d, MANY) {
        var j :| 0 <= j < |ks| && ks[j] == MANY;
        assert es[j].key == MANY;
      }
      ItemsOwnRemoved(d, es, 0, Size(d), path);
    }
  }

  // ------------------------------------------- when the original is right

  /** At one level, a placeholder visible through `defaults_` is neither
      an own entry as well nor further down the `defaults_` chain than
      `defaults_` itself. */
  predicate SingleMany(d: Dict)
  {
    d.defaults.Some? && Has(d.defaults.value, MANY) ==>
      && !HasOwn(d, MANY)
      && HasOwn(d.defaults.value, MANY)
      && (d.defaults.value.defaults.None? || !Has(d.defaults.value.defaults.value, MANY))
  }

  /** `SingleMany` holds at every level `un_many` reaches. */
  ghost predicate Tidy(d: Dict)
    decreases Size(d)
  {
    && SingleMany(d)
    && forall k :: k != MANY && SubAt(d, k).Some? ==> Tidy(SubAt(d, k).value)
  }

  lemma {:induction false} RemoveAbsent(es: seq<Entry>, k: string)
    requires k !in OwnKeys(es)
    ensures RemoveEntries(es, k) == es
    decreases |es|
  {
    if es != [] {
      assert OwnKeys(es)[1..] == OwnKeys(es[1..]);
      RemoveAbsent(es[1..], k);
    }
  }

  /** Removing a placeholder that is nowhere visible changes nothing. */
  lemma {:induction false} DropManyAbsent(d: Dict)
    requires !Has(d, MANY)
    ensures DropMany(d) == d
    decreases d
  {
    RemoveAbsent(d.entries, MANY);
    if d.defaults.Some? {
      DropManyAbsent(d.defaults.value);
    }
  }

  /** Where `SingleMany` holds, the deletion as written removes exactly
      what the corrected deletion removes. */
  lemma ManyStepAgrees(t: Dict, bound: nat, path: seq<string>, v: Value)
    requires SingleMany(t) && Has(t, MANY)
    requires v.Section? ==> Size(v.d) < bound
    ensures UnmanyEntry(t, Entry(MANY, v), bound, path, false) == Done(DropMany(t))
  {
    if HasOwn(t, MANY) {
      if t.defaults.Some? {
        DropManyAbsent(t.defaults.value);
      }
    } else {
      RemoveAbsent(t.entries, MANY);
      var dd := t.defaults.value;
      if dd.defaults.Some? {
        DropManyAbsent(dd.defaults.value);
      }
    }
  }

  /** Replacing what a key other than the placeholder denotes changes
      neither where the placeholder is visible nor `SingleMany`. */
  lemma PutSingleMany(t: Dict, k: string, v: Value)
    requires k != MANY
    ensures Has(Put(t, k, v), MANY) == Has(t, MANY)
    ensures SingleMany(Put(t, k, v)) == SingleMany(t)
  {
    PutEffect(t, k, v);
    if !HasOwn(t, k) && t.defaults.Some? && Has(t.defaults.value, k) {
      var dd := t.defaults.value;
      PutEffect(dd, k, v);
      assert HasOwn(Put(dd, k, v), MANY) == HasOwn(dd, MANY) by {
        assert OwnGet(Put(dd, k, v), MANY) == OwnGet(dd, MANY);
      }
      if !HasOwn(dd, k) && dd.defaults.Some? && Has(dd.defaults.value, k) {
        PutEffect(dd.defaults.value, k, v);
      } else {
        SetEffect(dd, k, v);
      }
    } else {
      SetEffect(t, k, v);
    }
  }

  lemma {:induction false} ItemsAgree(t: Dict, es: seq<Entry>, i: nat, bound: nat, path: seq<string>)
    requires i <= |es|
    requires forall j :: 0 <= j < |es| && es[j].val.Section? ==> Size(es[j].val.d) < bound
    requires forall j, j' :: i <= j < j' < |es| ==> es[j].key != es[j'].key
    requires forall j :: i <= j < |es| && es[j].key != MANY && es[j].val.Section? ==>
      WF(es[j].val.d) && Tidy(es[j].val.d)
    requires forall j :: i <= j < |es| && es[j].key == MANY ==> SingleMany(t) && Has(t, MANY)
    ensures UnmanyItems(t, es, i, bound, path, false) == UnmanyItems(t, es, i, bound, path, true)
    decreases bound, 0, |es| - i
  {
    if i < |es| {
      var e := es[i];
      if e.key == MANY {
        ManyStepAgrees(t, bound, path, e.val);
      } else {
        if e.val.Section? {
          UnmanyAgrees(e.val.d, path + [e.key]);
          var r := Unmanied(e.val.d, path + [e.key], true);
          PutSingleMany(t, e.key, Section(r.d));
        }
      }
      var r := UnmanyEntry(t, e, bound, path, true);
      if r.Done? {
        ItemsAgree(r.d, es, i + 1, bound, path);
      }
    }
  }

  /** On a tree where every level satisfies `SingleMany`, which is the
      usual case, the original and the corrected `un_many` agree, so the
      original completes, leaves no placeholder visible anywhere it
      reaches, and a second call changes nothing. */
  lemma {:induction false} UnmanyAgrees(d: Dict, path: seq<string>)
    requires WF(d) && Tidy(d)
    ensures Unmanied(d, path, false) == Unmanied(d, path, true)
    ensures Unmanied(d, path, false).Done? && Clean(Unmanied(d, path, false).d)
    ensures Unmanied(Unmanied(d, path, false).d, path, false) == Unmanied(d, path, false)
    decreases Size(d), 1
  {
    UnmanyFixedClean(d, path);
    CleanUnchanged(Unmanied(d, path, true).d, path, false);
    if !IsEmpty(d) {
      var es := Items(d);
      ItemsUnique(d);
      forall j | 0 <= j < |es|
        ensures es[j].key != MANY && es[j].val.Section? ==> WF(es[j].val.d) && Tidy(es[j].val.d)
        ensures es[j].key == MANY ==> Has(d, MANY)
      {
        assert Keys(d)[j] in Keys(d);
        if es[j].key != MANY && es[j].val.Section? {
          GetWF(d, es[j].key);
          assert SubAt(d, es[j].key) == Some(es[j].val.d);
        }
      }
      ItemsAgree(d, es, 0, Size(d), path);
    }
  }
}
