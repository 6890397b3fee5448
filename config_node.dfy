/** A PARSEC nested configuration section: an ordered dictionary of own
    entries plus an optional `defaults_` side-section of the same shape.

    `OrderedDictWithDefaults` itself is not part of this model; its
    behaviour is fixed here as an explicit assumption:
    - membership (`key in d`) holds for own keys and, recursively, for the
      keys of the `defaults_` side-section;
    - lookup (`d[key]`) returns the own value, else looks the key up in the
      `defaults_` side-section, else fails;
    - iteration (`d.items()`) yields the own keys in insertion order and then
      the keys of the side-section that are not own keys;
    - truth (`if d:`) means iteration yields at least one key;
    - assignment (`d[key] = v`) and deletion (`del d[key]`) act on own
      entries only. */
module ConfigNode {

  datatype Option<T> = None | Some(value: T)

  /** A Python scalar: `None` or a string (`str()` of any other scalar). */
  datatype Atom = Nil | Text(s: string)

  /** What a key maps to: a scalar, a shallow list of scalars, or a section. */
  datatype Value = Scalar(a: Atom) | List(items: seq<Atom>) | Section(d: Dict)

  datatype Entry = Entry(key: string, val: Value)

  /** Own entries in insertion order, and the `defaults_` attribute
      (`None` when the attribute was never set). */
  datatype Dict = Dict(entries: seq<Entry>, defaults: Option<Dict>)

  /** Why an operation stopped early, with the keys leading to the place it
      stopped: a section looked up that does not exist (`KeyError`), a key
      a `__MANY__` override may not create, or a section met where the tree
      holds a scalar or a list (or the reverse). */
  datatype Error = MissingKey(path: seq<string>) | Unlicensed(path: seq<string>) | TypeMismatch(path: seq<string>)

  /** The tree an in-place operation leaves behind: complete, or as far as
      it got before raising, since writes made before a raise stay made. */
  datatype Outcome = Done(d: Dict) | Failed(d: Dict, err: Error)

  /** The placeholder key that licenses arbitrarily named sections. */
  const MANY: string := "__MANY__"

  /** A freshly made `OrderedDictWithDefaults()`. */
  function Empty(): Dict
  {
    Dict([], None)
  }

  /** A size that strictly decreases from a section to any section it
      reaches by lookup, own or through `defaults_`. */
  function Size(d: Dict): nat
    decreases d, 1
  {
    1 + EntriesSize(d, 0) + (if d.defaults.Some? then Size(d.defaults.value) else 0)
  }

  function EntriesSize(d: Dict, i: nat): nat
    decreases d, 0, |d.entries| - i
  {
    if i >= |d.entries| then 0
    else (if d.entries[i].val.Section? then Size(d.entries[i].val.d) else 0) + EntriesSize(d, i + 1)
  }

  // ---------------------------------------------------------------- own entries

  function OwnKeys(es: seq<Entry>): (ks: seq<string>)
    ensures |ks| == |es|
    ensures forall i :: 0 <= i < |es| ==> ks[i] == es[i].key
  {
    if es == [] then [] else [es[0].key] + OwnKeys(es[1..])
  }

  /** The value of the first own entry with key `k`. */
  function Lookup(es: seq<Entry>, k: string): (r: Option<Value>)
    ensures r.Some? <==> k in OwnKeys(es)
    ensures r.Some? ==> exists i :: 0 <= i < |es| && es[i] == Entry(k, r.value)
  {
    if es == [] then None
    else if es[0].key == k then Some(es[0].val)
    else Lookup(es[1..], k)
  }

  predicate HasOwn(d: Dict, k: string)
  {
    k in OwnKeys(d.entries)
  }

  function OwnGet(d: Dict, k: string): Option<Value>
  {
    Lookup(d.entries, k)
  }

  // ------------------------------------------------- lookup through defaults_

  /** `k in d`. */
  predicate Has(d: Dict, k: string)
  {
    HasOwn(d, k) || (d.defaults.Some? && Has(d.defaults.value, k))
  }

  /** `d[k]`, or `None` where Python raises `KeyError`. */
  function Get(d: Dict, k: string): (r: Option<Value>)
    ensures r.Some? <==> Has(d, k)
    ensures HasOwn(d, k) ==> r == OwnGet(d, k)
  {
    if HasOwn(d, k) then OwnGet(d, k)
    else if d.defaults.Some? then Get(d.defaults.value, k)
    else None
  }

  /** The keys of `ks` that are not own keys of `d`, in order. */
  function NotOwn(ks: seq<string>, d: Dict): (r: seq<string>)
    ensures forall k :: k in r <==> k in ks && !HasOwn(d, k)
  {
    if ks == [] then []
    else (if HasOwn(d, ks[0]) then [] else [ks[0]]) + NotOwn(ks[1..], d)
  }

  /** The keys `d.items()` yields, in order: exactly the keys membership
      holds for. */
  function Keys(d: Dict): (r: seq<string>)
    ensures forall k :: k in r <==> Has(d, k)
  {
    OwnKeys(d.entries) + (if d.defaults.Some? then NotOwn(Keys(d.defaults.value), d) else [])
  }

  /** The pairs `d.items()` yields for the keys `ks`. */
  function ItemsOf(d: Dict, ks: seq<string>): (r: seq<Entry>)
    requires forall k :: k in ks ==> Has(d, k)
    ensures |r| == |ks|
    ensures forall i :: 0 <= i < |ks| ==> r[i] == Entry(ks[i], Get(d, ks[i]).value)
    ensures forall i :: 0 <= i < |ks| && r[i].val.Section? ==> Size(r[i].val.d) < Size(d)
  {
    if ks == [] then []
    else
      GetSmallerIf(d, ks[0]);
      [Entry(ks[0], Get(d, ks[0]).value)] + ItemsOf(d, ks[1..])
  }

  /** `d.items()`: every key iteration yields, with the value lookup gives. */
  function Items(d: Dict): (r: seq<Entry>)
    ensures |r| == |Keys(d)|
    ensures forall i :: 0 <= i < |r| ==> r[i] == Entry(Keys(d)[i], Get(d, Keys(d)[i]).value)
    ensures forall i :: 0 <= i < |r| && r[i].val.Section? ==> Size(r[i].val.d) < Size(d)
  {
    ItemsOf(d, Keys(d))
  }

  /** Python truth of a section: iteration yields nothing. */
  predicate IsEmpty(d: Dict)
  {
    Keys(d) == []
  }

  // ------------------------------------------------------------------ updates

  function SetEntries(es: seq<Entry>, k: string, v: Value): (r: seq<Entry>)
    ensures OwnKeys(r) == if k in OwnKeys(es) then OwnKeys(es) else OwnKeys(es) + [k]
  {
    if es == [] then [Entry(k, v)]
    else if es[0].key == k then [Entry(k, v)] + es[1..]
    else [es[0]] + SetEntries(es[1..], k, v)
  }

  /** After setting `k` the own entries map `k` to `v` and every other key
      as before. */
  lemma {:induction false} SetEntriesLookup(es: seq<Entry>, k: string, v: Value)
    ensures Lookup(SetEntries(es, k, v), k) == Some(v)
    ensures forall k' :: k' != k ==> Lookup(SetEntries(es, k, v), k') == Lookup(es, k')
    decreases |es|
  {
    var r := SetEntries(es, k, v);
    if es == [] {
      assert r == [Entry(k, v)];
    } else if es[0].key == k {
      assert r[0] == Entry(k, v) && r[1..] == es[1..];
    } else {
      SetEntriesLookup(es[1..], k, v);
      assert r[0] == es[0] && r[1..] == SetEntries(es[1..], k, v);
      forall k' | k' != k
        ensures Lookup(r, k') == Lookup(es, k')
      {
        if k' != es[0].key {
          assert Lookup(r, k') == Lookup(r[1..], k');
        }
      }
    }
  }

  /** `d[k] = v`: replaces the own entry in place, or appends a new one. */
  function Set(d: Dict, k: string, v: Value): Dict
  {
    d.(entries := SetEntries(d.entries, k, v))
  }

  function RemoveEntries(es: seq<Entry>, k: string): (r: seq<Entry>)
    ensures OwnKeys(r) == RemoveKey(OwnKeys(es), k)
    ensures forall k' :: k' != k ==> Lookup(r, k') == Lookup(es, k')
  {
    if es == [] then []
    else if es[0].key == k then RemoveEntries(es[1..], k)
    else [es[0]] + RemoveEntries(es[1..], k)
  }

  function RemoveKey(ks: seq<string>, k: string): (r: seq<string>)
    ensures forall k' :: k' in r <==> k' in ks && k' != k
  {
    if ks == [] then []
    else (if ks[0] == k then [] else [ks[0]]) + RemoveKey(ks[1..], k)
  }

  /** `del d[k]` on an own entry. */
  function DelOwn(d: Dict, k: string): Dict
  {
    d.(entries := RemoveEntries(d.entries, k))
  }

  /** Replaces the object that `d[k]` denotes: the own entry when there is
      one, else the entry found through `defaults_`; a key found nowhere is
      set as a new own entry. This is how a mutation of `d[k]` in place
      reaches `d`. */
  function Put(d: Dict, k: string, v: Value): Dict
  {
    if HasOwn(d, k) then Set(d, k, v)
    else if d.defaults.Some? && Has(d.defaults.value, k) then d.(defaults := Some(Put(d.defaults.value, k, v)))
    else Set(d, k, v)
  }

  // ------------------------------------------------------------ well-formedness

  predicate Unique(ks: seq<string>)
  {
    forall i, j :: 0 <= i < j < |ks| ==> ks[i] != ks[j]
  }

  /** Own keys are unique at every level, in sections and side-sections. */
  predicate WF(d: Dict)
    decreases d
  {
    && Unique(OwnKeys(d.entries))
    && (d.defaults.Some? ==> WF(d.defaults.value))
    && forall i :: 0 <= i < |d.entries| && d.entries[i].val.Section? ==> WF(d.entries[i].val.d)
  }

  // ------------------------------------------------------------------- lemmas

  function ValueSize(v: Value): nat
  {
    if v.Section? then Size(v.d) else 0
  }

  lemma {:induction false} EntriesSizeBound(d: Dict, i: nat, j: nat)
    requires i <= j < |d.entries|
    ensures ValueSize(d.entries[j].val) <= EntriesSize(d, i)
    decreases j - i
  {
    if i < j {
      EntriesSizeBound(d, i + 1, j);
    }
  }

  /** A section reached by lookup is strictly smaller than the one it was
      looked up in, so recursion through `d[key]` terminates. */
  lemma {:induction false} GetSmaller(d: Dict, k: string)
    requires Get(d, k).Some? && Get(d, k).value.Section?
    ensures Size(Get(d, k).value.d) < Size(d)
    decreases d
  {
    if HasOwn(d, k) {
      var i :| 0 <= i < |d.entries| && d.entries[i] == Entry(k, Get(d, k).value);
      EntriesSizeBound(d, 0, i);
    } else {
      GetSmaller(d.defaults.value, k);
    }
  }

  lemma GetSmallerIf(d: Dict, k: string)
    ensures Get(d, k).Some? && Get(d, k).value.Section? ==> Size(Get(d, k).value.d) < Size(d)
  {
    if Get(d, k).Some? && Get(d, k).value.Section? {
      GetSmaller(d, k);
    }
  }

  /** With unique own keys everywhere, iteration yields each key once. */
  lemma {:induction false} KeysUnique(d: Dict)
    requires WF(d)
    ensures Unique(Keys(d))
    decreases d
  {
    if d.defaults.Some? {
      KeysUnique(d.defaults.value);
      NotOwnUnique(Keys(d.defaults.value), d);
      var a, b := OwnKeys(d.entries), NotOwn(Keys(d.defaults.value), d);
      forall i, j | 0 <= i < j < |a + b| ensures (a + b)[i] != (a + b)[j] {
        if j >= |a| && i < |a| {
          assert (a + b)[j] in b;
          assert (a + b)[i] in a;
        }
      }
    }
  }

  lemma {:induction false} NotOwnUnique(ks: seq<string>, d: Dict)
    requires Unique(ks)
    ensures Unique(NotOwn(ks, d))
    decreases ks
  {
    if ks != [] {
      NotOwnUnique(ks[1..], d);
      var a, b := if HasOwn(d, ks[0]) then [] else [ks[0]], NotOwn(ks[1..], d);
      forall i, j | 0 <= i < j < |a + b| ensures (a + b)[i] != (a + b)[j] {
        if i < |a| {
          assert (a + b)[j] in b;
          assert (a + b)[j] in ks[1..];
        }
      }
    }
  }

  /** Every section reached by lookup in a well-formed section is
      well-formed. */
  lemma {:induction false} GetWF(d: Dict, k: string)
    requires WF(d) && Get(d, k).Some? && Get(d, k).value.Section?
    ensures WF(Get(d, k).value.d)
    decreases d
  {
    if !HasOwn(d, k) {
      GetWF(d.defaults.value, k);
    }
  }

  /** Setting an own entry: the key now maps to the new value, every other
      key keeps its lookup and membership, and `defaults_` is untouched. */
  lemma SetEffect(d: Dict, k: string, v: Value)
    ensures Get(Set(d, k, v), k) == Some(v) && HasOwn(Set(d, k, v), k)
    ensures Set(d, k, v).defaults == d.defaults
    ensures forall k' :: k' != k ==>
      (Get(Set(d, k, v), k') == Get(d, k') && HasOwn(Set(d, k, v), k') == HasOwn(d, k')
       && OwnGet(Set(d, k, v), k') == OwnGet(d, k'))
  {
    SetEntriesLookup(d.entries, k, v);
  }

  /** Replacing the object `d[k]` denotes: the key maps to the new value and
      nothing else is looked up differently. */
  lemma {:induction false} PutEffect(d: Dict, k: string, v: Value)
    ensures Get(Put(d, k, v), k) == Some(v)
    ensures HasOwn(Put(d, k, v), k) <==> HasOwn(d, k) || !Has(d, k)
    ensures forall k' :: k' != k ==>
      (Get(Put(d, k, v), k') == Get(d, k') && OwnGet(Put(d, k, v), k') == OwnGet(d, k'))
    ensures Has(d, k) ==> Keys(Put(d, k, v)) == Keys(d)
    decreases d
  {
    if HasOwn(d, k) {
      SetEffect(d, k, v);
      var d' := Put(d, k, v);
      assert OwnKeys(d'.entries) == OwnKeys(d.entries);
      NotOwnSame(d, d');
    } else if d.defaults.Some? && Has(d.defaults.value, k) {
      PutEffect(d.defaults.value, k, v);
      var d' := Put(d, k, v);
      assert d'.entries == d.entries;
      forall k' | k' != k
        ensures Get(d', k') == Get(d, k') && OwnGet(d', k') == OwnGet(d, k')
      {
        assert HasOwn(d', k') == HasOwn(d, k');
      }
      NotOwnCongruent(Keys(d.defaults.value), d, d');
    } else {
      SetEffect(d, k, v);
    }
  }

  /** Deleting an own entry: the key is no longer own, every other key
      keeps its lookup and membership, and `defaults_` is untouched. */
  lemma DelOwnEffect(d: Dict, k: string)
    ensures !HasOwn(DelOwn(d, k), k) && DelOwn(d, k).defaults == d.defaults
    ensures forall k' :: k' != k ==>
      (Get(DelOwn(d, k), k') == Get(d, k') && HasOwn(DelOwn(d, k), k') == HasOwn(d, k')
       && OwnGet(DelOwn(d, k), k') == OwnGet(d, k'))
  {
    var d' := DelOwn(d, k);
    forall k' | k' != k
      ensures HasOwn(d', k') == HasOwn(d, k')
    {
    }
  }

  lemma {:induction false} SetEntriesSame(es: seq<Entry>, k: string)
    requires Lookup(es, k).Some?
    ensures SetEntries(es, k, Lookup(es, k).value) == es
    decreases |es|
  {
    if es[0].key != k {
      SetEntriesSame(es[1..], k);
    }
  }

  /** Writing back the value a key already denotes changes nothing. */
  lemma {:induction false} PutSame(d: Dict, k: string)
    requires Has(d, k)
    ensures Put(d, k, Get(d, k).value) == d
    decreases d
  {
    if HasOwn(d, k) {
      SetEntriesSame(d.entries, k);
    } else {
      PutSame(d.defaults.value, k);
    }
  }

  lemma NotOwnSame(d: Dict, d': Dict)
    requires OwnKeys(d.entries) == OwnKeys(d'.entries) && d.defaults == d'.defaults
    ensures Keys(d) == Keys(d')
  {
    if d.defaults.Some? {
      NotOwnCongruent(Keys(d.defaults.value), d, d');
    }
  }

  lemma {:induction false} NotOwnCongruent(ks: seq<string>, d: Dict, d': Dict)
    requires OwnKeys(d.entries) == OwnKeys(d'.entries)
    ensures NotOwn(ks, d) == NotOwn(ks, d')
    decreases ks
  {
    if ks != [] {
      NotOwnCongruent(ks[1..], d, d');
    }
  }
}
