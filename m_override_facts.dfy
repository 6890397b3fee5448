/** What `m_override(target, sparse)` promises about the tree it leaves:
    every list and scalar of `sparse` ends up at its path, and the
    sections recorded in `defaults_list`, and only those, have a
    `defaults_`, namely the template that was recorded with them. */
module ManyOverrideFacts {
  import opened ConfigNode
  import opened ManyOverride

  // --------------------------------------------------------------- key paths

  predicate Prefix(a: seq<string>, b: seq<string>)
  {
    |a| <= |b| && b[..|a|] == a
  }

  lemma ConsAppend(q: seq<string>, r: seq<string>)
    requires q != []
    ensures (q + r)[0] == q[0] && (q + r)[1..] == q[1..] + r
  {
  }

  lemma PrefixCons(a: seq<string>, b: seq<string>)
    requires a != [] && b != []
    ensures Prefix(a, b) <==> a[0] == b[0] && Prefix(a[1..], b[1..])
  {
    if a[0] == b[0] && Prefix(a[1..], b[1..]) {
      assert b[..|a|] == [b[0]] + b[1..][..|a| - 1];
      assert a == [a[0]] + a[1..];
    }
  }

  lemma PrefixSnoc(a: seq<string>, x: string, b: seq<string>)
    requires Prefix(a + [x], b)
    ensures Prefix(a, b)
  {
    assert b[..|a|] == b[..|a| + 1][..|a|];
  }

  lemma PrefixOfSnoc(a: seq<string>, b: seq<string>, x: string)
    requires Prefix(a, b + [x])
    ensures Prefix(a, b) || a == b + [x]
  {
    if |a| <= |b| {
      assert (b + [x])[..|a|] == b[..|a|];
    }
  }

  lemma PrefixAppend(q: seq<string>, a: seq<string>, b: seq<string>)
    ensures Prefix(q + a, q + b) <==> Prefix(a, b)
  {
    if Prefix(q + a, q + b) {
      assert (q + b)[..|q + a|] == q + b[..|a|];
      assert (q + a)[|q|..] == a && (q + b[..|a|])[|q|..] == b[..|a|];
    }
    if Prefix(a, b) {
      assert (q + b)[..|q + a|] == q + b[..|a|];
    }
  }

  /** The value at key `k` of the section at `p`, if there is one. */
  function ValueAt(root: Dict, p: seq<string>, k: string): Option<Value>
  {
    match SectionAt(root, p)
    case Some(d) => Get(d, k)
    case None => None
  }

  // --------------------------------------------------------------- navigation

  lemma PutHere(d: Dict, k: string, v: Value)
    ensures Get(Put(d, k, v), k) == Some(v)
  {
    PutEffect(d, k, v);
  }

  lemma PutElse(d: Dict, k: string, v: Value, k': string)
    requires k' != k
    ensures Get(Put(d, k, v), k') == Get(d, k')
  {
    PutEffect(d, k, v);
  }

  lemma {:induction false} SectionAtAppend(root: Dict, q: seq<string>, r: seq<string>)
    requires SectionAt(root, q).Some?
    ensures SectionAt(root, q + r) == SectionAt(SectionAt(root, q).value, r)
    decreases |q|
  {
    if q != [] {
      ConsAppend(q, r);
      SectionAtAppend(Get(root, q[0]).value.d, q[1..], r);
    } else {
      assert q + r == r;
    }
  }

  /** Below the section written, what is found is what was written. */
  lemma {:induction false} PutAtBelow(root: Dict, q: seq<string>, x: Dict, r: seq<string>)
    requires SectionAt(root, q).Some?
    ensures SectionAt(PutAt(root, q, x), q + r) == SectionAt(x, r)
    decreases |q|
  {
    if q != [] {
      var c := Get(root, q[0]).value.d;
      var c' := PutAt(c, q[1..], x);
      PutAtCons(root, q, x);
      PutHere(root, q[0], Section(c'));
      ConsAppend(q, r);
      SectionAtCons(Put(root, q[0], Section(c')), q + r);
      PutAtBelow(c, q[1..], x, r);
    } else {
      assert q + r == r;
    }
  }

  /** A section lies on the way to a section that exists. */
  lemma {:induction false} ResolveThrough(root: Dict, p: seq<string>, k: string, q: seq<string>)
    requires Prefix(p + [k], q) && SectionAt(root, q).Some?
    ensures ValueAt(root, p, k).Some? && ValueAt(root, p, k).value.Section?
    decreases |p|
  {
    if p != [] {
      PrefixCons(p + [k], q);
      ConsAppend(p, [k]);
      ResolveThrough(Get(root, p[0]).value.d, p[1..], k, q[1..]);
    } else {
      assert q[0] == k;
    }
  }

  /** One step of `PutAt` down a path that exists. */
  lemma PutAtCons(root: Dict, q: seq<string>, x: Dict)
    requires q != [] && SectionAt(root, q).Some?
    ensures Get(root, q[0]).Some? && Get(root, q[0]).value.Section?
    ensures SectionAt(Get(root, q[0]).value.d, q[1..]).Some?
    ensures PutAt(root, q, x) == Put(root, q[0], Section(PutAt(Get(root, q[0]).value.d, q[1..], x)))
  {
  }

  lemma SectionAtCons(root: Dict, p: seq<string>)
    requires p != []
    ensures Get(root, p[0]).Some? && Get(root, p[0]).value.Section? ==>
      SectionAt(root, p) == SectionAt(Get(root, p[0]).value.d, p[1..])
    ensures !(Get(root, p[0]).Some? && Get(root, p[0]).value.Section?) ==> SectionAt(root, p).None?
  {
  }

  /** One step of a lookup down a path. */
  lemma ValueAtCons(root: Dict, p: seq<string>, k: string)
    requires p != []
    ensures Get(root, p[0]).Some? && Get(root, p[0]).value.Section? ==>
      ValueAt(root, p, k) == ValueAt(Get(root, p[0]).value.d, p[1..], k)
    ensures !(Get(root, p[0]).Some? && Get(root, p[0]).value.Section?) ==> ValueAt(root, p, k).None?
  {
  }

  /** Writing the section at `q` leaves what is found elsewhere: a key
      found stays found, and its value stays unless it lies on the way to
      `q`. */
  lemma {:induction false} PutAtAside(root: Dict, q: seq<string>, x: Dict, p: seq<string>, k: string)
    requires SectionAt(root, q).Some? && !Prefix(q, p)
    ensures ValueAt(root, p, k).Some? ==> ValueAt(PutAt(root, q, x), p, k).Some?
    ensures !Prefix(p + [k], q) ==> ValueAt(PutAt(root, q, x), p, k) == ValueAt(root, p, k)
    decreases |q|
  {
    assert q != [];
    var c := Get(root, q[0]).value.d;
    var c' := PutAt(c, q[1..], x);
    PutAtCons(root, q, x);
    if p == [] {
      AsideTop(root, q, c', k);
    } else if p[0] != q[0] {
      AsideOther(root, q[0], c', p, k);
    } else {
      assert !Prefix(q[1..], p[1..]) && (Prefix(p[1..] + [k], q[1..]) <==> Prefix(p + [k], q)) by {
        PrefixCons(q, p);
        PrefixCons(p + [k], q);
        ConsAppend(p, [k]);
      }
      PutAtAside(c, q[1..], x, p[1..], k);
      PutHere(root, q[0], Section(c'));
      ValueAtCons(root, p, k);
      ValueAtCons(Put(root, q[0], Section(c')), p, k);
    }
  }

  lemma AsideTop(root: Dict, q: seq<string>, c': Dict, k: string)
    requires q != []
    ensures Get(root, k).Some? ==> Get(Put(root, q[0], Section(c')), k).Some?
    ensures !Prefix([k], q) ==> Get(Put(root, q[0], Section(c')), k) == Get(root, k)
  {
    assert Prefix([k], q) <==> q[0] == k;
    if k != q[0] {
      PutElse(root, q[0], Section(c'), k);
    } else {
      PutHere(root, q[0], Section(c'));
    }
  }

  lemma AsideOther(root: Dict, key: string, c': Dict, p: seq<string>, k: string)
    requires p != [] && p[0] != key
    ensures ValueAt(Put(root, key, Section(c')), p, k) == ValueAt(root, p, k)
  {
    PutElse(root, key, Section(c'), p[0]);
    ValueAtCons(root, p, k);
    ValueAtCons(Put(root, key, Section(c')), p, k);
  }

  /** Setting `key` in the section at `q`: everything found elsewhere stays
      found, and a list or scalar stays unless it is the one set. */
  lemma WriteFrame(root: Dict, q: seq<string>, key: string, w: Value, p: seq<string>, k: string)
    requires SectionAt(root, q).Some? && ValueAt(root, p, k).Some?
    ensures var root' := PutAt(root, q, Set(SectionAt(root, q).value, key, w));
      && (!Prefix(q + [key], p) ==> ValueAt(root', p, k).Some?)
      && (!ValueAt(root, p, k).value.Section? && !Prefix(q + [key], p + [k]) ==> ValueAt(root', p, k) == ValueAt(root, p, k))
  {
    var dest := SectionAt(root, q).value;
    var x := Set(dest, key, w);
    if !Prefix(q, p) {
      PutAtAside(root, q, x, p, k);
      if Prefix(p + [k], q) {
        ResolveThrough(root, p, k, q);
      }
    } else {
      var r := p[|q|..];
      assert p == q + r;
      PutAtBelow(root, q, x, r);
      SectionAtAppend(root, q, r);
      PrefixAppend(q, [key], r);
      assert q + r + [k] == q + (r + [k]);
      PrefixAppend(q, [key], r + [k]);
      SetAside(dest, key, w, r, k);
    }
  }

  lemma SetAside(dest: Dict, key: string, w: Value, r: seq<string>, k: string)
    requires ValueAt(dest, r, k).Some?
    ensures !Prefix([key], r) ==> ValueAt(Set(dest, key, w), r, k).Some?
    ensures !Prefix([key], r + [k]) ==> ValueAt(Set(dest, key, w), r, k) == ValueAt(dest, r, k)
  {
    PrefixHead(key, r);
    PrefixHead(key, r + [k]);
    if r == [] {
      if key == k {
        SetHere(dest, key, w);
      } else {
        SetElse(dest, key, w, k);
      }
    } else {
      if r[0] != key {
        SetElse(dest, key, w, r[0]);
        ValueAtCons(dest, r, k);
        ValueAtCons(Set(dest, key, w), r, k);
      }
    }
  }

  lemma PrefixHead(key: string, r: seq<string>)
    ensures Prefix([key], r) <==> r != [] && r[0] == key
  {
    if r != [] {
      assert r[..1] == [r[0]];
    }
  }

  lemma SetHere(d: Dict, k: string, v: Value)
    ensures Get(Set(d, k, v), k) == Some(v)
  {
    SetEffect(d, k, v);
  }

  lemma SetElse(d: Dict, k: string, v: Value, k': string)
    requires k' != k
    ensures Get(Set(d, k, v), k') == Get(d, k')
  {
    SetEffect(d, k, v);
  }

  lemma SnocInjective(a: seq<string>, x: string, b: seq<string>, y: string)
    requires a + [x] == b + [y]
    ensures a == b && x == y
  {
    assert (a + [x])[..|a|] == a && (b + [y])[..|b|] == b;
  }

  /** A key the section at `q` lacks is not on the way to anything found. */
  lemma AbsentNotPrefix(root: Dict, q: seq<string>, key: string, p: seq<string>, k: string)
    requires SectionAt(root, q).Some? && !Has(SectionAt(root, q).value, key)
    requires ValueAt(root, p, k).Some?
    ensures !Prefix(q + [key], p + [k])
  {
    if Prefix(q + [key], p + [k]) {
      PrefixOfSnoc(q + [key], p, k);
      if Prefix(q + [key], p) {
        ResolveThrough(root, q, key, p);
      } else {
        SnocInjective(q, key, p, k);
      }
    }
  }

  lemma SiblingPaths(p: seq<string>, x: string, y: string)
    ensures !Prefix(p + [x], p)
    ensures x != y ==> !Prefix(p + [x], p + [y])
  {
    if x != y && Prefix(p + [x], p + [y]) {
      assert (p + [y])[..|p + [x]|] == p + [y];
      SnocInjective(p, x, p, y);
    }
  }

  lemma PrefixGrow(a: seq<string>, b: seq<string>, x: string)
    requires Prefix(a, b)
    ensures Prefix(a, b + [x])
  {
    assert (b + [x])[..|a|] == b[..|a|];
  }

  // ------------------------------------------------------------- one item

  /** What an item writes at its key: a fresh section for a section item,
      else the item's list or scalar. */
  function ItemWrite(e: Entry): Value
  {
    if e.val.Section? then Section(Empty()) else e.val
  }

  /** One item leaves the tree as it is or sets its key in the section at
      `t.path`. */
  lemma ItemOutShape(root: Dict, t: Task, e: Entry)
    ensures var out := VisitItem(root, t, e).out.d;
      out == root || (SectionAt(root, t.path).Some? && out == PutAt(root, t.path, Set(SectionAt(root, t.path).value, e.key, ItemWrite(e))))
    ensures var out := VisitItem(root, t, e).out.d;
      out != root && e.val.Section? ==> !Has(SectionAt(root, t.path).value, e.key)
  {
  }

  /** One item writes only the key it names in the section at `t.path`,
      and a section item at most creates that key. */
  lemma ItemFrame(root: Dict, t: Task, e: Entry, p: seq<string>, k: string)
    requires ValueAt(root, p, k).Some?
    ensures var out := VisitItem(root, t, e).out.d;
      (e.val.Section? || !Prefix(t.path + [e.key], p)) ==> ValueAt(out, p, k).Some?
    ensures var out := VisitItem(root, t, e).out.d;
      !ValueAt(root, p, k).value.Section? && (e.val.Section? || !Prefix(t.path + [e.key], p + [k])) ==>
        ValueAt(out, p, k) == ValueAt(root, p, k)
  {
    var out := VisitItem(root, t, e).out.d;
    assert (out == root || (SectionAt(root, t.path).Some? && out == PutAt(root, t.path, Set(SectionAt(root, t.path).value, e.key, ItemWrite(e)))))
        && (out != root && e.val.Section? ==> !Has(SectionAt(root, t.path).value, e.key)) by {
      ItemOutShape(root, t, e);
    }
    if out != root {
      if e.val.Section? {
        AbsentNotPrefix(root, t.path, e.key, p, k);
        if Prefix(t.path + [e.key], p) {
          PrefixGrow(t.path + [e.key], p, k);
        }
      }
      WriteFrame(root, t.path, e.key, ItemWrite(e), p, k);
    }
  }

  /** An item that goes through leaves its key found in the section at
      `t.path`, holding the item's value when that is a list or scalar;
      exactly a section item queues an entry. */
  lemma ItemSets(root: Dict, t: Task, e: Entry)
    requires VisitItem(root, t, e).out.Done?
    ensures var s := VisitItem(root, t, e);
      && ValueAt(s.out.d, t.path, e.key).Some?
      && (!e.val.Section? ==> ValueAt(s.out.d, t.path, e.key) == Some(e.val))
      && (e.val.Section? <==> s.pushed != [])
  {
    var s := VisitItem(root, t, e);
    assert SectionAt(root, t.path).Some?
      && (s.out.d == PutAt(root, t.path, Set(SectionAt(root, t.path).value, e.key, ItemWrite(e)))
          || (e.val.Section? && Has(SectionAt(root, t.path).value, e.key) && s.out.d == root))
      && (e.val.Section? <==> s.pushed != []) by {
      ItemDoneShape(root, t, e);
    }
    var dest := SectionAt(root, t.path).value;
    if s.out.d == PutAt(root, t.path, Set(dest, e.key, ItemWrite(e))) {
      PutAtSectionAt(root, t.path, Set(dest, e.key, ItemWrite(e)));
      SetHere(dest, e.key, ItemWrite(e));
    }
  }

  /** An item that goes through found `dest`, and set its key unless it
      is a section item whose key `dest` already has. */
  lemma ItemDoneShape(root: Dict, t: Task, e: Entry)
    requires VisitItem(root, t, e).out.Done?
    ensures var s := VisitItem(root, t, e);
      && SectionAt(root, t.path).Some?
      && (s.out.d == PutAt(root, t.path, Set(SectionAt(root, t.path).value, e.key, ItemWrite(e)))
          || (e.val.Section? && Has(SectionAt(root, t.path).value, e.key) && s.out.d == root))
      && (e.val.Section? <==> s.pushed != [])
  {
  }

  // ------------------------------------------------------ the items of an entry

  lemma {:induction false} ItemsKeepSome(root: Dict, t: Task, es: seq<Entry>, i: nat, bound: nat, acc: seq<Task>, p: seq<string>, k: string)
    requires i <= |es|
    requires forall j :: 0 <= j < |es| && es[j].val.Section? ==> Size(es[j].val.d) < bound
    requires ValueAt(root, p, k).Some?
    requires forall j :: i <= j < |es| && !es[j].val.Section? ==> !Prefix(t.path + [es[j].key], p)
    ensures ValueAt(VisitItems(root, t, es, i, bound, acc).out.d, p, k).Some?
    decreases |es| - i
  {
    if i < |es| {
      var s := VisitItem(root, t, es[i]);
      ItemFrame(root, t, es[i], p, k);
      if s.out.Done? {
        ItemsKeepSome(s.out.d, t, es, i + 1, bound, acc + s.pushed, p, k);
      }
    }
  }

  lemma {:induction false} ItemsKeepValue(root: Dict, t: Task, es: seq<Entry>, i: nat, bound: nat, acc: seq<Task>, p: seq<string>, k: string)
    requires i <= |es|
    requires forall j :: 0 <= j < |es| && es[j].val.Section? ==> Size(es[j].val.d) < bound
    requires ValueAt(root, p, k).Some? && !ValueAt(root, p, k).value.Section?
    requires forall j :: i <= j < |es| && !es[j].val.Section? ==> !Prefix(t.path + [es[j].key], p + [k])
    ensures ValueAt(VisitItems(root, t, es, i, bound, acc).out.d, p, k) == ValueAt(root, p, k)
    decreases |es| - i
  {
    if i < |es| {
      var s := VisitItem(root, t, es[i]);
      ItemFrame(root, t, es[i], p, k);
      if s.out.Done? {
        ItemsKeepValue(s.out.d, t, es, i + 1, bound, acc + s.pushed, p, k);
      }
    }
  }

  /** After the items loop completes, the key of the `j`-th source item is
      found in the section at `t.path`, with the source's value when that
      is a list or scalar. */
  lemma {:induction false} ItemsSet(root: Dict, t: Task, es: seq<Entry>, i: nat, bound: nat, acc: seq<Task>, j: nat)
    requires i <= j < |es|
    requires forall j :: 0 <= j < |es| && es[j].val.Section? ==> Size(es[j].val.d) < bound
    requires forall j, j' :: i <= j < j' < |es| ==> es[j].key != es[j'].key
    requires VisitItems(root, t, es, i, bound, acc).out.Done?
    ensures ValueAt(VisitItems(root, t, es, i, bound, acc).out.d, t.path, es[j].key).Some?
    ensures !es[j].val.Section? ==>
      ValueAt(VisitItems(root, t, es, i, bound, acc).out.d, t.path, es[j].key) == Some(es[j].val)
    decreases |es| - i, 1
  {
    var r, pushed := ItemsSetStep(root, t, es, i, bound, acc);
    ItemsSetRest(r, t, es, i, bound, acc + pushed, j);
  }

  /** The same, from the loop's state after its `i`-th turn. */
  lemma {:induction false} ItemsSetRest(r: Dict, t: Task, es: seq<Entry>, i: nat, bound: nat, acc: seq<Task>, j: nat)
    requires i <= j < |es|
    requires forall j :: 0 <= j < |es| && es[j].val.Section? ==> Size(es[j].val.d) < bound
    requires forall j, j' :: i <= j < j' < |es| ==> es[j].key != es[j'].key
    requires VisitItems(r, t, es, i + 1, bound, acc).out.Done?
    requires ValueAt(r, t.path, es[i].key).Some?
    requires !es[i].val.Section? ==> ValueAt(r, t.path, es[i].key) == Some(es[i].val)
    ensures ValueAt(VisitItems(r, t, es, i + 1, bound, acc).out.d, t.path, es[j].key).Some?
    ensures !es[j].val.Section? ==>
      ValueAt(VisitItems(r, t, es, i + 1, bound, acc).out.d, t.path, es[j].key) == Some(es[j].val)
    decreases |es| - i, 0
  {
    if j > i {
      ItemsSet(r, t, es, i + 1, bound, acc, j);
    } else {
      ItemsSetHere(r, t, es, i, bound, acc);
    }
  }

  /** The items after the `i`-th keep what the `i`-th set. */
  lemma ItemsSetHere(r: Dict, t: Task, es: seq<Entry>, i: nat, bound: nat, acc: seq<Task>)
    requires i < |es|
    requires forall j :: 0 <= j < |es| && es[j].val.Section? ==> Size(es[j].val.d) < bound
    requires forall j' :: i < j' < |es| ==> es[i].key != es[j'].key
    requires ValueAt(r, t.path, es[i].key).Some?
    requires !es[i].val.Section? ==> ValueAt(r, t.path, es[i].key) == Some(es[i].val)
    ensures ValueAt(VisitItems(r, t, es, i + 1, bound, acc).out.d, t.path, es[i].key).Some?
    ensures !es[i].val.Section? ==>
      ValueAt(VisitItems(r, t, es, i + 1, bound, acc).out.d, t.path, es[i].key) == Some(es[i].val)
  {
    forall j' | i < j' < |es|
      ensures !Prefix(t.path + [es[j'].key], t.path) && !Prefix(t.path + [es[j'].key], t.path + [es[i].key])
    {
      SiblingPaths(t.path, es[j'].key, es[i].key);
    }
    ItemsKeepSome(r, t, es, i + 1, bound, acc, t.path, es[i].key);
    assert ValueAt(VisitItems(r, t, es, i + 1, bound, acc).out.d, t.path, es[i].key).Some?;
    if !es[i].val.Section? {
      assert !ValueAt(r, t.path, es[i].key).value.Section?;
      ItemsKeepValue(r, t, es, i + 1, bound, acc, t.path, es[i].key);
      assert ValueAt(VisitItems(r, t, es, i + 1, bound, acc).out.d, t.path, es[i].key) == Some(es[i].val);
    }
  }

  /** The first turn of a completed items loop sets its own item. */
  lemma ItemsSetStep(root: Dict, t: Task, es: seq<Entry>, i: nat, bound: nat, acc: seq<Task>) returns (r: Dict, pushed: seq<Task>)
    requires i < |es|
    requires forall j :: 0 <= j < |es| && es[j].val.Section? ==> Size(es[j].val.d) < bound
    requires VisitItems(root, t, es, i, bound, acc).out.Done?
    ensures VisitItems(root, t, es, i, bound, acc) == VisitItems(r, t, es, i + 1, bound, acc + pushed)
    ensures ValueAt(r, t.path, es[i].key).Some?
    ensures !es[i].val.Section? ==> ValueAt(r, t.path, es[i].key) == Some(es[i].val)
  {
    var s := VisitItem(root, t, es[i]);
    assert s.out.Done?;
    ItemSets(root, t, es[i]);
    r, pushed := s.out.d, s.pushed;
  }

  /** Where a queue entry's source and path go. */
  datatype Place = Place(src: Dict, path: seq<string>)

  function Places(q: seq<Task>): (r: seq<Place>)
    ensures |r| == |q|
    ensures forall a :: 0 <= a < |q| ==> r[a] == Place(q[a].src, q[a].path)
  {
    seq(|q|, a requires 0 <= a < |q| => Place(q[a].src, q[a].path))
  }

  lemma PlacesAppend(a: seq<Task>, b: seq<Task>)
    ensures Places(a + b) == Places(a) + Places(b)
  {
  }

  /** The entries the items from the `i`-th on queue: one per section
      item, in order. */
  function SecPlaces(p: seq<string>, es: seq<Entry>, i: nat): seq<Place>
    requires i <= |es|
    decreases |es| - i
  {
    if i == |es| then []
    else (if es[i].val.Section? then [Place(es[i].val.d, p + [es[i].key])] else []) + SecPlaces(p, es, i + 1)
  }

  /** Exactly a section item that goes through queues an entry, at the
      item's path. */
  lemma ItemPushedPlaces(root: Dict, t: Task, e: Entry)
    requires VisitItem(root, t, e).out.Done?
    ensures Places(VisitItem(root, t, e).pushed) == if e.val.Section? then [Place(e.val.d, t.path + [e.key])] else []
  {
    ItemSets(root, t, e);
  }

  lemma PlacesJoin(acc: seq<Task>, sp: seq<Task>, head: seq<Place>, tail: seq<Place>, rp: seq<Task>)
    requires Places(sp) == head && Places(rp) == Places(acc + sp) + tail
    ensures Places(rp) == Places(acc) + (head + tail)
  {
    PlacesAppend(acc, sp);
  }

  lemma {:induction false} ItemsPushed(root: Dict, t: Task, es: seq<Entry>, i: nat, bound: nat, acc: seq<Task>)
    requires i <= |es|
    requires forall j :: 0 <= j < |es| && es[j].val.Section? ==> Size(es[j].val.d) < bound
    requires VisitItems(root, t, es, i, bound, acc).out.Done?
    ensures Places(VisitItems(root, t, es, i, bound, acc).pushed) == Places(acc) + SecPlaces(t.path, es, i)
    decreases |es| - i
  {
    if i == |es| {
      assert Places(acc) + [] == Places(acc);
    } else {
      var s := VisitItem(root, t, es[i]);
      var r := VisitItems(s.out.d, t, es, i + 1, bound, acc + s.pushed);
      assert s.out.Done? && VisitItems(root, t, es, i, bound, acc) == r;
      var head := if es[i].val.Section? then [Place(es[i].val.d, t.path + [es[i].key])] else [];
      ItemPushedPlaces(root, t, es[i]);
      ItemsPushed(s.out.d, t, es, i + 1, bound, acc + s.pushed);
      PlacesJoin(acc, s.pushed, head, SecPlaces(t.path, es, i + 1), r.pushed);
      assert SecPlaces(t.path, es, i) == head + SecPlaces(t.path, es, i + 1);
    }
  }

  lemma SecPlacesFacts(p: seq<string>, es: seq<Entry>, i: nat)
    requires i <= |es|
    ensures forall x :: x in SecPlaces(p, es, i) ==>
      exists j :: i <= j < |es| && es[j].val.Section? && x == Place(es[j].val.d, p + [es[j].key])
    ensures forall j :: i <= j < |es| && es[j].val.Section? ==> Place(es[j].val.d, p + [es[j].key]) in SecPlaces(p, es, i)
    ensures (forall j, j' :: i <= j < j' < |es| ==> es[j].key != es[j'].key) ==>
      forall a, b :: 0 <= a < b < |SecPlaces(p, es, i)| ==> SecPlaces(p, es, i)[a].path != SecPlaces(p, es, i)[b].path
  {
    SecPlacesFrom(p, es, i);
    SecPlacesHas(p, es, i);
    if forall j, j' :: i <= j < j' < |es| ==> es[j].key != es[j'].key {
      SecPlacesDistinct(p, es, i);
    }
  }

  /** One step of `SecPlaces`. */
  lemma SecPlacesCons(p: seq<string>, es: seq<Entry>, i: nat)
    requires i < |es|
    ensures SecPlaces(p, es, i) == (if es[i].val.Section? then [Place(es[i].val.d, p + [es[i].key])] else []) + SecPlaces(p, es, i + 1)
  {
  }

  lemma {:induction false} SecPlacesFrom(p: seq<string>, es: seq<Entry>, i: nat)
    requires i <= |es|
    ensures forall x :: x in SecPlaces(p, es, i) ==>
      exists j :: i <= j < |es| && es[j].val.Section? && x == Place(es[j].val.d, p + [es[j].key])
    decreases |es| - i
  {
    if i < |es| {
      SecPlacesFrom(p, es, i + 1);
      SecPlacesCons(p, es, i);
    }
  }

  lemma {:induction false} SecPlacesHas(p: seq<string>, es: seq<Entry>, i: nat)
    requires i <= |es|
    ensures forall j :: i <= j < |es| && es[j].val.Section? ==> Place(es[j].val.d, p + [es[j].key]) in SecPlaces(p, es, i)
    decreases |es| - i
  {
    if i < |es| {
      SecPlacesHas(p, es, i + 1);
      SecPlacesCons(p, es, i);
    }
  }

  lemma {:induction false} SecPlacesDistinct(p: seq<string>, es: seq<Entry>, i: nat)
    requires i <= |es|
    requires forall j, j' :: i <= j < j' < |es| ==> es[j].key != es[j'].key
    ensures forall a, b :: 0 <= a < b < |SecPlaces(p, es, i)| ==> SecPlaces(p, es, i)[a].path != SecPlaces(p, es, i)[b].path
    decreases |es| - i
  {
    if i < |es| {
      SecPlacesDistinct(p, es, i + 1);
      SecPlacesFrom(p, es, i + 1);
      SecPlacesCons(p, es, i);
      var tail := SecPlaces(p, es, i + 1);
      if es[i].val.Section? {
        forall b | 0 <= b < |tail|
          ensures tail[b].path != p + [es[i].key]
        {
          assert tail[b] in tail;
          var j :| i + 1 <= j < |es| && es[j].val.Section? && tail[b] == Place(es[j].val.d, p + [es[j].key]);
          SiblingPaths(p, es[j].key, es[i].key);
        }
        var sp := SecPlaces(p, es, i);
        forall a, b | 0 <= a < b < |sp|
          ensures sp[a].path != sp[b].path
        {
          assert sp[b] == tail[b - 1];
          if a > 0 {
            assert sp[a] == tail[a - 1];
          }
        }
      }
    }
  }

  lemma PrefixTrans(a: seq<string>, b: seq<string>, c: seq<string>)
    requires Prefix(a, b) && Prefix(b, c)
    ensures Prefix(a, c)
  {
    assert c[..|a|] == c[..|b|][..|a|];
  }

  lemma PrefixSameLength(a: seq<string>, b: seq<string>)
    requires Prefix(a, b) && |a| == |b|
    ensures a == b
  {
    assert b[..|b|] == b;
  }

  // ------------------------------------------------------------ one entry

  /** A queue entry writes only below its own path. */
  lemma TaskKeeps(root: Dict, t: Task, p: seq<string>, k: string)
    requires ValueAt(root, p, k).Some? && !Prefix(t.path, p + [k])
    ensures ValueAt(VisitTask(root, t).out.d, p, k).Some?
    ensures !ValueAt(root, p, k).value.Section? ==> ValueAt(VisitTask(root, t).out.d, p, k) == ValueAt(root, p, k)
  {
    var es := Items(t.src);
    forall j | 0 <= j < |es|
      ensures !Prefix(t.path + [es[j].key], p) && !Prefix(t.path + [es[j].key], p + [k])
    {
      if Prefix(t.path + [es[j].key], p) {
        PrefixSnoc(t.path, es[j].key, p);
        PrefixGrow(t.path, p, k);
      }
      if Prefix(t.path + [es[j].key], p + [k]) {
        PrefixSnoc(t.path, es[j].key, p + [k]);
      }
    }
    ItemsKeepSome(root, t, es, 0, Size(t.src), [], p, k);
    if !ValueAt(root, p, k).value.Section? {
      ItemsKeepValue(root, t, es, 0, Size(t.src), [], p, k);
    }
  }

  lemma TaskSets(root: Dict, t: Task)
    requires WF(t.src) && VisitTask(root, t).out.Done?
    ensures var out := VisitTask(root, t).out.d; var es := Items(t.src);
      forall j :: 0 <= j < |es| ==>
        && ValueAt(out, t.path, es[j].key).Some?
        && (!es[j].val.Section? ==> ValueAt(out, t.path, es[j].key) == Some(es[j].val))
  {
    var es := Items(t.src);
    KeysUnique(t.src);
    forall j | 0 <= j < |es|
      ensures ValueAt(VisitTask(root, t).out.d, t.path, es[j].key).Some?
      ensures !es[j].val.Section? ==> ValueAt(VisitTask(root, t).out.d, t.path, es[j].key) == Some(es[j].val)
    {
      ItemsSet(root, t, es, 0, Size(t.src), [], j);
    }
  }

  /** The entries one queue entry appends: one per section item, each one
      key below the entry's path, with distinct paths and well-formed
      sources; none at the path of a list or scalar item. */
  lemma PushedFacts(root: Dict, t: Task)
    requires WF(t.src) && VisitTask(root, t).out.Done?
    ensures var s := VisitTask(root, t); var es := Items(t.src);
      && (forall b :: 0 <= b < |s.pushed| ==>
            |s.pushed[b].path| == |t.path| + 1 && Prefix(t.path, s.pushed[b].path) && WF(s.pushed[b].src))
      && (forall a, b :: 0 <= a < b < |s.pushed| ==> s.pushed[a].path != s.pushed[b].path)
      && (forall b, j :: 0 <= b < |s.pushed| && 0 <= j < |es| && !es[j].val.Section? ==> s.pushed[b].path != t.path + [es[j].key])
      && (forall j :: 0 <= j < |es| && es[j].val.Section? ==> Place(es[j].val.d, t.path + [es[j].key]) in Places(s.pushed))
  {
    var s := VisitTask(root, t);
    var es := Items(t.src);
    assert Places(s.pushed) == SecPlaces(t.path, es, 0) by {
      ItemsPushed(root, t, es, 0, Size(t.src), []);
      assert Places([]) + SecPlaces(t.path, es, 0) == SecPlaces(t.path, es, 0);
    }
    SourceItems(t.src);
    PlacesShape(s.pushed, t.path, es);
  }

  /** The items of a well-formed source have distinct keys, and its
      sections are well-formed. */
  lemma SourceItems(src: Dict)
    requires WF(src)
    ensures forall j, j' :: 0 <= j < j' < |Items(src)| ==> Items(src)[j].key != Items(src)[j'].key
    ensures forall j :: 0 <= j < |Items(src)| && Items(src)[j].val.Section? ==> WF(Items(src)[j].val.d)
  {
    var es := Items(src);
    KeysUnique(src);
    forall j | 0 <= j < |es| && es[j].val.Section?
      ensures WF(es[j].val.d)
    {
      GetWF(src, es[j].key);
    }
  }

  lemma PlacesShape(ps: seq<Task>, p: seq<string>, es: seq<Entry>)
    requires Places(ps) == SecPlaces(p, es, 0)
    requires forall j, j' :: 0 <= j < j' < |es| ==> es[j].key != es[j'].key
    requires forall j :: 0 <= j < |es| && es[j].val.Section? ==> WF(es[j].val.d)
    ensures forall b :: 0 <= b < |ps| ==> |ps[b].path| == |p| + 1 && Prefix(p, ps[b].path) && WF(ps[b].src)
    ensures forall a, b :: 0 <= a < b < |ps| ==> ps[a].path != ps[b].path
    ensures forall b, j :: 0 <= b < |ps| && 0 <= j < |es| && !es[j].val.Section? ==> ps[b].path != p + [es[j].key]
    ensures forall j :: 0 <= j < |es| && es[j].val.Section? ==> Place(es[j].val.d, p + [es[j].key]) in Places(ps)
  {
    var sp := SecPlaces(p, es, 0);
    SecPlacesFacts(p, es, 0);
    forall b | 0 <= b < |ps|
      ensures |ps[b].path| == |p| + 1 && Prefix(p, ps[b].path) && WF(ps[b].src)
      ensures forall j :: 0 <= j < |es| && !es[j].val.Section? ==> ps[b].path != p + [es[j].key]
    {
      assert sp[b] in sp && sp[b] == Place(ps[b].src, ps[b].path);
      var j :| 0 <= j < |es| && es[j].val.Section? && sp[b] == Place(es[j].val.d, p + [es[j].key]);
      assert (p + [es[j].key])[..|p|] == p;
      forall j' | 0 <= j' < |es| && !es[j'].val.Section?
        ensures ps[b].path != p + [es[j'].key]
      {
        if ps[b].path == p + [es[j'].key] {
          SnocInjective(p, es[j].key, p, es[j'].key);
        }
      }
    }
    forall a, b | 0 <= a < b < |ps|
      ensures ps[a].path != ps[b].path
    {
      assert sp[a].path == ps[a].path && sp[b].path == ps[b].path;
    }
  }

  // ------------------------------------------------------------ the queue

  predicate QueueWF(q: seq<Task>)
  {
    forall a :: 0 <= a < |q| ==> WF(q[a].src)
  }

  /** No queue entry lies below another. */
  predicate Antichain(q: seq<Task>)
  {
    forall a, b :: 0 <= a < |q| && 0 <= b < |q| && a != b ==> !Prefix(q[a].path, q[b].path)
  }

  /** The queue after one entry completes keeps both invariants. */
  lemma NextQueue(root: Dict, queue: seq<Task>)
    requires queue != [] && QueueWF(queue) && Antichain(queue)
    requires VisitTask(root, queue[0]).out.Done?
    ensures var q' := queue[1..] + VisitTask(root, queue[0]).pushed;
      QueueWF(q') && Antichain(q')
  {
    var t := queue[0];
    var ps := VisitTask(root, t).pushed;
    assert (forall b :: 0 <= b < |ps| ==> |ps[b].path| == |t.path| + 1 && Prefix(t.path, ps[b].path) && WF(ps[b].src))
        && (forall a, b :: 0 <= a < b < |ps| ==> ps[a].path != ps[b].path) by {
      PushedFacts(root, t);
    }
    AntichainTail(queue);
    AntichainExtend(t.path, queue[1..], ps);
    QueueWFAppend(queue[1..], ps);
  }

  lemma QueueWFAppend(rest: seq<Task>, ps: seq<Task>)
    requires QueueWF(rest) && forall b :: 0 <= b < |ps| ==> WF(ps[b].src)
    ensures QueueWF(rest + ps)
  {
    forall a | 0 <= a < |rest + ps|
      ensures WF((rest + ps)[a].src)
    {
      if a < |rest| {
        assert (rest + ps)[a] == rest[a];
      } else {
        assert (rest + ps)[a] == ps[a - |rest|];
      }
    }
  }

  /** The entries behind the first lie apart from it and from each other. */
  lemma AntichainTail(queue: seq<Task>)
    requires queue != [] && QueueWF(queue) && Antichain(queue)
    ensures QueueWF(queue[1..]) && Antichain(queue[1..])
    ensures forall a :: 0 <= a < |queue[1..]| ==> !Prefix(queue[1..][a].path, queue[0].path) && !Prefix(queue[0].path, queue[1..][a].path)
  {
    var rest := queue[1..];
    forall a | 0 <= a < |rest|
      ensures WF(rest[a].src) && !Prefix(rest[a].path, queue[0].path) && !Prefix(queue[0].path, rest[a].path)
    {
      assert rest[a] == queue[a + 1];
    }
    forall a, b | 0 <= a < |rest| && 0 <= b < |rest| && a != b
      ensures !Prefix(rest[a].path, rest[b].path)
    {
      assert rest[a] == queue[a + 1] && rest[b] == queue[b + 1];
    }
  }

  lemma AntichainExtend(p: seq<string>, rest: seq<Task>, ps: seq<Task>)
    requires forall a :: 0 <= a < |rest| ==> !Prefix(rest[a].path, p) && !Prefix(p, rest[a].path)
    requires Antichain(rest)
    requires forall b :: 0 <= b < |ps| ==> |ps[b].path| == |p| + 1 && Prefix(p, ps[b].path)
    requires forall a, b :: 0 <= a < b < |ps| ==> ps[a].path != ps[b].path
    ensures Antichain(rest + ps)
  {
    var q' := rest + ps;
    var n := |rest|;
    forall a, b | 0 <= a < |q'| && 0 <= b < |q'| && a != b
      ensures !Prefix(q'[a].path, q'[b].path)
    {
      if a < n && b < n {
        assert q'[a] == rest[a] && q'[b] == rest[b];
      } else if a < n {
        var x := q'[b].path;
        assert q'[a] == rest[a] && q'[b] == ps[b - n];
        assert x == p + [x[|p|]];
        if Prefix(q'[a].path, x) {
          PrefixOfSnoc(q'[a].path, p, x[|p|]);
        }
      } else if b < n {
        var x := q'[a].path;
        assert q'[a] == ps[a - n] && q'[b] == rest[b];
        assert x == p + [x[|p|]];
        if Prefix(x, q'[b].path) {
          PrefixSnoc(p, x[|p|], q'[b].path);
        }
      } else {
        assert q'[a] == ps[a - n] && q'[b] == ps[b - n];
        if Prefix(q'[a].path, q'[b].path) {
          PrefixSameLength(q'[a].path, q'[b].path);
        }
      }
    }
  }

  /** The loop over the queue writes only below the paths of its entries. */
  lemma {:induction false} DrainKeeps(root: Dict, queue: seq<Task>, log: seq<Pending>, p: seq<string>, k: string)
    requires QueueWF(queue) && ValueAt(root, p, k).Some?
    requires forall a :: 0 <= a < |queue| ==> !Prefix(queue[a].path, p + [k])
    ensures ValueAt(Drain(root, queue, log).out.d, p, k).Some?
    ensures !ValueAt(root, p, k).value.Section? ==> ValueAt(Drain(root, queue, log).out.d, p, k) == ValueAt(root, p, k)
    decreases QCount(queue)
  {
    if queue != [] {
      var t := queue[0];
      var s := VisitTask(root, t);
      TaskKeeps(root, t, p, k);
      if s.out.Done? {
        var q' := queue[1..] + s.pushed;
        PushedFacts(root, t);
        forall a | 0 <= a < |q'|
          ensures WF(q'[a].src) && !Prefix(q'[a].path, p + [k])
        {
          if a >= |queue| - 1 {
            assert q'[a] == s.pushed[a - |queue| + 1];
            if Prefix(q'[a].path, p + [k]) {
              PrefixTrans(t.path, q'[a].path, p + [k]);
            }
          } else {
            assert q'[a] == queue[a + 1];
          }
        }
        QCountAppend(queue[1..], s.pushed);
        DrainKeeps(s.out.d, q', Record(root, t, log), p, k);
      }
    }
  }

  // ---------------------------------------------------- values end up in place

  /** The section reached from `root` through own entries only. */
  function OwnAt(root: Dict, p: seq<string>): Option<Dict>
    decreases |p|
  {
    if p == [] then Some(root)
    else match OwnGet(root, p[0])
      case Some(Section(c)) => OwnAt(c, p[1..])
      case _ => None
  }

  function OwnValueAt(root: Dict, p: seq<string>, k: string): Option<Value>
  {
    match OwnAt(root, p)
    case Some(d) => OwnGet(d, k)
    case None => None
  }

  /** Lookup along `p` then at `k`, through `defaults_` or through own
      entries only. */
  function At(root: Dict, p: seq<string>, k: string, own: bool): Option<Value>
  {
    if own then OwnValueAt(root, p, k) else ValueAt(root, p, k)
  }

  /** Every list and scalar of `src` is found in `root` at its path below
      `p`, with the value `src` gives it. */
  predicate Applied(root: Dict, p: seq<string>, src: Dict, own: bool)
    decreases Size(src)
  {
    var es := Items(src);
    forall j :: 0 <= j < |es| ==>
      if es[j].val.Section? then Applied(root, p + [es[j].key], es[j].val.d, own)
      else At(root, p, es[j].key, own) == Some(es[j].val)
  }

  /** `Applied` carries over to a tree where every list or scalar found
      is found again with the same value. */
  lemma {:induction false} AppliedTransfer(a: Dict, b: Dict, p: seq<string>, src: Dict, own: bool, own': bool)
    requires Applied(a, p, src, own)
    requires forall q, k :: At(a, q, k, own).Some? && !At(a, q, k, own).value.Section? ==> At(b, q, k, own') == At(a, q, k, own)
    ensures Applied(b, p, src, own')
    decreases Size(src)
  {
    var es := Items(src);
    forall j | 0 <= j < |es| && es[j].val.Section?
      ensures Applied(b, p + [es[j].key], es[j].val.d, own')
    {
      AppliedTransfer(a, b, p + [es[j].key], es[j].val.d, own, own');
    }
  }

  /** The head of the queue is applied once the rest of the queue is. */
  lemma EntryApplied(root: Dict, queue: seq<Task>, log: seq<Pending>)
    requires queue != [] && QueueWF(queue) && Antichain(queue)
    requires VisitTask(root, queue[0]).out.Done?
    requires var s := VisitTask(root, queue[0]); var q' := queue[1..] + s.pushed;
      forall b :: 0 <= b < |q'| ==>
        Applied(Drain(s.out.d, q', Record(root, queue[0], log)).out.d, q'[b].path, q'[b].src, false)
    ensures var s := VisitTask(root, queue[0]); var q' := queue[1..] + s.pushed;
      Applied(Drain(s.out.d, q', Record(root, queue[0], log)).out.d, queue[0].path, queue[0].src, false)
  {
    var t := queue[0];
    var s := VisitTask(root, t);
    var q' := queue[1..] + s.pushed;
    var fin := Drain(s.out.d, q', Record(root, t, log)).out.d;
    var es := Items(t.src);
    assert forall j :: 0 <= j < |es| && es[j].val.Section? ==> Place(es[j].val.d, t.path + [es[j].key]) in Places(s.pushed) by {
      PushedFacts(root, t);
    }
    assert forall j :: 0 <= j < |es| && !es[j].val.Section? ==> At(fin, t.path, es[j].key, false) == Some(es[j].val) by {
      forall j | 0 <= j < |es| && !es[j].val.Section?
        ensures At(fin, t.path, es[j].key, false) == Some(es[j].val)
      {
        LeafStays(root, queue, log, j);
      }
    }
    AppliedFromParts(fin, t.path, t.src, queue[1..], s.pushed);
  }

  /** A source is applied at `p` when its lists and scalars are in place
      and each of its sections is the source of an applied queue entry
      below `p`. */
  lemma AppliedFromParts(fin: Dict, p: seq<string>, src: Dict, rest: seq<Task>, ps: seq<Task>)
    requires forall j :: 0 <= j < |Items(src)| && Items(src)[j].val.Section? ==>
      Place(Items(src)[j].val.d, p + [Items(src)[j].key]) in Places(ps)
    requires forall j :: 0 <= j < |Items(src)| && !Items(src)[j].val.Section? ==>
      At(fin, p, Items(src)[j].key, false) == Some(Items(src)[j].val)
    requires forall b :: 0 <= b < |rest + ps| ==> Applied(fin, (rest + ps)[b].path, (rest + ps)[b].src, false)
    ensures Applied(fin, p, src, false)
  {
    var es := Items(src);
    forall j | 0 <= j < |es| && es[j].val.Section?
      ensures Applied(fin, p + [es[j].key], es[j].val.d, false)
    {
      var pl := Place(es[j].val.d, p + [es[j].key]);
      var b :| 0 <= b < |ps| && Places(ps)[b] == pl;
      assert (rest + ps)[|rest| + b] == ps[b];
    }
  }

  /** A list or scalar the head entry sets survives the rest of the loop. */
  lemma LeafStays(root: Dict, queue: seq<Task>, log: seq<Pending>, j: nat)
    requires queue != [] && QueueWF(queue) && Antichain(queue)
    requires VisitTask(root, queue[0]).out.Done?
    requires j < |Items(queue[0].src)| && !Items(queue[0].src)[j].val.Section?
    ensures var s := VisitTask(root, queue[0]); var q' := queue[1..] + s.pushed; var e := Items(queue[0].src)[j];
      ValueAt(Drain(s.out.d, q', Record(root, queue[0], log)).out.d, queue[0].path, e.key) == Some(e.val)
  {
    var t := queue[0];
    var s := VisitTask(root, t);
    var q' := queue[1..] + s.pushed;
    var e := Items(t.src)[j];
    assert ValueAt(s.out.d, t.path, e.key) == Some(e.val) by {
      TaskSets(root, t);
    }
    assert forall b :: 0 <= b < |s.pushed| ==> |s.pushed[b].path| == |t.path| + 1 && s.pushed[b].path != t.path + [e.key] by {
      PushedFacts(root, t);
    }
    AntichainTail(queue);
    ApartFromLeaf(t.path, e.key, queue[1..], s.pushed);
    NextQueue(root, queue);
    QCountAppend(queue[1..], s.pushed);
    DrainKeeps(s.out.d, q', Record(root, t, log), t.path, e.key);
  }

  /** Entries apart from `p`, or one key below it, do not lie on the way
      to the key `k` of `p`. */
  lemma ApartFromLeaf(p: seq<string>, k: string, rest: seq<Task>, ps: seq<Task>)
    requires forall a :: 0 <= a < |rest| ==> !Prefix(rest[a].path, p) && !Prefix(p, rest[a].path)
    requires forall b :: 0 <= b < |ps| ==> |ps[b].path| == |p| + 1 && ps[b].path != p + [k]
    ensures forall a :: 0 <= a < |rest + ps| ==> !Prefix((rest + ps)[a].path, p + [k])
  {
    var q' := rest + ps;
    forall a | 0 <= a < |q'|
      ensures !Prefix(q'[a].path, p + [k])
    {
      if a < |rest| {
        assert q'[a] == rest[a];
        if Prefix(q'[a].path, p + [k]) {
          PrefixOfSnoc(q'[a].path, p, k);
        }
      } else {
        assert q'[a] == ps[a - |rest|];
        if Prefix(q'[a].path, p + [k]) {
          PrefixSameLength(q'[a].path, p + [k]);
        }
      }
    }
  }

  /** When the loop over the queue completes, every entry it started with
      is applied. */
  lemma {:induction false} DrainApplied(root: Dict, queue: seq<Task>, log: seq<Pending>)
    requires QueueWF(queue) && Antichain(queue) && Drain(root, queue, log).out.Done?
    ensures forall a :: 0 <= a < |queue| ==>
      Applied(Drain(root, queue, log).out.d, queue[a].path, queue[a].src, false)
    decreases QCount(queue)
  {
    if queue != [] {
      var t := queue[0];
      var s := VisitTask(root, t);
      var q' := queue[1..] + s.pushed;
      var log' := Record(root, t, log);
      assert s.out.Done? && Drain(root, queue, log) == Drain(s.out.d, q', log');
      var fin := Drain(s.out.d, q', log').out.d;
      NextQueue(root, queue);
      QCountAppend(queue[1..], s.pushed);
      DrainApplied(s.out.d, q', log');
      EntryApplied(root, queue, log);
      forall a | 1 <= a < |queue|
        ensures Applied(fin, queue[a].path, queue[a].src, false)
      {
        assert queue[a] == q'[a - 1];
      }
    }
  }

  // ------------------------------------------------- trees without defaults_

  /** No section of the tree reached through own entries has a
      `defaults_`. */
  predicate NoSide(d: Dict)
    decreases d
  {
    && d.defaults.None?
    && forall i :: 0 <= i < |d.entries| && d.entries[i].val.Section? ==> NoSide(d.entries[i].val.d)
  }

  lemma NoSideGet(d: Dict, k: string)
    requires NoSide(d)
    ensures Get(d, k) == OwnGet(d, k)
    ensures Get(d, k).Some? ==> HasOwn(d, k)
    ensures Get(d, k).Some? && Get(d, k).value.Section? ==> NoSide(Get(d, k).value.d)
  {
  }

  lemma {:induction false} NoSideAt(root: Dict, p: seq<string>)
    requires NoSide(root)
    ensures SectionAt(root, p) == OwnAt(root, p)
    ensures SectionAt(root, p).Some? ==> NoSide(SectionAt(root, p).value)
    decreases |p|
  {
    if p != [] {
      NoSideGet(root, p[0]);
      if Get(root, p[0]).Some? && Get(root, p[0]).value.Section? {
        NoSideAt(Get(root, p[0]).value.d, p[1..]);
      }
    }
  }

  lemma NoSideValues(root: Dict, p: seq<string>, k: string)
    requires NoSide(root)
    ensures ValueAt(root, p, k) == OwnValueAt(root, p, k)
  {
    NoSideAt(root, p);
    if SectionAt(root, p).Some? {
      NoSideGet(SectionAt(root, p).value, k);
    }
  }

  lemma {:induction false} SetEntriesFrom(es: seq<Entry>, k: string, v: Value)
    ensures forall i :: 0 <= i < |SetEntries(es, k, v)| ==>
      SetEntries(es, k, v)[i] == Entry(k, v) || SetEntries(es, k, v)[i] in es
    decreases |es|
  {
    if es != [] && es[0].key != k {
      SetEntriesFrom(es[1..], k, v);
      var r := SetEntries(es, k, v);
      forall i | 0 <= i < |r|
        ensures r[i] == Entry(k, v) || r[i] in es
      {
        if i > 0 {
          assert r[i] == SetEntries(es[1..], k, v)[i - 1];
        }
      }
    }
  }

  lemma SetNoSide(d: Dict, k: string, v: Value)
    requires NoSide(d) && (v.Section? ==> NoSide(v.d))
    ensures NoSide(Set(d, k, v))
  {
    SetEntriesFrom(d.entries, k, v);
    var es := Set(d, k, v).entries;
    forall i | 0 <= i < |es| && es[i].val.Section?
      ensures NoSide(es[i].val.d)
    {
      if es[i] != Entry(k, v) {
        var j :| 0 <= j < |d.entries| && d.entries[j] == es[i];
      }
    }
  }

  lemma {:induction false} PutAtNoSide(root: Dict, q: seq<string>, x: Dict)
    requires NoSide(root) && SectionAt(root, q).Some? && NoSide(x)
    ensures NoSide(PutAt(root, q, x))
    decreases |q|
  {
    if q != [] {
      NoSideGet(root, q[0]);
      var c := Get(root, q[0]).value.d;
      PutAtNoSide(c, q[1..], x);
      SetNoSide(root, q[0], Section(PutAt(c, q[1..], x)));
    }
  }

  lemma ItemNoSide(root: Dict, t: Task, e: Entry)
    requires NoSide(root)
    ensures NoSide(VisitItem(root, t, e).out.d)
  {
    var out := VisitItem(root, t, e).out.d;
    assert out == root || (SectionAt(root, t.path).Some? && out == PutAt(root, t.path, Set(SectionAt(root, t.path).value, e.key, ItemWrite(e)))) by {
      ItemOutShape(root, t, e);
    }
    if out != root {
      var dest := SectionAt(root, t.path).value;
      NoSideAt(root, t.path);
      SetNoSide(dest, e.key, ItemWrite(e));
      PutAtNoSide(root, t.path, Set(dest, e.key, ItemWrite(e)));
    }
  }

  lemma {:induction false} ItemsNoSide(root: Dict, t: Task, es: seq<Entry>, i: nat, bound: nat, acc: seq<Task>)
    requires i <= |es|
    requires forall j :: 0 <= j < |es| && es[j].val.Section? ==> Size(es[j].val.d) < bound
    requires NoSide(root)
    ensures NoSide(VisitItems(root, t, es, i, bound, acc).out.d)
    decreases |es| - i
  {
    if i < |es| {
      var s := VisitItem(root, t, es[i]);
      ItemNoSide(root, t, es[i]);
      if s.out.Done? {
        ItemsNoSide(s.out.d, t, es, i + 1, bound, acc + s.pushed);
      }
    }
  }

  /** The loop over the queue assigns no `defaults_`. */
  lemma {:induction false} DrainNoSide(root: Dict, queue: seq<Task>, log: seq<Pending>)
    requires NoSide(root)
    ensures NoSide(Drain(root, queue, log).out.d)
    decreases QCount(queue)
  {
    if queue != [] {
      var t := queue[0];
      var s := VisitTask(root, t);
      ItemsNoSide(root, t, Items(t.src), 0, Size(t.src), []);
      if s.out.Done? {
        QCountAppend(queue[1..], s.pushed);
        DrainNoSide(s.out.d, queue[1..] + s.pushed, Record(root, t, log));
      }
    }
  }

  // ------------------------------------------------------ attaching templates

  lemma SameEntriesOwn(a: Dict, b: Dict, p: seq<string>, k: string)
    requires a.entries == b.entries
    ensures OwnValueAt(a, p, k) == OwnValueAt(b, p, k)
    ensures p != [] ==> OwnAt(a, p) == OwnAt(b, p)
  {
  }

  /** Writing back a section with its own entries unchanged keeps every
      own-entry lookup that finds something finding something, and every
      list or scalar as it is. */
  lemma {:induction false} PutAtOwnValue(root: Dict, q: seq<string>, x: Dict, p: seq<string>, k: string)
    requires SectionAt(root, q).Some? && x.entries == SectionAt(root, q).value.entries
    ensures OwnValueAt(root, p, k).Some? ==> OwnValueAt(PutAt(root, q, x), p, k).Some?
    ensures OwnValueAt(root, p, k).Some? && !OwnValueAt(root, p, k).value.Section? ==>
      OwnValueAt(PutAt(root, q, x), p, k) == OwnValueAt(root, p, k)
    decreases |q|
  {
    if q == [] {
      SameEntriesOwn(root, x, p, k);
    } else {
      var c := Get(root, q[0]).value.d;
      var c' := PutAt(c, q[1..], x);
      var root' := PutAt(root, q, x);
      if HasOwn(root, q[0]) {
        SetEffect(root, q[0], Section(c'));
        if p != [] && p[0] == q[0] {
          PutAtOwnValue(c, q[1..], x, p[1..], k);
          assert OwnAt(root', p) == OwnAt(c', p[1..]);
        }
      } else {
        SameEntriesOwn(root, root', p, k);
      }
    }
  }

  /** Attaching templates keeps every list and scalar reached through own
      entries. */
  lemma {:induction false} AttachKeepsOwn(root: Dict, log: seq<Pending>, i: nat, p: seq<string>, k: string)
    requires i <= |log|
    ensures OwnValueAt(root, p, k).Some? && !OwnValueAt(root, p, k).value.Section? ==>
      OwnValueAt(AttachAll(root, log, i).d, p, k) == OwnValueAt(root, p, k)
    decreases |log| - i
  {
    if i < |log| {
      match SectionAt(root, log[i].dest)
      case None =>
      case Some(d) =>
        var x := d.(defaults := Some(Template(root, Some(log[i].md))));
        PutAtOwnValue(root, log[i].dest, x, p, k);
        AttachKeepsOwn(PutAt(root, log[i].dest, x), log, i + 1, p, k);
    }
  }

  /** `m_override` on a target without `defaults_`: when it completes,
      every list and scalar of `sparse` is an own entry of the section at
      its path, with the value `sparse` gives it. */
  lemma ManyOverrideApplied(target: Dict, sparse: Dict)
    requires WF(sparse) && NoSide(target) && ManyOverridden(target, sparse).out.Done?
    ensures Applied(ManyOverridden(target, sparse).out.d, [], sparse, true)
  {
    var r := ManyOverridden(target, sparse);
    if IsEmpty(sparse) {
      assert Items(sparse) == [];
    } else {
      var q := [Task(sparse, [], None)];
      var dr := Drain(target, q, []);
      var drained := dr.out.d;
      assert QueueWF(q) && Antichain(q);
      DrainApplied(target, q, []);
      DrainNoSide(target, q, []);
      assert r.out == AttachAll(drained, dr.pending, 0);
      forall p, k | At(drained, p, k, false).Some? && !At(drained, p, k, false).value.Section?
        ensures At(r.out.d, p, k, true) == At(drained, p, k, false)
      {
        NoSideValues(drained, p, k);
        AttachKeepsOwn(drained, dr.pending, 0, p, k);
      }
      AppliedTransfer(drained, r.out.d, [], sparse, false, true);
    }
  }

  // ------------------------------------------------------ the recorded sections

  /** No section is recorded twice. */
  predicate LogDistinct(log: seq<Pending>)
  {
    forall a, b :: 0 <= a < b < |log| ==> log[a].dest != log[b].dest
  }

  /** The path is the top, or its last key is found in the section at the
      rest of it. */
  predicate Reaches(root: Dict, p: seq<string>)
  {
    p == [] || ValueAt(root, p[..|p| - 1], p[|p| - 1]).Some?
  }

  lemma ReachesKept(root: Dict, t: Task, d: seq<string>)
    requires Reaches(root, d) && (d == t.path || !Prefix(t.path, d))
    ensures Reaches(VisitTask(root, t).out.d, d)
  {
    if d != [] {
      var p := d[..|d| - 1];
      var k := d[|d| - 1];
      assert d == p + [k];
      if d == t.path {
        var es := Items(t.src);
        assert forall j :: 0 <= j < |es| ==> !Prefix(t.path + [es[j].key], p) by {
          forall j | 0 <= j < |es|
            ensures !Prefix(t.path + [es[j].key], p)
          {
            assert |p| < |t.path + [es[j].key]|;
          }
        }
        ItemsKeepSome(root, t, es, 0, Size(t.src), [], p, k);
      } else {
        TaskKeeps(root, t, p, k);
      }
    }
  }

  /** Every entry a queue entry appends is reached. */
  lemma PushedReach(root: Dict, t: Task)
    requires WF(t.src) && VisitTask(root, t).out.Done?
    ensures var s := VisitTask(root, t);
      forall b :: 0 <= b < |s.pushed| ==> Reaches(s.out.d, s.pushed[b].path)
  {
    var s := VisitTask(root, t);
    var es := Items(t.src);
    assert Places(s.pushed) == SecPlaces(t.path, es, 0) by {
      ItemsPushed(root, t, es, 0, Size(t.src), []);
      assert Places([]) + SecPlaces(t.path, es, 0) == SecPlaces(t.path, es, 0);
    }
    assert forall j :: 0 <= j < |es| ==> ValueAt(s.out.d, t.path, es[j].key).Some? by {
      TaskSets(root, t);
    }
    PlacesReach(s.out.d, t.path, es, s.pushed);
  }

  /** Entries queued for the section items of `es` below `p` are reached
      when every key of `es` is found at `p`. */
  lemma PlacesReach(out: Dict, p: seq<string>, es: seq<Entry>, ps: seq<Task>)
    requires Places(ps) == SecPlaces(p, es, 0)
    requires forall j :: 0 <= j < |es| ==> ValueAt(out, p, es[j].key).Some?
    ensures forall b :: 0 <= b < |ps| ==> Reaches(out, ps[b].path)
  {
    var sp := SecPlaces(p, es, 0);
    SecPlacesFacts(p, es, 0);
    forall b | 0 <= b < |ps|
      ensures Reaches(out, ps[b].path)
    {
      assert sp[b] in sp && sp[b].path == ps[b].path;
      var j :| 0 <= j < |es| && es[j].val.Section? && sp[b] == Place(es[j].val.d, p + [es[j].key]);
      var u := p + [es[j].key];
      assert u[..|u| - 1] == p && u[|u| - 1] == es[j].key;
    }
  }

  /** The invariant of the loop over the queue about `defaults_list`. */
  predicate LogInv(root: Dict, queue: seq<Task>, log: seq<Pending>)
  {
    && QueueWF(queue) && Antichain(queue) && LogDistinct(log)
    && (forall a, b :: 0 <= a < |log| && 0 <= b < |queue| ==> !Prefix(queue[b].path, log[a].dest))
    && (forall a {:trigger Reaches(root, log[a].dest)} :: 0 <= a < |log| ==> Reaches(root, log[a].dest))
    && (forall b {:trigger Reaches(root, queue[b].path)} :: 0 <= b < |queue| ==> Reaches(root, queue[b].path))
  }

  lemma LogStep(root: Dict, queue: seq<Task>, log: seq<Pending>)
    requires queue != [] && LogInv(root, queue, log) && VisitTask(root, queue[0]).out.Done?
    ensures var s := VisitTask(root, queue[0]);
      LogInv(s.out.d, queue[1..] + s.pushed, Record(root, queue[0], log))
  {
    NextQueue(root, queue);
    LogStepDistinct(root, queue, log);
    LogStepApart(root, queue, log);
    LogStepReach(root, queue, log);
    QueueStepReach(root, queue, log);
  }

  lemma LogStepDistinct(root: Dict, queue: seq<Task>, log: seq<Pending>)
    requires queue != [] && LogInv(root, queue, log)
    ensures LogDistinct(Record(root, queue[0], log))
  {
    var t := queue[0];
    var log' := Record(root, t, log);
    assert forall a :: 0 <= a < |log'| ==> log'[a] == (if a < |log| then log[a] else Pending(t.path, t.md.value));
    forall a | 0 <= a < |log|
      ensures log[a].dest != t.path
    {
      assert !Prefix(queue[0].path, log[a].dest);
    }
  }

  lemma LogStepApart(root: Dict, queue: seq<Task>, log: seq<Pending>)
    requires queue != [] && LogInv(root, queue, log) && VisitTask(root, queue[0]).out.Done?
    ensures var s := VisitTask(root, queue[0]); var q' := queue[1..] + s.pushed; var log' := Record(root, queue[0], log);
      forall a, b :: 0 <= a < |log'| && 0 <= b < |q'| ==> !Prefix(q'[b].path, log'[a].dest)
  {
    ApartRest(root, queue, log);
    ApartPushed(root, queue, log);
    ApartJoin(queue[1..], VisitTask(root, queue[0]).pushed, Record(root, queue[0], log));
  }

  /** Two parts of a queue apart from every destination make the whole
      queue apart from them. */
  lemma ApartJoin(rest: seq<Task>, pushed: seq<Task>, log: seq<Pending>)
    requires forall a, b :: 0 <= a < |log| && 0 <= b < |rest| ==> !Prefix(rest[b].path, log[a].dest)
    requires forall a, b :: 0 <= a < |log| && 0 <= b < |pushed| ==> !Prefix(pushed[b].path, log[a].dest)
    ensures forall a, b :: 0 <= a < |log| && 0 <= b < |rest + pushed| ==> !Prefix((rest + pushed)[b].path, log[a].dest)
  {
    forall a, b | 0 <= a < |log| && 0 <= b < |rest + pushed|
      ensures !Prefix((rest + pushed)[b].path, log[a].dest)
    {
      if b < |rest| {
        assert (rest + pushed)[b] == rest[b];
      } else {
        assert (rest + pushed)[b] == pushed[b - |rest|];
      }
    }
  }

  /** `defaults_list` after one entry: the old list, with the visited path
      possibly added. */
  lemma RecordShape(root: Dict, t: Task, log: seq<Pending>)
    ensures var log' := Record(root, t, log);
      |log| <= |log'| <= |log| + 1
      && (forall a :: 0 <= a < |log| ==> log'[a] == log[a])
      && (forall a :: |log| <= a < |log'| ==> log'[a].dest == t.path)
  {
  }

  /** Entries still waiting lie apart from every recorded destination. */
  lemma ApartRest(root: Dict, queue: seq<Task>, log: seq<Pending>)
    requires queue != [] && LogInv(root, queue, log)
    ensures var log' := Record(root, queue[0], log);
      forall a, b :: 0 <= a < |log'| && 0 <= b < |queue[1..]| ==> !Prefix(queue[1..][b].path, log'[a].dest)
  {
    var log' := Record(root, queue[0], log);
    RecordShape(root, queue[0], log);
    forall a, b | 0 <= a < |log'| && 0 <= b < |queue[1..]|
      ensures !Prefix(queue[1..][b].path, log'[a].dest)
    {
      assert queue[1..][b] == queue[b + 1];
      if a < |log| {
        assert !Prefix(queue[b + 1].path, log[a].dest);
      } else {
        assert !Prefix(queue[b + 1].path, queue[0].path);
      }
    }
  }

  /** Paths strictly below `top` lie apart from every destination that is
      not below `top`, or is not deeper than it. */
  lemma ApartBelow(top: seq<string>, pushed: seq<Task>, log: seq<Pending>)
    requires forall c :: 0 <= c < |pushed| ==> |pushed[c].path| > |top| && Prefix(top, pushed[c].path)
    requires forall a :: 0 <= a < |log| ==> !Prefix(top, log[a].dest) || |log[a].dest| <= |top|
    ensures forall a, c :: 0 <= a < |log| && 0 <= c < |pushed| ==> !Prefix(pushed[c].path, log[a].dest)
  {
    forall a, c | 0 <= a < |log| && 0 <= c < |pushed|
      ensures !Prefix(pushed[c].path, log[a].dest)
    {
      if Prefix(pushed[c].path, log[a].dest) {
        PrefixTrans(top, pushed[c].path, log[a].dest);
      }
    }
  }

  /** Sections just pushed lie below the visited entry, so apart from
      every recorded destination. */
  lemma ApartPushed(root: Dict, queue: seq<Task>, log: seq<Pending>)
    requires queue != [] && LogInv(root, queue, log) && VisitTask(root, queue[0]).out.Done?
    ensures var s := VisitTask(root, queue[0]); var log' := Record(root, queue[0], log);
      forall a, c :: 0 <= a < |log'| && 0 <= c < |s.pushed| ==> !Prefix(s.pushed[c].path, log'[a].dest)
  {
    var t := queue[0];
    var log' := Record(root, t, log);
    assert forall c :: 0 <= c < |VisitTask(root, t).pushed| ==>
        |VisitTask(root, t).pushed[c].path| > |t.path| && Prefix(t.path, VisitTask(root, t).pushed[c].path) by {
      PushedFacts(root, t);
    }
    assert forall a :: 0 <= a < |log'| ==> !Prefix(t.path, log'[a].dest) || |log'[a].dest| <= |t.path| by {
      RecordShape(root, t, log);
      forall a | 0 <= a < |log'|
        ensures !Prefix(t.path, log'[a].dest) || |log'[a].dest| <= |t.path|
      {
        if a < |log| {
          assert !Prefix(queue[0].path, log[a].dest);
        }
      }
    }
    ApartBelow(t.path, VisitTask(root, t).pushed, log');
  }

  lemma LogStepReach(root: Dict, queue: seq<Task>, log: seq<Pending>)
    requires queue != [] && LogInv(root, queue, log)
    ensures var log' := Record(root, queue[0], log);
      forall a :: 0 <= a < |log'| ==> Reaches(VisitTask(root, queue[0]).out.d, log'[a].dest)
  {
    var t := queue[0];
    var log' := Record(root, t, log);
    assert forall a :: 0 <= a < |log'| ==> log'[a] == (if a < |log| then log[a] else Pending(t.path, t.md.value));
    forall a | 0 <= a < |log'|
      ensures Reaches(VisitTask(root, t).out.d, log'[a].dest)
    {
      if a < |log| {
        assert Reaches(root, log[a].dest) && !Prefix(queue[0].path, log[a].dest);
      } else {
        assert Reaches(root, queue[0].path);
      }
      ReachesKept(root, t, log'[a].dest);
    }
  }

  lemma QueueStepReach(root: Dict, queue: seq<Task>, log: seq<Pending>)
    requires queue != [] && LogInv(root, queue, log) && VisitTask(root, queue[0]).out.Done?
    ensures var s := VisitTask(root, queue[0]); var q' := queue[1..] + s.pushed;
      forall b :: 0 <= b < |q'| ==> Reaches(s.out.d, q'[b].path)
  {
    var t := queue[0];
    var s := VisitTask(root, t);
    var rest := queue[1..];
    assert forall b :: 0 <= b < |s.pushed| ==> Reaches(s.out.d, s.pushed[b].path) by {
      PushedReach(root, t);
    }
    assert forall a :: 0 <= a < |rest| ==> Reaches(s.out.d, rest[a].path) by {
      AntichainTail(queue);
      forall a | 0 <= a < |rest|
        ensures Reaches(s.out.d, rest[a].path)
      {
        assert rest[a] == queue[a + 1];
        assert Reaches(root, queue[a + 1].path);
        ReachesKept(root, t, rest[a].path);
      }
    }
    ReachesJoin(s.out.d, rest, s.pushed);
  }

  lemma ReachesJoin(root: Dict, rest: seq<Task>, ps: seq<Task>)
    requires forall a :: 0 <= a < |rest| ==> Reaches(root, rest[a].path)
    requires forall b :: 0 <= b < |ps| ==> Reaches(root, ps[b].path)
    ensures forall b :: 0 <= b < |rest + ps| ==> Reaches(root, (rest + ps)[b].path)
  {
    forall b | 0 <= b < |rest + ps|
      ensures Reaches(root, (rest + ps)[b].path)
    {
      if b < |rest| {
        assert (rest + ps)[b] == rest[b];
      } else {
        assert (rest + ps)[b] == ps[b - |rest|];
      }
    }
  }

  /** When the loop over the queue completes, `defaults_list` names each
      section once, and each is still reached. */
  lemma {:induction false} DrainLog(root: Dict, queue: seq<Task>, log: seq<Pending>)
    requires LogInv(root, queue, log) && Drain(root, queue, log).out.Done?
    ensures var dr := Drain(root, queue, log);
      LogDistinct(dr.pending) && forall a :: 0 <= a < |dr.pending| ==> Reaches(dr.out.d, dr.pending[a].dest)
    decreases QCount(queue)
  {
    if queue != [] {
      var s := VisitTask(root, queue[0]);
      assert s.out.Done?;
      LogStep(root, queue, log);
      QCountAppend(queue[1..], s.pushed);
      DrainLog(s.out.d, queue[1..] + s.pushed, Record(root, queue[0], log));
    }
  }

  /** One turn of the attach loop: the recorded section gets its template
      as `defaults_`; a section not found leaves the tree as it is. */
  function AttachOne(r: Dict, pd: Pending): Dict
  {
    match SectionAt(r, pd.dest)
    case Some(d) => PutAt(r, pd.dest, d.(defaults := Some(Template(r, Some(pd.md)))))
    case None => r
  }

  /** The tree after the first `n` templates are attached. */
  function Attached(root: Dict, log: seq<Pending>, n: nat): Dict
    requires n <= |log|
    decreases n
  {
    if n == 0 then root else AttachOne(Attached(root, log, n - 1), log[n - 1])
  }

  /** The `m`-th recorded section is found when its turn comes. */
  predicate Resolves(root: Dict, log: seq<Pending>, m: nat)
    requires m < |log|
  {
    SectionAt(Attached(root, log, m), log[m].dest).Some?
  }

  /** The attach loop completes exactly by finding every recorded section,
      and then leaves the tree after all attaches. */
  lemma {:induction false} AttachSteps(root: Dict, log: seq<Pending>, n: nat)
    requires n <= |log| && AttachAll(root, log, 0).Done?
    ensures AttachAll(root, log, 0) == AttachAll(Attached(root, log, n), log, n)
    ensures forall m :: 0 <= m < n ==> Resolves(root, log, m)
    decreases n
  {
    if n > 0 {
      AttachSteps(root, log, n - 1);
      var r := Attached(root, log, n - 1);
      assert AttachAll(root, log, 0) == AttachAll(r, log, n - 1);
      assert Resolves(root, log, n - 1);
      assert AttachAll(r, log, n - 1) == AttachAll(AttachOne(r, log[n - 1]), log, n);
    }
  }

  lemma {:induction false} OwnAtSectionAt(root: Dict, p: seq<string>)
    requires OwnAt(root, p).Some?
    ensures SectionAt(root, p) == OwnAt(root, p)
    decreases |p|
  {
    if p != [] {
      OwnAtSectionAt(OwnGet(root, p[0]).value.d, p[1..]);
    }
  }

  lemma {:induction false} OwnAtAppend(root: Dict, q: seq<string>, r: seq<string>)
    requires OwnAt(root, q).Some?
    ensures OwnAt(root, q + r) == OwnAt(OwnAt(root, q).value, r)
    decreases |q|
  {
    if q != [] {
      ConsAppend(q, r);
      OwnAtAppend(OwnGet(root, q[0]).value.d, q[1..], r);
    } else {
      assert q + r == r;
    }
  }

  /** Writing back a section reached through own entries, with its own
      entries unchanged: it is found with what was written, the same
      sections are reached through own entries, and every other one keeps
      its `defaults_`. */
  lemma {:induction false} PutAtOwnAt(root: Dict, q: seq<string>, x: Dict, p: seq<string>)
    requires OwnAt(root, q).Some? && x.entries == OwnAt(root, q).value.entries
    ensures OwnAt(PutAt(root, q, x), p).Some? <==> OwnAt(root, p).Some?
    ensures OwnAt(PutAt(root, q, x), q) == Some(x)
    ensures p != q && OwnAt(root, p).Some? ==> OwnAt(PutAt(root, q, x), p).value.defaults == OwnAt(root, p).value.defaults
    decreases |q|
  {
    if q == [] {
      SameEntriesOwn(root, x, p, "");
    } else {
      var c := OwnGet(root, q[0]).value.d;
      var c' := PutAt(c, q[1..], x);
      var root' := PutAt(root, q, x);
      assert root' == Set(root, q[0], Section(c'));
      SetEffect(root, q[0], Section(c'));
      PutAtOwnAt(c, q[1..], x, q[1..]);
      assert OwnAt(root', q) == OwnAt(c', q[1..]);
      if p != [] && p[0] == q[0] {
        PutAtOwnAt(c, q[1..], x, p[1..]);
        assert OwnAt(root', p) == OwnAt(c', p[1..]);
        assert p != q ==> p[1..] != q[1..];
      } else if p != [] {
        assert OwnAt(root', p) == OwnAt(root, p);
      }
    }
  }

  lemma {:induction false} KeepOwnSome(root: Dict, log: seq<Pending>, n: nat, p: seq<string>, k: string)
    requires n <= |log|
    requires forall m :: 0 <= m < n ==> Resolves(root, log, m)
    requires OwnValueAt(root, p, k).Some?
    ensures OwnValueAt(Attached(root, log, n), p, k).Some?
    decreases n
  {
    if n > 0 {
      KeepOwnSome(root, log, n - 1, p, k);
      var r := Attached(root, log, n - 1);
      assert Resolves(root, log, n - 1);
      var d := SectionAt(r, log[n - 1].dest).value;
      PutAtOwnValue(r, log[n - 1].dest, d.(defaults := Some(Template(r, Some(log[n - 1].md)))), p, k);
    }
  }

  /** What the attach loop relies on: a target without `defaults_`,
      distinct recorded sections, each reached, and each found when its
      turn comes. */
  predicate AttachReady(root: Dict, log: seq<Pending>)
  {
    && NoSide(root) && LogDistinct(log)
    && (forall a {:trigger Reaches(root, log[a].dest)} :: 0 <= a < |log| ==> Reaches(root, log[a].dest))
    && (forall m :: 0 <= m < |log| ==> Resolves(root, log, m))
  }

  /** Each recorded section is reached through own entries when its
      template is attached. */
  lemma DestOwn(root: Dict, log: seq<Pending>, m: nat)
    requires AttachReady(root, log) && m < |log|
    ensures OwnAt(Attached(root, log, m), log[m].dest).Some?
  {
    var dest := log[m].dest;
    var r := Attached(root, log, m);
    if dest != [] {
      var p := dest[..|dest| - 1];
      var k := dest[|dest| - 1];
      assert dest == p + [k];
      assert OwnValueAt(r, p, k).Some? by {
        assert Reaches(root, log[m].dest);
        NoSideValues(root, p, k);
        KeepOwnSome(root, log, m, p, k);
      }
      var sec := OwnAt(r, p).value;
      assert SectionAt(r, dest) == SectionAt(sec, [k]) && OwnAt(r, dest) == OwnAt(sec, [k]) by {
        OwnAtSectionAt(r, p);
        SectionAtAppend(r, p, [k]);
        OwnAtAppend(r, p, [k]);
      }
      OwnStep(sec, k);
      assert Resolves(root, log, m);
    }
  }

  lemma OwnStep(d: Dict, k: string)
    requires HasOwn(d, k)
    ensures OwnAt(d, [k]) == SectionAt(d, [k])
  {
    assert [k][1..] == [];
  }

  /** One turn of the attach loop on a section reached through own
      entries. */
  lemma AttachOneOwn(r: Dict, pd: Pending, p: seq<string>)
    requires OwnAt(r, pd.dest).Some?
    ensures OwnAt(AttachOne(r, pd), p).Some? <==> OwnAt(r, p).Some?
    ensures OwnAt(AttachOne(r, pd), pd.dest).Some?
    ensures OwnAt(AttachOne(r, pd), pd.dest).value.defaults == Some(Template(r, Some(pd.md)))
    ensures p != pd.dest && OwnAt(r, p).Some? ==> OwnAt(AttachOne(r, pd), p).value.defaults == OwnAt(r, p).value.defaults
  {
    OwnAtSectionAt(r, pd.dest);
    var d := OwnAt(r, pd.dest).value;
    var x := d.(defaults := Some(Template(r, Some(pd.md))));
    assert AttachOne(r, pd) == PutAt(r, pd.dest, x);
    PutAtOwnAt(r, pd.dest, x, p);
    PutAtOwnAt(r, pd.dest, x, pd.dest);
  }

  /** One attach turn from `a` to `b` writing `v` as the `defaults_` of
      the section at `dest`: the same sections are reached through own
      entries, `dest` among them with `v`, and every other keeps its
      `defaults_`. */
  ghost predicate StepOk(a: Dict, b: Dict, dest: seq<string>, v: Option<Dict>)
  {
    && OwnAt(b, dest).Some? && OwnAt(b, dest).value.defaults == v
    && forall p :: (OwnAt(b, p).Some? <==> OwnAt(a, p).Some?)
         && (p != dest && OwnAt(a, p).Some? ==> OwnAt(b, p).value.defaults == OwnAt(a, p).value.defaults)
  }

  lemma AttachStepOk(root: Dict, log: seq<Pending>, m: nat)
    requires AttachReady(root, log) && m < |log|
    ensures StepOk(Attached(root, log, m), Attached(root, log, m + 1), log[m].dest,
                   Some(Template(Attached(root, log, m), Some(log[m].md))))
  {
    var r := Attached(root, log, m);
    assert Attached(root, log, m + 1) == AttachOne(r, log[m]);
    assert OwnAt(r, log[m].dest).Some? by {
      DestOwn(root, log, m);
    }
    forall p {
      AttachOneOwn(r, log[m], p);
    }
  }

  /** A run of attach turns over distinct sections: each ends with the
      `defaults_` written for it. */
  lemma {:induction false} ChainDefaults(trees: seq<Dict>, dests: seq<seq<string>>, vals: seq<Option<Dict>>, i: nat, n: nat)
    requires |trees| == |dests| + 1 && |vals| == |dests|
    requires forall m {:trigger StepOk(trees[m], trees[m + 1], dests[m], vals[m])} :: 0 <= m < |dests| ==> StepOk(trees[m], trees[m + 1], dests[m], vals[m])
    requires i < n <= |dests| && forall m :: i < m < n ==> dests[m] != dests[i]
    ensures OwnAt(trees[n], dests[i]).Some? && OwnAt(trees[n], dests[i]).value.defaults == vals[i]
    decreases n
  {
    var k := n - 1;
    if k > i {
      ChainDefaults(trees, dests, vals, i, k);
      StepKeeps(trees[k], trees[k + 1], dests[k], vals[k], dests[i]);
    } else {
      StepHere(trees[k], trees[k + 1], dests[k], vals[k]);
    }
  }

  /** A turn neither adds nor removes sections. */
  lemma StepBack(a: Dict, b: Dict, dest: seq<string>, v: Option<Dict>, q: seq<string>)
    requires StepOk(a, b, dest, v)
    ensures OwnAt(b, q).Some? <==> OwnAt(a, q).Some?
  {
  }

  /** A turn writes the `defaults_` of its own section. */
  lemma StepHere(a: Dict, b: Dict, dest: seq<string>, v: Option<Dict>)
    requires StepOk(a, b, dest, v)
    ensures OwnAt(b, dest).Some? && OwnAt(b, dest).value.defaults == v
  {
  }

  /** A turn keeps the `defaults_` of every other section. */
  lemma StepKeeps(a: Dict, b: Dict, dest: seq<string>, v: Option<Dict>, q: seq<string>)
    requires StepOk(a, b, dest, v) && q != dest && OwnAt(a, q).Some?
    ensures OwnAt(b, q).Some? && OwnAt(b, q).value.defaults == OwnAt(a, q).value.defaults
  {
  }

  /** A run of attach turns from a tree without `defaults_`: a section no
      turn names has none. */
  lemma {:induction false} ChainNone(trees: seq<Dict>, dests: seq<seq<string>>, vals: seq<Option<Dict>>, n: nat, p: seq<string>)
    requires |trees| == |dests| + 1 && |vals| == |dests|
    requires forall m {:trigger StepOk(trees[m], trees[m + 1], dests[m], vals[m])} :: 0 <= m < |dests| ==> StepOk(trees[m], trees[m + 1], dests[m], vals[m])
    requires forall q :: OwnAt(trees[0], q).Some? ==> OwnAt(trees[0], q).value.defaults.None?
    requires n <= |dests| && (forall m :: 0 <= m < n ==> dests[m] != p)
    requires OwnAt(trees[n], p).Some?
    ensures OwnAt(trees[n], p).value.defaults.None?
    decreases n
  {
    if n > 0 {
      var k := n - 1;
      assert StepOk(trees[k], trees[k + 1], dests[k], vals[k]) && dests[k] != p;
      StepBack(trees[k], trees[k + 1], dests[k], vals[k], p);
      ChainNone(trees, dests, vals, k, p);
      StepKeeps(trees[k], trees[k + 1], dests[k], vals[k], p);
    }
  }

  /** The trees before and after each attach turn, the sections they
      name, and the `defaults_` they write. */
  function Trees(root: Dict, log: seq<Pending>): (r: seq<Dict>)
    ensures |r| == |log| + 1 && forall m :: 0 <= m <= |log| ==> r[m] == Attached(root, log, m)
  {
    seq(|log| + 1, m requires 0 <= m <= |log| => Attached(root, log, m))
  }

  function Dests(log: seq<Pending>): (r: seq<seq<string>>)
    ensures |r| == |log| && forall m :: 0 <= m < |log| ==> r[m] == log[m].dest
  {
    seq(|log|, m requires 0 <= m < |log| => log[m].dest)
  }

  function Vals(root: Dict, log: seq<Pending>): (r: seq<Option<Dict>>)
    ensures |r| == |log| && forall m :: 0 <= m < |log| ==> r[m] == Some(Template(Attached(root, log, m), Some(log[m].md)))
  {
    seq(|log|, m requires 0 <= m < |log| => Some(Template(Attached(root, log, m), Some(log[m].md))))
  }

  lemma AttachChain(root: Dict, log: seq<Pending>)
    requires AttachReady(root, log)
    ensures forall m :: 0 <= m < |log| ==> StepOk(Trees(root, log)[m], Trees(root, log)[m + 1], Dests(log)[m], Vals(root, log)[m])
    ensures forall a, b :: 0 <= a < b < |log| ==> Dests(log)[a] != Dests(log)[b]
    ensures forall q :: OwnAt(Trees(root, log)[0], q).Some? ==> OwnAt(Trees(root, log)[0], q).value.defaults.None?
  {
    forall m | 0 <= m < |log|
      ensures StepOk(Trees(root, log)[m], Trees(root, log)[m + 1], Dests(log)[m], Vals(root, log)[m])
    {
      AttachStepOk(root, log, m);
    }
    forall q | OwnAt(Trees(root, log)[0], q).Some?
      ensures OwnAt(Trees(root, log)[0], q).value.defaults.None?
    {
      NoSideAt(root, q);
    }
  }

  /** After the attach loop each recorded section has the template
      recorded with it, as the tree was at its turn. */
  lemma RecordedDefaults(root: Dict, log: seq<Pending>, i: nat)
    requires AttachReady(root, log) && i < |log|
    ensures OwnAt(Attached(root, log, |log|), log[i].dest).Some?
    ensures OwnAt(Attached(root, log, |log|), log[i].dest).value.defaults == Some(Template(Attached(root, log, i), Some(log[i].md)))
  {
    AttachChain(root, log);
    ChainDefaults(Trees(root, log), Dests(log), Vals(root, log), i, |log|);
  }

  /** After the attach loop no other section reached through own entries
      has a `defaults_`. */
  lemma UnrecordedNone(root: Dict, log: seq<Pending>, p: seq<string>)
    requires AttachReady(root, log)
    requires OwnAt(Attached(root, log, |log|), p).Some? && (forall i :: 0 <= i < |log| ==> log[i].dest != p)
    ensures OwnAt(Attached(root, log, |log|), p).value.defaults.None?
  {
    AttachChain(root, log);
    ChainNone(Trees(root, log), Dests(log), Vals(root, log), |log|, p);
  }

  /** `m_override` on a target without `defaults_`: when it completes,
      `defaults_list` names each section once; each section it names is
      reached through own entries and has as `defaults_` the template
      recorded with it, as the tree was when that template was attached;
      every other section reached through own entries has none. */
  lemma ManyOverrideDefaults(target: Dict, sparse: Dict)
    requires WF(sparse) && NoSide(target) && ManyOverridden(target, sparse).out.Done?
    ensures var r := ManyOverridden(target, sparse);
      var drained := Drain(target, [Task(sparse, [], None)], []).out.d;
      && LogDistinct(r.pending)
      && (forall i :: 0 <= i < |r.pending| ==>
            && OwnAt(r.out.d, r.pending[i].dest).Some?
            && OwnAt(r.out.d, r.pending[i].dest).value.defaults ==
                 Some(Template(Attached(drained, r.pending, i), Some(r.pending[i].md))))
      && (forall p :: OwnAt(r.out.d, p).Some? && (forall i :: 0 <= i < |r.pending| ==> r.pending[i].dest != p) ==>
            OwnAt(r.out.d, p).value.defaults.None?)
  {
    var r := ManyOverridden(target, sparse);
    if IsEmpty(sparse) {
      assert r.out.d == target && r.pending == [];
      forall p | OwnAt(target, p).Some?
        ensures OwnAt(target, p).value.defaults.None?
      {
        NoSideAt(target, p);
      }
    } else {
      var q := [Task(sparse, [], None)];
      var dr := Drain(target, q, []);
      var drained := dr.out.d;
      var log := dr.pending;
      assert dr.out.Done? && r.out == AttachAll(drained, log, 0) && r.pending == log;
      assert AttachReady(drained, log) by {
        DrainReady(target, sparse);
      }
      assert r.out.d == Attached(drained, log, |log|) by {
        AttachSteps(drained, log, |log|);
      }
      AttachFacts(drained, log);
    }
  }

  /** After the queue loop completes on a target without `defaults_`, the
      attach loop is ready to run. */
  lemma DrainReady(target: Dict, sparse: Dict)
    requires WF(sparse) && NoSide(target)
    requires var dr := Drain(target, [Task(sparse, [], None)], []);
      dr.out.Done? && AttachAll(dr.out.d, dr.pending, 0).Done?
    ensures var dr := Drain(target, [Task(sparse, [], None)], []);
      AttachReady(dr.out.d, dr.pending)
  {
    var q := [Task(sparse, [], None)];
    var dr := Drain(target, q, []);
    assert LogDistinct(dr.pending) && forall a :: 0 <= a < |dr.pending| ==> Reaches(dr.out.d, dr.pending[a].dest) by {
      StartInv(target, sparse);
      DrainLog(target, q, []);
    }
    assert NoSide(dr.out.d) by {
      DrainNoSide(target, q, []);
    }
    assert forall m :: 0 <= m < |dr.pending| ==> Resolves(dr.out.d, dr.pending, m) by {
      AttachSteps(dr.out.d, dr.pending, |dr.pending|);
    }
  }

  /** The loop over the queue starts with its invariant. */
  lemma StartInv(target: Dict, sparse: Dict)
    requires WF(sparse)
    ensures LogInv(target, [Task(sparse, [], None)], [])
  {
  }

  /** The `defaults_` after the attach loop: each recorded section has its
      template, every other section reached through own entries has none. */
  lemma AttachFacts(drained: Dict, log: seq<Pending>)
    requires AttachReady(drained, log)
    ensures forall i :: 0 <= i < |log| ==>
      && OwnAt(Attached(drained, log, |log|), log[i].dest).Some?
      && OwnAt(Attached(drained, log, |log|), log[i].dest).value.defaults == Some(Template(Attached(drained, log, i), Some(log[i].md)))
    ensures forall p :: OwnAt(Attached(drained, log, |log|), p).Some? && (forall i :: 0 <= i < |log| ==> log[i].dest != p) ==>
      OwnAt(Attached(drained, log, |log|), p).value.defaults.None?
  {
    forall i | 0 <= i < |log|
      ensures OwnAt(Attached(drained, log, |log|), log[i].dest).Some?
      ensures OwnAt(Attached(drained, log, |log|), log[i].dest).value.defaults == Some(Template(Attached(drained, log, i), Some(log[i].md)))
    {
      RecordedDefaults(drained, log, i);
    }
    forall p | OwnAt(Attached(drained, log, |log|), p).Some? && (forall i :: 0 <= i < |log| ==> log[i].dest != p)
      ensures OwnAt(Attached(drained, log, |log|), p).value.defaults.None?
    {
      UnrecordedNone(drained, log, p);
    }
  }
}
