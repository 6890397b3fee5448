/** `m_override(target, sparse)`: override a target tree from a sparse
    tree, creating keys the target lacks only where a `__MANY__`
    placeholder licenses them.

    The original keeps object references on its work queue: the section
    being written (`dest`) and the licensing template (`many_defaults`).
    Here both are key paths from the top of the target, looked up again on
    every use, and the target is a value the operation gives back. */
module ManyOverride {
  import opened ConfigNode

  /** A queue entry `(source, dest, keylist, many_defaults)`: `dest` is the
      section at `path` (which is `keylist`), and the template is the
      section at `md`, or a fresh empty section when `md` is `None`. */
  datatype Task = Task(src: Dict, path: seq<string>, md: Option<seq<string>>)

  /** An entry of `defaults_list`: the section at `dest` is to get the
      template at `md` as its `defaults_`. */
  datatype Pending = Pending(dest: seq<string>, md: seq<string>)

  /** The tree after one queue entry or one item, and the entries it
      appends to the queue. */
  datatype Step = Step(out: Outcome, pushed: seq<Task>)

  /** What the loop over the queue leaves: the tree and `defaults_list`. */
  datatype Drained = Drained(out: Outcome, pending: seq<Pending>)

  /** The final tree and the `defaults_list` that was attached (empty when
      the loop over the queue raised). */
  datatype MResult = MResult(out: Outcome, pending: seq<Pending>)

  // ------------------------------------------------------------ navigation

  /** The section reached from `root` by looking up the keys of `p` in
      turn, if every step finds a section. */
  function SectionAt(root: Dict, p: seq<string>): Option<Dict>
    decreases |p|
  {
    if p == [] then Some(root)
    else match Get(root, p[0])
      case Some(Section(c)) => SectionAt(c, p[1..])
      case _ => None
  }

  /** Replaces the section at `p` by `x`, writing through every section on
      the way as the in-place update of that object would. */
  function PutAt(root: Dict, p: seq<string>, x: Dict): Dict
    decreases |p|
  {
    if p == [] then x
    else match Get(root, p[0])
      case Some(Section(c)) => Put(root, p[0], Section(PutAt(c, p[1..], x)))
      case _ => root
  }

  /** The template a queue entry refers to; a template that is not a
      section counts as empty. */
  function Template(root: Dict, md: Option<seq<string>>): Dict
  {
    if md.None? then Empty()
    else match SectionAt(root, md.value)
      case Some(m) => m
      case None => Empty()
  }

  /** A key the section `dest` lacks may be created when `dest` holds a
      placeholder, or the inherited template holds the key or a
      placeholder. */
  predicate Licensed(dest: Dict, m: Dict, k: string)
  {
    Has(dest, MANY) || Has(m, k) || Has(m, MANY)
  }

  // ----------------------------------------------------------- termination

  /** The number of sections in a tree, counting itself: each queue entry
      removes its source and adds the source's sub-sections. */
  function Count(d: Dict): nat
    decreases Size(d), 1
  {
    1 + CountFrom(Items(d), 0, Size(d))
  }

  function CountFrom(es: seq<Entry>, i: nat, bound: nat): nat
    requires i <= |es|
    requires forall j :: 0 <= j < |es| && es[j].val.Section? ==> Size(es[j].val.d) < bound
    decreases bound, 0, |es| - i
  {
    if i == |es| then 0
    else (if es[i].val.Section? then Count(es[i].val.d) else 0) + CountFrom(es, i + 1, bound)
  }

  function QCount(q: seq<Task>): nat
  {
    if q == [] then 0 else Count(q[0].src) + QCount(q[1..])
  }

  lemma {:induction false} QCountAppend(a: seq<Task>, b: seq<Task>)
    ensures QCount(a + b) == QCount(a) + QCount(b)
    decreases |a|
  {
    if a != [] {
      assert (a + b)[1..] == a[1..] + b;
      QCountAppend(a[1..], b);
    } else {
      assert a + b == b;
    }
  }

  // ------------------------------------------------------------- the model

  /** One item `(key, val)` of the entry `t`'s source. `dest` is the
      section at `t.path`; a `dest` that is not a section raises on the
      first item. */
  function VisitItem(root: Dict, t: Task, e: Entry): (r: Step)
    ensures |r.pushed| <= 1
    ensures r.pushed != [] ==> e.val.Section? && r.pushed == [Task(e.val.d, t.path + [e.key], r.pushed[0].md)]
  {
    match SectionAt(root, t.path)
    case None => Step(Failed(root, TypeMismatch(t.path)), [])
    case Some(dest) =>
      var m := Template(root, t.md);
      var here := t.path + [e.key];
      var created := PutAt(root, t.path, Set(dest, e.key, Section(Empty())));
      if e.val.Section? then
        var inherited := if t.md.Some? && Has(m, e.key) then Some(t.md.value + [e.key]) else None;
        if Has(dest, e.key) then Step(Done(root), [Task(e.val.d, here, inherited)])
        else if Has(dest, MANY) then Step(Done(created), [Task(e.val.d, here, Some(t.path + [MANY]))])
        else if t.md.Some? && Has(m, MANY) then Step(Done(created), [Task(e.val.d, here, Some(t.md.value + [MANY]))])
        else if Has(m, e.key) then Step(Done(created), [Task(e.val.d, here, inherited)])
        else Step(Failed(root, Unlicensed(here)), [])
      else if Has(dest, e.key) || Licensed(dest, m, e.key) then
        Step(Done(PutAt(root, t.path, Set(dest, e.key, e.val))), [])
      else Step(Failed(root, Unlicensed(here)), [])
  }

  /** The loop over the items of `t.src` from the `i`-th on; `acc` holds
      the queue entries appended so far. */
  function VisitItems(root: Dict, t: Task, es: seq<Entry>, i: nat, bound: nat, acc: seq<Task>): (r: Step)
    requires i <= |es|
    requires forall j :: 0 <= j < |es| && es[j].val.Section? ==> Size(es[j].val.d) < bound
    ensures QCount(r.pushed) <= QCount(acc) + CountFrom(es, i, bound)
    decreases |es| - i
  {
    if i == |es| then Step(Done(root), acc)
    else
      var s := VisitItem(root, t, es[i]);
      QCountAppend(acc, s.pushed);
      if s.out.Failed? then Step(s.out, acc)
      else VisitItems(s.out.d, t, es, i + 1, bound, acc + s.pushed)
  }

  /** One queue entry: all items of its source, in iteration order. */
  function VisitTask(root: Dict, t: Task): (r: Step)
    ensures QCount(r.pushed) < Count(t.src)
  {
    VisitItems(root, t, Items(t.src), 0, Size(t.src), [])
  }

  /** `defaults_list` after recording the entry `t`: only a non-empty
      template is recorded. */
  function Record(root: Dict, t: Task, log: seq<Pending>): seq<Pending>
  {
    if t.md.Some? && !IsEmpty(Template(root, t.md)) then log + [Pending(t.path, t.md.value)] else log
  }

  /** The loop over the work queue, taking entries from the front. */
  function Drain(root: Dict, queue: seq<Task>, log: seq<Pending>): Drained
    decreases QCount(queue)
  {
    if queue == [] then Drained(Done(root), log)
    else
      var log' := Record(root, queue[0], log);
      var s := VisitTask(root, queue[0]);
      if s.out.Failed? then Drained(s.out, log')
      else
        QCountAppend(queue[1..], s.pushed);
        Drain(s.out.d, queue[1..] + s.pushed, log')
  }

  /** The final loop: each recorded section gets its template as
      `defaults_`, in recording order. */
  function AttachAll(root: Dict, log: seq<Pending>, i: nat): Outcome
    requires i <= |log|
    decreases |log| - i
  {
    if i == |log| then Done(root)
    else match SectionAt(root, log[i].dest)
      case None => Failed(root, TypeMismatch(log[i].dest))
      case Some(d) =>
        AttachAll(PutAt(root, log[i].dest, d.(defaults := Some(Template(root, Some(log[i].md))))), log, i + 1)
  }

  /** `m_override(target, sparse)`: an empty `sparse` changes nothing;
      otherwise the queue is drained and, only if that completes, the
      recorded templates are attached. */
  function ManyOverridden(target: Dict, sparse: Dict): MResult
  {
    if IsEmpty(sparse) then MResult(Done(target), [])
    else
      var dr := Drain(target, [Task(sparse, [], None)], []);
      if dr.out.Failed? then MResult(dr.out, [])
      else MResult(AttachAll(dr.out.d, dr.pending, 0), dr.pending)
  }

  // --------------------------------------------------------------- methods

  /** Lines 161-205 for one item: license and create a missing key, then
      either queue a sub-section or assign a list or scalar. */
  method OverrideItem(root: Dict, t: Task, e: Entry) returns (s: Step)
    ensures s == VisitItem(root, t, e)
  {
    var found := SectionAt(root, t.path);
    if found.None? {
      return Step(Failed(root, TypeMismatch(t.path)), []);
    }
    var dest := found.value;
    var many := Template(root, t.md);
    var here := t.path + [e.key];
    if e.val.Section? {
      var childMd := if t.md.Some? && Has(many, e.key) then Some(t.md.value + [e.key]) else None;
      if !Has(dest, e.key) {
        if Has(dest, MANY) {
          childMd := Some(t.path + [MANY]);
        } else if t.md.Some? && Has(many, MANY) {
          childMd := Some(t.md.value + [MANY]);
        } else if !Has(many, e.key) {
          return Step(Failed(root, Unlicensed(here)), []);
        }
        return Step(Done(PutAt(root, t.path, Set(dest, e.key, Section(Empty())))), [Task(e.val.d, here, childMd)]);
      }
      return Step(Done(root), [Task(e.val.d, here, childMd)]);
    }
    if !Has(dest, e.key) && !(Has(dest, MANY) || Has(many, e.key) || Has(many, MANY)) {
      return Step(Failed(root, Unlicensed(here)), []);
    }
    return Step(Done(PutAt(root, t.path, Set(dest, e.key, e.val))), []);
  }

  /** `m_override(target, sparse)`. */
  method MOverride(target: Dict, sparse: Dict) returns (r: MResult)
    ensures r == ManyOverridden(target, sparse)
    ensures IsEmpty(sparse) ==> r.out == Done(target)
  {
    if IsEmpty(sparse) {
      return MResult(Done(target), []);
    }
    var root := target;
    var queue := [Task(sparse, [], None)];
    var log: seq<Pending> := [];
    while queue != []
      invariant Drain(root, queue, log) == Drain(target, [Task(sparse, [], None)], [])
      decreases QCount(queue)
    {
      var t := queue[0];
      ghost var before := root;
      log := Record(root, t, log);
      var es := Items(t.src);
      var pushed: seq<Task> := [];
      var i := 0;
      while i < |es|
        invariant 0 <= i <= |es|
        invariant VisitItems(root, t, es, i, Size(t.src), pushed) == VisitTask(before, t)
      {
        var s := OverrideItem(root, t, es[i]);
        if s.out.Failed? {
          return MResult(s.out, []);
        }
        root := s.out.d;
        pushed := pushed + s.pushed;
        i := i + 1;
      }
      QCountAppend(queue[1..], pushed);
      queue := queue[1..] + pushed;
    }
    var j := 0;
    ghost var drained := root;
    while j < |log|
      invariant 0 <= j <= |log|
      invariant AttachAll(root, log, j) == AttachAll(drained, log, 0)
    {
      var p := log[j];
      var d := SectionAt(root, p.dest);
      if d.None? {
        return MResult(Failed(root, TypeMismatch(p.dest)), log);
      }
      root := PutAt(root, p.dest, d.value.(defaults := Some(Template(root, Some(p.md)))));
      j := j + 1;
    }
    return MResult(Done(root), log);
  }

  // ------------------------------------------------------------ properties

  /** Writing the section at `p` and looking it up again gives what was
      written. */
  lemma {:induction false} PutAtSectionAt(root: Dict, p: seq<string>, x: Dict)
    requires SectionAt(root, p).Some?
    ensures SectionAt(PutAt(root, p, x), p) == Some(x)
    decreases |p|
  {
    if p != [] {
      var c := Get(root, p[0]).value.d;
      PutAtSectionAt(c, p[1..], x);
      PutEffect(root, p[0], Section(PutAt(c, p[1..], x)));
    }
  }

  /** The own sub-section at `k`, if `k` is an own key holding a section. */
  function OwnSection(d: Dict, k: string): (r: Option<Dict>)
    ensures r.Some? ==> HasOwn(d, k) && OwnGet(d, k) == Some(Section(r.value)) && Size(r.value) < Size(d)
    ensures r.None? && HasOwn(d, k) ==> !OwnGet(d, k).value.Section?
  {
    if HasOwn(d, k) && OwnGet(d, k).value.Section? then
      GetSmaller(d, k);
      Some(OwnGet(d, k).value.d)
    else None
  }

  /** `b` keeps every own key of `a`, at every level reached through own
      sections: a list or scalar stays a list or scalar, a section stays a
      section that keeps in turn or is overwritten by a list or scalar.
      When `frozen`, in addition no section that had no `defaults_` has
      gained one. */
  ghost predicate Kept(a: Dict, b: Dict, frozen: bool)
    decreases Size(a)
  {
    && (frozen && a.defaults.None? ==> b.defaults.None?)
    && forall k :: HasOwn(a, k) ==>
         && HasOwn(b, k)
         && match OwnSection(a, k)
            case None => OwnSection(b, k).None?
            case Some(c) => OwnSection(b, k).Some? ==> Kept(c, OwnSection(b, k).value, frozen)
  }

  lemma {:induction false} KeptSelf(a: Dict, frozen: bool)
    ensures Kept(a, a, frozen)
    decreases Size(a)
  {
    forall k | HasOwn(a, k) && OwnSection(a, k).Some?
      ensures Kept(OwnSection(a, k).value, OwnSection(a, k).value, frozen)
    {
      KeptSelf(OwnSection(a, k).value, frozen);
    }
  }

  lemma KeptSameEntries(a: Dict, b: Dict, frozen: bool)
    requires a.entries == b.entries
    requires frozen && a.defaults.None? ==> b.defaults.None?
    ensures Kept(a, b, frozen)
  {
    forall k | HasOwn(a, k)
      ensures OwnSection(a, k) == OwnSection(b, k)
    {
      assert OwnGet(a, k) == OwnGet(b, k);
    }
    KeptSelf(a, frozen);
  }

  lemma {:induction false} KeptTrans(a: Dict, b: Dict, c: Dict, frozen: bool)
    requires Kept(a, b, frozen) && Kept(b, c, frozen)
    ensures Kept(a, c, frozen)
    decreases Size(a)
  {
    forall k | HasOwn(a, k) && OwnSection(a, k).Some? && OwnSection(c, k).Some?
      ensures Kept(OwnSection(a, k).value, OwnSection(c, k).value, frozen)
    {
      KeptTrans(OwnSection(a, k).value, OwnSection(b, k).value, OwnSection(c, k).value, frozen);
    }
  }

  lemma KeptWeaken(a: Dict, b: Dict)
    requires Kept(a, b, true)
    ensures Kept(a, b, false)
    decreases Size(a)
  {
    forall k | HasOwn(a, k) && OwnSection(a, k).Some? && OwnSection(b, k).Some?
      ensures Kept(OwnSection(a, k).value, OwnSection(b, k).value, false)
    {
      KeptWeaken(OwnSection(a, k).value, OwnSection(b, k).value);
    }
  }

  /** Assigning a list or scalar, or a section to a key not yet own. */
  lemma KeptSet(d: Dict, k: string, v: Value, frozen: bool)
    requires v.Section? ==> !HasOwn(d, k)
    ensures Kept(d, Set(d, k, v), frozen)
  {
    var d' := Set(d, k, v);
    SetEffect(d, k, v);
    forall k' | HasOwn(d, k') && k' != k
      ensures OwnSection(d, k') == OwnSection(d', k')
    {
    }
    KeptSelf(d, frozen);
  }

  /** Replacing the section at `p` by one that keeps it keeps the tree. */
  lemma {:induction false} KeptPutAt(root: Dict, p: seq<string>, x: Dict, frozen: bool)
    requires SectionAt(root, p).Some? && Kept(SectionAt(root, p).value, x, frozen)
    ensures Kept(root, PutAt(root, p, x), frozen)
    decreases |p|
  {
    if p != [] {
      var c := Get(root, p[0]).value.d;
      var c' := PutAt(c, p[1..], x);
      KeptPutAt(c, p[1..], x, frozen);
      var root' := PutAt(root, p, x);
      assert root' == Put(root, p[0], Section(c'));
      if HasOwn(root, p[0]) {
        SetEffect(root, p[0], Section(c'));
        forall k | HasOwn(root, k) && k != p[0]
          ensures OwnSection(root, k) == OwnSection(root', k)
        {
        }
        assert OwnSection(root, p[0]) == Some(c);
        KeptSelf(root, frozen);
      } else {
        KeptSameEntries(root, root', frozen);
      }
    }
  }

  /** One item only adds or overwrites, and never assigns `defaults_`. */
  lemma VisitItemKept(root: Dict, t: Task, e: Entry)
    ensures Kept(root, VisitItem(root, t, e).out.d, true)
  {
    var s := VisitItem(root, t, e);
    match SectionAt(root, t.path)
    case None => KeptSelf(root, true);
    case Some(dest) =>
      if s.out.d == root {
        KeptSelf(root, true);
      } else if e.val.Section? {
        KeptSet(dest, e.key, Section(Empty()), true);
        KeptPutAt(root, t.path, Set(dest, e.key, Section(Empty())), true);
      } else {
        KeptSet(dest, e.key, e.val, true);
        KeptPutAt(root, t.path, Set(dest, e.key, e.val), true);
      }
  }

  lemma {:induction false} VisitItemsKept(root: Dict, t: Task, es: seq<Entry>, i: nat, bound: nat, acc: seq<Task>)
    requires i <= |es|
    requires forall j :: 0 <= j < |es| && es[j].val.Section? ==> Size(es[j].val.d) < bound
    ensures Kept(root, VisitItems(root, t, es, i, bound, acc).out.d, true)
    decreases |es| - i
  {
    if i == |es| {
      KeptSelf(root, true);
    } else {
      var s := VisitItem(root, t, es[i]);
      VisitItemKept(root, t, es[i]);
      if !s.out.Failed? {
        VisitItemsKept(s.out.d, t, es, i + 1, bound, acc + s.pushed);
        KeptTrans(root, s.out.d, VisitItems(root, t, es, i, bound, acc).out.d, true);
      }
    }
  }

  /** The loop over the queue, complete or raised, only adds or
      overwrites and assigns no `defaults_`. */
  lemma {:induction false} DrainKept(root: Dict, queue: seq<Task>, log: seq<Pending>)
    ensures Kept(root, Drain(root, queue, log).out.d, true)
    decreases QCount(queue)
  {
    if queue == [] {
      KeptSelf(root, true);
    } else {
      var t := queue[0];
      var s := VisitTask(root, t);
      VisitItemsKept(root, t, Items(t.src), 0, Size(t.src), []);
      if !s.out.Failed? {
        QCountAppend(queue[1..], s.pushed);
        DrainKept(s.out.d, queue[1..] + s.pushed, Record(root, t, log));
        KeptTrans(root, s.out.d, Drain(root, queue, log).out.d, true);
      }
    }
  }

  lemma {:induction false} AttachKept(root: Dict, log: seq<Pending>, i: nat)
    requires i <= |log|
    ensures Kept(root, AttachAll(root, log, i).d, false)
    decreases |log| - i
  {
    if i == |log| {
      KeptSelf(root, false);
    } else {
      match SectionAt(root, log[i].dest)
      case None => KeptSelf(root, false);
      case Some(d) =>
        var d' := d.(defaults := Some(Template(root, Some(log[i].md))));
        var root' := PutAt(root, log[i].dest, d');
        KeptSameEntries(d, d', false);
        KeptPutAt(root, log[i].dest, d', false);
        AttachKept(root', log, i + 1);
        KeptTrans(root, root', AttachAll(root, log, i).d, false);
    }
  }

  /** `m_override` never deletes a key, so an existing placeholder
      survives; whether it completes or raises. When it raised in the loop
      over the queue, or recorded nothing, no `defaults_` was assigned. */
  lemma ManyOverrideKeeps(target: Dict, sparse: Dict)
    ensures Kept(target, ManyOverridden(target, sparse).out.d, false)
    ensures ManyOverridden(target, sparse).pending == [] ==> Kept(target, ManyOverridden(target, sparse).out.d, true)
    ensures HasOwn(target, MANY) ==> HasOwn(ManyOverridden(target, sparse).out.d, MANY)
  {
    var r := ManyOverridden(target, sparse);
    if IsEmpty(sparse) {
      KeptSelf(target, true);
      KeptWeaken(target, target);
    } else {
      var q := [Task(sparse, [], None)];
      var dr := Drain(target, q, []);
      DrainKept(target, q, []);
      KeptWeaken(target, dr.out.d);
      if !dr.out.Failed? {
        var root := dr.out.d;
        assert r.out == AttachAll(root, dr.pending, 0);
        AttachKept(root, dr.pending, 0);
        KeptTrans(target, root, r.out.d, false);
      }
    }
    KeptOwn(target, r.out.d, MANY);
  }

  lemma KeptOwn(a: Dict, b: Dict, k: string)
    requires Kept(a, b, false)
    ensures HasOwn(a, k) ==> HasOwn(b, k)
  {
  }

  /** A key the section `dest` lacks: the item goes through exactly when it
      is licensed, and then `dest` holds the key as its own; otherwise the
      item raises with the path to the key and changes nothing. */
  lemma ItemLicensing(root: Dict, t: Task, e: Entry)
    requires SectionAt(root, t.path).Some? && !Has(SectionAt(root, t.path).value, e.key)
    ensures var s := VisitItem(root, t, e);
      s.out.Done? <==> Licensed(SectionAt(root, t.path).value, Template(root, t.md), e.key)
    ensures var s := VisitItem(root, t, e);
      s.out.Failed? ==> s.out == Failed(root, Unlicensed(t.path + [e.key]))
    ensures var s := VisitItem(root, t, e);
      s.out.Done? ==> SectionAt(s.out.d, t.path).Some? && HasOwn(SectionAt(s.out.d, t.path).value, e.key)
  {
    var dest := SectionAt(root, t.path).value;
    var v := if e.val.Section? then Section(Empty()) else e.val;
    PutAtSectionAt(root, t.path, Set(dest, e.key, v));
    SetEffect(dest, e.key, v);
    if t.md.None? {
      assert Keys(Empty()) == [];
    }
  }
}
