/** Worked runs of `m_override` on small trees: a placeholder that licenses
    a new section and hands it its template as `defaults_`, and a key
    nothing licenses. */
module ManyOverrideExamples {
  import opened ConfigNode
  import opened ManyOverride

  /** A section holding one own entry and no `defaults_`. */
  function Single(k: string, v: Value): Dict
  {
    Dict([Entry(k, v)], None)
  }

  function Leaf(s: string): Value
  {
    Scalar(Text(s))
  }

  lemma SingleFacts(k: string, v: Value)
    ensures Keys(Single(k, v)) == [k]
    ensures Items(Single(k, v)) == [Entry(k, v)]
    ensures forall x :: Has(Single(k, v), x) <==> x == k
    ensures Get(Single(k, v), k) == Some(v)
    ensures !IsEmpty(Single(k, v))
  {
    assert OwnKeys(Single(k, v).entries) == [k];
  }

  /** A queue entry whose source has one item does what that item does. */
  lemma OneItemTask(root: Dict, t: Task, k: string, v: Value)
    requires t.src == Single(k, v)
    ensures var s := VisitItem(root, t, Entry(k, v));
      VisitTask(root, t) == if s.out.Failed? then Step(s.out, []) else s
  {
    SingleFacts(k, v);
    var s := VisitItem(root, t, Entry(k, v));
    var es := Items(t.src);
    assert es == [Entry(k, v)];
    if s.out.Done? {
      assert VisitItems(s.out.d, t, es, 1, Size(t.src), [] + s.pushed) == Step(Done(s.out.d), s.pushed);
      assert [] + s.pushed == s.pushed;
    }
  }

  /** An item naming a section `dest` already has is queued as it is. */
  lemma VisitExisting(root: Dict, t: Task, e: Entry, dest: Dict)
    requires SectionAt(root, t.path) == Some(dest) && t.md.None?
    requires e.val.Section? && Has(dest, e.key)
    ensures VisitItem(root, t, e) == Step(Done(root), [Task(e.val.d, t.path + [e.key], None)])
  {
  }

  /** A section `dest` lacks but that its placeholder licenses is created
      empty and queued with the placeholder section as its template. */
  lemma VisitPlaceholder(root: Dict, t: Task, e: Entry, dest: Dict)
    requires SectionAt(root, t.path) == Some(dest)
    requires e.val.Section? && !Has(dest, e.key) && Has(dest, MANY)
    ensures VisitItem(root, t, e) == Step(Done(PutAt(root, t.path, Set(dest, e.key, Section(Empty())))),
      [Task(e.val.d, t.path + [e.key], Some(t.path + [MANY]))])
  {
  }

  /** A licensed list or scalar is assigned. */
  lemma VisitLeafLicensed(root: Dict, t: Task, e: Entry, dest: Dict)
    requires SectionAt(root, t.path) == Some(dest)
    requires !e.val.Section? && Licensed(dest, Template(root, t.md), e.key)
    ensures VisitItem(root, t, e) == Step(Done(PutAt(root, t.path, Set(dest, e.key, e.val))), [])
  {
  }

  /** A list or scalar nobody licenses stops the run where it is. */
  lemma VisitLeafUnlicensed(root: Dict, t: Task, e: Entry, dest: Dict)
    requires SectionAt(root, t.path) == Some(dest)
    requires !e.val.Section? && !Has(dest, e.key) && !Licensed(dest, Template(root, t.md), e.key)
    ensures VisitItem(root, t, e) == Step(Failed(root, Unlicensed(t.path + [e.key])), [])
  {
  }

  /** Taking one entry off the queue. */
  lemma DrainStep(root: Dict, t: Task, rest: seq<Task>, log: seq<Pending>)
    ensures var s := VisitTask(root, t);
      Drain(root, [t] + rest, log) ==
        if s.out.Failed? then Drained(s.out, Record(root, t, log))
        else Drain(s.out.d, rest + s.pushed, Record(root, t, log))
  {
    assert ([t] + rest)[0] == t && ([t] + rest)[1..] == rest;
  }

  /** Two queue entries, the second of which stops the run. */
  lemma DrainFailsSecond(root: Dict, t0: Task, t1: Task, err: Error)
    requires t0.md.None? && t1.md.None?
    requires VisitTask(root, t0) == Step(Done(root), [t1])
    requires VisitTask(root, t1) == Step(Failed(root, err), [])
    ensures Drain(root, [t0], []) == Drained(Failed(root, err), [])
  {
    DrainStep(root, t0, [], []);
    assert [t0] + [] == [t0] && [] + [t1] == [t1];
    DrainStep(root, t1, [], []);
    assert [t1] + [] == [t1];
  }

  // ------------------------------------------- a key nothing licenses

  /** `{a: {b: 1}}` */
  function UTarget(): Dict
  {
    Single("a", Section(Single("b", Leaf("1"))))
  }

  /** `{a: {c: 2}}` */
  function USparse(): Dict
  {
    Single("a", Section(Single("c", Leaf("2"))))
  }

  lemma UnlicensedFirst()
    ensures VisitTask(UTarget(), Task(USparse(), [], None))
      == Step(Done(UTarget()), [Task(Single("c", Leaf("2")), ["a"], None)])
  {
    var c := Single("c", Leaf("2"));
    SingleFacts("a", Section(Single("b", Leaf("1"))));
    assert [] + ["a"] == ["a"];
    VisitExisting(UTarget(), Task(USparse(), [], None), Entry("a", Section(c)), UTarget());
    OneItemTask(UTarget(), Task(USparse(), [], None), "a", Section(c));
  }

  lemma UnlicensedSecond()
    ensures VisitTask(UTarget(), Task(Single("c", Leaf("2")), ["a"], None))
      == Step(Failed(UTarget(), Unlicensed(["a", "c"])), [])
  {
    var b := Single("b", Leaf("1"));
    SingleFacts("a", Section(b));
    SingleFacts("b", Leaf("1"));
    assert SectionAt(UTarget(), ["a"]) == Some(b) by {
      assert ["a"][1..] == [];
    }
    assert !Has(Empty(), "c") && !Has(Empty(), MANY);
    assert ["a"] + ["c"] == ["a", "c"];
    VisitLeafUnlicensed(UTarget(), Task(Single("c", Leaf("2")), ["a"], None), Entry("c", Leaf("2")), b);
    OneItemTask(UTarget(), Task(Single("c", Leaf("2")), ["a"], None), "c", Leaf("2"));
  }

  /** Overriding `{a: {b: 1}}` with `{a: {c: 2}}` stops at `[a][c]`: the
      section `a` has no placeholder and there is no template. Nothing has
      been written by then. */
  lemma UnlicensedKey()
    ensures ManyOverridden(UTarget(), USparse()) == MResult(Failed(UTarget(), Unlicensed(["a", "c"])), [])
  {
    SingleFacts("a", Section(Single("c", Leaf("2"))));
    UnlicensedFirst();
    UnlicensedSecond();
    DrainFailsSecond(UTarget(), Task(USparse(), [], None), Task(Single("c", Leaf("2")), ["a"], None),
      Unlicensed(["a", "c"]));
  }

  // ------------------------------------- a placeholder licenses a section

  lemma PutAtSingle(k: string, c: Dict, x: Dict)
    ensures PutAt(Single(k, Section(c)), [k], x) == Single(k, Section(x))
  {
    SingleFacts(k, Section(c));
    assert [k][1..] == [];
  }

  /** `{x: v}`, the placeholder section. */
  function X(): Dict
  {
    Single("x", Leaf("v"))
  }

  /** `{x: w}` */
  function W(): Dict
  {
    Single("x", Leaf("w"))
  }

  /** `{__MANY__: {x: v}}` */
  function A(): Dict
  {
    Single(MANY, Section(X()))
  }

  /** `{a: {__MANY__: {x: v}}}` */
  function PTarget(): Dict
  {
    Single("a", Section(A()))
  }

  /** `{a: {j: {x: w}}}` */
  function PSparse(): Dict
  {
    Single("a", Section(Single("j", Section(W()))))
  }

  /** Section `a` with a placeholder section and a section `j`. */
  function AWith(j: Dict): Dict
  {
    Dict([Entry(MANY, Section(X())), Entry("j", Section(j))], None)
  }

  /** The queue entry for `a.j`, whose template is `a.__MANY__`. */
  function P2(): Task
  {
    Task(W(), ["a", "j"], Some(["a", MANY]))
  }

  lemma AWithFacts(j: Dict)
    ensures OwnKeys(AWith(j).entries) == [MANY, "j"]
    ensures Get(AWith(j), "j") == Some(Section(j)) && Get(AWith(j), MANY) == Some(Section(X()))
    ensures SectionAt(Single("a", Section(AWith(j))), ["a", "j"]) == Some(j)
    ensures SectionAt(Single("a", Section(AWith(j))), ["a", MANY]) == Some(X())
  {
    SingleFacts("a", Section(AWith(j)));
    assert ["a", "j"][1..] == ["j"] && ["j"][1..] == [];
    assert ["a", MANY][1..] == [MANY] && [MANY][1..] == [];
    assert Lookup(AWith(j).entries, MANY) == Some(Section(X()));
    assert SectionAt(AWith(j), [MANY]) == Some(X());
  }

  lemma PutSingle(k: string, v: Value, v': Value)
    ensures Put(Single(k, v), k, v') == Single(k, v')
  {
    SingleFacts(k, v);
  }

  /** Writing section `a.j` of the tree. */
  lemma AWithPut(j: Dict, x: Dict)
    ensures PutAt(Single("a", Section(AWith(j))), ["a", "j"], x) == Single("a", Section(AWith(x)))
  {
    AWithFacts(j);
    var es := AWith(j).entries;
    assert es[1..] == [Entry("j", Section(j))];
    assert SetEntries(es[1..], "j", Section(x)) == [Entry("j", Section(x))];
    assert SetEntries(es, "j", Section(x)) == [es[0]] + [Entry("j", Section(x))];
    assert Put(AWith(j), "j", Section(x)) == AWith(x);
    assert ["a", "j"][1..] == ["j"] && ["j"][1..] == [];
    assert PutAt(AWith(j), ["j"], x) == AWith(x);
    SingleFacts("a", Section(AWith(j)));
    PutSingle("a", Section(AWith(j)), Section(AWith(x)));
  }

  lemma PlaceFirst()
    ensures VisitTask(PTarget(), Task(PSparse(), [], None))
      == Step(Done(PTarget()), [Task(Single("j", Section(W())), ["a"], None)])
  {
    SingleFacts("a", Section(A()));
    assert [] + ["a"] == ["a"];
    VisitExisting(PTarget(), Task(PSparse(), [], None), Entry("a", Section(Single("j", Section(W())))), PTarget());
    OneItemTask(PTarget(), Task(PSparse(), [], None), "a", Section(Single("j", Section(W()))));
  }

  lemma PlaceSecond()
    ensures VisitTask(PTarget(), Task(Single("j", Section(W())), ["a"], None))
      == Step(Done(Single("a", Section(AWith(Empty())))), [P2()])
  {
    var t1 := Task(Single("j", Section(W())), ["a"], None);
    SingleFacts("a", Section(A()));
    SingleFacts(MANY, Section(X()));
    assert SectionAt(PTarget(), ["a"]) == Some(A()) by {
      assert ["a"][1..] == [];
    }
    assert ["a"] + ["j"] == ["a", "j"] && ["a"] + [MANY] == ["a", MANY];
    assert Set(A(), "j", Section(Empty())) == AWith(Empty());
    PutAtSingle("a", A(), AWith(Empty()));
    VisitPlaceholder(PTarget(), t1, Entry("j", Section(W())), A());
    OneItemTask(PTarget(), t1, "j", Section(W()));
  }

  /** The template of `a.j` is the placeholder section, which is not
      empty: the entry is recorded for attaching. */
  lemma PlaceRecord()
    ensures Template(Single("a", Section(AWith(Empty()))), P2().md) == X()
    ensures Record(Single("a", Section(AWith(Empty()))), P2(), []) == [Pending(["a", "j"], ["a", MANY])]
  {
    AWithFacts(Empty());
    SingleFacts("x", Leaf("v"));
  }

  /** `x` is licensed in `a.j` because the template holds `x`. */
  lemma PlaceThird()
    ensures VisitTask(Single("a", Section(AWith(Empty()))), P2())
      == Step(Done(Single("a", Section(AWith(W())))), [])
  {
    var root1 := Single("a", Section(AWith(Empty())));
    AWithFacts(Empty());
    PlaceRecord();
    SingleFacts("x", Leaf("v"));
    assert Set(Empty(), "x", Leaf("w")) == W();
    AWithPut(Empty(), W());
    VisitLeafLicensed(root1, P2(), Entry("x", Leaf("w")), Empty());
    OneItemTask(root1, P2(), "x", Leaf("w"));
  }

  lemma PlaceAttach()
    ensures AttachAll(Single("a", Section(AWith(W()))), [Pending(["a", "j"], ["a", MANY])], 0)
      == Done(Single("a", Section(AWith(W().(defaults := Some(X()))))))
  {
    AWithFacts(W());
    AWithPut(W(), W().(defaults := Some(X())));
  }

  /** Three queue entries, none of which stops the run. */
  lemma DrainThree(r0: Dict, r1: Dict, r2: Dict, t0: Task, t1: Task, t2: Task, log: seq<Pending>)
    requires t0.md.None? && t1.md.None?
    requires VisitTask(r0, t0) == Step(Done(r0), [t1])
    requires VisitTask(r0, t1) == Step(Done(r1), [t2])
    requires Record(r1, t2, []) == log && VisitTask(r1, t2) == Step(Done(r2), [])
    ensures Drain(r0, [t0], []) == Drained(Done(r2), log)
  {
    DrainStep(r0, t0, [], []);
    assert [t0] + [] == [t0] && [] + [t1] == [t1];
    DrainStep(r0, t1, [], []);
    assert [t1] + [] == [t1] && [] + [t2] == [t2];
    DrainStep(r1, t2, [], log);
    assert [t2] + [] == [t2] && [] + VisitTask(r1, t2).pushed == [];
  }

  /** Overriding `{a: {__MANY__: {x: v}}}` with `{a: {j: {x: w}}}` creates
      `a.j`, writes `x = w` into it (licensed because the template holds
      `x`), keeps the placeholder section, and gives `a.j` the placeholder
      section as its `defaults_`. */
  lemma PlaceholderLicenses()
    ensures ManyOverridden(PTarget(), PSparse())
      == MResult(Done(Single("a", Section(Dict([Entry(MANY, Section(Single("x", Leaf("v")))),
                                               Entry("j", Section(Dict([Entry("x", Leaf("w"))], Some(Single("x", Leaf("v"))))))],
                                              None)))),
                 [Pending(["a", "j"], ["a", MANY])])
  {
    SingleFacts("a", Section(Single("j", Section(W()))));
    PlaceFirst();
    PlaceSecond();
    PlaceRecord();
    PlaceThird();
    DrainThree(PTarget(), Single("a", Section(AWith(Empty()))), Single("a", Section(AWith(W()))),
      Task(PSparse(), [], None), Task(Single("j", Section(W())), ["a"], None), P2(),
      [Pending(["a", "j"], ["a", MANY])]);
    PlaceAttach();
  }
}
