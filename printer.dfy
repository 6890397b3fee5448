/** `printcfg`: pretty-prints a configuration item or section.

    The output stream is modelled as the sequence of strings handed to
    `handle.write`, in order. A section is printed as its heading, then its
    non-section items, then its sub-sections, each sub-section complete
    before the next sibling starts: a pre-order walk, specified here by
    `Walk` and carried out by `PrintCfg` with the explicit stack the
    original uses. */
module Printer {
  import opened ConfigNode
  import opened Render

  /** One entry of the work stack: key, value, bracket level and indent. */
  datatype Frame = Frame(key: string, v: Value, level: int, indent: int)

  /** Python `c * n`: empty for `n <= 0`. */
  function Repeat(c: char, n: int): (r: string)
    ensures |r| == if n <= 0 then 0 else n
    ensures forall i :: 0 <= i < |r| ==> r[i] == c
  {
    if n <= 0 then [] else [c] + Repeat(c, n - 1)
  }

  function Spacer(indent: int): string
  {
    Repeat(' ', 4 * (indent - 1))
  }

  function FrameSize(f: Frame): nat
  {
    ValueSize(f.v)
  }

  // ------------------------------------------------------------ the children

  function Child(e: Entry, f: Frame): Frame
  {
    Frame(e.key, e.val, f.level + 1, f.indent + 1)
  }

  /** The frames of the non-section items of `es`, in order. */
  function ValueFrames(es: seq<Entry>, f: Frame): (r: seq<Frame>)
    ensures forall i :: 0 <= i < |r| ==> !r[i].v.Section?
    ensures forall g :: g in r ==> exists e :: e in es && g == Child(e, f)
  {
    if es == [] then []
    else
      var e := es[|es| - 1];
      ValueFrames(es[..|es| - 1], f) + (if e.val.Section? then [] else [Child(e, f)])
  }

  /** The frames of the section items of `es`, in order. */
  function SubFrames(es: seq<Entry>, f: Frame): (r: seq<Frame>)
    ensures forall i :: 0 <= i < |r| ==> r[i].v.Section?
    ensures forall g :: g in r ==> exists e :: e in es && g == Child(e, f)
  {
    if es == [] then []
    else
      var e := es[|es| - 1];
      SubFrames(es[..|es| - 1], f) + (if e.val.Section? then [Child(e, f)] else [])
  }

  /** Every child of a section frame is strictly smaller than the frame. */
  lemma ChildrenSmaller(f: Frame)
    requires f.v.Section?
    ensures forall g :: g in ValueFrames(Items(f.v.d), f) ==> FrameSize(g) < FrameSize(f)
    ensures forall g :: g in SubFrames(Items(f.v.d), f) ==> FrameSize(g) < FrameSize(f)
  {
    var es := Items(f.v.d);
    forall g | g in ValueFrames(es, f) || g in SubFrames(es, f)
      ensures FrameSize(g) < FrameSize(f)
    {
      var e :| e in es && g == Child(e, f);
      var i :| 0 <= i < |es| && es[i] == e;
    }
  }

  /** The children of a section frame that are not sections. */
  function Vals(f: Frame): (r: seq<Frame>)
    requires f.v.Section?
    ensures forall g :: g in r ==> FrameSize(g) < FrameSize(f)
  {
    ChildrenSmaller(f);
    ValueFrames(Items(f.v.d), f)
  }

  /** The children of a section frame that are sections. */
  function Subs(f: Frame): (r: seq<Frame>)
    requires f.v.Section?
    ensures forall g :: g in r ==> FrameSize(g) < FrameSize(f)
  {
    ChildrenSmaller(f);
    SubFrames(Items(f.v.d), f)
  }

  // ------------------------------------------------------------- the walk

  /** The frames the stack machine pops, in order, starting from `f`. */
  function Walk(f: Frame): (r: seq<Frame>)
    ensures |r| >= 1 && r[0] == f
    decreases FrameSize(f), 1
  {
    if f.v.Section? then [f] + WalkAll(Vals(f), FrameSize(f)) + WalkAll(Subs(f), FrameSize(f))
    else [f]
  }

  /** The walks of `fs`, one after the other. */
  function WalkAll(fs: seq<Frame>, bound: nat): (r: seq<Frame>)
    requires forall g :: g in fs ==> FrameSize(g) < bound
    ensures |r| >= |fs|
    decreases bound, 0, |fs|
  {
    if fs == [] then [] else Walk(fs[0]) + WalkAll(fs[1..], bound)
  }

  /** The frames still to be popped from `stack`: the top (last) first. */
  function StackWalk(stack: seq<Frame>): seq<Frame>
  {
    if stack == [] then [] else Walk(stack[|stack| - 1]) + StackWalk(stack[..|stack| - 1])
  }

  function Rev<T>(xs: seq<T>): (r: seq<T>)
    ensures |r| == |xs|
    ensures forall i :: 0 <= i < |xs| ==> r[i] == xs[|xs| - 1 - i]
  {
    if xs == [] then [] else Rev(xs[1..]) + [xs[0]]
  }

  // ---------------------------------------------------------- printability

  /** Lists can be joined: with `none_str` `None`, no list (at any depth)
      holds a `None` item, which would make `listjoin` raise. */
  predicate Printable(v: Value, noneStr: Atom)
    decreases ValueSize(v)
  {
    match v
    case Scalar(_) => true
    case List(items) => noneStr.Nil? ==> Nil !in items
    case Section(d) =>
      var es := Items(d);
      forall i :: 0 <= i < |es| ==> Printable(es[i].val, noneStr)
  }

  lemma ChildrenPrintable(f: Frame, noneStr: Atom)
    requires f.v.Section? && Printable(f.v, noneStr)
    ensures forall g :: g in ValueFrames(Items(f.v.d), f) ==> Printable(g.v, noneStr)
    ensures forall g :: g in SubFrames(Items(f.v.d), f) ==> Printable(g.v, noneStr)
  {
    var es := Items(f.v.d);
    forall g | g in ValueFrames(es, f) || g in SubFrames(es, f)
      ensures Printable(g.v, noneStr)
    {
      var e :| e in es && g == Child(e, f);
      var i :| 0 <= i < |es| && es[i] == e;
    }
  }

  // ------------------------------------------------------------- the output

  /** What popping `f` writes: nothing, or one line ending in a newline and
      starting with the prefix and the frame's indentation. */
  function Emit(f: Frame, prefix: string, noneStr: Atom): (r: seq<string>)
    requires Printable(f.v, noneStr)
    ensures |r| <= 1
    ensures forall i :: 0 <= i < |r| ==>
      && |r[i]| >= |prefix| + |Spacer(f.indent)| + 1
      && r[i][..|prefix|] == prefix
      && r[i][|prefix|..|prefix| + |Spacer(f.indent)|] == Spacer(f.indent)
      && r[i][|r[i]| - 1] == '\n'
    ensures f.v.Section? && r != [] ==> f.key != "" && f.level != 0
    ensures f.v == Scalar(Nil) ==> (r == [] <==> noneStr.Nil?)
  {
    var spacer := Spacer(f.indent);
    match f.v
    case Section(d) =>
      if IsEmpty(d) && noneStr.Nil? then []
      else if f.key != "" && f.level != 0 then
        [prefix + spacer + Repeat('[', f.level) + f.key + Repeat(']', f.level) + "\n"]
      else []
    case _ =>
      var key := if f.key != "" then f.key + " = " else "";
      var value := LeafText(f.v, key != "", noneStr);
      if value.Text? then [prefix + spacer + key + value.s + "\n"] else []
  }

  /** The text of a leaf, or `None` when nothing is written for it. */
  function LeafText(v: Value, keyed: bool, noneStr: Atom): Atom
    requires !v.Section? && Printable(v, noneStr)
  {
    match v
    case Scalar(Nil) => noneStr
    case List(items) => ListJoin(items, noneStr)
    case Scalar(Text(s)) =>
      if '\n' in s && keyed then Text("\"\"\"\n" + s + "\n\"\"\"") else Text(s)
  }

  function EmitAll(fs: seq<Frame>, prefix: string, noneStr: Atom): seq<string>
    requires forall g :: g in fs ==> Printable(g.v, noneStr)
  {
    if fs == [] then [] else Emit(fs[0], prefix, noneStr) + EmitAll(fs[1..], prefix, noneStr)
  }

  /** What `printcfg` writes for the frame `root`: the lines of its walk. */
  function Output(root: Frame, prefix: string, noneStr: Atom): seq<string>
    requires Printable(root.v, noneStr)
  {
    WalkPrintable(root, noneStr);
    EmitAll(Walk(root), prefix, noneStr)
  }

  // --------------------------------------------------------------- lemmas

  /** Every frame of a walk from a printable frame is printable. */
  lemma {:induction false} WalkPrintable(f: Frame, noneStr: Atom)
    requires Printable(f.v, noneStr)
    ensures forall g :: g in Walk(f) ==> Printable(g.v, noneStr)
    decreases FrameSize(f), 1
  {
    if f.v.Section? {
      ChildrenSmaller(f);
      ChildrenPrintable(f, noneStr);
      var es := Items(f.v.d);
      WalkAllPrintable(ValueFrames(es, f), FrameSize(f), noneStr);
      WalkAllPrintable(SubFrames(es, f), FrameSize(f), noneStr);
    }
  }

  lemma {:induction false} WalkAllPrintable(fs: seq<Frame>, bound: nat, noneStr: Atom)
    requires forall g :: g in fs ==> FrameSize(g) < bound && Printable(g.v, noneStr)
    ensures forall g :: g in WalkAll(fs, bound) ==> Printable(g.v, noneStr)
    decreases bound, 0, |fs|
  {
    if fs != [] {
      WalkPrintable(fs[0], noneStr);
      WalkAllPrintable(fs[1..], bound, noneStr);
    }
  }

  lemma {:induction false} StackWalkPrintable(stack: seq<Frame>, noneStr: Atom)
    requires forall g :: g in stack ==> Printable(g.v, noneStr)
    ensures forall g :: g in StackWalk(stack) ==> Printable(g.v, noneStr)
    decreases |stack|
  {
    if stack != [] {
      WalkPrintable(stack[|stack| - 1], noneStr);
      StackWalkPrintable(stack[..|stack| - 1], noneStr);
    }
  }

  lemma {:induction false} EmitAllAppend(a: seq<Frame>, b: seq<Frame>, prefix: string, noneStr: Atom)
    requires forall g :: g in a + b ==> Printable(g.v, noneStr)
    ensures EmitAll(a + b, prefix, noneStr) == EmitAll(a, prefix, noneStr) + EmitAll(b, prefix, noneStr)
    decreases |a|
  {
    if a != [] {
      assert (a + b)[0] == a[0];
      assert (a + b)[1..] == a[1..] + b;
      EmitAllAppend(a[1..], b, prefix, noneStr);
    } else {
      assert a + b == b;
    }
  }

  /** Pushing the reversed frames `xs` on the stack makes them the next
      walks, `xs[0]` first. */
  lemma {:induction false} StackPushReversed(stack: seq<Frame>, xs: seq<Frame>, bound: nat)
    requires forall g :: g in xs ==> FrameSize(g) < bound
    ensures StackWalk(stack + Rev(xs)) == WalkAll(xs, bound) + StackWalk(stack)
    decreases |xs|
  {
    if xs != [] {
      var s' := stack + Rev(xs[1..]);
      assert stack + Rev(xs) == s' + [xs[0]];
      StackTop(s', xs[0]);
      StackPushReversed(stack, xs[1..], bound);
      assert WalkAll(xs, bound) == Walk(xs[0]) + WalkAll(xs[1..], bound);
      Regroup(Walk(xs[0]), WalkAll(xs[1..], bound), StackWalk(stack));
    } else {
      assert stack + Rev(xs) == stack;
    }
  }

  /** The frame on top of the stack is walked first. */
  lemma StackTop(s: seq<Frame>, f: Frame)
    ensures StackWalk(s + [f]) == Walk(f) + StackWalk(s)
  {
    var t := s + [f];
    assert t[|t| - 1] == f;
    assert t[..|t| - 1] == s;
  }

  /** Popping a frame: what remains to be written is the frame's own line,
      then the rest of its walk, then the walks of the frames below it. */
  lemma PopStep(f: Frame, rest: seq<Frame>, prefix: string, noneStr: Atom)
    requires forall g :: g in Walk(f) + StackWalk(rest) ==> Printable(g.v, noneStr)
    ensures Printable(f.v, noneStr)
    ensures forall g :: g in Walk(f)[1..] + StackWalk(rest) ==> Printable(g.v, noneStr)
    ensures EmitAll(Walk(f) + StackWalk(rest), prefix, noneStr)
      == Emit(f, prefix, noneStr) + EmitAll(Walk(f)[1..] + StackWalk(rest), prefix, noneStr)
  {
    PopHead(Walk(f), StackWalk(rest), prefix, noneStr);
  }

  lemma PopHead(a: seq<Frame>, b: seq<Frame>, prefix: string, noneStr: Atom)
    requires a != [] && forall g :: g in a + b ==> Printable(g.v, noneStr)
    ensures Printable(a[0].v, noneStr)
    ensures forall g :: g in a[1..] + b ==> Printable(g.v, noneStr)
    ensures EmitAll(a + b, prefix, noneStr) == Emit(a[0], prefix, noneStr) + EmitAll(a[1..] + b, prefix, noneStr)
  {
    var w := a + b;
    assert w[0] == a[0] && w[1..] == a[1..] + b;
  }

  lemma PushBoth(rest: seq<Frame>, vals: seq<Frame>, subs: seq<Frame>, b: nat)
    requires forall g :: g in vals ==> FrameSize(g) < b
    requires forall g :: g in subs ==> FrameSize(g) < b
    ensures StackWalk(rest + Rev(subs) + Rev(vals)) == WalkAll(vals, b) + WalkAll(subs, b) + StackWalk(rest)
  {
    StackPushReversed(rest + Rev(subs), vals, b);
    StackPushReversed(rest, subs, b);
  }

  /** After a section frame is popped, pushing its sub-sections and then its
      values, both reversed, leaves exactly the rest of its walk on top of
      the frames below it. */
  lemma PushStep(f: Frame, rest: seq<Frame>, vals: seq<Frame>, subs: seq<Frame>)
    requires f.v.Section?
    requires vals == ValueFrames(Items(f.v.d), f) && subs == SubFrames(Items(f.v.d), f)
    ensures Walk(f)[1..] + StackWalk(rest) == StackWalk(rest + Rev(subs) + Rev(vals))
  {
    var b := FrameSize(f);
    ChildrenSmaller(f);
    assert Walk(f) == [f] + WalkAll(vals, b) + WalkAll(subs, b);
    PushBoth(rest, vals, subs, b);
    DropHead(Walk(f), f, WalkAll(vals, b), WalkAll(subs, b), StackWalk(rest),
      StackWalk(rest + Rev(subs) + Rev(vals)));
  }

  lemma DropHead<T>(w: seq<T>, x: T, a: seq<T>, b: seq<T>, c: seq<T>, d: seq<T>)
    requires w == [x] + a + b && d == a + b + c
    ensures w[1..] + c == d
  {
    assert w[1..] == a + b;
  }

  /** The frames pushed for a printable section are printable. */
  lemma PushPrintable(f: Frame, rest: seq<Frame>, vals: seq<Frame>, subs: seq<Frame>, noneStr: Atom)
    requires f.v.Section? && Printable(f.v, noneStr)
    requires forall g :: g in rest ==> Printable(g.v, noneStr)
    requires vals == ValueFrames(Items(f.v.d), f) && subs == SubFrames(Items(f.v.d), f)
    ensures forall g :: g in rest + Rev(subs) + Rev(vals) ==> Printable(g.v, noneStr)
  {
    ChildrenPrintable(f, noneStr);
    forall g | g in rest + Rev(subs) + Rev(vals) ensures Printable(g.v, noneStr) {
      if g in Rev(subs) {
        var j :| 0 <= j < |subs| && Rev(subs)[j] == g;
        assert g in subs;
      } else if g in Rev(vals) {
        var j :| 0 <= j < |vals| && Rev(vals)[j] == g;
        assert g in vals;
      }
    }
  }

  lemma FramesStep(es: seq<Entry>, i: nat, f: Frame)
    requires i < |es|
    ensures ValueFrames(es[..i + 1], f)
      == ValueFrames(es[..i], f) + (if es[i].val.Section? then [] else [Child(es[i], f)])
    ensures SubFrames(es[..i + 1], f)
      == SubFrames(es[..i], f) + (if es[i].val.Section? then [Child(es[i], f)] else [])
  {
    assert es[..i + 1][..i] == es[..i];
  }

  /** The `for key, item in cfg_i.items()` loop: splits a section's items
      into value frames and sub-section frames, each in insertion order. */
  method Partition(f: Frame) returns (vals: seq<Frame>, subs: seq<Frame>)
    requires f.v.Section?
    ensures vals == ValueFrames(Items(f.v.d), f)
    ensures subs == SubFrames(Items(f.v.d), f)
  {
    var es := Items(f.v.d);
    subs, vals := [], [];
    var i := 0;
    while i < |es|
      invariant 0 <= i <= |es|
      invariant subs == SubFrames(es[..i], f)
      invariant vals == ValueFrames(es[..i], f)
    {
      FramesStep(es, i, f);
      if es[i].val.Section? {
        subs := subs + [Child(es[i], f)];
      } else {
        vals := vals + [Child(es[i], f)];
      }
      i := i + 1;
    }
    assert es[..i] == es;
  }

  /** The frames a popped frame pushes: for a printed section, its
      sub-sections and then its values, both reversed, so that the values
      come off the stack first and in order. */
  function Pushed(f: Frame, noneStr: Atom): seq<Frame>
  {
    if f.v.Section? && !(IsEmpty(f.v.d) && noneStr.Nil?) then
      var es := Items(f.v.d);
      Rev(SubFrames(es, f)) + Rev(ValueFrames(es, f))
    else []
  }

  /** Pushing what `f` pushes leaves the rest of its walk on top of the
      frames below it. */
  lemma PushedWalk(f: Frame, rest: seq<Frame>, noneStr: Atom)
    ensures StackWalk(rest + Pushed(f, noneStr)) == Walk(f)[1..] + StackWalk(rest)
  {
    if f.v.Section? && !(IsEmpty(f.v.d) && noneStr.Nil?) {
      PushedWalkSection(f, rest, noneStr);
    } else {
      LeafWalk(f, noneStr);
      assert rest + [] == rest;
    }
  }

  lemma PushedWalkSection(f: Frame, rest: seq<Frame>, noneStr: Atom)
    requires f.v.Section? && !(IsEmpty(f.v.d) && noneStr.Nil?)
    ensures StackWalk(rest + Pushed(f, noneStr)) == Walk(f)[1..] + StackWalk(rest)
  {
    var vals, subs := PushedIs(f, noneStr);
    PushStep(f, rest, vals, subs);
    Regroup(rest, Rev(subs), Rev(vals));
  }

  /** What a section that is printed pushes, in terms of its children. */
  lemma PushedIs(f: Frame, noneStr: Atom) returns (vals: seq<Frame>, subs: seq<Frame>)
    requires f.v.Section? && !(IsEmpty(f.v.d) && noneStr.Nil?)
    ensures vals == ValueFrames(Items(f.v.d), f) && subs == SubFrames(Items(f.v.d), f)
    ensures Pushed(f, noneStr) == Rev(subs) + Rev(vals)
  {
    vals, subs := ValueFrames(Items(f.v.d), f), SubFrames(Items(f.v.d), f);
  }

  lemma Regroup<T>(a: seq<T>, b: seq<T>, c: seq<T>)
    ensures a + (b + c) == a + b + c
  {
  }

  /** A frame that pushes nothing is its whole walk. */
  lemma LeafWalk(f: Frame, noneStr: Atom)
    requires !(f.v.Section? && !(IsEmpty(f.v.d) && noneStr.Nil?))
    ensures Pushed(f, noneStr) == [] && Walk(f) == [f]
  {
    if f.v.Section? {
      assert Items(f.v.d) == [];
      assert Vals(f) == [] && Subs(f) == [];
    }
  }

  /** The body of the `printcfg` loop for one popped frame: writes its
      heading or its `key = value` line, and gives the frames to push. */
  method Visit(f: Frame, prefix: string, noneStr: Atom) returns (lines: seq<string>, pushed: seq<Frame>)
    requires Printable(f.v, noneStr)
    ensures lines == Emit(f, prefix, noneStr)
    ensures pushed == Pushed(f, noneStr)
  {
    lines, pushed := [], [];
    var spacer := Spacer(f.indent);
    if f.v.Section? {
      var d := f.v.d;
      if !(IsEmpty(d) && noneStr.Nil?) {
        if f.key != "" && f.level != 0 {
          lines := [prefix + spacer + Repeat('[', f.level) + f.key + Repeat(']', f.level) + "\n"];
        }
        var vals, subs := Partition(f);
        pushed := Rev(subs) + Rev(vals);
      }
    } else {
      var key := if f.key != "" then f.key + " = " else "";
      var value: Atom;
      if f.v.Scalar? && f.v.a.Nil? {
        value := noneStr;
      } else if f.v.List? {
        value := ListJoin(f.v.items, noneStr);
      } else if '\n' in f.v.a.s && key != "" {
        value := Text("\"\"\"\n" + f.v.a.s + "\n\"\"\"");
      } else {
        value := Text(f.v.a.s);
      }
      if value.Text? {
        lines := [prefix + spacer + key + value.s + "\n"];
      }
    }
  }

  /** Every frame pushed for a printable frame is printable. */
  lemma PushedPrintable(f: Frame, rest: seq<Frame>, noneStr: Atom)
    requires Printable(f.v, noneStr)
    requires forall g :: g in rest ==> Printable(g.v, noneStr)
    ensures forall g :: g in rest + Pushed(f, noneStr) ==> Printable(g.v, noneStr)
  {
    if f.v.Section? && !(IsEmpty(f.v.d) && noneStr.Nil?) {
      var vals, subs := PushedIs(f, noneStr);
      PushPrintable(f, rest, vals, subs, noneStr);
      Regroup(rest, Rev(subs), Rev(vals));
    } else {
      LeafWalk(f, noneStr);
      assert rest + Pushed(f, noneStr) == rest;
    }
  }

  /** `printcfg(cfg, level, indent, prefix, none_str)`: pops the top frame,
      writes its line and pushes its children until the stack is empty;
      what it writes is the output of the pre-order walk. */
  method PrintCfg(cfg: Value, level: int, indent: int, prefix: string, noneStr: Atom)
    returns (out: seq<string>)
    requires Printable(cfg, noneStr)
    ensures out == Output(Frame("", cfg, level, indent), prefix, noneStr)
  {
    var root := Frame("", cfg, level, indent);
    WalkPrintable(root, noneStr);
    var stack := [root];
    out := [];
    assert StackWalk(stack) == Walk(root) by {
      assert stack[..0] == [];
    }
    while stack != []
      invariant forall g :: g in stack ==> Printable(g.v, noneStr)
      invariant forall g :: g in StackWalk(stack) ==> Printable(g.v, noneStr)
      invariant out + EmitAll(StackWalk(stack), prefix, noneStr) == Output(root, prefix, noneStr)
      decreases |StackWalk(stack)|
    {
      var f := stack[|stack| - 1];
      var rest := stack[..|stack| - 1];
      assert StackWalk(stack) == Walk(f) + StackWalk(rest);
      PopStep(f, rest, prefix, noneStr);
      ghost var out0, todo := out, Walk(f)[1..] + StackWalk(rest);
      var lines, pushed := Visit(f, prefix, noneStr);
      out := out + lines;
      PushedWalk(f, rest, noneStr);
      PushedPrintable(f, rest, noneStr);
      stack := rest + pushed;
      Advance(f, stack, out0, out, todo, prefix, noneStr);
    }
  }

  /** One iteration keeps the loop invariant: the line written for `f`
      plus what the new stack will write is what the old stack would have
      written. */
  lemma Advance(f: Frame, stack: seq<Frame>, out0: seq<string>, out: seq<string>,
                todo: seq<Frame>, prefix: string, noneStr: Atom)
    requires Printable(f.v, noneStr)
    requires forall g :: g in stack ==> Printable(g.v, noneStr)
    requires forall g :: g in todo ==> Printable(g.v, noneStr)
    requires out == out0 + Emit(f, prefix, noneStr)
    requires StackWalk(stack) == todo
    ensures forall g :: g in StackWalk(stack) ==> Printable(g.v, noneStr)
    ensures out + EmitAll(StackWalk(stack), prefix, noneStr)
      == out0 + (Emit(f, prefix, noneStr) + EmitAll(todo, prefix, noneStr))
  {
    Shift(out0, Emit(f, prefix, noneStr), EmitAll(todo, prefix, noneStr), out);
  }

  lemma Shift<T>(o0: seq<T>, e: seq<T>, t: seq<T>, o: seq<T>)
    requires o == o0 + e
    ensures o + t == o0 + (e + t)
  {
  }

  // ---------------------------------------------------- what gets written

  /** Leaves walk to themselves. */
  lemma {:induction false} WalkAllLeaves(fs: seq<Frame>, bound: nat)
    requires forall g :: g in fs ==> FrameSize(g) < bound
    requires forall i :: 0 <= i < |fs| ==> !fs[i].v.Section?
    ensures WalkAll(fs, bound) == fs
    decreases |fs|
  {
    if fs != [] {
      WalkAllLeaves(fs[1..], bound);
      assert fs == [fs[0]] + fs[1..];
    }
  }

  /** A section is walked as itself, then its non-section items in
      insertion order, then its sub-sections, each walked completely
      before the next one. */
  lemma WalkSection(f: Frame)
    requires f.v.Section?
    ensures Walk(f) == [f] + Vals(f) + WalkAll(Subs(f), FrameSize(f))
  {
    WalkAllLeaves(Vals(f), FrameSize(f));
  }

  /** Every line written starts with the prefix and ends with a newline. */
  lemma {:induction false} EmitAllLines(fs: seq<Frame>, prefix: string, noneStr: Atom)
    requires forall g :: g in fs ==> Printable(g.v, noneStr)
    ensures forall line :: line in EmitAll(fs, prefix, noneStr) ==>
      |line| > |prefix| && line[..|prefix|] == prefix && line[|line| - 1] == '\n'
    decreases |fs|
  {
    if fs != [] {
      EmitAllLines(fs[1..], prefix, noneStr);
      var e := Emit(fs[0], prefix, noneStr);
      assert EmitAll(fs, prefix, noneStr) == e + EmitAll(fs[1..], prefix, noneStr);
      forall line | line in e
        ensures |line| > |prefix| && line[..|prefix|] == prefix && line[|line| - 1] == '\n'
      {
        assert line == e[0];
      }
    }
  }

  lemma OutputLines(cfg: Value, level: int, indent: int, prefix: string, noneStr: Atom)
    requires Printable(cfg, noneStr)
    ensures forall line :: line in Output(Frame("", cfg, level, indent), prefix, noneStr) ==>
      |line| > |prefix| && line[..|prefix|] == prefix && line[|line| - 1] == '\n'
  {
    var root := Frame("", cfg, level, indent);
    WalkPrintable(root, noneStr);
    EmitAllLines(Walk(root), prefix, noneStr);
  }

  /** A keyed one-line leaf is written as `key = value`. */
  lemma LeafLine(key: string, value: string, level: int, prefix: string, noneStr: Atom)
    requires key != "" && '\n' !in value
    ensures Emit(Frame(key, Scalar(Text(value)), level, 1), prefix, noneStr) == [prefix + key + " = " + value + "\n"]
  {
    var f := Frame(key, Scalar(Text(value)), level, 1);
    assert Spacer(1) == "";
    assert LeafText(f.v, true, noneStr) == Text(value);
    var k := key + " = ";
    assert prefix + "" + k + value + "\n" == prefix + key + " = " + value + "\n";
  }

  /** A section without `defaults_` holding one entry has that entry as
      its only item. */
  lemma SoleItem(e: Entry)
    ensures Items(Dict([e], None)) == [e]
  {
    var d := Dict([e], None);
    assert OwnKeys([e]) == [e.key];
    assert Keys(d) == [e.key];
    assert Get(d, e.key) == Some(e.val);
    assert ItemsOf(d, [e.key]) == [e] + ItemsOf(d, []);
  }

  lemma SolePrintable(e: Entry, noneStr: Atom)
    requires Printable(e.val, noneStr)
    ensures Printable(Section(Dict([e], None)), noneStr)
  {
    SoleItem(e);
  }

  /** A section holding one leaf has that leaf as its only child. */
  lemma OneLeafChildren(f: Frame, e: Entry)
    requires f.v == Section(Dict([e], None)) && !e.val.Section?
    ensures Vals(f) == [Child(e, f)] && Subs(f) == []
  {
    SoleItem(e);
    assert [e][..0] == [];
    assert ValueFrames([e], f) == [] + [Child(e, f)];
    assert SubFrames([e], f) == [] + [];
  }

  /** A section holding one leaf walks to itself and that leaf. */
  lemma OneLeafWalk(f: Frame, e: Entry)
    requires f.v == Section(Dict([e], None)) && !e.val.Section?
    ensures Walk(f) == [f, Child(e, f)]
  {
    OneLeafChildren(f, e);
    WalkAllLeaves([Child(e, f)], FrameSize(f));
    assert WalkAll(Subs(f), FrameSize(f)) == [];
  }

  /** A root section holding one keyed one-line leaf is printed as the
      single line `key = value`, without a heading. */
  lemma OneLeafOutput(key: string, value: string, prefix: string, noneStr: Atom)
    requires key != "" && '\n' !in value
    ensures Output(Frame("", Section(Dict([Entry(key, Scalar(Text(value)))], None)), 0, 0), prefix, noneStr)
      == [prefix + key + " = " + value + "\n"]
  {
    var e := Entry(key, Scalar(Text(value)));
    var root := Frame("", Section(Dict([e], None)), 0, 0);
    var leaf := Child(e, root);
    OneLeafWalk(root, e);
    LeafLine(key, value, 1, prefix, noneStr);
    EmitPair(root, leaf, prefix, noneStr);
  }

  lemma EmitPair(f: Frame, g: Frame, prefix: string, noneStr: Atom)
    requires Printable(f.v, noneStr) && Printable(g.v, noneStr)
    ensures EmitAll([f, g], prefix, noneStr) == Emit(f, prefix, noneStr) + Emit(g, prefix, noneStr)
  {
    assert [f, g][1..] == [g];
    assert EmitAll([g], prefix, noneStr) == Emit(g, prefix, noneStr) + EmitAll([], prefix, noneStr);
  }

  /** `printcfg({'foo': 1})` writes `foo = 1`. */
  lemma PrintCfgFlat()
    ensures Output(Frame("", Section(Dict([Entry("foo", Scalar(Text("1")))], None)), 0, 0), "", Text(""))
      == ["foo = 1\n"]
  {
    OneLeafOutput("foo", "1", "", Text(""));
    assert "" + "foo" + " = " + "1" + "\n" == "foo = 1\n";
  }

  /** A section holding one sub-section has that sub-section as its only
      child. */
  lemma OneSubChildren(f: Frame, e: Entry)
    requires f.v == Section(Dict([e], None)) && e.val.Section?
    ensures Vals(f) == [] && Subs(f) == [Child(e, f)]
  {
    SoleItem(e);
    assert [e][..0] == [];
    assert ValueFrames([e], f) == [] + [];
    assert SubFrames([e], f) == [] + [Child(e, f)];
  }

  /** A section holding one section that holds one leaf walks to the
      three frames in order. */
  lemma NestedWalk(root: Frame, foo: Entry, bar: Entry)
    requires foo.val == Section(Dict([bar], None)) && !bar.val.Section?
    requires root.v == Section(Dict([foo], None))
    ensures Walk(root) == [root, Child(foo, root), Child(bar, Child(foo, root))]
  {
    var fooF := Child(foo, root);
    OneSubChildren(root, foo);
    OneLeafWalk(fooF, bar);
    SoleSubWalk(root, fooF);
  }

  /** A section whose only child is the section `g` walks to itself, then
      the walk of `g`. */
  lemma {:induction false} SoleSubWalk(f: Frame, g: Frame)
    requires f.v.Section? && Vals(f) == [] && Subs(f) == [g]
    ensures Walk(f) == [f] + Walk(g)
  {
    var b := FrameSize(f);
    assert Walk(f) == [f] + WalkAll(Vals(f), b) + WalkAll(Subs(f), b);
    assert WalkAll([g], b) == Walk(g) + WalkAll([g][1..], b);
    assert [g][1..] == [];
  }

  /** A keyed, non-empty section one level down is written as its heading. */
  lemma HeadingLine(key: string, d: Dict, prefix: string, noneStr: Atom)
    requires key != "" && !IsEmpty(d) && Printable(Section(d), noneStr)
    ensures Emit(Frame(key, Section(d), 1, 1), prefix, noneStr) == [prefix + "[" + key + "]\n"]
  {
    assert Spacer(1) == "" && Repeat('[', 1) == "[" && Repeat(']', 1) == "]";
    assert prefix + "" + "[" + key + "]" + "\n" == prefix + "[" + key + "]\n";
  }

  /** A keyed one-line leaf two levels down is indented by four spaces. */
  lemma IndentedLeafLine(key: string, value: string, prefix: string, noneStr: Atom)
    requires key != "" && '\n' !in value
    ensures Emit(Frame(key, Scalar(Text(value)), 2, 2), prefix, noneStr) == [prefix + "    " + key + " = " + value + "\n"]
  {
    var f := Frame(key, Scalar(Text(value)), 2, 2);
    assert Spacer(2) == "    ";
    assert LeafText(f.v, true, noneStr) == Text(value);
    var k := key + " = ";
    assert prefix + "    " + k + value + "\n" == prefix + "    " + key + " = " + value + "\n";
  }

  lemma EmitTriple(f: Frame, g: Frame, h: Frame, prefix: string, noneStr: Atom)
    requires Printable(f.v, noneStr) && Printable(g.v, noneStr) && Printable(h.v, noneStr)
    ensures EmitAll([f, g, h], prefix, noneStr) == Emit(f, prefix, noneStr) + Emit(g, prefix, noneStr) + Emit(h, prefix, noneStr)
  {
    assert [f, g, h][1..] == [g, h];
    EmitPair(g, h, prefix, noneStr);
  }

  /** The walk of a printable root frame is its three frames, and each is
      printable. */
  lemma NestedFrames(root: Frame, foo: Entry, bar: Entry, noneStr: Atom)
    requires foo.val == Section(Dict([bar], None)) && bar.val.Scalar? && bar.val.a.Text?
    requires root.v == Section(Dict([foo], None))
    ensures Printable(root.v, noneStr) && Printable(foo.val, noneStr)
    ensures Walk(root) == [root, Child(foo, root), Child(bar, Child(foo, root))]
  {
    NestedWalk(root, foo, bar);
    SolePrintable(bar, noneStr);
    SolePrintable(foo, noneStr);
  }

  /** Such a root frame writes nothing itself: its output is the lines of
      the section and of the leaf. */
  lemma NestedEmits(root: Frame, foo: Entry, bar: Entry, prefix: string, noneStr: Atom)
    requires foo.val == Section(Dict([bar], None)) && bar.val.Scalar? && bar.val.a.Text?
    requires root == Frame("", Section(Dict([foo], None)), 0, 0)
    ensures Printable(root.v, noneStr)
    ensures Output(root, prefix, noneStr)
      == Emit(Child(foo, root), prefix, noneStr) + Emit(Child(bar, Child(foo, root)), prefix, noneStr)
  {
    var fooF := Child(foo, root);
    var barF := Child(bar, fooF);
    NestedFrames(root, foo, bar, noneStr);
    assert Emit(root, prefix, noneStr) == [];
    ThreeFrameOutput(root, fooF, barF, prefix, noneStr);
  }

  /** A frame that writes nothing and walks to two more frames outputs what
      those two write. */
  lemma ThreeFrameOutput(root: Frame, a: Frame, b: Frame, prefix: string, noneStr: Atom)
    requires Printable(root.v, noneStr) && Printable(a.v, noneStr) && Printable(b.v, noneStr)
    requires Walk(root) == [root, a, b] && Emit(root, prefix, noneStr) == []
    ensures Output(root, prefix, noneStr) == Emit(a, prefix, noneStr) + Emit(b, prefix, noneStr)
  {
    EmitTriple(root, a, b, prefix, noneStr);
  }

  /** A root section holding one section that holds one keyed one-line
      leaf is printed as the heading, then the indented `key = value`. */
  lemma NestedOutput(key: string, leaf: string, value: string, prefix: string, noneStr: Atom)
    requires key != "" && leaf != "" && '\n' !in value
    ensures Printable(Section(Dict([Entry(key, Section(Dict([Entry(leaf, Scalar(Text(value)))], None)))], None)), noneStr)
    ensures Output(Frame("", Section(Dict([Entry(key, Section(Dict([Entry(leaf, Scalar(Text(value)))], None)))], None)), 0, 0), prefix, noneStr)
      == [prefix + "[" + key + "]\n", prefix + "    " + leaf + " = " + value + "\n"]
  {
    var bar := Entry(leaf, Scalar(Text(value)));
    var inner := Dict([bar], None);
    var foo := Entry(key, Section(inner));
    var root := Frame("", Section(Dict([foo], None)), 0, 0);
    SolePrintable(bar, noneStr);
    NestedEmits(root, foo, bar, prefix, noneStr);
    SoleItem(bar);
    HeadingLine(key, inner, prefix, noneStr);
    IndentedLeafLine(leaf, value, prefix, noneStr);
  }

  /** `printcfg({'foo': {'bar': 1}})` writes the heading `[foo]`, then
      `bar = 1` indented one step. */
  lemma PrintCfgNested()
    ensures Output(Frame("", Section(Dict([Entry("foo", Section(Dict([Entry("bar", Scalar(Text("1")))], None)))], None)), 0, 0), "", Text(""))
      == ["[foo]\n", "    bar = 1\n"]
  {
    NestedOutput("foo", "bar", "1", "", Text(""));
    assert "" + "[" + "foo" + "]\n" == "[foo]\n";
    assert "" + "    " + "bar" + " = " + "1" + "\n" == "    bar = 1\n";
  }
}
