/** Text renderings of configuration values: `listjoin` (the list form
    written by `printcfg`), the Python 2 `repr` of a string that it uses for
    quoting, and `itemstr` (breadcrumb paths). */
module Render {
  import opened ConfigNode

  // ---------------------------------------------------------------- repr

  const SQ: char := '\''
  const DQ: char := '"'
  const BS: char := '\\'

  /** The quote character Python 2 `repr` picks for a string: double quotes
      only when the string holds a single quote and no double quote. */
  function QuoteFor(s: string): char
  {
    if SQ in s && DQ !in s then DQ else SQ
  }

  function HexDigit(n: nat): char
    requires n < 16
  {
    if n < 10 then ('0' as int + n) as char else ('a' as int + n - 10) as char
  }

  function HexValue(c: char): Option<nat>
  {
    if '0' <= c <= '9' then Some(c as int - '0' as int)
    else if 'a' <= c <= 'f' then Some(c as int - 'a' as int + 10)
    else None
  }

  /** How `repr` writes one character inside quotes `q`. Characters beyond
      one byte do not occur in a Python 2 `str` and are kept as they are. */
  function EscapeChar(c: char, q: char): (r: string)
    ensures |r| >= 1 && (r[0] == BS <==> |r| > 1)
  {
    if c == q || c == BS then [BS, c]
    else if c == '\t' then [BS, 't']
    else if c == '\n' then [BS, 'n']
    else if c == '\r' then [BS, 'r']
    else if c < ' ' || (0x7f <= c as int < 256) then [BS, 'x', HexDigit(c as int / 16), HexDigit(c as int % 16)]
    else [c]
  }

  function Escape(s: string, q: char): string
  {
    if s == [] then [] else EscapeChar(s[0], q) + Escape(s[1..], q)
  }

  /** Python 2 `repr` of a `str`. */
  function Repr(s: string): string
  {
    [QuoteFor(s)] + Escape(s, QuoteFor(s)) + [QuoteFor(s)]
  }

  /** Reads back the body of a quoted string, undoing `Escape`. */
  function Unescape(t: string): Option<string>
  {
    if t == [] then Some([])
    else if t[0] != BS then
      match Unescape(t[1..])
      case Some(rest) => Some([t[0]] + rest)
      case None => None
    else if |t| < 2 then None
    else
      var c := t[1];
      if c == BS || c == SQ || c == DQ || c == 't' || c == 'n' || c == 'r' then
        var e := if c == 't' then '\t' else if c == 'n' then '\n' else if c == 'r' then '\r' else c;
        match Unescape(t[2..])
        case Some(rest) => Some([e] + rest)
        case None => None
      else if c == 'x' && |t| >= 4 && HexValue(t[2]).Some? && HexValue(t[3]).Some? then
        match Unescape(t[4..])
        case Some(rest) => Some([(HexValue(t[2]).value * 16 + HexValue(t[3]).value) as char] + rest)
        case None => None
      else None
  }

  /** A string wrapped in one kind of quote, as `repr` writes it. */
  predicate Quoted(t: string)
  {
    |t| >= 2 && (t[0] == SQ || t[0] == DQ) && t[|t| - 1] == t[0]
  }

  /** Reads back what `Repr` wrote. */
  function Unrepr(t: string): Option<string>
  {
    if Quoted(t) then Unescape(t[1..|t| - 1]) else None
  }

  lemma HexRoundTrip(n: nat)
    requires n < 16
    ensures HexValue(HexDigit(n)) == Some(n)
  {
  }

  lemma {:induction false} UnescapeStep(c: char, q: char, rest: string)
    requires q == SQ || q == DQ
    ensures Unescape(EscapeChar(c, q) + rest) ==
      match Unescape(rest) case Some(r) => Some([c] + r) case None => None
  {
    var e := EscapeChar(c, q);
    var t := e + rest;
    if |e| == 4 {
      var hi, lo := c as int / 16, c as int % 16;
      HexRoundTrip(hi);
      HexRoundTrip(lo);
      assert t[1] == 'x' && t[2] == HexDigit(hi) && t[3] == HexDigit(lo);
      assert t[4..] == rest;
      assert (hi * 16 + lo) as char == c;
    } else if |e| == 1 {
      assert t[0] == c && t[1..] == rest;
    } else {
      assert t[0] == BS && t[1] == e[1] && t[2..] == rest;
    }
  }

  lemma {:induction false} EscapeRoundTrip(s: string, q: char)
    requires q == SQ || q == DQ
    ensures Unescape(Escape(s, q)) == Some(s)
  {
    if s != [] {
      EscapeRoundTrip(s[1..], q);
      UnescapeStep(s[0], q, Escape(s[1..], q));
      assert [s[0]] + s[1..] == s;
    }
  }

  /** Printable characters other than the quote and the backslash are
      written as they are. */
  predicate Plain(s: string, q: char)
  {
    forall i :: 0 <= i < |s| ==> s[i] != q && s[i] != BS && ' ' <= s[i] && s[i] as int < 0x7f
  }

  lemma {:induction false} EscapePlain(s: string, q: char)
    requires Plain(s, q)
    ensures Escape(s, q) == s
  {
    if s != [] {
      EscapePlain(s[1..], q);
      assert [s[0]] + s[1..] == s;
    }
  }

  /** `repr` output is quoted, and reading it back gives the string again:
      the quoting `listjoin` applies loses nothing. */
  lemma ReprRoundTrip(s: string)
    ensures Quoted(Repr(s))
    ensures Unrepr(Repr(s)) == Some(s)
  {
    var r := Repr(s);
    assert r[1..|r| - 1] == Escape(s, QuoteFor(s));
    EscapeRoundTrip(s, QuoteFor(s));
  }

  // ------------------------------------------------------------- listjoin

  /** The comment and list-delimiter characters that make `listjoin` quote
      an item. */
  predicate NeedsQuote(s: string)
  {
    ',' in s || '#' in s || DQ in s || SQ in s
  }

  /** How `listjoin` writes one item: `None` as `none_str`, an item holding
      a special character through `repr`, any other as it is. */
  function ItemText(a: Atom, noneStr: string): string
  {
    match a
    case Nil => noneStr
    case Text(s) => if NeedsQuote(s) then Repr(s) else s
  }

  function ItemTexts(lst: seq<Atom>, noneStr: string): (r: seq<string>)
    ensures |r| == |lst|
    ensures forall i :: 0 <= i < |lst| ==> r[i] == ItemText(lst[i], noneStr)
  {
    if lst == [] then [] else [ItemText(lst[0], noneStr)] + ItemTexts(lst[1..], noneStr)
  }

  /** Python `sep.join(parts)`. */
  function Join(parts: seq<string>, sep: string): string
  {
    if parts == [] then ""
    else if |parts| == 1 then parts[0]
    else Join(parts[..|parts| - 1], sep) + sep + parts[|parts| - 1]
  }

  /** `listjoin(lst, none_str)`. With `none_str` `None`, an empty list gives
      `None`, and a `None` item would make `', '.join` raise, which callers
      must avoid. */
  function ListJoin(lst: seq<Atom>, noneStr: Atom): Atom
    requires noneStr.Nil? ==> Nil !in lst
  {
    if lst == [] then noneStr
    else Text(Join(ItemTexts(lst, if noneStr.Text? then noneStr.s else ""), ", "))
  }

  /** Each item is written on its own: a `None` item as `none_str`, any
      other quoted exactly when it holds a special character, whatever the
      other items hold, and a quoted item reads back to the item itself. */
  lemma ListJoinQuoting(lst: seq<Atom>, noneStr: Atom, i: nat)
    requires noneStr.Nil? ==> Nil !in lst
    requires i < |lst|
    ensures ListJoin(lst, noneStr).Text?
    ensures lst[i].Nil? ==> noneStr.Text? && ItemTexts(lst, noneStr.s)[i] == noneStr.s
    ensures lst[i].Text? ==>
      var part := ItemTexts(lst, if noneStr.Text? then noneStr.s else "")[i];
      && (Quoted(part) <==> NeedsQuote(lst[i].s))
      && (if Quoted(part) then Unrepr(part) == Some(lst[i].s) else part == lst[i].s)
  {
    if lst[i].Nil? {
      assert lst[i] in lst;
      return;
    }
    var s := lst[i].s;
    if NeedsQuote(s) {
      ReprRoundTrip(s);
    } else {
      assert !Quoted(s) by {
        if |s| >= 2 {
          assert s[0] in s;
        }
      }
    }
  }

  /** An empty list renders as `none_str`; a list of `None` items renders
      each of them as `none_str`. */
  lemma ListJoinNone(n: string)
    ensures ListJoin([], Text(n)) == Text(n)
    ensures ListJoin([], Nil) == Nil
    ensures ListJoin([Nil, Nil], Text(n)) == Text(n + ", " + n)
  {
    assert ItemTexts([Nil, Nil], n) == [n, n];
    assert [n, n][..1] == [n];
    assert Join([n, n], ", ") == n + ", " + n;
  }

  /** A list of plain items is joined with `", "`. */
  lemma ListJoinPlain()
    ensures ListJoin([Text("a"), Text("b")], Text("")) == Text("a, b")
  {
    assert !NeedsQuote("a") && !NeedsQuote("b");
    assert ItemTexts([Text("a"), Text("b")], "") == ["a", "b"];
    assert ["a", "b"][..1] == ["a"];
  }

  /** An item holding a delimiter is quoted on its own and the other items
      stay bare: not the all-or-nothing quoting the function's docstring
      describes. */
  lemma ListJoinPerItem()
    ensures ListJoin([Text("a,b"), Text("c")], Text("")) == Text("'a,b', c")
  {
    assert NeedsQuote("a,b") && !NeedsQuote("c");
    assert QuoteFor("a,b") == SQ;
    EscapePlain("a,b", SQ);
    assert Repr("a,b") == [SQ] + "a,b" + [SQ] == "'a,b'";
    assert ItemText(Text("a,b"), "") == "'a,b'";
    assert ItemText(Text("c"), "") == "c";
    assert ItemTexts([Text("a,b"), Text("c")], "") == ["'a,b'", "c"];
    assert ["'a,b'", "c"][..1] == ["'a,b'"];
  }

  /** An item holding a single quote but no double quote is double-quoted. */
  lemma ListJoinApostrophe()
    ensures ListJoin([Text("it's")], Text("")) == Text("\"it's\"")
  {
    var s := "it's";
    assert s[2] == SQ;
    assert DQ !in s by {
      forall i | 0 <= i < |s| ensures s[i] != DQ {
      }
    }
    assert QuoteFor(s) == DQ;
    EscapePlain(s, DQ);
    assert Repr(s) == [DQ] + s + [DQ] == "\"it's\"";
    assert ItemTexts([Text(s)], "") == [Repr(s)];
    assert Join([Repr(s)], ", ") == Repr(s);
  }

  // -------------------------------------------------------------- itemstr

  /** Python truth of an optional string argument. */
  predicate Truthy(a: Atom)
  {
    a.Text? && a.s != ""
  }

  /** Python `str()` of an optional string. */
  function Str(a: Atom): string
  {
    match a
    case Nil => "None"
    case Text(s) => s
  }

  /** `list.remove(x)`: drops the first occurrence of `x`. */
  function RemoveFirst(ks: seq<string>, x: string): (r: seq<string>)
    ensures x in ks ==> |r| == |ks| - 1
  {
    if ks == [] then []
    else if ks[0] == x then ks[1..]
    else [ks[0]] + RemoveFirst(ks[1..], x)
  }

  /** `itemstr(parents, item, value)`: `parents` is `None` or a list. */
  function ItemStr(parents: Option<seq<string>>, item: Atom, value: Atom): string
  {
    var hasParents := parents.Some? && parents.value != [];
    var ps := if hasParents then parents.value else [];
    // Given a value but no item, the last parent is the item.
    var lastIsItem := hasParents && Truthy(value) && !Truthy(item);
    var it := if lastIsItem then Text(ps[|ps| - 1]) else item;
    var keys := if lastIsItem then RemoveFirst(ps, ps[|ps| - 1]) else ps;
    var text := if hasParents then "[" + Join(keys, "][") + "]" else "";
    var text := if Truthy(it) then text + it.s + (if Truthy(value) then " = " + Str(value) else "") else text;
    if text == "" then Str(value) else text
  }

  /** The documented form, `[sec1][sec2]item = value`. */
  lemma ItemStrExample()
    ensures ItemStr(Some(["sec1", "sec2"]), Text("item"), Text("value")) == "[sec1][sec2]item = value"
  {
    ItemStrBrackets(["sec1", "sec2"], "item", Text("value"));
    JoinTwo("sec1", "sec2", "][");
  }

  /** The demo's other calls with parents and no value. */
  lemma ItemStrNoValue()
    ensures ItemStr(Some(["sec1", "sec2"]), Text("item"), Nil) == "[sec1][sec2]item"
    ensures ItemStr(Some(["sec1", "sec2"]), Nil, Nil) == "[sec1][sec2]"
    ensures ItemStr(Some(["sec1"]), Nil, Nil) == "[sec1]"
  {
    JoinTwo("sec1", "sec2", "][");
  }

  lemma JoinTwo(a: string, b: string, sep: string)
    ensures Join([a, b], sep) == a + sep + b
  {
    assert [a, b][..1] == [a];
  }

  /** The demo's call that gives a value but no item: the last parent is
      written as the item. */
  lemma ItemStrValueOnly()
    ensures ItemStr(Some(["sec1", "sec2"]), Nil, Text("value")) == "[sec1]sec2 = value"
  {
    assert RemoveFirst(["sec1", "sec2"], "sec2") == ["sec1"];
  }

  /** Given a value but no item, the last parent is written as the item:
      the same text as naming it explicitly, provided it does not also occur
      earlier among the parents. */
  lemma {:induction false} ItemStrLastParent(parents: seq<string>, x: string, v: string)
    requires parents != [] && x !in parents && x != "" && v != ""
    ensures ItemStr(Some(parents + [x]), Nil, Text(v)) == ItemStr(Some(parents), Text(x), Text(v))
  {
    RemoveLast(parents, x);
    assert (parents + [x])[|parents + [x]| - 1] == x;
  }

  lemma {:induction false} RemoveLast(ps: seq<string>, x: string)
    requires x !in ps
    ensures RemoveFirst(ps + [x], x) == ps
  {
    if ps != [] {
      assert (ps + [x])[1..] == ps[1..] + [x];
      RemoveLast(ps[1..], x);
    }
  }

  /** When the last parent also occurs earlier, `list.remove` drops that
      earlier occurrence, so the last one stays in the brackets. */
  lemma ItemStrRepeatedParent()
    ensures ItemStr(Some(["a", "b", "a"]), Nil, Text("v")) == "[b][a]a = v"
    ensures ItemStr(Some(["a"]), Nil, Text("v")) == "[]a = v"
  {
    assert RemoveFirst(["a", "b", "a"], "a") == ["b", "a"];
    assert Join(["b", "a"], "][") == "b][a" by {
      assert ["b", "a"][..1] == ["b"];
    }
    assert RemoveFirst(["a"], "a") == [];
  }

  /** With no parents the text is the item, plus ` = value` when there is a
      value; with neither parents nor item it is `str(value)`. */
  lemma ItemStrNoParents(parents: Option<seq<string>>, item: Atom, value: Atom)
    requires parents.None? || parents.value == []
    ensures Truthy(item) ==>
      ItemStr(parents, item, value) == item.s + (if Truthy(value) then " = " + value.s else "")
    ensures !Truthy(item) ==> ItemStr(parents, item, value) == Str(value)
  {
  }

  /** With parents and an explicit item, the parents are bracketed in order
      before it. */
  lemma ItemStrBrackets(parents: seq<string>, item: string, value: Atom)
    requires parents != [] && item != ""
    ensures ItemStr(Some(parents), Text(item), value)
      == "[" + Join(parents, "][") + "]" + item + (if Truthy(value) then " = " + value.s else "")
  {
  }
}
