/**
 * Serialising a whole item tree and parsing the text back gives the tree
 * again, provided the parser can tell the attributes apart. Because the
 * parser looks for `Amount=` and `Charges=` anywhere after the type id, a
 * container that has no amount (or no charges) of its own takes the first one
 * written inside its contents; ContainerTakesChildAmount shows this, and the
 * round trip holds for readable trees, in which it cannot happen.
 */
module NestedRoundTrip {
  import opened Wrappers
  import opened Strings
  import opened Inventory
  import opened ItemRoundTrip

  // ---------------------------------------------------------------------------
  // Which trees read back
  // ---------------------------------------------------------------------------

  /** No item of the list, at any depth, has an amount. */
  predicate NoAmounts(items: seq<Item>)
    decreases items
  {
    items == [] || (items[0].amount.None? && NoAmounts(items[0].contents) && NoAmounts(items[1..]))
  }

  /** No item of the list, at any depth, has charges. */
  predicate NoCharges(items: seq<Item>)
    decreases items
  {
    items == [] || (items[0].charges.None? && NoCharges(items[0].contents) && NoCharges(items[1..]))
  }

  /** A tree the parser reads back: numbers in the non-negative i32 range, and
      no amount (no charges) below an item that has none of its own. */
  predicate Readable(it: Item)
    decreases it, 1
  {
    && 0 <= it.typeId <= I32Max
    && (it.amount.Some? ==> 0 <= it.amount.value <= I32Max)
    && (it.charges.Some? ==> 0 <= it.charges.value <= I32Max)
    && (it.amount.None? ==> NoAmounts(it.contents))
    && (it.charges.None? ==> NoCharges(it.contents))
    && ReadableList(it.contents)
  }

  predicate ReadableList(items: seq<Item>)
    decreases items, 0
  {
    items == [] || (Readable(items[0]) && ReadableList(items[1..]))
  }

  /** A tree whose type ids, at every depth, are non-negative i32 values: the
      only condition for its text to parse without error. */
  predicate WellTyped(it: Item)
    decreases it, 1
  {
    0 <= it.typeId <= I32Max && WellTypedList(it.contents)
  }

  predicate WellTypedList(items: seq<Item>)
    decreases items, 0
  {
    forall i :: 0 <= i < |items| ==> WellTyped(items[i])
  }

  /** Two trees with the same type ids in the same places: they differ at
      most in amounts and charges. */
  predicate SameShape(a: Item, b: Item)
    decreases b, 1
  {
    a.typeId == b.typeId && SameShapes(a.contents, b.contents)
  }

  predicate SameShapes(xs: seq<Item>, ys: seq<Item>)
    decreases ys, 0
  {
    |xs| == |ys| && (ys == [] || (SameShape(xs[0], ys[0]) && SameShapes(xs[1..], ys[1..])))
  }

  lemma {:induction false} ReadableWellTyped(it: Item)
    requires Readable(it)
    ensures WellTyped(it)
    decreases it, 1
  {
    ReadableListWellTyped(it.contents);
  }

  lemma {:induction false} ReadableListWellTyped(items: seq<Item>)
    requires ReadableList(items)
    ensures WellTypedList(items)
    decreases items, 0
  {
    if items != [] {
      ReadableWellTyped(items[0]);
      ReadableListWellTyped(items[1..]);
      forall i | 1 <= i < |items|
        ensures WellTyped(items[i])
      {
        assert items[i] == items[1..][i - 1];
      }
    }
  }

  // ---------------------------------------------------------------------------
  // Characters that never occur
  // ---------------------------------------------------------------------------

  lemma KeyLettersA()
    ensures NoChar(" Charges=", 'A') && NoChar(" Content={", 'A') && NoChar(", ", 'A') && NoChar("}", 'A')
  {
  }

  lemma KeyLettersH()
    ensures NoChar(" Amount=", 'h') && NoChar(" Content={", 'h') && NoChar(", ", 'h') && NoChar("}", 'h')
  {
  }

  /** A number's text is digits and perhaps a minus sign. */
  lemma IntTextLacks(i: int, c: char)
    requires !IsAsciiDigit(c) && c != '-'
    ensures NoChar(IntToString(i), c)
  {
    NatTextChars(if i < 0 then -i else i, c);
    if i < 0 {
      NoCharConcat("-", NatToString(-i), c);
    }
  }

  lemma AttrTextLacks(key: string, v: Option<int>, c: char)
    requires NoChar(key, c) && !IsAsciiDigit(c) && c != '-'
    ensures NoChar(AttrText(key, v), c)
  {
    if v.Some? {
      IntTextLacks(v.value, c);
      NoCharConcat(key, IntToString(v.value), c);
    }
  }

  /** A container's text from its parts, for reasoning about characters. */
  lemma ItemParts(it: Item)
    ensures SerializeItem(it) == IntToString(it.typeId) + AttrText(" Amount=", it.amount)
      + AttrText(" Charges=", it.charges) + (if it.contents != [] then " Content={" + SerializeList(it.contents) + "}" else "")
  {
  }

  /** Text of four parts lacks `c` when each part does. */
  lemma Lacks4(a: string, b: string, d: string, e: string, c: char)
    requires NoChar(a, c) && NoChar(b, c) && NoChar(d, c) && NoChar(e, c)
    ensures NoChar(a + b + d + e, c)
  {
    NoCharConcat(a, b, c);
    NoCharConcat(a + b, d, c);
    NoCharConcat(a + b + d, e, c);
  }

  lemma ContentsLacks(list: string, c: char)
    requires NoChar(list, c) && NoChar(" Content={", c) && NoChar("}", c)
    ensures NoChar(" Content={" + list + "}", c)
  {
    NoCharConcat(" Content={", list, c);
    NoCharConcat(" Content={" + list, "}", c);
  }

  /** Items without amounts are written without an `A`. */
  lemma {:induction false} ItemLacksA(it: Item)
    requires it.amount.None? && NoAmounts(it.contents)
    ensures NoChar(SerializeItem(it), 'A')
    decreases it, 1
  {
    KeyLettersA();
    IntTextLacks(it.typeId, 'A');
    AttrTextLacks(" Charges=", it.charges, 'A');
    var tail := if it.contents != [] then " Content={" + SerializeList(it.contents) + "}" else "";
    if it.contents != [] {
      ListLacksA(it.contents);
      ContentsLacks(SerializeList(it.contents), 'A');
    }
    ItemParts(it);
    Lacks4(IntToString(it.typeId), AttrText(" Amount=", it.amount), AttrText(" Charges=", it.charges), tail, 'A');
  }

  lemma {:induction false} ListLacksA(items: seq<Item>)
    requires NoAmounts(items)
    ensures NoChar(SerializeList(items), 'A')
    decreases items, 0
  {
    if items != [] {
      ItemLacksA(items[0]);
      if |items| > 1 {
        ListLacksA(items[1..]);
        KeyLettersA();
        NoCharConcat(SerializeItem(items[0]), ", ", 'A');
        NoCharConcat(SerializeItem(items[0]) + ", ", SerializeList(items[1..]), 'A');
      }
    }
  }

  /** Items without charges are written without an `h`. */
  lemma {:induction false} ItemLacksH(it: Item)
    requires it.charges.None? && NoCharges(it.contents)
    ensures NoChar(SerializeItem(it), 'h')
    decreases it, 1
  {
    KeyLettersH();
    IntTextLacks(it.typeId, 'h');
    AttrTextLacks(" Amount=", it.amount, 'h');
    var tail := if it.contents != [] then " Content={" + SerializeList(it.contents) + "}" else "";
    if it.contents != [] {
      ListLacksH(it.contents);
      ContentsLacks(SerializeList(it.contents), 'h');
    }
    ItemParts(it);
    Lacks4(IntToString(it.typeId), AttrText(" Amount=", it.amount), AttrText(" Charges=", it.charges), tail, 'h');
  }

  lemma {:induction false} ListLacksH(items: seq<Item>)
    requires NoCharges(items)
    ensures NoChar(SerializeList(items), 'h')
    decreases items, 0
  {
    if items != [] {
      ItemLacksH(items[0]);
      if |items| > 1 {
        ListLacksH(items[1..]);
        KeyLettersH();
        NoCharConcat(SerializeItem(items[0]), ", ", 'h');
        NoCharConcat(SerializeItem(items[0]) + ", ", SerializeList(items[1..]), 'h');
      }
    }
  }

  // ---------------------------------------------------------------------------
  // The list of children: skipped by the brace scan, split item by item
  // ---------------------------------------------------------------------------

  /** The brace scan passes over an item's text, a comma and a space. */
  lemma CloseCommaSpace(s0: string, rest: string, t: string, d: nat)
    requires d >= 1 && Walk(s0, 0) && NetDepth(s0) == 0
    ensures CloseLen(s0 + ", " + rest + t, d) == |s0| + 2 + CloseLen(rest + t, d)
  {
    var r := rest + t;
    var u := [','] + ([' '] + r);
    assert ", " == [','] + [' '];
    Assoc(s0 + ", ", rest, t);
    Assoc(s0, ", ", r);
    Assoc([','], [' '], r);
    CloseLenWalk(s0, u, d, 0);
    CloseLenCons(',', [' '] + (rest + t), d);
    CloseLenCons(' ', rest + t, d);
  }

  /** The brace scan passes over a list of children without stopping. */
  lemma {:induction false} ListClose(items: seq<Item>, t: string, d: nat)
    requires d >= 1
    ensures CloseLen(SerializeList(items) + t, d) == |SerializeList(items)| + CloseLen(t, d)
    decreases items
  {
    if items == [] {
      assert SerializeList(items) + t == t;
    } else {
      var s0 := SerializeItem(items[0]);
      ItemWalk(items[0]);
      if |items| == 1 {
        CloseLenWalk(s0, t, d, 0);
      } else {
        CloseCommaSpace(s0, SerializeList(items[1..]), t, d);
        ListClose(items[1..], t, d);
      }
    }
  }

  /** The fragments a list of children splits into: each child's text, the
      first after `cur` and the others after the space that follows a comma. */
  function Pieces(items: seq<Item>, cur: string): (r: seq<string>)
    requires items != []
    ensures |r| == |items|
    decreases items
  {
    if |items| == 1 then [cur + SerializeItem(items[0])]
    else [cur + SerializeItem(items[0])] + Pieces(items[1..], " ")
  }

  /** A comma at depth 0 ends the fragment; the space after it starts the next. */
  lemma CommaSpace(rest: string, cur: string)
    ensures Fragments(", " + rest, 0, cur) == [cur] + Fragments(rest, 0, " ")
  {
    var t := ", " + rest;
    assert t[0] == ',' && t[1..] == " " + rest;
    var u := " " + rest;
    assert u[0] == ' ' && u[1..] == rest;
    assert [] + [u[0]] == " ";
  }

  /** A walked text alone is one fragment. */
  lemma FragmentsLast(s0: string, cur: string)
    requires Walk(s0, 0) && NetDepth(s0) == 0
    ensures Fragments(s0, 0, cur) == [cur + s0]
  {
    ConcatEmpty(s0);
    FragmentsWalk(s0, [], 0, cur, 0);
  }

  /** A walked text and a comma end a fragment. */
  lemma FragmentsThenComma(s0: string, rest: string, cur: string)
    requires Walk(s0, 0) && NetDepth(s0) == 0
    ensures Fragments(s0 + ", " + rest, 0, cur) == [cur + s0] + Fragments(rest, 0, " ")
  {
    Assoc(s0, ", ", rest);
    FragmentsWalk(s0, ", " + rest, 0, cur, 0);
    CommaSpace(rest, cur + s0);
  }

  lemma {:induction false} ListFragments(items: seq<Item>, cur: string)
    requires items != []
    ensures Fragments(SerializeList(items), 0, cur) == Pieces(items, cur)
    decreases items
  {
    ItemWalk(items[0]);
    if |items| == 1 {
      FragmentsLast(SerializeItem(items[0]), cur);
    } else {
      FragmentsThenComma(SerializeItem(items[0]), SerializeList(items[1..]), cur);
      ListFragments(items[1..], " ");
    }
  }

  // ---------------------------------------------------------------------------
  // The shape of a serialised container
  // ---------------------------------------------------------------------------

  /** `<key><value> ` when the value is present, nothing otherwise. */
  function PartText(key: string, v: Option<int>): string
  {
    if v.Some? then key + IntToString(v.value) + " " else ""
  }

  /** The attributes of a container as they appear before `Content=`. */
  function AttrBody(amount: Option<int>, charges: Option<int>): string
  {
    PartText("Amount=", amount) + PartText("Charges=", charges)
  }

  /** The text after the type id and a space. */
  function ContainerBody(it: Item): string
  {
    AttrBody(it.amount, it.charges) + ("Content={" + SerializeList(it.contents) + "}")
  }

  /** Moving the space of an attribute from its front to its back. */
  lemma ShiftSpace(key: string, v: Option<int>, w: string)
    ensures AttrText(" " + key, v) + (" " + w) == " " + (PartText(key, v) + w)
  {
    if v.None? {
      assert AttrText(" " + key, v) + (" " + w) == " " + w;
    }
  }

  lemma KeySpaces()
    ensures " Amount=" == " " + "Amount=" && " Charges=" == " " + "Charges="
  {
  }

  lemma RegroupKeys(d: string, ka: string, kc: string, amount: Option<int>, charges: Option<int>, z: string)
    ensures d + AttrText(" " + ka, amount) + AttrText(" " + kc, charges) + (" " + z)
         == d + (" " + (PartText(ka, amount) + PartText(kc, charges) + z))
  {
    var a, c := AttrText(" " + ka, amount), AttrText(" " + kc, charges);
    var pa, pc := PartText(ka, amount), PartText(kc, charges);
    var sz, w := " " + z, " " + (pc + z);
    ShiftSpace(kc, charges, z);
    ShiftSpace(ka, amount, pc + z);
    Assoc(d + a, c, sz);
    Assoc(d, a, w);
    Assoc(pa, pc, z);
  }

  lemma Assoc(x: string, y: string, z: string)
    ensures (x + y) + z == x + (y + z)
  {
  }

  lemma RegroupAttrs(d: string, amount: Option<int>, charges: Option<int>, z: string)
    ensures d + AttrText(" Amount=", amount) + AttrText(" Charges=", charges) + (" " + z)
         == d + (" " + (AttrBody(amount, charges) + z))
  {
    KeySpaces();
    RegroupKeys(d, "Amount=", "Charges=", amount, charges, z);
  }

  lemma ContentSpace()
    ensures " Content={" == " " + "Content={"
  {
  }

  lemma ContainerText(it: Item)
    requires it.contents != []
    ensures SerializeItem(it) == IntToString(it.typeId) + (" " + ContainerBody(it))
  {
    ItemParts(it);
    var list := SerializeList(it.contents);
    ContentSpace();
    Assoc(" ", "Content={", list);
    Assoc(" ", "Content={" + list, "}");
    RegroupAttrs(IntToString(it.typeId), it.amount, it.charges, "Content={" + list + "}");
  }

  // ---------------------------------------------------------------------------
  // Reading a container's body
  // ---------------------------------------------------------------------------

  lemma PartLacks(key: string, v: Option<int>, c: char)
    requires NoChar(key, c) && !IsAsciiDigit(c) && c != '-' && c != ' '
    ensures NoChar(PartText(key, v), c)
  {
    if v.Some? {
      IntTextLacks(v.value, c);
      NoCharConcat(key, IntToString(v.value), c);
      NoCharConcat(key + IntToString(v.value), " ", c);
    }
  }

  lemma ContentWord()
    ensures "Content="[0] == 'C' && "Content="[1] == 'o' && |"Content="| == 8
    ensures NoChar("Amount=", 'C') && NoChar("harges=", 'C')
    ensures "Charges=" == "C" + "harges="
  {
  }

  lemma ContentAtFront(x: string)
    ensures StartsWith("Content={" + x, "Content=")
  {
    assert ("Content={" + x)[..8] == "Content=";
  }

  lemma FindFront(t: string, w: string)
    requires StartsWith(t, w)
    ensures Find(t, w) == Some(0)
  {
  }

  lemma NotAtFront(s: string, w: string)
    requires |w| >= 2 && |s| >= 2 && s[1] != w[1]
    ensures !StartsWith(s, w)
  {
    if |w| <= |s| {
      assert s[..|w|][1] == s[1];
    }
  }

  /** The charges part (`Charges=<c> ` or nothing) holds no `Content=`. */
  lemma FindAfterCharges(pc: string, t: string, w: string)
    requires |w| >= 2 && w[0] == 'C' && w[1] == 'o' && StartsWith(t, w)
    requires pc == [] || (|pc| >= 2 && pc[1] == 'h' && NoChar(pc[1..], 'C'))
    ensures Find(pc + t, w) == Some(|pc|)
  {
    if pc == [] {
      EmptyConcat(pc, t);
      FindFront(t, w);
    } else {
      SkipFirst(pc + t, w);
      SkipRest(pc, t, w);
      TailOfConcat(pc, t);
    }
  }

  lemma TailOfConcat(a: string, b: string)
    requires a != []
    ensures (a + b)[1..] == a[1..] + b
  {
  }

  lemma ConcatEmpty(a: string)
    ensures a + [] == a
  {
  }

  lemma EmptyConcat(a: string, b: string)
    requires a == []
    ensures a + b == b
  {
  }

  lemma SkipFirst(s: string, w: string)
    requires |w| >= 2 && |s| >= 2 && s[1] != w[1]
    ensures Find(s, w) == ShiftIndex(Find(s[1..], w), 1)
  {
    NotAtFront(s, w);
    FindStep(s, w);
  }

  lemma SkipRest(pc: string, t: string, w: string)
    requires |w| >= 2 && w[0] == 'C' && StartsWith(t, w) && pc != [] && NoChar(pc[1..], 'C')
    ensures Find(pc[1..] + t, w) == Some(|pc| - 1)
  {
    FindFront(t, w);
    FindSkip(pc[1..], t, w);
  }

  lemma ChargesPartShape(charges: Option<int>)
    ensures var pc := PartText("Charges=", charges);
      pc == [] || (|pc| >= 2 && pc[1] == 'h' && NoChar(pc[1..], 'C'))
  {
    if charges.Some? {
      ContentWord();
      var n := IntToString(charges.value);
      var pc := PartText("Charges=", charges);
      Assoc("C", "harges=", n);
      Assoc("C", "harges=" + n, " ");
      assert pc == "C" + ("harges=" + n + " ");
      assert pc[1..] == "harges=" + n + " ";
      PartLacks("harges=", charges, 'C');
    }
  }

  /** The first `Content=` of a container's body is the one after its attributes. */
  lemma FindContent(amount: Option<int>, charges: Option<int>, t: string)
    requires StartsWith(t, "Content=")
    ensures Find(AttrBody(amount, charges) + t, "Content=") == Some(|AttrBody(amount, charges)|)
  {
    ContentWord();
    var pa, pc := PartText("Amount=", amount), PartText("Charges=", charges);
    ChargesPartShape(charges);
    PartLacks("Amount=", amount, 'C');
    FindAfterParts(pa, pc, t, "Content=");
  }

  /** An amount part without `C` and a charges part only shift the search. */
  lemma FindAfterParts(pa: string, pc: string, t: string, w: string)
    requires |w| >= 2 && w[0] == 'C' && w[1] == 'o' && StartsWith(t, w) && NoChar(pa, 'C')
    requires pc == [] || (|pc| >= 2 && pc[1] == 'h' && NoChar(pc[1..], 'C'))
    ensures Find(pa + pc + t, w) == Some(|pa + pc|)
  {
    FindAfterCharges(pc, t, w);
    Assoc(pa, pc, t);
    FindSkip(pa, pc + t, w);
  }

  /** A braced list of children: trimming keeps it and the brace scan stops at
      its last character. */
  lemma BracedList(items: seq<Item>)
    ensures var list := SerializeList(items);
      var after := "{" + list + "}";
      && Trim(after) == after && after[0] == '{'
      && CloseIndex(after, 1) == 1 + |list| && after[1..1 + |list|] == list
  {
    var list := SerializeList(items);
    var after := "{" + list + "}";
    assert after[0] == '{' && after[|after| - 1] == '}';
    TrimNoop(after);
    assert after[1..] == list + "}";
    ListClose(items, "}", 1);
  }

  /** The body of a container names its children's list as its content. */
  lemma BodyNested(it: Item)
    ensures NestedContent(ContainerBody(it)) == Some(SerializeList(it.contents))
  {
    var list := SerializeList(it.contents);
    var p := AttrBody(it.amount, it.charges);
    var t := "Content={" + list + "}";
    ContentAtFront(list + "}");
    Assoc("Content={", list, "}");
    FindContent(it.amount, it.charges, t);
    BracedList(it.contents);
    TextAfterContent(p, list);
    NestedContentFound(p + t, |p|, "{" + list + "}", 1 + |list|);
  }

  lemma TextAfterContent(p: string, list: string)
    ensures (p + ("Content={" + list + "}"))[|p| + 8..] == "{" + list + "}"
  {
    ContentWord();
    assert "Content={" + list + "}" == "Content=" + ("{" + list + "}");
  }

  lemma KeyLetters()
    ensures "Amount" + "=" == "Amount=" && "Charges" + "=" == "Charges="
    ensures "Amount"[0] == 'A' && "Charges"[1] == 'h' && |"Amount"| == 6 && |"Charges"| == 7
    ensures NoChar("Charges=", 'A') && NoChar("Amount=", 'h') && NoChar("Amount=", 'C')
    ensures NoChar("Content={", 'A') && NoChar("Content={", 'h') && NoChar("}", 'A') && NoChar("}", 'h')
  {
  }

  /** `Content={<list>}` holds no `c` when the list does not. */
  lemma BracesLack(list: string, c: char)
    requires NoChar(list, c) && NoChar("Content={", c) && NoChar("}", c)
    ensures NoChar("Content={" + list + "}", c)
  {
    NoCharConcat("Content={", list, c);
    NoCharConcat("Content={" + list, "}", c);
  }

  /** An attribute written first is read with the digits that follow it. */
  lemma FrontValue(key: string, v: int, rest: string)
    requires 0 <= v <= I32Max
    ensures AttrValue(((key + "=") + IntToString(v) + " ") + rest, key) == Some(v)
  {
    var n := IntToString(v);
    Assoc((key + "=") + n, " ", rest);
    AttrValueFront(key, v, " " + rest);
  }

  /** The amount read from a container's body is its own. */
  lemma BodyAmountValue(it: Item)
    requires it.amount.Some? ==> 0 <= it.amount.value <= I32Max
    requires it.amount.None? ==> NoAmounts(it.contents)
    ensures AttrValue(ContainerBody(it), "Amount") == it.amount
  {
    KeyLetters();
    var pa, pc := PartText("Amount=", it.amount), PartText("Charges=", it.charges);
    var t := "Content={" + SerializeList(it.contents) + "}";
    Assoc(pa, pc, t);
    if it.amount.Some? {
      FrontValue("Amount", it.amount.value, pc + t);
    } else {
      PartLacks("Charges=", it.charges, 'A');
      ListLacksA(it.contents);
      BracesLack(SerializeList(it.contents), 'A');
      NoCharConcat(pc, t, 'A');
      EmptyConcat(pa, pc + t);
      FirstAttrNone(pa + (pc + t), "Amount", 0);
    }
  }

  /** The charges read from a container's body are its own. */
  lemma BodyChargesValue(it: Item)
    requires it.charges.Some? ==> 0 <= it.charges.value <= I32Max
    requires it.charges.None? ==> NoCharges(it.contents)
    ensures AttrValue(ContainerBody(it), "Charges") == it.charges
  {
    KeyLetters();
    var pa, pc := PartText("Amount=", it.amount), PartText("Charges=", it.charges);
    var t := "Content={" + SerializeList(it.contents) + "}";
    Assoc(pa, pc, t);
    if it.charges.Some? {
      PartLacks("Amount=", it.amount, 'C');
      FirstAttrSkip(pa, pc + t, "Charges");
      FrontValue("Charges", it.charges.value, t);
    } else {
      PartLacks("Amount=", it.amount, 'h');
      ListLacksH(it.contents);
      BracesLack(SerializeList(it.contents), 'h');
      EmptyConcat(pc, t);
      NoCharConcat(pa, t, 'h');
      FirstAttrNone(pa + (pc + t), "Charges", 1);
    }
  }

  // ---------------------------------------------------------------------------
  // First and last characters
  // ---------------------------------------------------------------------------

  lemma LastOf(x: string, y: string)
    requires y != []
    ensures (x + y)[|x + y| - 1] == y[|y| - 1]
  {
  }

  /** A number's text ends in a digit. */
  lemma IntTextLast(i: int)
    ensures IsAsciiDigit(IntToString(i)[|IntToString(i)| - 1])
  {
    var n := if i < 0 then -i else i;
    NatToStringDigits(n);
    if i < 0 {
      LastOf("-", NatToString(n));
    }
  }

  /** An item's text starts with a digit and ends in a digit or `}`. */
  lemma ItemEdges(it: Item)
    requires it.typeId >= 0
    ensures var s := SerializeItem(it);
      s != [] && IsAsciiDigit(s[0]) && NotWhitespace(s[|s| - 1])
  {
    ItemParts(it);
    var d := IntToString(it.typeId);
    var a, c := AttrText(" Amount=", it.amount), AttrText(" Charges=", it.charges);
    var tail := if it.contents != [] then " Content={" + SerializeList(it.contents) + "}" else "";
    NatToStringDigits(it.typeId);
    assert (d + a + c + tail)[0] == d[0];
    if tail != [] {
      LastOf(d + a + c, tail);
    } else if it.charges.Some? {
      IntTextLast(it.charges.value);
      LastOf(" Charges=", IntToString(it.charges.value));
      LastOf(d + a, c);
      EmptyConcat(tail, []);
      assert d + a + c + tail == d + a + c;
    } else if it.amount.Some? {
      IntTextLast(it.amount.value);
      LastOf(" Amount=", IntToString(it.amount.value));
      LastOf(d, a);
      assert d + a + c + tail == d + a;
    } else {
      IntTextLast(it.typeId);
      assert d + a + c + tail == d;
    }
  }

  /** A list's text starts with a digit and ends in a digit or `}`. */
  lemma {:induction false} ListEdges(items: seq<Item>)
    requires items != [] && WellTypedList(items)
    ensures var s := SerializeList(items);
      s != [] && IsAsciiDigit(s[0]) && NotWhitespace(s[|s| - 1])
    decreases items
  {
    ItemEdges(items[0]);
    if |items| > 1 {
      ListEdges(items[1..]);
      var s0, rest := SerializeItem(items[0]), SerializeList(items[1..]);
      assert (s0 + ", " + rest)[0] == s0[0];
      LastOf(s0 + ", ", rest);
    }
  }

  /** A container's body starts with a letter and ends with `}`. */
  lemma BodyEdges(it: Item)
    ensures var b := ContainerBody(it);
      b != [] && NotWhitespace(b[0]) && NotWhitespace(b[|b| - 1])
  {
    var pa, pc := PartText("Amount=", it.amount), PartText("Charges=", it.charges);
    var t := "Content={" + SerializeList(it.contents) + "}";
    Assoc(pa, pc, t);
    LastOf(pa + pc, t);
    assert t[0] == 'C' && t[|t| - 1] == '}';
    if pa != [] {
      assert pa[0] == 'A';
      assert (pa + (pc + t))[0] == 'A';
    } else if pc != [] {
      assert pc[0] == 'C';
      EmptyConcat(pa, pc + t);
      assert (pc + t)[0] == 'C';
    } else {
      EmptyConcat(pa, pc + t);
      EmptyConcat(pc, t);
    }
  }

  // ---------------------------------------------------------------------------
  // The round trip
  // ---------------------------------------------------------------------------

  /** Serialising an item tree and parsing the text gives the tree back,
      whenever the tree is readable. */
  lemma {:induction false} RoundTrip(it: Item)
    requires Readable(it)
    ensures ParseItem(SerializeItem(it)) == Ok(it)
    decreases it, 2
  {
    if it.contents == [] {
      LeafRoundTrip(it);
    } else {
      ListRoundTrip(it.contents);
      ContainerText(it);
      BodyEdges(it);
      var body := ContainerBody(it);
      ParseItemHead(it.typeId, body);
      BodyNested(it);
      BodyAmountValue(it);
      BodyChargesValue(it);
    }
  }

  /** The same for a list of children in a container's braces. */
  lemma {:induction false} ListRoundTrip(items: seq<Item>)
    requires items != [] && ReadableList(items)
    ensures ParseItemList(SerializeList(items)) == Ok(items)
    decreases items, 1
  {
    var list := SerializeList(items);
    ReadableListWellTyped(items);
    ListEdges(items);
    TrimNoop(list);
    ListFragments(items, []);
    ParsePieces(items, []);
  }

  lemma {:induction false} ParsePieces(items: seq<Item>, cur: string)
    requires items != [] && ReadableList(items) && (cur == [] || cur == " ")
    ensures ParseFragments(Pieces(items, cur)) == Ok(items)
    decreases items, 0
  {
    TrimPiece(items[0], cur);
    RoundTrip(items[0]);
    var frags := Pieces(items, cur);
    PiecesSplit(items, cur);
    ParseFragmentsCons(frags, SerializeItem(items[0]), items[0]);
    ConsTail(items);
    if |items| > 1 {
      ParsePieces(items[1..], " ");
    } else {
      assert ParseFragments([]) == Ok([]);
    }
  }

  lemma PiecesSplit(items: seq<Item>, cur: string)
    requires items != []
    ensures Pieces(items, cur)[0] == cur + SerializeItem(items[0])
    ensures |items| == 1 ==> Pieces(items, cur)[1..] == []
    ensures |items| > 1 ==> Pieces(items, cur)[1..] == Pieces(items[1..], " ")
  {
  }

  lemma ConsTail<T>(xs: seq<T>)
    requires xs != []
    ensures [xs[0]] + xs[1..] == xs
  {
  }

  /** A fragment is its item's text once trimmed. */
  lemma TrimPiece(it: Item, cur: string)
    requires it.typeId >= 0 && (cur == [] || cur == " ")
    ensures Trim(cur + SerializeItem(it)) == SerializeItem(it)
  {
    var s0 := SerializeItem(it);
    ItemEdges(it);
    TrimNoop(s0);
    if cur == [] {
      EmptyConcat(cur, s0);
    } else {
      TrimStartSpace(s0);
    }
  }

  /** A first fragment that parses is put in front of the rest's items. */
  lemma ParseFragmentsCons(frags: seq<string>, s: string, it: Item)
    requires frags != [] && Trim(frags[0]) == s && s != [] && ParseItem(s) == Ok(it)
    ensures ParseFragments(frags) == Prepend([it], ParseFragments(frags[1..]))
  {
  }

  // ---------------------------------------------------------------------------
  // Reading back a tree that is only well-typed
  // ---------------------------------------------------------------------------

  /** The attributes of a leaf with an amount or charges: a space, then a
      body that starts with a key letter, ends in a digit and holds no
      `Content=`. */
  lemma AttrsBody(amount: Option<int>, charges: Option<int>) returns (r: string)
    requires amount.Some? || charges.Some?
    ensures AttrText(" Amount=", amount) + AttrText(" Charges=", charges) == " " + r
    ensures r != [] && NotWhitespace(r[0]) && NotWhitespace(r[|r| - 1])
    ensures NestedContent(r) == None
  {
    var a, c := AttrText(" Amount=", amount), AttrText(" Charges=", charges);
    r := (a + c)[1..];
    AttrsFront(a, c, amount, charges);
    AttrsLast(a, c, amount, charges);
    AttrsNoContent(a, c, amount, charges);
  }

  lemma AttrsFront(a: string, c: string, amount: Option<int>, charges: Option<int>)
    requires a == AttrText(" Amount=", amount) && c == AttrText(" Charges=", charges)
    requires amount.Some? || charges.Some?
    ensures |a + c| > 1 && a + c == " " + (a + c)[1..]
    ensures NotWhitespace((a + c)[1])
  {
    if a != [] {
      assert (a + c)[0] == ' ' && (a + c)[1] == 'A';
    } else {
      assert a + c == c && c[0] == ' ' && c[1] == 'C';
    }
  }

  lemma AttrsLast(a: string, c: string, amount: Option<int>, charges: Option<int>)
    requires a == AttrText(" Amount=", amount) && c == AttrText(" Charges=", charges)
    requires amount.Some? || charges.Some?
    ensures a + c != [] && NotWhitespace((a + c)[|a + c| - 1])
  {
    if c != [] {
      IntTextLast(charges.value);
      LastOf(" Charges=", IntToString(charges.value));
      LastOf(a, c);
    } else {
      IntTextLast(amount.value);
      LastOf(" Amount=", IntToString(amount.value));
      assert a + c == a;
    }
  }

  lemma AttrsNoContent(a: string, c: string, amount: Option<int>, charges: Option<int>)
    requires a == AttrText(" Amount=", amount) && c == AttrText(" Charges=", charges)
    requires |a + c| > 1
    ensures NestedContent((a + c)[1..]) == None
  {
    AttrTextLacks(" Amount=", amount, 'C');
    AttrTextLacks(" Charges=", charges, 'o');
    if a != [] {
      assert (a + c)[1..] == a[1..] + c;
      NoContent(a[1..], c);
    } else {
      assert (a + c)[1..] == [] + c[1..];
      NoContent([], c[1..]);
    }
  }

  /** A leaf with an amount or charges is its type id, a space and a body
      without `Content=`, so it parses whatever its numbers are. */
  lemma LeafReads(it: Item)
    requires it.contents == [] && 0 <= it.typeId <= I32Max
    ensures ParseItem(SerializeItem(it)).Ok?
    ensures ParseItem(SerializeItem(it)).value.typeId == it.typeId
    ensures ParseItem(SerializeItem(it)).value.contents == []
  {
    var d := NatToString(it.typeId);
    var a, c := AttrText(" Amount=", it.amount), AttrText(" Charges=", it.charges);
    ItemParts(it);
    if it.amount.None? && it.charges.None? {
      assert SerializeItem(it) == d;
      ParseItemBare(it.typeId);
    } else {
      var r := AttrsBody(it.amount, it.charges);
      Assoc(d, a, c);
      assert SerializeItem(it) == d + (" " + r);
      ParseItemHead(it.typeId, r);
    }
  }

  /** Every well-typed tree parses back from its text, with the same type ids
      in the same places; only amounts and charges can differ (see
      ContainerTakesChildAmount). */
  lemma {:induction false} ItemReads(it: Item)
    requires WellTyped(it)
    ensures ParseItem(SerializeItem(it)).Ok?
    ensures SameShape(ParseItem(SerializeItem(it)).value, it)
    decreases it, 2
  {
    if it.contents == [] {
      LeafReads(it);
    } else {
      ListReads(it.contents);
      ContainerText(it);
      BodyEdges(it);
      var body := ContainerBody(it);
      ParseItemHead(it.typeId, body);
      BodyNested(it);
    }
  }

  /** The same for a list of children in a container's braces. */
  lemma {:induction false} ListReads(items: seq<Item>)
    requires items != [] && WellTypedList(items)
    ensures ParseItemList(SerializeList(items)).Ok?
    ensures SameShapes(ParseItemList(SerializeList(items)).value, items)
    decreases items, 1
  {
    var list := SerializeList(items);
    ListEdges(items);
    TrimNoop(list);
    ListFragments(items, []);
    PiecesRead(items, []);
  }

  lemma {:induction false} PiecesRead(items: seq<Item>, cur: string)
    requires items != [] && WellTypedList(items) && (cur == [] || cur == " ")
    ensures ParseFragments(Pieces(items, cur)).Ok?
    ensures SameShapes(ParseFragments(Pieces(items, cur)).value, items)
    decreases items, 0
  {
    TrimPiece(items[0], cur);
    ItemReads(items[0]);
    var it := ParseItem(SerializeItem(items[0])).value;
    var frags := Pieces(items, cur);
    PiecesSplit(items, cur);
    ParseFragmentsCons(frags, SerializeItem(items[0]), it);
    var rest: seq<Item> := [];
    if |items| > 1 {
      PiecesRead(items[1..], " ");
      rest := ParseFragments(frags[1..]).value;
    } else {
      assert ParseFragments(frags[1..]) == Ok([]);
    }
    assert ParseFragments(frags) == Ok([it] + rest);
    assert ([it] + rest)[1..] == rest;
  }

  /** What the parser reads from a well-typed tree's text. */
  function Reread(it: Item): (r: Item)
    requires WellTyped(it)
    ensures SameShape(r, it)
  {
    ItemReads(it);
    ParseItem(SerializeItem(it)).value
  }

  /** For a readable tree that is the tree itself. */
  lemma RereadReadable(it: Item)
    requires Readable(it)
    ensures WellTyped(it) && Reread(it) == it
  {
    ReadableWellTyped(it);
    RoundTrip(it);
  }

  // ---------------------------------------------------------------------------
  // What the parser produces
  // ---------------------------------------------------------------------------

  /** Every item `parse_item` returns is well-typed: its type ids, at every
      depth, come from the `i32` parse of a digit run. */
  lemma {:induction false} ParsedWellTyped(content: string)
    ensures ParseItem(content).Ok? ==> WellTyped(ParseItem(content).value)
    decreases |content|, 0, 0
  {
    var c := Trim(content);
    if c != [] {
      var n := LeadingCount(c, IsAsciiDigit);
      if n != 0 && ParseI32(c[..n]).Some? {
        ParsedBodyWellTyped(ParseI32(c[..n]).value, Trim(c[n..]));
      }
    }
  }

  lemma {:induction false} ParsedBodyWellTyped(id: int, rest: string)
    requires 0 <= id <= I32Max
    ensures ParseBody(id, rest).Ok? ==> WellTyped(ParseBody(id, rest).value)
    decreases |rest|, 1, 0
  {
    if rest != [] && NestedContent(rest).Some? {
      ParsedListWellTyped(NestedContent(rest).value);
    }
  }

  lemma {:induction false} ParsedListWellTyped(content: string)
    ensures ParseItemList(content).Ok? ==> WellTypedList(ParseItemList(content).value)
    decreases |content|, 2, 0
  {
    var c := Trim(content);
    if c != [] {
      ParsedFragmentsWellTyped(Fragments(c, 0, []));
    }
  }

  lemma {:induction false} ParsedFragmentsWellTyped(frags: seq<string>)
    ensures ParseFragments(frags).Ok? ==> WellTypedList(ParseFragments(frags).value)
    decreases TotalLen(frags), 1, |frags|
  {
    if frags != [] {
      var t := Trim(frags[0]);
      ParsedFragmentsWellTyped(frags[1..]);
      if t != [] && ParseItem(t).Ok? && ParseFragments(frags[1..]).Ok? {
        ParsedWellTyped(t);
        var rest := ParseFragments(frags[1..]).value;
        assert ParseFragments(frags) == Ok([ParseItem(t).value] + rest);
        forall i | 0 <= i < |rest| + 1
          ensures WellTyped(([ParseItem(t).value] + rest)[i])
        {
          if i > 0 {
            assert ([ParseItem(t).value] + rest)[i] == rest[i - 1];
          }
        }
      }
    }
  }

  // ---------------------------------------------------------------------------
  // Where the round trip fails
  // ---------------------------------------------------------------------------

  lemma Regroup5(k: string, d: string, sp: string, am: string, n: string, close: string)
    ensures (k + (d + ((sp + am) + n))) + close == ((k + d) + sp) + ((am + n) + close)
  {
    Assoc(sp, am, n);
    Assoc(d, sp, am + n);
    Assoc(k, d, sp + (am + n));
    Assoc(k + d, sp, am + n);
    Assoc((k + d) + sp, am + n, close);
    Assoc(am, n, close);
  }

  /** The body of a container holding one leaf with an amount, read as text. */
  lemma ChildAmountText(w: nat, a: nat)
    ensures var c := Item(w, Some(a), None, []);
      ContainerBody(Item(0, None, None, [c]))
        == ("Content={" + NatToString(w) + " ") + (("Amount" + "=") + NatToString(a) + "}")
  {
    var c := Item(w, Some(a), None, []);
    var d, n := NatToString(w), NatToString(a);
    KeySpaces();
    KeyLetters();
    assert SerializeList([c]) == SerializeItem(c);
    assert SerializeItem(c) == d + (" " + "Amount=" + n) + "" + "";
    assert SerializeItem(c) == d + ((" " + "Amount=") + n);
    assert AttrBody(None, None) == [];
    EmptyConcat(AttrBody(None, None), "Content={" + SerializeItem(c) + "}");
    Regroup5("Content={", d, " ", "Amount=", n, "}");
  }

  /** A container with no amount of its own, holding a leaf with amount `a`,
      is read back with amount `a` itself: `Amount=` is searched for in the
      whole body, children included. Its round trip therefore fails. */
  lemma ContainerTakesChildAmount(v: nat, w: nat, a: nat)
    requires v <= I32Max && w <= I32Max && a <= I32Max
    ensures var c := Item(w, Some(a), None, []);
      ParseItem(SerializeItem(Item(v, None, None, [c]))) == Ok(Item(v, Some(a), None, [c]))
  {
    var c := Item(w, Some(a), None, []);
    var it := Item(v, None, None, [c]);
    assert Readable(c) && ReadableList([c]) && NoCharges([c]);
    ListRoundTrip([c]);
    ContainerText(it);
    BodyEdges(it);
    var body := ContainerBody(it);
    ParseItemHead(v, body);
    BodyNested(it);
    BodyChargesValue(it);
    ChildAmountText(w, a);
    assert body == ContainerBody(Item(0, None, None, [c]));
    var p := "Content={" + NatToString(w) + " ";
    assert NoChar(p, 'A') by {
      KeyLetters();
      NatTextChars(w, 'A');
      NoCharConcat("Content={", NatToString(w), 'A');
      NoCharConcat("Content={" + NatToString(w), " ", 'A');
    }
    KeyLetters();
    FirstAttrSkip(p, ("Amount" + "=") + NatToString(a) + "}", "Amount");
    AttrValueFront("Amount", a, "}");
  }
}
