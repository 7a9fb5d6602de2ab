/**
 * Serialising an item and parsing the text back gives the item again, for
 * every item the parser can represent: values that fit an i32 and are not
 * negative, and no `Amount`/`Charges` below a container that has none of its
 * own (the parser would otherwise lift it to the container).
 */
module ItemRoundTrip {
  import opened Wrappers
  import opened Strings
  import opened Inventory

  // ---------------------------------------------------------------------------
  // Brace walks: text that neither closes a brace opened before it nor holds
  // a comma outside its own braces
  // ---------------------------------------------------------------------------

  function Step(c: char): int
  {
    if c == '{' then 1 else if c == '}' then -1 else 0
  }

  /** Read from `r` braces deep (relative to its start), `x` never goes below
      its start and has commas only inside braces. */
  predicate Walk(x: string, r: int)
  {
    x == [] || (r + Step(x[0]) >= 0 && (x[0] == ',' ==> r >= 1) && Walk(x[1..], r + Step(x[0])))
  }

  lemma {:induction false} WalkAppend(a: string, b: string, r: int)
    ensures NetDepth(a + b) == NetDepth(a) + NetDepth(b)
    ensures Walk(a + b, r) <==> Walk(a, r) && Walk(b, r + NetDepth(a))
  {
    if a == [] {
      assert a + b == b;
    } else {
      assert (a + b)[1..] == a[1..] + b;
      WalkAppend(a[1..], b, r + Step(a[0]));
    }
  }

  lemma {:induction false} WalkDeeper(x: string, r: int, r': int)
    requires Walk(x, r) && r <= r'
    ensures Walk(x, r')
  {
    if x != [] {
      WalkDeeper(x[1..], r + Step(x[0]), r' + Step(x[0]));
    }
  }

  lemma CloseLenCons(c: char, u: string, d: nat)
    requires d >= 1 && (c == '}' ==> d >= 2)
    ensures CloseLen([c] + u, d) == 1 + CloseLen(u, d + Step(c))
  {
    assert ([c] + u)[0] == c && ([c] + u)[1..] == u;
  }

  /** A walked text can be skipped by the brace scan. */
  lemma {:induction false} CloseLenWalk(x: string, t: string, d: nat, r: nat)
    requires Walk(x, r) && d >= r + 1
    ensures d + NetDepth(x) >= 1
    ensures CloseLen(x + t, d) == |x| + CloseLen(t, d + NetDepth(x))
  {
    if x == [] {
      assert x + t == t;
    } else {
      var c, y := x[0], x[1..];
      assert x + t == [c] + (y + t);
      CloseLenWalk(y, t, d + Step(c), r + Step(c));
      CloseLenCons(c, y + t, d);
    }
  }

  /** A walked text never ends a fragment. */
  lemma {:induction false} FragmentsWalk(x: string, t: string, depth: int, cur: string, r: nat)
    requires Walk(x, r) && depth >= r
    ensures Fragments(x + t, depth, cur) == Fragments(t, depth + NetDepth(x), cur + x)
  {
    if x == [] {
      assert x + t == t;
      assert cur + x == cur;
    } else {
      assert (x + t)[1..] == x[1..] + t;
      assert cur + [x[0]] + x[1..] == cur + x;
      FragmentsWalk(x[1..], t, depth + Step(x[0]), cur + [x[0]], r + Step(x[0]));
    }
  }

  // ---------------------------------------------------------------------------
  // Plain text: no brace and no comma
  // ---------------------------------------------------------------------------

  predicate Plain(x: string)
  {
    x == [] || (x[0] != '{' && x[0] != '}' && x[0] != ',' && Plain(x[1..]))
  }

  lemma {:induction false} PlainAppend(a: string, b: string)
    requires Plain(a) && Plain(b)
    ensures Plain(a + b)
  {
    if a == [] {
      assert a + b == b;
    } else {
      assert (a + b)[1..] == a[1..] + b;
      PlainAppend(a[1..], b);
    }
  }

  lemma {:induction false} PlainWalk(x: string, r: nat)
    requires Plain(x)
    ensures Walk(x, r) && NetDepth(x) == 0
  {
    if x != [] {
      PlainWalk(x[1..], r);
    }
  }

  lemma {:induction false} NatTextPlain(n: nat)
    ensures Plain(NatToString(n))
  {
    if n >= 10 {
      NatTextPlain(n / 10);
      PlainAppend(NatToString(n / 10), [DigitChar(n % 10)]);
    }
  }

  lemma IntTextPlain(i: int)
    ensures Plain(IntToString(i))
  {
    NatTextPlain(if i < 0 then -i else i);
    if i < 0 {
      PlainAppend("-", NatToString(-i));
    }
  }

  /** The text of an item before its `Content={...}` part. */
  function HeadText(it: Item): string
  {
    IntToString(it.typeId) + AttrText(" Amount=", it.amount) + AttrText(" Charges=", it.charges)
  }

  lemma SerializeItemSplit(it: Item)
    ensures it.contents == [] ==> SerializeItem(it) == HeadText(it)
    ensures it.contents != [] ==> SerializeItem(it) == HeadText(it) + (" Content={" + SerializeList(it.contents) + "}")
  {
    if it.contents == [] {
      assert HeadText(it) + "" == HeadText(it);
    }
  }

  lemma AttrTextPlain(key: string, v: Option<int>)
    requires Plain(key)
    ensures Plain(AttrText(key, v))
  {
    if v.Some? {
      IntTextPlain(v.value);
      PlainAppend(key, IntToString(v.value));
    }
  }

  lemma HeadPlain(it: Item)
    ensures Plain(HeadText(it))
  {
    var id := IntToString(it.typeId);
    IntTextPlain(it.typeId);
    AmountKeyPlain();
    ChargesKeyPlain();
    AttrTextPlain(" Amount=", it.amount);
    AttrTextPlain(" Charges=", it.charges);
    PlainAppend(id, AttrText(" Amount=", it.amount));
    PlainAppend(id + AttrText(" Amount=", it.amount), AttrText(" Charges=", it.charges));
  }

  // ---------------------------------------------------------------------------
  // Serialised items and lists are walked texts
  // ---------------------------------------------------------------------------

  /** The attribute keys hold no brace and no comma. */
  lemma AmountKeyPlain()
    ensures Plain(" Amount=")
  {
  }

  lemma ChargesKeyPlain()
    ensures Plain(" Charges=")
  {
  }

  lemma ContentKeyPlain()
    ensures Plain(" Content=")
  {
  }

  /** A list in braces is walked, and closes what it opens. */
  lemma WalkBraces(open: string, list: string)
    requires Walk(open, 0) && NetDepth(open) == 1 && Walk(list, 1) && NetDepth(list) == 0
    ensures Walk(open + list + "}", 0) && NetDepth(open + list + "}") == 0
  {
    WalkAppend(open, list, 0);
    WalkAppend(open + list, "}", 0);
  }

  /** A head and a braced list of children: walked from any depth. */
  lemma WalkContainer(head: string, key: string, list: string)
    requires Plain(head) && Plain(key) && Walk(list, 1) && NetDepth(list) == 0
    ensures Walk(head + (key + "{" + list + "}"), 0) && NetDepth(head + (key + "{" + list + "}")) == 0
  {
    PlainWalk(key, 0);
    WalkAppend(key, "{", 0);
    WalkBraces(key + "{", list);
    PlainWalk(head, 0);
    WalkAppend(head, key + "{" + list + "}", 0);
  }

  lemma {:induction false} ItemWalk(it: Item)
    ensures Walk(SerializeItem(it), 0) && NetDepth(SerializeItem(it)) == 0
    decreases it, 0
  {
    SerializeItemSplit(it);
    HeadPlain(it);
    if it.contents == [] {
      PlainWalk(HeadText(it), 0);
    } else {
      ListWalk(it.contents);
      ContentKeyPlain();
      assert " Content={" == " Content=" + "{";
      WalkContainer(HeadText(it), " Content=", SerializeList(it.contents));
    }
  }

  /** An item's text, a comma and more items: walked inside braces. */
  lemma WalkJoin(a: string, rest: string)
    requires Walk(a, 0) && NetDepth(a) == 0 && Walk(rest, 1) && NetDepth(rest) == 0
    ensures Walk(a + (", " + rest), 1) && NetDepth(a + (", " + rest)) == 0
  {
    WalkDeeper(a, 0, 1);
    WalkAppend(", ", rest, 1);
    WalkAppend(a, ", " + rest, 1);
  }

  lemma SerializeListCons(items: seq<Item>)
    requires |items| > 1
    ensures SerializeList(items) == SerializeItem(items[0]) + (", " + SerializeList(items[1..]))
  {
  }

  lemma {:induction false} ListWalk(items: seq<Item>)
    ensures Walk(SerializeList(items), 1) && NetDepth(SerializeList(items)) == 0
    decreases items, 1
  {
    if items != [] {
      ItemWalk(items[0]);
      if |items| == 1 {
        WalkDeeper(SerializeItem(items[0]), 0, 1);
      } else {
        ListWalk(items[1..]);
        SerializeListCons(items);
        WalkJoin(SerializeItem(items[0]), SerializeList(items[1..]));
      }
    }
  }

  // ---------------------------------------------------------------------------
  // Leaves: serialising then parsing gives the item back
  // ---------------------------------------------------------------------------

  /** A leaf whose numbers the parser reads back: none negative, none above
      the i32 range. */
  predicate ReadableLeaf(it: Item)
  {
    && it.contents == []
    && 0 <= it.typeId <= I32Max
    && (it.amount.Some? ==> 0 <= it.amount.value <= I32Max)
    && (it.charges.Some? ==> 0 <= it.charges.value <= I32Max)
  }

  /** A decimal number holds only digits. */
  lemma NatTextChars(n: nat, c: char)
    requires !IsAsciiDigit(c)
    ensures NoChar(NatToString(n), c)
  {
    NatToStringDigits(n);
  }

  /** The digit run at the front of `D + t` is `D` when `t` starts with no digit. */
  lemma DigitsFront(v: nat, t: string)
    requires t == [] || !IsAsciiDigit(t[0])
    ensures LeadingCount(NatToString(v) + t, IsAsciiDigit) == |NatToString(v)|
    ensures (NatToString(v) + t)[..|NatToString(v)|] == NatToString(v)
  {
    var d := NatToString(v);
    NatToStringDigits(v);
    if t == [] {
      LeadingCountAppend(d, t, IsAsciiDigit);
    } else {
      LeadingCountStops(d, t, IsAsciiDigit);
    }
  }

  lemma NatTextValue(v: nat)
    requires v <= I32Max
    ensures AllDigits(NatToString(v)) && ParseI32(NatToString(v)) == Some(v)
  {
    NatToStringValue(v);
  }

  /** `<key>=<digits>` at the front is matched, with the digits captured. */
  lemma AttrFront(key: string, v: nat, t: string)
    requires t == [] || !IsAsciiDigit(t[0])
    ensures AttrAtFront(key + "=" + NatToString(v) + t, key) == Some(NatToString(v))
  {
    var d := NatToString(v);
    var s := key + "=" + d + t;
    assert s[..|key|] == key;
    var a := s[|key|..];
    assert a == "=" + (d + t);
    assert a[1..] == d + t;
    NatToStringDigits(v);
    assert (d + t)[0] == d[0];
    DigitsFront(v, t);
  }

  /** No match of a key one of whose characters never occurs. */
  lemma {:induction false} FirstAttrNone(s: string, key: string, j: nat)
    requires j < |key| && NoChar(s, key[j])
    ensures FirstAttr(s, key) == None
  {
    if |key| <= |s| {
      assert s[..|key|][j] == s[j];
    }
    if s != [] {
      FirstAttrNone(s[1..], key, j);
    }
  }

  /** A prefix without the key's first character is passed over. */
  lemma {:induction false} FirstAttrSkip(p: string, s: string, key: string)
    requires key != [] && NoChar(p, key[0])
    ensures FirstAttr(p + s, key) == FirstAttr(s, key)
  {
    if p == [] {
      assert p + s == s;
    } else {
      if |key| <= |p + s| {
        assert (p + s)[..|key|][0] == p[0];
      }
      assert (p + s)[1..] == p[1..] + s;
      FirstAttrSkip(p[1..], s, key);
    }
  }

  /** The key texts, character by character. */
  lemma AmountKeyChars()
    ensures NoChar("Amount=", 'C') && NoChar("Amount=", 'h')
  {
  }

  lemma ChargesKeyChars()
    ensures NoChar("Charges=", 'A') && NoChar("Charges=", 'o')
  {
  }

  /** `Amount=<a>` holds no `C` and no `h`. */
  lemma AmountTextChars(a: nat)
    ensures NoChar("Amount=" + NatToString(a), 'C') && NoChar("Amount=" + NatToString(a), 'h')
  {
    AmountKeyChars();
    NatTextChars(a, 'C');
    NatTextChars(a, 'h');
    NoCharConcat("Amount=", NatToString(a), 'C');
    NoCharConcat("Amount=", NatToString(a), 'h');
  }

  /** `Charges=<c>` holds no `A` and no `o`. */
  lemma ChargesTextChars(c: nat)
    ensures NoChar("Charges=" + NatToString(c), 'A') && NoChar("Charges=" + NatToString(c), 'o')
  {
    ChargesKeyChars();
    NatTextChars(c, 'A');
    NatTextChars(c, 'o');
    NoCharConcat("Charges=", NatToString(c), 'A');
    NoCharConcat("Charges=", NatToString(c), 'o');
  }

  /** `<key>=<v>` followed by `t` gives the value `v`. */
  lemma AttrValueFront(key: string, v: nat, t: string)
    requires v <= I32Max && (t == [] || !IsAsciiDigit(t[0]))
    ensures AttrValue(key + "=" + NatToString(v) + t, key) == Some(v)
  {
    AttrFront(key, v, t);
    NatTextValue(v);
  }

  /** No `Content=` in text whose every `C` is missing or whose `o`s are. */
  lemma NoContent(p: string, q: string)
    requires NoChar(p, 'C') && NoChar(q, 'o')
    ensures NestedContent(p + q) == None
  {
    FindSkip(p, q, "Content=");
    NoMatchByChar(q, "Content=", 1);
  }

  /** The body of a leaf with an amount only. */
  lemma BodyAmount(id: int, a: nat)
    requires a <= I32Max
    ensures ParseBody(id, "Amount=" + NatToString(a)) == Ok(Item(id, Some(a), None, []))
  {
    var r := "Amount=" + NatToString(a);
    assert r == "Amount" + "=" + NatToString(a) + "";
    AttrValueFront("Amount", a, "");
    AmountTextChars(a);
    FirstAttrNone(r, "Charges", 1);
    assert r + "" == r;
    NoContent(r, "");
  }

  /** The body of a leaf with charges only. */
  lemma BodyCharges(id: int, c: nat)
    requires c <= I32Max
    ensures ParseBody(id, "Charges=" + NatToString(c)) == Ok(Item(id, None, Some(c), []))
  {
    var r := "Charges=" + NatToString(c);
    assert r == "Charges" + "=" + NatToString(c) + "";
    AttrValueFront("Charges", c, "");
    ChargesTextChars(c);
    FirstAttrNone(r, "Amount", 0);
    assert "" + r == r;
    NoContent("", r);
  }

  /** The body of a leaf with both an amount and charges. */
  lemma BodyBoth(id: int, a: nat, c: nat)
    requires a <= I32Max && c <= I32Max
    ensures ParseBody(id, "Amount=" + NatToString(a) + " " + ("Charges=" + NatToString(c)))
         == Ok(Item(id, Some(a), Some(c), []))
  {
    var p, q := "Amount=" + NatToString(a) + " ", "Charges=" + NatToString(c);
    BothAmount(a, q);
    BothRest(a, c);
    BodyOf(id, p + q, Some(a), Some(c));
  }

  /** A body without `Content=`: the item holds what the attributes say. */
  lemma BodyOf(id: int, r: string, amount: Option<int>, charges: Option<int>)
    requires r != [] && NestedContent(r) == None
    requires AttrValue(r, "Amount") == amount && AttrValue(r, "Charges") == charges
    ensures ParseBody(id, r) == Ok(Item(id, amount, charges, []))
  {
  }

  lemma BothAmount(a: nat, q: string)
    requires a <= I32Max
    ensures AttrValue("Amount=" + NatToString(a) + " " + q, "Amount") == Some(a)
  {
    assert "Amount=" + NatToString(a) + " " + q == "Amount" + "=" + NatToString(a) + (" " + q);
    AttrValueFront("Amount", a, " " + q);
  }

  lemma BothRest(a: nat, c: nat)
    requires c <= I32Max
    ensures var p, q := "Amount=" + NatToString(a) + " ", "Charges=" + NatToString(c);
      AttrValue(p + q, "Charges") == Some(c) && NestedContent(p + q) == None
  {
    var p, q := "Amount=" + NatToString(a) + " ", "Charges=" + NatToString(c);
    AmountPartLacksC(a);
    BothCharges(p, c);
    ChargesTextChars(c);
    NoContent(p, q);
  }

  lemma AmountPartLacksC(a: nat)
    ensures NoChar("Amount=" + NatToString(a) + " ", 'C')
  {
    AmountTextChars(a);
    NoCharConcat("Amount=" + NatToString(a), " ", 'C');
  }

  lemma BothCharges(p: string, c: nat)
    requires c <= I32Max && NoChar(p, 'C')
    ensures AttrValue(p + ("Charges=" + NatToString(c)), "Charges") == Some(c)
  {
    var q := "Charges=" + NatToString(c);
    FirstAttrSkip(p, q, "Charges");
    assert q == "Charges" + "=" + NatToString(c) + "";
    AttrValueFront("Charges", c, "");
  }

  /** Text that ends in a number ends in a character that is not whitespace. */
  lemma EndsInNumber(x: string, v: nat)
    ensures NotWhitespace((x + NatToString(v))[|x + NatToString(v)| - 1])
  {
    var d := NatToString(v);
    NatToStringDigits(v);
    assert (x + d)[|x + d| - 1] == d[|d| - 1];
  }

  /** A number alone is a leaf with that type id. */
  lemma ParseItemBare(v: nat)
    requires v <= I32Max
    ensures ParseItem(NatToString(v)) == Ok(Item(v, None, None, []))
  {
    var d := NatToString(v);
    NatToStringDigits(v);
    EndsInNumber([], v);
    assert [] + d == d;
    TrimNoop(d);
    DigitsFront(v, []);
    assert d + [] == d;
    NatTextValue(v);
    assert d[|d|..] == [];
  }

  /** A number, a space and a body: the type id and the parsed body. */
  lemma ParseItemHead(v: nat, r: string)
    requires v <= I32Max && r != [] && NotWhitespace(r[0]) && NotWhitespace(r[|r| - 1])
    ensures ParseItem(NatToString(v) + (" " + r)) == ParseBody(v, r)
  {
    var d := NatToString(v);
    var s := d + (" " + r);
    NatToStringDigits(v);
    assert s[0] == d[0] && s[|s| - 1] == r[|r| - 1];
    TrimNoop(s);
    DigitsFront(v, " " + r);
    NatTextValue(v);
    assert s[|d|..] == " " + r;
    TrimStartSpace(r);
    TrimNoop(r);
  }

  /** Round trip for leaves: a leaf whose numbers are in range parses back
      from its own serialisation. */
  lemma LeafRoundTrip(it: Item)
    requires ReadableLeaf(it)
    ensures ParseItem(SerializeItem(it)) == Ok(it)
  {
    match (it.amount, it.charges)
    case (None, None) =>
      assert SerializeItem(it) == NatToString(it.typeId);
      ParseItemBare(it.typeId);
    case (Some(a), None) => LeafAmount(it.typeId, a);
    case (None, Some(c)) => LeafCharges(it.typeId, c);
    case (Some(a), Some(c)) => LeafBoth(it.typeId, a, c);
  }

  lemma LeafAmount(v: nat, a: nat)
    requires v <= I32Max && a <= I32Max
    ensures ParseItem(SerializeItem(Item(v, Some(a), None, []))) == Ok(Item(v, Some(a), None, []))
  {
    var r := "Amount=" + NatToString(a);
    assert SerializeItem(Item(v, Some(a), None, [])) == NatToString(v) + (" " + r);
    EndsInNumber("Amount=", a);
    ParseItemHead(v, r);
    BodyAmount(v, a);
  }

  lemma LeafCharges(v: nat, c: nat)
    requires v <= I32Max && c <= I32Max
    ensures ParseItem(SerializeItem(Item(v, None, Some(c), []))) == Ok(Item(v, None, Some(c), []))
  {
    var r := "Charges=" + NatToString(c);
    assert SerializeItem(Item(v, None, Some(c), [])) == NatToString(v) + (" " + r);
    EndsInNumber("Charges=", c);
    ParseItemHead(v, r);
    BodyCharges(v, c);
  }

  lemma LeafBoth(v: nat, a: nat, c: nat)
    requires v <= I32Max && a <= I32Max && c <= I32Max
    ensures ParseItem(SerializeItem(Item(v, Some(a), Some(c), []))) == Ok(Item(v, Some(a), Some(c), []))
  {
    var r := "Amount=" + NatToString(a) + " " + ("Charges=" + NatToString(c));
    assert SerializeItem(Item(v, Some(a), Some(c), [])) == NatToString(v) + (" " + r);
    assert r == "Amount=" + NatToString(a) + " Charges=" + NatToString(c);
    EndsInNumber("Amount=" + NatToString(a) + " Charges=", c);
    ParseItemHead(v, r);
    BodyBoth(v, a, c);
  }
}
