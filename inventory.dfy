/**
 * The inventory item micro-language of a `.usr` player file:
 *
 *   2854 Content={2853, 3031 Amount=40, 3155 Charges=35}
 *
 * An item is a decimal type id followed by optional `Amount=`/`Charges=`
 * attributes and an optional `Content={...}` list of nested items. This module
 * holds the item tree, its serialisation, the grammar as specification
 * functions, and the two scanning methods of the source proved equal to them.
 */
module Inventory {
  import opened Wrappers
  import opened Strings

  /** `InventoryItem`: a type id, an optional stack amount, optional charges and
      the ordered contents of a container. */
  datatype Item = Item(typeId: int, amount: Option<int>, charges: Option<int>, contents: seq<Item>)

  /** The `DemonaxError::Parse` messages of the inventory code, one constructor each. */
  datatype ParseError =
    | InvalidSlotNumber(digits: string)
    | ExpectedContentMarker(pos: nat, found: string)
    | ExpectedOpenBrace
    | UnmatchedBraces
    | EmptyItem
    | MissingTypeId(content: string)
    | InvalidTypeId(digits: string)
    | SectionNotFound
    | UnmatchedSectionBraces

  /** Prefixes `xs` to a successful list result; an error passes through. */
  function Prepend<T>(xs: seq<T>, r: Result<seq<T>, ParseError>): Result<seq<T>, ParseError>
  {
    match r
    case Ok(ys) => Ok(xs + ys)
    case Err(e) => Err(e)
  }

  lemma PrependNil<T>(r: Result<seq<T>, ParseError>)
    ensures Prepend([], r) == r
  {
    if r.Ok? { assert [] + r.value == r.value; }
  }

  lemma PrependPrepend<T>(xs: seq<T>, ys: seq<T>, r: Result<seq<T>, ParseError>)
    ensures Prepend(xs, Prepend(ys, r)) == Prepend(xs + ys, r)
  {
    if r.Ok? { assert xs + (ys + r.value) == (xs + ys) + r.value; }
  }

  // ---------------------------------------------------------------------------
  // Serialisation
  // ---------------------------------------------------------------------------

  /** `InventoryItem::serialize`: type id, then ` Amount=`, ` Charges=` and
      ` Content={...}` (children joined by ", ") when present, in that order. */
  function SerializeItem(it: Item): string
    decreases it
  {
    IntToString(it.typeId) + AttrText(" Amount=", it.amount) + AttrText(" Charges=", it.charges)
    + (if it.contents != [] then " Content={" + SerializeList(it.contents) + "}" else "")
  }

  /** ` <Key>=<value>` when the value is present, nothing otherwise. */
  function AttrText(key: string, v: Option<int>): string
  {
    if v.Some? then key + IntToString(v.value) else ""
  }

  /** The children of a container, each serialised, joined by ", ". */
  function SerializeList(items: seq<Item>): string
    decreases items
  {
    if items == [] then ""
    else if |items| == 1 then SerializeItem(items[0])
    else SerializeItem(items[0]) + ", " + SerializeList(items[1..])
  }

  // ---------------------------------------------------------------------------
  // Brace matching
  // ---------------------------------------------------------------------------

  /** Net brace depth of `s`: the number of `{` minus the number of `}`. */
  function NetDepth(s: string): int
  {
    if s == [] then 0
    else (if s[0] == '{' then 1 else if s[0] == '}' then -1 else 0) + NetDepth(s[1..])
  }

  /** The brace balance of a concatenation is the sum of the parts' balances. */
  lemma {:induction false} NetDepthAppend(a: string, b: string)
    ensures NetDepth(a + b) == NetDepth(a) + NetDepth(b)
  {
    if a != [] {
      assert (a + b)[1..] == a[1..] + b;
      NetDepthAppend(a[1..], b);
    } else {
      assert a + b == b;
    }
  }

  /** Scanning `s` with `depth` braces already open, the number of characters
      before the `}` that closes the outermost of them, or `|s|` when none does.
      The three brace loops of the source all compute this. */
  function CloseLen(s: string, depth: nat): (n: nat)
    requires depth >= 1
    ensures n <= |s|
  {
    if s == [] then 0
    else if s[0] == '}' then (if depth == 1 then 0 else 1 + CloseLen(s[1..], depth - 1))
    else if s[0] == '{' then 1 + CloseLen(s[1..], depth + 1)
    else 1 + CloseLen(s[1..], depth)
  }

  /** The scan stops only on a closing brace. */
  lemma {:induction false} CloseLenAtBrace(s: string, depth: nat)
    requires depth >= 1
    ensures CloseLen(s, depth) < |s| ==> s[CloseLen(s, depth)] == '}'
  {
    if s != [] && !(s[0] == '}' && depth == 1) {
      var d := if s[0] == '{' then depth + 1 else if s[0] == '}' then depth - 1 else depth;
      CloseLenAtBrace(s[1..], d);
    }
  }

  /** CloseLen against the depth count: before the closing brace the depth never
      falls to zero, and at it the depth reaches zero exactly. */
  lemma {:induction false} CloseLenMatches(s: string, depth: nat, k: nat)
    requires depth >= 1
    requires k <= CloseLen(s, depth)
    ensures depth + NetDepth(s[..k]) >= 1
    ensures k == CloseLen(s, depth) < |s| ==> depth + NetDepth(s[..k + 1]) == 0
  {
    if k > 0 {
      assert s[..k][1..] == s[1..][..k - 1];
      if k < |s| { assert s[..k + 1][1..] == s[1..][..k]; }
      var d := if s[0] == '{' then depth + 1 else if s[0] == '}' then depth - 1 else depth;
      CloseLenMatches(s[1..], d, k - 1);
    } else if CloseLen(s, depth) == 0 < |s| {
      assert s[..1][0] == '}' && s[..1][1..] == [];
    }
  }

  /** Index of the `}` closing a `{` that ends just before index `from` (or |s|). */
  function CloseIndex(s: string, from: nat): (j: nat)
    requires from <= |s|
    ensures from <= j <= |s|
    ensures j < |s| ==> s[j] == '}'
  {
    CloseLenAtBrace(s[from..], 1);
    from + CloseLen(s[from..], 1)
  }

  /** The brace loop of `InventorySection::parse` and `parse_item`: starting just
      after an opening `{`, it stops on the matching `}` or at the end. */
  method ScanToClose(s: string, from: nat) returns (pos: nat, closed: bool)
    requires from <= |s|
    ensures pos == CloseIndex(s, from)
    ensures closed <==> pos < |s|
  {
    pos := from;
    var depth: nat := 1;
    while pos < |s| && depth > 0
      invariant from <= pos <= |s|
      invariant depth > 0 ==> CloseLen(s[from..], 1) == pos - from + CloseLen(s[pos..], depth)
      invariant depth == 0 ==> CloseLen(s[from..], 1) == pos - from && pos < |s|
    {
      assert s[pos..][1..] == s[pos + 1..];
      if s[pos] == '{' {
        depth := depth + 1;
      } else if s[pos] == '}' {
        depth := depth - 1;
      }
      if depth > 0 {
        pos := pos + 1;
      }
    }
    closed := depth == 0;
  }

  // ---------------------------------------------------------------------------
  // Attributes: the regexes `Amount\s*=\s*(\d+)` and `Charges\s*=\s*(\d+)`
  // ---------------------------------------------------------------------------

  /** The digits captured by `<key>\s*=\s*(\d+)` when a match starts at the
      front of `s`. */
  function AttrAtFront(s: string, key: string): (r: Option<string>)
    ensures r.Some? ==> r.value != [] && AllDigits(r.value)
  {
    if !StartsWith(s, key) then None
    else
      var a := TrimStart(s[|key|..]);
      if a == [] || a[0] != '=' then None
      else
        var b := TrimStart(a[1..]);
        var n := LeadingCount(b, IsAsciiDigit);
        LeadingCountSpec(b, IsAsciiDigit);
        if n == 0 then None else Some(b[..n])
  }

  /** The capture of the leftmost match of `<key>\s*=\s*(\d+)` anywhere in `s`. */
  function FirstAttr(s: string, key: string): (r: Option<string>)
    ensures r.Some? ==> r.value != [] && AllDigits(r.value)
  {
    match AttrAtFront(s, key)
    case Some(d) => Some(d)
    case None => if s == [] then None else FirstAttr(s[1..], key)
  }

  /** `caps.get(1).and_then(|m| m.as_str().parse().ok())`: the attribute's value,
      absent when there is no match or the digits overflow an i32. */
  function AttrValue(s: string, key: string): (r: Option<int>)
    ensures r.Some? ==> 0 <= r.value <= I32Max
  {
    match FirstAttr(s, key)
    case None => None
    case Some(d) => ParseI32(d)
  }

  // ---------------------------------------------------------------------------
  // The item grammar (`parse_item`, `parse_item_list`)
  // ---------------------------------------------------------------------------

  /** The text inside the braces after the first `Content=` of `rest`, when a
      `{` follows it (after whitespace). An unbalanced `{` runs to the end of
      the text: `parse_item` does not report it. */
  function NestedContent(rest: string): (r: Option<string>)
    ensures r.Some? ==> |r.value| < |rest|
  {
    match Find(rest, "Content=")
    case None => None
    case Some(i) =>
      var after := Trim(rest[i + 8..]);
      if after == [] || after[0] != '{' then None
      else Some(after[1..CloseIndex(after, 1)])
  }

  /** The summed length of some fragments. */
  function TotalLen(frags: seq<string>): nat
  {
    if frags == [] then 0 else |frags[0]| + TotalLen(frags[1..])
  }

  /** The fragments of a content list: split at the commas met at brace depth
      0, scanning with `depth` braces open and `cur` already collected. */
  function Fragments(s: string, depth: int, cur: string): (r: seq<string>)
    ensures |r| >= 1
    ensures TotalLen(r) <= |cur| + |s|
  {
    if s == [] then [cur]
    else if s[0] == '{' then Fragments(s[1..], depth + 1, cur + [s[0]])
    else if s[0] == '}' then Fragments(s[1..], depth - 1, cur + [s[0]])
    else if s[0] == ',' && depth == 0 then [cur] + Fragments(s[1..], depth, [])
    else Fragments(s[1..], depth, cur + [s[0]])
  }

  /** `parse_item`: a leading digit run is the type id; what follows it is
      the item's body. */
  function ParseItem(content: string): (r: Result<Item, ParseError>)
    decreases |content|, 0, 0
  {
    var c := Trim(content);
    if c == [] then Err(EmptyItem)
    else
      var n := LeadingCount(c, IsAsciiDigit);
      if n == 0 then Err(MissingTypeId(c))
      else
        match ParseI32(c[..n])
        case None => Err(InvalidTypeId(c[..n]))
        case Some(id) => ParseBody(id, Trim(c[n..]))
  }

  /** The body after the type id: `Amount=`/`Charges=` are looked up anywhere
      in it, and the first `Content=` gives the children. */
  function ParseBody(id: int, rest: string): (r: Result<Item, ParseError>)
    decreases |rest|, 1, 0
  {
    if rest == [] then Ok(Item(id, None, None, []))
    else
      var base := Item(id, AttrValue(rest, "Amount"), AttrValue(rest, "Charges"), []);
      match NestedContent(rest)
      case None => Ok(base)
      case Some(inner) => WithContents(base, ParseItemList(inner))
  }

  /** The item with the parsed children, or the children's error. */
  function WithContents(base: Item, children: Result<seq<Item>, ParseError>): Result<Item, ParseError>
  {
    match children
    case Err(e) => Err(e)
    case Ok(cs) => Ok(base.(contents := cs))
  }

  /** `parse_item_list`: the non-blank fragments, each parsed as an item. */
  function ParseItemList(content: string): (r: Result<seq<Item>, ParseError>)
    decreases |content|, 2, 0
  {
    var c := Trim(content);
    if c == [] then Ok([]) else ParseFragments(Fragments(c, 0, []))
  }

  /** Parses each non-blank fragment in order; the first failure wins. */
  function ParseFragments(frags: seq<string>): (r: Result<seq<Item>, ParseError>)
    decreases TotalLen(frags), 1, |frags|
  {
    if frags == [] then Ok([])
    else
      var t := Trim(frags[0]);
      if t == [] then ParseFragments(frags[1..])
      else
        match ParseItem(t)
        case Err(e) => Err(e)
        case Ok(it) => Prepend([it], ParseFragments(frags[1..]))
  }

  // ---------------------------------------------------------------------------
  // The scanning code of the source
  // ---------------------------------------------------------------------------

  /** The nested list `NestedContent` finds, from the pieces the scan computes. */
  lemma NestedContentFound(rest: string, i: nat, after: string, endPos: nat)
    requires Find(rest, "Content=") == Some(i)
    requires after == Trim(rest[i + 8..]) && after != [] && after[0] == '{'
    requires endPos == CloseIndex(after, 1)
    ensures NestedContent(rest) == Some(after[1..endPos])
  {
  }

  /** `parse_item` as the source writes it: the digit loop for the type id,
      then the body. */
  method ParseItemScan(content: string) returns (r: Result<Item, ParseError>)
    ensures r == ParseItem(content)
    decreases |content|, 0, 0
  {
    var c := Trim(content);
    if c == [] {
      return Err(EmptyItem);
    }
    var pos := 0;
    while pos < |c| && IsAsciiDigit(c[pos])
      invariant 0 <= pos <= |c|
      invariant forall k :: 0 <= k < pos ==> IsAsciiDigit(c[k])
    {
      pos := pos + 1;
    }
    LeadingCountIs(c, IsAsciiDigit, pos);
    if pos == 0 {
      return Err(MissingTypeId(c));
    }
    var parsed := ParseI32(c[..pos]);
    if parsed.None? {
      return Err(InvalidTypeId(c[..pos]));
    }
    r := ParseBodyScan(parsed.value, Trim(c[pos..]));
  }

  /** The rest of `parse_item`: the two attribute regexes, `find("Content=")`
      and the brace loop that delimits the nested list. */
  method ParseBodyScan(id: int, rest: string) returns (r: Result<Item, ParseError>)
    ensures r == ParseBody(id, rest)
    decreases |rest|, 1, 0
  {
    var item := Item(id, None, None, []);
    if rest == [] {
      return Ok(item);
    }
    item := item.(amount := AttrValue(rest, "Amount"), charges := AttrValue(rest, "Charges"));
    var found := Find(rest, "Content=");
    if found.Some? {
      var after := Trim(rest[found.value + 8..]);
      if after != [] && after[0] == '{' {
        var endPos, _ := ScanToClose(after, 1);
        var nested := after[1..endPos];
        NestedContentFound(rest, found.value, after, endPos);
        var children := ParseItemListScan(nested);
        if children.Err? {
          return Err(children.error);
        }
        return Ok(item.(contents := children.value));
      }
    }
    return Ok(item);
  }

  /** A fragment that has ended: parsed and put before the rest, unless blank. */
  function Flush(cur: string, rest: Result<seq<Item>, ParseError>): Result<seq<Item>, ParseError>
  {
    var t := Trim(cur);
    if t == [] then rest
    else
      match ParseItem(t)
      case Err(e) => Err(e)
      case Ok(it) => Prepend([it], rest)
  }

  /** What is left to parse of a content list `c` from index `i`, with
      `depth` braces open and `cur` collected: the scan of the source, one
      character at a time. */
  ghost function Pending(c: string, i: nat, depth: int, cur: string): Result<seq<Item>, ParseError>
    requires i <= |c|
    decreases |c| - i
  {
    if i == |c| then Flush(cur, Ok([]))
    else if c[i] == ',' && depth == 0 then Flush(cur, Pending(c, i + 1, 0, []))
    else Pending(c, i + 1, if c[i] == '{' then depth + 1 else if c[i] == '}' then depth - 1 else depth, cur + [c[i]])
  }

  lemma FragmentsChar(c: string, i: nat, depth: int, cur: string)
    requires i < |c| && !(c[i] == ',' && depth == 0)
    ensures Fragments(c[i..], depth, cur)
         == Fragments(c[i + 1..], if c[i] == '{' then depth + 1 else if c[i] == '}' then depth - 1 else depth, cur + [c[i]])
  {
    assert c[i..][1..] == c[i + 1..];
  }

  lemma FragmentsComma(c: string, i: nat, cur: string)
    requires i < |c| && c[i] == ','
    ensures ParseFragments(Fragments(c[i..], 0, cur)) == Flush(cur, ParseFragments(Fragments(c[i + 1..], 0, [])))
  {
    assert c[i..][1..] == c[i + 1..];
    var frags := Fragments(c[i + 1..], 0, []);
    assert Fragments(c[i..], 0, cur) == [cur] + frags;
    assert ([cur] + frags)[1..] == frags;
  }

  lemma FragmentsEnd(c: string, depth: int, cur: string)
    ensures ParseFragments(Fragments(c[|c|..], depth, cur)) == Flush(cur, Ok([]))
  {
    assert c[|c|..] == [];
    assert Fragments([], depth, cur) == [cur];
    assert [cur][1..] == [];
    assert ParseFragments([]) == Ok([]);
  }

  /** The scan and the split-then-parse definition agree from every index on. */
  lemma {:induction false} PendingFragments(c: string, i: nat, depth: int, cur: string)
    requires i <= |c|
    ensures Pending(c, i, depth, cur) == ParseFragments(Fragments(c[i..], depth, cur))
    decreases |c| - i
  {
    if i == |c| {
      FragmentsEnd(c, depth, cur);
    } else if c[i] == ',' && depth == 0 {
      PendingFragments(c, i + 1, 0, []);
      FragmentsComma(c, i, cur);
    } else {
      PendingFragments(c, i + 1, if c[i] == '{' then depth + 1 else if c[i] == '}' then depth - 1 else depth, cur + [c[i]]);
      FragmentsChar(c, i, depth, cur);
    }
  }

  /** The whole list is what is left to parse from index 0. */
  lemma PendingStart(content: string)
    requires Trim(content) != []
    ensures ParseItemList(content) == Pending(Trim(content), 0, 0, [])
  {
    var c := Trim(content);
    PendingFragments(c, 0, 0, []);
    assert c[0..] == c;
  }

  /** `parse_item_list` as the source writes it: one pass over the characters
      with a brace counter, flushing the collected fragment at each comma met
      at depth 0 and once more at the end. */
  method ParseItemListScan(content: string) returns (r: Result<seq<Item>, ParseError>)
    ensures r == ParseItemList(content)
    decreases |content|, 2, 0
  {
    var c := Trim(content);
    if c == [] {
      return Ok([]);
    }
    var items: seq<Item> := [];
    var cur: string := [];
    var depth: int := 0;
    var i := 0;
    PendingStart(content);
    PrependNil(Pending(c, 0, 0, []));
    while i < |c|
      invariant 0 <= i <= |c| && |cur| <= i
      invariant ParseItemList(content) == Prepend(items, Pending(c, i, depth, cur))
    {
      var ch := c[i];
      if ch == ',' && depth == 0 {
        var t := Trim(cur);
        if t != [] {
          var parsed := ParseItemScan(t);
          if parsed.Err? {
            return Err(parsed.error);
          }
          PrependPrepend(items, [parsed.value], Pending(c, i + 1, 0, []));
          items := items + [parsed.value];
        }
        cur := [];
      } else {
        if ch == '{' {
          depth := depth + 1;
        } else if ch == '}' {
          depth := depth - 1;
        }
        cur := cur + [ch];
      }
      i := i + 1;
    }
    var t := Trim(cur);
    if t != [] {
      var parsed := ParseItemScan(t);
      if parsed.Err? {
        return Err(parsed.error);
      }
      PrependPrepend(items, [parsed.value], Ok([]));
      items := items + [parsed.value];
    }
    assert items + [] == items;
    return Ok(items);
  }
}
