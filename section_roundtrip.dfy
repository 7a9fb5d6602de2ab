/**
 * Reading a section back. The slot list `InventorySection::serialize` writes
 * between the section braces parses without error to one slot per slot
 * written, with the same numbers in the same order, whenever every slot
 * number is a non-negative i32 and every item's type ids are too
 * (SoundSlots); the slots are exactly the same when every item is one the
 * item parser reads back (NestedRoundTrip.Readable). A negative first slot
 * number makes the whole list read as empty. Also here: blank section text,
 * the end of the slot list, and what `parse_item` makes of its leading digits.
 */
module SectionRoundTrip {
  import opened Wrappers
  import opened Strings
  import opened Inventory
  import opened ItemRoundTrip
  import opened NestedRoundTrip
  import opened InventorySections

  // ---------------------------------------------------------------------------
  // Blank text, the end of the list, the type id
  // ---------------------------------------------------------------------------

  /** Empty or whitespace-only section text is an inventory with no slots. */
  lemma {:induction false} ParseBlank(text: string)
    requires forall k :: 0 <= k < |text| ==> IsWhitespace(text[k])
    ensures ParseSlots(text) == Ok([])
  {
    TrimEnds(text);
  }

  /** Where the next slot should start, a run of separators followed by the
      end of the text or by a character that is neither a separator nor a
      digit ends the slot list without an error. */
  lemma {:induction false} SlotsStop(c: string, pos: nat, stop: nat)
    requires pos <= stop <= |c|
    requires forall k :: pos <= k < stop ==> IsSeparator(c[k])
    requires stop == |c| || (!IsSeparator(c[stop]) && !IsAsciiDigit(c[stop]))
    ensures SlotsFrom(c, pos) == Ok([])
  {
    SkipWhileIs(c, pos, IsSeparator, stop);
  }

  /** `parse_item` rejects blank text. */
  lemma {:induction false} ParseItemBlank(content: string)
    requires forall k :: 0 <= k < |content| ==> IsWhitespace(content[k])
    ensures ParseItem(content) == Err(EmptyItem)
  {
    TrimEnds(content);
  }

  /** `parse_item` rejects text that does not start with a digit. */
  lemma {:induction false} ParseItemNoDigit(content: string)
    requires Trim(content) != [] && !IsAsciiDigit(Trim(content)[0])
    ensures ParseItem(content) == Err(MissingTypeId(Trim(content)))
  {
  }

  /** The body never changes the type id it is given. */
  lemma {:induction false} ParseBodyKeepsId(id: int, rest: string)
    requires ParseBody(id, rest).Ok?
    ensures ParseBody(id, rest).value.typeId == id
  {
  }

  /** When `parse_item` succeeds, the type id is the value of the whole
      leading digit run of the trimmed text. */
  lemma {:induction false} ParseItemTypeId(content: string)
    requires ParseItem(content).Ok?
    ensures var c := Trim(content);
      var n := LeadingCount(c, IsAsciiDigit);
      && 0 < n <= |c| && AllDigits(c[..n]) && (n == |c| || !IsAsciiDigit(c[n]))
      && ParseI32(c[..n]) == Some(ParseItem(content).value.typeId)
  {
    var c := Trim(content);
    var n := LeadingCount(c, IsAsciiDigit);
    LeadingCountSpec(c, IsAsciiDigit);
    ParseBodyKeepsId(ParseI32(c[..n]).value, Trim(c[n..]));
  }

  // ---------------------------------------------------------------------------
  // Slicing helpers
  // ---------------------------------------------------------------------------

  lemma {:induction false} DropConcat(c: string, pos: nat, a: string, b: string)
    requires pos <= |c| && c[pos..] == a + b
    ensures pos + |a| <= |c| && c[pos + |a|..] == b
  {
    assert c[pos + |a|..] == (a + b)[|a|..];
  }

  lemma {:induction false} TakeConcat(c: string, pos: nat, a: string, b: string)
    requires pos <= |c| && c[pos..] == a + b
    ensures pos + |a| <= |c| && c[pos..pos + |a|] == a
  {
    assert c[pos..pos + |a|] == (a + b)[..|a|];
  }

  lemma {:induction false} FrontOf(c: string, pos: nat, a: string, b: string)
    requires pos <= |c| && c[pos..] == a + b && a != []
    ensures pos < |c| && c[pos] == a[0]
  {
    assert c[pos..][0] == c[pos];
  }

  lemma {:induction false} StartsWithConcat(a: string, b: string)
    ensures StartsWith(a + b, a)
  {
    assert (a + b)[..|a|] == a;
  }

  // ---------------------------------------------------------------------------
  // The text of one slot
  // ---------------------------------------------------------------------------

  /** The slot list `serialize` puts between `Inventory   = {` and `}`. */
  function SlotList(xs: seq<Slot>): string
  {
    Join(SlotTexts(xs), SlotSeparator)
  }

  /** Slots that read back: a non-negative i32 slot number and a readable item. */
  predicate ReadableSlots(xs: seq<Slot>)
  {
    forall i :: 0 <= i < |xs| ==> 0 <= xs[i].number <= I32Max && Readable(xs[i].item)
  }

  /** Slots whose text parses: a non-negative i32 slot number and a
      well-typed item. */
  predicate SoundSlots(xs: seq<Slot>)
  {
    forall i :: 0 <= i < |xs| ==> 0 <= xs[i].number <= I32Max && WellTyped(xs[i].item)
  }

  lemma SoundTail(xs: seq<Slot>)
    requires xs != [] && SoundSlots(xs)
    ensures SoundSlots(xs[1..])
  {
    forall i | 0 <= i < |xs[1..]|
      ensures 0 <= xs[1..][i].number <= I32Max && WellTyped(xs[1..][i].item)
    {
      assert xs[1..][i] == xs[i + 1];
    }
  }

  /** A slot as it is read back: its number, and what the item parser reads
      from its item's text. */
  function RereadSlot(x: Slot): (r: Slot)
    requires WellTyped(x.item)
    ensures r.number == x.number && SameShape(r.item, x.item)
  {
    Slot(x.number, Reread(x.item))
  }

  function RereadSlots(xs: seq<Slot>): (r: seq<Slot>)
    requires SoundSlots(xs)
    ensures |r| == |xs|
  {
    if xs == [] then []
    else
      SoundTail(xs);
      [RereadSlot(xs[0])] + RereadSlots(xs[1..])
  }

  /** Reading back keeps every slot number, in order, and every item's type
      ids at every depth. */
  lemma {:induction false} RereadSlotsSpec(xs: seq<Slot>)
    requires SoundSlots(xs)
    ensures forall i :: 0 <= i < |xs| ==>
      RereadSlots(xs)[i].number == xs[i].number && SameShape(RereadSlots(xs)[i].item, xs[i].item)
  {
    if xs != [] {
      SoundTail(xs);
      RereadSlotsSpec(xs[1..]);
      var r := RereadSlots(xs);
      assert r == [RereadSlot(xs[0])] + RereadSlots(xs[1..]);
      forall i | 1 <= i < |xs|
        ensures r[i].number == xs[i].number && SameShape(r[i].item, xs[i].item)
      {
        assert r[i] == RereadSlots(xs[1..])[i - 1] && xs[i] == xs[1..][i - 1];
      }
    }
  }

  /** So a slot number is occupied after reading back exactly when it was
      before. */
  lemma RereadSlotFree(xs: seq<Slot>, n: int)
    requires SoundSlots(xs)
    ensures SlotFree(RereadSlots(xs), n) <==> SlotFree(xs, n)
  {
    RereadSlotsSpec(xs);
  }

  /** Readable slots read back as themselves. */
  lemma {:induction false} RereadSlotsReadable(xs: seq<Slot>)
    requires ReadableSlots(xs)
    ensures SoundSlots(xs) && RereadSlots(xs) == xs
  {
    ReadableSound(xs);
    if xs != [] {
      RereadReadable(xs[0].item);
      var ys := xs[1..];
      assert ReadableSlots(ys) by {
        forall i | 0 <= i < |ys|
          ensures 0 <= ys[i].number <= I32Max && Readable(ys[i].item)
        {
          assert ys[i] == xs[i + 1];
        }
      }
      RereadSlotsReadable(ys);
      assert xs == [xs[0]] + ys;
    }
  }

  lemma ReadableSound(xs: seq<Slot>)
    requires ReadableSlots(xs)
    ensures SoundSlots(xs)
  {
    forall i | 0 <= i < |xs|
      ensures WellTyped(xs[i].item)
    {
      ReadableWellTyped(xs[i].item);
    }
  }

  /** Every slot list `parse` returns is sound: slot numbers come from the
      `i32` parse of a digit run and items from `parse_item`. */
  lemma {:induction false} ParsedSound(text: string)
    ensures ParseSlots(text).Ok? ==> SoundSlots(ParseSlots(text).value)
  {
    var c := Trim(text);
    if c != [] {
      SlotsFromSound(c, 0);
    }
  }

  lemma {:induction false} SlotsFromSound(c: string, pos: nat)
    requires pos <= |c|
    ensures SlotsFrom(c, pos).Ok? ==> SoundSlots(SlotsFrom(c, pos).value)
    decreases |c| - pos
  {
    var p1 := SkipWhile(c, pos, IsSeparator);
    if p1 == |c| || SkipWhile(c, p1, IsAsciiDigit) == p1 {
      SlotsFromEnd(c, pos, p1);
    } else {
      SlotsFromStep(c, pos, p1);
      if SlotAt(c, p1).Ok? {
        var (n, start, close) := SlotAt(c, p1).value;
        SlotsAtOk(c, p1, n, start, close);
        SlotsFromSound(c, close + 1);
        var item := ParseItem(c[start..close]);
        if item.Ok? && SlotsFrom(c, close + 1).Ok? {
          ParsedWellTyped(c[start..close]);
          var rest := SlotsFrom(c, close + 1).value;
          assert SlotsFrom(c, pos) == Ok([Slot(n, item.value)] + rest);
          SoundCons(Slot(n, item.value), rest);
        }
      } else {
        SlotsAtErr(c, p1);
      }
    }
  }

  lemma SoundCons(x: Slot, ys: seq<Slot>)
    requires 0 <= x.number <= I32Max && WellTyped(x.item) && SoundSlots(ys)
    ensures SoundSlots([x] + ys)
  {
    forall i | 1 <= i < |ys| + 1
      ensures 0 <= ([x] + ys)[i].number <= I32Max && WellTyped(([x] + ys)[i].item)
    {
      assert ([x] + ys)[i] == ys[i - 1];
    }
  }

  /** `set_slot` with an in-range number and a well-typed item keeps a list
      sound. */
  lemma SetSlotSound(xs: seq<Slot>, n: int, item: Item)
    requires SoundSlots(xs) && 0 <= n <= I32Max && WellTyped(item)
    ensures SoundSlots(SetSlotResult(xs, n, item))
  {
    var r := SetSlotResult(xs, n, item);
    SetSlotSpec(xs, n, item);
    forall k | 0 <= k < |r|
      ensures 0 <= r[k].number <= I32Max && WellTyped(r[k].item)
    {
      assert r[k] in multiset(r);
      if r[k] != Slot(n, item) {
        assert r[k] in multiset(xs);
        var j :| 0 <= j < |xs| && xs[j] == r[k];
      }
    }
  }

  lemma {:induction false} OpenLiteral()
    ensures " Content={" == " " + ("Content=" + "{")
  {
  }

  lemma {:induction false} CharFacts()
    ensures NotWhitespace('C') && !IsAsciiDigit(' ') && IsWhitespace(' ') && NotWhitespace('{')
  {
  }

  /** A slot's text followed by `tail`, grouped as the parser reads it. */
  lemma {:induction false} SlotTextParts(x: Slot, tail: string)
    ensures SlotText(x) + tail
         == IntToString(x.number) + (" " + ("Content=" + ("{" + (SerializeItem(x.item) + ("}" + tail)))))
  {
    var d, s := IntToString(x.number), SerializeItem(x.item);
    OpenLiteral();
    var r := s + ("}" + tail);
    assert SlotText(x) + tail == ((d + " Content={") + s + "}") + tail;
    Assoc((d + " Content={") + s, "}", tail);
    Assoc(d + " Content={", s, "}" + tail);
    Assoc(d, " Content={", r);
    Assoc(" ", "Content=" + "{", r);
    Assoc("Content=", "{", r);
  }

  /** The slot number: a digit run ended by the space before `Content=`. */
  lemma {:induction false} SlotNumberAt(c: string, pos: nat, d: string, n: int, rest: string, p2: nat)
    requires d != [] && AllDigits(d) && ParseI32(d) == Some(n) && pos <= |c| && p2 == pos + |d|
    requires c[pos..] == d + (" " + rest) && rest != [] && NotWhitespace(rest[0])
    ensures && p2 + 1 <= |c|
      && SkipWhile(c, pos, IsSeparator) == pos
      && SkipWhile(c, pos, IsAsciiDigit) == p2
      && c[pos..p2] == d
      && SkipWhile(c, p2, IsWhitespace) == p2 + 1
      && c[p2 + 1..] == rest
  {
    CharFacts();
    TakeConcat(c, pos, d, " " + rest);
    DropConcat(c, pos, d, " " + rest);
    DropConcat(c, pos + |d|, " ", rest);
    FrontOf(c, pos, d, " " + rest);
    FrontOf(c, pos + |d|, " ", rest);
    FrontOf(c, pos + |d| + 1, rest, []);
    forall k | pos <= k < pos + |d|
      ensures IsAsciiDigit(c[k])
    {
      assert c[k] == c[pos..pos + |d|][k - pos];
    }
    SkipWhileIs(c, pos, IsAsciiDigit, pos + |d|);
    SkipWhileIs(c, pos + |d|, IsWhitespace, pos + |d| + 1);
  }

  /** After the marker comes the `{` (no whitespace in between). */
  lemma {:induction false} MarkerFacts(c: string, p3: nat, r: string)
    requires p3 <= |c| && c[p3..] == "Content=" + r && r != [] && r[0] == '{'
    ensures p3 + 8 <= |c| && StartsWith(c[p3..], "Content=")
    ensures c[p3 + 8..] == r && SkipWhile(c, p3 + 8, IsWhitespace) == p3 + 8
  {
    StartsWithConcat("Content=", r);
    DropConcat(c, p3, "Content=", r);
    FrontOf(c, p3 + 8, r, []);
    CharFacts();
    SkipWhileIs(c, p3 + 8, IsWhitespace, p3 + 8);
  }

  /** The braced text `{<s>}` at `p4`, where the closing brace of `s` is the
      one after it. */
  lemma {:induction false} BracedLayout(c: string, p4: nat, start: nat, s: string, tail: string)
    requires p4 <= |c| && start == p4 + 1 && c[p4..] == "{" + (s + ("}" + tail))
    requires CloseLen(s + ("}" + tail), 1) == |s|
    ensures start + |s| < |c| && c[p4] == '{'
    ensures CloseIndex(c, start) == start + |s| && c[start..start + |s|] == s
  {
    FrontOf(c, p4, "{", s + ("}" + tail));
    DropConcat(c, p4, "{", s + ("}" + tail));
    TakeConcat(c, start, s, "}" + tail);
  }

  // ---------------------------------------------------------------------------
  // Reading one slot, stage by stage
  // ---------------------------------------------------------------------------

  /** The `{` at `p4` and the `}` matching it at `close`. */
  lemma {:induction false} BracedRead(c: string, n: int, p4: nat, close: nat)
    requires p4 < close < |c| && c[p4] == '{' && CloseIndex(c, p4 + 1) == close
    ensures BracedAt(c, n, p4) == Ok((n, p4 + 1, close))
  {
  }

  /** The marker at `p3`, directly followed by the braces. */
  lemma {:induction false} ContentRead(c: string, n: int, p3: nat, close: nat)
    requires p3 + 8 <= |c| && StartsWith(c[p3..], "Content=")
    requires SkipWhile(c, p3 + 8, IsWhitespace) == p3 + 8
    requires BracedAt(c, n, p3 + 8) == Ok((n, p3 + 9, close))
    ensures ContentAt(c, n, p3) == Ok((n, p3 + 9, close))
  {
  }

  /** The slot number in `pos..p2`, one space, then the marker. */
  lemma {:induction false} SlotRead(c: string, pos: nat, p2: nat, n: int, close: nat)
    requires pos < p2 < |c| && SkipWhile(c, pos, IsAsciiDigit) == p2
    requires AllDigits(c[pos..p2]) && ParseI32(c[pos..p2]) == Some(n)
    requires SkipWhile(c, p2, IsWhitespace) == p2 + 1
    requires ContentAt(c, n, p2 + 1) == Ok((n, p2 + 10, close))
    ensures SlotAt(c, pos) == Ok((n, p2 + 10, close))
  {
  }

  /** A slot read at `pos`, with no separator before it, heads the list. */
  lemma {:induction false} SlotsFromRead(c: string, pos: nat, n: int, start: nat, close: nat, s: string, it: Item)
    requires pos < start <= close < |c|
    requires SkipWhile(c, pos, IsSeparator) == pos && SkipWhile(c, pos, IsAsciiDigit) != pos
    requires SlotAt(c, pos) == Ok((n, start, close)) && c[start..close] == s && ParseItem(s) == Ok(it)
    ensures SlotsFrom(c, pos) == Prepend([Slot(n, it)], SlotsFrom(c, close + 1))
  {
    SlotsFromStep(c, pos, pos);
    SlotsAtOk(c, pos, n, start, close);
  }

  /** What the slot parser needs of an item's text: its closing brace is found
      after it, and it reads back as `Reread(it)`. */
  lemma {:induction false} ItemTextFacts(it: Item, tail: string)
    requires WellTyped(it)
    ensures CloseLen(SerializeItem(it) + ("}" + tail), 1) == |SerializeItem(it)|
    ensures ParseItem(SerializeItem(it)) == Ok(Reread(it))
  {
    ItemWalk(it);
    CloseLenWalk(SerializeItem(it), "}" + tail, 1, 0);
    assert CloseLen("}" + tail, 1) == 0;
    ItemReads(it);
  }

  /** The marker and the braced item after the slot number. */
  lemma {:induction false} MarkedItemAt(c: string, p2: nat, n: int, s: string, tail: string)
    requires p2 < |c| && c[p2 + 1..] == "Content=" + ("{" + (s + ("}" + tail)))
    requires CloseLen(s + ("}" + tail), 1) == |s|
    ensures p2 + 10 + |s| < |c|
    ensures ContentAt(c, n, p2 + 1) == Ok((n, p2 + 10, p2 + 10 + |s|))
    ensures c[p2 + 10..p2 + 10 + |s|] == s
  {
    MarkedItemFrom(c, p2 + 1, n, s, tail, p2 + 10, p2 + 10 + |s|);
  }

  /** The same, with the marker's position `p3`, the item's start and its
      closing brace named. */
  lemma {:induction false} MarkedItemFrom(c: string, p3: nat, n: int, s: string, tail: string, start: nat, close: nat)
    requires p3 <= |c| && c[p3..] == "Content=" + ("{" + (s + ("}" + tail)))
    requires CloseLen(s + ("}" + tail), 1) == |s|
    requires start == p3 + 9 && close == start + |s|
    ensures close < |c|
    ensures ContentAt(c, n, p3) == Ok((n, start, close))
    ensures c[start..close] == s
  {
    MarkerFacts(c, p3, "{" + (s + ("}" + tail)));
    BracedLayout(c, p3 + 8, start, s, tail);
    BracedRead(c, n, p3 + 8, close);
    ContentRead(c, n, p3, close);
  }

  /** What the slot parser looks at when the text of one slot,
      `<d> Content={<s>}`, starts at `pos`. */
  lemma {:induction false} SlotFacts(c: string, pos: nat, d: string, n: int, s: string, tail: string, p2: nat)
    requires d != [] && AllDigits(d) && ParseI32(d) == Some(n) && pos <= |c| && p2 == pos + |d|
    requires c[pos..] == d + (" " + ("Content=" + ("{" + (s + ("}" + tail)))))
    requires CloseLen(s + ("}" + tail), 1) == |s|
    ensures pos < p2 && p2 + 10 + |s| < |c|
    ensures SkipWhile(c, pos, IsSeparator) == pos && SkipWhile(c, pos, IsAsciiDigit) == p2
    ensures AllDigits(c[pos..p2]) && ParseI32(c[pos..p2]) == Some(n)
    ensures SkipWhile(c, p2, IsWhitespace) == p2 + 1
    ensures ContentAt(c, n, p2 + 1) == Ok((n, p2 + 10, p2 + 10 + |s|))
    ensures c[p2 + 10..p2 + 10 + |s|] == s
  {
    SlotNumberAt(c, pos, d, n, "Content=" + ("{" + (s + ("}" + tail))), p2);
    MarkedItemAt(c, p2, n, s, tail);
  }

  /** A slot whose parts are where `SlotFacts` puts them heads the list. */
  lemma {:induction false} SlotHeadRead(c: string, pos: nat, p2: nat, n: int, close: nat, s: string, it: Item, next: nat)
    requires pos < p2 && p2 + 10 <= close < |c| && next == close + 1
    requires SkipWhile(c, pos, IsSeparator) == pos && SkipWhile(c, pos, IsAsciiDigit) == p2
    requires AllDigits(c[pos..p2]) && ParseI32(c[pos..p2]) == Some(n)
    requires SkipWhile(c, p2, IsWhitespace) == p2 + 1
    requires ContentAt(c, n, p2 + 1) == Ok((n, p2 + 10, close))
    requires c[p2 + 10..close] == s && ParseItem(s) == Ok(it)
    ensures SlotsFrom(c, pos) == Prepend([Slot(n, it)], SlotsFrom(c, next))
  {
    SlotRead(c, pos, p2, n, close);
    SlotsFromRead(c, pos, n, p2 + 10, close, s, it);
  }

  /** The text of one slot, `<d> Content={<s>}`, at `pos`, where `d` spells
      the slot number and `s` the item. */
  lemma {:induction false} OneSlotAt(c: string, pos: nat, d: string, x: Slot, s: string, tail: string, next: nat)
    requires d != [] && AllDigits(d) && ParseI32(d) == Some(x.number) && pos <= |c|
    requires c[pos..] == d + (" " + ("Content=" + ("{" + (s + ("}" + tail)))))
    requires CloseLen(s + ("}" + tail), 1) == |s|
    requires ParseItem(s) == Ok(x.item) && next == pos + |d| + 11 + |s|
    ensures next <= |c|
    ensures SlotsFrom(c, pos) == Prepend([x], SlotsFrom(c, next))
  {
    var p2 := pos + |d|;
    SlotFacts(c, pos, d, x.number, s, tail, p2);
    SlotHeadRead(c, pos, p2, x.number, p2 + 10 + |s|, s, x.item, next);
  }

  /** The text `serialize` writes for one slot, followed by anything, reads
      back as a slot with the same number holding `Reread` of its item, and
      the list goes on after it. */
  lemma {:induction false} OneSlot(c: string, pos: nat, x: Slot, tail: string, next: nat)
    requires pos <= |c| && 0 <= x.number <= I32Max && WellTyped(x.item)
    requires c[pos..] == SlotText(x) + tail && next == pos + |SlotText(x)|
    ensures next <= |c|
    ensures SlotsFrom(c, pos) == Prepend([RereadSlot(x)], SlotsFrom(c, next))
  {
    var d, s := SlotTextShape(x, tail);
    OneSlotAt(c, pos, d, RereadSlot(x), s, tail, next);
  }

  /** A slot's text is its number's digits `d` and its item's text `s` in the
      frame `<d> Content={<s>}`; `s` reads back as the item and its closing
      brace is the one the frame puts after it. */
  lemma {:induction false} SlotTextShape(x: Slot, tail: string) returns (d: string, s: string)
    requires 0 <= x.number <= I32Max && WellTyped(x.item)
    ensures d != [] && AllDigits(d) && ParseI32(d) == Some(x.number)
    ensures SlotText(x) + tail == d + (" " + ("Content=" + ("{" + (s + ("}" + tail)))))
    ensures |SlotText(x)| == |d| + 11 + |s|
    ensures CloseLen(s + ("}" + tail), 1) == |s|
    ensures ParseItem(s) == Ok(Reread(x.item))
  {
    d, s := IntToString(x.number), SerializeItem(x.item);
    NatTextValue(x.number);
    SlotTextParts(x, tail);
    ItemTextFacts(x.item, tail);
  }

  // ---------------------------------------------------------------------------
  // The list of slots
  // ---------------------------------------------------------------------------

  lemma {:induction false} SlotTextsCons(x: Slot, ys: seq<Slot>)
    ensures SlotTexts([x] + ys) == [SlotText(x)] + SlotTexts(ys)
    decreases |ys|
  {
    var zs := [x] + ys;
    if ys == [] {
      assert zs[..|zs| - 1] == [];
    } else {
      var init := ys[..|ys| - 1];
      assert zs[..|zs| - 1] == [x] + init;
      SlotTextsCons(x, init);
      assert SlotTexts(ys) == SlotTexts(init) + [SlotText(ys[|ys| - 1])];
    }
  }

  lemma {:induction false} SlotListCons(x: Slot, ys: seq<Slot>)
    ensures ys == [] ==> SlotList([x] + ys) == SlotText(x)
    ensures ys != [] ==> SlotList([x] + ys) == SlotText(x) + (SlotSeparator + SlotList(ys))
  {
    SlotTextsCons(x, ys);
    var ts := [SlotText(x)] + SlotTexts(ys);
    if ys != [] {
      assert ts[1..] == SlotTexts(ys);
      Assoc(SlotText(x), SlotSeparator, SlotList(ys));
    }
  }

  lemma {:induction false} SeparatorLiteral()
    ensures |SlotSeparator| == 17
    ensures forall k :: 0 <= k < 17 ==> IsSeparator(SlotSeparator[k])
  {
  }

  /** The separator between two slots is skipped up to the next slot number. */
  lemma {:induction false} SkipSeparator(c: string, pos: nat, rest: string)
    requires pos <= |c| && c[pos..] == SlotSeparator + rest && rest != [] && IsAsciiDigit(rest[0])
    ensures pos + 17 <= |c| && c[pos + 17..] == rest
    ensures SkipWhile(c, pos, IsSeparator) == pos + 17 == SkipWhile(c, pos + 17, IsSeparator)
  {
    SeparatorLiteral();
    TakeConcat(c, pos, SlotSeparator, rest);
    DropConcat(c, pos, SlotSeparator, rest);
    FrontOf(c, pos + 17, rest, []);
    forall k | pos <= k < pos + 17
      ensures IsSeparator(c[k])
    {
      assert c[k] == c[pos..pos + 17][k - pos];
    }
    SkipWhileIs(c, pos, IsSeparator, pos + 17);
    SkipWhileIs(c, pos + 17, IsSeparator, pos + 17);
  }

  /** The slot list read from two places that the separator skip joins. */
  lemma {:induction false} SlotsFromSame(c: string, a: nat, b: nat)
    requires a <= |c| && b <= |c| && SkipWhile(c, a, IsSeparator) == SkipWhile(c, b, IsSeparator)
    ensures SlotsFrom(c, a) == SlotsFrom(c, b)
  {
  }

  lemma {:induction false} SlotTextFront(x: Slot)
    requires x.number >= 0
    ensures IsAsciiDigit(SlotText(x)[0])
  {
    NatToStringDigits(x.number);
    SlotTextParts(x, []);
  }

  lemma {:induction false} SlotListFront(xs: seq<Slot>)
    requires xs != [] && xs[0].number >= 0
    ensures SlotList(xs) != [] && IsAsciiDigit(SlotList(xs)[0])
  {
    assert xs == [xs[0]] + xs[1..];
    SlotListCons(xs[0], xs[1..]);
    SlotTextFront(xs[0]);
  }

  /** The list text from `pos` on reads back slot by slot. */
  lemma {:induction false} ListReads(c: string, pos: nat, xs: seq<Slot>)
    requires pos <= |c| && c[pos..] == SlotList(xs) && xs != [] && SoundSlots(xs)
    ensures SlotsFrom(c, pos) == Ok(RereadSlots(xs))
    decreases |xs|, 0
  {
    var x, ys := xs[0], xs[1..];
    assert xs == [x] + ys;
    SlotListCons(x, ys);
    var tail := if ys == [] then [] else SlotSeparator + SlotList(ys);
    var next := pos + |SlotText(x)|;
    OneSlot(c, pos, x, tail, next);
    DropConcat(c, pos, SlotText(x), tail);
    RestReads(c, next, ys);
    PrependChain(SlotsFrom(c, pos), SlotsFrom(c, next), RereadSlot(x), RereadSlots(ys));
  }

  /** What follows a slot is read back: nothing at the end of the list, and
      otherwise the separator and the remaining slots. */
  lemma {:induction false} RestReads(c: string, next: nat, ys: seq<Slot>)
    requires next <= |c| && SoundSlots(ys)
    requires c[next..] == if ys == [] then [] else SlotSeparator + SlotList(ys)
    ensures SlotsFrom(c, next) == Ok(RereadSlots(ys))
    decreases |ys|, 1
  {
    if ys == [] {
      SlotsFromEnd(c, next, next);
    } else {
      SlotListFront(ys);
      SkipSeparator(c, next, SlotList(ys));
      ListReads(c, next + 17, ys);
      SlotsFromSame(c, next, next + 17);
    }
  }

  lemma PrependChain(a: Result<seq<Slot>, ParseError>, b: Result<seq<Slot>, ParseError>, x: Slot, ys: seq<Slot>)
    requires a == Prepend([x], b) && b == Ok(ys)
    ensures a == Ok([x] + ys)
  {
  }


  lemma {:induction false} SlotListLast(xs: seq<Slot>)
    requires xs != []
    ensures SlotList(xs) != [] && SlotList(xs)[|SlotList(xs)| - 1] == '}'
    decreases |xs|
  {
    var x, ys := xs[0], xs[1..];
    assert xs == [x] + ys;
    SlotListCons(x, ys);
    if ys == [] {
      assert SlotText(x) == (IntToString(x.number) + " Content={" + SerializeItem(x.item)) + "}";
    } else {
      SlotListLast(ys);
      LastOf(SlotSeparator, SlotList(ys));
      LastOf(SlotText(x), SlotSeparator + SlotList(ys));
    }
  }

  lemma {:induction false} SlotListMinus(xs: seq<Slot>)
    requires xs != [] && xs[0].number < 0
    ensures SlotList(xs) != [] && SlotList(xs)[0] == '-'
  {
    assert xs == [xs[0]] + xs[1..];
    SlotListCons(xs[0], xs[1..]);
    SlotTextParts(xs[0], []);
  }

  /** A slot list whose first slot number is negative starts with `-`, which
      is not a digit, so `parse` reads it as an empty inventory: every slot
      written is lost. */
  lemma {:induction false} NegativeFirstReadsEmpty(xs: seq<Slot>)
    requires xs != [] && xs[0].number < 0
    ensures ParseSlots(SlotList(xs)) == Ok([])
  {
    var c := SlotList(xs);
    SlotListMinus(xs);
    SlotListLast(xs);
    TrimNoop(c);
    SlotsStop(c, 0, 0);
  }

  /** Parsing the slot list that `serialize` writes between the section braces
      gives one slot per slot written, in the same order, each with its number
      and with what the item parser reads from its item's text. */
  lemma {:induction false} SectionRereads(xs: seq<Slot>)
    requires SoundSlots(xs)
    ensures ParseSlots(SlotList(xs)) == Ok(RereadSlots(xs))
  {
    if xs != [] {
      var c := SlotList(xs);
      SlotListFront(xs);
      SlotListLast(xs);
      TrimNoop(c);
      assert c[0..] == c;
      ListReads(c, 0, xs);
    }
  }

  /** Parsing the slot list that `serialize` writes between the section braces
      gives back the same slots, in the same order, repeated slot numbers
      included. */
  lemma {:induction false} SectionRoundTrip(xs: seq<Slot>)
    requires ReadableSlots(xs)
    ensures ParseSlots(SlotList(xs)) == Ok(xs)
  {
    ReadableSound(xs);
    RereadSlotsReadable(xs);
    SectionRereads(xs);
  }
}
