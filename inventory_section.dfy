/**
 * The `Inventory = {...}` section of a `.usr` file: a list of slots, each a
 * slot number and the item it holds,
 *
 *   Inventory   = {3 Content={2854 Content={3726 Amount=99}},
 *                  10 Content={3031 Amount=40}}
 *
 * `InventorySection` holds the parsed slots; `set_slot` replaces a slot and
 * keeps the list ordered by slot number, and `serialize` writes the section
 * back in the layout above.
 */
module InventorySections {
  import opened Wrappers
  import opened Strings
  import opened Inventory

  /** `InventorySlot`: a slot number and its item. */
  datatype Slot = Slot(number: int, item: Item)

  // ---------------------------------------------------------------------------
  // Parsing the text between the section braces
  // ---------------------------------------------------------------------------

  /** The characters skipped between slots. */
  predicate IsSeparator(ch: char) { IsWhitespace(ch) || ch == ',' }

  /** At most the first `n` characters of `s` (the error message snippet). */
  function Prefix(s: string, n: nat): (r: string)
    ensures |r| <= n && r <= s
  {
    if |s| <= n then s else s[..n]
  }

  /** The digits a SkipWhile over ASCII digits passed over. */
  lemma DigitRun(c: string, i: nat)
    requires i <= |c|
    ensures AllDigits(c[i..SkipWhile(c, i, IsAsciiDigit)])
  {
    SkipWhileSpec(c, i, IsAsciiDigit);
  }

  /** The slots from index `pos` of the trimmed section text: separators are
      skipped, and a missing slot number ends the list. */
  function SlotsFrom(c: string, pos: nat): Result<seq<Slot>, ParseError>
    requires pos <= |c|
    decreases |c| - pos, 3
  {
    SlotsFromNumber(c, SkipWhile(c, pos, IsSeparator))
  }

  /** The slots once the separators before them are skipped: none unless a
      slot number starts at `p1`. */
  function SlotsFromNumber(c: string, p1: nat): Result<seq<Slot>, ParseError>
    requires p1 <= |c|
    decreases |c| - p1, 2
  {
    if p1 >= |c| || SkipWhile(c, p1, IsAsciiDigit) == p1 then Ok([])
    else SlotsAt(c, p1)
  }

  /** The slot whose number starts at `p1`, its item parsed, and the slots
      after it. */
  function SlotsAt(c: string, p1: nat): Result<seq<Slot>, ParseError>
    requires p1 <= |c|
    decreases |c| - p1, 1
  {
    match SlotAt(c, p1)
    case Err(e) => Err(e)
    case Ok((n, start, close)) => ItemThen(c, n, start, close)
  }

  /** Slot `n` holding the item between `start` and the closing brace at
      `close`, then the slots after that brace. */
  function ItemThen(c: string, n: int, start: nat, close: nat): Result<seq<Slot>, ParseError>
    requires start <= close < |c|
    decreases |c| - start, 0
  {
    match ParseItem(c[start..close])
    case Err(e) => Err(e)
    case Ok(it) => Prepend([Slot(n, it)], SlotsFrom(c, close + 1))
  }

  /** One slot `<digits> Content={<item>}` starting at `p1`: its number, and
      where its item text starts and where its closing brace is. */
  function SlotAt(c: string, p1: nat): (r: Result<(int, nat, nat), ParseError>)
    requires p1 <= |c|
    ensures r.Ok? ==> p1 < r.value.1 <= r.value.2 < |c|
    ensures r.Ok? ==> 0 <= r.value.0 <= I32Max
  {
    var p2 := SkipWhile(c, p1, IsAsciiDigit);
    DigitRun(c, p1);
    match ParseI32(c[p1..p2])
    case None => Err(InvalidSlotNumber(c[p1..p2]))
    case Some(n) => ContentAt(c, n, SkipWhile(c, p2, IsWhitespace))
  }

  /** The `Content=` marker at `p3` (whitespace may follow it), then the item. */
  function ContentAt(c: string, n: int, p3: nat): (r: Result<(int, nat, nat), ParseError>)
    requires p3 <= |c|
    ensures r.Ok? ==> p3 < r.value.1 <= r.value.2 < |c| && r.value.0 == n
  {
    if !StartsWith(c[p3..], "Content=") then
      Err(ExpectedContentMarker(p3, Prefix(c[p3..], 20)))
    else
      BracedAt(c, n, SkipWhile(c, p3 + 8, IsWhitespace))
  }

  /** The `{` at `p4` and its matching `}`. */
  function BracedAt(c: string, n: int, p4: nat): (r: Result<(int, nat, nat), ParseError>)
    requires p4 <= |c|
    ensures r.Ok? ==> p4 < r.value.1 <= r.value.2 < |c| && r.value.0 == n
  {
    if p4 >= |c| || c[p4] != '{' then Err(ExpectedOpenBrace)
    else
      var close := CloseIndex(c, p4 + 1);
      if close >= |c| then Err(UnmatchedBraces)
      else Ok((n, p4 + 1, close))
  }

  /** `InventorySection::parse`: blank text is an empty inventory. */
  function ParseSlots(text: string): Result<seq<Slot>, ParseError>
  {
    var c := Trim(text);
    if c == [] then Ok([]) else SlotsFrom(c, 0)
  }

  lemma PrependOk(slots: seq<Slot>)
    ensures Prepend(slots, Ok([])) == Ok(slots)
  {
    assert slots + [] == slots;
  }

  /** One `while pos < len && p(chars[pos]) { pos += 1 }` loop of the source. */
  method SkipScan(c: string, from: nat, p: char -> bool) returns (pos: nat)
    requires from <= |c|
    ensures pos == SkipWhile(c, from, p)
  {
    pos := from;
    while pos < |c| && p(c[pos])
      invariant from <= pos <= |c|
      invariant SkipWhile(c, pos, p) == SkipWhile(c, from, p)
      decreases |c| - pos
    {
      pos := pos + 1;
    }
  }

  /** The body of the source's slot loop once a slot number was found: the
      digit loop and the number's conversion. */
  method SlotScan(c: string, p1: nat) returns (r: Result<(int, nat, nat), ParseError>)
    requires p1 <= |c|
    ensures r == SlotAt(c, p1)
  {
    var pos := SkipScan(c, p1, IsAsciiDigit);
    DigitRun(c, p1);
    var number := ParseI32(c[p1..pos]);
    if number.None? {
      return Err(InvalidSlotNumber(c[p1..pos]));
    }
    pos := SkipScan(c, pos, IsWhitespace);
    r := ContentScan(c, number.value, pos);
  }

  /** The loop body, continued: the `Content=` check. */
  method ContentScan(c: string, n: int, p3: nat) returns (r: Result<(int, nat, nat), ParseError>)
    requires p3 <= |c|
    ensures r == ContentAt(c, n, p3)
  {
    var remaining := c[p3..];
    if !StartsWith(remaining, "Content=") {
      return Err(ExpectedContentMarker(p3, Prefix(remaining, 20)));
    }
    var pos := SkipScan(c, p3 + 8, IsWhitespace);
    r := BracedScan(c, n, pos);
  }

  /** The loop body, continued: the brace and the brace-matching loop. */
  method BracedScan(c: string, n: int, p4: nat) returns (r: Result<(int, nat, nat), ParseError>)
    requires p4 <= |c|
    ensures r == BracedAt(c, n, p4)
  {
    if p4 >= |c| || c[p4] != '{' {
      return Err(ExpectedOpenBrace);
    }
    var close, closed := ScanToClose(c, p4 + 1);
    if !closed {
      return Err(UnmatchedBraces);
    }
    return Ok((n, p4 + 1, close));
  }

  /** `SlotsFrom` ends the list where no slot number follows the separators. */
  lemma SlotsFromEnd(c: string, pos: nat, p1: nat)
    requires pos <= p1 <= |c| && SkipWhile(c, pos, IsSeparator) == p1
    requires p1 == |c| || SkipWhile(c, p1, IsAsciiDigit) == p1
    ensures SlotsFrom(c, pos) == Ok([])
  {
  }

  /** `SlotsFrom` hands over to `SlotsAt` at the first slot number. */
  lemma SlotsFromStep(c: string, pos: nat, p1: nat)
    requires pos <= p1 < |c| && SkipWhile(c, pos, IsSeparator) == p1 && SkipWhile(c, p1, IsAsciiDigit) != p1
    ensures SlotsFrom(c, pos) == SlotsAt(c, p1)
  {
  }

  /** A slot that does not scan is the list's error. */
  lemma SlotsAtErr(c: string, p1: nat)
    requires p1 <= |c| && SlotAt(c, p1).Err?
    ensures SlotsAt(c, p1) == Err(SlotAt(c, p1).error)
  {
  }

  /** A slot that scans goes on with its item. */
  lemma SlotsAtOk(c: string, p1: nat, n: int, start: nat, close: nat)
    requires p1 <= |c| && SlotAt(c, p1) == Ok((n, start, close))
    ensures SlotsAt(c, p1) == ItemThen(c, n, start, close)
  {
  }

  /** What one round of the source's slot loop does: the list ends, a slot
      fails to read, or a slot is read and the scan goes on at `next`. */
  datatype Step = End | Failed(error: ParseError) | Read(slot: Slot, next: nat)

  /** One round of the slot loop from `pos`: skip separators, read the slot
      number, `Content=`, the braces, and parse the item between them. */
  method SlotStep(c: string, pos: nat) returns (r: Step)
    requires pos < |c|
    ensures r.End? ==> SlotsFrom(c, pos) == Ok([])
    ensures r.Failed? ==> SlotsFrom(c, pos) == Err(r.error)
    ensures r.Read? ==> pos < r.next <= |c| && SlotsFrom(c, pos) == Prepend([r.slot], SlotsFrom(c, r.next))
  {
    var p1 := SkipScan(c, pos, IsSeparator);
    if p1 >= |c| {
      SlotsFromEnd(c, pos, p1);
      return End;
    }
    var digitsEnd := SkipScan(c, p1, IsAsciiDigit);
    if digitsEnd == p1 {
      SlotsFromEnd(c, pos, p1);
      return End;
    }
    SlotsFromStep(c, pos, p1);
    r := ReadSlot(c, p1);
  }

  /** The rest of the round once a slot number starts at `p1`. */
  method ReadSlot(c: string, p1: nat) returns (r: Step)
    requires p1 < |c|
    ensures !r.End?
    ensures r.Failed? ==> SlotsAt(c, p1) == Err(r.error)
    ensures r.Read? ==> p1 < r.next <= |c| && SlotsAt(c, p1) == Prepend([r.slot], SlotsFrom(c, r.next))
  {
    var raw := SlotScan(c, p1);
    if raw.Err? {
      SlotsAtErr(c, p1);
      return Failed(raw.error);
    }
    var (n, start, close) := raw.value;
    SlotsAtOk(c, p1, n, start, close);
    var item := ParseItemScan(c[start..close]);
    if item.Err? {
      return Failed(item.error);
    }
    return Read(Slot(n, item.value), close + 1);
  }

  /** `InventorySection::parse` as the source writes it: one pass over the
      characters, pushing each slot as it is read. */
  method ParseSlotsScan(text: string) returns (r: Result<seq<Slot>, ParseError>)
    ensures r == ParseSlots(text)
  {
    var c := Trim(text);
    if c == [] {
      return Ok([]);
    }
    var slots: seq<Slot> := [];
    var pos: nat := 0;
    PrependNil(SlotsFrom(c, 0));
    while pos < |c|
      invariant pos <= |c|
      invariant ParseSlots(text) == Prepend(slots, SlotsFrom(c, pos))
      decreases |c| - pos
    {
      var step := SlotStep(c, pos);
      match step
      case End =>
        PrependOk(slots);
        return Ok(slots);
      case Failed(e) =>
        return Err(e);
      case Read(slot, next) =>
        PrependPrepend(slots, [slot], SlotsFrom(c, next));
        slots := slots + [slot];
        pos := next;
    }
    SlotsFromEnd(c, pos, pos);
    PrependOk(slots);
    r := Ok(slots);
  }

  // ---------------------------------------------------------------------------
  // Replacing a slot: retain, push, stable sort by slot number
  // ---------------------------------------------------------------------------

  /** `retain(|s| s.slot_number != n)`. */
  function Without(xs: seq<Slot>, n: int): seq<Slot>
  {
    if xs == [] then []
    else (if xs[0].number != n then [xs[0]] else []) + Without(xs[1..], n)
  }

  /** Inserts `x` after every slot whose number is not above its own. */
  function InsertSlot(x: Slot, ys: seq<Slot>): seq<Slot>
  {
    if ys == [] || x.number < ys[0].number then [x] + ys
    else [ys[0]] + InsertSlot(x, ys[1..])
  }

  /** `sort_by_key(|s| s.slot_number)`: a stable insertion sort. */
  function SortSlots(xs: seq<Slot>): seq<Slot>
  {
    if xs == [] then [] else InsertSlot(xs[|xs| - 1], SortSlots(xs[..|xs| - 1]))
  }

  /** The slots after `set_slot(n, item)`. */
  function SetSlotResult(xs: seq<Slot>, n: int, item: Item): seq<Slot>
  {
    SortSlots(Without(xs, n) + [Slot(n, item)])
  }

  predicate SortedByNumber(xs: seq<Slot>)
  {
    forall i, j :: 0 <= i < j < |xs| ==> xs[i].number <= xs[j].number
  }

  /** `is_slot_empty` on a list of slots. */
  predicate SlotFree(xs: seq<Slot>, n: int)
  {
    forall k :: 0 <= k < |xs| ==> xs[k].number != n
  }

  /** Retaining drops exactly the slots numbered `n`, with their multiplicity. */
  lemma {:induction false} WithoutCounts(xs: seq<Slot>, n: int)
    ensures forall s :: multiset(Without(xs, n))[s] == if s.number == n then 0 else multiset(xs)[s]
  {
    if xs != [] {
      WithoutCounts(xs[1..], n);
      assert xs == [xs[0]] + xs[1..];
    }
  }

  /** Insertion adds one copy of `x` and keeps everything else. */
  lemma {:induction false} InsertSlotCounts(x: Slot, ys: seq<Slot>)
    ensures multiset(InsertSlot(x, ys)) == multiset(ys) + multiset{x}
  {
    if !(ys == [] || x.number < ys[0].number) {
      InsertSlotCounts(x, ys[1..]);
      assert ys == [ys[0]] + ys[1..];
    }
  }

  /** Sorting is a permutation. */
  lemma {:induction false} SortSlotsCounts(xs: seq<Slot>)
    ensures multiset(SortSlots(xs)) == multiset(xs)
  {
    if xs != [] {
      var init := xs[..|xs| - 1];
      SortSlotsCounts(init);
      InsertSlotCounts(xs[|xs| - 1], SortSlots(init));
      assert xs == init + [xs[|xs| - 1]];
    }
  }

  /** Insertion into a sorted list keeps it sorted. */
  lemma {:induction false} InsertSlotSorted(x: Slot, ys: seq<Slot>)
    requires SortedByNumber(ys)
    ensures SortedByNumber(InsertSlot(x, ys))
  {
    if !(ys == [] || x.number < ys[0].number) {
      InsertSlotSorted(x, ys[1..]);
      InsertSlotCounts(x, ys[1..]);
      var t := InsertSlot(x, ys[1..]);
      forall k | 0 <= k < |t|
        ensures ys[0].number <= t[k].number
      {
        assert t[k] in multiset(t);
      }
    }
  }

  /** Sorting orders the slots by number. */
  lemma {:induction false} SortSlotsSorted(xs: seq<Slot>)
    ensures SortedByNumber(SortSlots(xs))
  {
    if xs != [] {
      SortSlotsSorted(xs[..|xs| - 1]);
      InsertSlotSorted(xs[|xs| - 1], SortSlots(xs[..|xs| - 1]));
    }
  }

  /** The slots numbered `n`, in list order. */
  function Numbered(xs: seq<Slot>, n: int): seq<Slot>
  {
    if xs == [] then []
    else (if xs[0].number == n then [xs[0]] else []) + Numbered(xs[1..], n)
  }

  lemma {:induction false} NumberedAppend(a: seq<Slot>, b: seq<Slot>, n: int)
    ensures Numbered(a + b, n) == Numbered(a, n) + Numbered(b, n)
  {
    if a == [] {
      assert a + b == b;
    } else {
      NumberedAppend(a[1..], b, n);
      assert (a + b)[0] == a[0] && (a + b)[1..] == a[1..] + b;
    }
  }

  lemma {:induction false} NumberedAbove(ys: seq<Slot>, n: int)
    requires forall k :: 0 <= k < |ys| ==> n < ys[k].number
    ensures Numbered(ys, n) == []
  {
    if ys != [] {
      NumberedAbove(ys[1..], n);
    }
  }

  /** Inserting into a sorted list puts `x` after every slot with its number. */
  lemma {:induction false} InsertSlotNumbered(x: Slot, ys: seq<Slot>, n: int)
    requires SortedByNumber(ys)
    ensures Numbered(InsertSlot(x, ys), n) == Numbered(ys, n) + Numbered([x], n)
  {
    if ys == [] {
    } else if x.number < ys[0].number {
      NumberedAppend([x], ys, n);
      if x.number == n {
        NumberedAbove(ys, n);
      }
    } else {
      InsertSlotNumbered(x, ys[1..], n);
      NumberedAppend([ys[0]], InsertSlot(x, ys[1..]), n);
      NumberedAppend([ys[0]], ys[1..], n);
      assert ys == [ys[0]] + ys[1..];
    }
  }

  /** Sorting is stable: the slots sharing a number keep their relative order. */
  lemma {:induction false} SortSlotsStable(xs: seq<Slot>, n: int)
    ensures Numbered(SortSlots(xs), n) == Numbered(xs, n)
  {
    if xs != [] {
      var init := xs[..|xs| - 1];
      SortSlotsStable(init, n);
      SortSlotsSorted(init);
      InsertSlotNumbered(xs[|xs| - 1], SortSlots(init), n);
      NumberedAppend(init, [xs[|xs| - 1]], n);
      assert xs == init + [xs[|xs| - 1]];
    }
  }

  /** After `set_slot(n, item)` the slots are ordered by number, slot `n`
      occurs once and holds `item`, and every other slot is kept with its
      multiplicity. */
  lemma SetSlotSpec(xs: seq<Slot>, n: int, item: Item)
    ensures SortedByNumber(SetSlotResult(xs, n, item))
    ensures forall s :: multiset(SetSlotResult(xs, n, item))[s] == if s.number != n then multiset(xs)[s] else if s == Slot(n, item) then 1 else 0
  {
    var w := Without(xs, n);
    SortSlotsSorted(w + [Slot(n, item)]);
    SortSlotsCounts(w + [Slot(n, item)]);
    WithoutCounts(xs, n);
  }

  /** After `set_slot(n, item)`, slot `n` is occupied and the occupancy of
      every other slot number is unchanged. */
  lemma SetSlotOccupancy(xs: seq<Slot>, n: int, item: Item, m: int)
    ensures !SlotFree(SetSlotResult(xs, n, item), n)
    ensures m != n ==> (SlotFree(SetSlotResult(xs, n, item), m) <==> SlotFree(xs, m))
  {
    var r := SetSlotResult(xs, n, item);
    SetSlotSpec(xs, n, item);
    assert Slot(n, item) in multiset(r);
    if m != n {
      if !SlotFree(xs, m) {
        var k :| 0 <= k < |xs| && xs[k].number == m;
        assert xs[k] in multiset(xs);
        assert xs[k] in multiset(r);
      }
      if !SlotFree(r, m) {
        var k :| 0 <= k < |r| && r[k].number == m;
        assert r[k] in multiset(r);
        assert r[k] in multiset(xs);
      }
    }
  }

  // ---------------------------------------------------------------------------
  // Serialisation
  // ---------------------------------------------------------------------------

  /** `InventorySlot::serialize`. */
  function SlotText(s: Slot): string
  {
    IntToString(s.number) + " Content={" + SerializeItem(s.item) + "}"
  }

  function SlotTexts(xs: seq<Slot>): (r: seq<string>)
    ensures |r| == |xs|
  {
    if xs == [] then [] else SlotTexts(xs[..|xs| - 1]) + [SlotText(xs[|xs| - 1])]
  }

  /** Serialising one more slot appends its text. */
  lemma SlotTextsPrefix(xs: seq<Slot>, i: nat)
    requires i < |xs|
    ensures SlotTexts(xs[..i + 1]) == SlotTexts(xs[..i]) + [SlotText(xs[i])]
  {
    assert xs[..i + 1][..i] == xs[..i];
  }

  /** The line break and indentation between slots. */
  const SlotSeparator: string := ",\n               "

  /** `InventorySection::serialize`. */
  function SectionText(xs: seq<Slot>): string
  {
    if xs == [] then "Inventory   = {}"
    else "Inventory   = {" + Join(SlotTexts(xs), SlotSeparator) + "}"
  }

  // ---------------------------------------------------------------------------
  // The section object
  // ---------------------------------------------------------------------------

  /** `InventorySection`: the slots in file order. */
  class InventorySection {
    var slots: seq<Slot>

    /** `InventorySection::new`. */
    constructor ()
      ensures slots == []
    {
      slots := [];
    }

    /** `InventorySection::parse`: the section, or the first parse error. */
    static method Parse(text: string) returns (r: Result<InventorySection, ParseError>)
      ensures r.Ok? <==> ParseSlots(text).Ok?
      ensures r.Ok? ==> fresh(r.value) && r.value.slots == ParseSlots(text).value
      ensures r.Err? ==> r.error == ParseSlots(text).error
    {
      var parsed := ParseSlotsScan(text);
      if parsed.Err? {
        return Err(parsed.error);
      }
      var section := new InventorySection();
      section.slots := parsed.value;
      return Ok(section);
    }

    /** `is_slot_empty`: no slot carries number `n`. */
    predicate IsSlotEmpty(n: int)
      reads this
    {
      SlotFree(slots, n)
    }

    /** `set_slot`: removes slot `n`, appends the new slot and sorts by number. */
    method SetSlot(n: int, item: Item)
      modifies this
      ensures slots == SetSlotResult(old(slots), n, item)
      ensures SortedByNumber(slots) && !IsSlotEmpty(n)
      ensures forall m :: m != n ==> (IsSlotEmpty(m) <==> old(IsSlotEmpty(m)))
    {
      SetSlotSpec(slots, n, item);
      forall m | m != n
        ensures SlotFree(SetSlotResult(slots, n, item), m) <==> SlotFree(slots, m)
      {
        SetSlotOccupancy(slots, n, item, m);
      }
      SetSlotOccupancy(slots, n, item, n);
      slots := Without(slots, n);
      slots := slots + [Slot(n, item)];
      slots := SortSlots(slots);
    }

    /** `serialize`: the header, the slots separated by a line break and
        indentation, and the closing brace. */
    method Serialize() returns (text: string)
      ensures text == SectionText(slots)
    {
      if |slots| == 0 {
        return "Inventory   = {}";
      }
      var body := "";
      var i := 0;
      while i < |slots|
        invariant 0 <= i <= |slots|
        invariant body == Join(SlotTexts(slots[..i]), SlotSeparator)
      {
        SlotTextsPrefix(slots, i);
        if i == 0 {
          body := body + SlotText(slots[i]);
        } else {
          JoinSnoc(SlotTexts(slots[..i]), SlotText(slots[i]), SlotSeparator);
          body := body + SlotSeparator + SlotText(slots[i]);
        }
        i := i + 1;
      }
      assert slots[..i] == slots;
      text := "Inventory   = {" + body + "}";
    }
  }
}
