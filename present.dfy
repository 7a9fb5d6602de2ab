/**
 * Giving a present to a player: the present box built from its
 * configuration, the player's name as written in the `.usr` file, the
 * decision pipeline that puts the box into a free inventory slot and splices
 * the re-serialised inventory back into the file, and the running tally of
 * outcomes.
 *
 * Reading the file, encoding the new text to Windows-1252 and writing it are
 * not modelled; their outcomes are parameters.
 */
module Present {
  import opened Wrappers
  import opened Strings
  import opened Inventory
  import opened InventorySections
  import opened InventoryLocate
  import NestedRoundTrip
  import SectionRoundTrip
  import SectionLocate

  // ---------------------------------------------------------------------------
  // Configuration
  // ---------------------------------------------------------------------------

  /** `ContainerConfig`: the type of the present box. */
  datatype ContainerConfig = ContainerConfig(typeId: int)

  /** `PresentItemConfig`: one item to put into the box. */
  datatype PresentItemConfig = PresentItemConfig(typeId: int, amount: Option<int>, charges: Option<int>)

  /** `PresentConfig`: the box and its contents, in order. */
  datatype PresentConfig = PresentConfig(container: ContainerConfig, items: seq<PresentItemConfig>)

  /** The inventory item one configured item becomes. */
  function ChildItem(c: PresentItemConfig): Item
  {
    Item(c.typeId, c.amount, c.charges, [])
  }

  /** `PresentConfig::to_inventory_item`: the box holding one child per
      configured item. */
  function ToInventoryItem(config: PresentConfig): Item
  {
    Item(config.container.typeId, None, None, seq(|config.items|, i requires 0 <= i < |config.items| => ChildItem(config.items[i])))
  }

  /** The present is a box of the configured type with no amount or charges of
      its own, and its i-th child carries exactly the i-th configured item's
      type, amount and charges and holds nothing. */
  lemma ToInventoryItemSpec(config: PresentConfig)
    ensures var it := ToInventoryItem(config);
      && it.typeId == config.container.typeId
      && it.amount == None && it.charges == None
      && |it.contents| == |config.items|
      && forall i :: 0 <= i < |config.items| ==>
           && it.contents[i].typeId == config.items[i].typeId
           && it.contents[i].amount == config.items[i].amount
           && it.contents[i].charges == config.items[i].charges
           && it.contents[i].contents == []
  {
  }

  /** The configuration read back from the present item. */
  function ConfigOf(it: Item): PresentConfig
  {
    PresentConfig(ContainerConfig(it.typeId),
      seq(|it.contents|, i requires 0 <= i < |it.contents| =>
        PresentItemConfig(it.contents[i].typeId, it.contents[i].amount, it.contents[i].charges)))
  }

  /** Nothing of the configuration is lost: it can be read back from the item. */
  lemma ToInventoryItemInverse(config: PresentConfig)
    ensures ConfigOf(ToInventoryItem(config)) == config
  {
    var back := ConfigOf(ToInventoryItem(config));
    assert back.items == config.items;
  }

  /** The configuration of the source's own example. */
  const ExampleConfig: PresentConfig :=
    PresentConfig(ContainerConfig(2854), [PresentItemConfig(3726, Some(99), None), PresentItemConfig(3155, None, Some(35))])

  /** The example box serialises as `2854 Content={3726 Amount=99, 3155 Charges=35}`:
      the box, then its two items in order. */
  lemma ExampleSerialization()
    ensures SerializeItem(ToInventoryItem(ExampleConfig))
         == "2854" + " Content={" + "3726 Amount=99" + ", " + "3155 Charges=35" + "}"
  {
    var first, second := Item(3726, Some(99), None, []), Item(3155, None, Some(35), []);
    ExampleBox();
    ExampleChildren();
    ExampleBoxText(first, second);
  }

  lemma ExampleBox()
    ensures ToInventoryItem(ExampleConfig)
         == Item(2854, None, None, [Item(3726, Some(99), None, []), Item(3155, None, Some(35), [])])
  {
  }

  lemma ExampleBoxText(first: Item, second: Item)
    ensures SerializeItem(Item(2854, None, None, [first, second]))
         == "2854" + " Content={" + SerializeItem(first) + ", " + SerializeItem(second) + "}"
  {
    var box := Item(2854, None, None, [first, second]);
    ExampleList(first, second);
    assert IntToString(2854) == "2854";
    assert SerializeItem(box) == "2854" + "" + "" + (" Content={" + SerializeList(box.contents) + "}");
    Regroup("2854", " Content={", SerializeItem(first), ", ", SerializeItem(second), "}");
  }

  lemma ExampleChildren()
    ensures SerializeItem(Item(3726, Some(99), None, [])) == "3726 Amount=99"
    ensures SerializeItem(Item(3155, None, Some(35), [])) == "3155 Charges=35"
  {
    ExampleAmount();
    ExampleCharges();
  }

  lemma ExampleAmount()
    ensures SerializeItem(Item(3726, Some(99), None, [])) == "3726 Amount=99"
  {
    assert IntToString(3726) == "3726";
    assert IntToString(99) == "99";
  }

  lemma ExampleCharges()
    ensures SerializeItem(Item(3155, None, Some(35), [])) == "3155 Charges=35"
  {
    assert IntToString(3155) == "3155";
    assert IntToString(35) == "35";
  }

  lemma ExampleList(first: Item, second: Item)
    ensures SerializeList([first, second]) == SerializeItem(first) + ", " + SerializeItem(second)
  {
    assert [first, second][1..] == [second];
  }

  lemma Regroup(a: string, b: string, c: string, d: string, e: string, f: string)
    ensures a + "" + "" + (b + (c + d + e) + f) == a + b + c + d + e + f
  {
  }

  // ---------------------------------------------------------------------------
  // Outcomes
  // ---------------------------------------------------------------------------

  /** Why a file could not be given its present; each stands for one
      `GiftResult::Error` message of the source. */
  datatype GiftError =
    | ReadFailed
    | ExtractFailed(cause: ParseError)
    | ParseFailed(cause: ParseError)
    | ReplaceFailed(cause: ParseError)
    | EncodeFailed
    | WriteFailed
    | InvalidSlot

  /** `GiftResult`. */
  datatype GiftResult =
    | Gifted(playerName: string)
    | SlotOccupied(playerName: string)
    | Error(playerName: string, error: GiftError)
  {
    predicate IsGifted() { Gifted? }

    predicate IsSkipped() { SlotOccupied? }

    function PlayerName(): string
    {
      match this
      case Gifted(n) => n
      case SlotOccupied(n) => n
      case Error(n, _) => n
    }
  }

  /** The accessors agree with the variant: a result is gifted, skipped or an
      error and never two of them, and every variant carries the name
      PlayerName returns. */
  lemma GiftResultAccessors(r: GiftResult)
    ensures r.IsGifted() <==> r.Gifted?
    ensures r.IsSkipped() <==> r.SlotOccupied?
    ensures !(r.IsGifted() && r.IsSkipped())
    ensures !r.IsGifted() && !r.IsSkipped() <==> r.Error?
    ensures r.PlayerName() == r.playerName
  {
  }

  // ---------------------------------------------------------------------------
  // The player's name: `Name\s*=\s*"([^"]+)"`
  // ---------------------------------------------------------------------------

  predicate NotQuote(c: char) { c != '"' }

  /** The name captured by a match of `Name\s*=\s*"([^"]+)"` that starts at
      `k`: a non-empty run of non-quote characters closed by a quote. The
      greedy `\s*` and `[^"]+` are the only way to match, so one forward scan
      decides. */
  function NameAt(s: string, k: nat): (r: Option<string>)
    requires k <= |s|
  {
    if !MatchAt(s, "Name", k) then None
    else
      var p := SkipWhile(s, k + 4, IsWhitespace);
      if p >= |s| || s[p] != '=' then None
      else
        var q := SkipWhile(s, p + 1, IsWhitespace);
        if q >= |s| || s[q] != '"' then None
        else
          var e := SkipWhile(s, q + 1, NotQuote);
          if e == q + 1 || e >= |s| then None else Some(s[q + 1..e])
  }

  /** A captured name is non-empty and free of quotes. */
  lemma NameAtShape(s: string, k: nat)
    requires k <= |s| && NameAt(s, k).Some?
    ensures NameAt(s, k).value != [] && NoChar(NameAt(s, k).value, '"')
  {
    var p := SkipWhile(s, k + 4, IsWhitespace);
    var q := SkipWhile(s, p + 1, IsWhitespace);
    SkipWhileSpec(s, q + 1, NotQuote);
  }

  /** A match at `k` has the shape of the regex: `Name`, whitespace, `=`,
      whitespace, `"`, the captured run of non-quote characters, and the
      closing `"`. */
  lemma NameParts(s: string, k: nat) returns (p: nat, q: nat, e: nat)
    requires k <= |s| && NameAt(s, k).Some?
    ensures MatchAt(s, "Name", k)
    ensures k + 4 <= p < q && q + 1 < e < |s|
    ensures s[p] == '=' && s[q] == '"' && s[e] == '"'
    ensures forall j :: k + 4 <= j < p ==> IsWhitespace(s[j])
    ensures forall j :: p + 1 <= j < q ==> IsWhitespace(s[j])
    ensures forall j :: q + 1 <= j < e ==> s[j] != '"'
    ensures NameAt(s, k) == Some(s[q + 1..e])
  {
    p := SkipWhile(s, k + 4, IsWhitespace);
    q := SkipWhile(s, p + 1, IsWhitespace);
    e := SkipWhile(s, q + 1, NotQuote);
    SkipWhileSpec(s, k + 4, IsWhitespace);
    SkipWhileSpec(s, p + 1, IsWhitespace);
    SkipWhileSpec(s, q + 1, NotQuote);
  }

  /** Conversely, text of that shape at `k` is a match capturing the run
      between the quotes. */
  lemma NameOfParts(s: string, k: nat, p: nat, q: nat, e: nat)
    requires MatchAt(s, "Name", k)
    requires k + 4 <= p < q && q + 1 < e < |s|
    requires s[p] == '=' && s[q] == '"' && s[e] == '"'
    requires forall j :: k + 4 <= j < p ==> IsWhitespace(s[j])
    requires forall j :: p + 1 <= j < q ==> IsWhitespace(s[j])
    requires forall j :: q + 1 <= j < e ==> s[j] != '"'
    ensures NameAt(s, k) == Some(s[q + 1..e])
  {
    SkipWhileIs(s, k + 4, IsWhitespace, p);
    SkipWhileIs(s, p + 1, IsWhitespace, q);
    SkipWhileIs(s, q + 1, NotQuote, e);
  }

  /** Where `Regex::captures` from index `k` finds its leftmost match. */
  function NameIndex(s: string, k: nat): (r: Option<nat>)
    requires k <= |s|
    ensures r.Some? ==> k <= r.value <= |s| && NameAt(s, r.value).Some?
    decreases |s| - k
  {
    if NameAt(s, k).Some? then Some(k)
    else if k == |s| then None
    else NameIndex(s, k + 1)
  }

  /** No match starts before the one NameIndex finds, and None means no index
      starts one. */
  lemma {:induction false} NameIndexFirst(s: string, k: nat, j: nat)
    requires k <= j <= |s|
    requires NameIndex(s, k).Some? ==> j < NameIndex(s, k).value
    ensures NameAt(s, j).None?
    decreases |s| - k
  {
    if k < j {
      NameIndexFirst(s, k + 1, j);
    }
  }

  /** `extract_player_name`: the name captured by the leftmost match, or
      `Unknown`. */
  function ExtractPlayerName(content: string): string
  {
    match NameIndex(content, 0)
    case None => "Unknown"
    case Some(j) => NameAt(content, j).value
  }

  /** The player's name is never empty and never holds a quote; it is
      `Unknown` exactly when no `Name = "..."` entry matches anywhere, and
      otherwise the capture of a match no other match precedes. */
  lemma ExtractPlayerNameSpec(content: string)
    ensures ExtractPlayerName(content) != [] && NoChar(ExtractPlayerName(content), '"')
    ensures NameIndex(content, 0).None? <==> forall j :: 0 <= j <= |content| ==> NameAt(content, j).None?
    ensures NameIndex(content, 0).None? ==> ExtractPlayerName(content) == "Unknown"
    ensures NameIndex(content, 0).Some? ==>
      var j := NameIndex(content, 0).value;
      && ExtractPlayerName(content) == NameAt(content, j).value
      && forall i :: 0 <= i < j ==> NameAt(content, i).None?
  {
    forall i | 0 <= i <= |content| && (NameIndex(content, 0).Some? ==> i < NameIndex(content, 0).value)
      ensures NameAt(content, i).None?
    {
      NameIndexFirst(content, 0, i);
    }
    if NameIndex(content, 0).Some? {
      NameAtShape(content, NameIndex(content, 0).value);
    } else {
      UnknownShape();
    }
  }

  lemma UnknownShape()
    ensures "Unknown" != [] && NoChar("Unknown", '"')
  {
  }

  // ---------------------------------------------------------------------------
  // The decision pipeline of `apply_present_to_file`
  // ---------------------------------------------------------------------------

  /** What applying a present produced: the result, and the text handed to the
      file write, if a write was attempted. */
  datatype Outcome = Outcome(result: GiftResult, write: Option<string>)

  /** The slots of the file's inventory section, or why they cannot be had:
      the section is missing or unbalanced, or its text does not parse. */
  function FileSlots(content: string): Result<seq<Slot>, GiftError>
  {
    match Extract(content)
    case Err(e) => Err(ExtractFailed(e))
    case Ok((inv, _, _)) =>
      match ParseSlots(inv)
      case Err(e) => Err(ParseFailed(e))
      case Ok(slots) => Ok(slots)
  }

  /** The file text a gift produces: the inventory section replaced by the
      serialised section with the present in `slot`. */
  function GiftText(content: string, slots: seq<Slot>, config: PresentConfig, slot: int): Result<string, ParseError>
  {
    Replace(content, SectionText(SetSlotResult(slots, slot, ToInventoryItem(config))))
  }

  /** The end of the pipeline: the spliced text is written unless this is a
      dry run or the text does not encode. */
  function Deliver(name: string, replaced: Result<string, ParseError>, dryRun: bool,
                   encodable: string -> bool, writeOk: bool): Outcome
  {
    match replaced
    case Err(e) => Outcome(Error(name, ReplaceFailed(e)), None)
    case Ok(newContent) =>
      if dryRun then Outcome(Gifted(name), None)
      else if !encodable(newContent) then Outcome(Error(name, EncodeFailed), None)
      else Outcome(if writeOk then Gifted(name) else Error(name, WriteFailed), Some(newContent))
  }

  /** `apply_present_to_file`. `read` is the file's text or None when reading
      failed, `encodable` tells whether a text encodes to Windows-1252 without
      errors, and `writeOk` whether the write succeeds. */
  function ApplyPresent(path: string, read: Option<string>, config: PresentConfig, slot: int,
                        dryRun: bool, encodable: string -> bool, writeOk: bool): Outcome
  {
    match read
    case None => Outcome(Error(path, ReadFailed), None)
    case Some(content) =>
      var name := ExtractPlayerName(content);
      match FileSlots(content)
      case Err(e) => Outcome(Error(name, e), None)
      case Ok(slots) =>
        if !SlotFree(slots, slot) then Outcome(SlotOccupied(name), None)
        else Deliver(name, GiftText(content, slots, config, slot), dryRun, encodable, writeOk)
  }

  /** A read failure is reported under the file's path and nothing is written. */
  lemma ApplyReadFails(path: string, config: PresentConfig, slot: int,
                       dryRun: bool, encodable: string -> bool, writeOk: bool)
    ensures ApplyPresent(path, None, config, slot, dryRun, encodable, writeOk) == Outcome(Error(path, ReadFailed), None)
  {
  }

  /** Delivery keeps the name it was given. */
  lemma DeliverName(name: string, replaced: Result<string, ParseError>, dryRun: bool,
                    encodable: string -> bool, writeOk: bool)
    ensures Deliver(name, replaced, dryRun, encodable, writeOk).result.playerName == name
  {
  }

  /** Once the file is read, every outcome carries the player's name from it. */
  lemma ApplyName(path: string, content: string, config: PresentConfig, slot: int,
                  dryRun: bool, encodable: string -> bool, writeOk: bool)
    ensures ApplyPresent(path, Some(content), config, slot, dryRun, encodable, writeOk).result.playerName
         == ExtractPlayerName(content)
  {
    match FileSlots(content)
    case Err(_) =>
    case Ok(slots) =>
      DeliverName(ExtractPlayerName(content), GiftText(content, slots, config, slot), dryRun, encodable, writeOk);
  }

  /** A section that cannot be found or parsed is reported as that error,
      and nothing is written. */
  lemma ApplyUnreadable(path: string, content: string, config: PresentConfig, slot: int,
                        dryRun: bool, encodable: string -> bool, writeOk: bool)
    requires FileSlots(content).Err?
    ensures ApplyPresent(path, Some(content), config, slot, dryRun, encodable, writeOk)
         == Outcome(Error(ExtractPlayerName(content), FileSlots(content).error), None)
  {
  }

  /** An occupied target slot is skipped and nothing is written. */
  lemma ApplyOccupied(path: string, content: string, config: PresentConfig, slot: int,
                      dryRun: bool, encodable: string -> bool, writeOk: bool)
    requires FileSlots(content).Ok? && !SlotFree(FileSlots(content).value, slot)
    ensures ApplyPresent(path, Some(content), config, slot, dryRun, encodable, writeOk)
      == Outcome(SlotOccupied(ExtractPlayerName(content)), None)
  {
  }

  /** A write is attempted only by a run that is not dry, and a failed
      outcome comes with a write only when the write itself failed. */
  lemma DeliverWrites(name: string, replaced: Result<string, ParseError>, dryRun: bool,
                      encodable: string -> bool, writeOk: bool)
    ensures var o := Deliver(name, replaced, dryRun, encodable, writeOk);
      o.write.Some? ==> !dryRun && replaced == Ok(o.write.value) && (o.result.Gifted? <==> writeOk)
  {
  }

  /** Whatever the inputs, a written text is the spliced file, and only a run
      that is not dry writes. */
  lemma ApplyWritesOnlyGifts(path: string, read: Option<string>, config: PresentConfig, slot: int,
                             dryRun: bool, encodable: string -> bool, writeOk: bool)
    ensures var o := ApplyPresent(path, read, config, slot, dryRun, encodable, writeOk);
      o.write.Some? ==>
        && !dryRun && read.Some? && FileSlots(read.value).Ok?
        && SlotFree(FileSlots(read.value).value, slot)
        && GiftText(read.value, FileSlots(read.value).value, config, slot) == Ok(o.write.value)
        && (o.result.Gifted? <==> writeOk)
  {
    if read.Some? && FileSlots(read.value).Ok? && SlotFree(FileSlots(read.value).value, slot) {
      DeliverWrites(ExtractPlayerName(read.value), GiftText(read.value, FileSlots(read.value).value, config, slot), dryRun, encodable, writeOk);
    }
  }

  /** Once the section was found, splicing the new one in cannot fail, so the
      source's `Failed to replace inventory` error never occurs. */
  lemma GiftTextOk(content: string, config: PresentConfig, slot: int)
    requires FileSlots(content).Ok?
    ensures GiftText(content, FileSlots(content).value, config, slot).Ok?
  {
  }

  /** With a free slot the present is given: a dry run writes nothing, and
      otherwise, when the text encodes, exactly the spliced text is written
      and the result is Gifted precisely when the write succeeds. */
  lemma ApplyFreeSlot(path: string, content: string, config: PresentConfig, slot: int,
                      dryRun: bool, encodable: string -> bool, writeOk: bool)
    requires FileSlots(content).Ok? && SlotFree(FileSlots(content).value, slot)
    ensures GiftText(content, FileSlots(content).value, config, slot).Ok?
    ensures var o := ApplyPresent(path, Some(content), config, slot, dryRun, encodable, writeOk);
      var text := GiftText(content, FileSlots(content).value, config, slot).value;
      && (dryRun ==> o == Outcome(Gifted(ExtractPlayerName(content)), None))
      && (!dryRun && !encodable(text) ==> o == Outcome(Error(ExtractPlayerName(content), EncodeFailed), None))
      && (!dryRun && encodable(text) ==> o.write == Some(text) && (o.result.Gifted? <==> writeOk))
  {
    GiftTextOk(content, config, slot);
  }

  /** What a gift writes: the file outside the inventory section is kept, and
      the new section holds the slots ordered by number with the present in
      `slot` and the occupancy of every other slot number unchanged. */
  lemma GiftTextSpec(content: string, config: PresentConfig, slot: int)
    requires FileSlots(content).Ok?
    ensures GiftText(content, FileSlots(content).value, config, slot).Ok?
    ensures var (_, start, end) := Extract(content).value;
      var slots := FileSlots(content).value;
      var after := SetSlotResult(slots, slot, ToInventoryItem(config));
      var text := GiftText(content, slots, config, slot).value;
      && start <= end <= |content|
      && text == content[..start] + SectionText(after) + content[end..]
      && SortedByNumber(after)
      && !SlotFree(after, slot)
      && (forall m :: m != slot ==> (SlotFree(after, m) <==> SlotFree(slots, m)))
  {
    var slots := FileSlots(content).value;
    GiftTextOk(content, config, slot);
    ExtractBounds(content);
    SetSlotSpec(slots, slot, ToInventoryItem(config));
    SetSlotOccupancy(slots, slot, ToInventoryItem(config), slot);
    forall m | m != slot
      ensures SlotFree(SetSlotResult(slots, slot, ToInventoryItem(config)), m) <==> SlotFree(slots, m)
    {
      SetSlotOccupancy(slots, slot, ToInventoryItem(config), m);
    }
  }

  /** The written file is found again where the old section began, and its
      section holds exactly the serialised slot list with the present. */
  lemma GiftSectionFound(content: string, config: PresentConfig, slot: int)
    requires FileSlots(content).Ok?
    ensures GiftText(content, FileSlots(content).value, config, slot).Ok?
    ensures var slots := FileSlots(content).value;
      var after := SetSlotResult(slots, slot, ToInventoryItem(config));
      var found := Extract(GiftText(content, slots, config, slot).value);
      && found.Ok? && found.value.0 == SectionRoundTrip.SlotList(after)
      && found.value.1 == Extract(content).value.1
      && found.value.2 == Extract(content).value.1 + |SectionText(after)|
  {
    var slots := FileSlots(content).value;
    var after := SetSlotResult(slots, slot, ToInventoryItem(config));
    GiftTextOk(content, config, slot);
    assert GiftText(content, slots, config, slot) == Replace(content, SectionText(after));
    SectionLocate.ExtractAfterReplace(content, after);
  }

  /** Reading the written file back gives the slots the gift produced, as long
      as every item among them reads back (see `SectionRoundTrip.ReadableSlots`). */
  lemma GiftReadsBack(content: string, config: PresentConfig, slot: int)
    requires FileSlots(content).Ok?
    requires SectionRoundTrip.ReadableSlots(SetSlotResult(FileSlots(content).value, slot, ToInventoryItem(config)))
    ensures GiftText(content, FileSlots(content).value, config, slot).Ok?
    ensures FileSlots(GiftText(content, FileSlots(content).value, config, slot).value)
      == Ok(SetSlotResult(FileSlots(content).value, slot, ToInventoryItem(config)))
  {
    var after := SetSlotResult(FileSlots(content).value, slot, ToInventoryItem(config));
    GiftSectionFound(content, config, slot);
    SectionRoundTrip.SectionRoundTrip(after);
  }

  /** Every type id the configuration names is a non-negative i32 value. */
  predicate IdsInRange(config: PresentConfig)
  {
    && 0 <= config.container.typeId <= I32Max
    && forall i :: 0 <= i < |config.items| ==> 0 <= config.items[i].typeId <= I32Max
  }

  /** The present built from such a configuration is well-typed. */
  lemma PresentWellTyped(config: PresentConfig)
    requires IdsInRange(config)
    ensures NestedRoundTrip.WellTyped(ToInventoryItem(config))
  {
    var it := ToInventoryItem(config);
    forall i | 0 <= i < |it.contents|
      ensures NestedRoundTrip.WellTyped(it.contents[i])
    {
      assert it.contents[i] == ChildItem(config.items[i]);
    }
  }

  /** The slots of a file that was read are sound (see `SectionRoundTrip.SoundSlots`). */
  lemma FileSlotsSound(content: string)
    ensures FileSlots(content).Ok? ==> SectionRoundTrip.SoundSlots(FileSlots(content).value)
  {
    if Extract(content).Ok? {
      SectionRoundTrip.ParsedSound(Extract(content).value.0);
    }
  }

  /** Reading the written file back gives its slots with their numbers, in
      order, each item as the parser reads it; only type ids in range and an
      i32 target slot from 0 on are needed. */
  lemma GiftRereads(content: string, config: PresentConfig, slot: int)
    requires FileSlots(content).Ok? && 0 <= slot <= I32Max && IdsInRange(config)
    ensures GiftText(content, FileSlots(content).value, config, slot).Ok?
    ensures var after := SetSlotResult(FileSlots(content).value, slot, ToInventoryItem(config));
      && SectionRoundTrip.SoundSlots(after)
      && FileSlots(GiftText(content, FileSlots(content).value, config, slot).value)
         == Ok(SectionRoundTrip.RereadSlots(after))
  {
    var slots := FileSlots(content).value;
    var after := SetSlotResult(slots, slot, ToInventoryItem(config));
    FileSlotsSound(content);
    PresentWellTyped(config);
    SectionRoundTrip.SetSlotSound(slots, slot, ToInventoryItem(config));
    GiftSectionFound(content, config, slot);
    SectionRoundTrip.SectionRereads(after);
  }

  /** Giving the same present twice: the second run finds the slot taken,
      skips the file and writes nothing. */
  lemma RegiftSkipped(path: string, content: string, config: PresentConfig, slot: int,
                      dryRun: bool, encodable: string -> bool, writeOk: bool)
    requires FileSlots(content).Ok? && 0 <= slot <= I32Max && IdsInRange(config)
    ensures GiftText(content, FileSlots(content).value, config, slot).Ok?
    ensures var text := GiftText(content, FileSlots(content).value, config, slot).value;
      ApplyPresent(path, Some(text), config, slot, dryRun, encodable, writeOk)
        == Outcome(SlotOccupied(ExtractPlayerName(text)), None)
  {
    var slots := FileSlots(content).value;
    var after := SetSlotResult(slots, slot, ToInventoryItem(config));
    GiftRereads(content, config, slot);
    SetSlotOccupancy(slots, slot, ToInventoryItem(config), slot);
    SectionRoundTrip.RereadSlotFree(after, slot);
    ApplyOccupied(path, GiftText(content, slots, config, slot).value, config, slot, dryRun, encodable, writeOk);
  }

  /** A negative target slot goes in front of every slot read from a file. */
  lemma NegativeSlotFirst(slots: seq<Slot>, slot: int, item: Item)
    requires SectionRoundTrip.SoundSlots(slots) && slot < 0
    ensures var after := SetSlotResult(slots, slot, item);
      after != [] && after[0].number == slot
  {
    var after := SetSlotResult(slots, slot, item);
    SetSlotSpec(slots, slot, item);
    assert Slot(slot, item) in multiset(after);
    var k :| 0 <= k < |after| && after[k] == Slot(slot, item);
    assert after[0].number <= slot;
    assert after[0] in multiset(after);
  }

  /** `set_slot` on an empty inventory leaves just the new slot. */
  lemma SetSlotAlone(n: int, item: Item)
    ensures SetSlotResult([], n, item) == [Slot(n, item)]
  {
    var x := Slot(n, item);
    assert Without([], n) + [x] == [x];
    assert [x][..0] == [];
    assert SortSlots([x]) == InsertSlot(x, SortSlots([]));
  }

  /** As written, a negative target slot is accepted. The written section
      then starts with `-`, reading it back finds no slot at all, and a
      second run gives the present again, replacing the section by one that
      holds the present alone: every other item of the player is lost. */
  lemma NegativeSlotForgets(path: string, content: string, config: PresentConfig, slot: int,
                            dryRun: bool, encodable: string -> bool, writeOk: bool)
    requires FileSlots(content).Ok? && slot < 0
    ensures GiftText(content, FileSlots(content).value, config, slot).Ok?
    ensures var text := GiftText(content, FileSlots(content).value, config, slot).value;
      && FileSlots(text) == Ok([])
      && ApplyPresent(path, Some(text), config, slot, dryRun, encodable, writeOk)
         == Deliver(ExtractPlayerName(text), Replace(text, SectionText([Slot(slot, ToInventoryItem(config))])),
                    dryRun, encodable, writeOk)
  {
    var slots := FileSlots(content).value;
    var after := SetSlotResult(slots, slot, ToInventoryItem(config));
    FileSlotsSound(content);
    NegativeSlotFirst(slots, slot, ToInventoryItem(config));
    GiftSectionFound(content, config, slot);
    SectionRoundTrip.NegativeFirstReadsEmpty(after);
    SetSlotAlone(slot, ToInventoryItem(config));
  }

  /** `apply_present_to_file` behind a check of the target slot: a negative
      slot is refused before the file is looked at. */
  function ApplyPresentChecked(path: string, read: Option<string>, config: PresentConfig, slot: int,
                               dryRun: bool, encodable: string -> bool, writeOk: bool): (r: Outcome)
    ensures slot < 0 ==> r.result.Error? && r.write.None?
    ensures r.write.Some? ==> 0 <= slot && r == ApplyPresent(path, read, config, slot, dryRun, encodable, writeOk)
  {
    if slot < 0 then Outcome(Error(path, InvalidSlot), None)
    else ApplyPresent(path, read, config, slot, dryRun, encodable, writeOk)
  }

  /** With the check, whatever i32 slot is asked for, a file written by one
      run is skipped by the next, which writes nothing. */
  lemma RegiftCheckedSkipped(path: string, content: string, config: PresentConfig, slot: int,
                             dryRun: bool, encodable: string -> bool, writeOk: bool,
                             dryRun2: bool, encodable2: string -> bool, writeOk2: bool)
    requires slot <= I32Max && IdsInRange(config)
    ensures var o := ApplyPresentChecked(path, Some(content), config, slot, dryRun, encodable, writeOk);
      o.write.Some? ==>
        ApplyPresentChecked(path, Some(o.write.value), config, slot, dryRun2, encodable2, writeOk2)
          == Outcome(SlotOccupied(ExtractPlayerName(o.write.value)), None)
  {
    var o := ApplyPresentChecked(path, Some(content), config, slot, dryRun, encodable, writeOk);
    if o.write.Some? {
      ApplyWritesOnlyGifts(path, Some(content), config, slot, dryRun, encodable, writeOk);
      RegiftSkipped(path, content, config, slot, dryRun2, encodable2, writeOk2);
    }
  }

  /** `apply_present_to_file` as the source writes it, on the inventory
      object: parse, check the slot, `set_slot`, `serialize`, splice. */
  method ApplyPresentToFile(path: string, read: Option<string>, config: PresentConfig, slot: int,
                            dryRun: bool, encodable: string -> bool, writeOk: bool) returns (o: Outcome)
    ensures o == ApplyPresent(path, read, config, slot, dryRun, encodable, writeOk)
  {
    if read.None? {
      return Outcome(Error(path, ReadFailed), None);
    }
    var content := read.value;
    var name := ExtractPlayerName(content);
    var extracted := ExtractScan(content);
    if extracted.Err? {
      return Outcome(Error(name, ExtractFailed(extracted.error)), None);
    }
    var parsed := InventorySection.Parse(extracted.value.0);
    if parsed.Err? {
      return Outcome(Error(name, ParseFailed(parsed.error)), None);
    }
    var inventory := parsed.value;
    if !inventory.IsSlotEmpty(slot) {
      return Outcome(SlotOccupied(name), None);
    }
    var present := ToInventoryItem(config);
    inventory.SetSlot(slot, present);
    var section := inventory.Serialize();
    var replaced := Replace(content, section);
    if replaced.Err? {
      // The section was found above, so splicing cannot fail (GiftTextOk).
      assert false;
    }
    var newContent := replaced.value;
    if !dryRun {
      if !encodable(newContent) {
        return Outcome(Error(name, EncodeFailed), None);
      }
      if !writeOk {
        return Outcome(Error(name, WriteFailed), Some(newContent));
      }
      return Outcome(Gifted(name), Some(newContent));
    }
    return Outcome(Gifted(name), None);
  }

  // ---------------------------------------------------------------------------
  // The tally
  // ---------------------------------------------------------------------------

  /** `GiftSummary`: how many files were processed, and how many of them were
      gifted, skipped or failed. */
  class GiftSummary {
    var totalProcessed: nat
    var gifted: nat
    var skipped: nat
    var errors: nat

    /** Every processed file is counted under exactly one outcome. */
    predicate Valid()
      reads this
    {
      totalProcessed == gifted + skipped + errors
    }

    /** `GiftSummary::new`. */
    constructor ()
      ensures Valid()
      ensures totalProcessed == 0 && gifted == 0 && skipped == 0 && errors == 0
    {
      totalProcessed, gifted, skipped, errors := 0, 0, 0, 0;
    }

    /** `add_result`: one more file, counted under its outcome. */
    method AddResult(r: GiftResult)
      requires Valid()
      modifies this
      ensures Valid()
      ensures totalProcessed == old(totalProcessed) + 1
      ensures gifted == old(gifted) + (if r.Gifted? then 1 else 0)
      ensures skipped == old(skipped) + (if r.SlotOccupied? then 1 else 0)
      ensures errors == old(errors) + (if r.Error? then 1 else 0)
    {
      totalProcessed := totalProcessed + 1;
      match r
      case Gifted(_) => gifted := gifted + 1;
      case SlotOccupied(_) => skipped := skipped + 1;
      case Error(_, _) => errors := errors + 1;
    }
  }
}
