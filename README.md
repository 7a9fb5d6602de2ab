# demonax-core, modelled in Dafny

This project models the text-processing core of `demonax-core`, a toolkit for the
data files of a Tibia-style game server. It covers four parts:

- **Inventory micro-language** of the `.usr` player files. It includes:
  - the recursive item tree (`2854 Content={3726 Amount=99, 3155 Charges=35}`) and its serialisation;
  - the item and item-list grammar, whose scanning loops are proved equal to specification functions;
  - the slot table `InventorySection` (`parse`, `is_slot_empty`, `set_slot`, `serialize`), modelled as a class;
  - the locator that finds `Inventory = {…}` in a whole document, and the splice that replaces only that span.
- **Present application.** The config becomes a container item. Per player file, the pipeline is read → player name → extract → parse → occupancy check → `set_slot` → serialise → splice → encode → write. It ends in a `GiftResult`, and the `GiftSummary` counters fold over the results.
- **Harvesting rules** for `moveuse.dat`. Success and failure rules are generated per entry, and the rule block is spliced between the `BEGIN "MultiUse"` and `BEGIN "Baking"` lines.
- **Pure helpers of the game-file parsers:**
  - spell shape and impact keywords;
  - spell interpretation and parameter details;
  - spell classification by flag bits and words;
  - rune type ids and the premium bit;
  - item-name title casing;
  - vocation restrictions;
  - the damage-type names and the spell enums' discriminants.

Text is `string` (a sequence of chars). Integers are unbounded `int`; the source's `i32`
limits are written out where the source checks them (`Strings.ParseI32`).
Files:

| file | module | contents |
|---|---|---|
| `wrappers.dfy` | `Wrappers` | `Option`, `Result` |
| `strings.dfy` | `Strings` | Rust's `trim`, `lines`, `split_whitespace`, `find`/`contains`, `i32` parsing and integer formatting |
| `inventory.dfy` | `Inventory` | item tree, serialisation, item grammar, scanning methods |
| `inventory_section.dfy` | `InventorySections` | slot grammar, `set_slot`, section text, the `InventorySection` class |
| `inventory_locate.dfy` | `InventoryLocate` | `extract_inventory_section`, `replace_inventory_section` |
| `item_roundtrip.dfy`, `nested_roundtrip.dfy`, `section_roundtrip.dfy` | `ItemRoundTrip`, `NestedRoundTrip`, `SectionRoundTrip` | the round-trip and grammar theorems |
| `section_locate.dfy` | `SectionLocate` | a serialised section found again by the locator, alone or spliced into a document |
| `present.dfy` | `Present` | present config, player name, gift pipeline, summary |
| `harvesting.dfy` | `Harvesting` | rule generation and insertion |
| `parsers.dfy`, `models.dfy` | `Parsers`, `Models` | the pure parser helpers, enums and damage types |

## Model

| member | source | states |
|---|---|---|
| Inventory.ScanToClose | demonax-core/src/inventory.rs:299-313 | the nested-content brace scan stops at the first `}` that brings the depth from 1 to 0 (`CloseIndex`), or at the end of the text; `closed` holds exactly when a matching brace was found |
| Inventory.CloseLenMatches | demonax-core/src/inventory.rs:180-190 | before the stop position the depth never falls below 1, and the brace at the stop position brings it to 0 |
| Inventory.CloseLenAtBrace | demonax-core/src/inventory.rs:180-190 | the scan stops inside the text only on a `}` |
| Inventory.NetDepthAppend | demonax-core/src/inventory.rs:182-186 | the brace depth of a concatenation is the sum of the parts' depths |
| Inventory.AttrValue | demonax-core/src/inventory.rs:281-290 | a recovered `Amount`/`Charges` value is a non-negative `i32`; a digit run too large for `i32` gives "absent" |
| NestedRoundTrip.BodyNested | demonax-core/src/inventory.rs:293-313 | the nested content of a container's body is exactly its children's serialised list: the search for `Content=` lands on the container's own key, not a child's, and the brace scan stops at the brace that closes that list (with `Inventory.CloseLenMatches`) |
| Inventory.ParseItemScan | demonax-core/src/inventory.rs:247-278 | the imperative `parse_item` computes exactly the item grammar `ParseItem` |
| Inventory.ParseBodyScan | demonax-core/src/inventory.rs:272-318 | the attribute and `Content=` part of `parse_item` computes exactly `ParseBody` |
| Inventory.ParseItemListScan | demonax-core/src/inventory.rs:322-362 | the character loop with a `current_item` buffer computes exactly `ParseItemList`, which splits at depth-0 commas, skips blank fragments and keeps child order |
| Inventory.PendingFragments | demonax-core/src/inventory.rs:331-359 | the loop's pending result from index `i` equals parsing the fragments of the remaining text |
| InventorySections.SkipScan | demonax-core/src/inventory.rs:129-131 | the skipping loop stops at the first character that fails the test (`SkipWhile`) |
| InventorySections.SlotScan | demonax-core/src/inventory.rs:137-153 | the slot-number step computes `SlotAt`, with an invalid-number error when the digits exceed `i32` |
| InventorySections.ContentScan | demonax-core/src/inventory.rs:155-170 | the `Content=` step computes `ContentAt`, with the position and a 20-character snippet in its error |
| InventorySections.BracedScan | demonax-core/src/inventory.rs:172-193 | the brace step computes `BracedAt`: an error without `{`, an unmatched-braces error when no `}` closes it |
| InventorySections.SlotStep | demonax-core/src/inventory.rs:127-200 | one iteration of the slot loop ends the list, fails with the grammar's error, or reads one slot and moves strictly forward |
| InventorySections.ParseSlotsScan | demonax-core/src/inventory.rs:115-203 | the imperative slot loop computes exactly `ParseSlots` |
| InventorySections.InventorySection.constructor | demonax-core/src/inventory.rs:110-112 | a new section has no slots |
| InventorySections.InventorySection.Parse | demonax-core/src/inventory.rs:115-203 | parsing succeeds exactly when `ParseSlots` does, holding its slots, and otherwise fails with its error |
| InventorySections.InventorySection.SetSlot | demonax-core/src/inventory.rs:211-218 | the new slot list is `SetSlotResult` of the old one; it is sorted, slot `n` is occupied, and every other slot's occupancy is unchanged |
| InventorySections.InventorySection.Serialize | demonax-core/src/inventory.rs:221-237 | the string loop writes `SectionText`: `Inventory   = {}` when empty, else the slot texts joined by `,\n` and 15 spaces inside `Inventory   = {…}` |
| InventorySections.WithoutCounts | demonax-core/src/inventory.rs:213 | `retain` drops every slot numbered `n` and keeps every other slot with its multiplicity |
| InventorySections.InsertSlotCounts | demonax-core/src/inventory.rs:215-217 | inserting adds exactly the one slot |
| InventorySections.SortSlotsCounts | demonax-core/src/inventory.rs:217 | sorting is a permutation |
| InventorySections.SortSlotsSorted | demonax-core/src/inventory.rs:217 | sorting orders slots ascending by number |
| InventorySections.SortSlotsStable | demonax-core/src/inventory.rs:217 | the sort is stable: for every number, the slots with that number keep their relative order |
| InventorySections.InsertSlotSorted | demonax-core/src/inventory.rs:217 | insertion into a sorted list keeps it sorted |
| InventorySections.SetSlotSpec | demonax-core/src/inventory.rs:211-218 | after `set_slot(n, it)` the list is sorted; it holds `Slot(n, it)` exactly once and no other slot numbered `n`; every other slot is kept with its multiplicity |
| InventorySections.SetSlotOccupancy | demonax-core/src/inventory.rs:206-218 | `is_slot_empty(n)` is false afterwards and unchanged for every other number |
| InventorySections.SlotTextsPrefix | demonax-core/src/inventory.rs:227-234 | serialising one more slot appends its text |
| SectionRoundTrip.ParseBlank | demonax-core/src/inventory.rs:116-121 | empty or whitespace-only section text parses to zero slots without error |
| SectionRoundTrip.SlotsStop | demonax-core/src/inventory.rs:129-144 | where the next slot should start, separators followed by the end of the text or by a character that is neither a separator nor a digit end the slot list without error |
| SectionRoundTrip.ParseItemBlank | demonax-core/src/inventory.rs:248-251 | blank item text is an empty-item error |
| SectionRoundTrip.ParseItemNoDigit | demonax-core/src/inventory.rs:257-265 | item text not starting with a digit is a missing-type-id error carrying the trimmed text |
| SectionRoundTrip.ParseItemTypeId | demonax-core/src/inventory.rs:253-272 | a parsed item's type id is exactly the value of the maximal leading digit run of the trimmed text |
| SectionRoundTrip.ParseBodyKeepsId | demonax-core/src/inventory.rs:272-318 | the attributes never change the type id |
| SectionRoundTrip.SectionRoundTrip | demonax-core/src/inventory.rs:97-203 | slots whose items are readable, serialised and joined as `serialize` joins them, parse back to the same slots in the same order, duplicates included |
| SectionRoundTrip.SectionRereads | demonax-core/src/inventory.rs:97-203 | any slots with non-negative `i32` numbers and well-typed items, serialised and joined, parse to one slot per slot written, in order, each with its number and with what `parse_item` reads from its item's text |
| SectionRoundTrip.RereadSlotsSpec | demonax-core/src/inventory.rs:127-203 | reading back keeps every slot number in its place and every item's type ids at every depth |
| SectionRoundTrip.RereadSlotFree | demonax-core/src/inventory.rs:206-208 | a slot number is occupied after reading back exactly when it was before |
| SectionRoundTrip.ParsedSound | demonax-core/src/inventory.rs:115-203 | every slot list `parse` returns has non-negative `i32` slot numbers and well-typed items |
| SectionRoundTrip.SetSlotSound | demonax-core/src/inventory.rs:211-218 | `set_slot` with a non-negative `i32` number and a well-typed item keeps a slot list sound |
| SectionRoundTrip.NegativeFirstReadsEmpty | demonax-core/src/inventory.rs:127-144 | a serialised slot list whose first number is negative starts with `-`, and `parse` reads it as no slots at all |
| ItemRoundTrip.ItemWalk | demonax-core/src/inventory.rs:64-81 | a serialised item is brace-balanced, never closes a brace it did not open, and has commas only inside braces |
| ItemRoundTrip.FragmentsWalk | demonax-core/src/inventory.rs:331-350 | text with commas only inside braces, read at depth 0 or deeper, joins the current fragment whole and changes the depth by its net brace count |
| ItemRoundTrip.LeafRoundTrip | demonax-core/src/inventory.rs:247-290 | a serialised item without contents, with a non-negative `i32` type id, amount and charges, parses back to itself |
| NestedRoundTrip.RoundTrip | demonax-core/src/inventory.rs:247-362 | a readable item tree (see Left out) parses back to itself, nested contents and order included |
| NestedRoundTrip.ListRoundTrip | demonax-core/src/inventory.rs:322-362 | a list of readable items joined with `, ` parses back to the same list |
| NestedRoundTrip.ContainerTakesChildAmount | demonax-core/src/inventory.rs:281-290 | a container with no amount of its own whose child has amount `a` parses back with amount `a` |
| NestedRoundTrip.ItemReads | demonax-core/src/inventory.rs:247-362 | every item tree whose type ids are non-negative `i32` values, whatever its amounts and charges, parses back without error and with the same type ids in the same places |
| NestedRoundTrip.ListReads | demonax-core/src/inventory.rs:322-362 | the same for a list of such items joined with `, `: as many items as were written, each of the same shape |
| NestedRoundTrip.ParsedWellTyped | demonax-core/src/inventory.rs:247-318 | every item `parse_item` returns has non-negative `i32` type ids at every depth |
| InventoryLocate.IntroParts | demonax-core/src/inventory.rs:367 | a match of the introducer is `Inventory`, whitespace, `=`, whitespace, `{`, and the match ends after the `{` |
| InventoryLocate.IntroOfParts | demonax-core/src/inventory.rs:367 | conversely, every such layout is a match |
| InventoryLocate.FindIntroFirst | demonax-core/src/inventory.rs:367-373 | no match starts before the one found |
| InventoryLocate.ExtractOk | demonax-core/src/inventory.rs:366-397 | `start` is the first match of the introducer; the content lies strictly between its `{` and the matching `}`; `end` is one past that `}`; the content is brace-balanced |
| InventoryLocate.ExtractErr | demonax-core/src/inventory.rs:366-397 | section-not-found exactly when no position matches; unmatched-braces exactly when a match exists and no `}` closes it |
| InventoryLocate.CountToClose | demonax-core/src/inventory.rs:376-391 | the counting loop is balanced exactly when the brace scan closes inside the text, and then it stops one past the `}` |
| InventoryLocate.ExtractScan | demonax-core/src/inventory.rs:366-397 | the imperative extraction computes exactly `Extract` |
| InventoryLocate.ReplaceSplices | demonax-core/src/inventory.rs:400-409 | replacing fails exactly when extraction does, with the same error; otherwise the result is `doc[..start] + section + doc[end..]`, so the bytes outside the span are untouched |
| InventoryLocate.ReplaceSame | demonax-core/src/inventory.rs:400-409 | replacing the section by its own text gives back the document |
| SectionLocate.SlotTextWalk | demonax-core/src/inventory.rs:97-99 | a slot's text never closes a brace it did not open and closes every brace it opens |
| SectionLocate.CloseLenSlotList | demonax-core/src/inventory.rs:376-391 | the brace count of `extract_inventory_section` passes over a whole serialised slot list, whatever follows it |
| SectionLocate.ExtractSectionAt | demonax-core/src/inventory.rs:366-397 | when the first introducer of a document begins a serialised section, extraction returns exactly that section's slot list, with the section's start and the index one past its end |
| SectionLocate.SectionReads | demonax-core/src/inventory.rs:221-237 | `serialize` followed by `extract_inventory_section` finds the whole text, from its first character to one past its last, and `parse` of what it returns gives back the same slots |
| SectionLocate.NoEarlierIntro | demonax-core/src/inventory.rs:367 | splicing a text that starts with `I` at the section start creates no earlier introducer match |
| SectionLocate.ExtractAfterReplace | demonax-core/src/inventory.rs:366-409 | after `replace_inventory_section` with a serialised section, extraction finds the new section where the old one began, and its content is the new slot list |
| Present.ToInventoryItemSpec | demonax-core/src/present.rs:68-81 | the present is a container with the config's type id, no amount or charges, and one childless child per config item, in order, with amount and charges copied |
| Present.ToInventoryItemInverse | demonax-core/src/present.rs:68-81 | the config can be read back from the item, so no information is lost |
| Present.ExampleSerialization | demonax-core/src/present.rs:297-320 | the example config serialises to `2854 Content={3726 Amount=99, 3155 Charges=35}` |
| Present.GiftResultAccessors | demonax-core/src/present.rs:95-111 | `is_gifted`/`is_skipped` agree with the variant, never both hold, neither holds exactly for errors, and `player_name` returns the carried name |
| Present.NameAtShape | demonax-core/src/present.rs:115 | a captured name is non-empty and quote-free |
| Present.NameParts | demonax-core/src/present.rs:115 | a match at a position is `Name`, a whitespace run, `=`, a whitespace run, `"`, a non-empty run of non-quote characters and a closing `"`, and the capture is that run |
| Present.NameOfParts | demonax-core/src/present.rs:115 | conversely, text of that shape at a position is a match there capturing the run between the quotes |
| Present.NameIndexFirst | demonax-core/src/present.rs:115-116 | the name is taken from the leftmost match |
| Present.ExtractPlayerNameSpec | demonax-core/src/present.rs:114-121 | the player name is the first `Name = "<non-empty, quote-free>"` value, else `Unknown` exactly when no position matches |
| Present.ApplyReadFails | demonax-core/src/present.rs:140-148 | a read failure is an error named after the path, with no write |
| Present.ApplyName | demonax-core/src/present.rs:150-216 | once the file is read, every result carries the extracted player name |
| Present.ApplyUnreadable | demonax-core/src/present.rs:153-172 | an extraction or parse failure is an error with that cause and no write |
| Present.ApplyOccupied | demonax-core/src/present.rs:174-177 | an occupied target slot gives `SlotOccupied` and no write |
| Present.GiftTextOk | demonax-core/src/present.rs:187-195 | once the section was extracted and parsed, splicing the new section cannot fail |
| Present.GiftTextSpec | demonax-core/src/present.rs:179-195 | the new text is the document with the section span replaced by the serialised `set_slot` result, which is sorted, has the target slot occupied and every other slot's occupancy unchanged |
| Present.DeliverWrites | demonax-core/src/present.rs:197-216 | a write happens only outside dry runs, writes the spliced text, and the result is `Gifted` exactly when the write succeeds |
| Present.ApplyWritesOnlyGifts | demonax-core/src/present.rs:133-216 | whatever the inputs, a write only happens for a read, parsed file whose target slot was free, outside dry runs, and it writes exactly the gift text |
| Present.ApplyFreeSlot | demonax-core/src/present.rs:179-216 | with a free slot: a dry run is `Gifted` with no write; an unencodable text is an encode error; otherwise the gift text is written and the result is `Gifted` exactly when writing succeeds |
| Present.GiftSectionFound | demonax-core/src/present.rs:179-195 | in the text written for a gift, the inventory section is found where the old one began, and it holds exactly the serialised slot list with the present |
| Present.GiftReadsBack | demonax-core/src/present.rs:153-195 | reading and parsing the written text gives back exactly the slots after `set_slot` (for readable slots, see Left out) |
| Present.GiftRereads | demonax-core/src/present.rs:153-195 | with type ids and target slot in the non-negative `i32` range, reading and parsing the written text gives the slots after `set_slot` with their numbers, in order, each item as the parser reads it |
| Present.RegiftSkipped | demonax-core/src/present.rs:133-217 | giving the same present to the written file again, for any target slot from 0 to `i32::MAX`, finds the slot occupied: the result is `SlotOccupied` and nothing is written |
| Present.NegativeSlotFirst | demonax-core/src/inventory.rs:211-218 | after `set_slot` with a negative number on slots read from a file, the new slot comes first |
| Present.NegativeSlotForgets | demonax-core/src/present.rs:133-217 | with a negative target slot, the written file reads back as an empty inventory, and a second run gives the present again, replacing the section by one holding the present alone |
| Present.ApplyPresentChecked | demonax-core/src/present.rs:133-217 | a negative target slot is an error with no write; any write comes from a non-negative slot and is the one `apply_present_to_file` makes |
| Present.RegiftCheckedSkipped | demonax-core/src/present.rs:133-217 | with the target slot checked first, whatever `i32` slot is asked for, a file written by one run is skipped by the next, which writes nothing |
| Present.ApplyPresentToFile | demonax-core/src/present.rs:133-217 | the early-return pipeline, run on the section class's methods, computes exactly `ApplyPresent` |
| Present.GiftSummary.constructor | demonax-core/src/present.rs:221-231 | a new summary has all counters zero and satisfies `total == gifted + skipped + errors` |
| Present.GiftSummary.AddResult | demonax-core/src/present.rs:233-240 | the total rises by one and exactly the variant's counter rises by one, so the sum invariant is kept |
| Harvesting.SuccessRuleShape | demonax-core/src/harvesting.rs:11-19 | the success rule is one non-empty line ending in `)` |
| Harvesting.FailureRuleShape | demonax-core/src/harvesting.rs:21-26 | the failure rule is one non-empty line ending in `)`, without `Random` |
| Harvesting.SuccessRuleContains | demonax-core/src/harvesting.rs:11-19 | the success rule contains `Random(p)`, `Create(Obj2, reward, 0)`, `Change(Obj2, next, 0)`, `Effect(User, 13)` and `IncrementHarvestingValue(User, race, 1)` |
| Harvesting.FailureRuleContains | demonax-core/src/harvesting.rs:21-26 | the failure rule contains `Change(Obj2, next, 0)` |
| Harvesting.GenerateRuleLines | demonax-core/src/harvesting.rs:10-29 | one entry's text splits into exactly two lines, the success rule then the failure rule |
| Harvesting.RulePairsAt | demonax-core/src/harvesting.rs:33-36 | the i-th generated pair belongs to the i-th entry |
| Harvesting.GenerateAllJoin | demonax-core/src/harvesting.rs:32-38 | all rules are the rule lines of every entry, in order, joined by `\n` |
| Harvesting.GenerateAllLines | demonax-core/src/harvesting.rs:32-38 | no entries give `""`; n entries give 2n lines, the rule lines in entry order |
| Harvesting.PositionFirst | demonax-core/src/harvesting.rs:46-59 | the marker index found is the first line containing the marker |
| Harvesting.InsertRulesScan | demonax-core/src/harvesting.rs:42-97 | the imperative insertion with its push loops computes exactly `InsertRules` |
| Harvesting.InsertRulesErrors | demonax-core/src/harvesting.rs:43-65 | the three errors occur exactly when no line holds `BEGIN "MultiUse"`; when one does but no line holds `BEGIN "Baking"`; and when the first Baking index is not after the first MultiUse index |
| Harvesting.SplicedShape | demonax-core/src/harvesting.rs:73-94 | the output lines are input lines up to the MultiUse line, `BEGIN "Harvesting"`, the rule lines, `END`, then input lines from the Baking line on |
| Harvesting.SplicedNoNewline | demonax-core/src/harvesting.rs:96 | no output line contains a newline, so joining by `\n` leaves exactly those lines |
| Harvesting.InsertRulesOk | demonax-core/src/harvesting.rs:42-97 | on success the markers are the first matching lines, MultiUse before Baking, and the output split at `\n` is exactly the spliced line list, with no trailing newline |
| Harvesting.InsertGeneratedBlock | demonax-core/src/harvesting.rs:32-97 | inserting generated rules puts exactly the 2n rule lines between the `BEGIN "Harvesting"` and `END` lines |
| Parsers.ParseShapeTypeSpec | demonax-core/src/parsers.rs:435-444 | a shape is parsed exactly when the trimmed text is its keyword |
| Parsers.ParseShapeKeyword | demonax-core/src/parsers.rs:435-444 | every shape keyword parses back to its shape |
| Parsers.ParseImpactTypeSpec | demonax-core/src/parsers.rs:447-459 | an impact is parsed exactly when the trimmed text is its keyword |
| Parsers.ParseImpactKeyword | demonax-core/src/parsers.rs:447-459 | every impact keyword parses back to its impact |
| Parsers.ShapeNameInjective | demonax-core/src/parsers.rs:469-475 | no two shapes share a display name |
| Parsers.InterpretCategory | demonax-core/src/parsers.rs:477-497 | the category: `Attack` iff Damage or Field; `Heal` iff Healing; `Buff` iff Strength, Outfit or faster Speed; `Debuff` iff Drunken or non-positive Speed; `Summon` iff Summon |
| Parsers.InterpretNames | demonax-core/src/parsers.rs:469-575 | Summon is `Summon Creature` for every shape; damage is named after its damage type (Physical when absent); a pair without a name of its own is `<shape name> <impact name>` |
| Parsers.DetailsValueRange | demonax-core/src/parsers.rs:629-663 | for Damage (offset 1) and Healing (offset 0): min and max are both present exactly when base and variation are, and are `base − var` and `base + var`; other impacts have no value fields |
| Parsers.DetailsImpactFields | demonax-core/src/parsers.rs:629-663 | speed and summon parameters fill only their own fields; only Damage has a damage type |
| Parsers.DetailsShape | demonax-core/src/parsers.rs:588-626 | a cone's range is parameter 1 and its angle parameter 0; only cones have an angle; Actor and Origin have no range; area is `Radius r` (missing → 0) or `<w>x<h>`; only single-target spells have a missile |
| Parsers.TitleWordSpec | demonax-core/src/parsers.rs:879-886 | a title-cased word differs from the word only in case, starts upper-case and is lower-case after that |
| Parsers.TitleCaseItemName | demonax-core/src/parsers.rs:877-898 | the word-mapping loop and the article removal compute `TitleWords` joined by single spaces |
| Parsers.TitleCaseSpec | demonax-core/src/parsers.rs:877-898 | the result's words are the name's words in order, each capitalised and otherwise equal up to ASCII case, with one leading `a`/`an` removed |
| Parsers.RuneTypeIdSpec | demonax-core/src/parsers.rs:1189-1191 | the rune type id is `3147 + nr`, whatever the group |
| Parsers.IsPremiumBit | demonax-core/src/parsers.rs:1194-1196 | premium is bit 0x02, independent of bits 0x01 and 0x08 |
| Parsers.ClassifyPriority | demonax-core/src/parsers.rs:1199-1230 | each class is chosen exactly when its own test passes and every earlier test fails, in the order area/attack, healing, summon, support, utility, other |
| Parsers.EvoResHasEvo | demonax-core/src/parsers.rs:1215-1227 | every summon word would also pass the later `evo` test, so the order of those two tests matters |
| Parsers.ClassifyIgnoresPremium | demonax-core/src/parsers.rs:1199-1230 | the class ignores the premium bit and the spell name |
| Parsers.ChosenSpec | demonax-core/src/parsers.rs:1295-1309 | the pushes list exactly the flagged vocations, once each, in the order Knight, Paladin, Druid, Sorcerer |
| Parsers.ExtractVocationsFromLine | demonax-core/src/parsers.rs:1294-1322 | the push sequence computes the names of `VocationsFromLine` |
| Parsers.VocationsFromLineSpec | demonax-core/src/parsers.rs:1294-1322 | one to four vocations in rank order; a vocation is listed exactly when the line names it or names none |
| Parsers.MentionsIgnoresCase | demonax-core/src/parsers.rs:1298-1308 | a line names a vocation exactly when its lower-cased text contains `<vocation>,` |
| Parsers.ExtractRuneVocations | demonax-core/src/parsers.rs:1421-1438 | the result always has exactly one element |
| Parsers.RunePrefixWins | demonax-core/src/parsers.rs:1425-1428 | a line starting with a vocation marker is restricted to that vocation, whatever its description says |
| Parsers.RuneOnlyFor | demonax-core/src/parsers.rs:1431-1434 | without a marker, the first `only for <vocation>` phrase in the order Sorcerer, Druid, Knight, Paladin decides |
| Parsers.RuneUnrestricted | demonax-core/src/parsers.rs:1421-1438 | the result is `None` exactly when no marker and no phrase matches |
| Models.ShapeDiscriminants | demonax-core/src/models.rs:185-192 | shape discriminants are exactly 0 to 4, one per variant |
| Models.ImpactDiscriminants | demonax-core/src/models.rs:195-204 | impact discriminants are exactly 0 to 7, one per variant |
| Models.DamageTypeNameKnown | demonax-core/src/models.rs:220-233 | a code has a fixed name exactly when it is one of the nine constants; any other code is `Unknown(<code>)` |
| Models.DamageConstantNames | demonax-core/src/models.rs:207-230 | each damage-type constant maps to its name |
| Models.DamageTypeNameInjective | demonax-core/src/models.rs:220-233 | no two codes share a name |
| ItemRoundTrip.NatTextValue | demonax-core/src/inventory.rs:146-148 | every value from 0 to `i32::MAX`, written in decimal, is a digit run that the `i32` parse turns back into the same value |

## Left out

- Reading, Windows-1252 encoding and writing of the player file are parameters of `Present.ApplyPresent`: the read content or its absence, whether the new text is encodable, and whether the write succeeds. Directory walking, decoding and the parallel fan-out in the command-line tool are not modelled.
- `PresentConfig::from_file`/`from_str` are TOML loading through a foreign library and are not part of this model.
- The database layer, image rendering, the command-line tool and the regex-driven file parsers (`parse_usr_file`, `parse_mon_file`, `parse_npc_*`, `parse_magic_cc`, `parse_evt_file` and others) are not part of this model. Neither are the floating-point helpers (`get_loot_percent`, raid intervals).
- Error messages are error constructors (`Inventory.ParseError`, `Present.GiftError`, `Harvesting.HarvestError`) rather than formatted strings. The I/O error text that the source appends is not kept.
- Byte offsets and character offsets are the same in the model. In `extract_inventory_section` the start of the section and the opening brace are true byte offsets, but the end is the brace's byte offset plus a count of characters (inventory.rs:393). When non-ASCII characters occur inside the section, that end is too small: `replace_inventory_section` then splices at the wrong byte, or panics when the offset falls inside a character. The model has no such case.
- InventorySections.ContentAt and InventorySections.ContentScan: the error snippet after a missing `Content=` is the first 20 characters of the rest of the text. The source slices the first 20 bytes (inventory.rs:162), which panics when byte 20 falls inside a multi-byte character; the model never panics there.
- Inventory.AttrValue: the regex class `\d` is Unicode-aware in the source; the model reads ASCII digits only. When a non-ASCII decimal digit is next to the digits after `Amount=` or `Charges=`, the source captures it too, the `i32` parse of the capture fails and the value is "absent", while the model reads the ASCII digits alone.
- Parsers.TitleCaseItemName: upper- and lower-casing are ASCII-only. Rust's Unicode case mapping, which can change a character's length, is not modelled.
- Parsers.ExtractRuneVocations: `to_lowercase` (parsers.rs:1422) is modelled as ASCII lower-casing, so vocation markers and `only for` phrases written with non-ASCII letters are not recognised the same way.
- Parsers.ExtractVocationsFromLine: `to_lowercase` is modelled as ASCII lower-casing, so vocation markers written with non-ASCII letters are not recognised the same way.
- NestedRoundTrip.RoundTrip: holds for "readable" trees only. Type ids, amounts and charges must be non-negative `i32`. An item without an amount must have no amount anywhere in its contents, and likewise for charges. The reason is that the source searches `Amount=`/`Charges=` anywhere after the type id, so a container without an amount picks up the first amount in its contents (proved in `NestedRoundTrip.ContainerTakesChildAmount`).
- SectionRoundTrip.SectionRoundTrip: stated for the slot list between the braces (what `parse` receives), with readable items and `i32` slot numbers.
- SectionLocate.SectionReads: stated for readable slots only, for the reason given for `NestedRoundTrip.RoundTrip`.
- Present.GiftReadsBack: stated for readable slots only. The present is a container with no amount or charges of its own, so when a config item has an amount or charges, the written container reads back with that child's value (`NestedRoundTrip.ContainerTakesChildAmount`).
- Present.RegiftSkipped: stated for configured type ids and a target slot from 0 to `i32::MAX`. With a negative type id, `parse_item` rejects the written item text, which does not start with a digit, so the second run reports a parse error instead. A negative target slot is the finding below.
- Parsers.RuneTypeIdSpec: `3147 + nr` is computed on unbounded integers; the `i32` overflow for `nr` near the top of the range is not modelled.
- Parsers.DetailsValueRange: `base ± var` is computed on unbounded integers; `i32` overflow is not modelled.
- Item fields, slot numbers and spell parameters that are `i32` in the source are `int` in the model. Parsing keeps the `i32` bound (`Strings.ParseI32`), but nothing else limits those values.

## Findings

| source | as written | input that shows it | evidently intended | confidence | as-written member | corrected member |
|---|---|---|---|---|---|---|
| demonax-core/src/present.rs:133-217 | the target slot is any `i32` (the command line does not check it, cli/src/main.rs:171) and is used as given | a negative target slot, say `-1`, on a file with items: the present sorts first, the section is written as `{-1 Content=…, 0 Content=…}`, `parse` stops at the `-` and sees no slots, so a second run gives the present again and writes a section holding only the present | a negative slot is refused, so that giving a present twice leaves the file as the first run wrote it | high (not executed) | Present.NegativeSlotForgets | Present.RegiftCheckedSkipped |
