/**
 * The pure helpers of the game-file parsers: spell shape and impact keywords,
 * the human-readable interpretation of a creature spell and its parameters,
 * spell classification by flags and words, item-name title casing, and the
 * vocation restrictions read from NPC lines.
 */
module Parsers {
  import opened Wrappers
  import opened Strings
  import opened Models

  // ---------------------------------------------------------------------------
  // Shape and impact keywords
  // ---------------------------------------------------------------------------

  /** The keyword a spell definition uses for each shape. */
  function ShapeKeyword(t: SpellShapeType): string
  {
    match t
    case Actor => "Actor"
    case Victim => "Victim"
    case Origin => "Origin"
    case Destination => "Destination"
    case Angle => "Angle"
  }

  /** The keyword a spell definition uses for each impact. */
  function ImpactKeyword(t: SpellImpactType): string
  {
    match t
    case Damage => "Damage"
    case Field => "Field"
    case Healing => "Healing"
    case Speed => "Speed"
    case Drunken => "Drunken"
    case Strength => "Strength"
    case Outfit => "Outfit"
    case Summon => "Summon"
  }

  /** `parse_spell_shape_type`: the trimmed text must be a keyword exactly. */
  function ParseShapeType(s: string): Option<SpellShapeType>
  {
    var t := Trim(s);
    if t == "Actor" then Some(Actor)
    else if t == "Victim" then Some(Victim)
    else if t == "Origin" then Some(Origin)
    else if t == "Destination" then Some(Destination)
    else if t == "Angle" then Some(Angle)
    else None
  }

  /** `parse_spell_impact_type`: the trimmed text must be a keyword exactly. */
  function ParseImpactType(s: string): Option<SpellImpactType>
  {
    var t := Trim(s);
    if t == "Damage" then Some(Damage)
    else if t == "Field" then Some(Field)
    else if t == "Healing" then Some(Healing)
    else if t == "Speed" then Some(Speed)
    else if t == "Drunken" then Some(Drunken)
    else if t == "Strength" then Some(Strength)
    else if t == "Outfit" then Some(Outfit)
    else if t == "Summon" then Some(Summon)
    else None
  }

  /** Parsing yields a shape exactly when the trimmed text is its keyword. */
  lemma ParseShapeTypeSpec(s: string, t: SpellShapeType)
    ensures ParseShapeType(s) == Some(t) <==> Trim(s) == ShapeKeyword(t)
  {
  }

  /** Every keyword parses back to its shape. */
  lemma ParseShapeKeyword(t: SpellShapeType)
    ensures ParseShapeType(ShapeKeyword(t)) == Some(t)
  {
    var k := ShapeKeyword(t);
    assert NotWhitespace(k[0]) && NotWhitespace(k[|k| - 1]);
    TrimNoop(k);
  }

  /** Parsing yields an impact exactly when the trimmed text is its keyword. */
  lemma ParseImpactTypeSpec(s: string, t: SpellImpactType)
    ensures ParseImpactType(s) == Some(t) <==> Trim(s) == ImpactKeyword(t)
  {
  }

  /** Every keyword parses back to its impact. */
  lemma ParseImpactKeyword(t: SpellImpactType)
    ensures ParseImpactType(ImpactKeyword(t)) == Some(t)
  {
    var k := ImpactKeyword(t);
    assert NotWhitespace(k[0]) && NotWhitespace(k[|k| - 1]);
    TrimNoop(k);
  }

  // ---------------------------------------------------------------------------
  // Spell interpretation
  // ---------------------------------------------------------------------------

  /** `params.get(i).copied()`. */
  function Param(params: seq<int>, i: nat): (r: Option<int>)
    ensures r.Some? <==> i < |params|
  {
    if i < |params| then Some(params[i]) else None
  }

  /** `params.get(i).copied().unwrap_or(default)`. */
  function ParamOr(params: seq<int>, i: nat, default: int): int
  {
    if i < |params| then params[i] else default
  }

  /** The display name of a shape. */
  function ShapeName(shape: SpellShapeType): string
  {
    match shape
    case Actor => "Self"
    case Victim => "Single Target"
    case Origin => "Area (Self)"
    case Destination => "Area (Target)"
    case Angle => "Cone"
  }

  /** No two shapes share a display name. */
  lemma ShapeNameInjective(a: SpellShapeType, b: SpellShapeType)
    requires ShapeName(a) == ShapeName(b)
    ensures a == b
  {
    assert ShapeName(a)[0] == ShapeName(b)[0];
    assert |ShapeName(a)| == |ShapeName(b)|;
  }

  /** The impact's display name and the spell category it puts the spell in. */
  function ImpactNameAndCategory(impact: SpellImpactType, impactParams: seq<int>): (string, string)
  {
    match impact
    case Damage => (DamageTypeName(ParamOr(impactParams, 0, 1)) + " Damage", "Attack")
    case Healing => ("Healing", "Heal")
    case Speed => if ParamOr(impactParams, 0, 0) > 0 then ("Speed Boost", "Buff") else ("Paralyze", "Debuff")
    case Summon => ("Summon", "Summon")
    case Field => ("Field", "Attack")
    case Drunken => ("Drunken", "Debuff")
    case Strength => ("Strength Boost", "Buff")
    case Outfit => ("Transform", "Buff")
  }

  /** The shape and impact pairs that have a spell name of their own. */
  predicate HasOwnName(shape: SpellShapeType, impact: SpellImpactType)
  {
    || (impact == Damage && shape != Actor)
    || ((impact == Healing || impact == Speed) && (shape == Actor || shape == Victim || shape == Origin))
    || impact == Summon
    || (shape == Destination && impact == Field)
  }

  function DamageSpellName(shape: SpellShapeType, damageType: int): string
    requires shape != Actor
  {
    match shape
    case Victim =>
      (match damageType
       case 1 => "Strike"
       case 2 => "Poison Strike"
       case 4 => "Fire Strike"
       case 8 => "Energy Strike"
       case 256 => "Life Drain"
       case 512 => "Mana Drain"
       case _ => "Magic Strike")
    case Destination =>
      (match damageType
       case 4 => "Fireball"
       case 8 => "Energy Ball"
       case 2 => "Poison Bomb"
       case _ => "Explosion")
    case Angle =>
      (match damageType
       case 4 => "Fire Wave"
       case 8 => "Energy Wave"
       case 2 => "Poison Wave"
       case 1 => "Physical Wave"
       case _ => "Magic Wave")
    case Origin =>
      (match damageType
       case 4 => "Fire Burst"
       case 8 => "Energy Burst"
       case 2 => "Poison Burst"
       case 32 => "Poison Field (DoT)"
       case 64 => "Fire Field (DoT)"
       case 128 => "Energy Field (DoT)"
       case _ => "Explosion")
  }

  /** The spell name for a shape and impact pair; `fallback` for the pairs
      without a name of their own. */
  function SpellName(shape: SpellShapeType, impact: SpellImpactType, impactParams: seq<int>, fallback: string): string
  {
    var modifier := ParamOr(impactParams, 0, 0);
    if impact == Damage && shape != Actor then DamageSpellName(shape, ParamOr(impactParams, 0, 1))
    else if impact == Healing && shape == Actor then "Self Heal"
    else if impact == Healing && shape == Victim then "Heal Other"
    else if impact == Healing && shape == Origin then "Area Heal"
    else if impact == Speed && shape == Actor then (if modifier > 0 then "Haste" else "Self Slow")
    else if impact == Speed && shape == Victim then (if modifier > 0 then "Speed Boost" else "Paralyze")
    else if impact == Speed && shape == Origin then (if modifier > 0 then "Mass Haste" else "Mass Paralyze")
    else if impact == Summon then "Summon Creature"
    else if shape == Destination && impact == Field then "Magic Field"
    else fallback
  }

  /** `interpret_spell`'s four strings. */
  datatype Interpretation = Interpretation(spellName: string, category: string, shapeName: string, impactName: string)

  /** `interpret_spell`. The shape parameters are not consulted. */
  function InterpretSpell(shape: SpellShapeType, shapeParams: seq<int>, impact: SpellImpactType, impactParams: seq<int>): Interpretation
  {
    var shapeName := ShapeName(shape);
    var (impactName, category) := ImpactNameAndCategory(impact, impactParams);
    Interpretation(SpellName(shape, impact, impactParams, shapeName + " " + impactName), category, shapeName, impactName)
  }

  /** The category depends on the impact alone (and, for Speed, on the sign of
      the modifier): damage and fields attack, healing heals, a positive speed
      change, strength and transformation buff, the rest debuff or summon. */
  lemma InterpretCategory(shape: SpellShapeType, shapeParams: seq<int>, impact: SpellImpactType, impactParams: seq<int>)
    ensures var c := InterpretSpell(shape, shapeParams, impact, impactParams).category;
      var faster := ParamOr(impactParams, 0, 0) > 0;
      && (c == "Attack" <==> impact == Damage || impact == Field)
      && (c == "Heal" <==> impact == Healing)
      && (c == "Buff" <==> impact == Strength || impact == Outfit || (impact == Speed && faster))
      && (c == "Debuff" <==> impact == Drunken || (impact == Speed && !faster))
      && (c == "Summon" <==> impact == Summon)
  {
  }

  /** Summons are named `Summon Creature` whatever the shape; a damage impact
      is named after its damage type (Physical when absent); a pair without a
      name of its own is named `<shape name> <impact name>`. */
  lemma InterpretNames(shape: SpellShapeType, shapeParams: seq<int>, impact: SpellImpactType, impactParams: seq<int>)
    ensures var r := InterpretSpell(shape, shapeParams, impact, impactParams);
      && r.shapeName == ShapeName(shape)
      && (impact == Summon ==> r.spellName == "Summon Creature")
      && (impact == Damage ==> r.impactName == DamageTypeName(ParamOr(impactParams, 0, 1)) + " Damage")
      && (impact == Damage && impactParams == [] ==> r.impactName == DamageTypeName(Physical) + " Damage")
      && (!HasOwnName(shape, impact) ==> r.spellName == r.shapeName + " " + r.impactName)
  {
  }

  // ---------------------------------------------------------------------------
  // Spell details
  // ---------------------------------------------------------------------------

  /** The fourteen optional fields `extract_spell_details` returns, in order. */
  datatype SpellDetails = SpellDetails(
    range: Option<int>, areaSize: Option<string>, angle: Option<int>,
    damageType: Option<string>, baseValue: Option<int>, variation: Option<int>,
    minValue: Option<int>, maxValue: Option<int>, speedModifier: Option<int>,
    duration: Option<int>, summonRaceId: Option<int>, summonCount: Option<int>,
    effectId: Option<int>, missileEffectId: Option<int>)

  /** `base.and_then(|b| var.map(|v| b - v))` and the same with `+`. */
  function Spread(base: Option<int>, variation: Option<int>): (Option<int>, Option<int>)
  {
    if base.Some? && variation.Some? then (Some(base.value - variation.value), Some(base.value + variation.value))
    else (None, None)
  }

  /** The area description: `Radius <r>` around the caster, `<w>x<h>` at the target. */
  function AreaSize(shape: SpellShapeType, shapeParams: seq<int>): Option<string>
  {
    match shape
    case Origin => Some("Radius " + IntToString(ParamOr(shapeParams, 0, 0)))
    case Destination => Some(IntToString(ParamOr(shapeParams, 1, 0)) + "x" + IntToString(ParamOr(shapeParams, 2, 0)))
    case _ => None
  }

  /** `extract_spell_details`. */
  function ExtractSpellDetails(shape: SpellShapeType, shapeParams: seq<int>, impact: SpellImpactType, impactParams: seq<int>): SpellDetails
  {
    var range := match shape
      case Victim => Param(shapeParams, 0)
      case Destination => Param(shapeParams, 0)
      case Angle => Param(shapeParams, 1)
      case _ => None;
    var angle := if shape == Angle then Param(shapeParams, 0) else None;
    var (effect, missile) := match shape
      case Actor => (Param(shapeParams, 0), None)
      case Victim => (Param(shapeParams, 2), Param(shapeParams, 1))
      case Origin => (Param(shapeParams, 1), None)
      case Destination => (Param(shapeParams, 3), None)
      case Angle => (Param(shapeParams, 2), None);
    var none := SpellDetails(range, AreaSize(shape, shapeParams), angle,
      None, None, None, None, None, None, None, None, None, effect, missile);
    match impact
    case Damage =>
      var base, variation := Param(impactParams, 1), Param(impactParams, 2);
      var (lo, hi) := Spread(base, variation);
      none.(damageType := Some(DamageTypeName(ParamOr(impactParams, 0, 1))),
            baseValue := base, variation := variation, minValue := lo, maxValue := hi)
    case Healing =>
      var base, variation := Param(impactParams, 0), Param(impactParams, 1);
      var (lo, hi) := Spread(base, variation);
      none.(baseValue := base, variation := variation, minValue := lo, maxValue := hi)
    case Speed =>
      none.(speedModifier := Param(impactParams, 0), duration := Param(impactParams, 1))
    case Summon =>
      none.(summonRaceId := Param(impactParams, 0), summonCount := Param(impactParams, 1))
    case _ => none
  }

  /** For damage (base at parameter 1) and healing (base at parameter 0) the
      range is `base ± variation`, present exactly when both parameters are;
      other impacts have no value fields at all. */
  lemma DetailsValueRange(shape: SpellShapeType, shapeParams: seq<int>, impact: SpellImpactType, impactParams: seq<int>)
    ensures var d := ExtractSpellDetails(shape, shapeParams, impact, impactParams);
      var offset := if impact == Damage then 1 else 0;
      if impact == Damage || impact == Healing then
        && d.baseValue == Param(impactParams, offset)
        && d.variation == Param(impactParams, offset + 1)
        && (d.minValue.Some? <==> offset + 2 <= |impactParams|)
        && (d.maxValue.Some? <==> d.minValue.Some?)
        && (d.minValue.Some? ==>
              && d.minValue.value == d.baseValue.value - d.variation.value
              && d.maxValue.value == d.baseValue.value + d.variation.value
              && d.minValue.value + d.maxValue.value == 2 * d.baseValue.value)
        && (d.damageType.Some? <==> impact == Damage)
      else
        d.damageType.None? && d.baseValue.None? && d.variation.None? && d.minValue.None? && d.maxValue.None?
  {
  }

  /** Speed and summon parameters land in their own fields and nowhere else. */
  lemma DetailsImpactFields(shape: SpellShapeType, shapeParams: seq<int>, impact: SpellImpactType, impactParams: seq<int>)
    ensures var d := ExtractSpellDetails(shape, shapeParams, impact, impactParams);
      && (impact == Damage ==> d.damageType == Some(DamageTypeName(ParamOr(impactParams, 0, 1))))
      && (impact == Speed ==> d.speedModifier == Param(impactParams, 0) && d.duration == Param(impactParams, 1))
      && (impact != Speed ==> d.speedModifier.None? && d.duration.None?)
      && (impact == Summon ==> d.summonRaceId == Param(impactParams, 0) && d.summonCount == Param(impactParams, 1))
      && (impact != Summon ==> d.summonRaceId.None? && d.summonCount.None?)
  {
  }

  /** The shape fields: a cone's range is its second parameter and its angle
      the first; only cones have an angle; self and area-around-self spells
      have no range; areas are `Radius <r>` (missing radius 0) or `<w>x<h>`;
      only single-target spells have a missile. */
  lemma DetailsShape(shape: SpellShapeType, shapeParams: seq<int>, impact: SpellImpactType, impactParams: seq<int>)
    ensures var d := ExtractSpellDetails(shape, shapeParams, impact, impactParams);
      && (shape == Angle ==> d.range == Param(shapeParams, 1) && d.angle == Param(shapeParams, 0))
      && (shape != Angle ==> d.angle.None?)
      && (shape == Victim || shape == Destination ==> d.range == Param(shapeParams, 0))
      && (shape == Actor || shape == Origin ==> d.range.None?)
      && (shape == Origin ==> d.areaSize == Some("Radius " + IntToString(ParamOr(shapeParams, 0, 0))))
      && (shape == Origin && shapeParams == [] ==> d.areaSize == Some("Radius " + IntToString(0)))
      && (shape == Destination ==>
            d.areaSize == Some(IntToString(ParamOr(shapeParams, 1, 0)) + "x" + IntToString(ParamOr(shapeParams, 2, 0))))
      && (shape != Origin && shape != Destination ==> d.areaSize.None?)
      && (d.missileEffectId.Some? ==> shape == Victim)
  {
  }

  // ---------------------------------------------------------------------------
  // Item names
  // ---------------------------------------------------------------------------

  lemma CaseKeepsWord(c: char)
    requires NotWhitespace(c)
    ensures NotWhitespace(ToUpperAscii(c)) && NotWhitespace(ToLowerAscii(c))
  {
  }

  /** One word with its first character upper-cased and the rest lower-cased. */
  function TitleWord(w: string): (r: string)
    requires w != []
    ensures |r| == |w|
  {
    [ToUpperAscii(w[0])] + LowerAscii(w[1..])
  }

  /** Title casing changes only the case of a word. */
  lemma TitleWordSpec(w: string)
    requires IsWord(w)
    ensures IsWord(TitleWord(w))
    ensures LowerAscii(TitleWord(w)) == LowerAscii(w)
    ensures ToUpperAscii(TitleWord(w)[0]) == TitleWord(w)[0]
    ensures forall k :: 1 <= k < |w| ==> ToLowerAscii(TitleWord(w)[k]) == TitleWord(w)[k]
  {
    var t := TitleWord(w);
    forall k | 0 <= k < |t|
      ensures NotWhitespace(t[k]) && ToLowerAscii(t[k]) == ToLowerAscii(w[k])
    {
      CaseKeepsWord(w[k]);
    }
  }

  /** `eq_ignore_ascii_case` with `a` or `an`. */
  predicate IsArticle(w: string)
  {
    EqIgnoreAsciiCase(w, "a") || EqIgnoreAsciiCase(w, "an")
  }

  /** The title-cased words of a name, the first one dropped if it is an article. */
  function TitleWords(name: string): seq<string>
  {
    var ws := Words(name);
    var titled := seq(|ws|, i requires 0 <= i < |ws| => TitleWord(ws[i]));
    if titled != [] && IsArticle(titled[0]) then titled[1..] else titled
  }

  /** `title_case_item_name`: the words are mapped one by one into a vector,
      a leading article is removed, and the rest are joined with spaces. */
  method TitleCaseItemName(name: string) returns (r: string)
    ensures r == Join(TitleWords(name), " ")
  {
    var ws := Words(name);
    var words: seq<string> := [];
    for i := 0 to |ws|
      invariant words == seq(i, j requires 0 <= j < i => TitleWord(ws[j]))
    {
      words := words + [TitleWord(ws[i])];
    }
    if |words| > 0 {
      if EqIgnoreAsciiCase(words[0], "a") || EqIgnoreAsciiCase(words[0], "an") {
        words := words[1..];
      }
    }
    r := Join(words, " ");
  }

  /** Splitting the result again gives the name's words in order, each
      capitalised and otherwise unchanged up to ASCII case, without one
      leading `a`/`an`. */
  lemma TitleCaseSpec(name: string)
    ensures var ws := Words(name);
      var out := Words(Join(TitleWords(name), " "));
      var drop := if ws != [] && IsArticle(ws[0]) then 1 else 0;
      && |out| == |ws| - drop
      && (forall i :: 0 <= i < |out| ==> LowerAscii(out[i]) == LowerAscii(ws[i + drop]))
      && (forall i :: 0 <= i < |out| ==> ToUpperAscii(out[i][0]) == out[i][0])
  {
    var ws := Words(name);
    var titled := seq(|ws|, i requires 0 <= i < |ws| => TitleWord(ws[i]));
    forall i | 0 <= i < |ws|
      ensures IsWord(titled[i]) && LowerAscii(titled[i]) == LowerAscii(ws[i])
      ensures ToUpperAscii(titled[i][0]) == titled[i][0]
    {
      TitleWordSpec(ws[i]);
    }
    if ws != [] {
      assert IsArticle(titled[0]) == IsArticle(ws[0]);
    }
    var kept := TitleWords(name);
    WordsOfJoin(kept);
  }

  // ---------------------------------------------------------------------------
  // Spell flags and classification
  // ---------------------------------------------------------------------------

  /** `flags & mask != 0` for a single-bit mask, on the two's-complement
      pattern of `flags`. */
  predicate HasFlag(flags: int, mask: int)
    requires mask > 0
  {
    (flags / mask) % 2 == 1
  }

  /** `calculate_rune_type_id`: the rune group plays no part. */
  function CalculateRuneTypeId(runeGr: int, runeNr: int): int
  {
    3147 + runeNr
  }

  /** The rune type ids of two runes agree exactly when their numbers do,
      whatever their groups. */
  lemma RuneTypeIdSpec(gr1: int, gr2: int, nr1: int, nr2: int)
    ensures CalculateRuneTypeId(gr1, nr1) == CalculateRuneTypeId(gr2, nr2) <==> nr1 == nr2
    ensures CalculateRuneTypeId(gr1, nr1) - nr1 == 3147
  {
  }

  /** `is_premium`: bit 0x02. */
  predicate IsPremium(flags: int)
  {
    HasFlag(flags, 0x02)
  }

  /** The premium bit is the second-lowest bit: adding or removing 1 (the
      aggressive bit) or 8 (the healing bit) never changes it. */
  lemma IsPremiumBit(flags: int)
    ensures IsPremium(flags) <==> flags % 4 >= 2
    ensures !HasFlag(flags, 0x01) ==> (IsPremium(flags + 1) <==> IsPremium(flags))
    ensures IsPremium(flags + 8) <==> IsPremium(flags)
  {
  }

  /** `classify_spell_by_flags`; the spell's name is not consulted. */
  function ClassifySpellByFlags(flags: int, words: string, name: string): string
  {
    if HasFlag(flags, 0x01) then
      if Contains(words, "mas") || Contains(words, "grav") then "area" else "attack"
    else if HasFlag(flags, 0x08) || Contains(words, "ura") then "healing"
    else if Contains(words, "evo res") then "summon"
    else if Contains(words, "hur") && !Contains(words, "mort") then "support"
    else if Contains(words, "lux") || Contains(words, "evo") then "utility"
    else "other"
  }

  /** The decision list, outcome by outcome: each class is chosen exactly when
      its own test passes and every earlier one fails. */
  lemma ClassifyPriority(flags: int, words: string, name: string)
    ensures var c := ClassifySpellByFlags(flags, words, name);
      var aggressive := HasFlag(flags, 0x01);
      var healing := HasFlag(flags, 0x08) || Contains(words, "ura");
      var summon := Contains(words, "evo res");
      var support := Contains(words, "hur") && !Contains(words, "mort");
      && (c == "area" <==> aggressive && (Contains(words, "mas") || Contains(words, "grav")))
      && (c == "attack" <==> aggressive && !Contains(words, "mas") && !Contains(words, "grav"))
      && (c == "healing" <==> !aggressive && healing)
      && (c == "summon" <==> !aggressive && !healing && summon)
      && (c == "support" <==> !aggressive && !healing && !summon && support)
      && (c == "utility" <==> (!aggressive && !healing && !summon && !support
                               && (Contains(words, "lux") || Contains(words, "evo"))))
      && (c == "other" <==> (!aggressive && !healing && !summon && !support
                             && !Contains(words, "lux") && !Contains(words, "evo")))
  {
  }

  /** Any text containing `evo res` also contains `evo`. */
  lemma EvoResHasEvo(words: string)
    requires Contains(words, "evo res")
    ensures Contains(words, "evo")
  {
    var k := Find(words, "evo res").value;
    assert words[k..k + 3] == words[k..k + 7][..3];
    ContainsAt(words, "evo", k);
  }

  /** Setting the premium bit leaves the aggressive and healing bits alone. */
  lemma PremiumBitApart(flags: int)
    requires !IsPremium(flags)
    ensures HasFlag(flags + 2, 0x01) == HasFlag(flags, 0x01)
    ensures HasFlag(flags + 2, 0x08) == HasFlag(flags, 0x08)
  {
    var q, r := flags / 8, flags % 8;
    assert flags == 8 * q + r;
    assert flags / 2 == 4 * q + r / 2;
    assert (r / 2) % 2 == 0;
    assert r + 2 < 8;
    assert flags + 2 == 8 * q + (r + 2);
    assert (flags + 2) / 8 == q;
  }

  /** The classification ignores the premium bit and the spell's name. */
  lemma ClassifyIgnoresPremium(flags: int, words: string, name1: string, name2: string)
    requires !IsPremium(flags)
    ensures ClassifySpellByFlags(flags + 2, words, name1) == ClassifySpellByFlags(flags, words, name2)
  {
    PremiumBitApart(flags);
  }

  // ---------------------------------------------------------------------------
  // Vocations
  // ---------------------------------------------------------------------------

  datatype Vocation = Knight | Paladin | Druid | Sorcerer
  {
    function Name(): string
    {
      match this
      case Knight => "Knight"
      case Paladin => "Paladin"
      case Druid => "Druid"
      case Sorcerer => "Sorcerer"
    }

    /** The capitalised marker searched in a teaching line. */
    function Key(): string
    {
      match this
      case Knight => "Knight,"
      case Paladin => "Paladin,"
      case Druid => "Druid,"
      case Sorcerer => "Sorcerer,"
    }

    /** The lower-case marker, searched in the lower-cased line. */
    function LowerKey(): string
    {
      match this
      case Knight => "knight,"
      case Paladin => "paladin,"
      case Druid => "druid,"
      case Sorcerer => "sorcerer,"
    }

    /** The restriction phrase of a rune description. */
    function OnlyFor(): string
    {
      match this
      case Knight => "only for knight"
      case Paladin => "only for paladin"
      case Druid => "only for druid"
      case Sorcerer => "only for sorcerer"
    }
  }

  /** The order `extract_vocations_from_line` reports vocations in. */
  function LineRank(v: Vocation): nat
  {
    match v
    case Knight => 0
    case Paladin => 1
    case Druid => 2
    case Sorcerer => 3
  }

  /** A teaching line names a vocation, in either spelling of its marker. */
  predicate Mentions(line: string, v: Vocation)
  {
    Contains(line, v.Key()) || Contains(LowerAscii(line), v.LowerKey())
  }

  /** The flag that belongs to `v` among one flag per vocation. */
  function Pick(v: Vocation, knight: bool, paladin: bool, druid: bool, sorcerer: bool): bool
  {
    match v
    case Knight => knight
    case Paladin => paladin
    case Druid => druid
    case Sorcerer => sorcerer
  }

  /** `acc` with `v` pushed when `named` holds. */
  function Push(acc: seq<Vocation>, named: bool, v: Vocation): seq<Vocation>
  {
    if named then acc + [v] else acc
  }

  /** The vocations whose flag is set, in rank order. */
  function Chosen(knight: bool, paladin: bool, druid: bool, sorcerer: bool): seq<Vocation>
  {
    Push(Push(Push(Push([], knight, Knight), paladin, Paladin), druid, Druid), sorcerer, Sorcerer)
  }

  /** Chosen lists exactly the flagged vocations, each once, in rank order. */
  lemma ChosenSpec(knight: bool, paladin: bool, druid: bool, sorcerer: bool, v: Vocation)
    ensures var r := Chosen(knight, paladin, druid, sorcerer);
      && |r| <= 4
      && (v in r <==> Pick(v, knight, paladin, druid, sorcerer))
      && (r == [] <==> !knight && !paladin && !druid && !sorcerer)
      && (forall i, j :: 0 <= i < j < |r| ==> LineRank(r[i]) < LineRank(r[j]))
  {
  }

  /** The vocations a teaching line restricts a spell to, in rank order; all
      four when it names none. */
  function VocationsFromLine(line: string): seq<Vocation>
  {
    var named := Chosen(Mentions(line, Knight), Mentions(line, Paladin), Mentions(line, Druid), Mentions(line, Sorcerer));
    if named == [] then [Knight, Paladin, Druid, Sorcerer] else named
  }

  function Names(vs: seq<Vocation>): (r: seq<string>)
    ensures |r| == |vs| && forall i :: 0 <= i < |vs| ==> r[i] == vs[i].Name()
  {
    if vs == [] then [] else [vs[0].Name()] + Names(vs[1..])
  }

  lemma NamesSnoc(vs: seq<Vocation>, v: Vocation)
    ensures Names(vs + [v]) == Names(vs) + [v.Name()]
  {
  }

  /** `extract_vocations_from_line`: one test per vocation pushing its name,
      then the fallback to all four. */
  method ExtractVocationsFromLine(line: string) returns (vocations: seq<string>)
    ensures vocations == Names(VocationsFromLine(line))
  {
    vocations := [];
    ghost var found: seq<Vocation> := [];
    var lower := LowerAscii(line);
    var knight := Contains(line, Knight.Key()) || Contains(lower, Knight.LowerKey());
    if knight {
      vocations := vocations + [Knight.Name()];
    }
    found := Push(found, knight, Knight);
    assert vocations == Names(found);
    var paladin := Contains(line, Paladin.Key()) || Contains(lower, Paladin.LowerKey());
    if paladin {
      NamesSnoc(found, Paladin);
      vocations := vocations + [Paladin.Name()];
    }
    found := Push(found, paladin, Paladin);
    var druid := Contains(line, Druid.Key()) || Contains(lower, Druid.LowerKey());
    if druid {
      NamesSnoc(found, Druid);
      vocations := vocations + [Druid.Name()];
    }
    found := Push(found, druid, Druid);
    var sorcerer := Contains(line, Sorcerer.Key()) || Contains(lower, Sorcerer.LowerKey());
    if sorcerer {
      NamesSnoc(found, Sorcerer);
      vocations := vocations + [Sorcerer.Name()];
    }
    found := Push(found, sorcerer, Sorcerer);
    if vocations == [] {
      NamesOfAll();
      vocations := [Knight.Name(), Paladin.Name(), Druid.Name(), Sorcerer.Name()];
    }
  }

  lemma NamesOfAll()
    ensures Names([Knight, Paladin, Druid, Sorcerer]) == [Knight.Name(), Paladin.Name(), Druid.Name(), Sorcerer.Name()]
  {
  }

  /** The result is never empty, lists each vocation at most once in rank
      order, and lists `v` exactly when the line names `v` or names none. */
  lemma VocationsFromLineSpec(line: string, v: Vocation)
    ensures var r := VocationsFromLine(line);
      && 1 <= |r| <= 4
      && (forall i, j :: 0 <= i < j < |r| ==> LineRank(r[i]) < LineRank(r[j]))
      && (v in r <==> Mentions(line, v) || forall u: Vocation :: !Mentions(line, u))
  {
    var k, p, d, s := Mentions(line, Knight), Mentions(line, Paladin), Mentions(line, Druid), Mentions(line, Sorcerer);
    ChosenSpec(k, p, d, s, v);
    assert Pick(v, k, p, d, s) == Mentions(line, v) by {
      match v
      case Knight =>
      case Paladin =>
      case Druid =>
      case Sorcerer =>
    }
    if !k && !p && !d && !s {
      forall u: Vocation
        ensures !Mentions(line, u)
      {
        match u
        case Knight =>
        case Paladin =>
        case Druid =>
        case Sorcerer =>
      }
      var all := [Knight, Paladin, Druid, Sorcerer];
      match v
      case Knight => assert all[0] == v;
      case Paladin => assert all[1] == v;
      case Druid => assert all[2] == v;
      case Sorcerer => assert all[3] == v;
    }
  }

  /** Lower-casing keeps every occurrence. */
  lemma ContainsLower(s: string, w: string)
    requires Contains(s, w)
    ensures Contains(LowerAscii(s), LowerAscii(w))
  {
    var k := Find(s, w).value;
    assert LowerAscii(s)[k..k + |w|] == LowerAscii(w);
    ContainsAt(LowerAscii(s), LowerAscii(w), k);
  }

  lemma LowerKeys(v: Vocation)
    ensures LowerAscii(v.Key()) == v.LowerKey()
  {
  }

  /** The capitalised test is subsumed: a line names a vocation exactly when
      its lower-cased form contains the lower-case marker. */
  lemma MentionsIgnoresCase(line: string, v: Vocation)
    ensures Mentions(line, v) <==> Contains(LowerAscii(line), v.LowerKey())
  {
    if Contains(line, v.Key()) {
      ContainsLower(line, v.Key());
      LowerKeys(v);
    }
  }

  /** `extract_rune_vocations`: a line that starts with a vocation marker, else
      a description saying `only for <vocation>`, restricts the item; the
      markers are tried Sorcerer, Druid, Knight, Paladin. */
  function ExtractRuneVocations(line: string): (r: seq<Option<string>>)
    ensures |r| == 1
  {
    var lower := LowerAscii(line);
    if StartsWith(lower, Sorcerer.LowerKey()) then [Some(Sorcerer.Name())]
    else if StartsWith(lower, Druid.LowerKey()) then [Some(Druid.Name())]
    else if StartsWith(lower, Knight.LowerKey()) then [Some(Knight.Name())]
    else if StartsWith(lower, Paladin.LowerKey()) then [Some(Paladin.Name())]
    else if Contains(lower, Sorcerer.OnlyFor()) then [Some(Sorcerer.Name())]
    else if Contains(lower, Druid.OnlyFor()) then [Some(Druid.Name())]
    else if Contains(lower, Knight.OnlyFor()) then [Some(Knight.Name())]
    else if Contains(lower, Paladin.OnlyFor()) then [Some(Paladin.Name())]
    else [None]
  }

  /** The order the `only for` phrases are tried in. */
  function RuneRank(v: Vocation): nat
  {
    match v
    case Sorcerer => 0
    case Druid => 1
    case Knight => 2
    case Paladin => 3
  }

  /** No text starts with two different vocation markers. */
  lemma MarkersExclusive(s: string, u: Vocation, v: Vocation)
    requires StartsWith(s, u.LowerKey()) && StartsWith(s, v.LowerKey())
    ensures u == v
  {
    assert s[..|u.LowerKey()|][0] == s[0] == s[..|v.LowerKey()|][0];
  }

  /** A line starting with a vocation's marker is restricted to that vocation,
      whatever its description says. */
  lemma RunePrefixWins(line: string, v: Vocation)
    requires StartsWith(LowerAscii(line), v.LowerKey())
    ensures ExtractRuneVocations(line) == [Some(v.Name())]
  {
    var lower := LowerAscii(line);
    if StartsWith(lower, Sorcerer.LowerKey()) { MarkersExclusive(lower, Sorcerer, v); }
    if StartsWith(lower, Druid.LowerKey()) { MarkersExclusive(lower, Druid, v); }
    if StartsWith(lower, Knight.LowerKey()) { MarkersExclusive(lower, Knight, v); }
  }

  /** Without a marker, the first `only for` phrase in trial order decides. */
  lemma RuneOnlyFor(line: string, v: Vocation)
    requires forall u: Vocation :: !StartsWith(LowerAscii(line), u.LowerKey())
    requires Contains(LowerAscii(line), v.OnlyFor())
    requires forall u: Vocation :: RuneRank(u) < RuneRank(v) ==> !Contains(LowerAscii(line), u.OnlyFor())
    ensures ExtractRuneVocations(line) == [Some(v.Name())]
  {
    assert !StartsWith(LowerAscii(line), Sorcerer.LowerKey());
    assert !StartsWith(LowerAscii(line), Druid.LowerKey());
    assert !StartsWith(LowerAscii(line), Knight.LowerKey());
    assert !StartsWith(LowerAscii(line), Paladin.LowerKey());
  }

  /** The item is open to all vocations exactly when neither a marker nor a
      phrase matches. */
  lemma RuneUnrestricted(line: string)
    ensures ExtractRuneVocations(line) == [None] <==>
      forall u: Vocation :: !StartsWith(LowerAscii(line), u.LowerKey()) && !Contains(LowerAscii(line), u.OnlyFor())
  {
    var lower := LowerAscii(line);
    if ExtractRuneVocations(line) == [None] {
      forall u: Vocation
        ensures !StartsWith(lower, u.LowerKey()) && !Contains(lower, u.OnlyFor())
      {
        match u
        case Sorcerer =>
        case Druid =>
        case Knight =>
        case Paladin =>
      }
    } else {
      var w :| w == Sorcerer || w == Druid || w == Knight || w == Paladin;
    }
  }
}
