/**
 * The spell shape and impact enumerations with their discriminants, and the
 * damage-type bit codes with their display names.
 */
module Models {
  import opened Wrappers
  import opened Strings

  /** Where a spell takes effect. */
  datatype SpellShapeType = Actor | Victim | Origin | Destination | Angle
  {
    /** The enum discriminant. */
    function Discriminant(): (r: nat)
      ensures r < 5
    {
      match this
      case Actor => 0
      case Victim => 1
      case Origin => 2
      case Destination => 3
      case Angle => 4
    }
  }

  /** What a spell does. */
  datatype SpellImpactType = Damage | Field | Healing | Speed | Drunken | Strength | Outfit | Summon
  {
    /** The enum discriminant. */
    function Discriminant(): (r: nat)
      ensures r < 8
    {
      match this
      case Damage => 0
      case Field => 1
      case Healing => 2
      case Speed => 3
      case Drunken => 4
      case Strength => 5
      case Outfit => 6
      case Summon => 7
    }
  }

  /** The variant an integer discriminant stands for, if any. */
  function ShapeOfDiscriminant(n: int): Option<SpellShapeType>
  {
    if n == 0 then Some(Actor) else if n == 1 then Some(Victim) else if n == 2 then Some(Origin)
    else if n == 3 then Some(Destination) else if n == 4 then Some(Angle) else None
  }

  /** The shape discriminants are exactly 0 to 4, one per variant. */
  lemma ShapeDiscriminants(t: SpellShapeType, n: int)
    ensures ShapeOfDiscriminant(t.Discriminant()) == Some(t)
    ensures ShapeOfDiscriminant(n).Some? <==> 0 <= n < 5
    ensures ShapeOfDiscriminant(n).Some? ==> ShapeOfDiscriminant(n).value.Discriminant() == n
  {
  }

  /** The variant an integer discriminant stands for, if any. */
  function ImpactOfDiscriminant(n: int): Option<SpellImpactType>
  {
    if n == 0 then Some(Damage) else if n == 1 then Some(Field) else if n == 2 then Some(Healing)
    else if n == 3 then Some(Speed) else if n == 4 then Some(Drunken) else if n == 5 then Some(Strength)
    else if n == 6 then Some(Outfit) else if n == 7 then Some(Summon) else None
  }

  /** The impact discriminants are exactly 0 to 7, one per variant. */
  lemma ImpactDiscriminants(t: SpellImpactType, n: int)
    ensures ImpactOfDiscriminant(t.Discriminant()) == Some(t)
    ensures ImpactOfDiscriminant(n).Some? <==> 0 <= n < 8
    ensures ImpactOfDiscriminant(n).Some? ==> ImpactOfDiscriminant(n).value.Discriminant() == n
  {
  }

  // ---------------------------------------------------------------------------
  // Damage types
  // ---------------------------------------------------------------------------

  const Physical: int := 1
  const Poison: int := 2
  const Fire: int := 4
  const Energy: int := 8
  const PoisonPeriodic: int := 32
  const FirePeriodic: int := 64
  const EnergyPeriodic: int := 128
  const LifeDrain: int := 256
  const ManaDrain: int := 512

  /** The codes that have a name of their own. */
  const DamageCodes: set<int> :=
    {Physical, Poison, Fire, Energy, PoisonPeriodic, FirePeriodic, EnergyPeriodic, LifeDrain, ManaDrain}

  /** `damage_type_name`. */
  function DamageTypeName(damageType: int): (r: string)
    ensures r != []
  {
    match damageType
    case 1 => "Physical"
    case 2 => "Poison"
    case 4 => "Fire"
    case 8 => "Energy"
    case 32 => "Poison (DoT)"
    case 64 => "Fire (DoT)"
    case 128 => "Energy (DoT)"
    case 256 => "Life Drain"
    case 512 => "Mana Drain"
    case _ => UnknownName(damageType)
  }

  function UnknownName(damageType: int): string
  {
    "Unknown(" + IntToString(damageType) + ")"
  }

  /** A code gets a fixed name exactly when it is one of the constants; any
      other code is named `Unknown(<code>)`. */
  lemma DamageTypeNameKnown(d: int)
    ensures d in DamageCodes <==> !StartsWith(DamageTypeName(d), "Unknown(")
    ensures d !in DamageCodes ==> DamageTypeName(d) == "Unknown(" + IntToString(d) + ")"
  {
    var s := DamageTypeName(d);
    if d in DamageCodes {
      assert s[0] != 'U';
      assert |s| < 8 || s[..8][0] == s[0];
    } else {
      assert s[..8] == "Unknown(";
    }
  }

  /** The constants' names, as the display uses them. */
  lemma DamageConstantNames()
    ensures DamageTypeName(Physical) == "Physical" && DamageTypeName(Poison) == "Poison"
    ensures DamageTypeName(Fire) == "Fire" && DamageTypeName(Energy) == "Energy"
    ensures DamageTypeName(PoisonPeriodic) == "Poison (DoT)"
    ensures DamageTypeName(FirePeriodic) == "Fire (DoT)"
    ensures DamageTypeName(EnergyPeriodic) == "Energy (DoT)"
    ensures DamageTypeName(LifeDrain) == "Life Drain" && DamageTypeName(ManaDrain) == "Mana Drain"
  {
  }

  /** No two codes share a name, so the name identifies the code. */
  lemma DamageTypeNameInjective(a: int, b: int)
    requires DamageTypeName(a) == DamageTypeName(b)
    ensures a == b
  {
    DamageTypeNameKnown(a);
    DamageTypeNameKnown(b);
    if a !in DamageCodes && b !in DamageCodes {
      var s := DamageTypeName(a);
      assert s[8..|s| - 1] == IntToString(a);
      assert s[8..|s| - 1] == IntToString(b);
      IntToStringInjective(a, b);
    }
  }
}
