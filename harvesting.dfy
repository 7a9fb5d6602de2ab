/**
 * Harvesting rules for `moveuse.dat`: the pair of MultiUse rules written for
 * one harvesting entry, the rules of all entries, and the splice that puts a
 * `BEGIN "Harvesting"` block in place of the lines between the
 * `BEGIN "MultiUse"` line and the `BEGIN "Baking"` line.
 */
module Harvesting {
  import opened Wrappers
  import opened Strings

  /** One harvesting entry: using the tool on the corpse may yield the reward
      and always turns the corpse into the next one. All fields are `i32`. */
  datatype HarvestingData = HarvestingData(
    toolId: int, corpseId: int, nextCorpseId: int,
    percentChance: int, rewardId: int, raceId: int)

  // ---------------------------------------------------------------------------
  // Rule text
  // ---------------------------------------------------------------------------

  /** A piece of rule text: no line break of either kind. */
  predicate OneLine(s: string) { NoChar(s, '\n') && NoChar(s, '\r') }

  lemma OneLineConcat(a: string, b: string)
    requires OneLine(a) && OneLine(b)
    ensures OneLine(a + b)
  {
    NoCharConcat(a, b, '\n');
    NoCharConcat(a, b, '\r');
  }

  lemma IntToStringOneLine(i: int)
    ensures OneLine(IntToString(i)) && NoChar(IntToString(i), 'R')
  {
    NatToStringDigits(if i < 0 then -i else i);
  }

  /** `MultiUse, IsType(Obj1, <tool>), IsType(Obj2, <corpse>)`: the condition
      both rules share. */
  function Guard(e: HarvestingData): string
  {
    "MultiUse, IsType(Obj1, " + IntToString(e.toolId) + "), IsType(Obj2, " + IntToString(e.corpseId) + ")"
  }

  function RandomText(percent: int): string { "Random(" + IntToString(percent) + ")" }

  function CreateText(reward: int): string { "Create(Obj2, " + IntToString(reward) + ", 0)" }

  function ChangeText(next: int): string { "Change(Obj2, " + IntToString(next) + ", 0)" }

  const EffectText: string := "Effect(User, 13)"

  function IncrementText(race: int): string
  {
    "IncrementHarvestingValue(User, " + IntToString(race) + ", 1)"
  }

  /** The rule that fires when `Random(percent)` passes: create the reward,
      change the corpse, show the green shimmer, count the harvest. */
  function SuccessRule(e: HarvestingData): string
  {
    Guard(e) + ", " + RandomText(e.percentChance) + " -> " + CreateText(e.rewardId) + ", "
      + ChangeText(e.nextCorpseId) + ", " + EffectText + ", " + IncrementText(e.raceId)
  }

  /** The rule that fires otherwise: only the corpse changes. */
  function FailureRule(e: HarvestingData): string
  {
    Guard(e) + " -> " + ChangeText(e.nextCorpseId)
  }

  /** `generate_harvesting_rule`: the success rule, a line break, the failure rule. */
  function GenerateRule(e: HarvestingData): string
  {
    SuccessRule(e) + "\n" + FailureRule(e)
  }

  // Literal facts, each kept to its own small lemma.

  lemma GuardLiterals()
    ensures OneLine("MultiUse, IsType(Obj1, ") && NoChar("MultiUse, IsType(Obj1, ", 'R')
    ensures OneLine("), IsType(Obj2, ") && NoChar("), IsType(Obj2, ", 'R')
    ensures OneLine(")") && NoChar(")", 'R')
  {
  }

  lemma ChangeLiterals()
    ensures OneLine(" -> ") && NoChar(" -> ", 'R')
    ensures OneLine("Change(Obj2, ") && NoChar("Change(Obj2, ", 'R')
    ensures OneLine(", 0)") && NoChar(", 0)", 'R')
  {
  }

  lemma SuccessLiterals()
    ensures OneLine(", ") && OneLine("Random(") && OneLine("Create(Obj2, ")
    ensures OneLine(EffectText) && OneLine("IncrementHarvestingValue(User, ") && OneLine(", 1)")
  {
  }

  lemma GuardOneLine(e: HarvestingData)
    ensures OneLine(Guard(e)) && NoChar(Guard(e), 'R')
  {
    GuardLiterals();
    IntToStringOneLine(e.toolId);
    IntToStringOneLine(e.corpseId);
    var a, b := "MultiUse, IsType(Obj1, " + IntToString(e.toolId), "), IsType(Obj2, " + IntToString(e.corpseId);
    OneLineConcat("MultiUse, IsType(Obj1, ", IntToString(e.toolId));
    OneLineConcat("), IsType(Obj2, ", IntToString(e.corpseId));
    OneLineConcat(a, b);
    OneLineConcat(a + b, ")");
    NoCharConcat("MultiUse, IsType(Obj1, ", IntToString(e.toolId), 'R');
    NoCharConcat("), IsType(Obj2, ", IntToString(e.corpseId), 'R');
    NoCharConcat(a, b, 'R');
    NoCharConcat(a + b, ")", 'R');
    assert Guard(e) == a + b + ")";
  }

  lemma ChangeOneLine(next: int)
    ensures OneLine(ChangeText(next)) && NoChar(ChangeText(next), 'R')
    ensures ChangeText(next) != [] && ChangeText(next)[|ChangeText(next)| - 1] == ')'
  {
    ChangeLiterals();
    IntToStringOneLine(next);
    OneLineConcat("Change(Obj2, ", IntToString(next));
    OneLineConcat("Change(Obj2, " + IntToString(next), ", 0)");
    NoCharConcat("Change(Obj2, ", IntToString(next), 'R');
    NoCharConcat("Change(Obj2, " + IntToString(next), ", 0)", 'R');
  }

  /** The failure rule is one line ending in `)` and never mentions `Random`. */
  lemma FailureRuleShape(e: HarvestingData)
    ensures OneLine(FailureRule(e)) && FailureRule(e) != []
    ensures FailureRule(e)[|FailureRule(e)| - 1] == ')'
    ensures !Contains(FailureRule(e), "Random")
  {
    GuardOneLine(e);
    ChangeOneLine(e.nextCorpseId);
    ChangeLiterals();
    OneLineConcat(Guard(e), " -> ");
    OneLineConcat(Guard(e) + " -> ", ChangeText(e.nextCorpseId));
    NoCharConcat(Guard(e), " -> ", 'R');
    NoCharConcat(Guard(e) + " -> ", ChangeText(e.nextCorpseId), 'R');
    NoMatchByChar(FailureRule(e), "Random", 0);
  }

  /** The success rule is one line ending in `)`. */
  lemma SuccessRuleShape(e: HarvestingData)
    ensures OneLine(SuccessRule(e)) && SuccessRule(e) != []
    ensures SuccessRule(e)[|SuccessRule(e)| - 1] == ')'
  {
    GuardOneLine(e);
    ChangeOneLine(e.nextCorpseId);
    SuccessLiterals();
    ChangeLiterals();
    IntToStringOneLine(e.percentChance);
    IntToStringOneLine(e.rewardId);
    IntToStringOneLine(e.raceId);
    var random, create, inc := RandomText(e.percentChance), CreateText(e.rewardId), IncrementText(e.raceId);
    OneLineConcat("Random(", IntToString(e.percentChance));
    OneLineConcat("Random(" + IntToString(e.percentChance), ")");
    OneLineConcat("Create(Obj2, ", IntToString(e.rewardId));
    OneLineConcat("Create(Obj2, " + IntToString(e.rewardId), ", 0)");
    OneLineConcat("IncrementHarvestingValue(User, ", IntToString(e.raceId));
    OneLineConcat("IncrementHarvestingValue(User, " + IntToString(e.raceId), ", 1)");
    var s0 := Guard(e) + ", ";
    OneLineConcat(Guard(e), ", ");
    var s1 := s0 + random;
    OneLineConcat(s0, random);
    var s2 := s1 + " -> ";
    OneLineConcat(s1, " -> ");
    var s3 := s2 + create;
    OneLineConcat(s2, create);
    var s4 := s3 + ", ";
    OneLineConcat(s3, ", ");
    var s5 := s4 + ChangeText(e.nextCorpseId);
    OneLineConcat(s4, ChangeText(e.nextCorpseId));
    var s6 := s5 + ", ";
    OneLineConcat(s5, ", ");
    var s7 := s6 + EffectText;
    OneLineConcat(s6, EffectText);
    var s8 := s7 + ", ";
    OneLineConcat(s7, ", ");
    OneLineConcat(s8, inc);
    assert SuccessRule(e) == s8 + inc;
    assert inc == "IncrementHarvestingValue(User, " + IntToString(e.raceId) + ", 1)";
    assert inc[|inc| - 1] == ", 1)"[3];
  }

  /** `w` occurs at the end of `a + w`. */
  lemma ContainsEnd(a: string, w: string)
    ensures Contains(a + w, w)
  {
    assert (a + w)[|a|..|a| + |w|] == w;
    ContainsAt(a + w, w, |a|);
  }

  /** Text that contains `w` still does with more appended. */
  lemma ContainsGrow(x: string, y: string, w: string)
    requires Contains(x, w)
    ensures Contains(x + y, w)
  {
    var k := Find(x, w).value;
    assert (x + y)[k..k + |w|] == x[k..k + |w|];
    ContainsAt(x + y, w, k);
  }

  /** The success rule carries the chance, the reward, the corpse change, the
      shimmer effect and the harvesting counter, each with the entry's values. */
  lemma SuccessRuleContains(e: HarvestingData)
    ensures Contains(SuccessRule(e), RandomText(e.percentChance))
    ensures Contains(SuccessRule(e), CreateText(e.rewardId))
    ensures Contains(SuccessRule(e), ChangeText(e.nextCorpseId))
    ensures Contains(SuccessRule(e), EffectText)
    ensures Contains(SuccessRule(e), IncrementText(e.raceId))
  {
    var r, c, ch, inc := RandomText(e.percentChance), CreateText(e.rewardId),
      ChangeText(e.nextCorpseId), IncrementText(e.raceId);
    var p0 := Guard(e) + ", ";
    var p1 := p0 + r;
    var p2 := p1 + " -> ";
    var p3 := p2 + c;
    var p4 := p3 + ", ";
    var p5 := p4 + ch;
    var p6 := p5 + ", ";
    var p7 := p6 + EffectText;
    var p8 := p7 + ", ";
    var s := p8 + inc;
    assert s == SuccessRule(e);
    ContainsEnd(p0, r);
    ContainsGrow(p1, " -> ", r);
    ContainsGrow(p2, c, r);
    ContainsEnd(p2, c);
    ContainsGrow(p3, ", ", r);
    ContainsGrow(p3, ", ", c);
    ContainsGrow(p4, ch, r);
    ContainsGrow(p4, ch, c);
    ContainsEnd(p4, ch);
    ContainsGrow(p5, ", ", r);
    ContainsGrow(p5, ", ", c);
    ContainsGrow(p5, ", ", ch);
    ContainsGrow(p6, EffectText, r);
    ContainsGrow(p6, EffectText, c);
    ContainsGrow(p6, EffectText, ch);
    ContainsEnd(p6, EffectText);
    ContainsGrow(p7, ", ", r);
    ContainsGrow(p7, ", ", c);
    ContainsGrow(p7, ", ", ch);
    ContainsGrow(p7, ", ", EffectText);
    ContainsGrow(p8, inc, r);
    ContainsGrow(p8, inc, c);
    ContainsGrow(p8, inc, ch);
    ContainsGrow(p8, inc, EffectText);
    ContainsEnd(p8, inc);
  }

  /** The failure rule changes the corpse to the next one. */
  lemma FailureRuleContains(e: HarvestingData)
    ensures Contains(FailureRule(e), ChangeText(e.nextCorpseId))
  {
    ContainsEnd(Guard(e) + " -> ", ChangeText(e.nextCorpseId));
  }

  // ---------------------------------------------------------------------------
  // Reading rule text back as lines
  // ---------------------------------------------------------------------------

  lemma JoinOneLineNoCR(ls: seq<string>)
    requires forall i :: 0 <= i < |ls| ==> OneLine(ls[i])
    ensures NoChar(Join(ls, "\n"), '\r')
    decreases |ls|
  {
    if |ls| > 1 {
      JoinOneLineNoCR(ls[1..]);
      NoCharConcat(ls[0], "\n", '\r');
      NoCharConcat(ls[0] + "\n", Join(ls[1..], "\n"), '\r');
    }
  }

  lemma {:induction false} JoinLast(ls: seq<string>, sep: string)
    requires ls != [] && ls[|ls| - 1] != []
    ensures var j := Join(ls, sep); j != [] && j[|j| - 1] == ls[|ls| - 1][|ls[|ls| - 1]| - 1]
    decreases |ls|
  {
    if |ls| > 1 {
      JoinLast(ls[1..], sep);
    }
  }

  /** Lines without line breaks, the last one not empty, joined with `\n`
      read back as the same lines. */
  lemma LinesOfJoin(ls: seq<string>)
    requires ls != [] && ls[|ls| - 1] != []
    requires forall i :: 0 <= i < |ls| ==> OneLine(ls[i])
    ensures Lines(Join(ls, "\n")) == ls
  {
    JoinOneLineNoCR(ls);
    JoinLast(ls, "\n");
    LinesAsSplit(Join(ls, "\n"));
    SplitOnJoin(ls, '\n');
  }

  /** The generated text is exactly two lines: the success rule, then the
      failure rule. */
  lemma GenerateRuleLines(e: HarvestingData)
    ensures Lines(GenerateRule(e)) == [SuccessRule(e), FailureRule(e)]
  {
    SuccessRuleShape(e);
    FailureRuleShape(e);
    assert Join([SuccessRule(e), FailureRule(e)], "\n") == GenerateRule(e);
    LinesOfJoin([SuccessRule(e), FailureRule(e)]);
  }

  // ---------------------------------------------------------------------------
  // All entries
  // ---------------------------------------------------------------------------

  /** Each entry's rule pair, in entry order (`iter().map(..).collect()`). */
  function RulePairs(entries: seq<HarvestingData>): (r: seq<string>)
    ensures |r| == |entries|
  {
    if entries == [] then [] else [GenerateRule(entries[0])] + RulePairs(entries[1..])
  }

  /** The pair at each position is that entry's rule. */
  lemma {:induction false} RulePairsAt(entries: seq<HarvestingData>, i: nat)
    requires i < |entries|
    ensures RulePairs(entries)[i] == GenerateRule(entries[i])
  {
    if i > 0 {
      RulePairsAt(entries[1..], i - 1);
    }
  }

  /** `generate_all_harvesting_rules`: each entry's rule pair, joined with `\n`. */
  function GenerateAll(entries: seq<HarvestingData>): string
  {
    Join(RulePairs(entries), "\n")
  }

  /** The lines all entries should produce: success then failure, entry by entry. */
  function RuleLines(entries: seq<HarvestingData>): (r: seq<string>)
    ensures |r| == 2 * |entries|
  {
    if entries == [] then [] else [SuccessRule(entries[0]), FailureRule(entries[0])] + RuleLines(entries[1..])
  }

  /** Every line is a single non-empty line. */
  predicate NonEmptyLines(ls: seq<string>)
  {
    forall i :: 0 <= i < |ls| ==> OneLine(ls[i]) && ls[i] != []
  }

  lemma NonEmptyLinesCons(x: string, y: string, rest: seq<string>)
    requires OneLine(x) && x != [] && OneLine(y) && y != [] && NonEmptyLines(rest)
    ensures NonEmptyLines([x, y] + rest)
  {
    var ls := [x, y] + rest;
    forall i | 2 <= i < |ls|
      ensures OneLine(ls[i]) && ls[i] != []
    {
      assert ls[i] == rest[i - 2];
    }
  }

  lemma {:induction false} RuleLinesShape(entries: seq<HarvestingData>)
    ensures NonEmptyLines(RuleLines(entries))
  {
    if entries != [] {
      SuccessRuleShape(entries[0]);
      FailureRuleShape(entries[0]);
      RuleLinesShape(entries[1..]);
      NonEmptyLinesCons(SuccessRule(entries[0]), FailureRule(entries[0]), RuleLines(entries[1..]));
    }
  }

  lemma JoinCons(x: string, xs: seq<string>, sep: string)
    requires xs != []
    ensures Join([x] + xs, sep) == x + sep + Join(xs, sep)
  {
    assert ([x] + xs)[1..] == xs;
  }

  lemma JoinPair(s: string, f: string, tail: seq<string>, sep: string)
    requires tail != []
    ensures Join([s, f] + tail, sep) == (s + sep + f) + sep + Join(tail, sep)
  {
    JoinCons(f, tail, sep);
    assert [s, f] + tail == [s] + ([f] + tail);
    JoinCons(s, [f] + tail, sep);
  }

  lemma GenerateAllCons(entries: seq<HarvestingData>)
    requires |entries| > 1
    ensures GenerateAll(entries) == GenerateRule(entries[0]) + "\n" + GenerateAll(entries[1..])
  {
    JoinCons(GenerateRule(entries[0]), RulePairs(entries[1..]), "\n");
  }

  lemma {:induction false} GenerateAllJoin(entries: seq<HarvestingData>)
    ensures GenerateAll(entries) == Join(RuleLines(entries), "\n")
  {
    if |entries| == 1 {
      assert RuleLines(entries[1..]) == [];
    } else if |entries| > 1 {
      GenerateAllCons(entries);
      GenerateAllJoin(entries[1..]);
      JoinPair(SuccessRule(entries[0]), FailureRule(entries[0]), RuleLines(entries[1..]), "\n");
    }
  }

  /** The text for all entries is empty when there are none, and otherwise
      reads back as two lines per entry, success before failure, in order. */
  lemma GenerateAllLines(entries: seq<HarvestingData>)
    ensures entries == [] ==> GenerateAll(entries) == ""
    ensures Lines(GenerateAll(entries)) == RuleLines(entries)
    ensures |Lines(GenerateAll(entries))| == 2 * |entries|
  {
    GenerateAllJoin(entries);
    if entries != [] {
      RuleLinesShape(entries);
      LinesOfJoin(RuleLines(entries));
    }
  }

  // ---------------------------------------------------------------------------
  // Splicing the rules into moveuse.dat
  // ---------------------------------------------------------------------------

  const MultiUseMarker: string := "BEGIN \"MultiUse\""
  const BakingMarker: string := "BEGIN \"Baking\""
  const HarvestingMarker: string := "BEGIN \"Harvesting\""
  const EndMarker: string := "END"

  lemma MarkerLiterals()
    ensures NoChar(HarvestingMarker, '\n') && NoChar(EndMarker, '\n')
  {
  }

  /** Why `insert_harvesting_rules` gives up. */
  datatype HarvestError = MultiUseNotFound | BakingNotFound | BakingBeforeMultiUse

  /** `Iterator::position`: the first line from `i` on that contains `w`. */
  function Position(lines: seq<string>, w: string, i: nat): (r: Option<nat>)
    requires i <= |lines|
    ensures r.Some? ==> i <= r.value < |lines| && Contains(lines[r.value], w)
    decreases |lines| - i
  {
    if i == |lines| then None
    else if Contains(lines[i], w) then Some(i)
    else Position(lines, w, i + 1)
  }

  /** No line before the one Position finds contains `w`; none at all when it
      finds nothing. */
  lemma {:induction false} PositionFirst(lines: seq<string>, w: string, i: nat, j: nat)
    requires i <= j < |lines|
    requires Position(lines, w, i).Some? ==> j < Position(lines, w, i).value
    ensures !Contains(lines[j], w)
    decreases |lines| - i
  {
    if i < j {
      PositionFirst(lines, w, i + 1, j);
    }
  }

  /** The new line list: everything up to and including the MultiUse line, the
      harvesting block, then everything from the Baking line on. */
  function Spliced(lines: seq<string>, m: nat, b: nat, ruleLines: seq<string>): seq<string>
    requires m < b <= |lines|
  {
    lines[..m + 1] + [HarvestingMarker] + ruleLines + [EndMarker] + lines[b..]
  }

  /** `insert_harvesting_rules`. */
  function InsertRules(content: string, rules: string): Result<string, HarvestError>
  {
    var lines := Lines(content);
    match Position(lines, MultiUseMarker, 0)
    case None => Err(MultiUseNotFound)
    case Some(m) =>
      match Position(lines, BakingMarker, 0)
      case None => Err(BakingNotFound)
      case Some(b) =>
        if b <= m then Err(BakingBeforeMultiUse)
        else Ok(Join(Spliced(lines, m, b, Lines(rules)), "\n"))
  }

  /** `insert_harvesting_rules` as the source writes it: the result vector is
      built by pushing line after line. */
  method InsertRulesScan(content: string, rules: string) returns (r: Result<string, HarvestError>)
    ensures r == InsertRules(content, rules)
  {
    var lines := Lines(content);
    var multiUse := Position(lines, MultiUseMarker, 0);
    if multiUse.None? {
      return Err(MultiUseNotFound);
    }
    var baking := Position(lines, BakingMarker, 0);
    if baking.None? {
      return Err(BakingNotFound);
    }
    var m, b := multiUse.value, baking.value;
    if b <= m {
      return Err(BakingBeforeMultiUse);
    }
    var result: seq<string> := [];
    for i := 0 to m + 1
      invariant result == lines[..i]
    {
      result := result + [lines[i]];
    }
    result := result + [HarvestingMarker];
    var ruleLines := Lines(rules);
    for i := 0 to |ruleLines|
      invariant result == lines[..m + 1] + [HarvestingMarker] + ruleLines[..i]
    {
      result := result + [ruleLines[i]];
    }
    assert ruleLines[..|ruleLines|] == ruleLines;
    result := result + [EndMarker];
    for i := b to |lines|
      invariant result == lines[..m + 1] + [HarvestingMarker] + ruleLines + [EndMarker] + lines[b..i]
    {
      result := result + [lines[i]];
    }
    assert lines[b..|lines|] == lines[b..];
    return Ok(Join(result, "\n"));
  }

  /** Each failure names its cause exactly: no MultiUse line; a MultiUse line
      but no Baking line; or the first Baking line not after the first
      MultiUse line. */
  lemma InsertRulesErrors(content: string, rules: string)
    ensures var lines := Lines(content);
      InsertRules(content, rules) == Err(MultiUseNotFound) <==>
        forall j :: 0 <= j < |lines| ==> !Contains(lines[j], MultiUseMarker)
    ensures var lines := Lines(content);
      InsertRules(content, rules) == Err(BakingNotFound) <==>
        (exists j :: 0 <= j < |lines| && Contains(lines[j], MultiUseMarker))
        && forall j :: 0 <= j < |lines| ==> !Contains(lines[j], BakingMarker)
    ensures var lines := Lines(content);
      InsertRules(content, rules) == Err(BakingBeforeMultiUse) <==>
        Position(lines, MultiUseMarker, 0).Some? && Position(lines, BakingMarker, 0).Some?
        && Position(lines, BakingMarker, 0).value <= Position(lines, MultiUseMarker, 0).value
  {
    var lines := Lines(content);
    var mu, bk := Position(lines, MultiUseMarker, 0), Position(lines, BakingMarker, 0);
    if mu.None? {
      forall j | 0 <= j < |lines|
        ensures !Contains(lines[j], MultiUseMarker)
      {
        PositionFirst(lines, MultiUseMarker, 0, j);
      }
    }
    if bk.None? {
      forall j | 0 <= j < |lines|
        ensures !Contains(lines[j], BakingMarker)
      {
        PositionFirst(lines, BakingMarker, 0, j);
      }
    }
  }

  /** The spliced list, position by position. */
  lemma SplicedShape(lines: seq<string>, m: nat, b: nat, rs: seq<string>)
    requires m < b <= |lines|
    ensures var v := Spliced(lines, m, b, rs);
      && |v| == (m + 1) + 1 + |rs| + 1 + (|lines| - b)
      && v[..m + 1] == lines[..m + 1]
      && v[m + 1] == HarvestingMarker
      && v[m + 2..m + 2 + |rs|] == rs
      && v[m + 2 + |rs|] == EndMarker
      && v[m + 3 + |rs|..] == lines[b..]
  {
  }

  /** Every entry of the spliced list is free of `\n` when the lines and rule
      lines are. */
  lemma SplicedNoNewline(lines: seq<string>, m: nat, b: nat, rs: seq<string>)
    requires m < b <= |lines|
    requires forall i :: 0 <= i < |lines| ==> NoChar(lines[i], '\n')
    requires forall i :: 0 <= i < |rs| ==> NoChar(rs[i], '\n')
    ensures var v := Spliced(lines, m, b, rs);
      forall i :: 0 <= i < |v| ==> NoChar(v[i], '\n')
  {
    MarkerLiterals();
    var v := Spliced(lines, m, b, rs);
    forall i | 0 <= i < |v|
      ensures NoChar(v[i], '\n')
    {
      if i <= m {
        assert v[i] == lines[i];
      } else if i == m + 1 {
      } else if i < m + 2 + |rs| {
        assert v[i] == rs[i - m - 2];
      } else if i == m + 2 + |rs| {
      } else {
        assert v[i] == lines[b + i - (m + 3 + |rs|)];
      }
    }
  }

  /** On success the output, split at `\n`, gives back exactly the kept lines
      and the new block: the input's lines up to the first MultiUse line, the
      `BEGIN "Harvesting"` marker, the rule lines, `END`, and the input's lines
      from the first Baking line on; the lines in between are dropped. */
  lemma InsertRulesOk(content: string, rules: string)
    requires InsertRules(content, rules).Ok?
    ensures var lines := Lines(content);
      var m := Position(lines, MultiUseMarker, 0).value;
      var b := Position(lines, BakingMarker, 0).value;
      && m < b < |lines|
      && Contains(lines[m], MultiUseMarker) && Contains(lines[b], BakingMarker)
      && SplitOn(InsertRules(content, rules).value, '\n') == Spliced(lines, m, b, Lines(rules))
  {
    var lines := Lines(content);
    var m := Position(lines, MultiUseMarker, 0).value;
    var b := Position(lines, BakingMarker, 0).value;
    SplicedNoNewline(lines, m, b, Lines(rules));
    SplitOnJoin(Spliced(lines, m, b, Lines(rules)), '\n');
  }

  /** Inserting the generated text for `entries` puts exactly their rule
      lines, two per entry, success before failure, between the
      `BEGIN "Harvesting"` and `END` lines (whose positions SplicedShape
      gives). */
  lemma InsertGeneratedBlock(content: string, entries: seq<HarvestingData>)
    requires InsertRules(content, GenerateAll(entries)).Ok?
    ensures var lines := Lines(content);
      var m := Position(lines, MultiUseMarker, 0).value;
      var b := Position(lines, BakingMarker, 0).value;
      && m < b < |lines|
      && SplitOn(InsertRules(content, GenerateAll(entries)).value, '\n') == Spliced(lines, m, b, RuleLines(entries))
  {
    InsertRulesOk(content, GenerateAll(entries));
    GenerateAllLines(entries);
  }
}
