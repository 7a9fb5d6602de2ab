/**
 * Finding the inventory section inside a whole `.usr` document and splicing
 * a new one in its place. The section starts at the first match of
 * `Inventory\s*=\s*\{` and ends one past the `}` that closes that brace.
 */
module InventoryLocate {
  import opened Wrappers
  import opened Strings
  import opened Inventory

  // ---------------------------------------------------------------------------
  // The introducer `Inventory\s*=\s*\{`
  // ---------------------------------------------------------------------------

  /** Where a match of `Inventory\s*=\s*\{` starting at `k` ends, if one does.
      Neither `=` nor `{` is whitespace, so the greedy `\s*` are the only way
      to match and a single forward scan decides. */
  function IntroEnd(s: string, k: nat): (r: Option<nat>)
    requires k <= |s|
    ensures r.Some? ==> k + 11 <= r.value <= |s|
  {
    if !MatchAt(s, "Inventory", k) then None
    else
      var p := SkipWhile(s, k + 9, IsWhitespace);
      if p >= |s| || s[p] != '=' then None
      else
        var q := SkipWhile(s, p + 1, IsWhitespace);
        if q >= |s| || s[q] != '{' then None else Some(q + 1)
  }

  /** A match at `k` has the shape of the regex: `Inventory`, whitespace, `=`,
      whitespace and `{`, which is its last character. */
  lemma IntroParts(s: string, k: nat) returns (p: nat, q: nat)
    requires k <= |s| && IntroEnd(s, k).Some?
    ensures MatchAt(s, "Inventory", k)
    ensures k + 9 <= p < q < |s| && IntroEnd(s, k) == Some(q + 1)
    ensures s[p] == '=' && s[q] == '{'
    ensures forall j :: k + 9 <= j < p ==> IsWhitespace(s[j])
    ensures forall j :: p + 1 <= j < q ==> IsWhitespace(s[j])
  {
    p := SkipWhile(s, k + 9, IsWhitespace);
    q := SkipWhile(s, p + 1, IsWhitespace);
    SkipWhileSpec(s, k + 9, IsWhitespace);
    SkipWhileSpec(s, p + 1, IsWhitespace);
  }

  /** Conversely, text of that shape at `k` is a match ending after its `{`. */
  lemma IntroOfParts(s: string, k: nat, p: nat, q: nat)
    requires MatchAt(s, "Inventory", k)
    requires k + 9 <= p < q < |s| && s[p] == '=' && s[q] == '{'
    requires forall j :: k + 9 <= j < p ==> IsWhitespace(s[j])
    requires forall j :: p + 1 <= j < q ==> IsWhitespace(s[j])
    ensures IntroEnd(s, k) == Some(q + 1)
  {
    SkipWhileIs(s, k + 9, IsWhitespace, p);
    SkipWhileIs(s, p + 1, IsWhitespace, q);
  }

  /** `Regex::find` from index `k`: the leftmost match, as (start, end). */
  function FindIntro(s: string, k: nat): (r: Option<(nat, nat)>)
    requires k <= |s|
    ensures r.Some? ==> k <= r.value.0 <= |s| && IntroEnd(s, r.value.0) == Some(r.value.1)
    decreases |s| - k
  {
    if IntroEnd(s, k).Some? then Some((k, IntroEnd(s, k).value))
    else if k == |s| then None
    else FindIntro(s, k + 1)
  }

  /** The match FindIntro returns is the leftmost one, and None means none exists. */
  lemma {:induction false} FindIntroFirst(s: string, k: nat, j: nat)
    requires k <= j <= |s|
    requires FindIntro(s, k).Some? ==> j < FindIntro(s, k).value.0
    ensures IntroEnd(s, j).None?
    decreases |s| - k
  {
    if k < j {
      FindIntroFirst(s, k + 1, j);
    }
  }

  // ---------------------------------------------------------------------------
  // Extraction and replacement
  // ---------------------------------------------------------------------------

  /** `extract_inventory_section`: the text between the section braces, the
      index where the introducer starts and the index one past the closing
      brace. */
  function Extract(doc: string): Result<(string, nat, nat), ParseError>
  {
    match FindIntro(doc, 0)
    case None => Err(SectionNotFound)
    case Some((start, braceStart)) =>
      var close := CloseIndex(doc, braceStart);
      if close >= |doc| then Err(UnmatchedSectionBraces)
      else Ok((doc[braceStart..close], start, close + 1))
  }

  /** What a successful extraction returns: the introducer starts at `start`,
      no earlier index starts one, the content lies between the section's `{`
      and the `}` just before `end`, and it is brace-balanced. */
  lemma ExtractOk(doc: string)
    requires Extract(doc).Ok?
    ensures var (content, start, end) := Extract(doc).value;
      && IntroEnd(doc, start) == Some(end - 1 - |content|)
      && (forall j :: 0 <= j < start ==> IntroEnd(doc, j).None?)
      && start + 11 <= end - 1 - |content| && end <= |doc|
      && doc[end - 2 - |content|] == '{' && doc[end - 1] == '}'
      && content == doc[end - 1 - |content|..end - 1]
      && NetDepth(content) == 0
  {
    var (start, braceStart) := FindIntro(doc, 0).value;
    var p, q := IntroParts(doc, start);
    forall j | 0 <= j < start
      ensures IntroEnd(doc, j).None?
    {
      FindIntroFirst(doc, 0, j);
    }
    var t := doc[braceStart..];
    var n := CloseLen(t, 1);
    CloseLenMatches(t, 1, n);
    CloseLenAtBrace(t, 1);
    assert n < |t|;
    var content := t[..n];
    assert t[..n + 1] == content + "}";
    assert 1 + NetDepth(content + "}") == 0;
    BalancedClose(content);
    assert content == doc[braceStart..braceStart + n];
  }

  /** A closing brace after `content` brings one open brace to zero only if
      `content` itself is balanced. */
  lemma BalancedClose(content: string)
    requires 1 + NetDepth(content + "}") == 0
    ensures NetDepth(content) == 0
  {
    NetDepthAppend(content, "}");
  }

  /** Extraction fails with SectionNotFound exactly when no index starts an
      introducer, and with UnmatchedSectionBraces exactly when the first
      introducer's brace is never closed. */
  lemma ExtractErr(doc: string)
    ensures Extract(doc) == Err(SectionNotFound) <==> forall j :: 0 <= j <= |doc| ==> IntroEnd(doc, j).None?
    ensures Extract(doc) == Err(UnmatchedSectionBraces) <==>
      FindIntro(doc, 0).Some? && CloseIndex(doc, FindIntro(doc, 0).value.1) == |doc|
  {
    if FindIntro(doc, 0).None? {
      forall j | 0 <= j <= |doc|
        ensures IntroEnd(doc, j).None?
      {
        FindIntroFirst(doc, 0, j);
      }
    }
  }

  /** The brace loop of `extract_inventory_section`: it counts braces in `t`
      (which follows an opening brace) and steps past the closing one. */
  method CountToClose(t: string) returns (i: nat, balanced: bool)
    ensures balanced <==> CloseLen(t, 1) < |t|
    ensures balanced ==> i == CloseLen(t, 1) + 1
  {
    var count: nat := 1;
    i := 0;
    while i < |t| && count > 0
      invariant 0 <= i <= |t|
      invariant count > 0 ==> CloseLen(t, 1) == i + CloseLen(t[i..], count)
      invariant count == 0 ==> 1 <= i && CloseLen(t, 1) == i - 1 < |t|
    {
      assert t[i..][1..] == t[i + 1..];
      if t[i] == '{' {
        count := count + 1;
      } else if t[i] == '}' {
        count := count - 1;
      }
      i := i + 1;
    }
    balanced := count == 0;
  }

  /** `extract_inventory_section` as the source writes it: the regex search,
      then the brace loop. */
  method ExtractScan(doc: string) returns (r: Result<(string, nat, nat), ParseError>)
    ensures r == Extract(doc)
  {
    var found := FindIntro(doc, 0);
    if found.None? {
      return Err(SectionNotFound);
    }
    var start, braceStart := found.value.0, found.value.1;
    var t := doc[braceStart..];
    var i, balanced := CountToClose(t);
    if !balanced {
      return Err(UnmatchedSectionBraces);
    }
    assert t[..i - 1] == doc[braceStart..braceStart + i - 1];
    return Ok((t[..i - 1], start, braceStart + i));
  }

  /** `replace_inventory_section`: the document with the located section
      replaced by `section`. */
  function Replace(doc: string, section: string): Result<string, ParseError>
  {
    match Extract(doc)
    case Err(e) => Err(e)
    case Ok((_, start, end)) => Ok(doc[..start] + section + doc[end..])
  }

  /** Replacement fails exactly when extraction does, with the same error, and
      otherwise changes nothing outside the section: the text before `start`
      and after `end` is kept and `section` lies between them. */
  lemma ReplaceSplices(doc: string, section: string)
    ensures Replace(doc, section).Err? <==> Extract(doc).Err?
    ensures Replace(doc, section).Err? ==> Replace(doc, section).error == Extract(doc).error
    ensures Replace(doc, section).Ok? ==>
      var (_, start, end) := Extract(doc).value;
      var r := Replace(doc, section).value;
      && start <= end <= |doc|
      && |r| == |doc| - (end - start) + |section|
      && r[..start] == doc[..start]
      && r[start..start + |section|] == section
      && r[start + |section|..] == doc[end..]
  {
    if Extract(doc).Ok? {
      ExtractBounds(doc);
    }
  }

  /** The located span lies inside the document. */
  lemma ExtractBounds(doc: string)
    requires Extract(doc).Ok?
    ensures Extract(doc).value.1 < Extract(doc).value.2 <= |doc|
  {
  }

  lemma Resplice(doc: string, start: nat, end: nat)
    requires start <= end <= |doc|
    ensures doc[..start] + doc[start..end] + doc[end..] == doc
  {
  }

  /** Putting back the section text that was found gives the document again. */
  lemma ReplaceSame(doc: string)
    requires Extract(doc).Ok?
    ensures Extract(doc).value.1 <= Extract(doc).value.2 <= |doc|
    ensures Replace(doc, doc[Extract(doc).value.1..Extract(doc).value.2]) == Ok(doc)
  {
    ExtractBounds(doc);
    Resplice(doc, Extract(doc).value.1, Extract(doc).value.2);
  }
}
