/**
 * A serialised section read back through the locator. The text
 * `InventorySection::serialize` writes is found by `extract_inventory_section`
 * at the place it was put, its content is exactly the slot list, and that
 * list parses back to the slots. The same holds after the section has been
 * spliced into a document whose first introducer it replaced.
 */
module SectionLocate {
  import opened Wrappers
  import opened Strings
  import opened Inventory
  import opened InventorySections
  import opened InventoryLocate
  import opened ItemRoundTrip
  import opened NestedRoundTrip
  import SectionRoundTrip

  /** The opening `serialize` writes before the slot list. */
  const Opening: string := "Inventory   = {"

  /** Empty or not, a section is the opening, the slot list and `}`. */
  lemma SectionTextShape(xs: seq<Slot>)
    ensures SectionText(xs) == Opening + SectionRoundTrip.SlotList(xs) + "}"
  {
    if xs == [] {
      assert SectionRoundTrip.SlotList(xs) == [];
    }
  }

  // ---------------------------------------------------------------------------
  // The brace scan over a slot list
  // ---------------------------------------------------------------------------

  /** Never closes a brace it did not open, and closes every brace it opens. */
  predicate Balanced(x: string)
  {
    Walk(x, 0) && NetDepth(x) == 0
  }

  /** The marker and its brace, as one literal and as two. */
  lemma ContentOpenLiteral()
    ensures " Content={" == " Content=" + "{"
  {
  }

  /** One slot's text is balanced. */
  lemma SlotTextWalk(x: Slot)
    ensures Balanced(SlotText(x))
  {
    var d, s := IntToString(x.number), SerializeItem(x.item);
    var open := " Content={";
    ItemWalk(x.item);
    WalkDeeper(s, 0, 1);
    IntTextPlain(x.number);
    ContentKeyPlain();
    ContentOpenLiteral();
    WalkContainer(d, " Content=", s);
    assert SlotText(x) == (d + open + s) + "}";
    Assoc(d, open, s);
    Assoc(d, open + s, "}");
  }

  /** Every slot text of a section is balanced. */
  lemma {:induction false} SlotTextsBalanced(xs: seq<Slot>)
    ensures forall i :: 0 <= i < |SlotTexts(xs)| ==> Balanced(SlotTexts(xs)[i])
    decreases |xs|
  {
    if xs != [] {
      SlotTextsBalanced(xs[..|xs| - 1]);
      SlotTextWalk(xs[|xs| - 1]);
    }
  }

  /** A text without braces is passed over whole by the brace scan. */
  lemma {:induction false} CloseLenNoBraces(x: string, t: string, d: nat)
    requires d >= 1 && NoChar(x, '{') && NoChar(x, '}')
    ensures CloseLen(x + t, d) == |x| + CloseLen(t, d)
    decreases |x|
  {
    if x == [] {
      assert x + t == t;
    } else {
      assert x + t == [x[0]] + (x[1..] + t);
      CloseLenCons(x[0], x[1..] + t, d);
      assert NoChar(x[1..], '{') && NoChar(x[1..], '}') by {
        forall k | 0 <= k < |x[1..]| ensures x[1..][k] == x[k + 1] { }
      }
      CloseLenNoBraces(x[1..], t, d);
    }
  }

  /** A join of two or more parts, followed by `t`, as its first part, the
      separator and the join of the rest. */
  lemma JoinRegroup(parts: seq<string>, sep: string, t: string)
    requires |parts| >= 2
    ensures Join(parts, sep) + t == parts[0] + (sep + (Join(parts[1..], sep) + t))
    ensures |Join(parts, sep)| == |parts[0]| + |sep| + |Join(parts[1..], sep)|
  {
    var tail := Join(parts[1..], sep);
    Assoc(parts[0] + sep, tail, t);
    Assoc(parts[0], sep, tail + t);
  }

  /** The parts after the first are balanced when all parts are. */
  lemma BalancedTail(parts: seq<string>)
    requires |parts| >= 1 && forall i :: 0 <= i < |parts| ==> Balanced(parts[i])
    ensures forall i :: 0 <= i < |parts[1..]| ==> Balanced(parts[1..][i])
  {
    forall i | 0 <= i < |parts[1..]|
      ensures Balanced(parts[1..][i])
    {
      assert parts[1..][i] == parts[i + 1];
    }
  }

  /** Balanced parts joined by a separator without braces are passed over
      whole by the brace scan, whatever follows them. */
  lemma {:induction false} CloseLenJoin(parts: seq<string>, sep: string, t: string, d: nat)
    requires d >= 1 && NoChar(sep, '{') && NoChar(sep, '}')
    requires forall i :: 0 <= i < |parts| ==> Balanced(parts[i])
    ensures CloseLen(Join(parts, sep) + t, d) == |Join(parts, sep)| + CloseLen(t, d)
    decreases |parts|
  {
    if |parts| == 0 {
      assert Join(parts, sep) + t == t;
    } else if |parts| == 1 {
      CloseLenWalk(parts[0], t, d, 0);
    } else {
      var tail := Join(parts[1..], sep);
      JoinRegroup(parts, sep, t);
      CloseLenWalk(parts[0], sep + (tail + t), d, 0);
      CloseLenNoBraces(sep, tail + t, d);
      BalancedTail(parts);
      CloseLenJoin(parts[1..], sep, t, d);
    }
  }

  /** The brace scan passes over a whole slot list, whatever follows it. */
  lemma CloseLenSlotList(xs: seq<Slot>, t: string, d: nat)
    requires d >= 1
    ensures CloseLen(SectionRoundTrip.SlotList(xs) + t, d) == |SectionRoundTrip.SlotList(xs)| + CloseLen(t, d)
  {
    SlotTextsBalanced(xs);
    CloseLenJoin(SlotTexts(xs), SlotSeparator, t, d);
  }

  // ---------------------------------------------------------------------------
  // Locating a serialised section
  // ---------------------------------------------------------------------------

  /** The introducer matches where the opening `serialize` writes stands, and
      ends just after its `{`. */
  lemma OpeningIntro(s: string, k: nat)
    requires k + |Opening| <= |s| && s[k..k + |Opening|] == Opening
    ensures IntroEnd(s, k) == Some(k + |Opening|)
  {
    forall i | 0 <= i < |Opening|
      ensures s[k + i] == Opening[i]
    {
      assert s[k + i] == s[k..k + |Opening|][i];
    }
    assert s[k..k + 9] == Opening[..9];
    IntroOfParts(s, k, k + 12, k + 14);
  }

  /** FindIntro from `i` reports the first index from `i` where the introducer
      matches. */
  lemma {:induction false} FindIntroAt(doc: string, i: nat, k: nat)
    requires i <= k <= |doc| && IntroEnd(doc, k).Some?
    requires forall j :: i <= j < k ==> IntroEnd(doc, j).None?
    ensures FindIntro(doc, i) == Some((k, IntroEnd(doc, k).value))
    decreases k - i
  {
    if i < k {
      FindIntroAt(doc, i + 1, k);
    }
  }

  /** The brace scan stops at a `}` at depth one. */
  lemma CloseLenClose(rest: string)
    ensures CloseLen("}" + rest, 1) == 0
  {
    assert ("}" + rest)[0] == '}';
  }

  /** A text that starts at `k` with `a` and goes on with `b`. */
  lemma SplitAt(doc: string, k: nat, a: string, b: string)
    requires k <= |doc| && doc[k..] == a + b
    ensures k + |a| <= |doc| && doc[k..k + |a|] == a && doc[k + |a|..] == b
  {
    assert doc[k..k + |a|] == doc[k..][..|a|];
    assert doc[k + |a|..] == doc[k..][|a|..];
  }

  /** Extraction from a found introducer whose brace is closed, part by part. */
  lemma ExtractFoundParts(doc: string, k: nat, b: nat, close: nat)
    requires b <= close < |doc| && FindIntro(doc, 0) == Some((k, b))
    requires CloseIndex(doc, b) == close
    ensures Extract(doc).Ok? && Extract(doc).value.0 == doc[b..close]
    ensures Extract(doc).value.1 == k && Extract(doc).value.2 == close + 1
  {
  }

  /** Extraction that succeeds with the given parts gives exactly them. */
  lemma ExtractIs(doc: string, content: string, start: nat, end: nat)
    requires Extract(doc).Ok? && Extract(doc).value.0 == content
    requires Extract(doc).value.1 == start && Extract(doc).value.2 == end
    ensures Extract(doc) == Ok((content, start, end))
  {
  }

  /** A `{` ending at `b`, followed by a text `content` the brace scan passes
      over and a `}`: that `}` closes it. */
  lemma CloseIndexAt(doc: string, b: nat, content: string, rest: string)
    requires b <= |doc| && doc[b..] == content + ("}" + rest)
    requires CloseLen(content + ("}" + rest), 1) == |content|
    ensures b + |content| < |doc| && CloseIndex(doc, b) == b + |content|
    ensures doc[b..b + |content|] == content
  {
    SplitAt(doc, b, content, "}" + rest);
  }

  /** Where the first introducer ends at `b` and is followed by a text
      `content` that the brace scan passes over and a `}`, extraction yields
      `content`, from `k` to just past that `}`. */
  lemma ExtractAtIntro(doc: string, k: nat, b: nat, content: string, rest: string)
    requires b <= |doc| && FindIntro(doc, 0) == Some((k, b))
    requires doc[b..] == content + ("}" + rest)
    requires CloseLen(content + ("}" + rest), 1) == |content|
    ensures Extract(doc).Ok? && Extract(doc).value.0 == content
    ensures Extract(doc).value.1 == k && Extract(doc).value.2 == b + |content| + 1
  {
    CloseIndexAt(doc, b, content, rest);
    ExtractFoundParts(doc, k, b, b + |content|);
  }

  /** An opening at `k` with no introducer before it is the first introducer. */
  lemma FirstIntroAtOpening(doc: string, k: nat, tail: string)
    requires k <= |doc| && doc[k..] == Opening + tail
    requires forall j :: 0 <= j < k ==> IntroEnd(doc, j).None?
    ensures k + |Opening| <= |doc| && FindIntro(doc, 0) == Some((k, k + |Opening|))
    ensures doc[k + |Opening|..] == tail
  {
    SplitAt(doc, k, Opening, tail);
    OpeningIntro(doc, k);
    FindIntroAt(doc, 0, k);
  }

  /** A serialised section followed by `rest`, as the opening, the slot list
      and `}` followed by `rest`. */
  lemma SectionSplit(xs: seq<Slot>, rest: string)
    ensures SectionText(xs) + rest == Opening + (SectionRoundTrip.SlotList(xs) + ("}" + rest))
    ensures |SectionText(xs)| == |Opening| + |SectionRoundTrip.SlotList(xs)| + 1
  {
    SectionTextShape(xs);
    Regroup(SectionText(xs), Opening, SectionRoundTrip.SlotList(xs), rest);
  }

  /** `open + list + "}"` followed by `rest`, regrouped from the right. */
  lemma Regroup(s: string, open: string, list: string, rest: string)
    requires s == open + list + "}"
    ensures s + rest == open + (list + ("}" + rest)) && |s| == |open| + |list| + 1
  {
    Assoc(open + list, "}", rest);
    Assoc(open, list, "}" + rest);
  }

  /** The brace scan passes over the slot list and stops at the `}` after it. */
  lemma CloseLenSection(xs: seq<Slot>, rest: string)
    ensures CloseLen(SectionRoundTrip.SlotList(xs) + ("}" + rest), 1) == |SectionRoundTrip.SlotList(xs)|
  {
    CloseLenSlotList(xs, "}" + rest, 1);
    CloseLenClose(rest);
  }

  /** A document whose first introducer begins a serialised section: extraction
      yields exactly the section's slot list, from `k` to the end of the
      section. */
  lemma ExtractSectionAt(doc: string, k: nat, xs: seq<Slot>, rest: string)
    requires k <= |doc| && doc[k..] == SectionText(xs) + rest
    requires forall j :: 0 <= j < k ==> IntroEnd(doc, j).None?
    ensures Extract(doc) == Ok((SectionRoundTrip.SlotList(xs), k, k + |SectionText(xs)|))
  {
    var list := SectionRoundTrip.SlotList(xs);
    SectionSplit(xs, rest);
    CloseLenSection(xs, rest);
    FirstIntroAtOpening(doc, k, list + ("}" + rest));
    ExtractAtIntro(doc, k, k + |Opening|, list, rest);
    ExtractIs(doc, list, k, k + |SectionText(xs)|);
  }

  /** `serialize`, then `extract_inventory_section`, then `parse` gives back the
      slots: the section text is found whole, from its first character to its
      last, and its content is the slot list. */
  lemma SectionReads(xs: seq<Slot>)
    requires SectionRoundTrip.ReadableSlots(xs)
    ensures Extract(SectionText(xs)) == Ok((SectionRoundTrip.SlotList(xs), 0, |SectionText(xs)|))
    ensures ParseSlots(Extract(SectionText(xs)).value.0) == Ok(xs)
  {
    ExtractWhole(SectionText(xs), xs);
    SectionRoundTrip.SectionRoundTrip(xs);
  }

  /** A document that is a serialised section and nothing else. */
  lemma ExtractWhole(doc: string, xs: seq<Slot>)
    requires doc == SectionText(xs)
    ensures Extract(doc) == Ok((SectionRoundTrip.SlotList(xs), 0, |doc|))
  {
    assert doc[0..] == doc + "";
    ExtractSectionAt(doc, 0, xs, "");
  }

  // ---------------------------------------------------------------------------
  // Locating a spliced section
  // ---------------------------------------------------------------------------

  /** Skipping over two texts that agree up to where the skip stops in one of
      them stops at the same place in the other. */
  lemma SkipWhileAgree(a: string, b: string, i: nat, limit: nat, p: char -> bool)
    requires i <= limit <= |a| && limit <= |b|
    requires forall k :: i <= k < limit ==> a[k] == b[k]
    requires SkipWhile(b, i, p) < limit
    ensures SkipWhile(a, i, p) == SkipWhile(b, i, p)
  {
    SkipWhileSpec(b, i, p);
    SkipWhileIs(a, i, p, SkipWhile(b, i, p));
  }

  /** Skipping whitespace never passes an `I`. */
  lemma SkipStopsAtI(s: string, i: nat, at: nat)
    requires i <= at < |s| && s[at] == 'I'
    ensures SkipWhile(s, i, IsWhitespace) <= at
  {
    SkipWhileSpec(s, i, IsWhitespace);
  }

  /** `Inventory` has no second `I`: no match of it can cover an `I` past
      its first character. */
  lemma NoMatchOverI(s: string, j: nat, at: nat)
    requires j < at < j + 9 && at < |s| && s[at] == 'I'
    ensures !MatchAt(s, "Inventory", j)
  {
    if j + 9 <= |s| {
      assert s[j..j + 9][at - j] == s[at];
    }
  }

  /** The two texts agree before `start`, where `doc'` has an `I`: an
      introducer match of `doc'` that begins at least nine characters before
      `start` lies wholly before it, so `doc` has the same match. */
  lemma IntroBeforeI(doc: string, doc': string, start: nat, j: nat)
    requires start < |doc| && start < |doc'| && doc'[start] == 'I'
    requires forall k :: 0 <= k < start ==> doc[k] == doc'[k]
    requires j + 9 <= start && MatchAt(doc', "Inventory", j)
    ensures IntroEnd(doc', j).Some? ==> IntroEnd(doc, j) == IntroEnd(doc', j)
  {
    assert doc[j..j + 9] == doc'[j..j + 9];
    var p := SkipWhile(doc', j + 9, IsWhitespace);
    SkipStopsAtI(doc', j + 9, start);
    if p < start {
      SkipWhileAgree(doc, doc', j + 9, start, IsWhitespace);
      if doc'[p] == '=' {
        var q := SkipWhile(doc', p + 1, IsWhitespace);
        SkipStopsAtI(doc', p + 1, start);
        if q < start {
          SkipWhileAgree(doc, doc', p + 1, start, IsWhitespace);
        }
      }
    }
  }

  /** Where `doc'` agrees with `doc` before `start` and has an `I` at `start`,
      no introducer match can begin before `start` in `doc'` unless one begins
      at the same index in `doc`: a match is `Inventory`, then whitespace, `=`,
      whitespace and `{`, and none of those characters but the first is `I`. */
  lemma NoEarlierIntro(doc: string, doc': string, start: nat, j: nat)
    requires start < |doc| && start < |doc'| && doc[..start] == doc'[..start]
    requires doc'[start] == 'I'
    requires j < start && IntroEnd(doc, j).None?
    ensures IntroEnd(doc', j).None?
  {
    if j + 9 > start {
      NoMatchOverI(doc', j, start);
    } else if MatchAt(doc', "Inventory", j) {
      forall k | 0 <= k < start
        ensures doc[k] == doc'[k]
      {
        assert doc[k] == doc[..start][k];
        assert doc'[k] == doc'[..start][k];
      }
      IntroBeforeI(doc, doc', start, j);
    }
  }

  /** A serialised section starts with the `I` of `Inventory`. */
  lemma SectionStartsWithI(xs: seq<Slot>)
    ensures |SectionText(xs)| > 0 && SectionText(xs)[0] == 'I'
  {
    SectionTextShape(xs);
    assert SectionText(xs)[0] == Opening[0];
  }

  /** Splicing a text that starts with `I` in place of a document's inventory
      section keeps every introducer match before it away: the new document
      has none before `start`, and from `start` on holds the text and then what
      followed the old section. */
  lemma SpliceKeepsPrefix(doc: string, section: string)
    requires Extract(doc).Ok? && |section| > 0 && section[0] == 'I'
    ensures Replace(doc, section).Ok?
    ensures var start, end := Extract(doc).value.1, Extract(doc).value.2;
      var doc' := Replace(doc, section).value;
      && start <= end <= |doc| && start <= |doc'|
      && doc'[start..] == section + doc[end..]
      && forall j :: 0 <= j < start ==> IntroEnd(doc', j).None?
  {
    ReplaceSplices(doc, section);
    ExtractOk(doc);
    var (_, start, end) := Extract(doc).value;
    var doc' := Replace(doc, section).value;
    assert doc'[start..] == doc'[start..start + |section|] + doc'[start + |section|..];
    assert doc[start..start + 9] == "Inventory";
    assert doc[start] == doc[start..start + 9][0];
    assert doc'[start] == doc'[start..start + |section|][0];
    forall j | 0 <= j < start
      ensures IntroEnd(doc', j).None?
    {
      NoEarlierIntro(doc, doc', start, j);
    }
  }

  /** Splicing a serialised section in place of a document's inventory
      section: extracting from the new document finds the new section where
      the old one began, and its content is the new slot list. */
  lemma ExtractAfterReplace(doc: string, xs: seq<Slot>)
    requires Extract(doc).Ok?
    ensures Replace(doc, SectionText(xs)).Ok?
    ensures Extract(Replace(doc, SectionText(xs)).value).Ok?
    ensures Extract(Replace(doc, SectionText(xs)).value).value.0 == SectionRoundTrip.SlotList(xs)
    ensures Extract(Replace(doc, SectionText(xs)).value).value.1 == Extract(doc).value.1
    ensures Extract(Replace(doc, SectionText(xs)).value).value.2 == Extract(doc).value.1 + |SectionText(xs)|
  {
    SectionStartsWithI(xs);
    SpliceKeepsPrefix(doc, SectionText(xs));
    var start, end := Extract(doc).value.1, Extract(doc).value.2;
    ExtractSectionAt(Replace(doc, SectionText(xs)).value, start, xs, doc[end..]);
  }
}
