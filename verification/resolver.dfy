/** Turning a chapter identifier into its URL folder: the first-match scan
    over the extracted title ranges, the exact table built from explicit
    chapter links, and the lookup that tries the table before the ranges. */
module Resolver {
  import opened Results
  import opened Text
  import opened ChapterToken
  import opened TitleRanges

  /** `token_between(ch, r["start"], r["end"])` for one range. */
  function Covers(ch: string, rg: TitleRange): Result<bool, ParseError> {
    TokenBetween(ch, rg.start, rg.end)
  }

  /** Every range before position `n` was checked and did not hold the
      chapter. */
  predicate MissesBefore<E>(covers: TitleRange -> Result<bool, E>, ranges: seq<TitleRange>, n: nat)
    requires n <= |ranges|
  {
    forall j :: 0 <= j < n ==> covers(ranges[j]) == Ok(false)
  }

  /** The `for r in ranges` loop, with `covers` the check run on each range:
      the first range whose check does not say "no" decides, by holding the
      chapter (its folder is the answer) or by raising; when every check says
      "no" the answer is `None`. */
  function ScanRanges<E>(covers: TitleRange -> Result<bool, E>, ranges: seq<TitleRange>)
    : (r: Result<Option<string>, E>)
    ensures r == Ok(None) <==> MissesBefore(covers, ranges, |ranges|)
    ensures forall i :: 0 <= i < |ranges| && MissesBefore(covers, ranges, i) && covers(ranges[i]) == Ok(true) ==>
      r == Ok(Some(ranges[i].folder))
    ensures forall i :: 0 <= i < |ranges| && MissesBefore(covers, ranges, i) && covers(ranges[i]).Err? ==>
      r == Err(covers(ranges[i]).error)
    decreases |ranges|
  {
    if |ranges| == 0 then Ok(None)
    else
      match covers(ranges[0])
      case Err(e) => Err(e)
      case Ok(true) => Ok(Some(ranges[0].folder))
      case Ok(false) =>
        var rest := ranges[1..];
        assert forall i :: 0 < i <= |ranges| ==>
          (MissesBefore(covers, ranges, i) <==> MissesBefore(covers, rest, i - 1));
        ScanRanges(covers, rest)
  }

  /** `resolve_folder_by_range`: strip and upper-case the chapter, then check
      it with `token_between` against each range in order. */
  function ResolveFolderByRange(chapter: string, ranges: seq<TitleRange>): (r: Result<Option<string>, ParseError>)
    ensures var ch := Normalize(chapter);
      var covers := (rg: TitleRange) => Covers(ch, rg);
      && (r == Ok(None) <==> MissesBefore(covers, ranges, |ranges|))
      && (forall i :: 0 <= i < |ranges| && MissesBefore(covers, ranges, i) && Covers(ch, ranges[i]) == Ok(true) ==>
            r == Ok(Some(ranges[i].folder)))
      && (forall i :: 0 <= i < |ranges| && MissesBefore(covers, ranges, i) && Covers(ch, ranges[i]).Err? ==>
            r == Err(Covers(ch, ranges[i]).error))
  {
    var ch := Normalize(chapter);
    ScanRanges((rg: TitleRange) => Covers(ch, rg), ranges)
  }

  /** Every range bound is a well-formed chapter identifier. */
  predicate RangesWellFormed(ranges: seq<TitleRange>) {
    forall i :: 0 <= i < |ranges| ==> WellFormed(ranges[i].start) && WellFormed(ranges[i].end)
  }

  /** The closed interval of a range holds `t` (never, for a range whose
      bounds are malformed). */
  predicate Holds(rg: TitleRange, t: Token) {
    && WellFormed(rg.start) && WellFormed(rg.end)
    && TokenLe(ParseChapterToken(rg.start).value, t) && TokenLe(t, ParseChapterToken(rg.end).value)
  }

  // This lemma and the two-range lemmas further down state their premises as
  // the antecedent of the conclusion rather than as `requires`: they can be
  // called on any arguments, and the conclusion is used where they hold.

  /** On well-formed text the check against one range is membership of
      the parsed chapter in the range's interval. */
  lemma CoversWellFormed(chapter: string, rg: TitleRange)
    ensures WellFormed(chapter) && WellFormed(rg.start) && WellFormed(rg.end) ==>
      Covers(Normalize(chapter), rg) == Ok(Holds(rg, ParseChapterToken(chapter).value))
  {
    if WellFormed(chapter) && WellFormed(rg.start) && WellFormed(rg.end) {
      var ch := Normalize(chapter);
      ParseNormalized(chapter);
      assert ParseChapterToken(ch) == ParseChapterToken(chapter);
      TokenBetweenWellFormed(ch, rg.start, rg.end);
      if Holds(rg, ParseChapterToken(chapter).value) {
        assert Covers(ch, rg) == Ok(true);
      } else {
        assert Covers(ch, rg) == Ok(false);
      }
    }
  }

  /** When no check can raise, the scan answers with the first range the
      check accepts, and `None` exactly when it accepts none. */
  lemma {:induction false} ScanWithoutErrors<E>(
    covers: TitleRange -> Result<bool, E>, ranges: seq<TitleRange>, holds: TitleRange -> bool
  )
    requires forall i :: 0 <= i < |ranges| ==> covers(ranges[i]) == Ok(holds(ranges[i]))
    ensures var r := ScanRanges(covers, ranges);
      && r.Ok?
      && (r.value.None? <==> forall i :: 0 <= i < |ranges| ==> !holds(ranges[i]))
      && (forall i :: 0 <= i < |ranges| && holds(ranges[i]) && (forall j :: 0 <= j < i ==> !holds(ranges[j])) ==>
            r.value == Some(ranges[i].folder))
    decreases |ranges|
  {
    if |ranges| > 0 && !holds(ranges[0]) {
      var rest := ranges[1..];
      assert forall i :: 0 <= i < |rest| ==> rest[i] == ranges[i + 1];
      ScanWithoutErrors(covers, rest, holds);
      assert ScanRanges(covers, ranges) == ScanRanges(covers, rest);
      forall i | 0 < i < |ranges| && holds(ranges[i]) && (forall j :: 0 <= j < i ==> !holds(ranges[j]))
        ensures ScanRanges(covers, ranges).value == Some(ranges[i].folder)
      {
        assert rest[i - 1] == ranges[i];
        assert forall j :: 0 <= j < i - 1 ==> !holds(rest[j]) by {
          forall j | 0 <= j < i - 1
            ensures !holds(rest[j])
          {
            assert rest[j] == ranges[j + 1];
          }
        }
      }
      if forall i :: 0 <= i < |rest| ==> !holds(rest[i]) {
        forall i | 0 <= i < |ranges|
          ensures !holds(ranges[i])
        {
          if i > 0 {
            assert ranges[i] == rest[i - 1];
          }
        }
      }
    }
  }

  /** With well-formed text everywhere the lookup never raises; it gives the
      folder of the first range, in list order, whose interval holds the
      chapter, and `None` exactly when no range holds it. */
  lemma ResolveWellFormed(chapter: string, ranges: seq<TitleRange>)
    requires WellFormed(chapter) && RangesWellFormed(ranges)
    ensures var r := ResolveFolderByRange(chapter, ranges);
      var t := ParseChapterToken(chapter).value;
      && r.Ok?
      && (r.value.None? <==> forall i :: 0 <= i < |ranges| ==> !Holds(ranges[i], t))
      && (forall i :: 0 <= i < |ranges| && Holds(ranges[i], t) && (forall j :: 0 <= j < i ==> !Holds(ranges[j], t)) ==>
            r.value == Some(ranges[i].folder))
  {
    var ch := Normalize(chapter);
    var t := ParseChapterToken(chapter).value;
    var covers := (rg: TitleRange) => Covers(ch, rg);
    var holds := (rg: TitleRange) => Holds(rg, t);
    forall i | 0 <= i < |ranges|
      ensures covers(ranges[i]) == Ok(holds(ranges[i]))
    {
      CoversWellFormed(chapter, ranges[i]);
    }
    ScanWithoutErrors(covers, ranges, holds);
  }

  /** A malformed chapter raises as soon as there is a range to check it
      against, and is answered `None` when there is none. */
  lemma ResolveMalformed(chapter: string, ranges: seq<TitleRange>)
    requires !WellFormed(chapter)
    ensures |ranges| == 0 ==> ResolveFolderByRange(chapter, ranges) == Ok(None)
    ensures |ranges| > 0 ==> ResolveFolderByRange(chapter, ranges) == Err(ParseChapterToken(chapter).error)
  {
    ParseNormalized(chapter);
    NormalizeIdempotent(chapter);
    if |ranges| > 0 {
      var ch := Normalize(chapter);
      assert MissesBefore((rg: TitleRange) => Covers(ch, rg), ranges, 0);
    }
  }

  /** One `(folder, chapter)` pair captured by the link pattern
      `/rsa/html/{folder}/{chapter}/`, in document order. */
  datatype LinkMatch = LinkMatch(folder: string, chapter: string)

  /** Link `i` is the last one whose chapter has its lower-cased spelling. */
  predicate LastFor(links: seq<LinkMatch>, i: nat)
    requires i < |links|
  {
    forall j :: i < j < |links| ==> Lower(links[j].chapter) != Lower(links[i].chapter)
  }

  /** The `mapping[chapter.lower()] = folder.lower()` loop over the links
      in document order. */
  function BuildLinkMap(links: seq<LinkMatch>): map<string, string>
    decreases |links|
  {
    if |links| == 0 then map[]
    else
      var last := links[|links| - 1];
      BuildLinkMap(links[..|links| - 1])[Lower(last.chapter) := Lower(last.folder)]
  }

  /** The keys of the table are the lower-cased chapters of the links. */
  lemma {:induction false} LinkMapKeys(links: seq<LinkMatch>)
    ensures BuildLinkMap(links).Keys == set i | 0 <= i < |links| :: Lower(links[i].chapter)
    decreases |links|
  {
    if |links| > 0 {
      var init := links[..|links| - 1];
      var last := links[|links| - 1];
      LinkMapKeys(init);
      var keys := set i | 0 <= i < |links| :: Lower(links[i].chapter);
      var keys' := set i | 0 <= i < |init| :: Lower(init[i].chapter);
      forall k | k in keys
        ensures k in keys' + {Lower(last.chapter)}
      {
        var i :| 0 <= i < |links| && k == Lower(links[i].chapter);
        if i < |init| {
          assert k == Lower(init[i].chapter);
        }
      }
      forall k | k in keys'
        ensures k in keys
      {
        var i :| 0 <= i < |init| && k == Lower(init[i].chapter);
        assert k == Lower(links[i].chapter);
      }
      assert Lower(last.chapter) == Lower(links[|links| - 1].chapter);
    }
  }

  /** Later links overwrite earlier ones: each chapter maps to the
      lower-cased folder of the last link for it. */
  lemma {:induction false} LinkMapLastWriteWins(links: seq<LinkMatch>)
    ensures forall i :: 0 <= i < |links| && LastFor(links, i) ==>
      Lower(links[i].chapter) in BuildLinkMap(links) &&
      BuildLinkMap(links)[Lower(links[i].chapter)] == Lower(links[i].folder)
    decreases |links|
  {
    if |links| > 0 {
      var init := links[..|links| - 1];
      LinkMapLastWriteWins(init);
      forall i | 0 <= i < |links| && LastFor(links, i)
        ensures Lower(links[i].chapter) in BuildLinkMap(links)
        ensures BuildLinkMap(links)[Lower(links[i].chapter)] == Lower(links[i].folder)
      {
        if i < |init| {
          assert init[i] == links[i];
          assert LastFor(init, i) by {
            forall j | i < j < |init|
              ensures Lower(init[j].chapter) != Lower(init[i].chapter)
            {
              assert init[j] == links[j];
            }
          }
        }
      }
    }
  }

  /** Lines 185-188 and 203: the table built from the link captures is
      consulted first, under the lower-cased chapter. The range scan answers
      when no link names the chapter, and also, through Python's `or`, when
      the folder stored for it is empty. */
  function LookupFolder(links: seq<LinkMatch>, chapter: string, ranges: seq<TitleRange>)
    : (r: Result<Option<string>, ParseError>)
    ensures forall i :: 0 <= i < |links| && Lower(links[i].chapter) == Lower(chapter) && LastFor(links, i) ==>
      r == if |links[i].folder| > 0 then Ok(Some(Lower(links[i].folder))) else ResolveFolderByRange(chapter, ranges)
    ensures (forall i :: 0 <= i < |links| ==> Lower(links[i].chapter) != Lower(chapter)) ==>
      r == ResolveFolderByRange(chapter, ranges)
  {
    var mapping := BuildLinkMap(links);
    LinkMapKeys(links);
    LinkMapLastWriteWins(links);
    var key := Lower(chapter);
    if key in mapping && mapping[key] != "" then Ok(Some(mapping[key]))
    else ResolveFolderByRange(chapter, ranges)
  }

  /** The two Title XIX ranges of the Table of Contents. */
  function XixRanges(): seq<TitleRange> {
    [TitleRange("XIX", "xix", "216", "227-F"), TitleRange("XIX-A", "xix-a", "227-G", "227-M")]
  }

  /** With no explicit link for "227-h", the range fallback finds it in
      Title XIX-A (227-G … 227-M), past the end of Title XIX (… 227-F). */
  lemma RangeFallbackExample()
    ensures LookupFolder([], "227-h", XixRanges()) == Ok(Some("xix-a"))
  {
    XixRangeScan();
  }

  /** The range scan alone places "227-h" in Title XIX-A. */
  lemma XixRangeScan()
    ensures ResolveFolderByRange("227-h", XixRanges()) == Ok(Some("xix-a"))
  {
    Parse227LowerH();
    Parse216();
    Parse227Letter('F');
    Parse227Letter('G');
    Parse227Letter('M');
    SecondRangeResolves("227-h", XixRanges(), Token(227, 8), Token(216, 0), Token(227, 6), Token(227, 7), Token(227, 13));
  }

  /** Of two ranges whose bounds parse, a chapter outside the first interval
      and inside the second resolves to the second's folder. */
  lemma SecondRangeResolves(chapter: string, ranges: seq<TitleRange>, t: Token, a: Token, b: Token, c: Token, d: Token)
    ensures && ParseChapterToken(chapter) == Ok(t) && |ranges| == 2
            && ParseChapterToken(ranges[0].start) == Ok(a) && ParseChapterToken(ranges[0].end) == Ok(b)
            && ParseChapterToken(ranges[1].start) == Ok(c) && ParseChapterToken(ranges[1].end) == Ok(d)
            && !(TokenLe(a, t) && TokenLe(t, b)) && TokenLe(c, t) && TokenLe(t, d)
            ==> ResolveFolderByRange(chapter, ranges) == Ok(Some(ranges[1].folder))
  {
    if |ranges| == 2 {
      var ch := Normalize(chapter);
      ParseNormalized(chapter);
      CoversOutside(ch, ranges[0], t, a, b);
      CoversInside(ch, ranges[1], t, c, d);
      ScanSecondHit((rg: TitleRange) => Covers(ch, rg), ranges);
    }
  }

  /** A range whose parsed interval misses the parsed chapter does not hold it. */
  lemma CoversOutside(ch: string, rg: TitleRange, t: Token, a: Token, b: Token)
    ensures && ParseChapterToken(ch) == Ok(t)
            && ParseChapterToken(rg.start) == Ok(a) && ParseChapterToken(rg.end) == Ok(b)
            && !(TokenLe(a, t) && TokenLe(t, b))
            ==> Covers(ch, rg) == Ok(false)
  {
  }

  /** A range whose parsed interval contains the parsed chapter holds it. */
  lemma CoversInside(ch: string, rg: TitleRange, t: Token, c: Token, d: Token)
    ensures && ParseChapterToken(ch) == Ok(t)
            && ParseChapterToken(rg.start) == Ok(c) && ParseChapterToken(rg.end) == Ok(d)
            && TokenLe(c, t) && TokenLe(t, d)
            ==> Covers(ch, rg) == Ok(true)
  {
  }

  /** Two ranges, the first missed and the second hit: the scan answers
      with the second's folder. */
  lemma ScanSecondHit<E>(covers: TitleRange -> Result<bool, E>, ranges: seq<TitleRange>)
    ensures |ranges| == 2 && covers(ranges[0]) == Ok(false) && covers(ranges[1]) == Ok(true)
            ==> ScanRanges(covers, ranges) == Ok(Some(ranges[1].folder))
  {
  }

  /** A link to `/rsa/html/xix-a/225-a/…` puts "225-a" ↦ "xix-a" in the
      table, and the lookup of "225-A" answers from it. */
  lemma LinkExample()
    ensures var m := BuildLinkMap([LinkMatch("xix-a", "225-a")]);
      "225-a" in m && m["225-a"] == "xix-a"
    ensures LookupFolder([LinkMatch("xix-a", "225-a")], "225-A", XixRanges()) == Ok(Some("xix-a"))
  {
    var links := [LinkMatch("xix-a", "225-a")];
    assert Lower("225-a") == "225-a";
    assert Lower("xix-a") == "xix-a";
    assert Lower("225-A") == "225-a";
    LinkMapLastWriteWins(links);
  }
}
