/** Title-range extraction from the Table of Contents text. The regular
    expression engine is not modelled: the `TITLE <numeral>` occurrences are
    given as located matches, and the two phrase searches run inside each
    window are given as functions of the window text. What is modelled is
    how each window is cut, which phrase wins, and how entries are collected. */
module TitleRanges {
  import opened Results
  import opened Text

  /** One `TITLE <numeral>` match in the normalized text: where it starts,
      where it ends, and the numeral it captured (e.g. "xix-a"). */
  datatype TitleMatch = TitleMatch(start: nat, end: nat, key: string)

  /** One entry of the extracted list: the upper-cased title key, the URL
      folder (the key lower-cased) and the first and last chapter it holds. */
  datatype TitleRange = TitleRange(titleKey: string, folder: string, start: string, end: string)

  /** What `re.finditer` guarantees of the matches it yields: each lies in
      the text, and they follow each other without overlapping. */
  predicate Located(textLength: nat, titles: seq<TitleMatch>) {
    && (forall i :: 0 <= i < |titles| ==> titles[i].start <= titles[i].end <= textLength)
    && (forall i, j :: 0 <= i < j < |titles| ==> titles[i].end <= titles[j].start)
  }

  /** How far past the last title the search window reaches. */
  const LastWindowLength: nat := 2500

  function Min(a: int, b: int): int {
    if a <= b then a else b
  }

  /** The text searched for a title's chapter phrase: it starts right where
      the title match ends and reaches the next title's start, or, after the
      last title, 2500 characters or the end of the text. No other title
      match reaches into it. */
  function Window(text: string, titles: seq<TitleMatch>, i: nat): (w: string)
    requires Located(|text|, titles) && i < |titles|
    ensures titles[i].end + |w| <= |text|
    ensures w == text[titles[i].end..titles[i].end + |w|]
    ensures forall j :: 0 <= j < |titles| && j != i ==>
      titles[j].end <= titles[i].end || titles[i].end + |w| <= titles[j].start
    ensures i + 1 < |titles| ==> titles[i].end + |w| == titles[i + 1].start
    ensures i + 1 == |titles| ==> |w| == Min(LastWindowLength, |text| - titles[i].end)
  {
    var lo := titles[i].end;
    var hi := if i + 1 < |titles| then titles[i + 1].start else Min(|text|, lo + LastWindowLength);
    assert forall j :: i + 1 < j < |titles| ==> titles[i + 1].start <= titles[j].start by {
      forall j | i + 1 < j < |titles|
        ensures titles[i + 1].start <= titles[j].start
      {
        assert titles[i + 1].start <= titles[i + 1].end;
      }
    }
    text[lo..hi]
  }

  /** The entry a title contributes, if any. A range phrase ("Includes
      Chapters X - Y") found in the window is preferred; failing that a
      single-chapter phrase ("Includes Chapter X") gives a one-chapter range;
      with neither, the title is skipped. Chapter texts are upper-cased. */
  function TitleEntry(
    text: string, titles: seq<TitleMatch>, i: nat,
    findRange: string -> Option<(string, string)>, findSingle: string -> Option<string>
  ): (e: Option<TitleRange>)
    requires Located(|text|, titles) && i < |titles|
    ensures var w := Window(text, titles, i);
      && (e.Some? <==> findRange(w).Some? || findSingle(w).Some?)
      && (e.Some? ==> e.value.titleKey == Upper(titles[i].key) && e.value.folder == Lower(e.value.titleKey))
      && (findRange(w).Some? ==>
            e.Some? && e.value.start == Upper(findRange(w).value.0) && e.value.end == Upper(findRange(w).value.1))
      && (findRange(w).None? && findSingle(w).Some? ==>
            e.Some? && e.value.start == Upper(findSingle(w).value) && e.value.end == e.value.start)
  {
    var titleKey := Upper(titles[i].key);
    var folder := Lower(titleKey);
    var w := Window(text, titles, i);
    match findRange(w)
    case Some((first, last)) => Some(TitleRange(titleKey, folder, Upper(first), Upper(last)))
    case None =>
      match findSingle(w)
      case Some(chapter) => var c := Upper(chapter); Some(TitleRange(titleKey, folder, c, c))
      case None => None
  }

  /** The values present in `entries` from position `i` on, in order. */
  function PresentFrom<T>(entries: seq<Option<T>>, i: nat): (r: seq<T>)
    requires i <= |entries|
    ensures |r| <= |entries| - i
    decreases |entries| - i
  {
    if i == |entries| then []
    else
      var rest := PresentFrom(entries, i + 1);
      if entries[i].Some? then [entries[i].value] + rest else rest
  }

  /** The positions from `i` on that hold a value, in increasing order. */
  ghost function PositionsFrom<T>(entries: seq<Option<T>>, i: nat): seq<nat>
    requires i <= |entries|
    decreases |entries| - i
  {
    if i == |entries| then []
    else
      var rest := PositionsFrom(entries, i + 1);
      if entries[i].Some? then [i] + rest else rest
  }

  /** `PresentFrom` keeps exactly one value per position that holds one,
      and keeps them in position order. */
  lemma {:induction false} PresentInOrder<T>(entries: seq<Option<T>>, i: nat)
    requires i <= |entries|
    ensures var r := PresentFrom(entries, i);
      var c := PositionsFrom(entries, i);
      && |c| == |r|
      && (forall j :: 0 <= j < |c| ==> i <= c[j] < |entries| && entries[c[j]] == Some(r[j]))
      && (forall j, k :: 0 <= j < k < |c| ==> c[j] < c[k])
      && (forall t :: i <= t < |entries| && entries[t].Some? ==> t in c)
    decreases |entries| - i
  {
    if i < |entries| {
      PresentInOrder(entries, i + 1);
      if entries[i].Some? {
        var r', c' := PresentFrom(entries, i + 1), PositionsFrom(entries, i + 1);
        var r, c := PresentFrom(entries, i), PositionsFrom(entries, i);
        assert r == [entries[i].value] + r' && c == [i] + c';
        forall j | 0 < j < |c|
          ensures i <= c[j] < |entries| && entries[c[j]] == Some(r[j])
        {
          assert c[j] == c'[j - 1] && r[j] == r'[j - 1];
        }
        forall j, k | 0 <= j < k < |c|
          ensures c[j] < c[k]
        {
          assert c[k] == c'[k - 1];
          if j > 0 {
            assert c[j] == c'[j - 1];
          }
        }
      }
    }
  }

  /** The entry of every title, by position. */
  function TitleEntries(
    text: string, titles: seq<TitleMatch>,
    findRange: string -> Option<(string, string)>, findSingle: string -> Option<string>
  ): (es: seq<Option<TitleRange>>)
    requires Located(|text|, titles)
    ensures |es| == |titles|
    ensures forall i :: 0 <= i < |titles| ==> es[i] == TitleEntry(text, titles, i, findRange, findSingle)
  {
    seq(|titles|, i requires 0 <= i < |titles| => TitleEntry(text, titles, i, findRange, findSingle))
  }

  /** `extract_title_ranges` over already-located title matches: the
      entries of the titles that have one, in title order. Every folder is
      its title key lower-cased. */
  function ExtractTitleRanges(
    text: string, titles: seq<TitleMatch>,
    findRange: string -> Option<(string, string)>, findSingle: string -> Option<string>
  ): (r: seq<TitleRange>)
    requires Located(|text|, titles)
    ensures |r| <= |titles|
    ensures forall j :: 0 <= j < |r| ==> r[j].folder == Lower(r[j].titleKey)
  {
    var es := TitleEntries(text, titles, findRange, findSingle);
    PresentInOrder(es, 0);
    PresentFrom(es, 0)
  }

  /** The extracted list is the entries of the contributing titles in
      document order: one entry per title that has one, none for the
      others, and no reordering. */
  lemma ExtractFollowsTitleOrder(
    text: string, titles: seq<TitleMatch>,
    findRange: string -> Option<(string, string)>, findSingle: string -> Option<string>
  )
    requires Located(|text|, titles)
    ensures var r := ExtractTitleRanges(text, titles, findRange, findSingle);
      var c := PositionsFrom(TitleEntries(text, titles, findRange, findSingle), 0);
      && |c| == |r|
      && (forall j :: 0 <= j < |c| ==>
            c[j] < |titles| && TitleEntry(text, titles, c[j], findRange, findSingle) == Some(r[j]))
      && (forall j, k :: 0 <= j < k < |c| ==> c[j] < c[k])
      && (forall t :: 0 <= t < |titles| && TitleEntry(text, titles, t, findRange, findSingle).Some? ==> t in c)
  {
    PresentInOrder(TitleEntries(text, titles, findRange, findSingle), 0);
  }

  /** With no title match the list is empty (the case the tool warns about). */
  lemma NoTitlesNoRanges(
    text: string, findRange: string -> Option<(string, string)>, findSingle: string -> Option<string>
  )
    ensures ExtractTitleRanges(text, [], findRange, findSingle) == []
  {
  }
}
