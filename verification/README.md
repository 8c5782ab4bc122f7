# NH RSA chapter-to-folder lookup, modelled in Dafny

`scripts/rebuild_mapping.py` builds the table that turns a New Hampshire
Revised Statutes Annotated chapter identifier such as `225-A` into the URL
folder of the Title that holds it (`xix-a`). This project models the logic
of that lookup and proves its properties:

- **Chapter tokens** (`suffix.dfy`, `chapter_token.dfy`). An identifier is
  stripped and upper-cased. It must then be `digits ('-' letters)?`. It
  becomes the pair (decimal value of the digits, rank of the letters). The
  rank is bijective base 26: A = 1 … Z = 26, AA = 27. Pairs are compared
  lexicographically, and `token_between` checks membership of a closed interval.
- **Title ranges** (`title_ranges.dfy`). The model computes the search
  window after each `TITLE <numeral>` match. It prefers the range phrase
  over the single-chapter phrase, skips titles with neither, and keeps
  document order.
- **Resolution** (`resolver.dfy`). There are three parts:
  - the first-match scan over the ranges;
  - the exact table built from `(folder, chapter)` link captures, where the
    last write wins;
  - the lookup that tries the table first and the ranges second.
- `text.dfy` holds the Python string operations these rely on: `strip`,
  `upper`, `lower`, and a character-class scanner. `results.dfy` holds
  `Option` (Python's `None`) and `Result` (a value or a raised `ValueError`).

Behaviour of the code that the model keeps:

- Python's chained comparison `ps <= px <= pe` stops early. When `ps <= px`
  is false, the end bound is never parsed, so a malformed end gives
  `False` and not an error (`TokenBetweenBelowStart`).
- `int(m.group(1))` at line 49 raises its own `ValueError` when the digit
  group is longer than 4300 digits, the default conversion limit of
  Python 3.10.7 and later. The model returns that as a second error,
  `DigitLimitExceeded`, next to the shape error `BadChapterToken`.
- `resolve_folder_by_range` with an empty range list never parses the
  chapter. It answers `None` even for malformed input (`ResolveMalformed`).
- The exact lookup at line 203 uses `chapter.lower()` without stripping.
  Because Python's `or` is used, a table entry holding an empty string
  also falls through to the range scan.

The regular-expression searches are inputs to the model:

- Title matches are given as `(start, end, key)` records. They satisfy
  what `re.finditer` guarantees: each lies inside the text, and the
  matches are ordered and do not overlap.
- The two phrase searches are functions of the window text.
- Link captures are given as a sequence of `(folder, chapter)` pairs.

## Model

| member | source | states |
|---|---|---|
| Text.RunLength | scripts/rebuild_mapping.py:32-34 | the scanner stops at the first character outside the class: every character before the returned length is in it, and the one at that length is not |
| Text.NormalizeIdempotent | scripts/rebuild_mapping.py:166 | stripping and upper-casing twice, as `resolve_folder_by_range` and then `parse_chapter_token` do, equals doing it once |
| Suffix.SuffixToInt | scripts/rebuild_mapping.py:26-36 | `None` gives 0; for text, the rank decodes back to exactly the leading letter run of the upper-cased text |
| Suffix.SuffixOfNothing | scripts/rebuild_mapping.py:27-29 | both `None` and the empty string rank 0 |
| Suffix.SuffixSingleLetter | scripts/rebuild_mapping.py:32-35 | one letter, in either case, ranks its alphabet position, 1 to 26 |
| Suffix.DoubleLetter | scripts/rebuild_mapping.py:32-35 | two letters rank `first * 26 + second` |
| Suffix.SuffixExamples | scripts/rebuild_mapping.py:27 | A = 1, Z = 26, AA = 27, and lower-case ab = 28 |
| Suffix.SuffixCaseInsensitive | scripts/rebuild_mapping.py:30 | the rank of a text equals the rank of its upper-cased and of its lower-cased form |
| Suffix.SuffixOfLetterRun | scripts/rebuild_mapping.py:32-34 | letters followed by a non-letter rank as the letters alone: the tail is ignored, not rejected |
| Suffix.LettersOfValue | scripts/rebuild_mapping.py:32-35 | the encoding is bijective: decoding the value of a letter run gives the run back |
| Suffix.ValueOfLetters | scripts/rebuild_mapping.py:32-35 | every natural number is the value of exactly the letter run decoded from it |
| Suffix.LettersValueInjective | scripts/rebuild_mapping.py:32-35 | distinct letter runs have distinct values |
| Suffix.LongerSuffixRanksHigher | scripts/rebuild_mapping.py:35 | a longer letter run always ranks above a shorter one, so Z < AA |
| ChapterToken.Scan | scripts/rebuild_mapping.py:46 | whatever the scanner returns is a split of the text into a non-empty digit group and a letter group that spells it exactly |
| ChapterToken.ScanComplete | scripts/rebuild_mapping.py:46 | the scanner finds every such split, so it fails only when there is none |
| ChapterToken.SplitUnique | scripts/rebuild_mapping.py:46 | a text splits into the two groups in at most one way |
| ChapterToken.ParseChapterToken | scripts/rebuild_mapping.py:39-49 | a shape failure carries the stripped, upper-cased text; a success needs a split whose digit group is at most 4300 digits long, the default limit of `int()` on text; the other failure reports a digit count over that limit |
| ChapterToken.ParseAccepts | scripts/rebuild_mapping.py:45-49 | every input whose normal form has the shape parses, to (decimal value of the digits, rank of the letters), when the digit group has at most 4300 digits; with more, `int()` raises its digit-limit error |
| ChapterToken.ParseOnlyAccepts | scripts/rebuild_mapping.py:45-48 | only inputs whose normal form has the shape parse |
| ChapterToken.ParseRejects | scripts/rebuild_mapping.py:46-48 | an input whose normal form has no split raises, naming that normal form |
| ChapterToken.ParseNormalized | scripts/rebuild_mapping.py:45 | surrounding whitespace and letter case never change the outcome |
| ChapterToken.ParseFormat | scripts/rebuild_mapping.py:39-49 | parsing the canonical spelling of a pair gives that pair back when its number has at most 4300 digits, and raises the digit-limit error otherwise |
| ChapterToken.ParseExamples | scripts/rebuild_mapping.py:40-44 | 225-A gives (225, 1), 227-F gives (227, 6), 216 gives (216, 0) |
| ChapterToken.Parse227Letter | scripts/rebuild_mapping.py:45-49 | 227, a dash and one capital letter parse to (227, rank of the letter), as 227-F, 227-G and 227-M do |
| ChapterToken.Parse227LowerH | scripts/rebuild_mapping.py:45-49 | lower-case 227-h parses to (227, 8) |
| ChapterToken.ParseRejectsNonDigit | scripts/rebuild_mapping.py:46-48 | an input whose normal form is empty or starts with a non-digit raises |
| ChapterToken.ParseRejectsLeadingLetter | scripts/rebuild_mapping.py:46-48 | an input starting with a letter of either case raises |
| ChapterToken.ParseRejectsExample | scripts/rebuild_mapping.py:46-48 | "abc" raises |
| ChapterToken.TokenLeTotalOrder | scripts/rebuild_mapping.py:53 | tuple `<=` on pairs is reflexive, antisymmetric, transitive and total |
| ChapterToken.ChapterTokenLe | scripts/rebuild_mapping.py:52-53 | it answers exactly when both sides parse, and the answer is `parse(a) <= parse(b)` on the pairs; a malformed left side raises with its own error first, and otherwise a malformed right side raises with its error |
| ChapterToken.ChapterTokenLePreorder | scripts/rebuild_mapping.py:52-53 | on well-formed text, `chapter_token_le` is reflexive, transitive and total |
| ChapterToken.ChapterTokenLeAntisymmetric | scripts/rebuild_mapping.py:52-53 | identifiers that are each at most the other parse to the same pair |
| ChapterToken.FormatPreservesOrder | scripts/rebuild_mapping.py:52-53 | comparing canonical spellings of pairs within the digit limit gives the order of the pairs, in both directions |
| ChapterToken.TokenBetween | scripts/rebuild_mapping.py:56-58 | true exactly when all three parse and start <= x <= end, with both bounds inclusive; it answers without raising exactly when x and start parse and, if start <= x, end parses too; errors come from x first, then start, then end only when start <= x; below the start it is false |
| ChapterToken.TokenBetweenErrorNames | scripts/rebuild_mapping.py:56-58 | a shape error names the normalized text of one of the three inputs |
| ChapterToken.TokenBetweenWellFormed | scripts/rebuild_mapping.py:56-58 | with three well-formed inputs it never raises |
| ChapterToken.TokenBetweenBelowStart | scripts/rebuild_mapping.py:58 | below the start it answers false without looking at the end, even a malformed one |
| ChapterToken.TokenBetweenBounds | scripts/rebuild_mapping.py:58 | both bounds lie inside their own interval |
| ChapterToken.TokenBetweenExamples | scripts/rebuild_mapping.py:56-58 | 225-A lies in 216 to 227-F; 227-G does not; 227-G lies in 227-G to 227-M |
| TitleRanges.Window | scripts/rebuild_mapping.py:105-108 | the window starts where the title match ends and runs to the next title's start; after the last title it runs for min(2500, rest of text) characters; no other title match reaches into it |
| TitleRanges.TitleEntry | scripts/rebuild_mapping.py:101-136 | a title has an entry exactly when either phrase is found in its window; the range phrase wins; the single-chapter phrase gives start = end; the key is upper-cased and the folder is the key lower-cased |
| TitleRanges.PresentInOrder | scripts/rebuild_mapping.py:100-139 | collecting entries keeps one value per title that has one, in title order, and drops nothing else |
| TitleRanges.ExtractTitleRanges | scripts/rebuild_mapping.py:85-139 | at most one entry per title, and every folder is its title key lower-cased |
| TitleRanges.ExtractFollowsTitleOrder | scripts/rebuild_mapping.py:100-139 | the output is the entries of exactly the titles that have one, in document order |
| TitleRanges.NoTitlesNoRanges | scripts/rebuild_mapping.py:98-139 | no title match gives an empty list |
| Resolver.ScanRanges | scripts/rebuild_mapping.py:167-170 | the first range whose membership check is not false decides, giving its folder or its error; the answer is None exactly when every check is false |
| Resolver.ResolveFolderByRange | scripts/rebuild_mapping.py:165-170 | the same first-match rule, with the stripped, upper-cased chapter checked by `token_between` |
| Resolver.ScanWithoutErrors | scripts/rebuild_mapping.py:167-170 | when no membership check can raise, the answer is the first accepted range's folder, and None exactly when none is accepted |
| Resolver.CoversWellFormed | scripts/rebuild_mapping.py:168 | with well-formed text, the check against one range is interval membership of the parsed chapter |
| Resolver.ResolveWellFormed | scripts/rebuild_mapping.py:165-170 | with well-formed text it never raises; it gives the folder of the first range whose interval holds the chapter, and None exactly when no interval holds it |
| Resolver.SecondRangeResolves | scripts/rebuild_mapping.py:165-170 | of two ranges whose bounds parse, a chapter outside the first interval and inside the second resolves to the second range's folder |
| Resolver.CoversOutside | scripts/rebuild_mapping.py:168 | a range whose parsed interval misses the parsed chapter answers false |
| Resolver.CoversInside | scripts/rebuild_mapping.py:168 | a range whose parsed interval contains the parsed chapter answers true |
| Resolver.ScanSecondHit | scripts/rebuild_mapping.py:167-170 | when the first of two checks is false and the second true, the scan answers with the second range's folder |
| Resolver.ResolveMalformed | scripts/rebuild_mapping.py:165-170 | a malformed chapter raises its own parse error when there is any range, and gets None when there is none |
| Resolver.LinkMapKeys | scripts/rebuild_mapping.py:185-188 | the table's keys are exactly the lower-cased chapters of the links |
| Resolver.LinkMapLastWriteWins | scripts/rebuild_mapping.py:185-188 | each chapter maps to the lower-cased folder of its last link in document order |
| Resolver.LookupFolder | scripts/rebuild_mapping.py:185-203 | over the link captures: a chapter whose last case-insensitively equal link has a non-empty folder gets that folder lower-cased, and the ranges are not consulted; an empty folder falls through to the range scan, as Python's `or` does; a chapter with no link gets exactly the range scan's answer |
| Resolver.RangeFallbackExample | scripts/rebuild_mapping.py:203 | with no links, 227-h resolves to xix-a through the XIX-A range (227-G to 227-M), past the end of XIX (216 to 227-F) |
| Resolver.XixRangeScan | scripts/rebuild_mapping.py:165-170 | the range scan places 227-h in XIX-A (227-G to 227-M), after skipping XIX (216 to 227-F) |
| Resolver.LinkExample | scripts/rebuild_mapping.py:185-203 | the link capture (xix-a, 225-a) stores 225-a ↦ xix-a, and looking up 225-A answers from it |

## Left out

- `read_html`: reading the fixture file and fetching the live page over HTTP. This is I/O.
- Command-line parsing, creating the output directory, and JSON output with sorted keys. These are I/O and library formatting. The sort at line 193 only orders the output and does not change the table's contents.
- The stderr warning when no title range is found. `NoTitlesNoRanges` states when the list is empty.
- The `re` engine: the whitespace normalisation at lines 93-94 and the searches that locate `TITLE …`, `Includes Chapter(s) …` and `/rsa/html/{folder}/{chapter}/` in the text. Their results are inputs: located title matches, phrase-search functions over a window, and link captures.
- `build_chapter_to_title`: it reads an undefined global and nothing calls it. The loop in `main` at lines 185-188 does the same work and is modelled.
- Text.Upper: does not model Unicode case mapping. Python's `str.upper()` also maps non-ASCII letters, some to ASCII ones (ſ to S, ı to I) and some to several characters (ß to SS). Here only a–z change.
- Text.Lower: does not model Unicode case mapping, for the same reason; only A–Z change.
- The digit limit of `int()` is fixed at Python's default of 4300. The `PYTHONINTMAXSTRDIGITS` environment variable, `-X int_max_str_digits` and `sys.set_int_max_str_digits()` can change it or turn it off; those are the interpreter's configuration, not part of the script. Python 3.10.0 to 3.10.6, which can run the script, have no limit.
- ChapterToken.ParseChapterToken: does not model Python's `\d` matching non-ASCII decimal digits, which `int()` also accepts. Here a digit is 0–9.
