/** Chapter identifiers such as "216", "225-A" or "227-F": the scanner that
    recognises `digits ('-' letters)?`, the `(number, suffix rank)` pair it
    produces, and the lexicographic order on those pairs. */
module ChapterToken {
  import opened Results
  import opened Text
  import opened Suffix

  /** A parsed identifier, Python's `(int, int)` tuple. */
  datatype Token = Token(number: nat, suffix: nat)

  /** The two `ValueError`s parsing raises: the shape check's, carrying the
      normalized text it complained about, and `int()`'s refusal of a digit
      group longer than its conversion limit, carrying the digit count. */
  datatype ParseError =
    | BadChapterToken(token: string)
    | DigitLimitExceeded(digits: nat)

  /** Python's default cap on the number of digits `int()` converts from
      text (`sys.int_info.default_max_str_digits`, Python 3.10.7 and later). */
  const MaxStrDigits: nat := 4300

  function DigitValue(c: char): (n: nat)
    requires IsDigit(c)
    ensures n < 10
  {
    c as int - '0' as int
  }

  function DigitOf(n: nat): (c: char)
    requires n < 10
    ensures IsDigit(c) && DigitValue(c) == n
  {
    ('0' as int + n) as char
  }

  /** `int(digits)` for a run of ASCII digits (leading zeros allowed). */
  function DecimalValue(d: string): nat
    requires AllDigits(d)
    decreases |d|
  {
    if |d| == 0 then 0 else DecimalValue(d[..|d| - 1]) * 10 + DigitValue(d[|d| - 1])
  }

  /** The canonical decimal spelling of a number. */
  function DecimalOf(n: nat): (d: string)
    ensures |d| > 0 && AllDigits(d)
  {
    if n < 10 then [DigitOf(n)] else DecimalOf(n / 10) + [DigitOf(n % 10)]
  }

  lemma {:induction false} ValueOfDecimal(n: nat)
    ensures DecimalValue(DecimalOf(n)) == n
  {
    if n >= 10 {
      var d := DecimalOf(n);
      assert d[..|d| - 1] == DecimalOf(n / 10);
      ValueOfDecimal(n / 10);
    }
  }

  /** The shape `(\d+)(?:-([A-Z]+))?` as a relation between a whole text and
      its two groups; an absent second group is the empty string. */
  predicate SplitsAs(t: string, digits: string, letters: string) {
    && |digits| > 0
    && AllDigits(digits)
    && AllLetters(letters)
    && t == digits + (if |letters| == 0 then "" else "-" + letters)
  }

  /** The hand-rolled scanner standing in for `re.fullmatch`: a digit run,
      then either the end or a dash followed by a letter run reaching the
      end. Whatever it returns is a split of the input into the two groups. */
  function Scan(t: string): (r: Option<(string, string)>)
    ensures r.Some? ==> SplitsAs(t, r.value.0, r.value.1)
  {
    var k := RunLength(t, IsDigit);
    if k == 0 then None
    else if k == |t| then Some((t, ""))
    else if t[k] == '-' && k + 1 < |t| && RunLength(t[k + 1..], IsUpperLetter) == |t| - (k + 1) then
      assert t == t[..k] + "-" + t[k + 1..];
      Some((t[..k], t[k + 1..]))
    else None
  }

  /** The scanner finds every split there is, so it fails only on text that
      has no split at all. */
  lemma ScanComplete(t: string, digits: string, letters: string)
    requires SplitsAs(t, digits, letters)
    ensures Scan(t) == Some((digits, letters))
  {
    var k := |digits|;
    assert forall i :: 0 <= i < k ==> t[i] == digits[i];
    RunLengthUnique(t, IsDigit, k);
    if |letters| > 0 {
      assert t[k] == '-';
      assert t[..k] == digits;
      assert t[k + 1..] == letters;
      RunLengthUnique(letters, IsUpperLetter, |letters|);
    }
  }

  /** A text splits in at most one way. */
  lemma SplitUnique(t: string, d1: string, l1: string, d2: string, l2: string)
    requires SplitsAs(t, d1, l1) && SplitsAs(t, d2, l2)
    ensures d1 == d2 && l1 == l2
  {
    ScanComplete(t, d1, l1);
    ScanComplete(t, d2, l2);
  }

  /** `parse_chapter_token`: strip and upper-case, scan, and return the
      decimal value of the digits with the rank of the letters; a failed
      scan raises with the normalized text. */
  function ParseChapterToken(tok: string): (r: Result<Token, ParseError>)
    ensures r.Err? && r.error.BadChapterToken? ==> r.error.token == Normalize(tok)
    ensures r.Ok? ==> Scan(Normalize(tok)).Some? && |Scan(Normalize(tok)).value.0| <= MaxStrDigits
    ensures r.Err? && r.error.DigitLimitExceeded? ==> r.error.digits > MaxStrDigits
  {
    var t := Normalize(tok);
    match Scan(t)
    case None => Err(BadChapterToken(t))
    case Some((digits, letters)) =>
      if |digits| > MaxStrDigits then Err(DigitLimitExceeded(|digits|))
      else Ok(Token(DecimalValue(digits), SuffixToInt(if |letters| == 0 then None else Some(letters))))
  }

  /** Every text of the right shape parses, to the decimal value of its
      digits and the rank of its letters, unless its digit group is too long
      for `int()`. */
  lemma ParseAccepts(tok: string, digits: string, letters: string)
    requires SplitsAs(Normalize(tok), digits, letters)
    ensures |digits| <= MaxStrDigits ==> ParseChapterToken(tok) == Ok(Token(DecimalValue(digits), LettersValue(letters)))
    ensures |digits| > MaxStrDigits ==> ParseChapterToken(tok) == Err(DigitLimitExceeded(|digits|))
  {
    var t := Normalize(tok);
    ScanComplete(t, digits, letters);
    assert Scan(t) == Some((digits, letters));
    if |digits| <= MaxStrDigits {
      var sfx := if |letters| == 0 then None else Some(letters);
      assert SuffixToInt(sfx) == LettersValue(letters) by {
        if |letters| > 0 {
          SuffixOfLetterRun(letters, "");
          assert letters + "" == letters;
        }
      }
    }
  }

  /** Only texts of the right shape parse. */
  lemma ParseOnlyAccepts(tok: string)
    requires ParseChapterToken(tok).Ok?
    ensures exists digits, letters :: SplitsAs(Normalize(tok), digits, letters)
  {
    var r := Scan(Normalize(tok)).value;
    assert SplitsAs(Normalize(tok), r.0, r.1);
  }

  /** Malformed text raises, and the error names the normalized text. */
  lemma ParseRejects(tok: string)
    requires forall digits, letters :: !SplitsAs(Normalize(tok), digits, letters)
    ensures ParseChapterToken(tok) == Err(BadChapterToken(Normalize(tok)))
  {
    if ParseChapterToken(tok).Ok? {
      ParseOnlyAccepts(tok);
    }
  }

  /** Surrounding whitespace and letter case never matter. */
  lemma ParseNormalized(tok: string)
    ensures ParseChapterToken(Normalize(tok)) == ParseChapterToken(tok)
  {
    NormalizeIdempotent(tok);
  }

  /** Text with no surrounding whitespace and no lower-case letter is its
      own normal form. */
  lemma NormalizeOfCanonical(s: string)
    requires |s| > 0 ==> !IsSpace(s[0]) && !IsSpace(s[|s| - 1])
    requires forall i :: 0 <= i < |s| ==> !IsLowerLetter(s[i])
    ensures Normalize(s) == s
  {
    StripOfTrimmed(s);
  }

  /** The canonical spelling of a token: its number in decimal, then a dash
      and its letters when the suffix rank is not 0. */
  function Format(t: Token): string {
    DecimalOf(t.number) + (if t.suffix == 0 then "" else "-" + LettersOf(t.suffix))
  }

  /** A token whose number `int()` can convert from its decimal spelling. */
  predicate FitsDigitLimit(t: Token) {
    |DecimalOf(t.number)| <= MaxStrDigits
  }

  /** Parsing the canonical spelling gives the token back, so every token
      whose number fits the conversion limit is the parse of some
      identifier; a longer number is refused by `int()`. */
  lemma ParseFormat(t: Token)
    ensures FitsDigitLimit(t) ==> ParseChapterToken(Format(t)) == Ok(t)
    ensures !FitsDigitLimit(t) ==> ParseChapterToken(Format(t)) == Err(DigitLimitExceeded(|DecimalOf(t.number)|))
  {
    var d := DecimalOf(t.number);
    var l := LettersOf(t.suffix);
    var s := Format(t);
    assert s == d + (if |l| == 0 then "" else "-" + l);
    assert s[0] == d[0];
    NormalizeOfCanonical(s);
    assert SplitsAs(s, d, l);
    ParseAccepts(s, d, l);
    ValueOfDecimal(t.number);
    ValueOfLetters(t.suffix);
  }

  /** Python's `<=` on `(int, int)` tuples: by number, then by suffix rank. */
  predicate TokenLe(a: Token, b: Token) {
    a.number < b.number || (a.number == b.number && a.suffix <= b.suffix)
  }

  /** `TokenLe` is a total order on tokens. */
  lemma TokenLeTotalOrder(a: Token, b: Token, c: Token)
    ensures TokenLe(a, a)
    ensures TokenLe(a, b) && TokenLe(b, a) ==> a == b
    ensures TokenLe(a, b) && TokenLe(b, c) ==> TokenLe(a, c)
    ensures TokenLe(a, b) || TokenLe(b, a)
  {
  }

  /** `chapter_token_le`: parse both sides, left first, and compare. */
  function ChapterTokenLe(a: string, b: string): (r: Result<bool, ParseError>)
    ensures r.Ok? <==> ParseChapterToken(a).Ok? && ParseChapterToken(b).Ok?
    ensures r.Ok? ==> r.value == TokenLe(ParseChapterToken(a).value, ParseChapterToken(b).value)
    ensures ParseChapterToken(a).Err? ==> r == Err(ParseChapterToken(a).error)
    ensures ParseChapterToken(a).Ok? && ParseChapterToken(b).Err? ==> r == Err(ParseChapterToken(b).error)
  {
    match ParseChapterToken(a)
    case Err(e) => Err(e)
    case Ok(pa) =>
      match ParseChapterToken(b)
      case Err(e) => Err(e)
      case Ok(pb) => Ok(TokenLe(pa, pb))
  }

  predicate WellFormed(s: string) {
    ParseChapterToken(s).Ok?
  }

  /** `chapter_token_le` is reflexive and transitive on well-formed text,
      and any two well-formed identifiers are comparable. */
  lemma ChapterTokenLePreorder(a: string, b: string, c: string)
    requires WellFormed(a) && WellFormed(b) && WellFormed(c)
    ensures ChapterTokenLe(a, a) == Ok(true)
    ensures ChapterTokenLe(a, b) == Ok(true) && ChapterTokenLe(b, c) == Ok(true) ==> ChapterTokenLe(a, c) == Ok(true)
    ensures ChapterTokenLe(a, b) == Ok(true) || ChapterTokenLe(b, a) == Ok(true)
  {
  }

  /** Two well-formed identifiers that are each at most the other denote
      the same chapter, whatever their spelling ("0225-a" and "225-A"). */
  lemma ChapterTokenLeAntisymmetric(a: string, b: string)
    requires ChapterTokenLe(a, b) == Ok(true) && ChapterTokenLe(b, a) == Ok(true)
    ensures ParseChapterToken(a) == ParseChapterToken(b)
  {
  }

  /** The canonical spelling is order-preserving in both directions. */
  lemma FormatPreservesOrder(a: Token, b: Token)
    ensures FitsDigitLimit(a) && FitsDigitLimit(b) ==> ChapterTokenLe(Format(a), Format(b)) == Ok(TokenLe(a, b))
  {
    ParseFormat(a);
    ParseFormat(b);
  }

  /** `token_between(x, start, end)`: parse `x`, then `start`; Python's
      chained `ps <= px <= pe` stops (and never parses `end`) as soon as
      `ps <= px` is false. True exactly when all three parse and `x` lies in
      the closed interval. */
  function TokenBetween(x: string, start: string, end: string): (r: Result<bool, ParseError>)
    ensures r == Ok(true) <==>
      && ParseChapterToken(x).Ok?
      && ParseChapterToken(start).Ok?
      && ParseChapterToken(end).Ok?
      && TokenLe(ParseChapterToken(start).value, ParseChapterToken(x).value)
      && TokenLe(ParseChapterToken(x).value, ParseChapterToken(end).value)
    ensures r.Ok? <==>
      && ParseChapterToken(x).Ok?
      && ParseChapterToken(start).Ok?
      && (TokenLe(ParseChapterToken(start).value, ParseChapterToken(x).value) ==> ParseChapterToken(end).Ok?)
    ensures ParseChapterToken(x).Err? ==> r == Err(ParseChapterToken(x).error)
    ensures ParseChapterToken(x).Ok? && ParseChapterToken(start).Err? ==> r == Err(ParseChapterToken(start).error)
    ensures && ParseChapterToken(x).Ok? && ParseChapterToken(start).Ok?
            && !TokenLe(ParseChapterToken(start).value, ParseChapterToken(x).value)
            ==> r == Ok(false)
    ensures && ParseChapterToken(x).Ok? && ParseChapterToken(start).Ok?
            && TokenLe(ParseChapterToken(start).value, ParseChapterToken(x).value)
            && ParseChapterToken(end).Err?
            ==> r == Err(ParseChapterToken(end).error)
  {
    match ParseChapterToken(x)
    case Err(e) => Err(e)
    case Ok(px) =>
      match ParseChapterToken(start)
      case Err(e) => Err(e)
      case Ok(ps) =>
        if !TokenLe(ps, px) then Ok(false)
        else
          match ParseChapterToken(end)
          case Err(e) => Err(e)
          case Ok(pe) => Ok(TokenLe(px, pe))
  }

  /** A shape error from `token_between` names the normalized text of one
      of its three arguments. */
  lemma TokenBetweenErrorNames(x: string, start: string, end: string)
    ensures var r := TokenBetween(x, start, end);
      r.Err? && r.error.BadChapterToken? ==> r.error.token in {Normalize(x), Normalize(start), Normalize(end)}
  {
  }

  /** With three well-formed identifiers `token_between` never raises. */
  lemma TokenBetweenWellFormed(x: string, start: string, end: string)
    requires WellFormed(x) && WellFormed(start) && WellFormed(end)
    ensures TokenBetween(x, start, end).Ok?
  {
  }

  /** Below the start, the end is never looked at: even a malformed end
      gives `False` rather than an error. */
  lemma TokenBetweenBelowStart(x: string, start: string, end: string)
    requires WellFormed(x) && WellFormed(start)
    requires !TokenLe(ParseChapterToken(start).value, ParseChapterToken(x).value)
    ensures TokenBetween(x, start, end) == Ok(false)
  {
  }

  /** Both bounds are inclusive. */
  lemma TokenBetweenBounds(start: string, end: string)
    requires WellFormed(start) && WellFormed(end)
    requires ChapterTokenLe(start, end) == Ok(true)
    ensures TokenBetween(start, start, end) == Ok(true)
    ensures TokenBetween(end, start, end) == Ok(true)
  {
  }

  /** A literal already in normal form parses by its split. */
  lemma ParseCanonical(s: string, digits: string, letters: string)
    requires SplitsAs(s, digits, letters) && |digits| <= MaxStrDigits
    ensures ParseChapterToken(s) == Ok(Token(DecimalValue(digits), LettersValue(letters)))
  {
    assert s[0] == digits[0];
    assert forall i :: 0 <= i < |s| ==> IsDigit(s[i]) || s[i] == '-' || IsUpperLetter(s[i]) by {
      if |letters| > 0 {
        forall i | 0 <= i < |s|
          ensures IsDigit(s[i]) || s[i] == '-' || IsUpperLetter(s[i])
        {
          if i > |digits| {
            assert s[i] == letters[i - |digits| - 1];
          }
        }
      }
    }
    NormalizeOfCanonical(s);
    ParseAccepts(s, digits, letters);
  }

  lemma ThreeDigitValue(a: char, b: char, c: char)
    requires IsDigit(a) && IsDigit(b) && IsDigit(c)
    ensures DecimalValue([a, b, c]) == DigitValue(a) * 100 + DigitValue(b) * 10 + DigitValue(c)
  {
    assert [a][..0] == [];
    assert DecimalValue([a]) == DigitValue(a);
    assert [a, b][..1] == [a];
    assert DecimalValue([a, b]) == DigitValue(a) * 10 + DigitValue(b);
    assert [a, b, c][..2] == [a, b];
  }

  lemma OneLetterValue(c: char)
    requires IsUpperLetter(c)
    ensures LettersValue([c]) == Rank(c)
  {
    assert [c][..0] == [];
  }

  lemma Parse225A()
    ensures ParseChapterToken("225-A") == Ok(Token(225, 1))
  {
    var d, l := "225", "A";
    Split225A();
    ParseCanonical("225-A", d, l);
    ThreeDigitValue('2', '2', '5');
    OneLetterValue('A');
  }

  lemma Split225A()
    ensures SplitsAs("225-A", "225", "A")
  {
    var d, l := "225", "A";
    assert "225-A" == d + "-" + l;
  }

  /** Chapter 227 with a one-letter suffix, such as "227-F" or "227-M". */
  lemma Parse227Letter(c: char)
    requires IsUpperLetter(c)
    ensures ParseChapterToken(['2', '2', '7', '-', c]) == Ok(Token(227, Rank(c)))
  {
    var d, l := "227", [c];
    var s := ['2', '2', '7', '-', c];
    assert s == d + "-" + l;
    assert SplitsAs(s, d, l);
    ParseCanonical(s, d, l);
    ThreeDigitValue('2', '2', '7');
    OneLetterValue(c);
  }

  lemma Parse216()
    ensures ParseChapterToken("216") == Ok(Token(216, 0))
  {
    var d := "216";
    assert "216" == d + "";
    assert SplitsAs("216", d, "");
    ParseCanonical("216", d, "");
    ThreeDigitValue('2', '1', '6');
  }

  /** Lower case is accepted: "227-h" is chapter 227-H. */
  lemma Parse227LowerH()
    ensures ParseChapterToken("227-h") == Ok(Token(227, 8))
  {
    Normalize227LowerH();
    Parse227Letter('H');
    ParseNormalized("227-h");
  }

  lemma Normalize227LowerH()
    ensures Normalize("227-h") == "227-H"
  {
    assert Upper("227-h") == "227-H";
    assert Strip("227-h") == "227-h";
  }

  /** The examples in the documentation of `parse_chapter_token`. */
  lemma ParseExamples()
    ensures ParseChapterToken("225-A") == Ok(Token(225, 1))
    ensures ParseChapterToken("227-F") == Ok(Token(227, 6))
    ensures ParseChapterToken("216") == Ok(Token(216, 0))
  {
    Parse225A();
    Parse227Letter('F');
    Parse216();
  }

  lemma ParseRejectsExample()
    ensures ParseChapterToken("abc").Err?
  {
    ParseRejectsLeadingLetter("abc");
  }

  /** The interval examples: inside, just past the end, and on an
      inclusive bound. */
  lemma TokenBetweenExamples()
    ensures TokenBetween("225-A", "216", "227-F") == Ok(true)
    ensures TokenBetween("227-G", "216", "227-F") == Ok(false)
    ensures TokenBetween("227-G", "227-G", "227-M") == Ok(true)
  {
    ParseExamples();
    Parse227Letter('G');
    Parse227Letter('M');
  }

  /** Text whose normal form does not start with a digit is refused. */
  lemma ParseRejectsNonDigit(tok: string)
    requires |Normalize(tok)| == 0 || !IsDigit(Normalize(tok)[0])
    ensures ParseChapterToken(tok) == Err(BadChapterToken(Normalize(tok)))
  {
    assert RunLength(Normalize(tok), IsDigit) == 0;
    assert Scan(Normalize(tok)).None?;
  }

  /** An identifier that starts with a letter, in either case, is refused
      ("abc" raises). */
  lemma ParseRejectsLeadingLetter(tok: string)
    requires |tok| > 0 && IsUpperLetter(UpperChar(tok[0]))
    ensures ParseChapterToken(tok) == Err(BadChapterToken(Normalize(tok)))
  {
    var c := tok[0];
    assert !IsSpace(c);
    assert TrimLeft(tok) == tok;
    var s := TrimRight(tok);
    assert s == Strip(tok);
    assert |s| > 0 && s[0] == c;
    var n := Normalize(tok);
    assert n[0] == UpperChar(c);
    ParseRejectsNonDigit(tok);
  }
}
