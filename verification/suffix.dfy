/** The letter suffix of a chapter identifier ("225-A", "227-AA") and its
    bijective base-26 rank: A = 1, …, Z = 26, AA = 27, AB = 28, … */
module Suffix {
  import opened Results
  import opened Text

  /** Rank of one upper-case letter, `ord(ch) - ord("A") + 1`. */
  function Rank(c: char): (n: nat)
    requires IsUpperLetter(c)
    ensures 1 <= n <= 26
  {
    c as int - 'A' as int + 1
  }

  /** The letter whose rank is `n`. */
  function LetterOfRank(n: nat): (c: char)
    requires 1 <= n <= 26
    ensures IsUpperLetter(c) && Rank(c) == n
  {
    ('A' as int + n - 1) as char
  }

  /** Value of a run of upper-case letters, read left to right with
      `n * 26 + rank` per letter. */
  function LettersValue(w: string): nat
    requires AllLetters(w)
    decreases |w|
  {
    if |w| == 0 then 0 else LettersValue(w[..|w| - 1]) * 26 + Rank(w[|w| - 1])
  }

  /** The letter run of a rank: the inverse of `LettersValue`. */
  function LettersOf(n: nat): (w: string)
    ensures AllLetters(w)
    ensures |w| == 0 <==> n == 0
  {
    if n == 0 then [] else LettersOf((n - 1) / 26) + [LetterOfRank((n - 1) % 26 + 1)]
  }

  /** The longest leading run of upper-case letters. */
  function LeadingLetters(s: string): (w: string)
    ensures AllLetters(w)
  {
    s[..RunLength(s, IsUpperLetter)]
  }

  /** `suffix_to_int`: absent or empty gives 0; otherwise the input is
      upper-cased and the letters up to the first non-letter are ranked.
      The result decodes back to exactly that leading letter run. */
  function SuffixToInt(sfx: Option<string>): (n: nat)
    ensures sfx.None? ==> n == 0
    ensures sfx.Some? ==> LettersOf(n) == LeadingLetters(Upper(sfx.value))
  {
    match sfx
    case None => 0
    case Some(s) =>
      if |s| == 0 then 0
      else
        var w := LeadingLetters(Upper(s));
        LettersOfValue(w);
        LettersValue(w)
  }

  /** Decoding a letter run's value gives the run back. */
  lemma {:induction false} LettersOfValue(w: string)
    requires AllLetters(w)
    ensures LettersOf(LettersValue(w)) == w
    decreases |w|
  {
    if |w| > 0 {
      var p := w[..|w| - 1];
      var c := w[|w| - 1];
      var n := LettersValue(w);
      assert n - 1 == LettersValue(p) * 26 + (Rank(c) - 1);
      assert (n - 1) / 26 == LettersValue(p);
      assert (n - 1) % 26 + 1 == Rank(c);
      LettersOfValue(p);
      assert w == p + [c];
    }
  }

  /** Encoding the letter run of a rank gives the rank back. */
  lemma {:induction false} ValueOfLetters(n: nat)
    ensures LettersValue(LettersOf(n)) == n
  {
    if n > 0 {
      var q, m := (n - 1) / 26, (n - 1) % 26 + 1;
      assert n == q * 26 + m;
      var w := LettersOf(n);
      assert w == LettersOf(q) + [LetterOfRank(m)];
      assert w[..|w| - 1] == LettersOf(q);
      assert Rank(w[|w| - 1]) == m;
      ValueOfLetters(q);
      assert LettersValue(w) == LettersValue(LettersOf(q)) * 26 + m;
    }
  }

  /** Distinct letter runs have distinct values. */
  lemma LettersValueInjective(u: string, w: string)
    requires AllLetters(u) && AllLetters(w)
    requires LettersValue(u) == LettersValue(w)
    ensures u == w
  {
    LettersOfValue(u);
    LettersOfValue(w);
  }

  /** Empty and absent suffixes both rank 0. */
  lemma SuffixOfNothing()
    ensures SuffixToInt(None) == 0
    ensures SuffixToInt(Some("")) == 0
  {
  }

  /** A single letter, in either case, ranks 1 … 26 in alphabet order. */
  lemma SuffixSingleLetter(c: char)
    requires IsUpperLetter(UpperChar(c))
    ensures SuffixToInt(Some([c])) == UpperChar(c) as int - 'A' as int + 1
  {
    var s := Upper([c]);
    assert RunLength(s[1..], IsUpperLetter) == 0;
    assert LeadingLetters(s) == [UpperChar(c)];
    assert [UpperChar(c)][..0] == [];
  }

  lemma SuffixExamples()
    ensures SuffixToInt(Some("A")) == 1
    ensures SuffixToInt(Some("Z")) == 26
    ensures SuffixToInt(Some("AA")) == 27
    ensures SuffixToInt(Some("ab")) == 28
  {
    SuffixSingleLetter('A');
    SuffixSingleLetter('Z');
    DoubleLetter('A', 'A');
    DoubleLetter('a', 'b');
  }

  lemma DoubleLetter(a: char, b: char)
    requires IsUpperLetter(UpperChar(a)) && IsUpperLetter(UpperChar(b))
    ensures SuffixToInt(Some([a, b])) == Rank(UpperChar(a)) * 26 + Rank(UpperChar(b))
  {
    var w := [UpperChar(a), UpperChar(b)];
    assert Upper([a, b]) == w;
    SuffixOfLetterRun(w, "");
    assert w + "" == w;
    SuffixCaseInsensitive([a, b]);
    assert w[..1] == [UpperChar(a)];
    assert [UpperChar(a)][..0] == [];
    assert LettersValue([UpperChar(a)]) == Rank(UpperChar(a));
    assert LettersValue(w) == Rank(UpperChar(a)) * 26 + Rank(UpperChar(b));
  }

  /** The rank only depends on the upper-cased text. */
  lemma SuffixCaseInsensitive(s: string)
    ensures SuffixToInt(Some(s)) == SuffixToInt(Some(Upper(s)))
    ensures SuffixToInt(Some(s)) == SuffixToInt(Some(Lower(s)))
  {
    UpperIdempotent(s);
    UpperOfLower(s);
  }

  /** Scanning stops at the first character that is not a letter once
      upper-cased: whatever follows is ignored, never rejected. */
  lemma SuffixOfLetterRun(w: string, rest: string)
    requires AllLetters(w)
    requires |rest| > 0 ==> !IsUpperLetter(UpperChar(rest[0]))
    ensures SuffixToInt(Some(w + rest)) == LettersValue(w)
  {
    var s := Upper(w + rest);
    RunLengthUnique(s, IsUpperLetter, |w|);
    assert LeadingLetters(s) == w;
    if |w + rest| > 0 {
      ValueOfLetters(SuffixToInt(Some(w + rest)));
    }
  }

  /** The smallest rank of a run of `k` letters ("A" repeated `k` times). */
  function Shortest(k: nat): nat {
    if k == 0 then 0 else Shortest(k - 1) * 26 + 1
  }

  lemma {:induction false} LettersValueBounds(w: string)
    requires AllLetters(w)
    ensures Shortest(|w|) <= LettersValue(w) < Shortest(|w| + 1)
    decreases |w|
  {
    if |w| > 0 {
      LettersValueBounds(w[..|w| - 1]);
    }
  }

  lemma {:induction false} ShortestMonotone(j: nat, k: nat)
    requires j <= k
    ensures Shortest(j) <= Shortest(k)
    decreases k - j
  {
    if j < k {
      ShortestMonotone(j, k - 1);
    }
  }

  /** Ranks order suffixes shortest first: every longer letter run ranks
      above every shorter one, so "Z" < "AA". */
  lemma LongerSuffixRanksHigher(u: string, w: string)
    requires AllLetters(u) && AllLetters(w)
    requires |u| < |w|
    ensures LettersValue(u) < LettersValue(w)
  {
    LettersValueBounds(u);
    LettersValueBounds(w);
    ShortestMonotone(|u| + 1, |w|);
  }
}
