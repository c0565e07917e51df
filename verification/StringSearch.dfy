/** The string searches of 0812_string.md: right-to-left matching with a skip table, and brute force. */
module StringSearch {

  /** The pattern occurs in the text at position i. */
  ghost predicate MatchAt(text: string, pattern: string, i: nat) {
    i + |pattern| <= |text| && text[i..i + |pattern|] == pattern
  }

  /** What both programs are to return: the first match, or -1. */
  ghost predicate IsLeftmost(text: string, pattern: string, r: int) {
    if r == -1 then forall i :: 0 <= i ==> !MatchAt(text, pattern, i)
    else 0 <= r && MatchAt(text, pattern, r) && forall i :: 0 <= i < r ==> !MatchAt(text, pattern, i)
  }

  lemma SplitIsMatch(text: string, pattern: string, before: string, rest: string)
    requires text == before + pattern + rest
    ensures MatchAt(text, pattern, |before|)
  {
    assert text[|before|..|before| + |pattern|] == pattern;
  }

  /** In terms of the texts alone: no split around the pattern comes earlier, and the answer is one. */
  lemma LeftmostMeans(text: string, pattern: string, r: int)
    requires IsLeftmost(text, pattern, r)
    ensures forall before: string, rest: string :: text == before + pattern + rest ==> 0 <= r <= |before|
    ensures r == -1 || (0 <= r && r + |pattern| <= |text| && text == text[..r] + pattern + text[r + |pattern|..])
  {
    forall before: string, rest: string | text == before + pattern + rest ensures 0 <= r <= |before| {
      SplitIsMatch(text, pattern, before, rest);
    }
    if r != -1 {
      assert text == text[..r] + text[r..r + |pattern|] + text[r + |pattern|..];
    }
  }

  /** There is only one such answer. */
  lemma LeftmostIsUnique(text: string, pattern: string, r: int, q: int)
    requires IsLeftmost(text, pattern, r) && IsLeftmost(text, pattern, q)
    ensures r == q
  {
  }

  /** The last place before the final one where the character occurs in the pattern, or -1. */
  function LastPlace(pattern: string, c: char, upTo: nat): (p: int)
    requires upTo <= |pattern|
    ensures -1 <= p < upTo
    ensures p >= 0 ==> pattern[p] == c
    ensures forall k :: p < k < upTo ==> pattern[k] != c
  {
    if upTo == 0 then -1
    else if pattern[upTo - 1] == c then upTo - 1
    else LastPlace(pattern, c, upTo - 1)
  }

  /** The table says how far the last such place is from the end of the pattern. */
  ghost predicate IsSkipTable(table: map<char, int>, pattern: string, upTo: nat)
    requires upTo <= |pattern|
  {
    forall c :: (c in table <==> LastPlace(pattern, c, upTo) >= 0)
             && (c in table ==> table[c] == |pattern| - LastPlace(pattern, c, upTo) - 1)
  }

  /** How many characters come before the last one. */
  function BeforeLast(pattern: string): nat { if pattern == "" then 0 else |pattern| - 1 }

  method PreProcess(pattern: string) returns (table: map<char, int>)
    ensures IsSkipTable(table, pattern, BeforeLast(pattern))
  {
    table := map[];
    var i := 0;
    while i < |pattern| - 1
      invariant 0 <= i <= BeforeLast(pattern)
      invariant IsSkipTable(table, pattern, i)
    {
      table := table[pattern[i] := |pattern| - i - 1];
      i := i + 1;
    }
  }

  /** skip_table.get(c, M) */
  function Skip(table: map<char, int>, c: char, m: int): int {
    if c in table then table[c] else m
  }

  /** A skip is at least one and jumps over no match. */
  lemma SkipIsSafe(table: map<char, int>, text: string, pattern: string, i: nat, k: nat)
    requires pattern != [] && IsSkipTable(table, pattern, |pattern| - 1) && i + |pattern| <= |text|
    requires i < k < i + Skip(table, text[i + |pattern| - 1], |pattern|)
    ensures !MatchAt(text, pattern, k)
  {
  }

  lemma MismatchAt(text: string, pattern: string, i: nat, j: nat)
    requires i + |pattern| <= |text| && j < |pattern| && text[i + j] != pattern[j]
    ensures !MatchAt(text, pattern, i)
  {
    assert text[i..i + |pattern|][j] == text[i + j];
  }

  method BoyerMoore(text: string, pattern: string) returns (r: int)
    ensures IsLeftmost(text, pattern, r)
    ensures forall before: string, rest: string :: text == before + pattern + rest ==> 0 <= r <= |before|
    ensures r == -1 || (0 <= r && r + |pattern| <= |text| && text == text[..r] + pattern + text[r + |pattern|..])
  {
    var table := PreProcess(pattern);
    var M := |pattern|;
    var i := 0;
    while i <= |text| - M
      invariant 0 <= i
      invariant forall k :: 0 <= k < i ==> !MatchAt(text, pattern, k)
    {
      var j := M - 1;
      var k := i + M - 1;
      while j >= 0 && pattern[j] == text[k]
        invariant -1 <= j < M && k == i + j
        invariant forall n :: j < n < M ==> pattern[n] == text[i + n]
      {
        j := j - 1;
        k := k - 1;
      }
      if j == -1 {
        assert text[i..i + M] == pattern;
        LeftmostMeans(text, pattern, i);
        return i;
      }
      MismatchAt(text, pattern, i, j);
      forall n | i < n < i + Skip(table, text[i + M - 1], M) ensures !MatchAt(text, pattern, n) {
        SkipIsSafe(table, text, pattern, i, n);
      }
      i := i + Skip(table, text[i + M - 1], M);
    }
    r := -1;
    LeftmostMeans(text, pattern, r);
  }

  /** bruteforce(pattern, text): its first parameter is the string searched in, its second the one searched for. */
  method BruteForce(pattern: string, text: string) returns (r: int)
    ensures IsLeftmost(pattern, text, r)
    ensures forall before: string, rest: string :: pattern == before + text + rest ==> 0 <= r <= |before|
    ensures r == -1 || (0 <= r && r + |text| <= |pattern| && pattern == pattern[..r] + text + pattern[r + |text|..])
  {
    var N, M := |pattern|, |text|;
    var n := 0;
    while n < N - M + 1
      invariant 0 <= n
      invariant forall k :: 0 <= k < n ==> !MatchAt(pattern, text, k)
    {
      var j := 0;
      while j < M && pattern[n + j] == text[j]
        invariant 0 <= j <= M
        invariant forall k :: 0 <= k < j ==> pattern[n + k] == text[k]
      {
        j := j + 1;
      }
      if j == M {
        assert pattern[n..n + M] == text;
        LeftmostMeans(pattern, text, n);
        return n;
      }
      MismatchAt(pattern, text, n, j);
      n := n + 1;
    }
    r := -1;
    LeftmostMeans(pattern, text, r);
  }

  /** Called with the same arguments in the same positions, the two programs agree. */
  method Agree(text: string, pattern: string) returns (fast: int, simple: int)
    ensures fast == simple && IsLeftmost(text, pattern, fast)
  {
    fast := BoyerMoore(text, pattern);
    simple := BruteForce(text, pattern);
    LeftmostIsUnique(text, pattern, fast, simple);
  }
}
