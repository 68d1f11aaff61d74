/** The few Python built-ins the ranking engine leans on, stated in Dafny's terms:
    optional values, str.strip / str.upper / str.lower (ASCII case mapping),
    list.index, and the length of a prefix slice s[:k]. */
module Prelude {

  datatype Option<T> = None | Some(value: T)

  /** A value, or the exception Python would raise instead. */
  datatype Result<T, E> = Ok(value: T) | Err(error: E)

  function Min(a: int, b: int): int { if a <= b then a else b }

  function Max(a: int, b: int): int { if a <= b then b else a }

  /** No value occurs twice in s. */
  predicate Distinct<T(==)>(s: seq<T>) {
    forall i, j :: 0 <= i < j < |s| ==> s[i] != s[j]
  }

  /** The set of elements of s. */
  function Members<T(==)>(s: seq<T>): set<T> {
    set x | x in s
  }

  lemma SubsetNoLarger<T>(a: set<T>, b: set<T>)
    requires a <= b
    ensures |a| <= |b|
  {
    assert b == a + (b - a);
    assert a * (b - a) == {};
  }

  lemma ProperSubsetSmaller<T>(a: set<T>, b: set<T>, z: T)
    requires a <= b && z in b && z !in a
    ensures |a| < |b|
  {
    SubsetNoLarger(a, b - {z});
    assert b == (b - {z}) + {z};
  }

  /** A list without repeats has as many members as elements. */
  lemma {:induction false} DistinctSetSize<T>(s: seq<T>)
    requires Distinct(s)
    ensures |Members(s)| == |s|
  {
    if s != [] {
      var init := s[..|s| - 1];
      DistinctSetSize(init);
      assert s == init + [s[|s| - 1]];
      assert s[|s| - 1] !in Members(init);
      assert Members(s) == Members(init) + {s[|s| - 1]};
    }
  }

  // ---------------------------------------------------------------------------
  // Characters

  /** Python's str.isspace on one character: the characters str.strip() removes
      (ASCII blanks and controls 9-13 and 28-32, and the Unicode space separators). */
  predicate IsSpace(c: char) {
    var u := c as int;
    (9 <= u <= 13) || (28 <= u <= 32) || u == 0x85 || u == 0xA0 || u == 0x1680
    || (0x2000 <= u <= 0x200A) || u == 0x2028 || u == 0x2029 || u == 0x202F
    || u == 0x205F || u == 0x3000
  }

  /** ASCII upper-casing of one character. */
  function UpperChar(c: char): char {
    if 'a' <= c <= 'z' then (c as int - 32) as char else c
  }

  /** ASCII lower-casing of one character. */
  function LowerChar(c: char): char {
    if 'A' <= c <= 'Z' then (c as int + 32) as char else c
  }

  /** str.upper(), character by character. */
  function Upper(s: string): string {
    seq(|s|, i requires 0 <= i < |s| => UpperChar(s[i]))
  }

  /** str.lower(), character by character. */
  function Lower(s: string): string {
    seq(|s|, i requires 0 <= i < |s| => LowerChar(s[i]))
  }

  lemma LowerIdempotent(s: string)
    ensures Lower(Lower(s)) == Lower(s)
  {
    assert forall i :: 0 <= i < |s| ==> LowerChar(LowerChar(s[i])) == LowerChar(s[i]);
  }

  // ---------------------------------------------------------------------------
  // str.strip()

  /** The number of whitespace characters s starts with. */
  function LeadingBlanks(s: string): (n: nat)
    ensures n <= |s| && (forall i :: 0 <= i < n ==> IsSpace(s[i]))
    ensures n < |s| ==> !IsSpace(s[n])
  {
    if s != [] && IsSpace(s[0]) then 1 + LeadingBlanks(s[1..]) else 0
  }

  /** The number of whitespace characters s ends with. */
  function TrailingBlanks(s: string): (n: nat)
    ensures n <= |s| && (forall i :: |s| - n <= i < |s| ==> IsSpace(s[i]))
    ensures n < |s| ==> !IsSpace(s[|s| - n - 1])
  {
    if s != [] && IsSpace(s[|s| - 1]) then 1 + TrailingBlanks(s[..|s| - 1]) else 0
  }

  /** str.strip(): the longest infix of s that neither starts nor ends with whitespace;
      every character cut off on either side is whitespace. */
  function Strip(s: string): (r: string)
    ensures var lo := LeadingBlanks(s);
            lo + |r| <= |s| && r == s[lo..lo + |r|]
            && (forall i :: lo + |r| <= i < |s| ==> IsSpace(s[i]))
    ensures r != [] ==> !IsSpace(r[0]) && !IsSpace(r[|r| - 1])
  {
    var lo := LeadingBlanks(s);
    var t := s[lo..];
    t[..|t| - TrailingBlanks(t)]
  }

  // ---------------------------------------------------------------------------
  // list.index and slices

  /** list.index(x): the first position holding x, or None where Python raises ValueError. */
  function IndexOf<T(==)>(s: seq<T>, x: T): (r: Option<nat>)
    ensures r.None? <==> x !in s
    ensures r.Some? ==> r.value < |s| && s[r.value] == x
                        && forall j :: 0 <= j < r.value ==> s[j] != x
  {
    if s == [] then None
    else if s[0] == x then Some(0)
    else match IndexOf(s[1..], x)
      case None => None
      case Some(j) => Some(j + 1)
  }

  /** list(reversed(s)). */
  function Reverse<T>(s: seq<T>): (r: seq<T>)
    ensures |r| == |s| && forall t :: 0 <= t < |s| ==> r[t] == s[|s| - 1 - t]
  {
    seq(|s|, t requires 0 <= t < |s| => s[|s| - 1 - t])
  }

  /** len(s[:k]) for a Python list of length n: a negative k counts from the end. */
  function PrefixLen(k: int, n: nat): (r: nat)
    ensures r <= n
  {
    if 0 <= k then Min(k, n) else Max(0, n + k)
  }
}
