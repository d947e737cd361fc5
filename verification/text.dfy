/** The two string operations the search uses: ASCII lower-casing
    (`toLowerCase`) and substring search (`includes`). */
module Text {

  /** Lower-cases one ASCII letter; every other character is kept. */
  function LowerChar(c: char): char {
    if 'A' <= c <= 'Z' then (c as int + 32) as char else c
  }

  /** Whether `c` is one of the ASCII capitals `A`..`Z`. */
  predicate IsUpper(c: char) {
    'A' <= c <= 'Z'
  }

  /** `s.toLowerCase()` restricted to ASCII: same length, every character
      lower-cased in place, and no capital letter left. */
  function Lower(s: string): (r: string)
    ensures |r| == |s|
    ensures forall i :: 0 <= i < |s| ==> r[i] == LowerChar(s[i])
    ensures forall i :: 0 <= i < |r| ==> !IsUpper(r[i])
  {
    seq(|s|, i requires 0 <= i < |s| => LowerChar(s[i]))
  }

  /** Lower-casing twice is lower-casing once. */
  lemma LowerIdempotent(s: string)
    ensures Lower(Lower(s)) == Lower(s)
  {
  }

  /** Lower-casing works character by character, so it distributes over
      concatenation. */
  lemma LowerConcat(a: string, b: string)
    ensures Lower(a + b) == Lower(a) + Lower(b)
  {
  }

  /** `n` occurs in `h` starting at index `i`. */
  predicate OccursAt(h: string, n: string, i: int) {
    0 <= i && i + |n| <= |h| && h[i..i + |n|] == n
  }

  /** `h.includes(n)`: `n` occurs somewhere in `h`. */
  predicate Occurs(h: string, n: string) {
    exists i :: 0 <= i <= |h| - |n| && OccursAt(h, n, i)
  }

  /** The empty string occurs in every string, as `"".includes` promises. */
  lemma OccursEmpty(h: string)
    ensures Occurs(h, "")
  {
    assert OccursAt(h, "", 0);
  }

  /** A needle whose first character is nowhere in `h` does not occur in it. */
  lemma NotOccursWithoutFirst(h: string, n: string)
    requires n != [] && n[0] !in h
    ensures !Occurs(h, n)
  {
  }

  /** The naive search behind `includes`: tries every start position in
      turn and reports whether the needle matched at one of them. */
  method Includes(h: string, n: string) returns (found: bool)
    ensures found <==> Occurs(h, n)
  {
    if |n| > |h| {
      return false;
    }
    var i := 0;
    while i <= |h| - |n|
      invariant 0 <= i <= |h| - |n| + 1
      invariant forall j :: 0 <= j < i ==> !OccursAt(h, n, j)
    {
      if h[i..i + |n|] == n {
        assert OccursAt(h, n, i);
        return true;
      }
      i := i + 1;
    }
    return false;
  }
}
