/**
 * Entry names and the lowercasing the ignore filter applies to them
 * (`entry.name.toLowerCase()` in findLargestDirs.js). Names are modelled as
 * strings of characters and lowercasing as ASCII lowercasing.
 */
module Names {

  /** True of the ASCII capital letters, the only characters lowercasing changes. */
  predicate IsUpperAscii(c: char)
  {
    'A' <= c <= 'Z'
  }

  /** The lowercase counterpart of an ASCII capital; every other character is kept. */
  function LowerChar(c: char): (r: char)
    ensures !IsUpperAscii(r)
    ensures IsUpperAscii(c) ==> 'a' <= r <= 'z' && r as int - c as int == 'a' as int - 'A' as int
    ensures !IsUpperAscii(c) ==> r == c
  {
    if IsUpperAscii(c) then (c as int - 'A' as int + 'a' as int) as char else c
  }

  /** `toLowerCase`: lowercases every character and keeps the length. */
  function ToLower(s: string): (r: string)
    ensures |r| == |s|
    ensures forall i :: 0 <= i < |s| ==> r[i] == LowerChar(s[i])
  {
    seq(|s|, i requires 0 <= i < |s| => LowerChar(s[i]))
  }

  /** A name with no capital letter in it. */
  predicate IsLower(s: string)
  {
    forall i :: 0 <= i < |s| ==> !IsUpperAscii(s[i])
  }

  /** Two names that are equal once both are lowercased, character by character. */
  predicate EqualsIgnoringCase(a: string, b: string)
  {
    |a| == |b| && forall i :: 0 <= i < |a| ==> LowerChar(a[i]) == LowerChar(b[i])
  }

  /** Lowercasing leaves exactly the names without capitals unchanged. */
  lemma ToLowerFixesExactlyLowerNames(s: string)
    ensures ToLower(s) == s <==> IsLower(s)
  {
  }

  /** Lowercasing is idempotent and its result has no capitals. */
  lemma ToLowerIdempotent(s: string)
    ensures IsLower(ToLower(s))
    ensures ToLower(ToLower(s)) == ToLower(s)
  {
  }

  /** Lowercasing identifies exactly the names that are equal ignoring case. */
  lemma ToLowerEqualIffEqualsIgnoringCase(a: string, b: string)
    ensures ToLower(a) == ToLower(b) <==> EqualsIgnoringCase(a, b)
  {
  }
}
