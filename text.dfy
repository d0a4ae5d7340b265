/**
 * The three JavaScript string operations the core relies on, over Dafny strings:
 * `toLowerCase` (ASCII letters only), `includes` and `trim`.
 */
module Text {

  // ---------------------------------------------------------------- toLowerCase

  predicate IsUpper(c: char) { 'A' <= c <= 'Z' }

  function LowerChar(c: char): char
  {
    if IsUpper(c) then (c as int + 32) as char else c
  }

  /** `s.toLowerCase()`, restricted to the ASCII letters. */
  function Lower(s: string): (r: string)
    ensures |r| == |s|
    ensures forall i :: 0 <= i < |s| ==> r[i] == LowerChar(s[i])
  {
    seq(|s|, i requires 0 <= i < |s| => LowerChar(s[i]))
  }

  const UpperAlphabet := "ABCDEFGHIJKLMNOPQRSTUVWXYZ"
  const LowerAlphabet := "abcdefghijklmnopqrstuvwxyz"

  /** Each capital letter becomes the letter at the same place in the lower-case alphabet. */
  lemma LowerLetters()
    ensures forall k :: 0 <= k < 26 ==> LowerChar(UpperAlphabet[k]) == LowerAlphabet[k]
    ensures forall c :: IsUpper(c) ==> c == UpperAlphabet[c as int - 'A' as int]
  {
  }

  /**
   * Lower-casing turns each capital into the matching lower-case letter,
   * leaves no upper-case letter behind and changes nothing else.
   */
  lemma LowerSpec(s: string)
    ensures forall i :: 0 <= i < |s| && IsUpper(s[i]) ==> Lower(s)[i] == LowerAlphabet[s[i] as int - 'A' as int]
    ensures forall i :: 0 <= i < |s| ==> !IsUpper(Lower(s)[i])
    ensures forall i :: 0 <= i < |s| && !IsUpper(s[i]) ==> Lower(s)[i] == s[i]
  {
    LowerLetters();
  }

  lemma LowerIdempotent(s: string)
    ensures Lower(Lower(s)) == Lower(s)
  {
  }

  // ------------------------------------------------------------------- includes

  /** `t` occurs in `s` starting at index `i`. */
  predicate OccursAt(s: string, t: string, i: nat)
  {
    i + |t| <= |s| && s[i..i + |t|] == t
  }

  /** `s.includes(t)`: tries the start positions of `s` from left to right. */
  function Contains(s: string, t: string): bool
    decreases |s|
  {
    OccursAt(s, t, 0) || (|s| > 0 && Contains(s[1..], t))
  }

  /** `includes` holds exactly when `t` occurs somewhere in `s`. */
  lemma {:induction false} ContainsIff(s: string, t: string)
    ensures Contains(s, t) <==> exists i: nat :: OccursAt(s, t, i)
    decreases |s|
  {
    if OccursAt(s, t, 0) || |s| == 0 {
    } else {
      ContainsIff(s[1..], t);
      if Contains(s[1..], t) {
        var i: nat :| OccursAt(s[1..], t, i);
        assert s[i + 1..i + 1 + |t|] == s[1..][i..i + |t|];
        assert OccursAt(s, t, i + 1);
      } else {
        forall i: nat | OccursAt(s, t, i) ensures false {
          assert OccursAt(s[1..], t, i - 1);
        }
      }
    }
  }

  /** Every string includes the empty string. */
  lemma ContainsEmpty(s: string)
    ensures Contains(s, "")
  {
    assert OccursAt(s, "", 0);
  }

  // ----------------------------------------------------------------------- trim

  /**
   * The code points JavaScript's `trim` removes: the WhiteSpace and
   * LineTerminator productions of ECMAScript (section 12.2 and 12.3 of ECMA-262),
   * with the Unicode space separators listed out.
   */
  const Spaces: set<char> :=
    {'\t', '\n', '\U{0B}', '\U{0C}', '\r', ' ', '\U{A0}', '\U{1680}', '\U{2028}', '\U{2029}',
     '\U{202F}', '\U{205F}', '\U{3000}', '\U{FEFF}'}

  predicate IsSpace(c: char)
  {
    c in Spaces || '\U{2000}' <= c <= '\U{200A}'
  }

  predicate AllSpace(s: string)
  {
    forall k :: 0 <= k < |s| ==> IsSpace(s[k])
  }

  /** The end of the run of white space that starts at `i`. */
  function SpaceRunEnd(s: string, i: nat): (n: nat)
    requires i <= |s|
    ensures i <= n <= |s|
    ensures forall k :: i <= k < n ==> IsSpace(s[k])
    ensures n < |s| ==> !IsSpace(s[n])
    decreases |s| - i
  {
    if i < |s| && IsSpace(s[i]) then SpaceRunEnd(s, i + 1) else i
  }

  /** The start of the run of white space that ends at `j`. */
  function SpaceRunStart(s: string, j: nat): (n: nat)
    requires j <= |s|
    ensures n <= j
    ensures forall k :: n <= k < j ==> IsSpace(s[k])
    ensures n > 0 ==> !IsSpace(s[n - 1])
  {
    if j > 0 && IsSpace(s[j - 1]) then SpaceRunStart(s, j - 1) else j
  }

  /** Drops the leading white space: `r` is the suffix of `s` after it. */
  function TrimStart(s: string): (r: string)
    ensures |r| <= |s| && r == s[|s| - |r|..]
    ensures AllSpace(s[..|s| - |r|])
    ensures r != [] ==> !IsSpace(r[0])
  {
    s[SpaceRunEnd(s, 0)..]
  }

  /** Drops the trailing white space: `r` is the prefix of `s` before it. */
  function TrimEnd(s: string): (r: string)
    ensures |r| <= |s| && r == s[..|r|]
    ensures AllSpace(s[|r|..])
    ensures r != [] ==> !IsSpace(r[|r| - 1])
  {
    s[..SpaceRunStart(s, |s|)]
  }

  /** `s.trim()`. */
  function Trim(s: string): string
  {
    TrimEnd(TrimStart(s))
  }

  /**
   * What `trim` promises: the result is the slice of `s` left between a run of
   * leading and a run of trailing white space, and it neither starts nor ends
   * with white space.
   */
  lemma TrimSpec(s: string)
    ensures exists i, j :: 0 <= i <= j <= |s| && Trim(s) == s[i..j]
                           && AllSpace(s[..i]) && AllSpace(s[j..])
    ensures Trim(s) != [] ==> !IsSpace(Trim(s)[0]) && !IsSpace(Trim(s)[|Trim(s)| - 1])
  {
    var t := TrimStart(s);
    var i := |s| - |t|;
    var j := i + |TrimEnd(t)|;
    assert Trim(s) == s[i..j];
    assert s[j..] == t[|TrimEnd(t)|..];
  }

  /** A string trims to empty exactly when it is all white space. */
  lemma TrimEmptyIff(s: string)
    ensures Trim(s) == [] <==> AllSpace(s)
  {
    var t := TrimStart(s);
    if Trim(s) == [] {
      assert s == s[..|s| - |t|] + t;
      assert AllSpace(t[|TrimEnd(t)|..]);
    } else {
      assert !IsSpace(Trim(s)[0]);
    }
  }

  /** Trimming twice is trimming once. */
  lemma TrimIdempotent(s: string)
    ensures Trim(Trim(s)) == Trim(s)
  {
    var r := Trim(s);
    if r != [] {
      assert TrimStart(r) == r;
    }
  }
}
