/**
 * The string operations the search box applies: `toLowerCase` (ASCII
 * letters only), `trim` and `includes`.
 */
module Text {

  predicate IsAsciiUpper(c: char) {
    'A' <= c <= 'Z'
  }

  /** Lower-cases an ASCII capital; every other character is unchanged. */
  function LowerChar(c: char): (d: char)
    ensures !IsAsciiUpper(d)
    ensures IsAsciiUpper(c) ==> d as int == c as int + 32
    ensures !IsAsciiUpper(c) ==> d == c
  {
    if IsAsciiUpper(c) then (c as int + 32) as char else c
  }

  /** `s.toLowerCase()` restricted to ASCII capitals. */
  function ToLower(s: string): (r: string)
    ensures |r| == |s|
    ensures forall i :: 0 <= i < |s| ==> r[i] == LowerChar(s[i])
  {
    seq(|s|, i requires 0 <= i < |s| => LowerChar(s[i]))
  }

  predicate NoUpper(s: string) {
    forall i :: 0 <= i < |s| ==> !IsAsciiUpper(s[i])
  }

  /** Lower-casing leaves no capitals, and changes nothing in a string without them. */
  lemma ToLowerSpec(s: string)
    ensures NoUpper(ToLower(s))
    ensures NoUpper(s) ==> ToLower(s) == s
  {
  }

  /** The characters `String.prototype.trim` strips: white space (category Zs, tab, vertical tab, form feed, no-break space, byte-order mark) and line terminators. */
  predicate IsSpace(c: char) {
    || c == ' ' || c == '\t' || c == '\n' || c == '\r'
    || c == '\U{000B}' || c == '\U{000C}' || c == '\U{00A0}' || c == '\U{FEFF}'
    || c == '\U{2028}' || c == '\U{2029}'
    || c == '\U{1680}' || ('\U{2000}' <= c <= '\U{200A}')
    || c == '\U{202F}' || c == '\U{205F}' || c == '\U{3000}'
  }

  /** Length of the leading run of characters satisfying `ws`. */
  function LeadCount(s: string, ws: char -> bool): (n: nat)
    ensures n <= |s|
    decreases |s|
  {
    if |s| > 0 && ws(s[0]) then 1 + LeadCount(s[1..], ws) else 0
  }

  /** Length of the trailing run of characters satisfying `ws`. */
  function TrailCount(s: string, ws: char -> bool): (n: nat)
    ensures n <= |s|
    decreases |s|
  {
    if |s| > 0 && ws(s[|s| - 1]) then 1 + TrailCount(s[..|s| - 1], ws) else 0
  }

  /** The leading run is maximal: it holds only `ws` characters and is followed by none. */
  lemma {:induction false} LeadCountSpec(s: string, ws: char -> bool)
    ensures forall i :: 0 <= i < LeadCount(s, ws) ==> ws(s[i])
    ensures LeadCount(s, ws) < |s| ==> !ws(s[LeadCount(s, ws)])
    decreases |s|
  {
    if |s| > 0 && ws(s[0]) {
      var t := s[1..];
      LeadCountSpec(t, ws);
      forall i | 0 < i < LeadCount(s, ws)
        ensures ws(s[i])
      {
        assert s[i] == t[i - 1];
      }
      assert LeadCount(s, ws) < |s| ==> s[LeadCount(s, ws)] == t[LeadCount(t, ws)];
    }
  }

  /** The trailing run is maximal: it holds only `ws` characters and is preceded by none. */
  lemma {:induction false} TrailCountSpec(s: string, ws: char -> bool)
    ensures forall i :: |s| - TrailCount(s, ws) <= i < |s| ==> ws(s[i])
    ensures TrailCount(s, ws) < |s| ==> !ws(s[|s| - TrailCount(s, ws) - 1])
    decreases |s|
  {
    if |s| > 0 && ws(s[|s| - 1]) {
      var t := s[..|s| - 1];
      TrailCountSpec(t, ws);
      forall i | |s| - TrailCount(s, ws) <= i < |s| - 1
        ensures ws(s[i])
      {
        assert s[i] == t[i];
      }
      assert TrailCount(s, ws) < |s| ==>
        s[|s| - TrailCount(s, ws) - 1] == t[|t| - TrailCount(t, ws) - 1];
    }
  }

  /** Drops the leading run of characters satisfying `ws`. */
  function TrimStartBy(s: string, ws: char -> bool): string {
    s[LeadCount(s, ws)..]
  }

  /** Drops the trailing run of characters satisfying `ws`. */
  function TrimEndBy(s: string, ws: char -> bool): string {
    s[..|s| - TrailCount(s, ws)]
  }

  function TrimBy(s: string, ws: char -> bool): string {
    TrimEndBy(TrimStartBy(s, ws), ws)
  }

  /** `s.trim()`. */
  function Trim(s: string): string {
    TrimBy(s, IsSpace)
  }

  /** `t` is `s` with a run of `ws` characters cut from each end, found at offset `a`. */
  ghost predicate TrimmedAt(s: string, t: string, a: int, ws: char -> bool) {
    && 0 <= a <= a + |t| <= |s|
    && s[a..a + |t|] == t
    && (forall i :: 0 <= i < a ==> ws(s[i]))
    && (forall i :: a + |t| <= i < |s| ==> ws(s[i]))
    && (|t| > 0 ==> !ws(t[0]) && !ws(t[|t| - 1]))
  }

  /** The trimmed string is the slice of `s` between the two runs. */
  lemma TrimByIsSlice(s: string, ws: char -> bool)
    ensures var a, t := LeadCount(s, ws), TrimBy(s, ws);
      a + |t| <= |s| && t == s[a..a + |t|]
  {
    var a := LeadCount(s, ws);
    var u := s[a..];
    var t := u[..|u| - TrailCount(u, ws)];
    assert t == s[a..a + |t|];
  }

  /** Trimming cuts a maximal run of `ws` characters off each end and nothing else. */
  lemma TrimBySpec(s: string, ws: char -> bool)
    ensures TrimmedAt(s, TrimBy(s, ws), LeadCount(s, ws), ws)
  {
    LeadCountSpec(s, ws);
    TrimByIsSlice(s, ws);
    TrimByStripsTail(s, ws);
    TrimByEnds(s, ws);
  }

  lemma TrimByStripsTail(s: string, ws: char -> bool)
    ensures var a, t := LeadCount(s, ws), TrimBy(s, ws);
      forall i :: a + |t| <= i < |s| ==> ws(s[i])
  {
    var a := LeadCount(s, ws);
    var u := s[a..];
    TrailCountSpec(u, ws);
    forall i | a + |TrimBy(s, ws)| <= i < |s|
      ensures ws(s[i])
    {
      assert s[i] == u[i - a];
    }
  }

  lemma TrimByEnds(s: string, ws: char -> bool)
    ensures var t := TrimBy(s, ws);
      |t| > 0 ==> !ws(t[0]) && !ws(t[|t| - 1])
  {
    var a := LeadCount(s, ws);
    var u := s[a..];
    var m := TrailCount(u, ws);
    var t := TrimBy(s, ws);
    LeadCountSpec(s, ws);
    TrailCountSpec(u, ws);
    assert |t| > 0 ==> t[0] == u[0] == s[a] && t[|t| - 1] == u[|u| - m - 1];
  }

  /** A string with no `ws` character at either end is its own trim. */
  lemma TrimByFixed(s: string, ws: char -> bool)
    requires |s| > 0 ==> !ws(s[0]) && !ws(s[|s| - 1])
    ensures TrimBy(s, ws) == s
  {
    assert LeadCount(s, ws) == 0;
    assert s[0..] == s;
    assert TrailCount(s, ws) == 0;
  }

  /** `trim` strips exactly the white space at the two ends of the string. */
  lemma TrimSpec(s: string)
    ensures TrimmedAt(s, Trim(s), LeadCount(s, IsSpace), IsSpace)
  {
    TrimBySpec(s, IsSpace);
  }

  /** Trimming only removes characters, so a string without capitals stays without them. */
  lemma TrimKeepsNoUpper(s: string)
    requires NoUpper(s)
    ensures NoUpper(Trim(s))
  {
    var a := LeadCount(s, IsSpace);
    TrimByIsSlice(s, IsSpace);
    SliceNoUpper(s, a, a + |Trim(s)|);
  }

  lemma SliceNoUpper(s: string, a: nat, b: nat)
    requires a <= b <= |s| && NoUpper(s)
    ensures NoUpper(s[a..b])
  {
    assert forall i :: 0 <= i < b - a ==> s[a..b][i] == s[a + i];
  }

  /** The search box's normalisation: `value.toLowerCase().trim()`. */
  function Normalise(s: string): string {
    Trim(ToLower(s))
  }

  /** A normalised string has no capitals and no white space at its ends, and normalising it again changes nothing. */
  lemma NormaliseSpec(s: string)
    ensures NoUpper(Normalise(s))
    ensures |Normalise(s)| > 0 ==> !IsSpace(Normalise(s)[0]) && !IsSpace(Normalise(s)[|Normalise(s)| - 1])
    ensures Normalise(Normalise(s)) == Normalise(s)
  {
    var n := Normalise(s);
    ToLowerSpec(s);
    TrimKeepsNoUpper(ToLower(s));
    TrimBySpec(ToLower(s), IsSpace);
    ToLowerSpec(n);
    TrimByFixed(n, IsSpace);
  }

  /** A string without capitals or white space at its ends is already normalised. */
  lemma NormaliseFixed(s: string)
    requires NoUpper(s)
    requires |s| > 0 ==> !IsSpace(s[0]) && !IsSpace(s[|s| - 1])
    ensures Normalise(s) == s
  {
    ToLowerSpec(s);
    TrimByFixed(s, IsSpace);
  }

  /** `s.includes(q)`: `q` is a prefix of some suffix of `s`. */
  predicate Includes(s: string, q: string)
    decreases |s|
  {
    q <= s || (|s| > 0 && Includes(s[1..], q))
  }

  /** `q` occurs in `s` starting at index `i`. */
  ghost predicate OccursAt(s: string, q: string, i: int) {
    0 <= i <= |s| && q <= s[i..]
  }

  /** `Includes` holds exactly when `q` occurs somewhere in `s`. */
  lemma IncludesIffOccurs(s: string, q: string)
    ensures Includes(s, q) <==> exists i :: OccursAt(s, q, i)
  {
    if Includes(s, q) {
      var i := IncludesWitness(s, q);
    }
    if i :| OccursAt(s, q, i) {
      OccursIncludes(s, q, i);
    }
  }

  lemma {:induction false} IncludesWitness(s: string, q: string) returns (i: int)
    requires Includes(s, q)
    ensures OccursAt(s, q, i)
    decreases |s|
  {
    if q <= s {
      i := 0;
      assert s[0..] == s;
    } else {
      var j := IncludesWitness(s[1..], q);
      i := j + 1;
      assert s[1..][j..] == s[i..];
    }
  }

  lemma {:induction false} OccursIncludes(s: string, q: string, i: int)
    requires OccursAt(s, q, i)
    ensures Includes(s, q)
    decreases i
  {
    if i == 0 {
      assert s[0..] == s;
    } else {
      assert s[1..][i - 1..] == s[i..];
      OccursIncludes(s[1..], q, i - 1);
    }
  }

  /** Only `d` itself and its capital lower-case to the lower-case letter `d`. */
  lemma LowerCharInverse(c: char, u: char)
    requires IsAsciiUpper(u) && LowerChar(c) == LowerChar(u)
    ensures c == u || c == LowerChar(u)
  {
    if IsAsciiUpper(c) {
      assert c as int == u as int;
    }
  }

  /**
   * If neither case of the letter `q[j]` appears in `s` from index `m` on,
   * every occurrence of `q` in the lower-cased `s` puts that letter before `m`.
   */
  lemma AbsentLetterFrom(s: string, q: string, j: nat, u: char, m: nat)
    requires j < |q| && m <= |s|
    requires IsAsciiUpper(u) && LowerChar(u) == q[j]
    requires q[j] !in s[m..] && u !in s[m..]
    ensures forall i :: OccursAt(ToLower(s), q, i) ==> i + j < m
  {
    var l := ToLower(s);
    forall i | OccursAt(l, q, i)
      ensures i + j < m
    {
      var k := i + j;
      assert l[i..][j] == q[j];
      assert l[k] == LowerChar(s[k]);
      LowerCharInverse(s[k], u);
    }
  }

  /** If neither case of the letter `q[j]` appears in `s`, the lower-cased `s` does not contain `q`. */
  lemma AbsentLetter(s: string, q: string, j: nat, u: char)
    requires j < |q|
    requires IsAsciiUpper(u) && LowerChar(u) == q[j]
    requires q[j] !in s && u !in s
    ensures !Includes(ToLower(s), q)
  {
    assert s[0..] == s;
    AbsentLetterFrom(s, q, j, u, 0);
    IncludesIffOccurs(ToLower(s), q);
  }
}
