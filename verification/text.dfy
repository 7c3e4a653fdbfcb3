/** The string primitives the server-side normalisation relies on, written
    over `seq<char>` (one `char` per Unicode scalar value). */
module Text {

  /** ASCII upper-case letter. */
  predicate IsUpper(c: char) {
    'A' <= c <= 'Z'
  }

  /** Lower-cases one ASCII letter and leaves every other character as it is. */
  function LowerChar(c: char): (r: char)
    ensures !IsUpper(r)
    ensures !IsUpper(c) ==> r == c
    ensures IsUpper(c) ==> r as int - c as int == 32
  {
    if IsUpper(c) then (c as int + 32) as char else c
  }

  /** `toLowerCase()`, restricted to the ASCII letters. */
  function Lower(s: string): (r: string)
    ensures |r| == |s|
    ensures forall i :: 0 <= i < |r| ==> !IsUpper(r[i])
    ensures forall i :: 0 <= i < |s| && !IsUpper(s[i]) ==> r[i] == s[i]
    ensures forall i :: 0 <= i < |s| && IsUpper(s[i]) ==> r[i] as int - s[i] as int == 32
  {
    seq(|s|, i requires 0 <= i < |s| => LowerChar(s[i]))
  }

  /** Lower-casing an already lower-cased string changes nothing. */
  lemma LowerIdempotent(s: string)
    ensures Lower(Lower(s)) == Lower(s)
  {
    var t := Lower(s);
    assert forall i :: 0 <= i < |t| ==> Lower(t)[i] == t[i];
  }

  /** The characters `String.prototype.trim` removes: ECMAScript WhiteSpace
      (tab, vertical tab, form feed, space, no-break space, byte order mark and
      the Space_Separator category) and LineTerminator (LF, CR, U+2028, U+2029). */
  predicate IsSpace(c: char) {
    || c == '\t' || c == '\n' || c == '\U{000B}' || c == '\U{000C}' || c == '\r'
    || c == ' ' || c == '\U{00A0}' || c == '\U{1680}'
    || ('\U{2000}' <= c <= '\U{200A}')
    || c == '\U{2028}' || c == '\U{2029}' || c == '\U{202F}' || c == '\U{205F}'
    || c == '\U{3000}' || c == '\U{FEFF}'
  }

  predicate AllSpace(s: string) {
    forall i :: 0 <= i < |s| ==> IsSpace(s[i])
  }

  predicate NoSpace(s: string) {
    forall i :: 0 <= i < |s| ==> !IsSpace(s[i])
  }

  /** Number of whitespace characters at the front of `s`. */
  function LeadingSpace(s: string): (n: nat)
    ensures n <= |s|
    ensures AllSpace(s[..n])
    ensures n < |s| ==> !IsSpace(s[n])
  {
    if |s| == 0 || !IsSpace(s[0]) then 0
    else
      var n := LeadingSpace(s[1..]);
      assert s[1..][..n] == s[1..n + 1];
      n + 1
  }

  /** Number of whitespace characters at the back of `s`. */
  function TrailingSpace(s: string): (n: nat)
    ensures n <= |s|
    ensures AllSpace(s[|s| - n..])
    ensures n < |s| ==> !IsSpace(s[|s| - n - 1])
  {
    if |s| == 0 || !IsSpace(s[|s| - 1]) then 0
    else
      var n := TrailingSpace(s[..|s| - 1]);
      assert s[..|s| - 1][|s| - 1 - n..] == s[|s| - 1 - n..|s| - 1];
      n + 1
  }

  /** `String.prototype.trim`: `s` without its leading and trailing whitespace.
      The result sits inside `s` between two all-whitespace pieces and neither
      starts nor ends with whitespace. */
  function Trim(s: string): (r: string)
    ensures exists i :: 0 <= i <= |s| - |r| && IsTrimmedAt(s, r, i)
    ensures |r| > 0 ==> !IsSpace(r[0]) && !IsSpace(r[|r| - 1])
  {
    var a := LeadingSpace(s);
    var rest := s[a..];
    var b := TrailingSpace(rest);
    var r := rest[..|rest| - b];
    assert IsTrimmedAt(s, r, a) by {
      assert s[..a] + r + rest[|rest| - b..] == s;
    }
    r
  }

  /** `r` sits at offset `i` of `s`, with only whitespace around it. */
  predicate IsTrimmedAt(s: string, r: string, i: int) {
    0 <= i && i + |r| <= |s| && s == s[..i] + r + s[i + |r|..]
    && AllSpace(s[..i]) && AllSpace(s[i + |r|..])
  }

  /** `w` occurs in `s` starting at index `i`. */
  predicate OccursAt(s: string, w: string, i: int) {
    0 <= i && i + |w| <= |s| && s[i..i + |w|] == w
  }

  /** `String.prototype.includes`: a left-to-right search for `w` in `s`. It
      answers true exactly when `w` occurs at some position of `s`. */
  function Includes(s: string, w: string): (r: bool)
    ensures r <==> exists i :: OccursAt(s, w, i)
    decreases |s|
  {
    if |w| > |s| then
      assert forall i :: !OccursAt(s, w, i);
      false
    else if s[..|w|] == w then
      assert OccursAt(s, w, 0);
      true
    else
      OccursInTail(s, w);
      Includes(s[1..], w)
  }

  /** When `w` is not a prefix of `s`, its occurrences in `s` are those in the
      tail of `s`, shifted by one. */
  lemma OccursInTail(s: string, w: string)
    requires |w| <= |s| && s[..|w|] != w
    ensures (exists i :: OccursAt(s[1..], w, i)) <==> (exists i :: OccursAt(s, w, i))
  {
    if exists i :: OccursAt(s[1..], w, i) {
      var i :| OccursAt(s[1..], w, i);
      assert s[1..][i..i + |w|] == s[i + 1..i + 1 + |w|];
      assert OccursAt(s, w, i + 1);
    }
    if exists i :: OccursAt(s, w, i) {
      var i :| OccursAt(s, w, i);
      assert i != 0;
      assert s[1..][i - 1..i - 1 + |w|] == s[i..i + |w|];
      assert OccursAt(s[1..], w, i - 1);
    }
  }

  /** An occurrence inside `s` is an occurrence inside `p + s + q`. */
  lemma OccursPadded(p: string, s: string, q: string, w: string, i: int)
    requires OccursAt(s, w, i)
    ensures OccursAt(p + s + q, w, |p| + i)
  {
    assert (p + s + q)[|p| + i..|p| + i + |w|] == s[i..i + |w|];
  }

  /** An occurrence of a word that starts and ends with a non-space cannot
      touch all-whitespace padding, so it lies inside `s`. */
  lemma OccursUnpadded(p: string, s: string, q: string, w: string, i: int)
    requires AllSpace(p) && AllSpace(q)
    requires |w| > 0 && !IsSpace(w[0]) && !IsSpace(w[|w| - 1])
    requires OccursAt(p + s + q, w, i)
    ensures OccursAt(s, w, i - |p|)
  {
    var t := p + s + q;
    var e := i + |w| - 1;
    assert t[i] == w[0] && t[e] == w[|w| - 1];
    assert forall k :: 0 <= k < |p| ==> t[k] == p[k];
    assert forall k :: |p| + |s| <= k < |t| ==> t[k] == q[k - |p| - |s|];
    assert |p| <= i && e < |p| + |s|;
    assert s[i - |p|..i - |p| + |w|] == t[i..i + |w|];
  }

  /** Surrounding a string with whitespace does not change whether a non-empty,
      whitespace-free word occurs in it. */
  lemma IncludesPadded(p: string, s: string, q: string, w: string)
    requires AllSpace(p) && AllSpace(q)
    requires |w| > 0 && NoSpace(w)
    ensures Includes(p + s + q, w) <==> Includes(s, w)
  {
    var t := p + s + q;
    if Includes(s, w) {
      var i :| OccursAt(s, w, i);
      OccursPadded(p, s, q, w, i);
    }
    if Includes(t, w) {
      var i :| OccursAt(t, w, i);
      OccursUnpadded(p, s, q, w, i);
    }
  }

  /** Trimming does not change whether a non-empty, whitespace-free word occurs. */
  lemma IncludesTrim(s: string, w: string)
    requires |w| > 0 && NoSpace(w)
    ensures Includes(Trim(s), w) <==> Includes(s, w)
  {
    var r := Trim(s);
    var i :| 0 <= i <= |s| - |r| && IsTrimmedAt(s, r, i);
    IncludesPadded(s[..i], r, s[i + |r|..], w);
  }

  /** Lower-casing distributes over concatenation and leaves whitespace alone. */
  lemma LowerConcat(p: string, s: string, q: string)
    requires AllSpace(p) && AllSpace(q)
    ensures Lower(p + s + q) == p + Lower(s) + q
  {
    assert Lower(p + s + q) == Lower(p) + Lower(s) + Lower(q);
  }

  /** `term.length`: the length of a string in UTF-16 code units, where a
      character outside the Basic Multilingual Plane takes two. */
  function Utf16Length(s: string): (n: nat)
    ensures |s| <= n <= 2 * |s|
  {
    if |s| == 0 then 0
    else (if s[0] as int >= 0x1_0000 then 2 else 1) + Utf16Length(s[1..])
  }

  /** One character is one code unit, or a surrogate pair of two when it lies
      outside the Basic Multilingual Plane. */
  lemma Utf16LengthChar(c: char)
    ensures c as int < 0x1_0000 ==> Utf16Length([c]) == 1
    ensures c as int >= 0x1_0000 ==> Utf16Length([c]) == 2
  {
  }

  /** The code-unit length of a concatenation is the sum of the parts' lengths;
      with Utf16LengthChar this fixes the length of every string. */
  lemma {:induction false} Utf16LengthConcat(a: string, b: string)
    ensures Utf16Length(a + b) == Utf16Length(a) + Utf16Length(b)
  {
    if |a| > 0 {
      assert (a + b)[1..] == a[1..] + b;
      Utf16LengthConcat(a[1..], b);
    } else {
      assert a + b == b;
    }
  }
}
