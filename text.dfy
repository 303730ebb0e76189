/** The string operations behind the schemas' `trim: true` and
    `lowercase: true` options and behind the `\s`/`\S` classes of a
    JavaScript regular expression. */
module Text {

  /** JavaScript white space and line terminators: the characters that
      `String.prototype.trim` removes and that `\s` matches. */
  predicate IsSpace(c: char)
  {
    var n := c as int;
    n == 0x09 || n == 0x0A || n == 0x0B || n == 0x0C || n == 0x0D || n == 0x20 ||
    n == 0xA0 || n == 0x1680 || (0x2000 <= n <= 0x200A) || n == 0x2028 ||
    n == 0x2029 || n == 0x202F || n == 0x205F || n == 0x3000 || n == 0xFEFF
  }

  predicate NoSpace(s: string)
  {
    forall i :: 0 <= i < |s| ==> !IsSpace(s[i])
  }

  predicate AllSpace(s: string)
  {
    forall i :: 0 <= i < |s| ==> IsSpace(s[i])
  }

  /** Neither begins nor ends with white space. */
  predicate Trimmed(s: string)
  {
    s == [] || (!IsSpace(s[0]) && !IsSpace(s[|s| - 1]))
  }

  /** Every character of `s[lo..hi]` is white space. */
  predicate SpaceIn(s: string, lo: nat, hi: nat)
    requires lo <= hi <= |s|
  {
    forall i :: lo <= i < hi ==> IsSpace(s[i])
  }

  /** The first position at or after `i` that is not white space (`|s|`
      when there is none). */
  function ContentStart(s: string, i: nat): (n: nat)
    requires i <= |s|
    ensures i <= n <= |s| && SpaceIn(s, i, n)
    ensures n < |s| ==> !IsSpace(s[n])
    decreases |s| - i
  {
    if i < |s| && IsSpace(s[i]) then ContentStart(s, i + 1) else i
  }

  /** The end of `s[lo..hi]` once its trailing white space is cut off. */
  function ContentEnd(s: string, lo: nat, hi: nat): (n: nat)
    requires lo <= hi <= |s|
    ensures lo <= n <= hi && SpaceIn(s, n, hi)
    ensures lo < n ==> !IsSpace(s[n - 1])
    decreases hi - lo
  {
    if lo < hi && IsSpace(s[hi - 1]) then ContentEnd(s, lo, hi - 1) else hi
  }

  /** `String.prototype.trim`: white space removed from both ends; the
      result is empty exactly when `s` is all white space. */
  function Trim(s: string): (r: string)
    ensures Trimmed(r)
    ensures r == [] <==> AllSpace(s)
  {
    var lo := ContentStart(s, 0);
    var hi := ContentEnd(s, lo, |s|);
    assert AllSpace(s) <== lo == hi by {
      if lo == hi {
        assert SpaceIn(s, 0, lo) && SpaceIn(s, hi, |s|);
      }
    }
    s[lo..hi]
  }

  /** What `trim` keeps is an infix of `s`, with only white space before
      and after it. */
  lemma TrimInfix(s: string)
    ensures var r := Trim(s);
            exists i :: 0 <= i <= |s| - |r| && r == s[i..i + |r|] &&
                        SpaceIn(s, 0, i) && SpaceIn(s, i + |r|, |s|)
  {
    var lo := ContentStart(s, 0);
    var hi := ContentEnd(s, lo, |s|);
    assert Trim(s) == s[lo..hi];
    assert SpaceIn(s, 0, lo) && SpaceIn(s, hi, |s|);
  }

  /** ASCII case folding, as `toLowerCase` does on the letters A to Z. */
  function LowerChar(c: char): (d: char)
  {
    if 'A' <= c <= 'Z' then (c as int + 32) as char else c
  }

  /** No upper-case ASCII letter. */
  predicate LowerCase(s: string)
  {
    forall i :: 0 <= i < |s| ==> !('A' <= s[i] <= 'Z')
  }

  /** `String.prototype.toLowerCase`, restricted to ASCII letters: the
      result has no upper-case letter, only the letters A to Z change (so
      white space stays where it was), and a string already in lower case
      is left as it is. */
  function Lower(s: string): (r: string)
    ensures |r| == |s| && LowerCase(r)
    ensures forall i :: 0 <= i < |s| ==> IsSpace(r[i]) == IsSpace(s[i])
    ensures forall i :: 0 <= i < |s| && !('A' <= s[i] <= 'Z') ==> r[i] == s[i]
    ensures LowerCase(s) ==> r == s
  {
    var r := seq(|s|, i requires 0 <= i < |s| => LowerChar(s[i]));
    assert forall i :: 0 <= i < |s| ==> IsSpace(r[i]) == IsSpace(s[i]);
    assert LowerCase(s) ==> forall i :: 0 <= i < |s| ==> r[i] == s[i];
    r
  }

  /** Lower-casing neither creates nor removes white space. */
  lemma LowerCharKeepsSpace(c: char)
    ensures IsSpace(LowerChar(c)) == IsSpace(c)
  {
  }

  /** A string is its own trim exactly when it is `Trimmed`. */
  lemma TrimFixedPoint(s: string)
    ensures Trim(s) == s <==> Trimmed(s)
  {
    if Trimmed(s) && s != [] {
      assert ContentStart(s, 0) == 0;
      assert ContentEnd(s, 0, |s|) == |s|;
      assert s[0..|s|] == s;
    }
  }

  /** Trimming twice is trimming once. */
  lemma TrimIdempotent(s: string)
    ensures Trim(Trim(s)) == Trim(s)
  {
    TrimFixedPoint(Trim(s));
  }

  lemma {:induction false} LowerIdempotent(s: string)
    ensures Lower(Lower(s)) == Lower(s)
  {
    assert forall i :: 0 <= i < |s| ==> Lower(Lower(s))[i] == Lower(s)[i];
  }

  lemma {:induction false} ContentStartLower(s: string, i: nat)
    requires i <= |s|
    ensures ContentStart(Lower(s), i) == ContentStart(s, i)
    decreases |s| - i
  {
    if i < |s| {
      LowerCharKeepsSpace(s[i]);
      if IsSpace(s[i]) {
        ContentStartLower(s, i + 1);
      }
    }
  }

  lemma {:induction false} ContentEndLower(s: string, lo: nat, hi: nat)
    requires lo <= hi <= |s|
    ensures ContentEnd(Lower(s), lo, hi) == ContentEnd(s, lo, hi)
    decreases hi - lo
  {
    if lo < hi {
      LowerCharKeepsSpace(s[hi - 1]);
      if IsSpace(s[hi - 1]) {
        ContentEndLower(s, lo, hi - 1);
      }
    }
  }

  /** Trimming and lower-casing commute, so the order in which the two
      setters of a field run does not matter. */
  lemma TrimLowerCommute(s: string)
    ensures Trim(Lower(s)) == Lower(Trim(s))
  {
    var lo := ContentStart(s, 0);
    ContentStartLower(s, 0);
    var hi := ContentEnd(s, lo, |s|);
    ContentEndLower(s, lo, |s|);
    assert Trim(Lower(s)) == Lower(s)[lo..hi];
    LowerSlice(s, lo, hi);
  }

  /** Lower-casing a slice is slicing the lower-cased string. */
  lemma LowerSlice(s: string, lo: nat, hi: nat)
    requires lo <= hi <= |s|
    ensures Lower(s)[lo..hi] == Lower(s[lo..hi])
  {
    forall i | 0 <= i < hi - lo ensures Lower(s)[lo..hi][i] == Lower(s[lo..hi])[i] {
      LowerAt(s, lo + i);
      LowerAt(s[lo..hi], i);
      assert s[lo..hi][i] == s[lo + i];
    }
  }

  /** Lower-casing keeps a trimmed string trimmed. */
  lemma LowerKeepsTrimmed(t: string)
    ensures Trimmed(t) ==> Trimmed(Lower(t))
  {
    if t != [] {
      LowerCharKeepsSpace(t[0]);
      LowerCharKeepsSpace(t[|t| - 1]);
    }
  }

  /** One position of the lower-cased string. */
  lemma LowerAt(s: string, i: nat)
    requires i < |s|
    ensures Lower(s)[i] == LowerChar(s[i])
  {
  }
}
