/**
  The few JavaScript string operations the handlers use, over strings of
  Unicode scalar values: `trim`, `toLowerCase` (as far as it matters for the
  ASCII command names), `split(c)[0]`, `split(c)[1]`, `startsWith`,
  `endsWith`, `includes` and the first word of `split(/\s+/)`.
*/
module JsText {

  import opened Wrappers

  /** ECMAScript WhiteSpace and LineTerminator: what `trim` strips and `\s` matches. */
  predicate IsSpace(c: char) {
    c == '\t' || c == '\n' || c == '\U{B}' || c == '\U{C}' || c == '\r' || c == ' '
    || c == '\U{A0}' || c == '\U{1680}' || ('\U{2000}' <= c <= '\U{200A}')
    || c == '\U{2028}' || c == '\U{2029}' || c == '\U{202F}' || c == '\U{205F}'
    || c == '\U{3000}' || c == '\U{FEFF}'
  }

  /** Drops leading white space: what is removed is all white space, what is kept starts with none. */
  function TrimStart(s: string): (r: string)
    ensures |r| <= |s| && r == s[|s| - |r|..]
    ensures forall i :: 0 <= i < |s| - |r| ==> IsSpace(s[i])
    ensures r == [] || !IsSpace(r[0])
  {
    s[LeadingSpace(s)..]
  }

  /** Drops trailing white space. */
  function TrimEnd(s: string): (r: string)
    ensures |r| <= |s| && r == s[..|r|]
    ensures forall i :: |r| <= i < |s| ==> IsSpace(s[i])
    ensures r == [] || !IsSpace(r[|r| - 1])
  {
    if s != [] && IsSpace(s[|s| - 1]) then TrimEnd(s[..|s| - 1]) else s
  }

  /**
    `String.prototype.trim`: the slice of `s` that starts after its leading
    white space and has no white space at either end; everything outside
    it is white space.
  */
  function Trim(s: string): (r: string)
    ensures |r| <= |s|
    ensures r == [] || (!IsSpace(r[0]) && !IsSpace(r[|r| - 1]))
    ensures var i := LeadingSpace(s);
      && i + |r| <= |s| && r == s[i..i + |r|]
      && AllSpace(s[..i]) && AllSpace(s[i + |r|..])
  {
    var i := LeadingSpace(s);
    var t := s[i..];
    LeadingIsSpace(s);
    SliceOfSuffix(s, i, t, TrimEnd(t));
    TrimEnd(t)
  }

  /** The characters `LeadingSpace` counts are all white space. */
  lemma LeadingIsSpace(s: string)
    ensures AllSpace(s[..LeadingSpace(s)])
  {
    var i := LeadingSpace(s);
    forall k | 0 <= k < i
      ensures IsSpace(s[..i][k])
    {
      assert s[..i][k] == s[k];
    }
  }

  /** A prefix `r` of the suffix `t` of `s`, followed in `t` only by white space. */
  lemma SliceOfSuffix(s: string, i: nat, t: string, r: string)
    requires i <= |s| && t == s[i..] && |r| <= |t| && r == t[..|r|]
    requires forall k :: |r| <= k < |t| ==> IsSpace(t[k])
    ensures i + |r| <= |s| && r == s[i..i + |r|] && AllSpace(s[i + |r|..])
  {
    var j := i + |r|;
    forall k | 0 <= k < |s| - j
      ensures IsSpace(s[j..][k])
    {
      assert s[j..][k] == t[|r| + k];
    }
  }

  /** How many white-space characters `s` starts with. */
  function LeadingSpace(s: string): (n: nat)
    ensures n <= |s|
    ensures forall k :: 0 <= k < n ==> IsSpace(s[k])
    ensures n < |s| ==> !IsSpace(s[n])
  {
    if s != [] && IsSpace(s[0]) then 1 + LeadingSpace(s[1..]) else 0
  }

  /**
    Lower-cases one character. Besides A-Z, U+212A KELVIN SIGN is the one
    character whose lower-case form is a single ASCII letter ('k'); every other
    character's lower-case form contains a non-ASCII character or is itself,
    so this mapping decides equality with ASCII words exactly as
    `toLowerCase` does.
  */
  function LowerChar(c: char): (d: char)
    ensures !('A' <= d <= 'Z')
    ensures 'A' <= c <= 'Z' ==> 'a' <= d <= 'z' && d as int == c as int + 32
    ensures c == '\U{212A}' ==> d == 'k'
    ensures !('A' <= c <= 'Z') && c != '\U{212A}' ==> d == c
  {
    if 'A' <= c <= 'Z' then (c as int + 32) as char
    else if c == '\U{212A}' then 'k'
    else c
  }

  /** `w` spells `name` with any of `name`'s ASCII letters in upper case. */
  predicate CaseVariant(w: string, name: string) {
    |w| == |name|
    && forall i :: 0 <= i < |name| ==>
         w[i] == name[i] || ('a' <= name[i] <= 'z' && w[i] as int == name[i] as int - 32)
  }

  /** Lower-casing any case variant of a word without capitals gives that word. */
  lemma LowerOfCaseVariant(w: string, name: string)
    requires CaseVariant(w, name)
    requires forall i :: 0 <= i < |name| ==> !('A' <= name[i] <= 'Z') && name[i] != '\U{212A}'
    ensures ToLower(w) == name
  {
    forall i | 0 <= i < |name|
      ensures ToLower(w)[i] == name[i]
    {
      assert ToLower(w)[i] == LowerChar(w[i]);
    }
  }

  function ToLower(s: string): (r: string)
    ensures |r| == |s|
    ensures forall i :: 0 <= i < |s| ==> r[i] == LowerChar(s[i])
  {
    if s == [] then [] else [LowerChar(s[0])] + ToLower(s[1..])
  }

  /** What begins the trimmed, lower-cased text is the lower-cased prefix of the trimmed text. */
  lemma LowerTrimmedPrefix(text: string, c: string)
    requires StartsWith(ToLower(Trim(text)), c)
    ensures |c| <= |Trim(text)| && ToLower(Trim(text)[..|c|]) == c
  {
    LowerOfPrefix(Trim(text), |c|);
  }

  /** A text is its leading white space, a prefix of its trim, and the rest. */
  lemma TrimSplit(text: string, n: nat)
    requires n <= |Trim(text)|
    ensures var k := LeadingSpace(text);
      k + n <= |text| && text == text[..k] + Trim(text)[..n] + text[k + n..]
  {
    var k := LeadingSpace(text);
    var t := Trim(text);
    assert k + |t| <= |text| && t == text[k..k + |t|];
    SliceSplit(text, k, t, n);
  }

  lemma SliceSplit(text: string, k: nat, t: string, n: nat)
    requires k + |t| <= |text| && t == text[k..k + |t|] && n <= |t|
    ensures text == text[..k] + t[..n] + text[k + n..]
  {
    assert t[..n] == text[k..k + n];
  }

  /** Lower-casing neither makes nor removes white space. */
  lemma LowerCharKeepsSpace(c: char)
    ensures IsSpace(LowerChar(c)) == IsSpace(c)
  {
  }

  /** Lower-casing a text keeps which of its characters are white space. */
  lemma ToLowerKeepsSpace(s: string)
    ensures forall i :: 0 <= i < |s| ==> IsSpace(ToLower(s)[i]) == IsSpace(s[i])
  {
    forall i | 0 <= i < |s|
      ensures IsSpace(ToLower(s)[i]) == IsSpace(s[i])
    {
      LowerCharKeepsSpace(s[i]);
    }
  }

  /** Lower-casing a prefix gives the prefix of the lower-cased text. */
  lemma LowerOfPrefix(t: string, n: nat)
    requires n <= |t|
    ensures ToLower(t[..n]) == ToLower(t)[..n]
  {
    var a, b := ToLower(t[..n]), ToLower(t)[..n];
    assert |a| == |b|;
    forall i | 0 <= i < n
      ensures a[i] == b[i]
    {
      assert t[..n][i] == t[i];
    }
  }

  /** `s.split(c)[0]`: the longest prefix of `s` without `c`. */
  function Before(s: string, c: char): (r: string)
    ensures c !in r
    ensures r <= s
    ensures c in s ==> |r| < |s| && s[|r|] == c
    ensures c !in s ==> r == s
  {
    if s == [] then []
    else if s[0] == c then []
    else [s[0]] + Before(s[1..], c)
  }

  /**
    `s.split(c)[1]`, which is `undefined` when `c` does not occur in `s`:
    the characters after the first `c`, up to the next `c` or the end.
  */
  function SecondField(s: string, c: char): (r: Option<string>)
    ensures r.None? <==> c !in s
    ensures r.Some? ==> c !in r.value
    ensures r.Some? ==> var i := |Before(s, c)| + 1;
      && i + |r.value| <= |s| && r.value == s[i..i + |r.value|]
      && (i + |r.value| < |s| ==> s[i + |r.value|] == c)
  {
    if c in s then Some(Before(s[|Before(s, c)| + 1..], c)) else None
  }

  /** `s.split(/\s+/)[0]` for a trimmed `s`: its first word. */
  function FirstWord(s: string): (r: string)
    ensures r <= s
    ensures forall i :: 0 <= i < |r| ==> !IsSpace(r[i])
    ensures |r| < |s| ==> IsSpace(s[|r|])
  {
    if s == [] || IsSpace(s[0]) then [] else [s[0]] + FirstWord(s[1..])
  }

  /** Every character of `s` is white space. */
  predicate AllSpace(s: string) {
    forall k :: 0 <= k < |s| ==> IsSpace(s[k])
  }

  predicate StartsWith(s: string, p: string) {
    |p| <= |s| && s[..|p|] == p
  }

  predicate EndsWith(s: string, p: string) {
    |p| <= |s| && s[|s| - |p|..] == p
  }

  /** `s.includes(p)`. */
  predicate Contains(s: string, p: string) {
    StartsWith(s, p) || (s != [] && Contains(s[1..], p))
  }
}
