/** The two string operations the handler applies: `String.prototype.trim`
    and `String.prototype.toLowerCase`, with the substring test used by the
    catch block. */
module Text {

  /** The code points ECMAScript's `trim` removes: the WhiteSpace and
      LineTerminator productions (tab, LF, VT, FF, CR, space, NBSP, the
      Unicode space separators, LS, PS and the byte-order mark). */
  predicate IsWhitespace(c: char) {
    var n := c as int;
    (0x09 <= n <= 0x0D) || n == 0x20 || (n >= 0xA0 && IsWideWhitespace(n))
  }

  /** The non-ASCII members: NBSP, the Unicode space separators, LS, PS and
      the byte-order mark. */
  predicate IsWideWhitespace(n: int) {
    || n == 0xA0 || n == 0x1680 || (0x2000 <= n <= 0x200A)
    || n == 0x2028 || n == 0x2029 || n == 0x202F || n == 0x205F
    || n == 0x3000 || n == 0xFEFF
  }

  predicate AllWhitespace(s: string) {
    forall i :: 0 <= i < |s| ==> IsWhitespace(s[i])
  }

  /** Neither end of `s` is whitespace. */
  predicate IsTrimmed(s: string) {
    |s| == 0 || (!IsWhitespace(s[0]) && !IsWhitespace(s[|s| - 1]))
  }

  /** Drops the leading whitespace run. */
  function TrimStart(s: string): (r: string)
    ensures |r| <= |s| && r == s[|s| - |r|..]
    ensures AllWhitespace(s[..|s| - |r|])
    ensures |r| == 0 || !IsWhitespace(r[0])
  {
    if |s| > 0 && IsWhitespace(s[0]) then
      var r := TrimStart(s[1..]);
      assert s[..|s| - |r|] == [s[0]] + s[1..][..|s| - 1 - |r|];
      r
    else
      s
  }

  /** Drops the trailing whitespace run. */
  function TrimEnd(s: string): (r: string)
    ensures |r| <= |s| && r == s[..|r|]
    ensures AllWhitespace(s[|r|..])
    ensures |r| == 0 || !IsWhitespace(r[|r| - 1])
  {
    if |s| > 0 && IsWhitespace(s[|s| - 1]) then
      var r := TrimEnd(s[..|s| - 1]);
      assert s[|r|..] == s[..|s| - 1][|r|..] + [s[|s| - 1]];
      r
    else
      s
  }

  /** `s.trim()`: the slice of `s` left between its leading and its trailing
      whitespace runs, which is itself trimmed. */
  function Trim(s: string): (r: string)
    ensures IsTrimmed(r) && |r| <= |s|
  {
    TrimEnd(TrimStart(s))
  }

  /** ASCII case mapping of one character. */
  function LowerChar(c: char): char {
    if 'A' <= c <= 'Z' then (c as int + 32) as char else c
  }

  predicate IsLower(s: string) {
    forall i :: 0 <= i < |s| ==> !('A' <= s[i] <= 'Z')
  }

  /** `s.toLowerCase()` over ASCII: same length, every character mapped,
      no upper-case letter left. */
  function ToLower(s: string): (r: string)
    ensures |r| == |s|
    ensures forall i :: 0 <= i < |s| ==> r[i] == LowerChar(s[i])
    ensures IsLower(r)
  {
    seq(|s|, i requires 0 <= i < |s| => LowerChar(s[i]))
  }

  /** The slug normalisation `slug.trim().toLowerCase()`. */
  function NormalizeSlug(s: string): (r: string)
    ensures IsTrimmed(r) && IsLower(r)
    ensures |r| <= |s|
  {
    var t := Trim(s);
    if t == [] then [] else
    LowerCharWhitespace(t[0]);
    LowerCharWhitespace(t[|t| - 1]);
    ToLower(t)
  }

  /** `s.includes(t)`. */
  predicate Contains(s: string, t: string) {
    (|t| <= |s| && s[..|t|] == t) || (|s| > 0 && Contains(s[1..], t))
  }

  /** A string contains the first character of everything it contains. */
  lemma {:induction false} ContainsHead(s: string, t: string)
    requires |t| > 0 && Contains(s, t)
    ensures t[0] in s
  {
    if |t| <= |s| && s[..|t|] == t {
      assert s[0] == t[0];
    } else {
      ContainsHead(s[1..], t);
    }
  }

  /** `xs.join(sep)`. */
  function Join(xs: seq<string>, sep: string): string {
    if |xs| == 0 then ""
    else if |xs| == 1 then xs[0]
    else xs[0] + sep + Join(xs[1..], sep)
  }

  // ---------------------------------------------------------------------
  // Properties of the text operations

  /** `Trim` removes exactly a whitespace prefix and a whitespace suffix:
      the result is a slice of the input with only whitespace around it. */
  lemma TrimIsSlice(s: string)
    ensures var r := Trim(s);
            exists k :: 0 <= k <= |s| - |r| && r == s[k..k + |r|]
                        && AllWhitespace(s[..k]) && AllWhitespace(s[k + |r|..])
  {
    var t := TrimStart(s);
    var r := TrimEnd(t);
    var k := |s| - |t|;
    SliceOfSuffix(s, t, r, k);
  }

  /** A prefix of a suffix of `s` is a slice of `s`, and what follows it in
      the suffix is what follows it in `s`. */
  lemma SliceOfSuffix(s: string, t: string, r: string, k: int)
    requires 0 <= k <= |s| && t == s[k..] && |r| <= |t| && r == t[..|r|]
    ensures r == s[k..k + |r|] && s[k + |r|..] == t[|r|..]
  {
  }

  /** Trimming is the identity exactly on trimmed strings. */
  lemma TrimFixpoint(s: string)
    ensures Trim(s) == s <==> IsTrimmed(s)
  {
  }

  /** Trimming twice is trimming once. */
  lemma TrimIdempotent(s: string)
    ensures Trim(Trim(s)) == Trim(s)
  {
    TrimFixpoint(Trim(s));
  }

  /** Lower-casing is the identity exactly on strings without upper-case
      ASCII letters. */
  lemma ToLowerFixpoint(s: string)
    ensures ToLower(s) == s <==> IsLower(s)
  {
    if IsLower(s) {
      assert forall i :: 0 <= i < |s| ==> ToLower(s)[i] == s[i];
    }
  }

  /** Lower-casing leaves the whitespace classification of every character
      unchanged, so trimming and lower-casing commute: the order in which
      the two schema setters run on the slug does not matter. */
  lemma TrimLowerCommute(s: string)
    ensures ToLower(Trim(s)) == Trim(ToLower(s))
  {
    TrimStartLower(s);
    TrimEndLower(TrimStart(s));
  }

  /** Upper-case ASCII letters and their lower-case images are not
      whitespace. */
  lemma LowerCharWhitespace(c: char)
    ensures IsWhitespace(LowerChar(c)) <==> IsWhitespace(c)
  {
  }

  lemma {:induction false} TrimStartLower(s: string)
    ensures ToLower(TrimStart(s)) == TrimStart(ToLower(s))
  {
    if |s| > 0 {
      LowerCharWhitespace(s[0]);
      if IsWhitespace(s[0]) {
        assert ToLower(s)[1..] == ToLower(s[1..]);
        TrimStartLower(s[1..]);
      }
    }
  }

  lemma {:induction false} TrimEndLower(s: string)
    ensures ToLower(TrimEnd(s)) == TrimEnd(ToLower(s))
  {
    if |s| > 0 {
      var n := |s| - 1;
      LowerCharWhitespace(s[n]);
      if IsWhitespace(s[n]) {
        var front := s[..n];
        var lowered := ToLower(s);
        assert lowered[n] == LowerChar(s[n]);
        assert lowered[..n] == ToLower(front);
        TrimEndLower(front);
      }
    }
  }

  /** A slug is left unchanged by normalisation exactly when it is already
      trimmed and lower-case; in particular normalising twice is normalising
      once. */
  lemma NormalizeSlugFixpoint(s: string)
    ensures NormalizeSlug(s) == s <==> IsTrimmed(s) && IsLower(s)
    ensures NormalizeSlug(NormalizeSlug(s)) == NormalizeSlug(s)
  {
    if IsTrimmed(s) && IsLower(s) {
      TrimFixpoint(s);
      ToLowerFixpoint(s);
    }
    var n := NormalizeSlug(s);
    TrimFixpoint(n);
    ToLowerFixpoint(n);
  }

  /** Slugs that differ only in case and surrounding whitespace normalise to
      the same value. */
  lemma SlugExamples(a: string, b: string, c: string)
    requires a == "My-Post" && b == "MY-POST" && c == " my-post\t"
    ensures NormalizeSlug(a) == NormalizeSlug(b) == NormalizeSlug(c) == "my-post"
  {
    LowerOfPost(a);
    LowerOfPost(b);
    var u := c[1..|c| - 1];
    assert u == "my-post";
    LowerOfPost(u);
    TrimPadded(c, u);
  }

  /** One whitespace character on each side of a non-empty trimmed string is
      removed by `Trim`. */
  lemma TrimPadded(c: string, u: string)
    requires |c| >= 3 && IsWhitespace(c[0]) && IsWhitespace(c[|c| - 1])
    requires u == c[1..|c| - 1] && IsTrimmed(u)
    ensures Trim(c) == u
  {
    assert TrimStart(c) == TrimStart(c[1..]) == c[1..];
    var t := c[1..];
    assert t[..|t| - 1] == u;
    assert TrimEnd(t) == TrimEnd(u) == u;
  }

  /** A seven-letter spelling of "my-post" is already trimmed and lower-cases
      to "my-post". */
  lemma LowerOfPost(s: string)
    requires |s| == 7 && LowerChar(s[0]) == 'm' && LowerChar(s[1]) == 'y' && s[2] == '-'
    requires LowerChar(s[3]) == 'p' && LowerChar(s[4]) == 'o' && LowerChar(s[5]) == 's'
    requires LowerChar(s[6]) == 't'
    ensures Trim(s) == s && ToLower(s) == "my-post"
  {
    LowerCharWhitespace(s[0]);
    LowerCharWhitespace(s[6]);
    assert IsTrimmed(s);
    TrimFixpoint(s);
    var r := ToLower(s);
    var e := "my-post";
    assert forall i :: 0 <= i < 7 ==> r[i] == e[i];
  }
}
