/** The request body as the create-post handler sees it, and the
    sanitisation it applies to the `categories` and `tags` arrays
    (backend/src/controllers/postControllers.js). */
module Request {
  import opened Text

  /** A value of the parsed JSON body, distinguished the way the handler
      distinguishes them: strings, `null`, a missing property, arrays, and
      everything else (numbers, booleans, objects). */
  datatype Value = Str(s: string) | Null | Undefined | Arr(elems: seq<Value>) | Other

  /** The properties of `req.body`. A body that is absent or is not an
      object has no properties, which `req.body?.[name]` reads as undefined
      for every name. */
  type Body = map<string, Value>

  /** `req.body?.[name]`. */
  function Field(body: Body, name: string): Value {
    if name in body then body[name] else Undefined
  }

  /** What one element becomes under `.map(x => typeof x === 'string' ?
      x.trim() : x).filter(x => typeof x === 'string' && x !== '')`. */
  function SanitizeOne(v: Value): seq<string> {
    if v.Str? && Trim(v.s) != "" then [Trim(v.s)] else []
  }

  /** The category and tag sanitisation: every surviving entry is a
      trimmed, non-empty string, and there are never more of them than
      there were elements. */
  function Sanitize(xs: seq<Value>): (r: seq<string>)
    ensures |r| <= |xs|
    ensures AllClean(r)
  {
    if xs == [] then []
    else
      var head, tail := SanitizeOne(xs[0]), Sanitize(xs[1..]);
      CleanOne(xs[0]);
      CleanAppend(head, tail);
      head + tail
  }

  /** A non-empty trimmed string: the shape of every sanitised entry. */
  predicate IsCleanEntry(x: string) {
    x != "" && IsTrimmed(x)
  }

  predicate AllClean(r: seq<string>) {
    forall i :: 0 <= i < |r| ==> IsCleanEntry(r[i])
  }

  lemma CleanOne(v: Value)
    ensures AllClean(SanitizeOne(v))
  {
  }

  lemma CleanAppend(a: seq<string>, b: seq<string>)
    requires AllClean(a) && AllClean(b)
    ensures AllClean(a + b)
  {
  }

  /** The `tags` sanitisation: the destructuring default `tags = []` and the
      `Array.isArray(tags)` test both leave `[]` for anything that is not an
      array. */
  function SanitizeTags(tags: Value): seq<string> {
    if tags.Arr? then Sanitize(tags.elems) else []
  }

  // ---------------------------------------------------------------------
  // The two stages exactly as written, as a reference definition

  /** The `.map` stage: strings trimmed, other values passed through. */
  function TrimStrings(xs: seq<Value>): (r: seq<Value>)
    ensures |r| == |xs|
  {
    if xs == [] then []
    else [if xs[0].Str? then Str(Trim(xs[0].s)) else xs[0]] + TrimStrings(xs[1..])
  }

  /** The `.filter` stage: non-empty strings kept, in order. */
  function NonEmptyStrings(xs: seq<Value>): seq<string> {
    if xs == [] then []
    else (if xs[0].Str? && xs[0].s != "" then [xs[0].s] else []) + NonEmptyStrings(xs[1..])
  }

  /** The one-pass sanitisation is the map stage followed by the filter
      stage. */
  lemma {:induction false} SanitizeIsMapThenFilter(xs: seq<Value>)
    ensures Sanitize(xs) == NonEmptyStrings(TrimStrings(xs))
  {
    if xs != [] {
      SanitizeIsMapThenFilter(xs[1..]);
      assert TrimStrings(xs)[1..] == TrimStrings(xs[1..]);
    }
  }

  /** Sanitisation works element by element: the result for a concatenation
      is the concatenation of the results, so entries keep their order. */
  lemma {:induction false} SanitizeAppend(a: seq<Value>, b: seq<Value>)
    ensures Sanitize(a + b) == Sanitize(a) + Sanitize(b)
  {
    if a == [] {
      assert a + b == b;
    } else {
      assert (a + b)[0] == a[0];
      assert (a + b)[1..] == a[1..] + b;
      SanitizeAppend(a[1..], b);
      calc {
        Sanitize(a + b);
        SanitizeOne(a[0]) + Sanitize(a[1..] + b);
        SanitizeOne(a[0]) + (Sanitize(a[1..]) + Sanitize(b));
        (SanitizeOne(a[0]) + Sanitize(a[1..])) + Sanitize(b);
      }
    }
  }

  /** A string survives sanitisation exactly when it is non-empty and is the
      trim of some string element; non-string elements contribute nothing. */
  lemma {:induction false} SanitizeMembers(xs: seq<Value>, x: string)
    ensures x in Sanitize(xs) <==>
            x != "" && exists i :: 0 <= i < |xs| && xs[i].Str? && Trim(xs[i].s) == x
  {
    if xs != [] {
      SanitizeMembers(xs[1..], x);
      if x != "" && xs[0].Str? && Trim(xs[0].s) == x {
        assert x in SanitizeOne(xs[0]);
      }
      if exists i :: 1 <= i < |xs| && xs[i].Str? && Trim(xs[i].s) == x {
        var i :| 1 <= i < |xs| && xs[i].Str? && Trim(xs[i].s) == x;
        assert xs[1..][i - 1] == xs[i];
      }
    }
  }

  /** Elements that are already non-empty trimmed strings pass through
      unchanged. */
  lemma {:induction false} SanitizeClean(xs: seq<Value>, ss: seq<string>)
    requires |xs| == |ss|
    requires forall i :: 0 <= i < |xs| ==> xs[i] == Str(ss[i]) && IsCleanEntry(ss[i])
    ensures Sanitize(xs) == ss
  {
    if xs != [] {
      TrimFixpoint(ss[0]);
      SanitizeClean(xs[1..], ss[1..]);
    }
  }

  /** `[" Tech ", "", "News"]` sanitises to `["Tech", "News"]`. */
  lemma SanitizeExample(xs: seq<Value>, padded: string, empty: string, news: string)
    requires padded == " Tech " && empty == "" && news == "News"
    requires xs == [Str(padded), Str(empty), Str(news)]
    ensures Sanitize(xs) == ["Tech", "News"]
  {
    PaddedTech(padded);
    KeptAsIs(empty);
    assert IsCleanEntry(news) by {
      assert !IsWhitespace(news[0]) && !IsWhitespace(news[|news| - 1]);
    }
    KeptAsIs(news);
    SanitizeThree(xs, Str(padded), Str(empty), Str(news), "Tech", news);
  }

  /** A string that is already trimmed comes through as itself, or not at
      all when it is empty. */
  lemma KeptAsIs(s: string)
    requires IsTrimmed(s)
    ensures SanitizeOne(Str(s)) == if s == "" then [] else [s]
  {
    TrimFixpoint(s);
  }

  lemma PaddedTech(padded: string)
    requires padded == " Tech "
    ensures SanitizeOne(Str(padded)) == ["Tech"]
  {
    var tech := padded[1..|padded| - 1];
    assert tech == "Tech";
    TrimPadded(padded, tech);
  }

  /** A three-element array whose middle element is dropped. */
  lemma SanitizeThree(xs: seq<Value>, a: Value, b: Value, c: Value, t: string, n: string)
    requires xs == [a, b, c]
    requires SanitizeOne(a) == [t] && SanitizeOne(b) == [] && SanitizeOne(c) == [n]
    ensures Sanitize(xs) == [t, n]
  {
    SanitizeTriple(a, b, c);
  }

  lemma SanitizeTriple(a: Value, b: Value, c: Value)
    ensures Sanitize([a, b, c]) == SanitizeOne(a) + (SanitizeOne(b) + SanitizeOne(c))
  {
    assert [a, b, c][1..] == [b, c];
    assert Sanitize([a, b, c]) == SanitizeOne(a) + Sanitize([b, c]);
    SanitizePair(b, c);
    SanitizeSingle(c);
  }

  lemma SanitizePair(b: Value, c: Value)
    ensures Sanitize([b, c]) == SanitizeOne(b) + Sanitize([c])
  {
    assert [b, c][1..] == [c];
  }

  lemma SanitizeSingle(v: Value)
    ensures Sanitize([v]) == SanitizeOne(v)
  {
    assert [v][1..] == [];
  }
}
