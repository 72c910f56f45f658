/** The string operations behind the forbidden-word filter that guards room
    names, usernames and chat messages: `toLowerCase`, `includes`, and the
    filter over the configured word list. */
module Text {
  import opened Wrappers
  import opened Collections

  /** JavaScript truthiness of an optional string: present and not empty. */
  predicate Truthy(o: Option<string>) {
    o.Some? && o.value != ""
  }

  /** Lower-cases one ASCII letter; every other character is kept. */
  function LowerChar(c: char): char {
    if 'A' <= c <= 'Z' then (c as int + 32) as char else c
  }

  /** `s.toLowerCase()`, on ASCII letters. */
  function Lower(s: string): (r: string)
    ensures |r| == |s|
  {
    seq(|s|, i requires 0 <= i < |s| => LowerChar(s[i]))
  }

  /** The lower-cased string has no upper-case letter left, only the
      upper-case letters were changed, and lower-casing twice changes nothing. */
  lemma LowerCases(s: string)
    ensures forall i :: 0 <= i < |s| ==> !('A' <= Lower(s)[i] <= 'Z')
    ensures forall i :: 0 <= i < |s| && !('A' <= s[i] <= 'Z') ==> Lower(s)[i] == s[i]
    ensures Lower(Lower(s)) == Lower(s)
  {
  }

  /** Lower-casing works character by character, so it commutes with slicing. */
  lemma LowerSlice(s: string, i: nat, j: nat)
    requires i <= j <= |s|
    ensures Lower(s[i..j]) == Lower(s)[i..j]
  {
  }

  /** Lower-casing commutes with concatenation. */
  lemma LowerAppend(a: string, b: string)
    ensures Lower(a + b) == Lower(a) + Lower(b)
  {
    assert Lower(a + b)[..|a|] == Lower(a) by { LowerSlice(a + b, 0, |a|); assert (a + b)[..|a|] == a; }
    assert Lower(a + b)[|a|..] == Lower(b) by { LowerSlice(a + b, |a|, |a + b|); assert (a + b)[|a|..] == b; }
    assert Lower(a + b) == Lower(a + b)[..|a|] + Lower(a + b)[|a|..];
  }

  /** `w` occurs in `s` at index `k`. */
  predicate OccursAt(s: string, w: string, k: int) {
    0 <= k && k + |w| <= |s| && s[k..k + |w|] == w
  }

  /** `s.includes(w)`, scanning `s` from the left; the empty string is
      included in every string. */
  function Includes(s: string, w: string): (r: bool)
    ensures r ==> |w| <= |s|
    ensures w == [] ==> r
    decreases |s|
  {
    if |s| < |w| then false
    else if s[..|w|] == w then true
    else Includes(s[1..], w)
  }

  /** An occurrence at any index makes `includes` true. */
  lemma {:induction false} IncludesWhenOccurs(s: string, w: string, k: int)
    requires OccursAt(s, w, k)
    ensures Includes(s, w)
    decreases k
  {
    if s[..|w|] != w {
      assert k > 0;
      assert s[1..][k - 1..k - 1 + |w|] == s[k..k + |w|];
      IncludesWhenOccurs(s[1..], w, k - 1);
    }
  }

  /** When `includes` is true it has found an occurrence, returned as `k`. */
  lemma {:induction false} OccursWhenIncludes(s: string, w: string) returns (k: nat)
    requires Includes(s, w)
    ensures OccursAt(s, w, k)
    decreases |s|
  {
    if s[..|w|] == w {
      k := 0;
    } else {
      var k' := OccursWhenIncludes(s[1..], w);
      k := k' + 1;
      assert s[k..k + |w|] == s[1..][k'..k' + |w|];
    }
  }

  /** `includes` holds exactly when `w` occurs somewhere in `s`. */
  lemma IncludesIff(s: string, w: string)
    ensures Includes(s, w) <==> exists k :: OccursAt(s, w, k)
  {
    if Includes(s, w) {
      var k := OccursWhenIncludes(s, w);
    }
    forall k | OccursAt(s, w, k)
      ensures Includes(s, w)
    {
      IncludesWhenOccurs(s, w, k);
    }
  }

  /** Whatever surrounds it, a string includes its own infix. */
  lemma IncludesInfix(a: string, w: string, b: string)
    ensures Includes(a + w + b, w)
  {
    assert (a + w + b)[|a|..|a| + |w|] == w;
    IncludesWhenOccurs(a + w + b, w, |a|);
  }

  /** `words.filter((word) => s.toLowerCase().includes(word.toLowerCase()))`. */
  function ForbiddenHits(words: seq<string>, s: string): seq<string> {
    Filter(words, (w: string) => Includes(Lower(s), Lower(w)))
  }

  /** The filter's result is non-empty, i.e. its `length` is truthy. */
  predicate ContainsForbidden(words: seq<string>, s: string) {
    |ForbiddenHits(words, s)| > 0
  }

  /** A string is forbidden exactly when some listed word, lower-cased, is
      included in the lower-cased string. */
  lemma ContainsForbiddenIff(words: seq<string>, s: string)
    ensures ContainsForbidden(words, s) <==> exists w :: w in words && Includes(Lower(s), Lower(w))
  {
    var hits := ForbiddenHits(words, s);
    if |hits| > 0 {
      assert hits[0] in hits;
    }
  }

  /** A forbidden word written in any letter case anywhere inside a string,
      even inside a longer word, makes the string forbidden. */
  lemma ForbiddenWhenEmbedded(words: seq<string>, w: string, a: string, m: string, b: string)
    requires w in words && Lower(m) == Lower(w)
    ensures ContainsForbidden(words, a + m + b)
  {
    LowerAppend(a + m, b);
    LowerAppend(a, m);
    IncludesInfix(Lower(a), Lower(w), Lower(b));
  }

  /** Conversely, a forbidden string holds, at some index `k`, a word of the
      list in some letter case. */
  lemma EmbeddedWhenForbidden(words: seq<string>, s: string) returns (w: string, k: nat)
    requires ContainsForbidden(words, s)
    ensures w in words && k + |w| <= |s| && Lower(s[k..k + |w|]) == Lower(w)
  {
    w := ForbiddenHits(words, s)[0];
    assert w in ForbiddenHits(words, s);
    k := OccursWhenIncludes(Lower(s), Lower(w));
    LowerSlice(s, k, k + |w|);
  }
}
