/** The Python string operations the agents rely on, written out over
    `seq<char>`: `lower()`, `in`, `replace()`, `split()`, `join()` and the
    `isalnum()` filter. */
module Text {

  // ---------------------------------------------------------------------------
  // str.lower()
  // ---------------------------------------------------------------------------

  /** `c.lower()` for the ASCII letters; every other character is kept. */
  function LowerChar(c: char): char
  {
    if 'A' <= c <= 'Z' then (c as int + 32) as char else c
  }

  function Lower(s: string): (r: string)
    ensures |r| == |s|
    decreases |s|
  {
    if s == [] then [] else [LowerChar(s[0])] + Lower(s[1..])
  }

  /** Every character is lower-cased in place. */
  lemma {:induction false} LowerPointwise(s: string)
    ensures forall i :: 0 <= i < |s| ==> Lower(s)[i] == LowerChar(s[i])
    decreases |s|
  {
    if s != [] {
      LowerPointwise(s[1..]);
      assert Lower(s) == [LowerChar(s[0])] + Lower(s[1..]);
    }
  }

  /** Lower-casing twice is lower-casing once. */
  lemma LowerIdempotent(s: string)
    ensures Lower(Lower(s)) == Lower(s)
  {
    var l := Lower(s);
    LowerPointwise(s);
    LowerPointwise(l);
    assert forall i :: 0 <= i < |l| ==> Lower(l)[i] == l[i];
  }

  // ---------------------------------------------------------------------------
  // `t in s`
  // ---------------------------------------------------------------------------

  /** `t` occurs in `s` starting at index `i`. */
  predicate OccursAt(s: string, t: string, i: int)
  {
    0 <= i && i + |t| <= |s| && s[i..i + |t|] == t
  }

  /** The substring test `t in s`, searching from the left. */
  function Contains(s: string, t: string): bool
    decreases |s|
  {
    if |t| > |s| then false
    else if s[..|t|] == t then true
    else Contains(s[1..], t)
  }

  /** The search finds `t` exactly when `t` occurs somewhere in `s`. */
  lemma {:induction false} ContainsIff(s: string, t: string)
    ensures Contains(s, t) <==> exists i :: OccursAt(s, t, i)
    decreases |s|
  {
    if |t| > |s| {
    } else if s[..|t|] == t {
      assert OccursAt(s, t, 0);
    } else {
      ContainsIff(s[1..], t);
      if Contains(s, t) {
        var i :| OccursAt(s[1..], t, i);
        assert s[i + 1..i + 1 + |t|] == s[1..][i..i + |t|];
        assert OccursAt(s, t, i + 1);
      } else {
        forall i | OccursAt(s, t, i) ensures false {
          assert i != 0;
          assert s[1..][i - 1..i - 1 + |t|] == s[i..i + |t|];
          assert OccursAt(s[1..], t, i - 1);
        }
      }
    }
  }

  /** A substring of a substring is a substring. */
  lemma ContainsTransitive(s: string, t: string, u: string)
    requires Contains(s, t) && Contains(t, u)
    ensures Contains(s, u)
  {
    ContainsIff(s, t);
    ContainsIff(t, u);
    var i :| OccursAt(s, t, i);
    var j :| OccursAt(t, u, j);
    forall k | 0 <= k < |u|
      ensures s[i + j..i + j + |u|][k] == u[k]
    {
      assert s[i..i + |t|][j + k] == t[j + k];
      assert t[j..j + |u|][k] == u[k];
    }
    assert OccursAt(s, u, i + j);
    ContainsIff(s, u);
  }

  /** `any(term in s for term in terms)`. */
  function ContainsAny(s: string, terms: seq<string>): bool
    decreases |terms|
  {
    |terms| > 0 && (Contains(s, terms[0]) || ContainsAny(s, terms[1..]))
  }

  /** Some term of the list occurs in `s`. */
  predicate ContainsSome(s: string, terms: seq<string>)
  {
    exists k :: 0 <= k < |terms| && Contains(s, terms[k])
  }

  lemma {:induction false} ContainsAnyIff(s: string, terms: seq<string>)
    ensures ContainsAny(s, terms) <==> ContainsSome(s, terms)
    decreases |terms|
  {
    if |terms| > 0 {
      ContainsAnyIff(s, terms[1..]);
      if ContainsAny(s, terms[1..]) {
        var k :| 0 <= k < |terms[1..]| && Contains(s, terms[1..][k]);
        assert Contains(s, terms[k + 1]);
      }
      forall k | 0 < k < |terms| && Contains(s, terms[k])
        ensures ContainsAny(s, terms[1..])
      {
        assert terms[1..][k - 1] == terms[k];
      }
    }
  }

  // ---------------------------------------------------------------------------
  // str.replace(pattern, replacement)
  // ---------------------------------------------------------------------------

  /** `s.replace(pattern, replacement)` for a non-empty pattern: occurrences are
      replaced left to right and never overlap. */
  function Replace(s: string, pattern: string, replacement: string): string
    requires |pattern| > 0
    decreases |s|
  {
    if |s| < |pattern| then s
    else if s[..|pattern|] == pattern then replacement + Replace(s[|pattern|..], pattern, replacement)
    else [s[0]] + Replace(s[1..], pattern, replacement)
  }

  /** A text that does not contain the pattern comes back unchanged. */
  lemma {:induction false} ReplaceAbsent(s: string, pattern: string, replacement: string)
    requires |pattern| > 0
    requires !Contains(s, pattern)
    ensures Replace(s, pattern, replacement) == s
    decreases |s|
  {
    if |s| >= |pattern| {
      assert s[..|pattern|] != pattern;
      ReplaceAbsent(s[1..], pattern, replacement);
      assert [s[0]] + s[1..] == s;
    }
  }

  /** Replacing by a string of the same length keeps the length. */
  lemma {:induction false} ReplaceKeepsLength(s: string, pattern: string, replacement: string)
    requires |pattern| > 0 && |replacement| == |pattern|
    ensures |Replace(s, pattern, replacement)| == |s|
    decreases |s|
  {
    if |s| >= |pattern| {
      if s[..|pattern|] == pattern {
        ReplaceKeepsLength(s[|pattern|..], pattern, replacement);
      } else {
        ReplaceKeepsLength(s[1..], pattern, replacement);
      }
    }
  }

  /** Replacing one character by another acts character by character. */
  lemma {:induction false} ReplaceCharAt(s: string, a: char, b: char)
    ensures |Replace(s, [a], [b])| == |s|
    ensures forall i :: 0 <= i < |s| ==> Replace(s, [a], [b])[i] == if s[i] == a then b else s[i]
    decreases |s|
  {
    if |s| > 0 {
      ReplaceCharAt(s[1..], a, b);
      var r := Replace(s, [a], [b]);
      var rest := Replace(s[1..], [a], [b]);
      assert r == [if s[0] == a then b else s[0]] + rest;
      forall i | 0 < i < |s|
        ensures r[i] == if s[i] == a then b else s[i]
      {
        assert r[i] == rest[i - 1];
        assert s[1..][i - 1] == s[i];
      }
    }
  }

  /** `"*" * n`. */
  function Stars(n: nat): (r: string)
  {
    seq(n, _ => '*')
  }

  // ---------------------------------------------------------------------------
  // sep.join(parts)
  // ---------------------------------------------------------------------------

  function Join(sep: string, parts: seq<string>): string
    decreases |parts|
  {
    if |parts| == 0 then ""
    else if |parts| == 1 then parts[0]
    else parts[0] + sep + Join(sep, parts[1..])
  }

  /** Joining one more part appends the separator and that part. */
  lemma {:induction false} JoinSnoc(sep: string, parts: seq<string>, p: string)
    requires |parts| > 0
    ensures Join(sep, parts + [p]) == Join(sep, parts) + sep + p
    decreases |parts|
  {
    if |parts| == 1 {
      assert (parts + [p])[1..] == [p];
    } else {
      assert (parts + [p])[1..] == parts[1..] + [p];
      JoinSnoc(sep, parts[1..], p);
    }
  }

  // ---------------------------------------------------------------------------
  // str.split() with no argument
  // ---------------------------------------------------------------------------

  /** The characters for which Python's `str.isspace()` holds. */
  predicate IsSpace(c: char)
  {
    ('\U{0009}' <= c <= '\U{000D}') || ('\U{001C}' <= c <= '\U{0020}')
    || c == '\U{0085}' || c == '\U{00A0}' || c == '\U{1680}'
    || ('\U{2000}' <= c <= '\U{200A}') || c == '\U{2028}' || c == '\U{2029}'
    || c == '\U{202F}' || c == '\U{205F}' || c == '\U{3000}'
  }

  /** A word of `split()`: non-empty and free of whitespace. */
  predicate IsWord(w: string)
  {
    |w| > 0 && forall i :: 0 <= i < |w| ==> !IsSpace(w[i])
  }

  /** `s` with its leading whitespace removed. */
  function DropSpaces(s: string): (r: string)
    ensures |r| <= |s|
    ensures r == [] || !IsSpace(r[0])
    decreases |s|
  {
    if |s| > 0 && IsSpace(s[0]) then DropSpaces(s[1..]) else s
  }

  /** Only whitespace is dropped: what `DropSpaces` keeps is the rest of `s`,
      and every character before it is whitespace. */
  lemma {:induction false} DropSpacesDropsOnlySpaces(s: string)
    ensures DropSpaces(s) == s[|s| - |DropSpaces(s)|..]
    ensures forall i :: 0 <= i < |s| - |DropSpaces(s)| ==> IsSpace(s[i])
    decreases |s|
  {
    if |s| > 0 && IsSpace(s[0]) {
      var t := s[1..];
      var r := DropSpaces(t);
      DropSpacesDropsOnlySpaces(t);
      assert DropSpaces(s) == r;
      assert t[|t| - |r|..] == s[|s| - |r|..];
      forall i | 0 <= i < |s| - |r| ensures IsSpace(s[i]) {
        if i > 0 {
          assert s[i] == t[i - 1];
        }
      }
    }
  }

  /** The longest whitespace-free prefix of `s`. */
  function TakeWord(s: string): (w: string)
    ensures |w| <= |s| && w == s[..|w|]
    ensures forall i :: 0 <= i < |w| ==> !IsSpace(w[i])
    ensures |w| < |s| ==> IsSpace(s[|w|])
    ensures |s| > 0 && !IsSpace(s[0]) ==> |w| > 0
    decreases |s|
  {
    if |s| > 0 && !IsSpace(s[0]) then [s[0]] + TakeWord(s[1..]) else []
  }

  /** `s.split()`: the maximal runs of non-whitespace characters, in order. */
  function Split(s: string): seq<string>
    decreases |s|
  {
    var t := DropSpaces(s);
    if t == [] then []
    else
      var w := TakeWord(t);
      [w] + Split(t[|w|..])
  }

  /** `len(s.split())`. */
  function WordCount(s: string): nat
  {
    |Split(s)|
  }

  /** Every piece of `split()` is a word. */
  lemma {:induction false} SplitYieldsWords(s: string)
    ensures forall k :: 0 <= k < |Split(s)| ==> IsWord(Split(s)[k])
    decreases |s|
  {
    var t := DropSpaces(s);
    if t != [] {
      var w := TakeWord(t);
      SplitYieldsWords(t[|w|..]);
    }
  }

  lemma SplitSkipsSpace(s: string)
    requires |s| > 0 && IsSpace(s[0])
    ensures Split(s) == Split(s[1..])
  {
    assert DropSpaces(s) == DropSpaces(s[1..]);
  }

  lemma {:induction false} TakeWordPrefix(w: string, rest: string)
    requires forall i :: 0 <= i < |w| ==> !IsSpace(w[i])
    requires rest == [] || IsSpace(rest[0])
    ensures TakeWord(w + rest) == w
    decreases |w|
  {
    if |w| == 0 {
      assert w + rest == rest;
    } else {
      var s := w + rest;
      assert s[0] == w[0];
      assert s[1..] == w[1..] + rest;
      TakeWordPrefix(w[1..], rest);
      assert TakeWord(s) == [w[0]] + TakeWord(s[1..]);
      assert [w[0]] + w[1..] == w;
    }
  }

  /** A word followed by whitespace or the end is split off whole. */
  lemma SplitCons(w: string, rest: string)
    requires IsWord(w)
    requires rest == [] || IsSpace(rest[0])
    ensures Split(w + rest) == [w] + Split(rest)
  {
    var j := w + rest;
    assert j[0] == w[0];
    assert DropSpaces(j) == j;
    TakeWordPrefix(w, rest);
    assert j[|w|..] == rest;
  }

  /** Splitting words joined by single spaces gives the words back. */
  lemma {:induction false} SplitJoin(ws: seq<string>)
    requires forall k :: 0 <= k < |ws| ==> IsWord(ws[k])
    ensures Split(Join(" ", ws)) == ws
    decreases |ws|
  {
    if |ws| == 1 {
      assert Join(" ", ws) == ws[0] + [];
      SplitCons(ws[0], []);
    } else if |ws| > 1 {
      var rest := " " + Join(" ", ws[1..]);
      assert Join(" ", ws) == ws[0] + rest;
      SplitCons(ws[0], rest);
      assert rest[1..] == Join(" ", ws[1..]);
      SplitSkipsSpace(rest);
      SplitJoin(ws[1..]);
      assert [ws[0]] + ws[1..] == ws;
    }
  }

  /** Words joined by single spaces are counted one by one. */
  lemma WordCountJoin(ws: seq<string>)
    requires forall k :: 0 <= k < |ws| ==> IsWord(ws[k])
    ensures WordCount(Join(" ", ws)) == |ws|
  {
    SplitJoin(ws);
  }

  // ---------------------------------------------------------------------------
  // "".join(c for c in s if c.isalnum())
  // ---------------------------------------------------------------------------

  /** `c.isalnum()` for ASCII letters and digits. */
  predicate IsAlnum(c: char)
  {
    'a' <= c <= 'z' || 'A' <= c <= 'Z' || '0' <= c <= '9'
  }

  /** The alphanumeric characters of `s`, in order. */
  function KeepAlnum(s: string): string
    decreases |s|
  {
    if s == [] then []
    else if IsAlnum(s[0]) then [s[0]] + KeepAlnum(s[1..])
    else KeepAlnum(s[1..])
  }

  /** The filter keeps only alphanumerics, never lengthens, and keeps an
      all-alphanumeric text whole. */
  lemma {:induction false} KeepAlnumProperties(s: string)
    ensures |KeepAlnum(s)| <= |s|
    ensures forall i :: 0 <= i < |KeepAlnum(s)| ==> IsAlnum(KeepAlnum(s)[i])
    ensures (forall i :: 0 <= i < |s| ==> IsAlnum(s[i])) ==> KeepAlnum(s) == s
    decreases |s|
  {
    if s != [] {
      KeepAlnumProperties(s[1..]);
      if forall i :: 0 <= i < |s| ==> IsAlnum(s[i]) {
        assert forall i :: 0 <= i < |s[1..]| ==> IsAlnum(s[1..][i]);
        assert [s[0]] + s[1..] == s;
      }
    }
  }

  /** The filter of one character keeps it exactly when it is alphanumeric. */
  lemma KeepAlnumChar(c: char)
    ensures KeepAlnum([c]) == if IsAlnum(c) then [c] else []
  {
    assert [c][1..] == [];
  }

  /** The filter works piece by piece: filtering a concatenation concatenates
      the filtered pieces. With `KeepAlnumChar` this fixes the filter: every
      alphanumeric character of the text is kept, in order, and no other. */
  lemma {:induction false} KeepAlnumConcat(a: string, b: string)
    ensures KeepAlnum(a + b) == KeepAlnum(a) + KeepAlnum(b)
    decreases |a|
  {
    if a == [] {
      assert a + b == b;
    } else {
      assert (a + b)[0] == a[0];
      assert (a + b)[1..] == a[1..] + b;
      KeepAlnumConcat(a[1..], b);
    }
  }
}
