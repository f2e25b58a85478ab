/**
 * The few Python string operations the lambdas rely on: strip(),
 * removeprefix(), removesuffix(), endswith(), split(sep), split(sep, 1),
 * replace() of one character and splitlines().
 */
module Text {

  /** The characters for which Python's str.isspace() holds; str.strip() removes them. */
  predicate IsSpace(c: char) {
    || c == ' ' || c == '\t' || c == '\n' || c == '\r'
    || c == '\U{0B}' || c == '\U{0C}'
    || ('\U{1C}' <= c <= '\U{1F}')
    || c == '\U{85}' || c == '\U{A0}' || c == '\U{1680}'
    || ('\U{2000}' <= c <= '\U{200A}')
    || c == '\U{2028}' || c == '\U{2029}' || c == '\U{202F}'
    || c == '\U{205F}' || c == '\U{3000}'
  }

  predicate AllSpace(s: string) {
    forall k :: 0 <= k < |s| ==> IsSpace(s[k])
  }

  /** str.lstrip(): the suffix left after the leading whitespace. */
  function StripStart(s: string): (r: string)
    ensures |r| <= |s|
    ensures r == [] || !IsSpace(r[0])
  {
    if s != [] && IsSpace(s[0]) then StripStart(s[1..]) else s
  }

  /** str.rstrip(): the prefix left before the trailing whitespace. */
  function StripEnd(s: string): (r: string)
    ensures |r| <= |s|
    ensures r == [] || !IsSpace(r[|r| - 1])
  {
    if s != [] && IsSpace(s[|s| - 1]) then StripEnd(s[..|s| - 1]) else s
  }

  /** lstrip() removes a prefix of whitespace. */
  lemma {:induction false} StripStartRemoves(s: string)
    ensures StripStart(s) == s[|s| - |StripStart(s)|..]
    ensures AllSpace(s[..|s| - |StripStart(s)|])
    decreases |s|
  {
    if s != [] && IsSpace(s[0]) {
      StripStartRemoves(s[1..]);
      var n := |s| - |StripStart(s)|;
      assert s[1..][n - 1..] == s[n..];
      assert forall k :: 1 <= k < n ==> s[..n][k] == s[1..][..n - 1][k - 1];
    }
  }

  /** rstrip() removes a suffix of whitespace. */
  lemma {:induction false} StripEndRemoves(s: string)
    ensures StripEnd(s) == s[..|StripEnd(s)|]
    ensures AllSpace(s[|StripEnd(s)|..])
    decreases |s|
  {
    if s != [] && IsSpace(s[|s| - 1]) {
      var s' := s[..|s| - 1];
      StripEndRemoves(s');
      var m := |StripEnd(s)|;
      assert s'[..m] == s[..m];
      assert forall k :: 0 <= k < |s| - 1 - m ==> s[m..][k] == s'[m..][k];
    }
  }

  /** str.strip(). */
  function Strip(s: string): (r: string)
    ensures r == [] || (!IsSpace(r[0]) && !IsSpace(r[|r| - 1]))
  {
    StripEndRemoves(StripStart(s));
    StripEnd(StripStart(s))
  }

  predicate IsStripped(s: string) {
    s == [] || (!IsSpace(s[0]) && !IsSpace(s[|s| - 1]))
  }

  /** Stripping a string that has no surrounding whitespace changes nothing. */
  lemma StripStripped(s: string)
    requires IsStripped(s)
    ensures Strip(s) == s
  {
  }

  lemma StripIdempotent(s: string)
    ensures Strip(Strip(s)) == Strip(s)
  {
    StripStripped(Strip(s));
  }

  /** Leading whitespace does not change what strip() returns. */
  lemma {:induction false} StripStartSpace(w: string, s: string)
    requires AllSpace(w)
    ensures StripStart(w + s) == StripStart(s)
  {
    if w != [] {
      assert (w + s)[0] == w[0];
      assert (w + s)[1..] == w[1..] + s;
      StripStartSpace(w[1..], s);
    } else {
      assert w + s == s;
    }
  }

  /** Trailing whitespace does not change what strip() returns. */
  lemma {:induction false} StripEndSpace(s: string, w: string)
    requires AllSpace(w)
    ensures StripEnd(s + w) == StripEnd(s)
  {
    if w != [] {
      assert (s + w)[|s + w| - 1] == w[|w| - 1];
      assert (s + w)[..|s + w| - 1] == s + w[..|w| - 1];
      StripEndSpace(s, w[..|w| - 1]);
    } else {
      assert s + w == s;
    }
  }

  /** strip() removes whitespace on both sides of a non-empty stripped string. */
  lemma StripSurrounded(w1: string, v: string, w2: string)
    requires AllSpace(w1) && AllSpace(w2) && IsStripped(v) && v != []
    ensures Strip(w1 + v + w2) == v
  {
    assert w1 + v + w2 == w1 + (v + w2);
    StripStartSpace(w1, v + w2);
    assert (v + w2)[0] == v[0];
    StripEndSpace(v, w2);
  }

  /** Whitespace before a stripped string does not reach what strip() returns. */
  lemma StripAfterSpace(w: string, v: string)
    requires AllSpace(w) && IsStripped(v)
    ensures Strip(w + v) == v
  {
    StripStartSpace(w, v);
    StripStripped(v);
  }

  /** Python's s.removeprefix(p). */
  function RemovePrefix(s: string, p: string): (r: string)
    ensures p <= s ==> p + r == s
    ensures !(p <= s) ==> r == s
  {
    if p <= s then s[|p|..] else s
  }

  lemma RemovePrefixOfConcat(p: string, x: string)
    ensures RemovePrefix(p + x, p) == x
  {
    assert p <= p + x;
  }

  /** Python's s.endswith(x). */
  predicate EndsWith(s: string, x: string) {
    |x| <= |s| && s[|s| - |x|..] == x
  }

  /** Python's s.removesuffix(x). */
  function RemoveSuffix(s: string, x: string): (r: string)
    ensures EndsWith(s, x) ==> r + x == s
    ensures !EndsWith(s, x) ==> r == s
  {
    if EndsWith(s, x) then s[..|s| - |x|] else s
  }

  lemma RemoveSuffixOfConcat(s: string, x: string)
    ensures RemoveSuffix(s + x, x) == s
  {
    assert (s + x)[|s + x| - |x|..] == x;
    assert (s + x)[..|s|] == s;
  }

  /** Python's s[-n:]: the last n characters, or all of s when it is shorter. */
  function LastChars(s: string, n: nat): (r: string)
    ensures |r| == if |s| < n then |s| else n
    ensures r == s[|s| - |r|..]
  {
    if |s| < n then s else s[|s| - n..]
  }

  /** Index of the first occurrence of c in s, or |s| when there is none. */
  function IndexOf(s: string, c: char): (i: nat)
    ensures i <= |s|
    ensures i < |s| ==> s[i] == c
    ensures forall k :: 0 <= k < i ==> s[k] != c
    ensures i == |s| <==> c !in s
  {
    if s == [] then 0
    else if s[0] == c then 0
    else 1 + IndexOf(s[1..], c)
  }

  /** Python's s.replace(a, b) for single characters. */
  function ReplaceChar(s: string, a: char, b: char): (r: string)
    ensures |r| == |s|
    ensures forall k :: 0 <= k < |s| ==> r[k] == if s[k] == a then b else s[k]
  {
    seq(|s|, k requires 0 <= k < |s| => if s[k] == a then b else s[k])
  }

  /** Python's s.split(c): every piece between occurrences of c, so never empty. */
  function Split(s: string, c: char): (r: seq<string>)
    ensures |r| >= 1
    ensures forall k :: 0 <= k < |r| ==> c !in r[k]
    decreases |s|
  {
    var i := IndexOf(s, c);
    if i == |s| then [s] else [s[..i]] + Split(s[i + 1..], c)
  }

  /** c.join(parts): the inverse of Split. */
  function Join(parts: seq<string>, c: char): string
    requires |parts| >= 1
  {
    if |parts| == 1 then parts[0] else parts[0] + [c] + Join(parts[1..], c)
  }

  lemma {:induction false} JoinSplit(s: string, c: char)
    ensures Join(Split(s, c), c) == s
    decreases |s|
  {
    var i := IndexOf(s, c);
    if i < |s| {
      var rest := Split(s[i + 1..], c);
      assert Split(s, c) == [s[..i]] + rest;
      assert ([s[..i]] + rest)[1..] == rest;
      JoinSplit(s[i + 1..], c);
      assert Join(Split(s, c), c) == s[..i] + [c] + s[i + 1..];
      assert s == s[..i] + [c] + s[i + 1..];
    }
  }

  lemma {:induction false} SplitJoin(parts: seq<string>, c: char)
    requires |parts| >= 1
    requires forall k :: 0 <= k < |parts| ==> c !in parts[k]
    ensures Split(Join(parts, c), c) == parts
    decreases |parts|
  {
    if |parts| > 1 {
      var tail := parts[1..];
      forall k | 0 <= k < |tail|
        ensures c !in tail[k]
      {
        assert tail[k] == parts[k + 1];
      }
      SplitJoin(tail, c);
      SplitSeparator(parts[0], c, Join(tail, c));
      assert [parts[0]] + tail == parts;
    } else {
      assert IndexOf(parts[0], c) == |parts[0]|;
    }
  }

  /** Splitting at a first separator: the piece before it, then the split of the rest. */
  lemma SplitSeparator(a: string, c: char, b: string)
    requires c !in a
    ensures Split(a + [c] + b, c) == [a] + Split(b, c)
  {
    var s := a + [c] + b;
    IndexOfSeparator(a, c, b);
    assert s[..|a|] == a;
    assert s[|a| + 1..] == b;
  }

  lemma IndexOfSeparator(a: string, c: char, b: string)
    requires c !in a
    ensures IndexOf(a + [c] + b, c) == |a|
  {
    var s := a + [c] + b;
    assert forall k :: 0 <= k < |a| ==> s[k] == a[k];
    assert s[|a|] == c;
  }

  /** Python's s.split(c, 1): two pieces around the first c, or [s] when c is absent. */
  function SplitOnce(s: string, c: char): (r: seq<string>)
    ensures c !in s ==> r == [s]
    ensures c in s ==> |r| == 2 && c !in r[0] && r[0] + [c] + r[1] == s
  {
    var i := IndexOf(s, c);
    if i == |s| then [s] else [s[..i], s[i + 1..]]
  }

  /** Splitting at the first separator gives back the text before it and the text after it. */
  lemma SplitOnceAt(a: string, c: char, b: string)
    requires c !in a
    ensures SplitOnce(a + [c] + b, c) == [a, b]
  {
    var s := a + [c] + b;
    IndexOfSeparator(a, c, b);
    assert s[..|a|] == a && s[|a| + 1..] == b;
  }

  /** Python's s.splitlines(), with '\n' as the only line break. */
  function SplitLines(s: string): (r: seq<string>)
    ensures forall k :: 0 <= k < |r| ==> '\n' !in r[k]
  {
    if s == [] then []
    else if s[|s| - 1] == '\n' then Split(s[..|s| - 1], '\n')
    else Split(s, '\n')
  }

  /** Lines joined by '\n' split back into the same lines. */
  lemma SplitLinesJoin(lines: seq<string>)
    requires |lines| >= 1 && lines[|lines| - 1] != []
    requires forall k :: 0 <= k < |lines| ==> '\n' !in lines[k]
    ensures SplitLines(Join(lines, '\n')) == lines
  {
    var s := Join(lines, '\n');
    SplitJoin(lines, '\n');
    JoinEnd(lines, '\n');
  }

  lemma {:induction false} JoinEnd(parts: seq<string>, c: char)
    requires |parts| >= 1 && parts[|parts| - 1] != []
    ensures Join(parts, c) != [] && Join(parts, c)[|Join(parts, c)| - 1] == parts[|parts| - 1][|parts[|parts| - 1]| - 1]
    decreases |parts|
  {
    if |parts| > 1 {
      JoinEnd(parts[1..], c);
    }
  }

  /** c.join of four parts. */
  lemma JoinFour(a: string, b: string, c: string, d: string, sep: char)
    ensures Join([a, b, c, d], sep) == a + [sep] + b + [sep] + c + [sep] + d
  {
    JoinPush(c, [d], sep);
    JoinPush(b, [c, d], sep);
    JoinPush(a, [b, c, d], sep);
  }

  /** c.join of six parts. */
  lemma JoinSix(a: string, b: string, c: string, d: string, e: string, f: string, sep: char)
    ensures Join([a, b, c, d, e] + [f], sep) == a + [sep] + b + [sep] + c + [sep] + d + [sep] + e + [sep] + f
  {
    assert [a, b, c, d, e] + [f] == [a] + [b, c, d, e, f];
    JoinPush(e, [f], sep);
    JoinPush(d, [e, f], sep);
    JoinPush(c, [d, e, f], sep);
    JoinPush(b, [c, d, e, f], sep);
    JoinPush(a, [b, c, d, e, f], sep);
  }

  /** Joining x in front of parts puts x and a separator in front of their join. */
  lemma JoinPush(x: string, parts: seq<string>, c: char)
    requires |parts| >= 1
    ensures Join([x] + parts, c) == x + [c] + Join(parts, c)
  {
    assert ([x] + parts)[1..] == parts;
  }
  /** A character that is neither the separator nor in any part is not in the joined text. */
  lemma {:induction false} JoinAvoids(parts: seq<string>, c: char, x: char)
    requires |parts| >= 1 && x != c
    requires forall k :: 0 <= k < |parts| ==> x !in parts[k]
    ensures x !in Join(parts, c)
    decreases |parts|
  {
    if |parts| > 1 {
      JoinAvoids(parts[1..], c, x);
    }
  }

  /** A character of any part is in the joined text. */
  lemma {:induction false} JoinHas(parts: seq<string>, c: char, k: nat, x: char)
    requires k < |parts| && x in parts[k]
    ensures x in Join(parts, c)
    decreases |parts|
  {
    if |parts| > 1 && k > 0 {
      JoinHas(parts[1..], c, k - 1, x);
    }
  }

  /** strip() removes whitespace only: a character that is not whitespace survives it. */
  lemma StripKeeps(s: string, c: char)
    requires !IsSpace(c)
    ensures c in Strip(s) <==> c in s
  {
    StripStartKeeps(s, c);
    StripEndKeeps(StripStart(s), c);
  }

  lemma StripStartKeeps(s: string, c: char)
    requires !IsSpace(c)
    ensures c in StripStart(s) <==> c in s
  {
    var t := StripStart(s);
    var n := |s| - |t|;
    StripStartRemoves(s);
    assert forall k :: 0 <= k < n ==> IsSpace(s[k]) by {
      assert forall k :: 0 <= k < n ==> s[..n][k] == s[k];
    }
    if c in s {
      var i :| 0 <= i < |s| && s[i] == c;
      assert t[i - n] == c;
    }
  }

  lemma StripEndKeeps(s: string, c: char)
    requires !IsSpace(c)
    ensures c in StripEnd(s) <==> c in s
  {
    var t := StripEnd(s);
    StripEndRemoves(s);
    assert t == s[..|t|];
    assert forall k :: |t| <= k < |s| ==> IsSpace(s[k]) by {
      assert forall k :: |t| <= k < |s| ==> s[|t|..][k - |t|] == s[k];
    }
    if c in s {
      var i :| 0 <= i < |s| && s[i] == c;
      assert t[i] == c;
    }
  }

  /** After replace(a, b), b occurs exactly where a or b occurred before. */
  lemma ReplaceCharHas(s: string, a: char, b: char)
    ensures b in ReplaceChar(s, a, b) <==> a in s || b in s
  {
    var r := ReplaceChar(s, a, b);
    if a in s {
      var i :| 0 <= i < |s| && s[i] == a;
      assert r[i] == b;
    }
    if b in s {
      var i :| 0 <= i < |s| && s[i] == b;
      assert r[i] == b;
    }
  }

  /** Replacing a character that does not occur changes nothing. */
  lemma ReplaceCharAbsent(s: string, a: char, b: char)
    requires a !in s
    ensures ReplaceChar(s, a, b) == s
  {
  }
}
