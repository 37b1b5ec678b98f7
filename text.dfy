/**
 * The Python `str` operations the scripts rely on: `s.split(sep)` for a
 * one-character separator, `sep.join(parts)`, `str.find`, `str.startswith`,
 * and `str.isspace`. Strings are sequences of Unicode code points,
 * as Python's `str` is.
 */
module Text {
  import opened Basics

  /** Position of the first `c` in `s`. */
  function IndexOf(s: string, c: char): (i: nat)
    requires c in s
    ensures i < |s| && s[i] == c && c !in s[..i]
  {
    if s[0] == c then 0
    else
      var i := 1 + IndexOf(s[1..], c);
      assert s[..i] == [s[0]] + s[1..][..i - 1];
      i
  }

  /** `s.split(sep)` for a one-character `sep`: the pieces between separators, empty ones included. */
  function Split(s: string, sep: char): (parts: seq<string>)
    ensures |parts| >= 1
    ensures forall k :: 0 <= k < |parts| ==> sep !in parts[k]
    decreases |s|
  {
    if sep !in s then [s]
    else
      var i := IndexOf(s, sep);
      [s[..i]] + Split(s[i + 1..], sep)
  }

  /** `sep.join(parts)`. */
  function Join(parts: seq<string>, sep: char): string
    requires |parts| >= 1
    decreases |parts|
  {
    if |parts| == 1 then parts[0] else parts[0] + [sep] + Join(parts[1..], sep)
  }

  /** The lines of a text, as the regular expressions of the scripts see them: `.` never matches `'\n'`. */
  function Lines(s: string): seq<string>
  {
    Split(s, '\n')
  }

  /** Number of occurrences of `c` in `s`. */
  function Count(s: string, c: char): nat
  {
    if s == [] then 0 else (if s[0] == c then 1 else 0) + Count(s[1..], c)
  }

  lemma {:induction false} CountAppend(a: string, b: string, c: char)
    ensures Count(a + b, c) == Count(a, c) + Count(b, c)
    decreases |a|
  {
    if a == [] {
      assert a + b == b;
    } else {
      assert (a + b)[1..] == a[1..] + b;
      CountAppend(a[1..], b, c);
    }
  }

  lemma {:induction false} CountAbsent(s: string, c: char)
    requires c !in s
    ensures Count(s, c) == 0
    decreases |s|
  {
    if s != [] {
      assert c !in s[1..];
      CountAbsent(s[1..], c);
    }
  }

  /** The first piece of a split is the text before the first separator; the rest is the split of what follows it. */
  lemma SplitUnfold(s: string, sep: char)
    ensures var parts := Split(s, sep);
      && |parts[0]| <= |s| && s[..|parts[0]|] == parts[0]
      && (sep !in s ==> parts == [s])
      && (sep in s ==> |parts[0]| < |s| && s[|parts[0]|] == sep
                       && parts == [parts[0]] + Split(s[|parts[0]| + 1..], sep))
  {
  }

  /** Splitting `u + [sep] + v` where `u` holds no separator peels `u` off. */
  lemma SplitCons(u: string, v: string, sep: char)
    requires sep !in u
    ensures Split(u + [sep] + v, sep) == [u] + Split(v, sep)
  {
    var s := u + [sep] + v;
    assert s[|u|] == sep;
    var i := IndexOf(s, sep);
    assert |u| <= i by {
      assert forall k :: 0 <= k < |u| ==> s[k] == u[k];
    }
    assert i <= |u| by {
      assert forall k :: 0 <= k < i ==> s[..i][k] == s[k];
    }
    assert s[..i] == u;
    assert s[i + 1..] == v;
  }

  /** A separator-free prefix merges into the first piece. */
  lemma SplitHead(u: string, v: string, sep: char)
    requires sep !in u
    ensures Split(u + v, sep) == [u + Split(v, sep)[0]] + Split(v, sep)[1..]
  {
    if sep in v {
      var j := IndexOf(v, sep);
      assert v == v[..j] + [sep] + v[j + 1..];
      assert u + v == (u + v[..j]) + [sep] + v[j + 1..];
      SplitCons(u + v[..j], v[j + 1..], sep);
      SplitCons(v[..j], v[j + 1..], sep);
    } else {
      assert sep !in u + v;
    }
  }

  /** Three separator-free lines at the head of a text, the third running into whatever `y` starts with. */
  lemma SplitThree(l0: string, l1: string, l2: string, y: string, sep: char)
    requires sep !in l0 && sep !in l1 && sep !in l2
    ensures Split(l0 + [sep] + (l1 + [sep] + (l2 + y)), sep) == [l0, l1, l2 + Split(y, sep)[0]] + Split(y, sep)[1..]
  {
    var tail := Split(y, sep);
    SplitTwo(l1, l2, y, sep);
    SplitCons(l0, l1 + [sep] + (l2 + y), sep);
    ConsTriple(l0, l1, l2 + tail[0], tail[1..]);
  }

  /** Two separator-free lines at the head of a text, the second running into whatever `y` starts with. */
  lemma SplitTwo(l0: string, l1: string, y: string, sep: char)
    requires sep !in l0 && sep !in l1
    ensures Split(l0 + [sep] + (l1 + y), sep) == [l0, l1 + Split(y, sep)[0]] + Split(y, sep)[1..]
  {
    var tail := Split(y, sep);
    SplitHead(l1, y, sep);
    SplitCons(l0, l1 + y, sep);
    ConsPair(l0, l1 + tail[0], tail[1..]);
  }

  lemma ConsTriple(u: string, v: string, w: string, rest: seq<string>)
    ensures [u] + ([v, w] + rest) == [u, v, w] + rest
  {
  }

  lemma ConsPair(u: string, v: string, rest: seq<string>)
    ensures [u] + ([v] + rest) == [u, v] + rest
  {
  }

  /** A text with at least two pieces is its first piece, a separator, and a text split into the other pieces. */
  lemma SplitFirst(s: string, sep: char) returns (s': string)
    requires |Split(s, sep)| >= 2
    ensures s == Split(s, sep)[0] + [sep] + s'
    ensures Split(s', sep) == Split(s, sep)[1..]
  {
    var parts := Split(s, sep);
    SplitUnfold(s, sep);
    s' := s[|parts[0]| + 1..];
    assert s == s[..|parts[0]|] + [sep] + s';
  }

  /** A text's last-considered piece and what follows it: nothing, or a separator and more. */
  lemma SplitLast(s: string, sep: char) returns (y: string)
    ensures s == Split(s, sep)[0] + y
    ensures y == [] || y[0] == sep
  {
    var parts := Split(s, sep);
    SplitUnfold(s, sep);
    y := s[|parts[0]|..];
    assert s == s[..|parts[0]|] + y;
  }

  /** A text with three or more lines, taken apart at its first two separators. */
  lemma SplitFirstThree(s: string, sep: char) returns (y: string)
    requires |Split(s, sep)| >= 3
    ensures var parts := Split(s, sep); s == parts[0] + [sep] + (parts[1] + [sep] + (parts[2] + y))
    ensures y == [] || y[0] == sep
  {
    var parts := Split(s, sep);
    var s1 := SplitFirst(s, sep);
    var s2 := SplitFirst(s1, sep);
    y := SplitLast(s2, sep);
  }

  /** A text with two or more lines, taken apart at its first separator. */
  lemma SplitFirstTwo(s: string, sep: char) returns (y: string)
    requires |Split(s, sep)| >= 2
    ensures var parts := Split(s, sep); s == parts[0] + [sep] + (parts[1] + y)
    ensures y == [] || y[0] == sep
  {
    var s1 := SplitFirst(s, sep);
    y := SplitLast(s1, sep);
  }

  /** A prefix of the first piece holds no separator. */
  lemma FirstPiecePrefix(s: string, q: nat, sep: char)
    requires q <= |Split(s, sep)[0]|
    ensures sep !in s[..q]
    ensures Split(s, sep) == [s[..q] + Split(s[q..], sep)[0]] + Split(s[q..], sep)[1..]
  {
    SplitUnfold(s, sep);
    assert s[..q] == Split(s, sep)[0][..q];
    assert s == s[..q] + s[q..];
    SplitHead(s[..q], s[q..], sep);
  }

  /** Regrouping a text written in four parts. */
  lemma Regroup(p: string, x: string, t: string, a: string)
    ensures p + (x + t + a) == (p + x) + t + a
  {
  }

  lemma Assoc(t: string, b: string, z: string)
    ensures t + b + z == t + (b + z)
  {
  }

  /** Joining the pieces of a split gives the text back. */
  lemma {:induction false} JoinSplit(s: string, sep: char)
    ensures Join(Split(s, sep), sep) == s
    decreases |s|
  {
    if sep in s {
      var i := IndexOf(s, sep);
      var rest := Split(s[i + 1..], sep);
      JoinSplit(s[i + 1..], sep);
      var parts := [s[..i]] + rest;
      assert Split(s, sep) == parts;
      assert |parts| > 1 && parts[1..] == rest;
      assert Join(parts, sep) == s[..i] + [sep] + Join(rest, sep);
      assert s == s[..i] + [sep] + s[i + 1..];
    } else {
      assert Split(s, sep) == [s];
    }
  }

  /** Splitting a join of separator-free pieces gives the pieces back. */
  lemma {:induction false} SplitJoin(parts: seq<string>, sep: char)
    requires |parts| >= 1
    requires forall k :: 0 <= k < |parts| ==> sep !in parts[k]
    ensures Split(Join(parts, sep), sep) == parts
    decreases |parts|
  {
    if |parts| > 1 {
      SplitJoin(parts[1..], sep);
      SplitCons(parts[0], Join(parts[1..], sep), sep);
      assert [parts[0]] + parts[1..] == parts;
    }
  }

  /** There is one more piece than there are separators. */
  lemma {:induction false} SplitLength(s: string, sep: char)
    ensures |Split(s, sep)| == Count(s, sep) + 1
    decreases |s|
  {
    if sep in s {
      var i := IndexOf(s, sep);
      SplitLength(s[i + 1..], sep);
      assert s == s[..i] + ([sep] + s[i + 1..]);
      CountAppend(s[..i], [sep] + s[i + 1..], sep);
      CountAppend([sep], s[i + 1..], sep);
      CountAbsent(s[..i], sep);
    } else {
      CountAbsent(s, sep);
    }
  }

  /** `s.startswith(prefix)`. */
  predicate StartsWith(s: string, prefix: string)
  {
    |prefix| <= |s| && s[..|prefix|] == prefix
  }

  /** `pat` occurs in `s` starting at index `k`. */
  predicate OccursAt(s: string, pat: string, k: nat)
  {
    k + |pat| <= |s| && s[k..k + |pat|] == pat
  }

  /** A label written after `pre` occurs there, and the text after it is what followed the label. */
  lemma Labelled(pre: string, tag: string, v: string)
    ensures OccursAt(pre + tag + v, tag, |pre|)
    ensures (pre + tag + v)[|pre| + |tag|..] == v
    ensures pre == [] ==> StartsWith(tag + v, tag)
  {
    assert (pre + tag + v)[|pre|..|pre| + |tag|] == tag;
  }

  /** `s.find(pat, from)`: the first occurrence of `pat` at or after `from`. */
  function FindFrom(s: string, pat: string, from: nat): (r: Option<nat>)
    ensures r.Some? ==> from <= r.value && OccursAt(s, pat, r.value)
    ensures r.Some? ==> forall k :: from <= k < r.value ==> !OccursAt(s, pat, k)
    ensures r.None? ==> forall k :: from <= k ==> !OccursAt(s, pat, k)
    decreases |s| - from
  {
    if from + |pat| > |s| then None
    else if OccursAt(s, pat, from) then Some(from)
    else FindFrom(s, pat, from + 1)
  }

  /** `s.find(pat)`, with `None` for Python's `-1`. */
  function Find(s: string, pat: string): Option<nat>
  {
    FindFrom(s, pat, 0)
  }

  /** A tag written after `pre`: its first occurrence is no later, and the text after it is `v`. */
  lemma FindTagged(l: string, pre: string, tag: string, v: string)
    requires l == pre + tag + v
    ensures Find(l, tag).Some? && Find(l, tag).value <= |pre|
    ensures l[|pre| + |tag|..] == v
  {
    Labelled(pre, tag, v);
  }

  /** A text is what comes before an occurrence of `tag`, the tag, and what follows it. */
  lemma TagSplit(l: string, tag: string, f: nat)
    requires OccursAt(l, tag, f)
    ensures l == l[..f] + tag + l[f + |tag|..]
  {
    assert l == l[..f] + l[f..f + |tag|] + l[f + |tag|..];
  }

  /** A text that starts with `tag` is the tag and what follows it. */
  lemma StartSplit(l: string, tag: string)
    requires StartsWith(l, tag)
    ensures l == tag + l[|tag|..]
  {
    assert l == l[..|tag|] + l[|tag|..];
  }

  /** A line `tag + v` starts with `tag`, and `v` follows it. */
  lemma TaggedLine(l: string, tag: string, v: string)
    requires l == tag + v
    ensures StartsWith(l, tag) && l[|tag|..] == v
  {
    Labelled([], tag, v);
    assert [] + tag + v == l;
  }

  /**
   * The characters Python's `str.isspace` treats as white
   * space: bidirectional class WS, B or S, or general category Zs.
   */
  predicate IsSpace(c: char)
  {
    || c == ' ' || ('\t' <= c <= '\r') || ('\U{1C}' <= c <= '\U{1F}')
    || c == '\U{85}' || c == '\U{A0}' || c == '\U{1680}'
    || ('\U{2000}' <= c <= '\U{200A}') || c == '\U{2028}' || c == '\U{2029}'
    || c == '\U{202F}' || c == '\U{205F}' || c == '\U{3000}'
  }

  /** Empty or white space only: what `s.isspace() or s == ""` tests. */
  predicate IsBlank(s: string)
  {
    forall k :: 0 <= k < |s| ==> IsSpace(s[k])
  }
}
