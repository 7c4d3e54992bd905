/**
 * The two string primitives the Graphite configuration validator is built on,
 * as Go's `strings` package defines them for a one-character separator:
 *
 *  - `Split(s, sep)` cuts `s` at every occurrence of `sep` and always returns
 *    one more piece than there are separators, so `Split("", '.') == [""]`;
 *  - `Fields(s)` cuts `s` at every run of white space (Go's `unicode.IsSpace`)
 *    and drops the empty pieces, so it never returns an empty field.
 *
 * Each comes with its partner: `Join` undoes `Split`, and joining words with a
 * single space is undone by `Fields`.
 */
module Strings {

  /** Number of occurrences of `c` in `s`. */
  function Count(s: string, c: char): (n: nat)
    ensures n <= |s|
  {
    if s == [] then 0
    else (if s[0] == c then 1 else 0) + Count(s[1..], c)
  }

  /** Go's `strings.Index` for a character known to occur: its first position. */
  function IndexOf(s: string, c: char): (i: nat)
    requires c in s
    ensures i < |s| && s[i] == c
    ensures c !in s[..i]
  {
    if s[0] == c then 0
    else
      assert c in s[1..] by {
        var k :| 0 <= k < |s| && s[k] == c;
        assert s[1..][k - 1] == c;
      }
      var i := IndexOf(s[1..], c) + 1;
      assert s[..i] == [s[0]] + s[1..][..i - 1];
      i
  }

  /** Go's `strings.Join` with a one-character separator. */
  function Join(parts: seq<string>, sep: char): string
    requires |parts| >= 1
  {
    if |parts| == 1 then parts[0]
    else parts[0] + [sep] + Join(parts[1..], sep)
  }

  /**
   * Go's `strings.Split(s, string(sep))`: the text up to the first separator,
   * then the pieces of the rest. There is always at least one piece, none
   * contains the separator, and there are several exactly when the separator
   * occurs.
   */
  function Split(s: string, sep: char): (r: seq<string>)
    ensures |r| >= 1
    ensures |r| >= 2 <==> sep in s
    ensures forall i :: 0 <= i < |r| ==> sep !in r[i]
    decreases |s|
  {
    if sep !in s then [s]
    else
      var i := IndexOf(s, sep);
      [s[..i]] + Split(s[i + 1..], sep)
  }

  /**
   * The first piece is the text up to the first separator, or all of `s`
   * when there is none.
   */
  lemma SplitHead(s: string, sep: char)
    ensures Split(s, sep)[0] <= s
    ensures |Split(s, sep)[0]| == |s| || s[|Split(s, sep)[0]|] == sep
  {
  }

  /** After the first piece and its separator come the pieces of the rest. */
  lemma SplitTail(s: string, sep: char)
    requires sep in s
    ensures |Split(s, sep)[0]| < |s|
    ensures Split(s, sep)[1..] == Split(s[|Split(s, sep)[0]| + 1..], sep)
  {
    var i := IndexOf(s, sep);
    assert Split(s, sep) == [s[..i]] + Split(s[i + 1..], sep);
  }

  /**
   * When the separator occurs, the second piece is the text after the first
   * separator, up to the next one or the end.
   */
  lemma {:induction false} SplitSecond(s: string, sep: char)
    requires sep in s
    ensures |Split(s, sep)| >= 2
    ensures Split(s, sep)[0] + [sep] + Split(s, sep)[1] <= s
    ensures var end := |Split(s, sep)[0]| + 1 + |Split(s, sep)[1]|;
            end == |s| || s[end] == sep
  {
    var k := Split(s, sep)[0];
    SplitHead(s, sep);
    SplitTail(s, sep);
    var rest := s[|k| + 1..];
    assert Split(s, sep)[1] == Split(rest, sep)[0];
    var v := Split(rest, sep)[0];
    SplitHead(rest, sep);
    assert s == k + [sep] + rest;
    PrefixAfter(k, sep, v, rest);
  }

  /** A prefix of `rest` stays a prefix once `k` and `c` are put in front of both. */
  lemma PrefixAfter(k: string, c: char, v: string, rest: string)
    requires v <= rest
    ensures k + [c] + v <= k + [c] + rest
    ensures |v| < |rest| ==> (k + [c] + rest)[|k| + 1 + |v|] == rest[|v|]
  {
    assert k + [c] + v == (k + [c] + rest)[..|k| + 1 + |v|];
  }

  /** A string without the separator is one piece. */
  lemma SplitNoSeparator(s: string, sep: char)
    requires sep !in s
    ensures Split(s, sep) == [s]
  {
  }

  /** The text before a separator is the first piece; the pieces of the text after it follow. */
  lemma SplitFirst(a: string, sep: char, b: string)
    requires sep !in a
    ensures Split(a + [sep] + b, sep) == [a] + Split(b, sep)
  {
    var s := a + [sep] + b;
    assert s[|a|] == sep;
    assert s[..|a|] == a;
    var i := IndexOf(s, sep);
    assert forall j :: 0 <= j < |a| ==> s[j] == a[j];
    assert s[..i] == a;
    assert s[i + 1..] == b;
  }

  /** There is one more piece than there are separators. */
  lemma {:induction false} SplitCount(s: string, sep: char)
    ensures |Split(s, sep)| == Count(s, sep) + 1
    decreases |s|
  {
    if sep !in s {
      CountAbsent(s, sep);
    } else {
      var i := IndexOf(s, sep);
      var rest := s[i + 1..];
      SplitCount(rest, sep);
      assert s == s[..i] + ([sep] + rest);
      CountAppend(s[..i], [sep] + rest, sep);
      CountAbsent(s[..i], sep);
      assert ([sep] + rest)[1..] == rest;
      assert Count([sep] + rest, sep) == 1 + Count(rest, sep);
    }
  }

  lemma {:induction false} CountAbsent(s: string, c: char)
    requires c !in s
    ensures Count(s, c) == 0
    decreases |s|
  {
    if s != [] {
      assert c !in s[1..] by {
        forall k | 0 <= k < |s| - 1 ensures s[1..][k] != c {
          assert s[1..][k] == s[k + 1];
        }
      }
      CountAbsent(s[1..], c);
    }
  }

  lemma {:induction false} CountAppend(a: string, b: string, c: char)
    ensures Count(a + b, c) == Count(a, c) + Count(b, c)
    decreases |a|
  {
    if a != [] {
      assert (a + b)[0] == a[0];
      assert (a + b)[1..] == a[1..] + b;
      CountAppend(a[1..], b, c);
    } else {
      assert a + b == b;
    }
  }

  /** Joining the pieces of `s` with the separator gives `s` back. */
  lemma {:induction false} SplitJoin(s: string, sep: char)
    ensures Join(Split(s, sep), sep) == s
    decreases |s|
  {
    if sep in s {
      var i := IndexOf(s, sep);
      SplitJoin(s[i + 1..], sep);
      assert s == s[..i] + [sep] + s[i + 1..];
    }
  }

  /** Cutting `a + [sep] + b` at a separator at position `i` of `a`. */
  lemma RegroupAt(a: string, sep: char, b: string, i: nat)
    requires i < |a| && a[i] == sep
    ensures a == a[..i] + [sep] + a[i + 1..]
    ensures a + [sep] + b == a[..i] + [sep] + (a[i + 1..] + [sep] + b)
  {
  }

  /**
   * The first two pieces of `k + [sep] + v + rest`, with `k` and `v` free of
   * the separator and `rest` empty or starting with it, are `k` and `v`.
   */
  lemma SplitFirstTwo(k: string, sep: char, v: string, rest: string)
    requires sep !in k && sep !in v
    requires rest == [] || rest[0] == sep
    ensures sep in k + [sep] + v + rest
    ensures |Split(k + [sep] + v + rest, sep)| >= 2
    ensures Split(k + [sep] + v + rest, sep)[0] == k
    ensures Split(k + [sep] + v + rest, sep)[1] == v
  {
    assert (k + [sep] + v + rest)[|k|] == sep;
    assert k + [sep] + v + rest == k + [sep] + (v + rest);
    SplitFirst(k, sep, v + rest);
    if rest == [] {
      assert v + rest == v;
      SplitNoSeparator(v, sep);
    } else {
      assert v + rest == v + [sep] + rest[1..];
      SplitFirst(v, sep, rest[1..]);
    }
  }

  /** Splitting distributes over a separator placed between two strings. */
  lemma {:induction false} SplitAround(a: string, sep: char, b: string)
    ensures Split(a + [sep] + b, sep) == Split(a, sep) + Split(b, sep)
    decreases |a|, 1
  {
    if sep !in a {
      SplitFirst(a, sep, b);
    } else {
      SplitAroundAt(a, sep, b, IndexOf(a, sep));
    }
  }

  /** `SplitAround` when the first separator of `a` sits at position `i`. */
  lemma {:induction false} SplitAroundAt(a: string, sep: char, b: string, i: nat)
    requires i < |a| && a[i] == sep && sep !in a[..i]
    ensures Split(a + [sep] + b, sep) == Split(a, sep) + Split(b, sep)
    decreases |a|, 0
  {
    var front, back := a[..i], a[i + 1..];
    RegroupAt(a, sep, b, i);
    calc {
      Split(a + [sep] + b, sep);
      { SplitFirst(front, sep, back + [sep] + b); }
      [front] + Split(back + [sep] + b, sep);
      { SplitAround(back, sep, b); }
      [front] + (Split(back, sep) + Split(b, sep));
      ([front] + Split(back, sep)) + Split(b, sep);
      { SplitFirst(front, sep, back); }
      Split(a, sep) + Split(b, sep);
    }
  }

  /**
   * `Split` is the only way to cut `s` into at least one piece, none holding
   * the separator, that join back to `s`.
   */
  lemma {:induction false} SplitUnique(parts: seq<string>, sep: char)
    requires |parts| >= 1
    requires forall i :: 0 <= i < |parts| ==> sep !in parts[i]
    ensures Split(Join(parts, sep), sep) == parts
    decreases |parts|
  {
    if |parts| > 1 {
      SplitUnique(parts[1..], sep);
      SplitFirst(parts[0], sep, Join(parts[1..], sep));
      assert parts == [parts[0]] + parts[1..];
    }
  }

  /** Go's `unicode.IsSpace`: the Latin-1 spaces plus the Unicode White_Space characters of category Z. */
  predicate IsSpace(c: char) {
    var n := c as int;
    n == 0x09 || n == 0x0A || n == 0x0B || n == 0x0C || n == 0x0D || n == 0x20
    || n == 0x85 || n == 0xA0 || n == 0x1680 || (0x2000 <= n <= 0x200A)
    || n == 0x2028 || n == 0x2029 || n == 0x202F || n == 0x205F || n == 0x3000
  }

  /** `s` is empty or made only of white space. */
  predicate Blank(s: string) {
    forall k :: 0 <= k < |s| ==> IsSpace(s[k])
  }

  /** A field as `Fields` returns it: non-empty and without white space. */
  predicate IsWord(w: string) {
    |w| > 0 && forall k :: 0 <= k < |w| ==> !IsSpace(w[k])
  }

  /** The longest prefix of `s` that holds no white space. */
  function LeadingWord(s: string): (w: string)
    ensures w <= s
    ensures forall k :: 0 <= k < |w| ==> !IsSpace(w[k])
    ensures |w| == |s| || IsSpace(s[|w|])
  {
    if s == [] || IsSpace(s[0]) then []
    else [s[0]] + LeadingWord(s[1..])
  }

  /**
   * Go's `strings.Fields`: the maximal runs of non-space characters, in order.
   * Every field is a word (so none is empty), and there is none exactly when
   * `s` is blank.
   */
  function Fields(s: string): (r: seq<string>)
    ensures forall i :: 0 <= i < |r| ==> IsWord(r[i])
    ensures r == [] <==> Blank(s)
    decreases |s|
  {
    if s == [] then []
    else if IsSpace(s[0]) then
      var r := Fields(s[1..]);
      assert Blank(s) <==> Blank(s[1..]) by {
        if Blank(s[1..]) {
          forall k | 0 <= k < |s| ensures IsSpace(s[k]) {
            if k > 0 { assert s[k] == s[1..][k - 1]; }
          }
        }
      }
      r
    else
      var w := LeadingWord(s);
      [w] + Fields(s[|w|..])
  }

  /** The leading word of a word followed by a space is that word. */
  lemma {:induction false} LeadingWordOfWord(w: string, rest: string)
    requires forall k :: 0 <= k < |w| ==> !IsSpace(w[k])
    requires rest == [] || IsSpace(rest[0])
    ensures LeadingWord(w + rest) == w
    decreases |w|
  {
    if w != [] {
      assert (w + rest)[1..] == w[1..] + rest;
      LeadingWordOfWord(w[1..], rest);
    } else {
      assert w + rest == rest;
    }
  }

  /** A word followed by nothing or by white space is the first field. */
  lemma FieldsAfterWord(w: string, rest: string)
    requires IsWord(w)
    requires rest == [] || IsSpace(rest[0])
    ensures Fields(w + rest) == [w] + Fields(rest)
  {
    LeadingWordOfWord(w, rest);
    assert (w + rest)[0] == w[0];
    assert (w + rest)[|w|..] == rest;
  }

  /** A leading space does not start a field. */
  lemma FieldsAfterSpace(rest: string)
    ensures Fields([' '] + rest) == Fields(rest)
  {
    assert ([' '] + rest)[1..] == rest;
  }

  /** `gaps[0] + words[0] + gaps[1] + ... + words[n - 1] + gaps[n]`. */
  function Interleave(gaps: seq<string>, words: seq<string>): string
    requires |gaps| == |words| + 1
    decreases |words|
  {
    if words == [] then gaps[0]
    else gaps[0] + words[0] + Interleave(gaps[1..], words[1..])
  }

  /** `gaps` can surround `n` fields: `n + 1` blank gaps, the inner ones non-empty. */
  predicate Separators(gaps: seq<string>, n: nat) {
    |gaps| == n + 1
    && (forall i :: 0 <= i < |gaps| ==> Blank(gaps[i]))
    && (forall i :: 0 < i < n ==> gaps[i] != [])
  }

  /** The white space before, between and after the fields of `s`, in order. */
  function Gaps(s: string): (g: seq<string>)
    ensures |g| == |Fields(s)| + 1
    decreases |s|
  {
    if s == [] then [[]]
    else if IsSpace(s[0]) then
      var g := Gaps(s[1..]);
      [[s[0]] + g[0]] + g[1..]
    else
      [[]] + Gaps(s[|LeadingWord(s)|..])
  }

  /** Putting one more character in front of the first gap puts it in front of the whole. */
  lemma InterleaveConsGap(c: char, gaps: seq<string>, words: seq<string>)
    requires |gaps| == |words| + 1
    ensures Interleave([[c] + gaps[0]] + gaps[1..], words) == [c] + Interleave(gaps, words)
  {
    var g := [[c] + gaps[0]] + gaps[1..];
    assert g[1..] == gaps[1..];
    if words != [] {
      assert g[0] + words[0] + Interleave(g[1..], words[1..])
          == [c] + (gaps[0] + words[0] + Interleave(gaps[1..], words[1..]));
    }
  }

  /**
   * `Fields` loses nothing but white space: its fields, interleaved with
   * `Gaps(s)`, which are blank and, between two fields, non-empty, give `s` back.
   */
  lemma {:induction false} FieldsRebuild(s: string)
    ensures Separators(Gaps(s), |Fields(s)|)
    ensures Interleave(Gaps(s), Fields(s)) == s
    decreases |s|, 1
  {
    if s == [] {
    } else if IsSpace(s[0]) {
      FieldsRebuildSpace(s);
    } else {
      FieldsRebuildWord(s);
    }
  }

  /** `FieldsRebuild` for a string starting with white space. */
  lemma {:induction false} FieldsRebuildSpace(s: string)
    requires s != [] && IsSpace(s[0])
    ensures Separators(Gaps(s), |Fields(s)|)
    ensures Interleave(Gaps(s), Fields(s)) == s
    decreases |s|, 0
  {
    var g := Gaps(s[1..]);
    FieldsRebuild(s[1..]);
    InterleaveConsGap(s[0], g, Fields(s[1..]));
    assert s == [s[0]] + s[1..];
    assert Blank([s[0]] + g[0]) by {
      forall k | 0 <= k < |[s[0]] + g[0]| ensures IsSpace(([s[0]] + g[0])[k]) {
        if k > 0 { assert ([s[0]] + g[0])[k] == g[0][k - 1]; }
      }
    }
  }

  /** `FieldsRebuild` for a string starting with a word. */
  lemma {:induction false} FieldsRebuildWord(s: string)
    requires s != [] && !IsSpace(s[0])
    ensures Separators(Gaps(s), |Fields(s)|)
    ensures Interleave(Gaps(s), Fields(s)) == s
    decreases |s|, 0
  {
    var w := LeadingWord(s);
    var rest := s[|w|..];
    var g, f := Gaps(rest), Fields(rest);
    FieldsRebuild(rest);
    assert Gaps(s) == [[]] + g;
    assert Fields(s) == [w] + f;
    assert Interleave(Gaps(s), Fields(s)) == [] + w + Interleave(g, f);
    assert s == [] + w + rest;
    if f != [] {
      assert rest == g[0] + f[0] + Interleave(g[1..], f[1..]);
      assert IsWord(f[0]);
      assert IsSpace(rest[0]);
      assert g[0] != [];
    }
  }

  /** Blank text in front of a string adds no field. */
  lemma {:induction false} FieldsSkipBlank(g: string, rest: string)
    requires Blank(g)
    ensures Fields(g + rest) == Fields(rest)
    decreases |g|
  {
    if g == [] {
      assert g + rest == rest;
    } else {
      assert (g + rest)[0] == g[0];
      assert (g + rest)[1..] == g[1..] + rest;
      FieldsSkipBlank(g[1..], rest);
    }
  }

  /**
   * `Fields` recovers the words of any interleaving with blank gaps that are
   * non-empty between two words: the fields are the maximal non-blank runs.
   */
  lemma {:induction false} FieldsOfInterleave(gaps: seq<string>, words: seq<string>)
    requires Separators(gaps, |words|)
    requires forall i :: 0 <= i < |words| ==> IsWord(words[i])
    ensures Fields(Interleave(gaps, words)) == words
    decreases |words|
  {
    if words != [] {
      var tail := Interleave(gaps[1..], words[1..]);
      if |words| == 1 {
        assert tail == gaps[1];
      } else {
        assert gaps[1..][0] == gaps[1] && gaps[1] != [];
        assert tail == gaps[1] + words[1] + Interleave(gaps[1..][1..], words[1..][1..]);
      }
      assert tail == [] || IsSpace(tail[0]);
      assert gaps[0] + words[0] + tail == gaps[0] + (words[0] + tail);
      FieldsSkipBlank(gaps[0], words[0] + tail);
      FieldsAfterWord(words[0], tail);
      FieldsOfInterleave(gaps[1..], words[1..]);
      assert words == [words[0]] + words[1..];
    }
  }

  /** `Fields` undoes joining words with single spaces. */
  lemma {:induction false} FieldsOfJoin(words: seq<string>)
    requires |words| >= 1
    requires forall i :: 0 <= i < |words| ==> IsWord(words[i])
    ensures Fields(Join(words, ' ')) == words
    decreases |words|
  {
    var w := words[0];
    if |words| == 1 {
      FieldsAfterWord(w, []);
      assert w + [] == w;
    } else {
      var rest := Join(words[1..], ' ');
      assert w + [' '] + rest == w + ([' '] + rest);
      FieldsAfterWord(w, [' '] + rest);
      FieldsAfterSpace(rest);
      FieldsOfJoin(words[1..]);
      assert words == [w] + words[1..];
    }
  }
}
