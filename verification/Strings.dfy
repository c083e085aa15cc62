/** The string operations the workers use, on sequences of characters. */
module Strings {
  import opened Seqs

  /** Splits at every separator; n separators give n + 1 parts. */
  function Split(s: string, sep: char): (parts: seq<string>)
    ensures parts != []
  {
    if s == "" then [""]
    else if s[0] == sep then [""] + Split(s[1..], sep)
    else
      var rest := Split(s[1..], sep);
      [[s[0]] + rest[0]] + rest[1..]
  }

  /** Joins parts with a separator between neighbours. */
  function Join(parts: seq<string>, sep: string): string {
    if parts == [] then ""
    else if |parts| == 1 then parts[0]
    else parts[0] + sep + Join(parts[1..], sep)
  }

  /** Drops a prefix if it is there. */
  function TrimPrefix(s: string, prefix: string): string {
    if prefix <= s then s[|prefix|..] else s
  }

  predicate Contains(s: string, c: char) { exists i :: 0 <= i < |s| && s[i] == c }

  lemma ContainsConcat(a: string, b: string, c: char)
    ensures Contains(a + b, c) <==> Contains(a, c) || Contains(b, c)
  {
    var s := a + b;
    if Contains(a, c) {
      var i :| 0 <= i < |a| && a[i] == c;
      assert s[i] == c;
    }
    if Contains(b, c) {
      var i :| 0 <= i < |b| && b[i] == c;
      assert s[|a| + i] == c;
    }
  }

  lemma {:induction false} SplitWhole(s: string, sep: char)
    requires !Contains(s, sep)
    ensures Split(s, sep) == [s]
    decreases |s|
  {
    if s != "" {
      assert s[0] != sep;
      assert !Contains(s[1..], sep) by { ContainsConcat([s[0]], s[1..], sep); assert s == [s[0]] + s[1..]; }
      SplitWhole(s[1..], sep);
      assert s == [s[0]] + s[1..];
    }
  }

  /** A separator between two texts splits them apart. */
  lemma {:induction false} SplitConcat(a: string, b: string, sep: char)
    ensures Split(a + [sep] + b, sep) == Split(a, sep) + Split(b, sep)
    decreases |a|
  {
    var s := a + [sep] + b;
    if a == "" {
      assert s[1..] == b;
    } else {
      AppendHead(a, [sep]);
      AppendHead(a + [sep], b);
      SplitConcat(a[1..], b, sep);
      var left, right := Split(a[1..], sep), Split(b, sep);
      AppendHead(left, right);
      ConcatAssociates([""], left, right);
      ConcatAssociates([[a[0]] + left[0]], left[1..], right);
    }
  }

  predicate AllFree(parts: seq<string>, sep: char) {
    forall i :: 0 <= i < |parts| ==> !Contains(parts[i], sep)
  }

  /** Splitting what was joined gives the parts back. */
  lemma {:induction false} SplitJoin(parts: seq<string>, sep: char)
    requires parts != [] && AllFree(parts, sep)
    ensures Split(Join(parts, [sep]), sep) == parts
    decreases |parts|
  {
    if |parts| == 1 {
      SplitWhole(parts[0], sep);
    } else {
      SplitJoin(parts[1..], sep);
      SplitConcat(parts[0], Join(parts[1..], [sep]), sep);
      SplitWhole(parts[0], sep);
      SplitFirst(parts);
    }
  }

  /** Joining what was split gives the text back. */
  lemma {:induction false} JoinSplit(s: string, sep: char)
    ensures Join(Split(s, sep), [sep]) == s
    decreases |s|
  {
    if s != "" {
      SplitFirst(s);
      JoinSplit(s[1..], sep);
      var rest := Split(s[1..], sep);
      if s[0] == sep {
        ConsParts("", rest);
      } else if |rest| > 1 {
        ConsParts([s[0]] + rest[0], rest[1..]);
        ConcatAssociates([s[0]], rest[0], [sep] + Join(rest[1..], [sep]));
        assert [s[0]] + rest[0] + [sep] + Join(rest[1..], [sep]) == [s[0]] + (rest[0] + [sep] + Join(rest[1..], [sep]));
      }
    }
  }

  lemma {:induction false} SplitParts(s: string, sep: char)
    ensures AllFree(Split(s, sep), sep)
    decreases |s|
  {
    if s != "" {
      SplitParts(s[1..], sep);
      var rest := Split(s[1..], sep);
      assert !Contains(rest[0], sep);
      ContainsConcat([s[0]], rest[0], sep);
    }
  }

  lemma {:induction false} JoinConcat(a: seq<string>, b: seq<string>, sep: string)
    requires a != [] && b != []
    ensures Join(a + b, sep) == Join(a, sep) + sep + Join(b, sep)
    decreases |a|
  {
    if |a| == 1 {
      assert (a + b)[1..] == b;
    } else {
      assert (a + b)[1..] == a[1..] + b;
      JoinConcat(a[1..], b, sep);
      assert a[0] + sep + (Join(a[1..], sep) + sep + Join(b, sep))
          == (a[0] + sep + Join(a[1..], sep)) + sep + Join(b, sep);
    }
  }

  // ---- Case and outer blanks ----

  /** Lower case of the ASCII letters. */
  function LowerChar(c: char): char {
    if 'A' <= c <= 'Z' then c - 'A' + 'a' else c
  }

  function ToLower(s: string): (r: string)
    ensures |r| == |s|
    ensures forall i :: 0 <= i < |s| ==> r[i] == LowerChar(s[i])
  {
    if s == "" then "" else [LowerChar(s[0])] + ToLower(s[1..])
  }

  /** Space, tab, line feed, vertical tab, form feed, carriage return. */
  predicate IsSpace(c: char) { c == ' ' || '\t' <= c <= '\r' }

  function TrimLeft(s: string): string {
    if s != "" && IsSpace(s[0]) then TrimLeft(s[1..]) else s
  }

  function TrimRight(s: string): string {
    if s != "" && IsSpace(s[|s| - 1]) then TrimRight(s[..|s| - 1]) else s
  }

  function TrimSpace(s: string): string { TrimRight(TrimLeft(s)) }

  predicate AllSpace(s: string) { forall i :: 0 <= i < |s| ==> IsSpace(s[i]) }

  lemma {:induction false} TrimLeftPadding(pad: string, s: string)
    requires AllSpace(pad)
    ensures TrimLeft(pad + s) == TrimLeft(s)
    decreases |pad|
  {
    if pad == "" {
      assert pad + s == s;
    } else {
      assert (pad + s)[1..] == pad[1..] + s;
      TrimLeftPadding(pad[1..], s);
    }
  }

  lemma {:induction false} TrimRightPadding(s: string, pad: string)
    requires AllSpace(pad)
    ensures TrimRight(s + pad) == TrimRight(s)
    decreases |pad|
  {
    if pad == "" {
      assert s + pad == s;
    } else {
      assert (s + pad)[..|s + pad| - 1] == s + pad[..|pad| - 1];
      TrimRightPadding(s, pad[..|pad| - 1]);
    }
  }

  lemma {:induction false} TrimLeftBefore(s: string, pad: string)
    requires AllSpace(pad)
    ensures TrimRight(TrimLeft(s + pad)) == TrimRight(TrimLeft(s))
    decreases |s|
  {
    if s == "" {
      assert s + pad == pad + "";
      TrimLeftPadding(pad, "");
    } else if IsSpace(s[0]) {
      assert (s + pad)[1..] == s[1..] + pad;
      TrimLeftBefore(s[1..], pad);
    } else {
      TrimRightPadding(s, pad);
    }
  }

  /** Outer blanks do not change a trimmed text. */
  lemma TrimIgnoresPadding(left: string, s: string, right: string)
    requires AllSpace(left) && AllSpace(right)
    ensures TrimSpace(left + s + right) == TrimSpace(s)
  {
    assert left + s + right == left + (s + right);
    TrimLeftPadding(left, s + right);
    TrimLeftBefore(s, right);
  }

  /** Only of these characters. */
  predicate AllBlank(s: string) {
    forall i :: 0 <= i < |s| ==> s[i] in [' ', '\t', '\n', '\r', 11 as char, 12 as char]
  }

  /** Trimming takes off exactly the outer blanks. */
  lemma TrimSpaceExact(left: string, core: string, right: string)
    requires AllBlank(left) && AllBlank(right)
    requires core != "" ==> !AllBlank([core[0]]) && !AllBlank([core[|core| - 1]])
    ensures TrimSpace(left + core + right) == core
  {
    TrimIgnoresPadding(left, core, right);
    if core != "" {
      assert !IsSpace([core[0]][0]) && !IsSpace([core[|core| - 1]][0]);
    }
  }

  lemma {:induction false} LowerTrims(s: string, t: string)
    requires ToLower(s) == ToLower(t)
    ensures ToLower(TrimSpace(s)) == ToLower(TrimSpace(t))
  {
    LowerTrimsLeft(s, t);
    LowerTrimsRight(TrimLeft(s), TrimLeft(t));
  }

  lemma SpaceHasNoCase(c: char, d: char)
    requires LowerChar(c) == LowerChar(d)
    ensures IsSpace(c) == IsSpace(d)
  {
  }

  lemma {:induction false} LowerTrimsLeft(s: string, t: string)
    requires ToLower(s) == ToLower(t)
    ensures ToLower(TrimLeft(s)) == ToLower(TrimLeft(t))
    decreases |s|
  {
    assert |s| == |t|;
    if s != "" {
      assert ToLower(s)[0] == ToLower(t)[0];
      SpaceHasNoCase(s[0], t[0]);
      if IsSpace(s[0]) {
        assert ToLower(s)[1..] == ToLower(s[1..]) && ToLower(t)[1..] == ToLower(t[1..]);
        LowerTrimsLeft(s[1..], t[1..]);
      }
    }
  }

  lemma {:induction false} LowerTrimsRight(s: string, t: string)
    requires ToLower(s) == ToLower(t)
    ensures ToLower(TrimRight(s)) == ToLower(TrimRight(t))
    decreases |s|
  {
    assert |s| == |t|;
    if s != "" {
      var n := |s| - 1;
      assert ToLower(s)[n] == ToLower(t)[n];
      SpaceHasNoCase(s[n], t[n]);
      if IsSpace(s[n]) {
        assert ToLower(s)[..n] == ToLower(s[..n]) && ToLower(t)[..n] == ToLower(t[..n]);
        LowerTrimsRight(s[..n], t[..n]);
      }
    }
  }

  // ---- Order ----

  /** Lexicographic order by character. */
  predicate Leq(a: string, b: string) {
    if a == "" then true
    else if b == "" then false
    else a[0] < b[0] || (a[0] == b[0] && Leq(a[1..], b[1..]))
  }

  lemma {:induction false} LeqTotal(a: string, b: string)
    ensures Leq(a, b) || Leq(b, a)
    decreases |a|
  {
    if a != "" && b != "" && a[0] == b[0] {
      LeqTotal(a[1..], b[1..]);
    }
  }

  lemma {:induction false} LeqReflexive(a: string)
    ensures Leq(a, a)
    decreases |a|
  {
    if a != "" { LeqReflexive(a[1..]); }
  }

  lemma {:induction false} LeqTransitive(a: string, b: string, c: string)
    requires Leq(a, b) && Leq(b, c)
    ensures Leq(a, c)
    decreases |a|
  {
    if a != "" && a[0] == b[0] && b[0] == c[0] {
      LeqTransitive(a[1..], b[1..], c[1..]);
    }
  }

  ghost predicate Ascending(s: seq<string>) {
    forall i, j :: 0 <= i < j < |s| ==> Leq(s[i], s[j])
  }

  function InsertString(s: seq<string>, x: string): seq<string> {
    if s == [] || Leq(s[|s| - 1], x) then s + [x]
    else InsertString(s[..|s| - 1], x) + [s[|s| - 1]]
  }

  function SortStrings(s: seq<string>): seq<string> {
    if s == [] then [] else InsertString(SortStrings(s[..|s| - 1]), s[|s| - 1])
  }

  lemma {:induction false} InsertStringSorts(s: seq<string>, x: string)
    requires Ascending(s)
    ensures Ascending(InsertString(s, x))
    ensures multiset(InsertString(s, x)) == multiset(s) + multiset{x}
    decreases |s|
  {
    if s == [] {
    } else if Leq(s[|s| - 1], x) {
      forall i | 0 <= i < |s| ensures Leq(s[i], x) {
        if i < |s| - 1 { LeqTransitive(s[i], s[|s| - 1], x); }
      }
    } else {
      var front, last := s[..|s| - 1], s[|s| - 1];
      SplitLast(s);
      InsertStringSorts(front, x);
      LeqTotal(x, last);
      AllBelow(front, x, last);
    }
  }

  lemma AllBelow(front: seq<string>, x: string, last: string)
    requires forall i :: 0 <= i < |front| ==> Leq(front[i], last)
    requires Leq(x, last)
    requires multiset(InsertString(front, x)) == multiset(front) + multiset{x}
    ensures forall i :: 0 <= i < |InsertString(front, x)| ==> Leq(InsertString(front, x)[i], last)
  {
    var r := InsertString(front, x);
    forall i | 0 <= i < |r| ensures Leq(r[i], last) {
      assert r[i] in multiset(r);
      if r[i] != x {
        assert r[i] in multiset(front);
        assert r[i] in front;
      }
    }
  }

  /** Sorted, and a permutation. */
  lemma {:induction false} SortStringsSorts(s: seq<string>)
    ensures Ascending(SortStrings(s))
    ensures multiset(SortStrings(s)) == multiset(s)
    decreases |s|
  {
    if s != [] {
      SortStringsSorts(s[..|s| - 1]);
      InsertStringSorts(SortStrings(s[..|s| - 1]), s[|s| - 1]);
      SplitLast(s);
    }
  }
}
