/**
 Lexical paths: cleaning and joining as a stack of segments. An empty segment
 and "." leave the stack alone, ".." drops the top, and a ".." that finds
 nothing to drop is kept by a relative path and dropped by a rooted one.
 */
module Paths {
  import opened Seqs
  import opened Strings

  predicate Rooted(p: string) { p != "" && p[0] == '/' }

  function Push(rooted: bool, stack: seq<string>, part: string): seq<string> {
    if part == "" || part == "." then stack
    else if part != ".." then stack + [part]
    else if stack != [] && stack[|stack| - 1] != ".." then stack[..|stack| - 1]
    else if rooted then stack
    else stack + [part]
  }

  function PushAll(rooted: bool, stack: seq<string>, parts: seq<string>): seq<string>
    decreases |parts|
  {
    if parts == [] then stack else PushAll(rooted, Push(rooted, stack, parts[0]), parts[1..])
  }

  /** The segments a path stands for. */
  function Segments(p: string): seq<string> { PushAll(Rooted(p), [], Split(p, '/')) }

  function Render(rooted: bool, stack: seq<string>): string {
    if rooted then "/" + Join(stack, "/")
    else if stack == [] then "."
    else Join(stack, "/")
  }

  function Clean(p: string): string { Render(Rooted(p), Segments(p)) }

  /** Leading empty elements are skipped; no elements at all give the empty path. */
  function JoinPath(elems: seq<string>): string {
    if elems == [] then ""
    else if elems[0] == "" then JoinPath(elems[1..])
    else Clean(Join(elems, "/"))
  }

  predicate Normal(part: string) { part != "" && part != "." && part != ".." && !Contains(part, '/') }

  predicate AllNormal(parts: seq<string>) { forall i :: 0 <= i < |parts| ==> Normal(parts[i]) }

  /** A stack that cleaning leaves alone: ".." only at the front of a relative path. */
  predicate Reduced(rooted: bool, stack: seq<string>) {
    && (forall i :: 0 <= i < |stack| ==> Normal(stack[i]) || stack[i] == "..")
    && (forall i, j :: 0 <= i <= j < |stack| && stack[j] == ".." ==> !rooted && stack[i] == "..")
  }

  // ---- Pushing ----

  lemma {:induction false} PushAllConcat(rooted: bool, stack: seq<string>, a: seq<string>, b: seq<string>)
    ensures PushAll(rooted, stack, a + b) == PushAll(rooted, PushAll(rooted, stack, a), b)
    decreases |a|
  {
    if a == [] {
      ConcatEmpty(b);
    } else {
      AppendHead(a, b);
      PushAllConcat(rooted, Push(rooted, stack, a[0]), a[1..], b);
    }
  }

  lemma PushAllSnoc(rooted: bool, stack: seq<string>, a: seq<string>, part: string)
    ensures PushAll(rooted, stack, a + [part]) == Push(rooted, PushAll(rooted, stack, a), part)
  {
    PushAllConcat(rooted, stack, a, [part]);
    PushAllOne(rooted, PushAll(rooted, stack, a), part);
  }

  lemma PushAllOne(rooted: bool, stack: seq<string>, part: string)
    ensures PushAll(rooted, stack, [part]) == Push(rooted, stack, part)
  {
  }

  lemma PushKeepsReduced(rooted: bool, stack: seq<string>, part: string)
    requires Reduced(rooted, stack) && !Contains(part, '/')
    ensures Reduced(rooted, Push(rooted, stack, part))
  {
  }

  lemma {:induction false} PushAllKeepsReduced(rooted: bool, stack: seq<string>, parts: seq<string>)
    requires Reduced(rooted, stack) && AllFree(parts, '/')
    ensures Reduced(rooted, PushAll(rooted, stack, parts))
    decreases |parts|
  {
    if parts != [] {
      PushKeepsReduced(rooted, stack, parts[0]);
      PushAllKeepsReduced(rooted, Push(rooted, stack, parts[0]), parts[1..]);
    }
  }

  lemma SegmentsReduced(p: string)
    ensures Reduced(Rooted(p), Segments(p))
  {
    SplitParts(p, '/');
    PushAllKeepsReduced(Rooted(p), [], Split(p, '/'));
  }

  /** A stack already reduced is pushed as it is. */
  lemma {:induction false} PushReduced(rooted: bool, stack: seq<string>, parts: seq<string>)
    requires Reduced(rooted, stack + parts)
    ensures PushAll(rooted, stack, parts) == stack + parts
    decreases |parts|
  {
    if parts == [] {
      ConcatEmpty(stack);
    } else {
      var all := stack + parts;
      assert all[|stack|] == parts[0];
      if stack != [] { assert all[|stack| - 1] == stack[|stack| - 1]; }
      SplitFirst(parts);
      ConcatAssociates(stack, [parts[0]], parts[1..]);
      PushReduced(rooted, stack + [parts[0]], parts[1..]);
    }
  }

  lemma ReducedWithNormal(rooted: bool, stack: seq<string>, parts: seq<string>)
    requires Reduced(rooted, stack) && AllNormal(parts)
    ensures Reduced(rooted, stack + parts)
    ensures PushAll(rooted, stack, parts) == stack + parts
  {
    var all := stack + parts;
    forall i | 0 <= i < |all| ensures if i < |stack| then all[i] == stack[i] else Normal(all[i]) {
      if i >= |stack| { assert all[i] == parts[i - |stack|]; }
    }
    PushReduced(rooted, stack, parts);
  }

  /** Reducing a relative path first changes nothing for whoever pushes it. */
  lemma {:induction false} PushAfterReducing(rooted: bool, stack: seq<string>, parts: seq<string>)
    requires AllFree(parts, '/')
    ensures PushAll(rooted, stack, PushAll(false, [], parts)) == PushAll(rooted, stack, parts)
    decreases |parts|
  {
    if parts != [] {
      var front, part := parts[..|parts| - 1], parts[|parts| - 1];
      SplitLast(parts);
      assert AllFree(front, '/');
      PushAfterReducing(rooted, stack, front);
      PushAllKeepsReduced(false, [], front);
      PushAllSnoc(false, [], front, part);
      PushAllSnoc(rooted, stack, front, part);
      PushOntoReduced(rooted, stack, PushAll(false, [], front), part);
    }
  }

  lemma PushOntoReduced(rooted: bool, stack: seq<string>, reduced: seq<string>, part: string)
    requires Reduced(false, reduced)
    ensures PushAll(rooted, stack, Push(false, reduced, part)) == Push(rooted, PushAll(rooted, stack, reduced), part)
  {
    if part == "" || part == "." {
    } else if part == ".." && reduced != [] && reduced[|reduced| - 1] != ".." {
      var front, top := reduced[..|reduced| - 1], reduced[|reduced| - 1];
      SplitLast(reduced);
      PushAllSnoc(rooted, stack, front, top);
      SnocParts(PushAll(rooted, stack, front), top);
    } else {
      PushAllSnoc(rooted, stack, reduced, part);
    }
  }

  // ---- Rendering ----

  /** A rendered stack reads back as itself. */
  lemma RenderSegments(rooted: bool, stack: seq<string>)
    requires Reduced(rooted, stack)
    ensures Rooted(Render(rooted, stack)) == rooted
    ensures Segments(Render(rooted, stack)) == stack
    ensures !rooted ==> PushAll(false, [], Split(Render(rooted, stack), '/')) == stack
  {
    if stack == [] {
      RootAndDot();
    } else {
      PushFromNothing(rooted, stack);
      SplitJoin(stack, '/');
      if rooted {
        RootedSplit(Join(stack, "/"));
        PushAllConcat(true, [], [""], stack);
        PushAllOne(true, [], "");
      } else {
        JoinStart(stack);
      }
    }
  }

  lemma PushFromNothing(rooted: bool, stack: seq<string>)
    requires Reduced(rooted, stack)
    ensures PushAll(rooted, [], stack) == stack
    ensures AllFree(stack, '/') && (stack != [] ==> stack[0] != "" && stack[0][0] != '/')
  {
    ConcatEmpty(stack);
    PushReduced(rooted, [], stack);
    forall i | 0 <= i < |stack| ensures !Contains(stack[i], '/') && stack[i] != "" && stack[i][0] != '/' {
      assert Normal(stack[i]) || stack[i] == "..";
    }
  }

  lemma RootedSplit(rest: string)
    ensures "/" + rest == "" + ['/'] + rest
    ensures Split("/" + rest, '/') == [""] + Split(rest, '/')
  {
  }

  lemma RootAndDot()
    ensures Segments("/") == [] && Segments(".") == []
    ensures PushAll(false, [], Split(".", '/')) == []
  {
  }

  lemma JoinStart(parts: seq<string>)
    requires parts != [] && parts[0] != ""
    ensures Join(parts, "/") != "" && Join(parts, "/")[0] == parts[0][0]
  {
  }

  lemma RenderInjective(rooted: bool, a: seq<string>, b: seq<string>)
    requires Reduced(rooted, a) && Reduced(rooted, b)
    ensures Render(rooted, a) == Render(rooted, b) <==> a == b
  {
    RenderSegments(rooted, a);
    RenderSegments(rooted, b);
  }

  /** Cleaning is a normal form: it keeps the meaning and a second pass changes nothing. */
  lemma CleanIdempotent(p: string)
    ensures Rooted(Clean(p)) == Rooted(p) && Segments(Clean(p)) == Segments(p)
    ensures Clean(Clean(p)) == Clean(p)
  {
    SegmentsReduced(p);
    RenderSegments(Rooted(p), Segments(p));
  }

  // ---- Joining ----

  function AllParts(elems: seq<string>): seq<string> {
    if elems == [] then [] else Split(elems[0], '/') + AllParts(elems[1..])
  }

  predicate RootedAll(elems: seq<string>) {
    elems != [] && if elems[0] == "" then RootedAll(elems[1..]) else Rooted(elems[0])
  }

  lemma {:induction false} SplitJoined(elems: seq<string>)
    requires elems != []
    ensures Split(Join(elems, "/"), '/') == AllParts(elems)
    decreases |elems|
  {
    if |elems| == 1 {
      assert elems[1..] == [];
      ConcatEmpty(Split(elems[0], '/'));
    } else {
      SplitConcat(elems[0], Join(elems[1..], "/"), '/');
      SplitJoined(elems[1..]);
    }
  }

  lemma {:induction false} AllPartsFree(elems: seq<string>)
    ensures AllFree(AllParts(elems), '/')
    decreases |elems|
  {
    if elems != [] {
      SplitParts(elems[0], '/');
      AllPartsFree(elems[1..]);
    }
  }

  /** What a joined path means: the parts of all elements pushed one after another. */
  lemma {:induction false} JoinMeaning(elems: seq<string>)
    ensures var stack := PushAll(RootedAll(elems), [], AllParts(elems));
            && Reduced(RootedAll(elems), stack)
            && Segments(JoinPath(elems)) == stack && Rooted(JoinPath(elems)) == RootedAll(elems)
            && ((exists i :: 0 <= i < |elems| && elems[i] != "") ==> JoinPath(elems) == Render(RootedAll(elems), stack))
    decreases |elems|
  {
    AllPartsFree(elems);
    PushAllKeepsReduced(RootedAll(elems), [], AllParts(elems));
    if elems == [] {
      assert Split("", '/') == [""];
      PushAllOne(false, [], "");
    } else if elems[0] == "" {
      JoinMeaning(elems[1..]);
      PushAllConcat(RootedAll(elems), [], [""], AllParts(elems[1..]));
      PushAllOne(RootedAll(elems), [], "");
      if i: nat :| i < |elems| && elems[i] != "" { assert elems[1..][i - 1] != ""; }
    } else {
      SplitJoined(elems);
      var p := Join(elems, "/");
      JoinStart(elems);
      CleanIdempotent(p);
    }
  }

  lemma TwoParts(a: string, b: string)
    ensures AllParts([a, b]) == Split(a, '/') + Split(b, '/')
  {
    assert [a, b][1..] == [b] && [b][1..] == [];
    assert AllParts([b]) == Split(b, '/') + AllParts([]);
    ConcatEmpty(Split(b, '/'));
  }

  lemma JoinTwo(a: string, b: string)
    requires a != ""
    ensures Reduced(Rooted(a), PushAll(Rooted(a), Segments(a), Split(b, '/')))
    ensures JoinPath([a, b]) == Render(Rooted(a), PushAll(Rooted(a), Segments(a), Split(b, '/')))
  {
    JoinMeaning([a, b]);
    assert [a, b][0] != "";
    TwoParts(a, b);
    PushAllConcat(Rooted(a), [], Split(a, '/'), Split(b, '/'));
  }

  lemma JoinIsSomething(a: string, b: string)
    requires a != "" || b != ""
    ensures JoinPath([a, b]) != ""
  {
    JoinMeaning([a, b]);
    assert [a, b][0] == a && [a, b][1] == b;
    var stack := PushAll(RootedAll([a, b]), [], AllParts([a, b]));
    if stack != [] { JoinStart(stack); }
  }

  /** Joining step by step from the left or from the right gives one path. */
  lemma JoinAssociates(a: string, b: string, c: string)
    requires a != "" && b != "" && !Rooted(b)
    ensures JoinPath([JoinPath([a, b]), c]) == JoinPath([a, JoinPath([b, c])])
  {
    var r, below := Rooted(a), PushAll(Rooted(a), Segments(a), Split(b, '/'));
    JoinTwo(a, b);
    JoinIsSomething(a, b);
    RenderSegments(r, below);
    JoinTwo(JoinPath([a, b]), c);
    var right := PushAll(false, Segments(b), Split(c, '/'));
    JoinTwo(b, c);
    RenderSegments(false, right);
    JoinTwo(a, JoinPath([b, c]));
    SplitParts(b, '/');
    SplitParts(c, '/');
    SplitParts(JoinPath([b, c]), '/');
    PushAllConcat(false, [], Split(b, '/'), Split(c, '/'));
    PushAfterReducing(r, Segments(a), Split(b, '/') + Split(c, '/'));
    PushAfterReducing(r, Segments(a), Split(JoinPath([b, c]), '/'));
    PushAllConcat(r, Segments(a), Split(b, '/'), Split(c, '/'));
  }

  // ---- Lengths ----

  /** Characters of the parts, one separator counted with each. */
  function Weight(parts: seq<string>): nat {
    if parts == [] then 0 else |parts[0]| + 1 + Weight(parts[1..])
  }

  lemma {:induction false} WeightConcat(a: seq<string>, b: seq<string>)
    ensures Weight(a + b) == Weight(a) + Weight(b)
    decreases |a|
  {
    if a == [] {
      ConcatEmpty(b);
    } else {
      AppendHead(a, b);
      WeightConcat(a[1..], b);
    }
  }

  lemma {:induction false} JoinWeight(parts: seq<string>)
    requires parts != []
    ensures |Join(parts, "/")| + 1 == Weight(parts)
    decreases |parts|
  {
    if |parts| > 1 { JoinWeight(parts[1..]); } else { assert parts[1..] == []; }
  }

  lemma SplitWeight(p: string)
    ensures Weight(Split(p, '/')) == |p| + 1
  {
  }

  lemma {:induction false} PushWeight(rooted: bool, stack: seq<string>, parts: seq<string>)
    ensures Weight(PushAll(rooted, stack, parts)) <= Weight(stack) + Weight(parts)
    decreases |parts|
  {
    if parts != [] {
      var next := Push(rooted, stack, parts[0]);
      if stack != [] {
        SplitLast(stack);
        WeightConcat(stack[..|stack| - 1], [stack[|stack| - 1]]);
      }
      WeightConcat(stack, [parts[0]]);
      assert [parts[0]][1..] == [];
      PushWeight(rooted, next, parts[1..]);
    }
  }

  /** Cleaning never makes a rooted path longer. */
  lemma CleanIsNoLonger(p: string)
    requires Rooted(p)
    ensures |Clean(p)| <= |p|
  {
    var rest := p[1..];
    assert p == "/" + rest;
    RootedSplit(rest);
    PushAllConcat(true, [], [""], Split(rest, '/'));
    PushAllOne(true, [], "");
    PushWeight(true, [], Split(rest, '/'));
    SplitWeight(rest);
    if Segments(p) != [] { JoinWeight(Segments(p)); }
  }
}
