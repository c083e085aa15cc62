/**
 Whether an artifact's location leads back to it: which NFS shares and addresses
 restore finds again, and that locations tell artifacts apart.
 */
module Locations {
  import opened Wrappers
  import opened Seqs
  import opened Strings
  import opened Paths
  import opened Cluster
  import opened Addressing

  // ---- Shares ----

  predicate AllSlashes(s: string) { forall i :: 0 <= i < |s| ==> s[i] == '/' }

  lemma {:induction false} TrimmedRight(s: string)
    ensures var base := TrimSlashesRight(s);
            && base <= s && AllSlashes(s[|base|..])
            && (base != "" ==> base[|base| - 1] != '/')
    decreases |s|
  {
    if s != "" && s[|s| - 1] == '/' {
      TrimmedRight(s[..|s| - 1]);
      var base := TrimSlashesRight(s);
      assert forall i :: 0 <= i < |s| - |base| - 1 ==> s[|base|..][i] == s[..|s| - 1][|base|..][i];
    }
  }

  /** Trailing slashes do not change what a path stands for. */
  lemma {:induction false} SlashesMeanNothing(rooted: bool, stack: seq<string>, base: string, s: string)
    requires base <= s && AllSlashes(s[|base|..])
    ensures PushAll(rooted, stack, Split(s, '/')) == PushAll(rooted, stack, Split(base, '/'))
    decreases |s|
  {
    if |s| > |base| {
      var front := s[..|s| - 1];
      assert s[|base|..][|s| - 1 - |base|] == '/';
      assert s == front + ['/'] + "";
      assert forall i :: 0 <= i < |front| - |base| ==> front[|base|..][i] == s[|base|..][i];
      SlashesMeanNothing(rooted, stack, base, front);
      SplitConcat(front, "", '/');
      PushAllSnoc(rooted, stack, Split(front, '/'), "");
    } else {
      assert s == base;
    }
  }

  lemma BaseMeansShare(share: string)
    ensures var base := TrimSlashesRight(share);
            && (base == "" ==> Segments(share) == [])
            && (base != "" ==> Rooted(base) == Rooted(share) && Segments(base) == Segments(share))
  {
    var base := TrimSlashesRight(share);
    TrimmedRight(share);
    SlashesMeanNothing(Rooted(share), [], base, share);
    if base == "" { PushAllOne(Rooted(share), [], ""); }
  }

  lemma BaseIsNoShorter(share: string)
    requires Rooted(share) && Segments(share) != []
    ensures 0 < |Clean(share)| <= |TrimSlashesRight(share)|
  {
    BaseMeansShare(share);
    CleanIsNoLonger(TrimSlashesRight(share));
  }

  // ---- Addresses ----

  /** The address of an artifact, in the form path joining gives it. */
  predicate CleanPath(rel: string) { rel == Clean(rel) }

  function LeadingDots(stack: seq<string>): (n: nat)
    ensures n <= |stack| && forall i :: 0 <= i < n ==> stack[i] == ".."
    ensures n < |stack| ==> stack[n] != ".."
  {
    if stack != [] && stack[0] == ".." then 1 + LeadingDots(stack[1..]) else 0
  }

  /** The ".." segments an address climbs by. */
  function Climb(rel: string): seq<string> { Segments(rel)[..LeadingDots(Segments(rel))] }

  /** The segments that follow them, down to the artifact. */
  function Tail(rel: string): seq<string> { Segments(rel)[LeadingDots(Segments(rel))..] + [ARTIFACT_FILE] }

  /** The directory below which the tail is stored. */
  function ClimbedMount(mount: string, rel: string): seq<string> {
    PushAll(Rooted(mount), Segments(mount), Climb(rel))
  }

  /** The directory on the server below which the location puts the tail. */
  function ClimbedShare(share: string, rel: string): seq<string> {
    PushAll(Rooted(ExportedFile(share, rel)), Segments(share), Climb(rel))
  }

  lemma TailIsNormal(rel: string)
    requires CleanPath(rel)
    ensures Segments(rel) + [ARTIFACT_FILE] == Climb(rel) + Tail(rel)
    ensures Tail(rel) != [] && AllNormal(Tail(rel)) && Split(ARTIFACT_FILE, '/') == [ARTIFACT_FILE]
    ensures AllFree(Climb(rel), '/') && (Rooted(rel) ==> Climb(rel) == [])
  {
    SegmentsReduced(rel);
    FileIsNormal();
    AfterDots(Rooted(rel), Segments(rel));
    var st, n := Segments(rel), LeadingDots(Segments(rel));
    ConcatAssociates(st[..n], st[n..], [ARTIFACT_FILE]);
    assert forall i :: 0 <= i < |Climb(rel)| ==> Climb(rel)[i] == "..";
  }

  lemma FileIsNormal()
    ensures Normal(ARTIFACT_FILE) && Split(ARTIFACT_FILE, '/') == [ARTIFACT_FILE] && !Contains("..", '/')
  {
    SplitWhole(ARTIFACT_FILE, '/');
  }

  /** A reduced stack is its leading ".." segments and then normal ones. */
  lemma AfterDots(rooted: bool, st: seq<string>)
    requires Reduced(rooted, st)
    ensures var n := LeadingDots(st);
            && st == st[..n] + st[n..] && AllNormal(st[n..]) && (rooted ==> n == 0)
  {
    var n := LeadingDots(st);
    assert forall i :: n <= i < |st| && st[i] == ".." ==> st[n] == "..";
    if n > 0 { assert st[0] == ".."; }
  }

  /** Pushing a clean path is pushing its segments. */
  lemma CleanPathSplits(rel: string, rooted: bool, stack: seq<string>)
    requires CleanPath(rel)
    ensures PushAll(rooted, stack, Split(rel, '/')) == PushAll(rooted, stack, Segments(rel))
  {
    var st := Segments(rel);
    SegmentsReduced(rel);
    PushFromNothing(Rooted(rel), st);
    if st == [] {
      if Rooted(rel) { RootedSplit(""); PushAllConcat(rooted, stack, [""], [""]); } else { SplitWhole(".", '/'); }
      PushAllOne(rooted, stack, "");
      PushAllOne(rooted, stack, ".");
    } else {
      SplitJoin(st, '/');
      if Rooted(rel) {
        RootedSplit(Join(st, "/"));
        PushAllConcat(rooted, stack, [""], st);
        PushAllOne(rooted, stack, "");
      }
    }
  }

  /** Pushing an address and then the file name climbs and descends along the tail. */
  lemma PushAddress(rel: string, rooted: bool, stack: seq<string>)
    requires CleanPath(rel) && Reduced(rooted, stack)
    ensures var climbed := PushAll(rooted, stack, Climb(rel));
            && Reduced(rooted, climbed) && Reduced(rooted, climbed + Tail(rel))
            && PushAll(rooted, stack, Split(rel, '/') + [ARTIFACT_FILE]) == climbed + Tail(rel)
  {
    var climbed := PushAll(rooted, stack, Climb(rel));
    TailIsNormal(rel);
    CleanPathSplits(rel, rooted, stack);
    PushAllConcat(rooted, stack, Split(rel, '/'), [ARTIFACT_FILE]);
    PushAllConcat(rooted, stack, Segments(rel), [ARTIFACT_FILE]);
    PushAllConcat(rooted, stack, Climb(rel), Tail(rel));
    PushAllKeepsReduced(rooted, stack, Climb(rel));
    ReducedWithNormal(rooted, climbed, Tail(rel));
  }

  lemma NfsFileMeaning(mount: string, rel: string)
    requires mount != "" && CleanPath(rel)
    ensures Reduced(Rooted(mount), ClimbedMount(mount, rel))
    ensures Reduced(Rooted(mount), ClimbedMount(mount, rel) + Tail(rel))
    ensures NfsFile(mount, rel) == Render(Rooted(mount), ClimbedMount(mount, rel) + Tail(rel))
  {
    var r, m := Rooted(mount), Segments(mount);
    var below := PushAll(r, m, Split(rel, '/'));
    SegmentsReduced(mount);
    PushAddress(rel, r, m);
    JoinTwo(mount, rel);
    JoinIsSomething(mount, rel);
    RenderSegments(r, below);
    JoinTwo(JoinPath([mount, rel]), ARTIFACT_FILE);
    TailIsNormal(rel);
    PushAllConcat(r, m, Split(rel, '/'), [ARTIFACT_FILE]);
  }

  lemma ExportedFileMeaning(share: string, rel: string)
    requires CleanPath(rel)
    ensures var r := Rooted(ExportedFile(share, rel));
            && (share != "" ==> r == Rooted(share))
            && Reduced(r, Segments(share)) && Reduced(r, ClimbedShare(share, rel))
            && Reduced(r, ClimbedShare(share, rel) + Tail(rel))
            && ExportedFile(share, rel) == Render(r, ClimbedShare(share, rel) + Tail(rel))
  {
    var elems := [share, rel, ARTIFACT_FILE];
    JoinMeaning(elems);
    var r := RootedAll(elems);
    assert elems[2] != "";
    ThreeParts(share, rel);
    TailIsNormal(rel);
    PushAllConcat(r, [], Split(share, '/'), Split(rel, '/') + [ARTIFACT_FILE]);
    if share == "" { PushAllOne(r, [], ""); PushAllOne(false, [], ""); }
    SegmentsReduced(share);
    PushAddress(rel, r, Segments(share));
  }

  lemma ThreeParts(share: string, rel: string)
    ensures AllParts([share, rel, ARTIFACT_FILE]) ==
            Split(share, '/') + (Split(rel, '/') + Split(ARTIFACT_FILE, '/'))
  {
    assert [share, rel, ARTIFACT_FILE][1..] == [rel, ARTIFACT_FILE];
    TwoParts(rel, ARTIFACT_FILE);
  }

  lemma OpenedMeaning(mount: string, below: string)
    requires mount != ""
    ensures var stack := PushAll(Rooted(mount), Segments(mount), Split(below, '/'));
            && Reduced(Rooted(mount), stack) && JoinPath([mount, below]) == Render(Rooted(mount), stack)
  {
    JoinTwo(mount, below);
  }

  lemma SameTail<T>(a: seq<T>, b: seq<T>, c: seq<T>)
    ensures a + b == a + c <==> b == c
  {
    assert (a + b)[|a|..] == b && (a + c)[|a|..] == c;
  }

  lemma SameHead<T>(a: seq<T>, b: seq<T>, c: seq<T>)
    ensures a + c == b + c <==> a == b
  {
    if a + c == b + c {
      assert |a| == |b| && a == (a + c)[..|a|] && b == (b + c)[..|b|];
    }
  }

  /** A path whose segments end in part of the tail opens the stored file exactly if the other segments agree. */
  lemma OpensStored(mount: string, rel: string, below: string, there: seq<string>, n: nat)
    requires mount != "" && CleanPath(rel) && n <= |Tail(rel)|
    requires PushAll(Rooted(mount), Segments(mount), Split(below, '/')) == there + Tail(rel)[n..]
    ensures JoinPath([mount, below]) == NfsFile(mount, rel) <==> there == ClimbedMount(mount, rel) + Tail(rel)[..n]
  {
    var climbed, tail := ClimbedMount(mount, rel), Tail(rel);
    OpenedMeaning(mount, below);
    NfsFileMeaning(mount, rel);
    RenderInjective(Rooted(mount), there + tail[n..], climbed + tail);
    assert tail == tail[..n] + tail[n..];
    ConcatAssociates(climbed, tail[..n], tail[n..]);
    SameHead(there, climbed + tail[..n], tail[n..]);
  }

  // ---- What cutting the share off a location leaves ----

  /** How many segments of the tail a text covers, and what it leaves of the last one. */
  function Reach(cover: string, tail: seq<string>): (nat, string)
    decreases |tail|
  {
    if cover == "" || tail == [] then (0, "")
    else if |cover| <= |tail[0]| then (1, tail[0][|cover|..])
    else
      var (n, rest) := Reach(cover[|tail[0]| + 1..], tail[1..]);
      (n + 1, rest)
  }

  lemma {:induction false} ReachRest(rooted: bool, stack: seq<string>, cover: string, tail: seq<string>)
    requires AllNormal(tail) && tail != [] && cover <= Join(tail, "/")
    requires cover != "" ==> cover[|cover| - 1] != '/'
    ensures var (n, rest) := Reach(cover, tail);
            && n <= |tail| && !Contains(rest, '/')
            && PushAll(rooted, stack, Split(TrimPrefix(Join(tail, "/")[|cover|..], "/"), '/')) ==
               PushAll(rooted, PushAll(rooted, stack, [rest]), tail[n..])
    decreases |tail|
  {
    var text, first := Join(tail, "/"), tail[0];
    assert Normal(first) && first[0] != '/';
    JoinStart(tail);
    SplitJoin(tail, '/') by { assert AllFree(tail, '/'); }
    if cover == "" {
      PushAllOne(rooted, stack, "");
      assert text[0..] == text && TrimPrefix(text, "/") == text;
      assert tail[0..] == tail;
    } else if |cover| <= |first| {
      ReachFirst(rooted, stack, cover, tail);
    } else {
      var further := ReachFurther(cover, tail);
      ReachRest(rooted, stack, further, tail[1..]);
      var (n, rest) := Reach(further, tail[1..]);
      assert tail[n + 1..] == tail[1..][n..];
    }
  }

  /** The text goes on after the first segment. */
  lemma ReachFurther(cover: string, tail: seq<string>) returns (further: string)
    requires tail != [] && cover <= Join(tail, "/") && |cover| > |tail[0]|
    requires cover[|cover| - 1] != '/'
    ensures |tail| > 1 && further == cover[|tail[0]| + 1..] && further <= Join(tail[1..], "/")
    ensures Join(tail, "/")[|cover|..] == Join(tail[1..], "/")[|further|..]
    ensures further != "" ==> further[|further| - 1] != '/'
  {
    var text, first, others := Join(tail, "/"), tail[0], Join(tail[1..], "/");
    assert |tail| > 1;
    assert text == first + "/" + others;
    further := cover[|first| + 1..];
    assert text[|cover|..] == others[|further|..];
  }

  /** The text stops inside the first segment, or at its end. */
  lemma ReachFirst(rooted: bool, stack: seq<string>, cover: string, tail: seq<string>)
    requires AllNormal(tail) && tail != [] && cover <= Join(tail, "/") && 0 < |cover| <= |tail[0]|
    ensures var rest := tail[0][|cover|..];
            && !Contains(rest, '/')
            && PushAll(rooted, stack, Split(TrimPrefix(Join(tail, "/")[|cover|..], "/"), '/')) ==
               PushAll(rooted, PushAll(rooted, stack, [rest]), tail[1..])
  {
    var text, first, rest := Join(tail, "/"), tail[0], tail[0][|cover|..];
    assert Normal(first) && first == first[..|cover|] + rest;
    ContainsConcat(first[..|cover|], rest, '/');
    SplitWhole(rest, '/');
    PushAllOne(rooted, stack, rest);
    if rest != "" { assert rest[0] != '/'; }
    if |tail| == 1 {
      assert text[|cover|..] == rest && tail[1..] == [];
      assert TrimPrefix(rest, "/") == rest;
    } else {
      var others := Join(tail[1..], "/");
      assert AllFree(tail[1..], '/');
      SplitJoin(tail[1..], '/');
      assert text == first + "/" + others;
      assert text[|cover|..] == rest + "/" + others;
      if rest == "" {
        assert rest + "/" + others == "/" + others;
        assert TrimPrefix("/" + others, "/") == others;
      } else {
        assert (rest + "/" + others)[0] == rest[0];
        assert TrimPrefix(rest + "/" + others, "/") == rest + "/" + others;
        SplitConcat(rest, others, '/');
        PushAllConcat(rooted, stack, [rest], tail[1..]);
      }
    }
  }

  /** The start of a full path before its tail. */
  function Head(share: string, rel: string): string {
    if ClimbedShare(share, rel) == [] then "" else "/" + Join(ClimbedShare(share, rel), "/")
  }

  /** How far into the tail the share reaches, as a text. */
  function Cover(share: string, rel: string): string {
    var base, head := TrimSlashesRight(share), Head(share, rel);
    if |head| <= |base| then TrimPrefix(base[|head|..], "/") else ""
  }

  lemma HeadAndTail(share: string, rel: string)
    requires CleanPath(rel) && Rooted(ExportedFile(share, rel))
    ensures ExportedFile(share, rel) == Head(share, rel) + ("/" + Join(Tail(rel), "/"))
  {
    ExportedFileMeaning(share, rel);
    var climbed, tail := ClimbedShare(share, rel), Tail(rel);
    if climbed == [] {
      ConcatEmpty(tail);
      ConcatEmpty("/" + Join(tail, "/"));
    } else {
      JoinConcat(climbed, tail, "/");
      ConcatAssociates("/", Join(climbed, "/") + "/", Join(tail, "/"));
      ConcatAssociates("/", Join(climbed, "/"), "/");
      ConcatAssociates(Head(share, rel), "/", Join(tail, "/"));
    }
  }

  lemma {:induction false} ClimbingShortens(stack: seq<string>, dots: seq<string>)
    requires Reduced(true, stack) && forall i :: 0 <= i < |dots| ==> dots[i] == ".."
    ensures var k := if |dots| < |stack| then |dots| else |stack|;
            PushAll(true, stack, dots) == stack[..|stack| - k]
    decreases |dots|
  {
    if dots != [] {
      var next := Push(true, stack, dots[0]);
      assert dots[0] == "..";
      if stack != [] {
        assert stack[|stack| - 1] != "..";
        assert next == stack[..|stack| - 1];
      }
      ClimbingShortens(next, dots[1..]);
    } else {
      assert stack[..|stack|] == stack;
    }
  }

  lemma {:induction false} ShorterWeighsLess(stack: seq<string>, n: nat)
    requires n <= |stack|
    ensures Weight(stack[..n]) <= Weight(stack)
  {
    assert stack == stack[..n] + stack[n..];
    WeightConcat(stack[..n], stack[n..]);
  }

  /** A share that begins a full path reaches at least to its tail. */
  lemma ShareReachesTail(share: string, rel: string)
    requires CleanPath(rel) && Rooted(ExportedFile(share, rel))
    ensures |Head(share, rel)| <= |TrimSlashesRight(share)|
  {
    var climbed, e := ClimbedShare(share, rel), Segments(share);
    ExportedFileMeaning(share, rel);
    ClimbingShortens(e, Climb(rel));
    if climbed != [] {
      if share == "" { PushAllOne(false, [], ""); }
      BaseIsNoShorter(share);
      JoinWeight(climbed);
      JoinWeight(e);
      ShorterWeighsLess(e, |climbed|);
    }
  }

  // ---- The NFS round trip ----

  /**
   Whether restore finds below its mount what backup stored there. With a relative
   share, the first segment on the server is taken for the end of the server's name,
   and the others must lead from the mount to where the tail was stored. A rooted
   share that does not begin the full path is not cut off. One that does is, and
   what it leaves of the last segment it covers must lead from the mount to the
   directory of the segments it does not cover.
   */
  predicate Recoverable(mount: string, share: string, rel: string) {
    var full, base := ExportedFile(share, rel), TrimSlashesRight(share);
    var here, climbed, there, tail := Segments(mount), ClimbedMount(mount, rel), ClimbedShare(share, rel), Tail(rel);
    if !Rooted(full) then
      if there == [] then |tail| > 1 && here == climbed + tail[..1]
      else PushAll(Rooted(mount), here, there[1..]) == climbed
    else if !(base <= full) then here + there == climbed
    else
      var (covered, rest) := Reach(Cover(share, rel), tail);
      covered <= |tail| && PushAll(Rooted(mount), here, [rest]) == climbed + tail[..covered]
  }

  /**
   For every mount, share and address, climbing or not: restore opens exactly the
   file backup wrote if and only if the share is recoverable.
   */
  lemma NfsRoundTrip(mount: string, server: string, share: string, rel: string)
    requires mount != "" && !Contains(server, '/') && CleanPath(rel)
    ensures NfsSource(mount, share, NfsLocation(server, share, rel)) == Some(NfsFile(mount, rel)) <==>
            Recoverable(mount, share, rel)
  {
    var full := ExportedFile(share, rel);
    ConcatAssociates(NFS_SCHEME, server, full);
    SchemeComesOff(NFS_SCHEME, server + full);
    ExportedFileMeaning(share, rel);
    if Rooted(full) {
      SplitFirst(full);
      ConcatAssociates(server, "/", full[1..]);
      CutAtFirst(server, full[1..]);
      if TrimSlashesRight(share) <= full {
        CutOff(mount, share, rel);
      } else {
        NotCutOff(mount, share, rel);
      }
    } else {
      RelativeShare(mount, server, share, rel);
    }
  }

  lemma NotCutOff(mount: string, share: string, rel: string)
    requires mount != "" && CleanPath(rel) && Rooted(ExportedFile(share, rel))
    requires !(TrimSlashesRight(share) <= ExportedFile(share, rel))
    ensures JoinPath([mount, BelowExport(share, ExportedFile(share, rel))]) == NfsFile(mount, rel) <==>
            Segments(mount) + ClimbedShare(share, rel) == ClimbedMount(mount, rel)
  {
    var full, there, tail := ExportedFile(share, rel), ClimbedShare(share, rel), Tail(rel);
    var here, below := Segments(mount), Join(there + tail, "/");
    ExportedFileMeaning(share, rel);
    assert full == "/" + below;
    assert TrimPrefix(full, "/") == below;
    RootedIsNormal(there + tail);
    SegmentsReduced(mount);
    ReducedWithNormal(Rooted(mount), here, there + tail);
    ConcatAssociates(here, there, tail);
    SplitJoin(there + tail, '/');
    OpensStored(mount, rel, below, here + there, 0);
    ConcatEmpty(ClimbedMount(mount, rel));
  }

  lemma RootedIsNormal(stack: seq<string>)
    requires Reduced(true, stack)
    ensures AllNormal(stack) && AllFree(stack, '/')
  {
  }

  lemma CutOff(mount: string, share: string, rel: string)
    requires mount != "" && CleanPath(rel) && Rooted(ExportedFile(share, rel))
    requires TrimSlashesRight(share) <= ExportedFile(share, rel)
    ensures JoinPath([mount, BelowExport(share, ExportedFile(share, rel))]) == NfsFile(mount, rel) <==>
            Recoverable(mount, share, rel)
  {
    var r, here, tail, cover := Rooted(mount), Segments(mount), Tail(rel), Cover(share, rel);
    var (covered, rest) := Reach(cover, tail);
    CutLeaves(share, rel);
    TailIsNormal(rel);
    ReachRest(r, here, cover, tail);
    var there := PushAll(r, here, [rest]);
    SegmentsReduced(mount);
    PushAllKeepsReduced(r, here, [rest]);
    ReducedWithNormal(r, there, tail[covered..]);
    OpensStored(mount, rel, BelowExport(share, ExportedFile(share, rel)), there, covered);
  }

  /** Cutting the share off a full path leaves the tail without what the share covers of it. */
  lemma CutLeaves(share: string, rel: string)
    requires CleanPath(rel) && Rooted(ExportedFile(share, rel))
    requires TrimSlashesRight(share) <= ExportedFile(share, rel)
    ensures var text, cover := Join(Tail(rel), "/"), Cover(share, rel);
            && cover <= text && (cover != "" ==> cover[|cover| - 1] != '/')
            && BelowExport(share, ExportedFile(share, rel)) == TrimPrefix(text[|cover|..], "/")
  {
    hide ExportedFile, TrimSlashesRight, Head, Tail, Rooted, Join, CleanPath;
    HeadAndTail(share, rel);
    ShareReachesTail(share, rel);
    TrimmedRight(share);
    TailText(rel);
    CutText(TrimSlashesRight(share), Head(share, rel), Join(Tail(rel), "/"));
  }

  lemma TailText(rel: string)
    requires CleanPath(rel)
    ensures Join(Tail(rel), "/") != "" && Join(Tail(rel), "/")[0] != '/'
  {
    TailIsNormal(rel);
    assert Normal(Tail(rel)[0]);
    JoinStart(Tail(rel));
  }

  lemma CutText(base: string, head: string, text: string)
    requires base <= head + ("/" + text) && |head| <= |base| && text != "" && text[0] != '/'
    requires base != "" ==> base[|base| - 1] != '/'
    ensures var cover := TrimPrefix(base[|head|..], "/");
            && cover <= text && (cover != "" ==> cover[|cover| - 1] != '/')
            && TrimPrefix(TrimPrefix(head + ("/" + text), base), "/") == TrimPrefix(text[|cover|..], "/")
  {
    var full, over := head + ("/" + text), base[|head|..];
    assert full[|base|..] == ("/" + text)[|over|..];
    if over == "" {
      assert TrimPrefix("/" + text, "/") == text && text[0..] == text;
    } else {
      assert over[0] == full[|head|] == '/';
      var cover := over[1..];
      assert ("/" + text)[|over|..] == text[|cover|..];
      assert forall i :: 0 <= i < |cover| ==> cover[i] == full[|head| + 1 + i] == text[i];
      assert over[|over| - 1] == base[|base| - 1];
    }
  }

  lemma RelativeShare(mount: string, server: string, share: string, rel: string)
    requires mount != "" && !Contains(server, '/') && CleanPath(rel) && !Rooted(ExportedFile(share, rel))
    ensures var source := match Cut(server + ExportedFile(share, rel))
                          case None => None
                          case Some((_, path)) => Some(JoinPath([mount, BelowExport(share, "/" + path)]));
            source == Some(NfsFile(mount, rel)) <==> Recoverable(mount, share, rel)
  {
    var full, segments := ExportedFile(share, rel), ClimbedShare(share, rel) + Tail(rel);
    ExportedFileMeaning(share, rel);
    TailIsNormal(rel);
    assert full == Join(segments, "/");
    PushFromNothing(false, segments);
    ContainsConcat(server, segments[0], '/');
    if |segments| == 1 {
      CutIsFree(server + full);
    } else {
      var rest := Join(segments[1..], "/");
      ConcatAssociates(segments[0], "/", rest);
      ConcatAssociates(server, segments[0], "/" + rest);
      ConcatAssociates(server + segments[0], "/", rest);
      CutAtFirst(server + segments[0], rest);
      NoBaseToCut(share, rest);
      RelativeOpens(mount, share, rel);
    }
  }

  /** A relative share is never a prefix of a path that starts with a slash. */
  lemma NoBaseToCut(share: string, rest: string)
    requires !Rooted(share)
    ensures BelowExport(share, "/" + rest) == rest
  {
    TrimmedRight(share);
    var base, full := TrimSlashesRight(share), "/" + rest;
    assert full[1..] == rest;
    if base != "" { assert base[0] == share[0] != full[0]; }
    assert TrimPrefix(full, base) == full;
  }

  lemma RelativeOpens(mount: string, share: string, rel: string)
    requires mount != "" && CleanPath(rel) && !Rooted(ExportedFile(share, rel))
    requires |ClimbedShare(share, rel) + Tail(rel)| > 1
    ensures JoinPath([mount, Join((ClimbedShare(share, rel) + Tail(rel))[1..], "/")]) == NfsFile(mount, rel) <==>
            Recoverable(mount, share, rel)
  {
    var r, here, there, tail := Rooted(mount), Segments(mount), ClimbedShare(share, rel), Tail(rel);
    var others := (there + tail)[1..];
    ExportedFileMeaning(share, rel);
    TailIsNormal(rel);
    SegmentsReduced(mount);
    PushFromNothing(false, there + tail);
    assert AllFree(others, '/');
    SplitJoin(others, '/');
    if there == [] {
      ConcatEmpty(tail);
      ReducedWithNormal(r, here, tail[1..]);
      OpensStored(mount, rel, Join(others, "/"), here, 1);
    } else {
      AppendHead(there, tail);
      PushFromNothing(false, there);
      PushAllConcat(r, here, there[1..], tail);
      PushAllKeepsReduced(r, here, there[1..]);
      ReducedWithNormal(r, PushAll(r, here, there[1..]), tail);
      OpensStored(mount, rel, Join(others, "/"), PushAll(r, here, there[1..]), 0);
      ConcatEmpty(ClimbedMount(mount, rel));
    }
  }

  /** What is loaded by its location is, byte for byte, what was stored under it. */
  lemma BytesComeBack(files: map<string, string>, mount: string, server: string, share: string, rel: string,
                      artifactPath: string, dest: string)
    requires mount != "" && !Contains(server, '/') && CleanPath(rel) && Recoverable(mount, share, rel)
    requires artifactPath in files && artifactPath != NfsFile(mount, rel) && dest != NfsFile(mount, rel)
    ensures var source := NfsSource(mount, share, NfsLocation(server, share, rel));
            var stored := Copied(files, artifactPath, NfsFile(mount, rel));
            && source.Some? && source.value in stored
            && Copied(stored, source.value, dest)[dest] == files[artifactPath]
  {
    NfsRoundTrip(mount, server, share, rel);
  }

  predicate Begins(a: string, b: string) { a <= b }

  /** A rooted share's condition, case by case. */
  lemma RecoverableByCase(mount: string, share: string, rel: string)
    requires Rooted(ExportedFile(share, rel))
    ensures !Begins(TrimSlashesRight(share), ExportedFile(share, rel)) ==>
              (Recoverable(mount, share, rel) <==>
               Segments(mount) + ClimbedShare(share, rel) == ClimbedMount(mount, rel))
    ensures Begins(TrimSlashesRight(share), ExportedFile(share, rel)) ==>
              var (n, left) := Reach(Cover(share, rel), Tail(rel));
              (Recoverable(mount, share, rel) <==>
               n <= |Tail(rel)| && PushAll(Rooted(mount), Segments(mount), [left]) ==
                                   ClimbedMount(mount, rel) + Tail(rel)[..n])
  {
  }

  // ---- Addresses that do not climb ----

  /** What the share covers of the tail is more than what it leaves of it. */
  lemma {:induction false} ReachLeavesLess(cover: string, tail: seq<string>)
    requires cover <= Join(tail, "/") && AllNormal(tail) && tail != []
    requires cover != "" ==> cover[|cover| - 1] != '/'
    ensures var (n, rest) := Reach(cover, tail);
            && (n == 0 <==> cover == "") && n <= |tail|
            && if n == 0 then rest == "" else |rest| < |tail[n - 1]|
    decreases |tail|
  {
    var first := tail[0];
    assert Normal(first);
    if |cover| > |first| {
      var others := Join(tail[1..], "/");
      assert |tail| > 1;
      assert Join(tail, "/") == first + "/" + others;
      var further := cover[|first| + 1..];
      assert further <= others;
      ReachLeavesLess(further, tail[1..]);
    }
  }

  lemma LeftoverIsNoTail(rooted: bool, here: seq<string>, rest: string, tail: seq<string>, n: nat)
    requires 0 < n <= |tail| && AllNormal(tail) && |rest| < |tail[n - 1]|
    ensures PushAll(rooted, here, [rest]) != here + tail[..n]
  {
    PushAllOne(rooted, here, rest);
    var there := here + tail[..n];
    assert |there| == |here| + n && there[|there| - 1] == tail[n - 1];
    assert Normal(tail[n - 1]);
  }

  /**
   An address that does not climb is recoverable from a rooted share exactly if the
   share is clean up to trailing slashes, or stands for the root and is not cut off
   by accident; a relative share must lead from the mount back to the mount.
   */
  lemma RecoverableWithoutClimbing(mount: string, share: string, rel: string)
    requires mount != "" && CleanPath(rel) && Climb(rel) == []
    ensures var full, base := ExportedFile(share, rel), TrimSlashesRight(share);
            Recoverable(mount, share, rel) <==>
            if !Rooted(full) then
              Segments(share) != [] && PushAll(Rooted(mount), Segments(mount), Segments(share)[1..]) == Segments(mount)
            else if Segments(share) == [] then base == "" || !(base <= full)
            else base == Clean(share)
  {
    var here, tail := Segments(mount), Tail(rel);
    ExportedFileMeaning(share, rel);
    TailIsNormal(rel);
    if !Rooted(ExportedFile(share, rel)) {
      assert |here + tail[..1]| > |here|;
    } else if TrimSlashesRight(share) <= ExportedFile(share, rel) {
      CutWithoutClimbing(mount, share, rel);
    } else {
      HeadAndTail(share, rel);
      assert |here + Segments(share)| == |here| + |Segments(share)|;
      ConcatEmpty(here);
    }
  }

  lemma CutWithoutClimbing(mount: string, share: string, rel: string)
    requires mount != "" && CleanPath(rel) && Climb(rel) == [] && Rooted(ExportedFile(share, rel))
    requires TrimSlashesRight(share) <= ExportedFile(share, rel)
    ensures Recoverable(mount, share, rel) <==>
            TrimSlashesRight(share) == if Segments(share) == [] then "" else Clean(share)
  {
    hide Recoverable, Reach, Cover, Climb, Tail, Normal, Join, Clean, Segments, ClimbedMount, Head;
    var here, tail, cover := Segments(mount), Tail(rel), Cover(share, rel);
    var (n, left) := Reach(cover, tail);
    RecoverableByCase(mount, share, rel);
    TailIsNormal(rel);
    CutLeaves(share, rel);
    ReachLeavesLess(cover, tail);
    CoverIsNothing(share, rel);
    NoClimb(mount, share, rel);
    PushAllOne(Rooted(mount), here, "");
    if n > 0 { LeftoverIsNoTail(Rooted(mount), here, left, tail, n); } else { ConcatEmpty(here); }
  }

  lemma NoClimb(mount: string, share: string, rel: string)
    requires Climb(rel) == [] && CleanPath(rel)
    ensures ClimbedMount(mount, rel) == Segments(mount)
    ensures Rooted(ExportedFile(share, rel)) ==>
              Head(share, rel) == if Segments(share) == [] then "" else Clean(share)
  {
    ExportedFileMeaning(share, rel);
    if share == "" { PushAllOne(false, [], ""); }
  }

  lemma CoverIsNothing(share: string, rel: string)
    requires CleanPath(rel) && Rooted(ExportedFile(share, rel))
    requires TrimSlashesRight(share) <= ExportedFile(share, rel)
    ensures Cover(share, rel) == "" <==> TrimSlashesRight(share) == Head(share, rel)
  {
    HeadAndTail(share, rel);
    ShareReachesTail(share, rel);
    TrimmedRight(share);
    NothingOver(TrimSlashesRight(share), Head(share, rel), Join(Tail(rel), "/"));
  }

  lemma NothingOver(base: string, head: string, text: string)
    requires base <= head + ("/" + text) && |head| <= |base|
    requires base != "" ==> base[|base| - 1] != '/'
    ensures TrimPrefix(base[|head|..], "/") == "" <==> base == head
  {
    var full, over := head + ("/" + text), base[|head|..];
    assert base[..|head|] == full[..|head|] == head && base == head + over;
    if over != "" {
      assert over[0] == full[|head|] == '/';
      assert over[|over| - 1] == base[|base| - 1];
    } else {
      ConcatEmpty(head);
    }
  }

  // ---- Addresses that climb ----

  /** The last segments of a share cover those of a tail; a "." left over does no harm. */
  predicate Meets(a: seq<string>, b: seq<string>) {
    && |a| == |b| > 0 && a[..|a| - 1] == b[..|b| - 1]
    && (b[|b| - 1] == a[|a| - 1] || b[|b| - 1] == a[|a| - 1] + ".")
  }

  /** A joined path that begins another covers it segment by segment. */
  lemma {:induction false} ReachAligned(a: seq<string>, tail: seq<string>)
    requires AllNormal(a) && a != [] && AllNormal(tail) && tail != [] && Join(a, "/") <= Join(tail, "/")
    ensures var (n, rest) := Reach(Join(a, "/"), tail);
            && n == |a| <= |tail| && a[..n - 1] == tail[..n - 1] && tail[n - 1] == a[n - 1] + rest
    decreases |a|
  {
    var text, cover, first := Join(tail, "/"), Join(a, "/"), tail[0];
    assert Normal(a[0]) && Normal(first);
    assert |a| > 1 ==> cover[|a[0]|] == '/';
    assert |tail| > 1 ==> text[|first|] == '/';
    assert text[..|first|] == first && cover[..|a[0]|] == a[0];
    if |a| == 1 {
      if |tail| > 1 { SlashInside(cover, text, |first|); }
      assert first == a[0] + first[|cover|..];
    } else {
      FirstAligned(a, tail);
      ReachAligned(a[1..], tail[1..]);
      var n := |a| - 1;
      assert a[..n] == [a[0]] + a[1..][..n - 1] && tail[..n] == [first] + tail[1..][..n - 1];
    }
  }

  lemma FirstAligned(a: seq<string>, tail: seq<string>)
    requires |a| > 1 && tail != [] && Normal(a[0]) && Normal(tail[0]) && Join(a, "/") <= Join(tail, "/")
    ensures a[0] == tail[0] && |tail| > 1 && |Join(a, "/")| > |tail[0]|
    ensures Join(a, "/")[|tail[0]| + 1..] == Join(a[1..], "/") && Join(a[1..], "/") <= Join(tail[1..], "/")
  {
    var text, cover, first := Join(tail, "/"), Join(a, "/"), tail[0];
    assert cover[|a[0]|] == '/' && cover[..|a[0]|] == a[0];
    assert |tail| > 1 ==> text[|first|] == '/';
    assert text[..|first|] == first;
    SameFirst(a[0], first, cover, text);
    var others := Join(tail[1..], "/");
    assert |tail| > 1;
    assert text == first + "/" + others && cover == first + "/" + Join(a[1..], "/");
    PrefixAfter(first + "/", Join(a[1..], "/"), others);
  }

  /** Two slash-free beginnings of one text, the first followed by a slash. */
  lemma SameFirst(a: string, first: string, cover: string, text: string)
    requires !Contains(a, '/') && !Contains(first, '/') && cover <= text && a <= cover && first <= text
    requires |a| < |cover| && cover[|a|] == '/'
    requires |first| < |text| ==> text[|first|] == '/'
    ensures a == first
  {
    SlashInside(first, text, |a|);
    if |first| < |text| { SlashInside(a, text, |first|); }
  }

  lemma SlashInside(a: string, text: string, n: nat)
    requires a <= text && n < |text| && text[n] == '/'
    ensures n < |a| ==> Contains(a, '/')
  {
    if n < |a| { assert a[n] == '/'; }
  }

  lemma {:induction false} MeetingBegins(a: seq<string>, tail: seq<string>)
    requires a != [] && |a| <= |tail| && Meets(a, tail[..|a|])
    ensures Begins(Join(a, "/"), Join(tail, "/"))
    decreases |a|
  {
    var b := tail[..|a|];
    if |a| == 1 {
      assert b[0] == tail[0] && a[0] <= tail[0] <= Join(tail, "/");
    } else {
      assert a[0] == a[..|a| - 1][0] == b[..|b| - 1][0] == tail[0];
      var n := |a| - 1;
      assert a[1..][..n - 1] == a[..n][1..] && b[1..][..n - 1] == b[..n][1..];
      assert tail[1..][..n] == b[1..];
      MeetingBegins(a[1..], tail[1..]);
      var x, y := Join(a[1..], "/"), Join(tail[1..], "/");
      assert Join(a, "/") == a[0] + "/" + x && Join(tail, "/") == a[0] + "/" + y;
      PrefixAfter(a[0] + "/", x, y);
    }
  }

  lemma PrefixAfter(head: string, a: string, b: string)
    ensures head + a <= head + b <==> a <= b
  {
    if a <= b {
      assert b == a + b[|a|..];
      ConcatAssociates(head, a, b[|a|..]);
    }
    if head + a <= head + b {
      assert b[..|a|] == (head + b)[|head|..|head| + |a|] == a;
    }
  }

  /** Climbing by k, the location keeps all but the last k segments of the share. */
  lemma ShareSplits(share: string, rel: string)
    requires CleanPath(rel) && Rooted(share) && TrimSlashesRight(share) == Clean(share)
    requires var k := |Climb(rel)|; 0 < k <= |Segments(share)|
    ensures var k, e := |Climb(rel)|, Segments(share);
            && Rooted(ExportedFile(share, rel)) && AllNormal(e[|e| - k..])
            && ClimbedShare(share, rel) == e[..|e| - k]
            && TrimSlashesRight(share) == Head(share, rel) + ("/" + Join(e[|e| - k..], "/"))
            && Cover(share, rel) == Join(e[|e| - k..], "/")
  {
    var k, e := |Climb(rel)|, Segments(share);
    ExportedFileMeaning(share, rel);
    ClimbingShortens(e, Climb(rel));
    LastIsNormal(e, k);
    SplitsAt(e, |e| - k);
    AfterHead(TrimSlashesRight(share), Head(share, rel), Join(e[|e| - k..], "/"));
  }

  lemma AfterHead(base: string, head: string, last: string)
    requires base == head + ("/" + last)
    ensures |head| <= |base| && TrimPrefix(base[|head|..], "/") == last
  {
    assert base[|head|..] == "/" + last;
    assert TrimPrefix("/" + last, "/") == last;
  }

  lemma SplitsAt(stack: seq<string>, i: nat)
    requires i < |stack|
    ensures "/" + Join(stack, "/") ==
            (if stack[..i] == [] then "" else "/" + Join(stack[..i], "/")) + ("/" + Join(stack[i..], "/"))
  {
    var head, last := stack[..i], stack[i..];
    assert stack == head + last;
    if head == [] {
      ConcatEmpty(last);
      ConcatEmpty("/" + Join(last, "/"));
    } else {
      JoinConcat(head, last, "/");
      ConcatAssociates("/", Join(head, "/") + "/", Join(last, "/"));
      ConcatAssociates("/", Join(head, "/"), "/");
      ConcatAssociates("/" + Join(head, "/"), "/", Join(last, "/"));
    }
  }

  /** The segments after a climb by k are the last k of the mount and meet the last k of the share. */
  predicate Rejoins(here: seq<string>, share: seq<string>, k: nat, tail: seq<string>)
    requires k <= |here| && k <= |share|
  {
    k <= |tail| && here[|here| - k..] == tail[..k] && Meets(share[|share| - k..], tail[..k])
  }

  /** The last k segments of a share begin a tail, as texts. */
  predicate LastBegin(share: seq<string>, k: nat, tail: seq<string>)
    requires k <= |share|
  {
    Begins(Join(share[|share| - k..], "/"), Join(tail, "/"))
  }

  /** What the last k segments of a share leave of a tail leads from the mount to where it is stored. */
  predicate LeadsBack(here: seq<string>, share: seq<string>, k: nat, tail: seq<string>)
    requires k <= |here| && k <= |share|
  {
    var (n, left) := Reach(Join(share[|share| - k..], "/"), tail);
    n <= |tail| && PushAll(true, here, [left]) == here[..|here| - k] + tail[..n]
  }

  lemma LeadsBackIffRejoins(here: seq<string>, share: seq<string>, k: nat, tail: seq<string>)
    requires Reduced(true, here) && Reduced(true, share) && 0 < k <= |here| && k <= |share|
    requires AllNormal(tail) && tail != [] && LastBegin(share, k, tail)
    ensures LeadsBack(here, share, k, tail) <==> Rejoins(here, share, k, tail)
  {
    hide Reduced, Normal, AllNormal, Meets, PushAll, Reach, Join;
    var last := share[|share| - k..];
    LastIsNormal(share, k);
    ReachAligned(last, tail);
    var (n, left) := Reach(Join(last, "/"), tail);
    assert n == k;
    Leftover(here, k, left, tail);
    LastMeets(last, left, tail);
  }

  lemma LastIsNormal(share: seq<string>, k: nat)
    requires Reduced(true, share) && k <= |share|
    ensures AllNormal(share[|share| - k..])
  {
    var last := share[|share| - k..];
    RootedIsNormal(share);
    assert forall i :: 0 <= i < |last| ==> last[i] == share[|share| - k + i];
  }

  /** Mount and share are at least as deep as the address climbs, and the share is clean. */
  predicate DeepEnough(mount: string, share: string, rel: string) {
    && Rooted(mount) && |Climb(rel)| <= |Segments(mount)|
    && Rooted(share) && |Climb(rel)| <= |Segments(share)| && TrimSlashesRight(share) == Clean(share)
  }

  /**
   An address that climbs, no further than mount and share are deep, is recoverable
   from a clean rooted share exactly if it rejoins mount and share.
   */
  lemma RecoverableClimbing(mount: string, share: string, rel: string)
    requires CleanPath(rel) && Climb(rel) != [] && DeepEnough(mount, share, rel)
    ensures Recoverable(mount, share, rel) <==> Rejoins(Segments(mount), Segments(share), |Climb(rel)|, Tail(rel))
  {
    hide Recoverable, LeadsBack, Rejoins, LastBegin, Reduced, AllNormal;
    TailIsNormal(rel);
    SegmentsReduced(mount);
    SegmentsReduced(share);
    if LastBegin(Segments(share), |Climb(rel)|, Tail(rel)) {
      ClimbingCutOff(mount, share, rel);
      LeadsBackIffRejoins(Segments(mount), Segments(share), |Climb(rel)|, Tail(rel));
    } else {
      ClimbingNotCutOff(mount, share, rel);
      RejoiningBegins(Segments(mount), Segments(share), |Climb(rel)|, Tail(rel));
    }
  }

  lemma RejoiningBegins(here: seq<string>, share: seq<string>, k: nat, tail: seq<string>)
    requires 0 < k <= |here| && k <= |share|
    ensures Rejoins(here, share, k, tail) ==> LastBegin(share, k, tail)
  {
    if Rejoins(here, share, k, tail) { MeetingBegins(share[|share| - k..], tail); }
  }

  lemma ClimbingCutOff(mount: string, share: string, rel: string)
    requires CleanPath(rel) && Climb(rel) != [] && DeepEnough(mount, share, rel)
    requires LastBegin(Segments(share), |Climb(rel)|, Tail(rel))
    ensures Recoverable(mount, share, rel) <==> LeadsBack(Segments(mount), Segments(share), |Climb(rel)|, Tail(rel))
  {
    hide Recoverable, Reduced, AllNormal, Climb, Tail, Segments, ExportedFile, TrimSlashesRight, Clean, Head, Rooted;
    MountShortens(mount, rel);
    ShareSplits(share, rel);
    CoverBegins(share, rel);
    RecoverableByCase(mount, share, rel);
  }

  lemma ClimbingNotCutOff(mount: string, share: string, rel: string)
    requires CleanPath(rel) && Climb(rel) != [] && DeepEnough(mount, share, rel)
    requires !LastBegin(Segments(share), |Climb(rel)|, Tail(rel))
    ensures !Recoverable(mount, share, rel)
  {
    hide Recoverable, Reduced, AllNormal;
    var k, here, e := |Climb(rel)|, Segments(mount), Segments(share);
    MountShortens(mount, rel);
    ShareSplits(share, rel);
    CoverBegins(share, rel);
    RecoverableByCase(mount, share, rel);
    assert |here + e[..|e| - k]| >= |here| > |here[..|here| - k]|;
  }

  /** The share begins the full path exactly if its last segments begin the tail. */
  lemma CoverBegins(share: string, rel: string)
    requires CleanPath(rel) && Rooted(share) && TrimSlashesRight(share) == Clean(share)
    requires 0 < |Climb(rel)| <= |Segments(share)|
    ensures Begins(TrimSlashesRight(share), ExportedFile(share, rel)) <==>
            LastBegin(Segments(share), |Climb(rel)|, Tail(rel))
  {
    hide Begins, Join, Head, Tail, Climb, Cover, ExportedFile, TrimSlashesRight, Clean, Segments;
    var k, e := |Climb(rel)|, Segments(share);
    ShareSplits(share, rel);
    HeadAndTail(share, rel);
    BeginsAfter(Head(share, rel), Join(e[|e| - k..], "/"), Join(Tail(rel), "/"));
  }

  lemma BeginsAfter(head: string, a: string, b: string)
    ensures Begins(head + ("/" + a), head + ("/" + b)) <==> Begins(a, b)
  {
    PrefixAfter(head, "/" + a, "/" + b);
    PrefixAfter("/", a, b);
  }

  lemma MountShortens(mount: string, rel: string)
    requires Rooted(mount) && |Climb(rel)| <= |Segments(mount)|
    ensures Reduced(true, Segments(mount))
    ensures ClimbedMount(mount, rel) == Segments(mount)[..|Segments(mount)| - |Climb(rel)|]
  {
    SegmentsReduced(mount);
    ClimbingShortens(Segments(mount), Climb(rel));
  }

  lemma Leftover(here: seq<string>, k: nat, left: string, tail: seq<string>)
    requires Reduced(true, here) && 0 < k <= |here| && k <= |tail|
    ensures PushAll(true, here, [left]) == here[..|here| - k] + tail[..k] <==>
            (left == "" || left == ".") && here[|here| - k..] == tail[..k]
  {
    PushAllOne(true, here, left);
    var front, back := here[..|here| - k], here[|here| - k..];
    assert here == front + back;
    SameTail(front, back, tail[..k]);
    assert |front + tail[..k]| == |here|;
  }

  lemma LastMeets(a: seq<string>, left: string, tail: seq<string>)
    requires 0 < |a| <= |tail| && a[..|a| - 1] == tail[..|a| - 1] && tail[|a| - 1] == a[|a| - 1] + left
    ensures Meets(a, tail[..|a|]) <==> left == "" || left == "."
  {
    var b, end := tail[..|a|], a[|a| - 1];
    assert b[..|b| - 1] == tail[..|a| - 1];
    SameTail(end, left, "");
    SameTail(end, left, ".");
    ConcatEmpty(end);
  }

  // ---- Identities ----

  /** Every artifact's address is clean, so the round trip is decided for every identity. */
  lemma AddressIsClean(id: Identity)
    ensures CleanPath(RelativeBase(id))
  {
    var parts := AddressParts(id);
    JoinMeaning(parts);
    assert parts[2] != "";
    RenderSegments(RootedAll(parts), PushAll(RootedAll(parts), [], AllParts(parts)));
  }

  predicate PartsNormal(id: Identity) { AllNormal(AddressParts(id)) }

  /** The address of normal parts is those parts and nothing else. */
  lemma BaseSegments(id: Identity)
    requires PartsNormal(id)
    ensures RelativeBase(id) == Join(AddressParts(id), "/")
    ensures Segments(RelativeBase(id)) == AddressParts(id)
    ensures !Rooted(RelativeBase(id)) && CleanPath(RelativeBase(id)) && Climb(RelativeBase(id)) == []
    ensures Tail(RelativeBase(id)) == AddressParts(id) + [ARTIFACT_FILE]
  {
    var parts := AddressParts(id);
    AddressIsClean(id);
    JoinMeaning(parts);
    PartsOfNormal(parts);
    assert Normal(parts[0]) && parts[0][0] != '/';
    ReducedWithNormal(false, [], parts);
    ConcatEmpty(parts);
    assert parts[0..] == parts;
  }

  lemma {:induction false} PartsOfNormal(parts: seq<string>)
    requires AllNormal(parts)
    ensures AllParts(parts) == parts
    decreases |parts|
  {
    if parts != [] {
      assert Normal(parts[0]);
      SplitWhole(parts[0], '/');
      PartsOfNormal(parts[1..]);
      SplitFirst(parts);
    }
  }

  /** Stored files under one share are equal exactly when their addresses are. */
  lemma SameFile(share: string, a: Identity, b: Identity)
    requires PartsNormal(a) && PartsNormal(b)
    ensures ExportedFile(share, RelativeBase(a)) == ExportedFile(share, RelativeBase(b)) <==>
            AddressParts(a) == AddressParts(b)
  {
    BaseSegments(a);
    BaseSegments(b);
    ExportedFileMeaning(share, RelativeBase(a));
    ExportedFileMeaning(share, RelativeBase(b));
    if ExportedFile(share, RelativeBase(a)) == ExportedFile(share, RelativeBase(b)) {
      RenderInjective(Rooted(ExportedFile(share, RelativeBase(a))),
                      Segments(share) + Tail(RelativeBase(a)), Segments(share) + Tail(RelativeBase(b)));
      SameTail(Segments(share), Tail(RelativeBase(a)), Tail(RelativeBase(b)));
      SameHead(AddressParts(a), AddressParts(b), [ARTIFACT_FILE]);
    }
  }

  lemma SameLocation(storage: StorageLocation, a: Identity, b: Identity)
    requires PartsNormal(a) && PartsNormal(b) && LocationOf(storage, a).Some?
    ensures LocationOf(storage, a) == LocationOf(storage, b) <==> AddressParts(a) == AddressParts(b)
  {
    if storage.kind == S3_TYPE {
      var before := S3_SCHEME + storage.s3.value.bucket + "/";
      var share := TrimSlashes(storage.s3.value.prefix);
      SameFile(share, a, b);
      SameTail(before, ExportedFile(share, RelativeBase(a)), ExportedFile(share, RelativeBase(b)));
    } else {
      var before, share := NFS_SCHEME + storage.nfs.value.server, storage.nfs.value.path;
      SameFile(share, a, b);
      SameTail(before, ExportedFile(share, RelativeBase(a)), ExportedFile(share, RelativeBase(b)));
    }
  }

  /** Only the two backup kinds exist, and exactly Backup lives in a namespace. */
  predicate WellNamed(id: Identity) {
    && Normal(id.clusterId) && Normal(id.name) && Normal(id.timestamp)
    && (id.namespace == "" || Normal(id.namespace))
    && (if id.namespace == "" then id.kind == "ClusterBackup" else id.kind == "Backup")
  }

  lemma WellNamedIsNormal(id: Identity)
    requires WellNamed(id)
    ensures PartsNormal(id)
    ensures ToLower(id.kind) == if id.namespace == "" then "clusterbackup" else "backup"
  {
    KindSegments();
    FixedSegments();
    FiveNormal(id.clusterId, ToLower(id.kind), NamespaceSegment(id.namespace), id.name, id.timestamp);
  }

  lemma FiveNormal(a: string, b: string, c: string, d: string, e: string)
    requires Normal(a) && Normal(b) && Normal(c) && Normal(d) && Normal(e)
    ensures AllNormal([a, b, c, d, e]) && AllNormal([a, b, c, d])
  {
  }

  lemma KindSegments()
    ensures ToLower("Backup") == "backup"
    ensures ToLower("ClusterBackup") == "clusterbackup"
  {
    hide ToLower;
    LowerText("Backup", "backup");
    LowerText("ClusterBackup", "clusterbackup");
  }

  lemma LowerText(s: string, t: string)
    requires |s| == |t| && forall i :: 0 <= i < |s| ==> t[i] == LowerChar(s[i])
    ensures ToLower(s) == t
  {
  }

  lemma FixedSegments()
    ensures Normal("backup") && Normal("clusterbackup") && Normal("cluster")
  {
  }

  /**
   Within one storage location, locations tell identities apart. The namespace
   segment alone does not: it is the same text for no namespace and for the
   namespace "cluster".
   */
  lemma LocationsInjective(storage: StorageLocation, a: Identity, b: Identity)
    requires WellNamed(a) && WellNamed(b) && LocationOf(storage, a).Some?
    ensures LocationOf(storage, a) == LocationOf(storage, b) <==> a == b
  {
    WellNamedIsNormal(a);
    WellNamedIsNormal(b);
    SameLocation(storage, a, b);
    PartsTellIdentities(a, b);
  }

  lemma PartsTellIdentities(a: Identity, b: Identity)
    requires WellNamed(a) && WellNamed(b)
    ensures AddressParts(a) == AddressParts(b) <==> a == b
  {
    WellNamedIsNormal(a);
    WellNamedIsNormal(b);
    if AddressParts(a) == AddressParts(b) {
      var p, q := AddressParts(a), AddressParts(b);
      assert p[0] == q[0] && p[1] == q[1] && p[2] == q[2] && p[3] == q[3] && p[4] == q[4];
      assert |"backup"| != |"clusterbackup"|;
    }
  }

  // ---- Places, in full ----

  /** The segments of an artifact's place below a prefix, a share or a mount. */
  function PlaceOf(id: Identity): seq<string> {
    [id.clusterId, if id.namespace == "" then "clusterbackup" else "backup",
     if id.namespace == "" then "cluster" else id.namespace, id.name, id.timestamp, "backup.tar.gz"]
  }

  lemma PlaceIsTail(id: Identity)
    requires WellNamed(id)
    ensures Climb(RelativeBase(id)) == [] && Tail(RelativeBase(id)) == PlaceOf(id)
    ensures PlaceOf(id) == AddressParts(id) + ["backup.tar.gz"]
  {
    WellNamedIsNormal(id);
    BaseSegments(id);
  }

  /** The text between the outer slashes of a prefix. */
  ghost predicate Padded(prefix: string, core: string) {
    exists left, right :: AllSlashes(left) && AllSlashes(right) && prefix == left + core + right &&
                          (core == "" || (core[0] != '/' && core[|core| - 1] != '/'))
  }

  lemma {:induction false} LeftSlashesOff(left: string, rest: string)
    requires AllSlashes(left) && (rest == "" || rest[0] != '/')
    ensures TrimSlashesLeft(left + rest) == rest
    decreases |left|
  {
    if left == "" {
      ConcatEmpty(rest);
    } else {
      AppendHead(left, rest);
      LeftSlashesOff(left[1..], rest);
    }
  }

  lemma {:induction false} RightSlashesOff(rest: string, right: string)
    requires AllSlashes(right) && (rest == "" || rest[|rest| - 1] != '/')
    ensures TrimSlashesRight(rest + right) == rest
    decreases |right|
  {
    if right == "" {
      ConcatEmpty(rest);
    } else {
      var front := right[..|right| - 1];
      assert (rest + right)[..|rest + right| - 1] == rest + front;
      RightSlashesOff(rest, front);
    }
  }

  lemma PaddingComesOff(prefix: string, core: string)
    requires Padded(prefix, core)
    ensures TrimSlashes(prefix) == core && !Rooted(core)
  {
    var left, right :| AllSlashes(left) && AllSlashes(right) && prefix == left + core + right;
    if core == "" {
      assert prefix == (left + right) + "";
      LeftSlashesOff(left + right, "");
    } else {
      ConcatAssociates(left, core, right);
      LeftSlashesOff(left, core + right);
      RightSlashesOff(core, right);
    }
  }

  lemma RelativeFile(core: string, id: Identity)
    requires WellNamed(id) && !Rooted(core)
    ensures ExportedFile(core, RelativeBase(id)) == Join(Segments(core) + PlaceOf(id), "/")
    ensures Reduced(false, Segments(core) + PlaceOf(id)) && !Rooted(ExportedFile(core, RelativeBase(id)))
  {
    var rel := RelativeBase(id);
    WellNamedIsNormal(id);
    BaseSegments(id);
    PlaceIsTail(id);
    ExportedFileMeaning(core, rel);
    JoinMeaning([core, rel, ARTIFACT_FILE]);
    JoinMeaning([rel, ARTIFACT_FILE]);
    ShareSegments(core, rel);
    assert [core, rel, ARTIFACT_FILE][1..] == [rel, ARTIFACT_FILE];
    assert rel != "" by { JoinMeaning(AddressParts(id)); }
  }

  lemma ShareSegments(share: string, rel: string)
    requires Climb(rel) == []
    ensures ClimbedShare(share, rel) == Segments(share)
  {
  }

  /** The key of an artifact is its prefix, outer slashes aside, followed by its place. */
  lemma S3Place(prefix: string, core: string, id: Identity)
    requires Padded(prefix, core) && WellNamed(id)
    ensures S3Key(prefix, RelativeBase(id)) == Join(Segments(core) + PlaceOf(id), "/")
  {
    PaddingComesOff(prefix, core);
    RelativeFile(core, id);
  }

  /** Keys in one bucket are equal only for the same artifact under prefixes that mean the same. */
  lemma S3KeysApart(p: string, coreP: string, q: string, coreQ: string, a: Identity, b: Identity)
    requires Padded(p, coreP) && Padded(q, coreQ) && WellNamed(a) && WellNamed(b)
    ensures S3Key(p, RelativeBase(a)) == S3Key(q, RelativeBase(b)) <==> Segments(coreP) == Segments(coreQ) && a == b
  {
    S3Place(p, coreP, a);
    S3Place(q, coreQ, b);
    PaddingComesOff(p, coreP);
    PaddingComesOff(q, coreQ);
    RelativeFile(coreP, a);
    RelativeFile(coreQ, b);
    RenderInjective(false, Segments(coreP) + PlaceOf(a), Segments(coreQ) + PlaceOf(b));
    SameEnds(Segments(coreP), PlaceOf(a), Segments(coreQ), PlaceOf(b));
    PlaceIsTail(a);
    PlaceIsTail(b);
    SameHead(AddressParts(a), AddressParts(b), ["backup.tar.gz"]);
    PartsTellIdentities(a, b);
  }

  lemma SameEnds<T>(a: seq<T>, b: seq<T>, c: seq<T>, d: seq<T>)
    requires |b| == |d|
    ensures a + b == c + d <==> a == c && b == d
  {
    if a + b == c + d {
      assert |a| == |c| && a == (a + b)[..|a|] && c == (c + d)[..|c|];
      assert b == (a + b)[|a|..] && d == (c + d)[|c|..];
    }
  }

  /** The whole location of an artifact, and the file a backup worker writes for it. */
  lemma LocationInFull(storage: StorageLocation, id: Identity, core: string)
    requires WellNamed(id)
    ensures storage.kind == "s3" && storage.s3.Some? && Padded(storage.s3.value.prefix, core) ==>
              LocationOf(storage, id) ==
              Some("s3://" + storage.s3.value.bucket + "/" + Join(Segments(core) + PlaceOf(id), "/"))
    ensures storage.kind == "nfs" && storage.nfs.Some? && Rooted(storage.nfs.value.path) ==>
              LocationOf(storage, id) ==
              Some("nfs://" + storage.nfs.value.server +
                   ("/" + Join(Segments(storage.nfs.value.path) + PlaceOf(id), "/")))
  {
    if storage.kind == "s3" && storage.s3.Some? && Padded(storage.s3.value.prefix, core) {
      S3Place(storage.s3.value.prefix, core, id);
    }
    if storage.kind == "nfs" && storage.nfs.Some? && Rooted(storage.nfs.value.path) {
      PlaceIsTail(id);
      AddressIsClean(id);
      ExportedFileMeaning(storage.nfs.value.path, RelativeBase(id));
      ShareSegments(storage.nfs.value.path, RelativeBase(id));
    }
  }

  /** The file is the artifact's place below the mount; a mount that is not configured is "/data". */
  lemma MountedFile(configured: string, id: Identity)
    requires WellNamed(id)
    ensures Rooted(configured) ==>
              NfsFile(MountPath(configured), RelativeBase(id)) == "/" + Join(Segments(configured) + PlaceOf(id), "/")
    ensures configured == "" ==>
              NfsFile(MountPath(configured), RelativeBase(id)) == "/" + Join(["data"] + PlaceOf(id), "/")
  {
    PlaceIsTail(id);
    AddressIsClean(id);
    NfsFileMeaning(MountPath(configured), RelativeBase(id));
    DefaultMount();
  }

  lemma DefaultMount()
    ensures Rooted("/data") && Segments("/data") == ["data"]
  {
    assert "/data" == "/" + "data";
    RootedSplit("data");
    SplitWhole("data", '/');
    PushAllConcat(true, [], [""], ["data"]);
    PushAllOne(true, [], "");
    PushAllOne(true, [], "data");
  }

  /** Every well-named artifact on a clean share, trailing slashes allowed, is found again. */
  lemma StoredIsFound(mount: string, server: string, share: string, id: Identity)
    requires WellNamed(id) && !Contains(server, '/') && Rooted(share)
    requires TrimSlashesRight(share) == Clean(share) || AllSlashes(share)
    ensures NfsSource(MountPath(mount), share, NfsLocation(server, share, RelativeBase(id)))
         == Some(NfsFile(MountPath(mount), RelativeBase(id)))
  {
    WellNamedIsNormal(id);
    BaseSegments(id);
    ExportedFileMeaning(share, RelativeBase(id));
    NfsRoundTrip(MountPath(mount), server, share, RelativeBase(id));
    RecoverableWithoutClimbing(MountPath(mount), share, RelativeBase(id));
    TrimmedRight(share);
    BaseMeansShare(share);
    if AllSlashes(share) {
      OnlySlashes(share);
    } else if Segments(share) == [] {
      RootIsNotTrimmed(share);
    }
  }

  /** Stored files of different artifacts are different files. */
  lemma FilesApart(mount: string, a: Identity, b: Identity)
    requires mount != "" && WellNamed(a) && WellNamed(b)
    ensures NfsFile(mount, RelativeBase(a)) == NfsFile(mount, RelativeBase(b)) <==> a == b
  {
    var r, m, x, y := Rooted(mount), Segments(mount), RelativeBase(a), RelativeBase(b);
    WellNamedIsNormal(a);
    WellNamedIsNormal(b);
    BaseSegments(a);
    BaseSegments(b);
    NfsFileMeaning(mount, x);
    NfsFileMeaning(mount, y);
    RenderInjective(r, m + Tail(x), m + Tail(y));
    SameTail(m, Tail(x), Tail(y));
    SameHead(AddressParts(a), AddressParts(b), [ARTIFACT_FILE]);
    PartsTellIdentities(a, b);
  }

  /** The files after copying one path after another to its own target. */
  function StoreAll(files: map<string, string>, targets: seq<string>, paths: seq<string>): (r: map<string, string>)
    requires |targets| == |paths| && forall i :: 0 <= i < |paths| ==> paths[i] in files
    ensures files.Keys <= r.Keys
  {
    if targets == [] then files
    else
      var n := |targets| - 1;
      Copied(StoreAll(files, targets[..n], paths[..n]), paths[n], targets[n])
  }

  /** Every target holds the bytes of its path, and everything else is as it was. */
  ghost predicate Holds(stored: map<string, string>, files: map<string, string>, targets: seq<string>,
                        paths: seq<string>)
    requires |targets| == |paths| && forall i :: 0 <= i < |paths| ==> paths[i] in files
  {
    && (forall i :: 0 <= i < |targets| ==> targets[i] in stored && stored[targets[i]] == files[paths[i]])
    && (forall p :: p in files && p !in targets ==> p in stored && stored[p] == files[p])
  }

  /** Paths that exist, and targets apart from each other and from the paths. */
  ghost predicate Separate(files: map<string, string>, targets: seq<string>, paths: seq<string>) {
    && |targets| == |paths| && (forall i :: 0 <= i < |paths| ==> paths[i] in files)
    && (forall i, j :: 0 <= i < j < |targets| ==> targets[i] != targets[j])
    && (forall i, j :: 0 <= i < |paths| && 0 <= j < |targets| ==> paths[i] != targets[j])
  }

  /** Then every target holds what was copied there. */
  lemma {:induction false} StoresKeepApart(files: map<string, string>, targets: seq<string>, paths: seq<string>)
    requires Separate(files, targets, paths)
    ensures Holds(StoreAll(files, targets, paths), files, targets, paths)
    decreases |targets|
  {
    if targets != [] {
      var n := |targets| - 1;
      SeparateFront(files, targets, paths, n);
      StoresKeepApart(files, targets[..n], paths[..n]);
      OneMoreHolds(StoreAll(files, targets[..n], paths[..n]), files, targets, paths, n);
    }
  }

  lemma SeparateFront(files: map<string, string>, targets: seq<string>, paths: seq<string>, n: nat)
    requires Separate(files, targets, paths) && n <= |targets|
    ensures Separate(files, targets[..n], paths[..n])
  {
    assert forall i :: 0 <= i < n ==> targets[..n][i] == targets[i] && paths[..n][i] == paths[i];
  }

  lemma OneMoreHolds(stored: map<string, string>, files: map<string, string>, targets: seq<string>,
                     paths: seq<string>, n: nat)
    requires |targets| == n + 1 && Separate(files, targets, paths)
    requires Holds(stored, files, targets[..n], paths[..n]) && paths[n] in stored
    ensures Holds(Copied(stored, paths[n], targets[n]), files, targets, paths)
  {
    assert paths[n] !in targets;
    forall p ensures p in targets[..n] ==> p in targets { InFront(targets, n, p); }
    forall i | 0 <= i < n ensures targets[i] in stored && stored[targets[i]] == files[paths[i]] {
      assert targets[..n][i] == targets[i] && paths[..n][i] == paths[i];
    }
  }

  lemma InFront<T>(s: seq<T>, n: nat, x: T)
    requires n <= |s|
    ensures x in s[..n] ==> x in s
  {
    if x in s[..n] {
      var i :| 0 <= i < n && s[..n][i] == x;
      assert s[i] == x;
    }
  }

  /** Different, well-named artifacts. */
  ghost predicate AllDifferent(ids: seq<Identity>) {
    && (forall k :: 0 <= k < |ids| ==> WellNamed(ids[k]))
    && (forall k, l :: 0 <= k < l < |ids| ==> ids[k] != ids[l])
  }

  /** Where the artifacts are stored below a mount. */
  function FilesOf(mount: string, ids: seq<Identity>): (r: seq<string>)
    ensures |r| == |ids| && forall i :: 0 <= i < |ids| ==> r[i] == NfsFile(mount, RelativeBase(ids[i]))
  {
    seq(|ids|, i requires 0 <= i < |ids| => NfsFile(mount, RelativeBase(ids[i])))
  }

  /**
   After any sequence of stores of different well-named artifacts on a clean share,
   the location of each leads to a file that holds that artifact's own bytes.
   */
  lemma EveryArtifactComesBack(files: map<string, string>, mount: string, server: string, share: string,
                               ids: seq<Identity>, paths: seq<string>, i: nat)
    requires AllDifferent(ids) && |ids| == |paths| && forall k :: 0 <= k < |paths| ==> paths[k] in files
    requires (forall p :: p in paths ==> p !in FilesOf(MountPath(mount), ids)) && i < |ids|
    requires !Contains(server, '/') && Rooted(share)
    requires TrimSlashesRight(share) == Clean(share) || AllSlashes(share)
    ensures var stored := StoreAll(files, FilesOf(MountPath(mount), ids), paths);
            var source := NfsSource(MountPath(mount), share, NfsLocation(server, share, RelativeBase(ids[i])));
            source.Some? && source.value in stored && stored[source.value] == files[paths[i]]
  {
    hide FilesOf, WellNamed, NfsFile, NfsSource, NfsLocation, RelativeBase, Clean, Contains, AllSlashes;
    var targets := FilesOf(MountPath(mount), ids);
    forall k, l | 0 <= k < l < |targets| ensures targets[k] != targets[l] {
      FilesApart(MountPath(mount), ids[k], ids[l]);
    }
    assert forall k :: 0 <= k < |paths| ==> paths[k] in paths;
    StoresKeepApart(files, targets, paths);
    StoredIsFound(mount, server, share, ids[i]);
  }

  // ---- Many stores ----

  /** What surrounds one store: the secret, the upload, the directory and the copy. */
  datatype Surroundings = Surroundings(secretRead: bool, upload: Fault, directoryMade: bool, fault: CopyFault)

  predicate Smoothly(env: Surroundings) {
    env.secretRead && env.upload == NoFault && env.directoryMade && env.fault == Smooth
  }

  /** Storage whose locations are read back, as far as it is configured. */
  predicate ReadsBack(storage: StorageLocation) {
    && (storage.kind == S3_TYPE && storage.s3.Some? ==> !Contains(storage.s3.value.bucket, '/'))
    && (storage.kind == NFS_TYPE && storage.nfs.Some? ==>
          && !Contains(storage.nfs.value.server, '/') && Rooted(storage.nfs.value.path)
          && (TrimSlashesRight(storage.nfs.value.path) == Clean(storage.nfs.value.path)
              || AllSlashes(storage.nfs.value.path)))
  }

  function ObjectOf(storage: StorageLocation, id: Identity): (string, string)
    requires storage.s3.Some?
  {
    (storage.s3.value.bucket, S3Key(storage.s3.value.prefix, RelativeBase(id)))
  }

  /** The artifact's own place holds the bytes. */
  ghost predicate Placed(storage: StorageLocation, mount: string, id: Identity, bytes: string,
                         files: map<string, string>, objects: map<(string, string), string>) {
    if storage.kind == S3_TYPE then
      storage.s3.Some? && ObjectOf(storage, id) in objects && objects[ObjectOf(storage, id)] == bytes
    else
      && storage.kind == NFS_TYPE && storage.nfs.Some?
      && var file := NfsFile(MountPath(mount), RelativeBase(id)); file in files && files[file] == bytes
  }

  /** What a load by the location reads. */
  ghost predicate LeadsTo(storage: StorageLocation, mount: string, location: string, bytes: string,
                          files: map<string, string>, objects: map<(string, string), string>) {
    if storage.kind == S3_TYPE then
      var address := ParseS3Location(location);
      address.Some? && address.value in objects && objects[address.value] == bytes
    else
      && storage.nfs.Some?
      && var source := NfsSource(MountPath(mount), storage.nfs.value.path, location);
      source.Some? && source.value in files && files[source.value] == bytes
  }

  lemma PlacedIsReadBack(storage: StorageLocation, mount: string, id: Identity, location: string, bytes: string,
                         files: map<string, string>, objects: map<(string, string), string>)
    requires ReadsBack(storage) && WellNamed(id) && LocationOf(storage, id) == Some(location)
    requires Placed(storage, mount, id, bytes, files, objects)
    ensures LeadsTo(storage, mount, location, bytes, files, objects)
  {
    hide NfsFile, NfsSource, S3Key, NfsLocation, S3Location, ParseS3Location, RelativeBase, WellNamed, Clean;
    if storage.kind == S3_TYPE {
      S3RoundTrip(storage.s3.value.bucket, S3Key(storage.s3.value.prefix, RelativeBase(id)));
    } else {
      StoredIsFound(mount, storage.nfs.value.server, storage.nfs.value.path, id);
    }
  }

  /** At most the artifact's own place differs. */
  ghost predicate OnlyAt(storage: StorageLocation, mount: string, id: Identity,
                         files: map<string, string>, objects: map<(string, string), string>,
                         files': map<string, string>, objects': map<(string, string), string>) {
    if storage.kind == NFS_TYPE then
      objects' == objects && var file := NfsFile(MountPath(mount), RelativeBase(id)); files' - {file} == files - {file}
    else
      && files' == files
      && (objects' == objects
          || (storage.s3.Some?
              && var key := ObjectOf(storage, id); objects' - {key} == objects - {key}))
  }

  lemma OthersStayPlaced(storage: StorageLocation, mount: string, a: Identity, b: Identity, bytes: string,
                         files: map<string, string>, objects: map<(string, string), string>,
                         files': map<string, string>, objects': map<(string, string), string>)
    requires WellNamed(a) && WellNamed(b) && a != b
    requires Placed(storage, mount, a, bytes, files, objects)
    requires OnlyAt(storage, mount, b, files, objects, files', objects')
    ensures Placed(storage, mount, a, bytes, files', objects')
  {
    hide NfsFile, S3Key, RelativeBase, WellNamed;
    if storage.kind == S3_TYPE {
      ObjectsApart(storage.s3.value.prefix, a, b);
      KeptApart(objects, objects', ObjectOf(storage, a), ObjectOf(storage, b));
    } else {
      FilesApart(MountPath(mount), a, b);
      KeptApart(files, files', NfsFile(MountPath(mount), RelativeBase(a)), NfsFile(MountPath(mount), RelativeBase(b)));
    }
  }

  lemma KeptApart<K, V>(m: map<K, V>, m': map<K, V>, k: K, other: K)
    requires k in m && k != other && (m' == m || m' - {other} == m - {other})
    ensures k in m' && m'[k] == m[k]
  {
    if m' != m { SameBut(m, m', other, k); }
  }

  /** Objects of different artifacts have different keys. */
  lemma ObjectsApart(prefix: string, a: Identity, b: Identity)
    requires WellNamed(a) && WellNamed(b)
    ensures S3Key(prefix, RelativeBase(a)) == S3Key(prefix, RelativeBase(b)) <==> a == b
  {
    hide WellNamed, RelativeBase, AddressParts;
    WellNamedIsNormal(a);
    WellNamedIsNormal(b);
    SameFile(TrimSlashes(prefix), a, b);
    PartsTellIdentities(a, b);
  }

  /** A store that succeeded returned the artifact's location, and the artifact is in its place. */
  ghost predicate StoredAs(storage: StorageLocation, mount: string, id: Identity, path: string,
                           was: map<string, string>, r: Result<string, StorageError>,
                           files: map<string, string>, objects: map<(string, string), string>) {
    r.Success? ==>
      && path in was && LocationOf(storage, id) == Some(r.value)
      && Placed(storage, mount, id, was[path], files, objects)
  }

  /** Nothing that is not a place of one of the artifacts differs. */
  ghost predicate SameElsewhere(storage: StorageLocation, mount: string, ids: seq<Identity>,
                                files: map<string, string>, files': map<string, string>) {
    forall p :: storage.kind != NFS_TYPE || p !in FilesOf(MountPath(mount), ids) ==>
      (p in files' <==> p in files) && (p in files ==> files'[p] == files[p])
  }

  /** One store puts the artifact in its place and touches nothing else. */
  method StoreOne(st: Storage, storage: StorageLocation, mount: string, id: Identity, path: string,
                  env: Surroundings)
    returns (r: Result<string, StorageError>)
    requires storage.kind == NFS_TYPE ==> path != NfsFile(MountPath(mount), RelativeBase(id))
    modifies st
    ensures StoredAs(storage, mount, id, path, old(st.files), r, st.files, st.objects)
    ensures OnlyAt(storage, mount, id, old(st.files), old(st.objects), st.files, st.objects)
    ensures path in old(st.files) && Smoothly(env) ==> (r.Success? <==> LocationOf(storage, id).Some?)
  {
    hide RelativeBase, NfsFile, S3Key, MountPath;
    r := st.StoreArtifact(storage, mount, id, path, env.secretRead, env.upload, env.directoryMade, env.fault);
  }

  lemma StillElsewhere(storage: StorageLocation, mount: string, ids: seq<Identity>, n: nat,
                       was: map<string, string>, files: map<string, string>, objects: map<(string, string), string>,
                       files': map<string, string>, objects': map<(string, string), string>)
    requires n < |ids| && SameElsewhere(storage, mount, ids, was, files)
    requires OnlyAt(storage, mount, ids[n], files, objects, files', objects')
    ensures SameElsewhere(storage, mount, ids, was, files')
  {
    hide NfsFile, RelativeBase, MountPath;
    if storage.kind == NFS_TYPE {
      var targets, file := FilesOf(MountPath(mount), ids), NfsFile(MountPath(mount), RelativeBase(ids[n]));
      assert targets[n] == file;
      forall p | p !in targets ensures (p in files' <==> p in was) && (p in was ==> files'[p] == was[p]) {
        SameBut(files, files', file, p);
      }
    }
  }

  lemma SameBut<K, V>(m: map<K, V>, m': map<K, V>, other: K, k: K)
    requires m' - {other} == m - {other} && k != other
    ensures (k in m' <==> k in m) && (k in m ==> m'[k] == m[k])
  {
    assert k in m - {other} <==> k in m;
    assert k in m' - {other} <==> k in m';
    if k in m { assert (m - {other})[k] == m[k] && (m' - {other})[k] == m'[k]; }
  }

  lemma StillStored(storage: StorageLocation, mount: string, a: Identity, b: Identity, path: string,
                    was: map<string, string>, r: Result<string, StorageError>,
                    files: map<string, string>, objects: map<(string, string), string>,
                    files': map<string, string>, objects': map<(string, string), string>)
    requires WellNamed(a) && WellNamed(b) && a != b && StoredAs(storage, mount, a, path, was, r, files, objects)
    requires OnlyAt(storage, mount, b, files, objects, files', objects')
    ensures StoredAs(storage, mount, a, path, was, r, files', objects')
  {
    hide WellNamed, Placed, OnlyAt, LocationOf;
    if r.Success? { OthersStayPlaced(storage, mount, a, b, was[path], files, objects, files', objects'); }
  }

  /**
   Any stores of different artifacts, one after another, some failing at any point:
   each location that was returned then leads to its own artifact's bytes, on NFS and
   on S3. Without faults a location is returned wherever there is one.
   */
  method StoreEach(st: Storage, storage: StorageLocation, mount: string, ids: seq<Identity>, paths: seq<string>,
                   env: seq<Surroundings>)
    returns (results: seq<Result<string, StorageError>>)
    requires |ids| == |paths| == |env| && ReadsBack(storage) && AllDifferent(ids)
    requires storage.kind == NFS_TYPE ==> forall p :: p in paths ==> p !in FilesOf(MountPath(mount), ids)
    modifies st
    ensures |results| == |ids|
    ensures forall i :: 0 <= i < |ids| && results[i].Success? ==>
              && paths[i] in old(st.files)
              && LeadsTo(storage, mount, results[i].value, old(st.files)[paths[i]], st.files, st.objects)
    ensures forall i :: 0 <= i < |ids| && paths[i] in old(st.files) && Smoothly(env[i]) ==>
              (results[i].Success? <==> LocationOf(storage, ids[i]).Some?)
    ensures SameElsewhere(storage, mount, ids, old(st.files), st.files)
  {
    hide Placed, LeadsTo, NfsFile, LocationOf, RelativeBase, WellNamed, ReadsBack, OnlyAt, MountPath;
    ghost var was := st.files;
    results := [];
    var i := 0;
    while i < |ids|
      invariant 0 <= i <= |ids| && |results| == i
      invariant SameElsewhere(storage, mount, ids, was, st.files)
      invariant forall j :: 0 <= j < i ==>
                  StoredAs(storage, mount, ids[j], paths[j], was, results[j], st.files, st.objects)
      invariant forall j :: 0 <= j < i && paths[j] in was && Smoothly(env[j]) ==>
                  (results[j].Success? <==> LocationOf(storage, ids[j]).Some?)
    {
      ghost var files, objects := st.files, st.objects;
      assert paths[i] in paths;
      PathIsKept(storage, mount, ids, i, paths[i], was, files);
      var r := StoreOne(st, storage, mount, ids[i], paths[i], env[i]);
      StillElsewhere(storage, mount, ids, i, was, files, objects, st.files, st.objects);
      forall j | 0 <= j < i
        ensures StoredAs(storage, mount, ids[j], paths[j], was, results[j], st.files, st.objects)
      {
        StillStored(storage, mount, ids[j], ids[i], paths[j], was, results[j], files, objects, st.files, st.objects);
      }
      results := results + [r];
      i := i + 1;
    }
    forall j | 0 <= j < |ids| && results[j].Success?
      ensures paths[j] in was && LeadsTo(storage, mount, results[j].value, was[paths[j]], st.files, st.objects)
    {
      assert StoredAs(storage, mount, ids[j], paths[j], was, results[j], st.files, st.objects);
      PlacedIsReadBack(storage, mount, ids[j], results[j].value, was[paths[j]], st.files, st.objects);
    }
  }

  lemma PathIsKept(storage: StorageLocation, mount: string, ids: seq<Identity>, n: nat, path: string,
                   was: map<string, string>, files: map<string, string>)
    requires n < |ids| && SameElsewhere(storage, mount, ids, was, files)
    requires storage.kind == NFS_TYPE ==> path !in FilesOf(MountPath(mount), ids)
    ensures (path in files <==> path in was) && (path in was ==> files[path] == was[path])
    ensures storage.kind == NFS_TYPE ==> path != NfsFile(MountPath(mount), RelativeBase(ids[n]))
  {
    hide NfsFile, RelativeBase, MountPath;
    assert FilesOf(MountPath(mount), ids)[n] == NfsFile(MountPath(mount), RelativeBase(ids[n]));
  }

  lemma {:induction false} OnlySlashes(s: string)
    requires AllSlashes(s)
    ensures TrimSlashesRight(s) == ""
    decreases |s|
  {
    if s != "" { OnlySlashes(s[..|s| - 1]); }
  }

  lemma RootIsNotTrimmed(share: string)
    requires Rooted(share) && Segments(share) == []
    ensures TrimSlashesRight(share) != Clean(share)
  {
    TrimmedRight(share);
    assert Clean(share) == "/";
  }

  /** An address that climbs by one segment and goes on with normal ones. */
  predicate ClimbsOnce(rel: string, next: string) {
    && CleanPath(rel) && |Segments(rel)| > 1
    && Segments(rel)[0] == ".." && Segments(rel)[1] == next && next != ".."
  }

  /**
   Climbing by one segment: the artifact is found exactly if the next segment is the
   last of the mount and, up to a final ".", the last of the share.
   */
  lemma FoundClimbingOnce(mount: string, server: string, share: string, rel: string, next: string)
    requires ClimbsOnce(rel, next) && !Contains(server, '/')
    requires Rooted(mount) && Segments(mount) != [] && Rooted(share) && Segments(share) != []
    requires TrimSlashesRight(share) == Clean(share)
    ensures var m, e := Segments(mount), Segments(share);
            NfsSource(mount, share, NfsLocation(server, share, rel)) == Some(NfsFile(mount, rel)) <==>
            m[|m| - 1] == next && (next == e[|e| - 1] || next == e[|e| - 1] + ".")
  {
    hide NfsSource, NfsFile, NfsLocation, Recoverable, Rejoins, Climb, Tail, ClimbsOnce, Clean;
    ClimbsOnceMeans(rel, next);
    NfsRoundTrip(mount, server, share, rel);
    RecoverableClimbing(mount, share, rel);
    RejoinsOnce(Segments(mount), Segments(share), Tail(rel));
  }

  lemma ClimbsOnceMeans(rel: string, next: string)
    requires ClimbsOnce(rel, next)
    ensures CleanPath(rel) && |Climb(rel)| == 1 && Climb(rel) != [] && Tail(rel) != [] && Tail(rel)[0] == next
  {
    var st := Segments(rel);
    assert st[1..][0] == next && LeadingDots(st[1..]) == 0 && LeadingDots(st) == 1;
  }

  lemma RejoinsOnce(here: seq<string>, share: seq<string>, tail: seq<string>)
    requires here != [] && share != [] && tail != []
    ensures Rejoins(here, share, 1, tail) <==>
            here[|here| - 1] == tail[0] &&
            (tail[0] == share[|share| - 1] || tail[0] == share[|share| - 1] + ".")
  {
    assert tail[..1] == [tail[0]];
    assert here[|here| - 1..] == [here[|here| - 1]] && share[|share| - 1..] == [share[|share| - 1]];
    assert [share[|share| - 1]][..0] == [tail[0]][..0];
  }

  lemma ClimbingSegments(id: Identity, middle: seq<string>, rest: seq<string>)
    requires AddressParts(id) == [id.clusterId] + rest && id.clusterId != "" && !Rooted(id.clusterId)
    requires Split(id.clusterId, '/') == [".."] + middle && AllNormal(middle) && AllNormal(rest)
    ensures CleanPath(RelativeBase(id)) && Segments(RelativeBase(id)) == [".."] + (middle + rest)
  {
    var parts := AddressParts(id);
    AddressIsClean(id);
    JoinMeaning(parts);
    ConsParts(id.clusterId, rest);
    PartsOfNormal(rest);
    ConcatAssociates([".."], middle, rest);
    NormalConcat(middle, rest);
    ReducedWithNormal(false, [".."], middle + rest);
    ConcatEmpty([".."] + (middle + rest));
    PushReduced(false, [], [".."] + (middle + rest));
  }

  lemma NormalConcat(a: seq<string>, b: seq<string>)
    requires AllNormal(a) && AllNormal(b)
    ensures AllNormal(a + b)
  {
  }

  /** The segments after the cluster identifier. */
  lemma OtherParts(id: Identity) returns (rest: seq<string>)
    requires id.kind == "Backup" && Normal(id.namespace) && Normal(id.name) && Normal(id.timestamp)
    ensures AddressParts(id) == [id.clusterId] + rest && AllNormal(rest) && rest != [] && rest[0] == "backup"
  {
    KindSegments();
    FixedSegments();
    rest := [ToLower(id.kind), id.namespace, id.name, id.timestamp];
    FiveNormal(ToLower(id.kind), id.namespace, id.name, id.timestamp, id.timestamp);
    FirstOfFive(id.clusterId, ToLower(id.kind), id.namespace, id.name, id.timestamp);
  }

  lemma FirstOfFive<T>(p: T, a: T, b: T, c: T, d: T)
    ensures [p, a, b, c, d] == [p] + [a, b, c, d] && [a, b, c, d][0] == a
  {
  }

  /** The cluster identifier ".." makes an address climb out of its directory. */
  lemma ParentClimbs(id: Identity)
    requires id.clusterId == ".." && id.kind == "Backup"
    requires Normal(id.namespace) && Normal(id.name) && Normal(id.timestamp)
    ensures ClimbsOnce(RelativeBase(id), "backup")
  {
    var rest := OtherParts(id);
    assert !Contains("..", '/');
    SplitWhole("..", '/');
    ConcatEmpty([".."]);
    ConcatEmpty(rest);
    ClimbingSegments(id, [], rest);
    ConsParts("..", rest);
    StartsWith(rest);
  }

  /** So does "../data", which is found again where mount and share end in "data". */
  lemma SiblingClimbs(id: Identity, sibling: string)
    requires id.clusterId == ".." + "/" + sibling && Normal(sibling) && id.kind == "Backup"
    requires Normal(id.namespace) && Normal(id.name) && Normal(id.timestamp)
    ensures ClimbsOnce(RelativeBase(id), sibling)
  {
    var rest := OtherParts(id);
    assert !Contains("..", '/');
    SplitWhole("..", '/');
    SplitWhole(sibling, '/');
    SplitConcat("..", sibling, '/');
    assert id.clusterId[0] == '.';
    assert AllNormal([sibling]);
    ClimbingSegments(id, [sibling], rest);
    ConsParts("..", [sibling] + rest);
    ConsParts(sibling, rest);
    StartsWith([sibling] + rest);
  }

  lemma StartsWith(rest: seq<string>)
    requires rest != []
    ensures |[".."] + rest| > 1 && ([".."] + rest)[0] == ".." && ([".."] + rest)[1] == rest[0]
  {
  }
}
