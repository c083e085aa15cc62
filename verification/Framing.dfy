/**
 The document stream inside an artifact: "---" lines between documents
 (section 9.2 of YAML 1.2.2), written by export and split again by restore.
 */
module Framing {
  import opened Seqs
  import opened Wrappers
  import opened Trees

  const SEPARATOR := "---\n"

  /** Lines with their newline; only the last one may lack it. */
  function Lines(s: string): (lines: seq<string>)
    ensures s != "" ==> lines != [] && lines[0] != ""
  {
    if s == "" then []
    else if s[0] == '\n' then ["\n"] + Lines(s[1..])
    else
      var rest := Lines(s[1..]);
      if rest == [] then [[s[0]]] else [[s[0]] + rest[0]] + rest[1..]
  }

  predicate IsBlank(c: char) { c == ' ' || '\t' <= c <= '\r' }

  /** A separator line: "---" and nothing but blanks after it. */
  predicate IsMarker(line: string) {
    "---" <= line && forall i :: 3 <= i < |line| ==> IsBlank(line[i])
  }

  function Pending(buffer: string): seq<string> { if buffer == "" then [] else [buffer] }

  /** Collects lines into a buffer; a marker line closes a non-empty buffer. */
  function SplitLines(lines: seq<string>, buffer: string): seq<string> {
    if lines == [] then Pending(buffer)
    else if IsMarker(lines[0]) then Pending(buffer) + SplitLines(lines[1..], "")
    else SplitLines(lines[1..], buffer + lines[0])
  }

  predicate Terminated(s: string) { s != "" && s[|s| - 1] == '\n' }

  /** A text with its last line ended. */
  function Closed(s: string): string { if s == "" || Terminated(s) then s else s + "\n" }

  /** The documents of a stream; the reader ends the last line if the stream does not. */
  function Documents(stream: string): seq<string> { SplitLines(Lines(Closed(stream)), "") }

  /** The stream export writes; empty documents are left out. */
  function Frame(docs: seq<string>): string {
    if docs == [] then ""
    else if docs[0] == "" then Frame(docs[1..])
    else SEPARATOR + docs[0] + Frame(docs[1..])
  }

  predicate MarkerFree(s: string) {
    forall i :: 0 <= i < |Lines(s)| ==> !IsMarker(Lines(s)[i])
  }

  predicate IsDocument(s: string) { s != "" && MarkerFree(s) }

  ghost predicate AreDocuments(docs: seq<string>) {
    forall i :: 0 <= i < |docs| ==> IsDocument(docs[i])
  }

  /** The documents with the last line of the last one ended. */
  function ClosedLast(docs: seq<string>): seq<string> {
    if docs == [] then [] else docs[..|docs| - 1] + [Closed(docs[|docs| - 1])]
  }

  /** Every document but the last ends its line. */
  ghost predicate LinesClosed(docs: seq<string>) {
    forall i :: 0 <= i < |docs| - 1 ==> Terminated(docs[i])
  }

  // ---- Lines ----

  lemma {:induction false} LinesAppend(a: string, b: string)
    requires a == "" || Terminated(a)
    ensures Lines(a + b) == Lines(a) + Lines(b)
    decreases |a|
  {
    if a == "" {
      ConcatEmpty(b);
      ConcatEmpty(Lines(b));
    } else {
      AppendHead(a, b);
      LinesAppend(a[1..], b);
      var rest, tail := Lines(a[1..]), Lines(b);
      if a[0] == '\n' {
        ConcatAssociates(["\n"], rest, tail);
      } else {
        assert |a| > 1;
        AppendHead(rest, tail);
        ConcatAssociates([[a[0]] + rest[0]], rest[1..], tail);
      }
    }
  }

  lemma {:induction false} LineWithoutBreak(s: string)
    requires s != "" && forall i :: 0 <= i < |s| - 1 ==> s[i] != '\n'
    ensures Lines(s) == [s]
    decreases |s|
  {
    if |s| == 1 {
      assert s[1..] == "";
      assert s == [s[0]];
    } else {
      LineWithoutBreak(s[1..]);
      assert s == [s[0]] + s[1..];
    }
  }

  /** The text before the open last line of an unterminated text. */
  ghost function ClosedPart(s: string): (r: string)
    ensures r <= s && (r == "" || Terminated(r))
    ensures forall i :: |r| <= i < |s| ==> s[i] != '\n'
  {
    if s == "" || s[|s| - 1] == '\n' then s
    else ClosedPart(s[..|s| - 1])
  }

  // ---- Splitting ----

  lemma {:induction false} SplitFreeLines(free: seq<string>, rest: seq<string>, buffer: string)
    requires forall i :: 0 <= i < |free| ==> !IsMarker(free[i])
    ensures SplitLines(free + rest, buffer) == SplitLines(rest, buffer + Concat(free))
    decreases |free|
  {
    if free == [] {
      assert free + rest == rest && buffer + "" == buffer;
    } else {
      assert (free + rest)[0] == free[0] && (free + rest)[1..] == free[1..] + rest;
      SplitFreeLines(free[1..], rest, buffer + free[0]);
      assert buffer + free[0] + Concat(free[1..]) == buffer + (free[0] + Concat(free[1..]));
    }
  }

  function Concat(parts: seq<string>): string {
    if parts == [] then "" else parts[0] + Concat(parts[1..])
  }

  lemma {:induction false} ConcatLines(s: string)
    ensures Concat(Lines(s)) == s
    decreases |s|
  {
    if s != "" {
      ConcatLines(s[1..]);
      assert s == [s[0]] + s[1..];
      var rest := Lines(s[1..]);
      if s[0] == '\n' {
        assert (["\n"] + rest)[1..] == rest;
      } else if rest == [] {
        assert [[s[0]]][1..] == [];
      } else {
        assert ([[s[0]] + rest[0]] + rest[1..])[1..] == rest[1..];
        assert [s[0]] + rest[0] + Concat(rest[1..]) == [s[0]] + (rest[0] + Concat(rest[1..]));
      }
    }
  }

  lemma SplitDocument(d: string, rest: seq<string>)
    requires MarkerFree(d)
    ensures SplitLines(Lines(d) + rest, "") == SplitLines(rest, d)
  {
    SplitFreeLines(Lines(d), rest, "");
    ConcatLines(d);
    assert "" + d == d;
  }

  lemma MarkerLine(s: string)
    ensures Lines(SEPARATOR + s) == [SEPARATOR] + Lines(s)
    ensures IsMarker(SEPARATOR)
  {
    LineWithoutBreak(SEPARATOR);
    LinesAppend(SEPARATOR, s);
  }

  /** Splitting a stream of well-closed documents gives them back, in order. */
  lemma {:induction false} FrameSplits(docs: seq<string>, buffer: string)
    requires AreDocuments(docs) && LinesClosed(docs)
    ensures SplitLines(Lines(Frame(docs)), buffer) == Pending(buffer) + docs
    decreases |docs|
  {
    if docs == [] {
      assert Pending(buffer) + docs == Pending(buffer);
    } else {
      var d, rest := docs[0], docs[1..];
      var tail := d + Frame(rest);
      assert SEPARATOR + d + Frame(rest) == SEPARATOR + tail;
      MarkerLine(tail);
      assert ([SEPARATOR] + Lines(tail))[1..] == Lines(tail);
      if rest == [] {
        assert tail == d;
        SplitDocument(d, []);
        assert Lines(d) + [] == Lines(d);
        assert docs == [d];
      } else {
        assert forall i :: 0 <= i < |rest| - 1 ==> rest[i] == docs[i + 1];
        LinesAppend(d, Frame(rest));
        SplitDocument(d, Lines(Frame(rest)));
        FrameSplits(rest, d);
        assert docs == [d] + rest;
      }
    }
  }

  // ---- Exactness: an unclosed line loses a document ----

  /** The lines of a text whose last line is open, glued to a separator and more text. */
  lemma GluedLines(d: string, e: string)
    requires d != "" && !Terminated(d)
    ensures var closed := ClosedPart(d); var open := d[|closed|..];
            && open != ""
            && Lines(d) == Lines(closed) + [open]
            && Lines(d + SEPARATOR + e) == Lines(closed) + ([open + SEPARATOR] + Lines(e))
  {
    hide Lines;
    var closed := ClosedPart(d);
    var open := d[|closed|..];
    var glued := open + SEPARATOR;
    OpenPart(d, closed);
    ConcatAssociates(closed, open, SEPARATOR);
    ConcatAssociates(closed, glued, e);
    LinesAppend(closed, open);
    LineWithoutBreak(open);
    LinesAppend(closed, glued + e);
    GluedLine(open);
    LinesAppend(glued, e);
  }

  lemma OpenPart(d: string, closed: string)
    requires closed <= d && (closed == "" || Terminated(closed)) && d != "" && !Terminated(d)
    requires forall i :: |closed| <= i < |d| ==> d[i] != '\n'
    ensures var open := d[|closed|..];
            && open != "" && d == closed + open
            && forall i :: 0 <= i < |open| ==> open[i] != '\n'
  {
  }

  lemma GluedLine(open: string)
    requires forall i :: 0 <= i < |open| ==> open[i] != '\n'
    ensures Lines(open + SEPARATOR) == [open + SEPARATOR] && Terminated(open + SEPARATOR)
  {
    hide Lines, Terminated;
    SeparatorEndsOnce();
    EndsOnce(open, SEPARATOR);
  }

  lemma SeparatorEndsOnce()
    ensures Terminated(SEPARATOR) && forall i :: 0 <= i < |SEPARATOR| - 1 ==> SEPARATOR[i] != '\n'
  {
  }

  /** A text without line breaks before one that ends in its only line break is one line. */
  lemma EndsOnce(a: string, b: string)
    requires forall i :: 0 <= i < |a| ==> a[i] != '\n'
    requires Terminated(b) && forall i :: 0 <= i < |b| - 1 ==> b[i] != '\n'
    ensures Lines(a + b) == [a + b] && Terminated(a + b)
  {
    hide Lines;
    var s := a + b;
    forall i | 0 <= i < |s| - 1 ensures s[i] != '\n' {
      if i >= |a| { assert s[i] == b[i - |a|]; }
    }
    LineWithoutBreak(s);
  }

  lemma FreeAround(a: seq<string>, x: string, b: seq<string>)
    requires forall i :: 0 <= i < |a| ==> !IsMarker(a[i])
    requires !IsMarker(x)
    requires forall i :: 0 <= i < |b| ==> !IsMarker(b[i])
    ensures forall i :: 0 <= i < |a + ([x] + b)| ==> !IsMarker((a + ([x] + b))[i])
  {
  }

  /** Two documents around a marker that does not start a line are one document. */
  lemma MergedIsDocument(d: string, e: string)
    requires IsDocument(d) && IsDocument(e) && !Terminated(d)
    ensures IsDocument(d + SEPARATOR + e)
  {
    GluedLines(d, e);
    var closed := ClosedPart(d);
    var open := d[|closed|..];
    assert Lines(d)[|Lines(closed)|] == open;
    GluedIsNoMarker(open);
    forall i | 0 <= i < |Lines(closed)| ensures !IsMarker(Lines(closed)[i]) {
      assert Lines(d)[i] == Lines(closed)[i];
    }
    FreeAround(Lines(closed), open + SEPARATOR, Lines(e));
  }

  lemma GluedIsNoMarker(open: string)
    requires open != "" && !IsMarker(open)
    ensures !IsMarker(open + SEPARATOR)
  {
    var glued := open + SEPARATOR;
    assert glued[|open| + 2] == '-' && !IsBlank(glued[|open| + 2]);
  }

  lemma {:induction false} FrameAppend(a: seq<string>, b: seq<string>)
    ensures Frame(a + b) == Frame(a) + Frame(b)
    decreases |a|
  {
    if a == [] {
      assert a + b == b && "" + Frame(b) == Frame(b);
    } else {
      assert (a + b)[0] == a[0] && (a + b)[1..] == a[1..] + b;
      FrameAppend(a[1..], b);
      if a[0] != "" {
        assert SEPARATOR + a[0] + (Frame(a[1..]) + Frame(b)) == SEPARATOR + a[0] + Frame(a[1..]) + Frame(b);
      }
    }
  }

  lemma FrameOne(d: string)
    requires d != ""
    ensures Frame([d]) == SEPARATOR + d
  {
  }

  lemma MergeSameFrame(docs: seq<string>, i: nat)
    requires AreDocuments(docs) && i + 1 < |docs| && !Terminated(docs[i])
    ensures var merged := docs[..i] + [docs[i] + SEPARATOR + docs[i + 1]] + docs[i + 2..];
            AreDocuments(merged) && Frame(merged) == Frame(docs)
  {
    var d, e := docs[i], docs[i + 1];
    MergedIsDocument(d, e);
    var m := d + SEPARATOR + e;
    FrameOne(m);
    FrameOne(d);
    FrameOne(e);
    assert docs == docs[..i] + [d] + [e] + docs[i + 2..];
    FrameAppend(docs[..i] + [m], docs[i + 2..]);
    FrameAppend(docs[..i], [m]);
    FrameAppend(docs[..i] + [d] + [e], docs[i + 2..]);
    FrameAppend(docs[..i] + [d], [e]);
    FrameAppend(docs[..i], [d]);
    assert SEPARATOR + m == (SEPARATOR + d) + (SEPARATOR + e);
    assert Frame(docs[..i]) + ((SEPARATOR + d) + (SEPARATOR + e))
        == Frame(docs[..i]) + (SEPARATOR + d) + (SEPARATOR + e);
  }

  lemma {:induction false} AtMost(docs: seq<string>)
    requires AreDocuments(docs)
    ensures |SplitLines(Lines(Frame(docs)), "")| <= |docs|
    ensures !LinesClosed(docs) ==> |SplitLines(Lines(Frame(docs)), "")| < |docs|
    decreases |docs|
  {
    if LinesClosed(docs) {
      FrameSplits(docs, "");
    } else {
      var i :| 0 <= i < |docs| - 1 && !Terminated(docs[i]);
      MergeSameFrame(docs, i);
      AtMost(docs[..i] + [docs[i] + SEPARATOR + docs[i + 1]] + docs[i + 2..]);
    }
  }

  lemma ClosedIsDocument(d: string)
    requires IsDocument(d)
    ensures IsDocument(Closed(d))
  {
    if !Terminated(d) {
      GluedLines(d, "");
      var closed := ClosedPart(d);
      var open := d[|closed|..];
      assert d + "\n" == closed + (open + "\n");
      LinesAppend(closed, open + "\n");
      LineWithoutBreak(open + "\n");
      assert Lines(d)[|Lines(closed)|] == open;
      EndedIsNoMarker(open);
      forall i | 0 <= i < |Lines(closed)| ensures !IsMarker(Lines(closed)[i]) {
        assert Lines(d)[i] == Lines(closed)[i];
      }
    }
  }

  lemma EndedIsNoMarker(open: string)
    requires !IsMarker(open)
    ensures !IsMarker(open + "\n")
  {
    var ended := open + "\n";
    if "---" <= ended {
      assert ended[2] == '-';
      assert |open| >= 3 && open[..3] == ended[..3];
      var i :| 3 <= i < |open| && !IsBlank(open[i]);
      assert ended[i] == open[i];
    }
  }

  lemma ClosedEnd(a: string, b: string)
    requires b != ""
    ensures Closed(a + b) == a + Closed(b)
  {
    assert (a + b)[|a + b| - 1] == b[|b| - 1];
    ConcatAssociates(a, b, "\n");
  }

  /** Ending the last line of a stream ends that of its last document. */
  lemma ClosedFrame(docs: seq<string>)
    requires AreDocuments(docs)
    ensures Closed(Frame(docs)) == Frame(ClosedLast(docs))
    ensures AreDocuments(ClosedLast(docs)) && (LinesClosed(ClosedLast(docs)) <==> LinesClosed(docs))
  {
    if docs != [] {
      var front, last := docs[..|docs| - 1], docs[|docs| - 1];
      SplitLast(docs);
      ClosedIsDocument(last);
      FrameAppend(front, [last]);
      FrameAppend(front, [Closed(last)]);
      FrameOne(last);
      FrameOne(Closed(last));
      ClosedEnd(Frame(front) + SEPARATOR, last);
      ConcatAssociates(Frame(front), SEPARATOR, last);
      ConcatAssociates(Frame(front), SEPARATOR, Closed(last));
      var closed := ClosedLast(docs);
      assert forall i :: 0 <= i < |docs| - 1 ==> closed[i] == docs[i];
    }
  }

  /**
   The stream splits back into its documents, the last one ended, exactly when
   every earlier one ends its own line.
   */
  lemma FramingExact(docs: seq<string>)
    requires AreDocuments(docs)
    ensures Documents(Frame(docs)) == ClosedLast(docs) <==> LinesClosed(docs)
  {
    ClosedFrame(docs);
    var closed := ClosedLast(docs);
    if LinesClosed(docs) {
      FrameSplits(closed, "");
      ConcatEmpty(closed);
    } else {
      AtMost(closed);
    }
  }

  /** One-line documents, as the JSON format writes them, run together: from two on, some are lost. */
  lemma OneLineDocumentsMerge(docs: seq<string>)
    requires |docs| >= 2 && AreDocuments(docs)
    requires forall i, j :: 0 <= i < |docs| && 0 <= j < |docs[i]| ==> docs[i][j] != '\n'
    ensures |Documents(Frame(docs))| < |docs|
  {
    assert !Terminated(docs[0]);
    ClosedFrame(docs);
    AtMost(ClosedLast(docs));
  }

  // ---- Marshalling ----

  /** The YAML library as functions; an object it cannot encode makes marshalling fail. */
  datatype Codec = Codec(encodes: Tree -> bool, marshal: Tree -> string, unmarshal: string -> Option<Tree>)

  predicate EncodesAll(codec: Codec, trees: seq<Tree>) {
    forall i :: 0 <= i < |trees| ==> codec.encodes(trees[i])
  }

  /** What the framing needs of it: it reads back what it wrote, in closed documents. */
  ghost predicate Lawful(codec: Codec) {
    && (forall t :: codec.encodes(t) ==> codec.unmarshal(codec.marshal(t)) == Some(t))
    && (forall t :: codec.encodes(t) ==> IsDocument(codec.marshal(t)))
    && (forall t :: codec.encodes(t) ==> Terminated(codec.marshal(t)))
  }

  function MarshalAll(codec: Codec, trees: seq<Tree>): (docs: seq<string>)
    ensures |docs| == |trees|
    ensures forall i :: 0 <= i < |docs| ==> docs[i] == codec.marshal(trees[i])
  {
    if trees == [] then [] else [codec.marshal(trees[0])] + MarshalAll(codec, trees[1..])
  }

  /** Objects of a stream: the first unreadable document fails, empty objects are dropped. */
  function DecodeAll(codec: Codec, docs: seq<string>): Option<seq<Tree>> {
    if docs == [] then Some([])
    else
      match codec.unmarshal(docs[0])
      case None => None
      case Some(t) =>
        match DecodeAll(codec, docs[1..])
        case None => None
        case Some(rest) => Some(if t == map[] then rest else [t] + rest)
  }

  function Decoded(codec: Codec, stream: string): Option<seq<Tree>> { DecodeAll(codec, Documents(stream)) }

  /** The decode loop: one fresh object per non-empty document. */
  method DecodeYamlDocuments(codec: Codec, data: string) returns (r: Option<seq<Unstructured>>)
    ensures r.Some? == Decoded(codec, data).Some?
    ensures r.Some? ==> fresh(set o | o in r.value) && TreesOf(r.value) == Decoded(codec, data).value
    ensures r.Some? ==> forall i, j :: 0 <= i < j < |r.value| ==> r.value[i] != r.value[j]
  {
    hide DecodeAll, TreesOf;
    var docs := Documents(data);
    var objs: seq<Unstructured> := [];
    var n := 0;
    DecodeNothing(codec, docs);
    while n < |docs|
      invariant 0 <= n <= |docs|
      invariant fresh(set o | o in objs)
      invariant forall i, j :: 0 <= i < j < |objs| ==> objs[i] != objs[j]
      invariant Decoded(codec, data) ==
                match DecodeAll(codec, docs[n..])
                  case None => None
                  case Some(rest) => Some(TreesOf(objs) + rest)
    {
      DecodeNext(codec, docs, n);
      var raw := codec.unmarshal(docs[n]);
      if raw.None? { return None; }
      ghost var before := TreesOf(objs);
      if raw.value != map[] {
        var obj := new Unstructured(raw.value);
        ghost var was := objs;
        objs := objs + [obj];
        DecodeSnoc(was, obj, before, DecodeAll(codec, docs[n + 1..]));
      }
      n := n + 1;
    }
    return Some(objs);
  }

  lemma DecodeNothing(codec: Codec, docs: seq<string>)
    ensures docs[0..] == docs && TreesOf([]) == [] && DecodeAll(codec, docs[|docs|..]) == Some([])
    ensures DecodeAll(codec, docs).Some? ==> [] + DecodeAll(codec, docs).value == DecodeAll(codec, docs).value
    ensures forall trees: seq<Tree> :: trees + [] == trees
  {
  }

  lemma DecodeNext(codec: Codec, docs: seq<string>, n: nat)
    requires n < |docs|
    ensures DecodeAll(codec, docs[n..]) ==
            match codec.unmarshal(docs[n])
            case None => None
            case Some(t) =>
              match DecodeAll(codec, docs[n + 1..])
              case None => None
              case Some(rest) => Some(if t == map[] then rest else [t] + rest)
  {
    assert docs[n..][1..] == docs[n + 1..];
  }

  lemma DecodeSnoc(was: seq<Unstructured>, obj: Unstructured, before: seq<Tree>, rest: Option<seq<Tree>>)
    requires TreesOf(was) == before
    ensures TreesOf(was + [obj]) == before + [obj.Object]
    ensures rest.Some? ==> before + ([obj.Object] + rest.value) == TreesOf(was + [obj]) + rest.value
  {
  }

  lemma {:induction false} DecodeMarshalled(codec: Codec, trees: seq<Tree>)
    requires Lawful(codec) && EncodesAll(codec, trees) && map[] !in trees
    ensures DecodeAll(codec, MarshalAll(codec, trees)) == Some(trees)
    decreases |trees|
  {
    if trees != [] {
      var docs := MarshalAll(codec, trees);
      assert docs[0] == codec.marshal(trees[0]);
      assert docs[1..] == MarshalAll(codec, trees[1..]);
      DecodeMarshalled(codec, trees[1..]);
      assert trees == [trees[0]] + trees[1..];
    }
  }

  lemma MarshalledAreDocuments(codec: Codec, trees: seq<Tree>)
    requires Lawful(codec) && EncodesAll(codec, trees)
    ensures AreDocuments(MarshalAll(codec, trees)) && LinesClosed(MarshalAll(codec, trees))
    ensures forall i :: 0 <= i < |trees| ==> Terminated(MarshalAll(codec, trees)[i])
  {
  }

  /** Reading a written stream gives the objects back, in order. */
  lemma StreamRoundTrip(codec: Codec, trees: seq<Tree>)
    requires Lawful(codec) && EncodesAll(codec, trees) && map[] !in trees
    ensures Decoded(codec, Frame(MarshalAll(codec, trees))) == Some(trees)
  {
    var docs := MarshalAll(codec, trees);
    MarshalledAreDocuments(codec, trees);
    FramingExact(docs);
    DecodeMarshalled(codec, trees);
    if docs != [] {
      assert Terminated(docs[|docs| - 1]);
      SplitLast(docs);
    }
  }
}
