/**
  Model of extract_functions and replace_functions of llvm/utils/abtest.py: reading the marked
  functions out of an assembly file, and writing the file with other texts for some of them.
 */
module AbFunctions {
  import opened Wrappers
  import Sublists

  type Name = string

  /** A line, by the marker found in it; every line ends in a newline. */
  datatype Line =
    | Begin(text: string, name: Name)    // " -- Begin function NAME"
    | End(text: string)                  // " -- End function", without a begin marker
    | Plain(text: string)

  type Text = seq<Line>

  datatype Function = Function(name: Option<Name>, text: Text)

  // -------------------------------------------------------------------------------- extraction

  datatype Scan = Scan(functions: seq<Function>, inFunction: Option<Name>, text: Option<Text>)

  /** What one line does to the reader; None is an end marker before any begin marker. */
  ghost function ExtractStep(st: Scan, line: Line): Option<Scan> {
    match line
    case Begin(_, name) => Some(Scan(st.functions, Some(name), Some([line])))
    case End(_) =>
      if st.text.None? then None
      else Some(Scan(st.functions + [Function(st.inFunction, st.text.value + [line])], None, Some(st.text.value + [line])))
    case Plain(_) =>
      if st.inFunction.Some? && st.text.Some? then Some(st.(text := Some(st.text.value + [line]))) else Some(st)
  }

  ghost function ExtractFrom(file: Text, st: Scan): Option<Scan> {
    if file == [] then Some(st)
    else
      var next := ExtractStep(st, file[0]);
      if next.None? then None else ExtractFrom(file[1..], next.value)
  }

  const START := Scan([], None, None)

  /** The functions of the file; None is the exception of a stray end marker. */
  ghost function Extract(file: Text): Option<seq<Function>> {
    var end := ExtractFrom(file, START);
    if end.None? then None else Some(end.value.functions)
  }

  method ExtractFunctions(file: Text) returns (r: Option<seq<Function>>)
    ensures r == Extract(file)
  {
    var functions: seq<Function> := [];
    var inFunction: Option<Name> := None;
    var text: Option<Text> := None;
    for i := 0 to |file|
      invariant inFunction.Some? ==> text.Some?
      invariant ExtractFrom(file, START) == ExtractFrom(file[i..], Scan(functions, inFunction, text))
    {
      var line := file[i];
      assert file[i..][0] == line && file[i..][1..] == file[i + 1..];
      if line.Begin? {
        inFunction := Some(line.name);
        text := Some([line]);
        continue;
      }
      if line.End? {
        if text.None? {
          return None;
        }
        text := Some(text.value + [line]);
        functions := functions + [Function(inFunction, text.value)];
        inFunction := None;
        continue;
      }
      if inFunction.Some? {
        text := Some(text.value + [line]);
      }
    }
    return Some(functions);
  }

  // -------------------------------------------------------------------------------- replacement

  type Replacements = map<Name, Text>

  /** What is written for one line, and whether the lines after it are skipped. */
  ghost function WriteLine(line: Line, replacements: Replacements, skip: bool): Text {
    if line.Begin? && line.name in replacements then replacements[line.name]
    else if skip then [] else [line]
  }

  ghost function SkipNext(line: Line, replacements: Replacements, skip: bool): bool {
    match line
    case Begin(_, name) => skip || name in replacements
    case End(_) => false
    case Plain(_) => skip
  }

  ghost function ReplaceFrom(file: Text, replacements: Replacements, skip: bool): Text {
    if file == [] then []
    else WriteLine(file[0], replacements, skip) + ReplaceFrom(file[1..], replacements, SkipNext(file[0], replacements, skip))
  }

  ghost function Replace(file: Text, replacements: Replacements): Text {
    ReplaceFrom(file, replacements, false)
  }

  method ReplaceFunctions(source: Text, replacements: Replacements) returns (out: Text)
    ensures out == Replace(source, replacements)
  {
    out := [];
    var skip := false;
    for i := 0 to |source|
      invariant out + ReplaceFrom(source[i..], replacements, skip) == Replace(source, replacements)
    {
      var line := source[i];
      ReplaceAt(source, i, replacements, skip, out);
      assert out + [] == out;
      if line.Begin? {
        if line.name in replacements {
          out := out + replacements[line.name];
          skip := true;
        }
      } else if line.End? {
        if skip {
          skip := false;
          continue;
        }
      }
      if !skip {
        out := out + [line];
      }
    }
  }

  lemma ReplaceAt(source: Text, i: nat, replacements: Replacements, skip: bool, out: Text)
    requires i < |source|
    ensures out + ReplaceFrom(source[i..], replacements, skip) ==
            out + WriteLine(source[i], replacements, skip)
            + ReplaceFrom(source[i + 1..], replacements, SkipNext(source[i], replacements, skip))
  {
    assert source[i..][0] == source[i] && source[i..][1..] == source[i + 1..];
  }

  // ------------------------------------------------------------------ any file, by its positions

  /** The position of the last begin marker before n, or -1. */
  ghost function LastBegin(file: Text, n: nat): (b: int)
    requires n <= |file|
    ensures -1 <= b < n && (b >= 0 ==> file[b].Begin?) && forall j | b < j < n :: !file[j].Begin?
  {
    if n == 0 then -1 else if file[n - 1].Begin? then n - 1 else LastBegin(file, n - 1)
  }

  /** The position of the first end marker after b and before n, or n. */
  ghost function FirstEnd(file: Text, b: nat, n: nat): (f: nat)
    requires b < n <= |file|
    ensures b < f <= n && (f < n ==> file[f].End?) && forall j | b < j < f :: !file[j].End?
  {
    if n == b + 1 then n
    else
      var f := FirstEnd(file, b, n - 1);
      if f < n - 1 then f else if file[n - 1].End? then n - 1 else n
  }

  /** The lines with end markers among those from position a to before n. */
  ghost function EndLines(file: Text, a: nat, n: nat): Text
    requires a <= n <= |file|
  {
    if n == a then [] else EndLines(file, a, n - 1) + if file[n - 1].End? then [file[n - 1]] else []
  }

  /** The name and the text read before position n; after an end marker, only further end markers are added. */
  ghost function NameBefore(file: Text, n: nat): Option<Name>
    requires n <= |file|
  {
    var b := LastBegin(file, n);
    if b >= 0 && FirstEnd(file, b, n) == n then Some(file[b].name) else None
  }

  ghost function TextBefore(file: Text, n: nat): Option<Text>
    requires n <= |file|
  {
    var b := LastBegin(file, n);
    if b < 0 then None
    else
      var f := FirstEnd(file, b, n);
      if f == n then Some(file[b..n]) else Some(file[b..f + 1] + EndLines(file, f + 1, n))
  }

  /**
    The function that ends at position e: it goes from the last begin marker before e up to e. If there is
    another end marker between the two, then it has no name, and its text is that of the function before
    it with further end markers.
   */
  ghost function FunctionAt(file: Text, e: nat): Function
    requires e < |file| && LastBegin(file, e) >= 0
  {
    var b := LastBegin(file, e);
    var f := FirstEnd(file, b, e);
    if f == e then Function(Some(file[b].name), file[b..e + 1])
    else Function(None, file[b..f + 1] + EndLines(file, f + 1, e) + [file[e]])
  }

  ghost predicate StrayEnd(file: Text, e: int) {
    0 <= e < |file| && file[e].End? && LastBegin(file, e) < 0
  }

  /** The functions that end before position n. */
  ghost function FunctionsBefore(file: Text, n: nat): seq<Function>
    requires n <= |file| && forall e | 0 <= e < n :: !StrayEnd(file, e)
  {
    assert n > 0 ==> !StrayEnd(file, n - 1);
    if n == 0 then []
    else FunctionsBefore(file, n - 1) + if file[n - 1].End? then [FunctionAt(file, n - 1)] else []
  }

  lemma NameStep(file: Text, n: nat)
    requires n < |file|
    ensures NameBefore(file, n + 1) == match file[n] {
              case Begin(_, name) => Some(name)
              case End(_) => None
              case Plain(_) => NameBefore(file, n)
            }
    ensures NameBefore(file, n).Some? ==> TextBefore(file, n).Some?
  {
  }

  lemma TextAtBegin(file: Text, n: nat)
    requires n < |file| && file[n].Begin?
    ensures TextBefore(file, n + 1) == Some([file[n]])
  {
    assert FirstEnd(file, n, n + 1) == n + 1;
    assert file[n..n + 1] == [file[n]];
  }

  lemma TextInside(file: Text, n: nat)
    requires n < |file| && !file[n].Begin? && LastBegin(file, n) >= 0 && FirstEnd(file, LastBegin(file, n), n) == n
    ensures TextBefore(file, n) == Some(file[LastBegin(file, n)..n])
    ensures TextBefore(file, n + 1) == Some(file[LastBegin(file, n)..n] + [file[n]])
  {
    var b := LastBegin(file, n);
    assert LastBegin(file, n + 1) == b;
    assert file[b..n + 1] == file[b..n] + [file[n]];
    if file[n].End? {
      assert FirstEnd(file, b, n + 1) == n;
      assert EndLines(file, n + 1, n + 1) == [] && file[b..n + 1] + [] == file[b..n + 1];
    }
  }

  lemma TextAfterEnd(file: Text, n: nat)
    requires n < |file| && !file[n].Begin? && LastBegin(file, n) >= 0 && FirstEnd(file, LastBegin(file, n), n) < n
    ensures TextBefore(file, n).Some?
    ensures TextBefore(file, n + 1) == Some(if file[n].End? then TextBefore(file, n).value + [file[n]] else TextBefore(file, n).value)
  {
    var b := LastBegin(file, n);
    var f := FirstEnd(file, b, n);
    assert LastBegin(file, n + 1) == b && FirstEnd(file, b, n + 1) == f;
    var first, ends := file[b..f + 1], EndLines(file, f + 1, n);
    assert first + (ends + [file[n]]) == first + ends + [file[n]];
    assert first + (ends + []) == first + ends;
  }

  lemma TextStep(file: Text, n: nat)
    requires n < |file|
    ensures file[n].Begin? ==> TextBefore(file, n + 1) == Some([file[n]])
    ensures !file[n].Begin? && TextBefore(file, n).Some? ==>
              TextBefore(file, n + 1) == Some(
                if file[n].End? || NameBefore(file, n).Some? then TextBefore(file, n).value + [file[n]]
                else TextBefore(file, n).value)
    ensures !file[n].Begin? && TextBefore(file, n).None? ==> TextBefore(file, n + 1).None?
    ensures TextBefore(file, n).None? <==> LastBegin(file, n) < 0
  {
    var b := LastBegin(file, n);
    if file[n].Begin? {
      TextAtBegin(file, n);
    } else if b >= 0 {
      if FirstEnd(file, b, n) == n {
        TextInside(file, n);
      } else {
        TextAfterEnd(file, n);
      }
      assert TextBefore(file, n).Some?;
      hide TextBefore, LastBegin, FirstEnd;
    }
  }

  lemma FunctionIsText(file: Text, e: nat)
    requires e < |file| && LastBegin(file, e) >= 0
    ensures TextBefore(file, e).Some? && FunctionAt(file, e) == Function(NameBefore(file, e), TextBefore(file, e).value + [file[e]])
  {
    hide LastBegin, FirstEnd, EndLines;
    var b := LastBegin(file, e);
    SliceStep(file, b, e);
  }

  lemma SliceStep(file: Text, b: nat, e: nat)
    requires b <= e < |file|
    ensures file[b..e + 1] == file[b..e] + [file[e]]
  {
  }

  lemma ExtractLast(a: Text, line: Line, st: Scan)
    ensures ExtractFrom(a + [line], st) ==
              if ExtractFrom(a, st).None? then None else ExtractStep(ExtractFrom(a, st).value, line)
  {
    ExtractConcat(a, [line], st);
    assert [line][1..] == [];
  }

  /** Extraction fails exactly if an end marker comes before every begin marker; otherwise it finds the functions that end. */
  lemma {:induction false} ExtractPrefix(file: Text, n: nat)
    requires n <= |file|
    ensures ExtractFrom(file[..n], START).None? <==> exists e :: e < n && StrayEnd(file, e)
    ensures ExtractFrom(file[..n], START).Some? ==>
              ExtractFrom(file[..n], START) == Some(Scan(FunctionsBefore(file, n), NameBefore(file, n), TextBefore(file, n)))
  {
    hide ExtractFrom, NameBefore, TextBefore, FunctionAt, LastBegin;
    if n == 0 {
      assert file[..0] == [];
      NothingBefore(file);
    } else {
      var line := file[n - 1];
      ExtractPrefix(file, n - 1);
      assert file[..n] == file[..n - 1] + [line];
      ExtractLast(file[..n - 1], line, START);
      NameStep(file, n - 1);
      TextStep(file, n - 1);
      if line.End? && TextBefore(file, n - 1).Some? {
        FunctionIsText(file, n - 1);
      }
      assert StrayEnd(file, n - 1) <==> line.End? && TextBefore(file, n - 1).None?;
      if ExtractFrom(file[..n], START).Some? {
        var fs := FunctionsBefore(file, n - 1);
        assert fs + [] == fs;
      }
    }
  }

  lemma NothingBefore(file: Text)
    ensures ExtractFrom([], START) == Some(START) && NameBefore(file, 0) == None && TextBefore(file, 0) == None
  {
  }

  lemma ExtractIs(file: Text)
    ensures Extract(file).None? <==> exists e :: StrayEnd(file, e)
    ensures Extract(file).Some? ==> Extract(file) == Some(FunctionsBefore(file, |file|))
  {
    ExtractPrefix(file, |file|);
    assert file[..|file|] == file;
  }

  /** Line i is inside a function that is replaced: no end marker since a begin marker with a name to be replaced. */
  ghost predicate Skipped(file: Text, r: Replacements, i: nat)
    requires i <= |file|
  {
    exists b :: 0 <= b < i && file[b].Begin? && file[b].name in r && NoEnd(file, b, i)
  }

  ghost predicate NoEnd(file: Text, b: nat, i: nat)
    requires i <= |file|
  {
    forall j | b < j < i :: !file[j].End?
  }

  /** What is written for line i. */
  ghost function WrittenAt(file: Text, r: Replacements, i: nat): Text
    requires i < |file|
  {
    if file[i].Begin? && file[i].name in r then r[file[i].name] else if Skipped(file, r, i) then [] else [file[i]]
  }

  ghost function WrittenFrom(file: Text, r: Replacements, i: nat): Text
    requires i <= |file|
    decreases |file| - i
  {
    if i == |file| then [] else WrittenAt(file, r, i) + WrittenFrom(file, r, i + 1)
  }

  lemma SkipStep(file: Text, r: Replacements, i: nat)
    requires i < |file|
    ensures Skipped(file, r, i + 1) <==> SkipNext(file[i], r, Skipped(file, r, i))
  {
    if b :| 0 <= b < i && file[b].Begin? && file[b].name in r && NoEnd(file, b, i) {
      assert !file[i].End? ==> NoEnd(file, b, i + 1);
    }
    if file[i].Begin? && file[i].name in r {
      assert NoEnd(file, i, i + 1);
    }
    if b :| 0 <= b < i + 1 && file[b].Begin? && file[b].name in r && NoEnd(file, b, i + 1) {
      assert b < i ==> NoEnd(file, b, i);
    }
  }

  lemma {:induction false} ReplaceSuffix(file: Text, r: Replacements, i: nat)
    requires i <= |file|
    ensures ReplaceFrom(file[i..], r, Skipped(file, r, i)) == WrittenFrom(file, r, i)
    decreases |file| - i
  {
    if i < |file| {
      assert file[i..][0] == file[i] && file[i..][1..] == file[i + 1..];
      SkipStep(file, r, i);
      ReplaceSuffix(file, r, i + 1);
      hide Skipped;
    }
  }

  /** Every line is written as its position says. */
  lemma ReplaceIs(file: Text, r: Replacements)
    ensures Replace(file, r) == WrittenFrom(file, r, 0)
  {
    ReplaceSuffix(file, r, 0);
    assert file[0..] == file;
  }

  // ------------------------------------------------------------------------ well-bracketed files

  /** A piece of a well-bracketed file: a line outside all functions, or a function. */
  datatype Chunk = Outside(text: string) | Fun(begin: string, name: Name, body: seq<string>, end: string)

  ghost function PlainLines(body: seq<string>): Text {
    if body == [] then [] else [Plain(body[0])] + PlainLines(body[1..])
  }

  ghost function ChunkText(c: Chunk): Text {
    match c
    case Outside(text) => [Plain(text)]
    case Fun(begin, name, body, end) => [Begin(begin, name)] + PlainLines(body) + [End(end)]
  }

  /** The file made of the chunks. */
  ghost function File(doc: seq<Chunk>): Text {
    if doc == [] then [] else ChunkText(doc[0]) + File(doc[1..])
  }

  ghost function FunctionOf(c: Chunk): seq<Function> {
    if c.Fun? then [Function(Some(c.name), ChunkText(c))] else []
  }

  /** The functions of a document, in order. */
  ghost function Functions(doc: seq<Chunk>): seq<Function> {
    if doc == [] then [] else FunctionOf(doc[0]) + Functions(doc[1..])
  }

  ghost function IsFunction(): Chunk -> bool {
    (c: Chunk) => c.Fun?
  }

  /** They are those of the chunks that are functions, in order, each with its markers. */
  lemma {:induction false} FunctionsAre(doc: seq<Chunk>) returns (kept: seq<Chunk>)
    ensures Sublists.IsSublist(doc, IsFunction(), kept) && |Functions(doc)| == |kept|
    ensures forall i | 0 <= i < |kept| ::
              kept[i].Fun? && Functions(doc)[i] ==
                Function(Some(kept[i].name), [Begin(kept[i].begin, kept[i].name)] + PlainLines(kept[i].body) + [End(kept[i].end)])
  {
    hide Sublists.IsSublist;
    kept := [];
    if |doc| == 0 {
      Sublists.NoPositions(IsFunction());
    } else {
      var n := |doc| - 1;
      kept := FunctionsAre(doc[..n]);
      Sublists.OneMore(doc[..n], IsFunction(), kept, doc[n]);
      assert doc == doc[..n] + [doc[n]];
      FunctionsLast(doc[..n], doc[n]);
      if doc[n].Fun? {
        kept := kept + [doc[n]];
      }
    }
  }

  lemma {:induction false} FunctionsLast(doc: seq<Chunk>, c: Chunk)
    ensures Functions(doc + [c]) == Functions(doc) + FunctionOf(c)
  {
    hide FunctionOf;
    if |doc| == 0 {
      assert doc + [c] == [c];
      assert [c][1..] == [] && Functions([c][1..]) == [];
    } else {
      assert (doc + [c])[1..] == doc[1..] + [c];
      FunctionsLast(doc[1..], c);
    }
  }

  lemma {:induction false} PlainLinesAre(body: seq<string>)
    ensures |PlainLines(body)| == |body| && forall i | 0 <= i < |body| :: PlainLines(body)[i] == Plain(body[i])
  {
    if body != [] {
      PlainLinesAre(body[1..]);
    }
  }

  /** Replacement texts that are themselves functions of that name. */
  type Patches = map<Name, Chunk>

  ghost predicate ValidPatches(patches: Patches) {
    forall n | n in patches :: patches[n].Fun? && patches[n].name == n
  }

  ghost function Texts(patches: Patches): Replacements {
    map n | n in patches :: ChunkText(patches[n])
  }

  /** The document with the patched functions in place of its own. */
  ghost function Patched(doc: seq<Chunk>, patches: Patches): seq<Chunk> {
    if doc == [] then []
    else [if doc[0].Fun? && doc[0].name in patches then patches[doc[0].name] else doc[0]] + Patched(doc[1..], patches)
  }

  // ---------------------------------------------------------------------- extraction, chunk-wise

  lemma {:induction false} ExtractConcat(a: Text, b: Text, st: Scan)
    ensures ExtractFrom(a + b, st) ==
            if ExtractFrom(a, st).None? then None else ExtractFrom(b, ExtractFrom(a, st).value)
  {
    if a == [] {
      assert a + b == b;
    } else {
      assert (a + b)[1..] == a[1..] + b;
      var next := ExtractStep(st, a[0]);
      if next.Some? {
        ExtractConcat(a[1..], b, next.value);
      }
    }
  }

  lemma {:induction false} ExtractBody(body: seq<string>, functions: seq<Function>, name: Name, text: Text)
    ensures ExtractFrom(PlainLines(body), Scan(functions, Some(name), Some(text))) ==
            Some(Scan(functions, Some(name), Some(text + PlainLines(body))))
  {
    if body == [] {
      assert text + PlainLines(body) == text;
    } else {
      var lines, rest := PlainLines(body), PlainLines(body[1..]);
      assert lines == [Plain(body[0])] + rest;
      assert lines[1..] == rest;
      ExtractBody(body[1..], functions, name, text + [Plain(body[0])]);
      assert text + [Plain(body[0])] + rest == text + lines;
    }
  }

  lemma ExtractChunk(c: Chunk, st: Scan)
    requires st.inFunction.None?
    ensures var r := ExtractFrom(ChunkText(c), st);
            r.Some? && r.value.inFunction.None? && r.value.functions == st.functions + FunctionOf(c)
  {
    match c
    case Outside(text) =>
      assert ChunkText(c)[1..] == [];
    case Fun(begin, name, body, end) =>
      var first, last := [Begin(begin, name)], [End(end)];
      var inside := Scan(st.functions, Some(name), Some(first));
      ExtractConcat(first + PlainLines(body), last, st);
      ExtractConcat(first, PlainLines(body), st);
      assert first[1..] == [] && last[1..] == [];
      assert ExtractFrom(first, st) == Some(inside);
      ExtractBody(body, st.functions, name, first);
  }

  lemma DocFirst(doc: seq<Chunk>)
    requires |doc| > 0
    ensures File(doc) == ChunkText(doc[0]) + File(doc[1..])
    ensures Functions(doc) == FunctionOf(doc[0]) + Functions(doc[1..])
  {
  }

  lemma EmptyDoc(st: Scan)
    ensures ExtractFrom(File([]), st) == Some(st) && st.functions + Functions([]) == st.functions
  {
  }

  lemma {:induction false} ExtractDoc(doc: seq<Chunk>, st: Scan)
    requires st.inFunction.None?
    ensures var r := ExtractFrom(File(doc), st);
            r.Some? && r.value.functions == st.functions + Functions(doc)
  {
    hide ExtractFrom, ChunkText, FunctionOf, File, Functions;
    if |doc| == 0 {
      assert doc == [];
      EmptyDoc(st);
    } else {
      DocFirst(doc);
      ExtractChunk(doc[0], st);
      ExtractConcat(ChunkText(doc[0]), File(doc[1..]), st);
      ExtractDoc(doc[1..], ExtractFrom(ChunkText(doc[0]), st).value);
      Associative(st.functions, FunctionOf(doc[0]), Functions(doc[1..]));
    }
  }

  /** From a well-bracketed file exactly its functions are extracted, in order. */
  lemma ExtractIsFunctions(doc: seq<Chunk>)
    ensures Extract(File(doc)) == Some(Functions(doc))
  {
    ExtractDoc(doc, START);
    assert [] + Functions(doc) == Functions(doc);
  }

  // --------------------------------------------------------------------- replacement, chunk-wise

  /** Whether lines are being skipped after the given ones. */
  ghost function SkipAfter(file: Text, r: Replacements, skip: bool): bool {
    if file == [] then skip else SkipAfter(file[1..], r, SkipNext(file[0], r, skip))
  }

  lemma ReplaceFirst(file: Text, r: Replacements, skip: bool)
    requires |file| > 0
    ensures ReplaceFrom(file, r, skip) == WriteLine(file[0], r, skip) + ReplaceFrom(file[1..], r, SkipNext(file[0], r, skip))
    ensures SkipAfter(file, r, skip) == SkipAfter(file[1..], r, SkipNext(file[0], r, skip))
  {
  }

  lemma Associative<T>(a: seq<T>, b: seq<T>, c: seq<T>)
    ensures a + (b + c) == (a + b) + c
  {
  }

  lemma {:induction false} ReplaceConcat(a: Text, b: Text, r: Replacements, skip: bool)
    ensures ReplaceFrom(a + b, r, skip) == ReplaceFrom(a, r, skip) + ReplaceFrom(b, r, SkipAfter(a, r, skip))
    ensures SkipAfter(a + b, r, skip) == SkipAfter(b, r, SkipAfter(a, r, skip))
  {
    if |a| == 0 {
      assert a + b == b && a == [];
      assert ReplaceFrom(a, r, skip) == [] && SkipAfter(a, r, skip) == skip;
    } else {
      hide ReplaceFrom, SkipAfter, WriteLine, SkipNext;
      var head, skip' := WriteLine(a[0], r, skip), SkipNext(a[0], r, skip);
      var rest, s := a[1..], a + b;
      assert s[1..] == rest + b && s[0] == a[0];
      ReplaceFirst(s, r, skip);
      ReplaceFirst(a, r, skip);
      ReplaceConcat(rest, b, r, skip');
      Associative(head, ReplaceFrom(rest, r, skip'), ReplaceFrom(b, r, SkipAfter(rest, r, skip')));
    }
  }

  lemma {:induction false} ReplaceBody(body: seq<string>, r: Replacements, skip: bool)
    ensures ReplaceFrom(PlainLines(body), r, skip) == if skip then [] else PlainLines(body)
    ensures SkipAfter(PlainLines(body), r, skip) == skip
  {
    if body != [] {
      assert PlainLines(body)[1..] == PlainLines(body[1..]);
      ReplaceBody(body[1..], r, skip);
    }
  }

  lemma ReplaceLine(line: Line, r: Replacements, skip: bool)
    ensures ReplaceFrom([line], r, skip) == WriteLine(line, r, skip)
    ensures SkipAfter([line], r, skip) == SkipNext(line, r, skip)
  {
    assert [line][1..] == [];
  }

  lemma ReplaceChunk(c: Chunk, r: Replacements)
    ensures ReplaceFrom(ChunkText(c), r, false) == if c.Fun? && c.name in r then r[c.name] else ChunkText(c)
    ensures !SkipAfter(ChunkText(c), r, false)
  {
    match c
    case Outside(text) =>
      ReplaceLine(Plain(text), r, false);
    case Fun(begin, name, body, end) =>
      var skip := name in r;
      ReplaceConcat([Begin(begin, name)] + PlainLines(body), [End(end)], r, false);
      ReplaceConcat([Begin(begin, name)], PlainLines(body), r, false);
      ReplaceLine(Begin(begin, name), r, false);
      ReplaceBody(body, r, skip);
      ReplaceLine(End(end), r, skip);
  }

  /** Replacing functions in a well-bracketed file is patching the document. */
  lemma {:induction false} ReplaceIsPatched(doc: seq<Chunk>, patches: Patches)
    requires ValidPatches(patches)
    ensures Replace(File(doc), Texts(patches)) == File(Patched(doc, patches))
  {
    if doc != [] {
      ReplaceChunk(doc[0], Texts(patches));
      ReplaceConcat(ChunkText(doc[0]), File(doc[1..]), Texts(patches), false);
      ReplaceIsPatched(doc[1..], patches);
      assert Patched(doc, patches)[1..] == Patched(doc[1..], patches);
    }
  }

  // ------------------------------------------------------------------- the laws of the two together

  ghost predicate DistinctFunctions(doc: seq<Chunk>) {
    forall i, j | 0 <= i < j < |doc| && doc[i].Fun? && doc[j].Fun? :: doc[i].name != doc[j].name
  }

  lemma {:induction false} FunctionsMember(doc: seq<Chunk>, f: Function)
    ensures f in Functions(doc) <==> exists i :: 0 <= i < |doc| && f in FunctionOf(doc[i])
  {
    if doc != [] {
      FunctionsMember(doc[1..], f);
      if i :| 0 <= i < |doc| && f in FunctionOf(doc[i]) {
        assert i > 0 ==> doc[1..][i - 1] == doc[i];
      }
      if f in Functions(doc[1..]) {
        var i :| 0 <= i < |doc[1..]| && f in FunctionOf(doc[1..][i]);
        assert doc[i + 1] == doc[1..][i];
      }
    }
  }

  lemma {:induction false} ReplaceOwn(doc: seq<Chunk>, r: Replacements)
    requires forall i | 0 <= i < |doc| && doc[i].Fun? && doc[i].name in r :: r[doc[i].name] == ChunkText(doc[i])
    ensures Replace(File(doc), r) == File(doc)
  {
    if doc != [] {
      ReplaceChunk(doc[0], r);
      ReplaceConcat(ChunkText(doc[0]), File(doc[1..]), r, false);
      forall i | 0 <= i < |doc[1..]| ensures doc[1..][i] == doc[i + 1] {}
      ReplaceOwn(doc[1..], r);
    }
  }

  /** Replacing functions by their own extracted texts gives back the source. */
  lemma ReplaceByExtracted(doc: seq<Chunk>, r: Replacements)
    requires DistinctFunctions(doc) && Extract(File(doc)).Some?
    requires forall n | n in r :: Function(Some(n), r[n]) in Extract(File(doc)).value
    ensures Replace(File(doc), r) == File(doc)
  {
    hide Extract, Replace, File, Functions, ChunkText;
    ExtractIsFunctions(doc);
    forall i | 0 <= i < |doc| && doc[i].Fun? && doc[i].name in r ensures r[doc[i].name] == ChunkText(doc[i]) {
      var f := Function(Some(doc[i].name), r[doc[i].name]);
      FunctionsMember(doc, f);
      var j :| 0 <= j < |doc| && f in FunctionOf(doc[j]);
      assert doc[j].Fun? && doc[j].name == doc[i].name;
    }
    ReplaceOwn(doc, r);
  }

  /** The functions with the chosen texts in place of their own. */
  ghost function Chosen(fs: seq<Function>, r: Replacements): seq<Function> {
    if fs == [] then []
    else
      var f := fs[0];
      [if f.name.Some? && f.name.value in r then Function(f.name, r[f.name.value]) else f] + Chosen(fs[1..], r)
  }

  lemma {:induction false} PatchedFunctions(doc: seq<Chunk>, patches: Patches)
    requires ValidPatches(patches)
    ensures Functions(Patched(doc, patches)) == Chosen(Functions(doc), Texts(patches))
  {
    if doc != [] {
      PatchedFunctions(doc[1..], patches);
      assert Patched(doc, patches)[1..] == Patched(doc[1..], patches);
      if doc[0].Fun? {
        assert Functions(doc)[1..] == Functions(doc[1..]);
      } else {
        assert Functions(doc) == Functions(doc[1..]);
      }
    }
  }

  /** Extracting after a replacement gives the chosen texts, and all other functions unchanged. */
  lemma ExtractAfterReplace(doc: seq<Chunk>, patches: Patches)
    requires ValidPatches(patches)
    ensures Extract(Replace(File(doc), Texts(patches))) == Some(Chosen(Functions(doc), Texts(patches)))
  {
    ReplaceIsPatched(doc, patches);
    ExtractIsFunctions(Patched(doc, patches));
    PatchedFunctions(doc, patches);
  }

  lemma {:induction false} PatchedTwice(doc: seq<Chunk>, first: Patches, second: Patches)
    requires ValidPatches(first) && first.Keys <= second.Keys
    ensures Patched(Patched(doc, first), second) == Patched(doc, second)
  {
    if doc != [] {
      PatchedTwice(doc[1..], first, second);
      assert Patched(doc, first)[1..] == Patched(doc[1..], first);
    }
  }

  /** A second replacement of the same names (or more) overrides the first. */
  lemma SecondReplacementWins(doc: seq<Chunk>, first: Patches, second: Patches)
    requires ValidPatches(first) && ValidPatches(second) && first.Keys <= second.Keys
    ensures Replace(Replace(File(doc), Texts(first)), Texts(second)) == Replace(File(doc), Texts(second))
  {
    ReplaceIsPatched(doc, first);
    ReplaceIsPatched(doc, second);
    ReplaceIsPatched(Patched(doc, first), second);
    PatchedTwice(doc, first, second);
  }
}
