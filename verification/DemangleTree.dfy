/**
  Model of llvm/utils/demangle_tree.py: the files of a directory tree are processed in chunks of a
  fixed size, whatever directory they are in, and the statistics are reported per directory and in
  total. The run of llvm-objdump on one file is a function of the file.
 */
module DemangleTree {
  import opened Wrappers
  import Sublists

  /** A path: the directory that os.path.dirname finds in it, and the name in that directory. */
  datatype File = File(dir: string, name: string)

  /** The directory part of the normalised path of a file in a directory: for "." there is none. */
  function FileDir(root: string): string {
    if root == "." then "" else root
  }

  /** A directory of the walk with the object files found in it. */
  datatype Dir = Dir(root: string, files: seq<File>)

  /** A mangled name, and what it has been demangled to. */
  datatype Symbol = Symbol(mangled: string, demangled: string)

  /** What llvm-objdump does on one file: it fails, or prints some lines. */
  datatype Output = Crash | Lines(lines: seq<string>)

  type Objdump = File -> Output

  /** The numbers of a result, as a value. */
  datatype Totals = Totals(crashed: seq<File>, errors: set<string>, nsymbols: nat, nfiles: nat)

  datatype Row = Row(dir: string, totals: Totals)

  const ZERO := Totals([], {}, 0, 0)

  function Add(a: Totals, b: Totals): Totals {
    Totals(a.crashed + b.crashed, a.errors + b.errors, a.nsymbols + b.nsymbols, a.nfiles + b.nfiles)
  }

  lemma AddAssociative(a: Totals, b: Totals, c: Totals)
    ensures Add(Add(a, b), c) == Add(a, Add(b, c))
  {
    assert a.crashed + b.crashed + c.crashed == a.crashed + (b.crashed + c.crashed);
    assert a.errors + b.errors + c.errors == a.errors + (b.errors + c.errors);
  }

  lemma AddZero(a: Totals)
    ensures Add(a, ZERO) == a && Add(ZERO, a) == a
  {
    assert a.crashed + [] == a.crashed && [] + a.crashed == a.crashed;
  }

  // --------------------------------------------------------------------------- lines with symbols

  /** line.find(c, from), where -1 is the length of the line. */
  function Find(line: string, c: char, from: nat): (i: nat)
    requires from <= |line|
    ensures from <= i <= |line| && (i < |line| ==> line[i] == c) && forall j | from <= j < i :: line[j] != c
    decreases |line| - from
  {
    if from == |line| || line[from] == c then from else Find(line, c, from + 1)
  }

  /** The position of the last c before the end, at or after `from`; the length of the line if there is none. */
  function FindLast(line: string, c: char, from: nat, end: nat): (i: nat)
    requires from <= end <= |line|
    ensures (from <= i < end && line[i] == c) || i == |line|
    ensures forall j | from <= j < end && (j > i || i == |line|) :: line[j] != c
    decreases end - from
  {
    if from == end then |line| else if line[end - 1] == c then end - 1 else FindLast(line, c, from, end - 1)
  }

  predicate IsSpace(c: char) {
    var code := c as int;
    9 <= code <= 13 || 28 <= code <= 32 || code in {0x85, 0xA0, 0x1680, 0x2028, 0x2029, 0x202F, 0x205F, 0x3000}
    || 0x2000 <= code <= 0x200A
  }

  /** s.strip() */
  function Strip(s: string): (r: string)
    ensures r != "" ==> !IsSpace(r[0]) && !IsSpace(r[|r| - 1])
    decreases |s|
  {
    if s == "" then ""
    else if IsSpace(s[0]) then Strip(s[1..])
    else if IsSpace(s[|s| - 1]) then Strip(s[..|s| - 1])
    else s
  }

  ghost predicate AllSpace(s: string) {
    forall i | 0 <= i < |s| :: IsSpace(s[i])
  }

  /** Only spaces are stripped, and all of them. */
  lemma {:induction false} StripIs(s: string) returns (a: string, b: string)
    ensures s == a + Strip(s) + b && AllSpace(a) && AllSpace(b)
    decreases |s|
  {
    hide IsSpace;
    a, b := "", "";
    if s != "" && IsSpace(s[0]) {
      a, b := StripIs(s[1..]);
      Cons(s, a, Strip(s[1..]), b);
      a := [s[0]] + a;
    } else if s != "" && IsSpace(s[|s| - 1]) {
      a, b := StripIs(s[..|s| - 1]);
      Snoc(s, a, Strip(s[..|s| - 1]), b);
      b := b + [s[|s| - 1]];
    }
  }

  lemma Cons(s: string, a: string, r: string, b: string)
    requires s != "" && s[1..] == a + r + b
    ensures s == [s[0]] + a + r + b
  {
  }

  lemma Snoc(s: string, a: string, r: string, b: string)
    requires s != "" && s[..|s| - 1] == a + r + b
    ensures s == a + r + (b + [s[|s| - 1]])
  {
    assert s == s[..|s| - 1] + [s[|s| - 1]];
  }

  /** part in s */
  predicate Contains(s: string, part: string) {
    part <= s || (s != "" && Contains(s[1..], part))
  }

  ghost predicate IsAround(s: string, part: string, a: string, b: string) {
    s == a + part + b
  }

  lemma {:induction false} ContainsIff(s: string, part: string)
    ensures Contains(s, part) <==> exists a, b :: IsAround(s, part, a, b)
  {
    hide IsAround;
    if part <= s {
      AroundStart(s, part);
    } else if s != "" {
      ContainsIff(s[1..], part);
      if a, b :| IsAround(s[1..], part, a, b) {
        AroundLater(s, part, a, b);
      }
      if a, b :| IsAround(s, part, a, b) {
        AroundSooner(s, part, a, b);
      }
    } else {
      forall a, b ensures !IsAround(s, part, a, b) {
        AroundNothing(part, a, b);
      }
    }
  }

  lemma AroundStart(s: string, part: string)
    requires part <= s
    ensures IsAround(s, part, "", s[|part|..])
  {
  }

  lemma AroundLater(s: string, part: string, a: string, b: string)
    requires s != "" && IsAround(s[1..], part, a, b)
    ensures IsAround(s, part, [s[0]] + a, b)
  {
  }

  lemma AroundSooner(s: string, part: string, a: string, b: string)
    requires IsAround(s, part, a, b) && !(part <= s)
    ensures a != "" && IsAround(s[1..], part, a[1..], b)
  {
    assert a == "" ==> s == part + b;
  }

  lemma AroundNothing(part: string, a: string, b: string)
    requires !(part <= "")
    ensures !IsAround("", part, a, b)
  {
  }

  /** parse_line. Without a closing parenthesis, the last character of the line is taken for it. */
  function ParseLine(line: string): Option<Symbol> {
    var question := Find(line, '?', 0);
    if question == |line| then None
    else
      var open := Find(line, '(', question);
      if open == |line| then None
      else
        var close := FindLast(line, ')', open, |line|);
        var end := if close < |line| then close else |line| - 1;
        Some(Symbol(Strip(line[question..open]), Strip(if open + 1 <= end then line[open + 1..end] else "")))
  }

  /** The symbols of the lines that have one, in order. */
  ghost function SymbolsOf(lines: seq<string>): seq<Symbol> {
    if |lines| == 0 then []
    else
      var last := ParseLine(lines[|lines| - 1]);
      SymbolsOf(lines[..|lines| - 1]) + if last.Some? then [last.value] else []
  }

  /** No character of the text is the given one. */
  ghost predicate Lacks(s: string, c: char) {
    forall i | 0 <= i < |s| :: s[i] != c
  }

  lemma FoundAfter(line: string, c: char, a: string, b: string, rest: string)
    requires line == a + b + [c] + rest && Lacks(b, c)
    ensures Find(line, c, |a|) == |a + b|
  {
    assert line[|a + b|] == c;
    assert forall j | |a| <= j < |a + b| :: line[j] == b[j - |a|];
  }

  lemma FoundLast(line: string, c: char, a: string, rest: string, from: nat)
    requires line == a + [c] + rest && Lacks(rest, c) && from <= |a|
    ensures FindLast(line, c, from, |line|) == |a|
  {
    assert line[|a|] == c;
    assert forall j | |a| < j < |line| :: line[j] == rest[j - |a| - 1];
  }

  /**
    A line of the form "offset ?name (text) rest" is read as the name and the text, up to spaces around
    them, even if the text has parentheses of its own.
   */
  lemma PrintedLineIsRead(line: string, offset: string, name: string, text: string, rest: string)
    requires Lacks(offset, '?') && Lacks(name, '(') && Lacks(rest, ')') && |name| > 0 && name[0] == '?'
    requires line == offset + name + "(" + text + ")" + rest
    ensures ParseLine(line) == Some(Symbol(Strip(name), Strip(text)))
  {
    LineParts(line, offset, name, text, rest);
    hide Find, FindLast, Strip, ParseLine;
    FoundAfter(line, '?', "", offset, name[1..] + "(" + text + ")" + rest);
    FoundAfter(line, '(', offset, name, text + ")" + rest);
    FoundLast(line, ')', offset + name + "(" + text, rest, |offset + name|);
    assert "" + offset == offset;
    hide Lacks;
    ParseAt(line, |offset|, |offset + name|, |offset + name + "(" + text|);
  }

  lemma NotFoundLast(line: string, c: char, a: string, rest: string)
    requires line == a + rest && Lacks(rest, c)
    ensures FindLast(line, c, |a|, |line|) == |line|
  {
    assert forall j | |a| <= j < |line| :: line[j] == rest[j - |a|];
  }

  /** Without a closing parenthesis, the text loses its last character. */
  lemma UnclosedLosesLast(line: string, offset: string, name: string, text: string)
    requires Lacks(offset, '?') && Lacks(name, '(') && Lacks(text, ')') && |name| > 0 && name[0] == '?' && |text| > 0
    requires line == offset + name + "(" + text
    ensures ParseLine(line) == Some(Symbol(Strip(name), Strip(text[..|text| - 1])))
  {
    UnclosedParts(line, offset, name, text);
    hide Find, FindLast, Strip, ParseLine;
    FoundAfter(line, '?', "", offset, name[1..] + "(" + text);
    FoundAfter(line, '(', offset, name, text);
    LacksMore(text);
    NotFoundLast(line, ')', offset + name, "(" + text);
    assert "" + offset == offset;
    hide Lacks;
    ParseUnclosed(line, |offset|, |offset + name|);
  }

  lemma LacksMore(text: string)
    requires Lacks(text, ')')
    ensures Lacks("(" + text, ')')
  {
  }

  lemma UnclosedParts(line: string, offset: string, name: string, text: string)
    requires |name| > 0 && name[0] == '?' && |text| > 0 && line == offset + name + "(" + text
    ensures line == "" + offset + ['?'] + (name[1..] + "(" + text) && line == (offset + name) + ("(" + text)
    ensures var a := |offset + name|;
            a + 1 < |line| && |offset| <= a && line[|offset|..a] == name && line[a + 1..|line| - 1] == text[..|text| - 1]
  {
    assert name == ['?'] + name[1..];
  }

  lemma ParseUnclosed(line: string, question: nat, open: nat)
    requires question <= open && open + 1 < |line|
    requires Find(line, '?', 0) == question && Find(line, '(', question) == open && FindLast(line, ')', open, |line|) == |line|
    ensures ParseLine(line) == Some(Symbol(Strip(line[question..open]), Strip(line[open + 1..|line| - 1])))
  {
    hide Find, FindLast, Strip;
  }

  lemma ParseAt(line: string, question: nat, open: nat, close: nat)
    requires question <= open < close < |line|
    requires Find(line, '?', 0) == question && Find(line, '(', question) == open && FindLast(line, ')', open, |line|) == close
    ensures ParseLine(line) == Some(Symbol(Strip(line[question..open]), Strip(line[open + 1..close])))
  {
    hide Find, FindLast, Strip;
  }

  lemma LineParts(line: string, offset: string, name: string, text: string, rest: string)
    requires |name| > 0 && name[0] == '?' && line == offset + name + "(" + text + ")" + rest
    ensures line == "" + offset + ['?'] + (name[1..] + "(" + text + ")" + rest)
    ensures line == offset + name + "(" + (text + ")" + rest)
    ensures var (a, b) := (|offset + name|, |offset + name + "(" + text|);
            a < b < |line| && |offset| <= a && line[|offset|..a] == name && line[a + 1..b] == text
  {
    assert name == ['?'] + name[1..];
  }

  // ------------------------------------------------------------------------ what should be counted

  ghost function Invalid(symbols: seq<Symbol>): set<string> {
    set s | s in symbols && Contains(s.demangled, "invalid mangled name") :: s.mangled
  }

  ghost function OfFile(objdump: Objdump, f: File): Totals {
    var output := objdump(f);
    if output.Crash? then Totals([f], {}, 0, 0)
    else Totals([], Invalid(SymbolsOf(output.lines)), |SymbolsOf(output.lines)|, 0)
  }

  /** The sum over files, except that no files are counted. */
  ghost function Sum(objdump: Objdump, files: seq<File>): (r: Totals)
    ensures r.nfiles == 0
  {
    if |files| == 0 then ZERO
    else Add(Sum(objdump, files[..|files| - 1]), OfFile(objdump, files[|files| - 1]))
  }

  ghost function Total(objdump: Objdump, files: seq<File>): Totals {
    Sum(objdump, files).(nfiles := |files|)
  }

  ghost function IsCrash(objdump: Objdump): File -> bool {
    (f: File) => objdump(f).Crash?
  }

  ghost function HasName(): string -> bool {
    (line: string) => ParseLine(line).Some?
  }

  /** The symbols are those of the lines that have one, in the order of the lines. */
  lemma {:induction false} SymbolsOfAre(lines: seq<string>) returns (kept: seq<string>)
    ensures Sublists.IsSublist(lines, HasName(), kept) && |SymbolsOf(lines)| == |kept|
    ensures forall i | 0 <= i < |kept| :: ParseLine(kept[i]) == Some(SymbolsOf(lines)[i])
  {
    hide Sublists.IsSublist, ParseLine;
    kept := [];
    if |lines| == 0 {
      Sublists.NoPositions(HasName());
    } else {
      var n := |lines| - 1;
      kept := SymbolsOfAre(lines[..n]);
      Sublists.OneMore(lines[..n], HasName(), kept, lines[n]);
      assert lines == lines[..n] + [lines[n]];
      if ParseLine(lines[n]).Some? {
        kept := kept + [lines[n]];
      }
    }
  }

  /** Line j of file k, which does not crash, has the mangled name s, and says that the name is invalid. */
  ghost predicate IsFailure(objdump: Objdump, files: seq<File>, k: int, j: int, s: string) {
    && 0 <= k < |files| && objdump(files[k]).Lines? && 0 <= j < |objdump(files[k]).lines|
    && var symbol := ParseLine(objdump(files[k]).lines[j]);
       symbol.Some? && symbol.value.mangled == s
       && exists a, b :: symbol.value.demangled == a + "invalid mangled name" + b
  }

  lemma {:induction false} SymbolMember(lines: seq<string>, x: Symbol)
    ensures x in SymbolsOf(lines) <==> exists j :: 0 <= j < |lines| && ParseLine(lines[j]) == Some(x)
  {
    hide ParseLine;
    if |lines| > 0 {
      var n := |lines| - 1;
      SymbolMember(lines[..n], x);
      if j :| 0 <= j < n && ParseLine(lines[..n][j]) == Some(x) {
        assert ParseLine(lines[j]) == Some(x);
      }
      if x in SymbolsOf(lines) && x !in SymbolsOf(lines[..n]) {
        assert ParseLine(lines[n]) == Some(x);
      }
    }
  }

  lemma FileFailures(objdump: Objdump, f: File, s: string)
    ensures s in OfFile(objdump, f).errors <==> exists j :: IsFailure(objdump, [f], 0, j, s)
  {
    hide ParseLine, SymbolsOf, Contains;
    if objdump(f).Lines? {
      var lines := objdump(f).lines;
      if x :| x in SymbolsOf(lines) && Contains(x.demangled, "invalid mangled name") && x.mangled == s {
        SymbolMember(lines, x);
        ContainsIff(x.demangled, "invalid mangled name");
        var a, b :| IsAround(x.demangled, "invalid mangled name", a, b);
        var j :| 0 <= j < |lines| && ParseLine(lines[j]) == Some(x);
        assert IsFailure(objdump, [f], 0, j, s);
      }
      if j :| IsFailure(objdump, [f], 0, j, s) {
        var x := ParseLine(lines[j]).value;
        SymbolMember(lines, x);
        ContainsIff(x.demangled, "invalid mangled name");
        var a, b :| x.demangled == a + "invalid mangled name" + b;
        assert IsAround(x.demangled, "invalid mangled name", a, b);
      }
    }
  }

  lemma FailureAt(objdump: Objdump, front: seq<File>, last: File, k: int, j: int, s: string)
    ensures k < |front| ==> (IsFailure(objdump, front + [last], k, j, s) <==> IsFailure(objdump, front, k, j, s))
    ensures IsFailure(objdump, front + [last], |front|, j, s) <==> IsFailure(objdump, [last], 0, j, s)
  {
  }

  /** The failures are exactly the names in the lines that say so, of all files that do not crash. */
  lemma {:induction false} FailuresAre(objdump: Objdump, files: seq<File>, s: string)
    ensures s in Sum(objdump, files).errors <==> exists k, j :: IsFailure(objdump, files, k, j, s)
  {
    if |files| > 0 {
      hide OfFile, IsFailure;
      var front, last := files[..|files| - 1], files[|files| - 1];
      assert files == front + [last];
      FailuresAre(objdump, front, s);
      FileFailures(objdump, last, s);
      if k, j :| IsFailure(objdump, front, k, j, s) {
        FailureInside(objdump, front, k, j, s);
        FailureAt(objdump, front, last, k, j, s);
      }
      if j :| IsFailure(objdump, [last], 0, j, s) {
        FailureAt(objdump, front, last, |front|, j, s);
      }
      if k, j :| IsFailure(objdump, files, k, j, s) {
        FailureInside(objdump, files, k, j, s);
        FailureAt(objdump, front, last, k, j, s);
      }
    }
  }

  lemma FailureInside(objdump: Objdump, files: seq<File>, k: int, j: int, s: string)
    requires IsFailure(objdump, files, k, j, s)
    ensures 0 <= k < |files|
  {
  }

  /** The crashes are the files that crash, in order and as often as they occur. */
  lemma {:induction false} CrashesAre(objdump: Objdump, files: seq<File>)
    ensures Sublists.IsSublist(files, IsCrash(objdump), Sum(objdump, files).crashed)
  {
    hide Sublists.IsSublist, SymbolsOf, Invalid;
    if |files| == 0 {
      Sublists.NoPositions(IsCrash(objdump));
    } else {
      var n := |files| - 1;
      CrashesAre(objdump, files[..n]);
      var crashed := Sum(objdump, files[..n]).crashed;
      Sublists.OneMore(files[..n], IsCrash(objdump), crashed, files[n]);
      assert files == files[..n] + [files[n]];
      assert crashed + [] == crashed && [] + crashed == crashed;
    }
  }

  /** The number of lines with a symbol, in all files that do not crash. */
  ghost function SymbolCount(objdump: Objdump, files: seq<File>): nat {
    if |files| == 0 then 0
    else (if objdump(files[0]).Crash? then 0 else LineCount(objdump(files[0]).lines)) + SymbolCount(objdump, files[1..])
  }

  ghost function LineCount(lines: seq<string>): nat {
    if |lines| == 0 then 0 else (if ParseLine(lines[0]).Some? then 1 else 0) + LineCount(lines[1..])
  }

  lemma {:induction false} LineCountLast(lines: seq<string>, line: string)
    ensures LineCount(lines + [line]) == LineCount(lines) + if ParseLine(line).Some? then 1 else 0
  {
    hide ParseLine;
    if |lines| == 0 {
      assert lines + [line] == [line];
      assert LineCount([line][1..]) == 0;
    } else {
      assert (lines + [line])[1..] == lines[1..] + [line];
      LineCountLast(lines[1..], line);
    }
  }

  lemma {:induction false} SymbolsAreCounted(lines: seq<string>)
    ensures |SymbolsOf(lines)| == LineCount(lines)
  {
    hide ParseLine;
    if |lines| > 0 {
      SymbolsAreCounted(lines[..|lines| - 1]);
      LineCountLast(lines[..|lines| - 1], lines[|lines| - 1]);
      assert lines == lines[..|lines| - 1] + [lines[|lines| - 1]];
    }
  }

  lemma {:induction false} SymbolCountLast(objdump: Objdump, files: seq<File>, f: File)
    ensures SymbolCount(objdump, files + [f]) == SymbolCount(objdump, files) + OfFile(objdump, f).nsymbols
  {
    if |files| == 0 {
      assert files + [f] == [f];
      assert SymbolCount(objdump, [f][1..]) == 0;
      if objdump(f).Lines? {
        SymbolsAreCounted(objdump(f).lines);
      }
    } else {
      assert (files + [f])[1..] == files[1..] + [f];
      SymbolCountLast(objdump, files[1..], f);
    }
  }

  lemma {:induction false} SymbolsAreAll(objdump: Objdump, files: seq<File>)
    ensures Sum(objdump, files).nsymbols == SymbolCount(objdump, files)
  {
    hide OfFile;
    if |files| > 0 {
      SymbolsAreAll(objdump, files[..|files| - 1]);
      SymbolCountLast(objdump, files[..|files| - 1], files[|files| - 1]);
      assert files == files[..|files| - 1] + [files[|files| - 1]];
    }
  }

  /** What a total says about the files. */
  ghost predicate Describes(objdump: Objdump, files: seq<File>, t: Totals) {
    && t.nfiles == |files| && t.nsymbols == SymbolCount(objdump, files)
    && (forall s :: s in t.errors <==> exists k, j :: IsFailure(objdump, files, k, j, s))
    && Sublists.IsSublist(files, IsCrash(objdump), t.crashed)
  }

  lemma TotalDescribes(objdump: Objdump, files: seq<File>)
    ensures Describes(objdump, files, Total(objdump, files))
  {
    hide IsFailure, SymbolCount, Sum;
    SymbolsAreAll(objdump, files);
    CrashesAre(objdump, files);
    forall s ensures s in Total(objdump, files).errors <==> exists k, j :: IsFailure(objdump, files, k, j, s) {
      FailuresAre(objdump, files, s);
    }
  }

  lemma {:induction false} SumAppend(objdump: Objdump, a: seq<File>, b: seq<File>)
    ensures Sum(objdump, a + b) == Add(Sum(objdump, a), Sum(objdump, b))
  {
    if |b| == 0 {
      assert a + b == a;
      AddZero(Sum(objdump, a));
    } else {
      hide Add, OfFile;
      var last := b[|b| - 1];
      assert (a + b)[..|a + b| - 1] == a + b[..|b| - 1] && (a + b)[|a + b| - 1] == last;
      SumAppend(objdump, a, b[..|b| - 1]);
      AddAssociative(Sum(objdump, a), Sum(objdump, b[..|b| - 1]), OfFile(objdump, last));
    }
  }

  lemma TotalAppend(objdump: Objdump, a: seq<File>, b: seq<File>)
    ensures Total(objdump, a + b) == Add(Total(objdump, a), Total(objdump, b))
  {
    SumAppend(objdump, a, b);
  }

  ghost function AllFiles(dirs: seq<Dir>): seq<File> {
    if |dirs| == 0 then [] else AllFiles(dirs[..|dirs| - 1]) + dirs[|dirs| - 1].files
  }

  ghost function Rows(objdump: Objdump, dirs: seq<Dir>): seq<Row> {
    if |dirs| == 0 then []
    else
      var last := dirs[|dirs| - 1];
      Rows(objdump, dirs[..|dirs| - 1]) + [Row(last.root, Total(objdump, last.files))]
  }

  /** The rows of directories with object files. */
  ghost function Busy(rows: seq<Row>): seq<Row> {
    if |rows| == 0 then []
    else Busy(rows[..|rows| - 1]) + if rows[|rows| - 1].totals.nfiles > 0 then [rows[|rows| - 1]] else []
  }

  /** The rows of directories without. */
  ghost function Idle(rows: seq<Row>): seq<Row> {
    if |rows| == 0 then []
    else Idle(rows[..|rows| - 1]) + if rows[|rows| - 1].totals.nfiles > 0 then [] else [rows[|rows| - 1]]
  }

  /** The result of one file, from the lines that llvm-objdump prints for it. */
  method ProcessFile(objdump: Objdump, f: File) returns (r: Totals)
    ensures r == OfFile(objdump, f)
  {
    hide ParseLine, SymbolsOf, Invalid, Contains;
    var output := objdump(f);
    NoLines();
    if output.Crash? {
      return Totals([f], {}, 0, 0);
    }
    r := ZERO;
    for k := 0 to |output.lines|
      invariant r == Totals([], Invalid(SymbolsOf(output.lines[..k])), |SymbolsOf(output.lines[..k])|, 0)
    {
      assert output.lines[..0] == [];
      OneMoreLine(output.lines, k);
      var symbol := ParseLine(output.lines[k]);
      if symbol.None? {
        continue;
      }
      r := r.(nsymbols := r.nsymbols + 1);
      if Contains(symbol.value.demangled, "invalid mangled name") {
        r := r.(errors := r.errors + {symbol.value.mangled});
      }
    }
    assert output.lines[..|output.lines|] == output.lines;
  }

  lemma NoLines()
    ensures SymbolsOf([]) == [] && Invalid([]) == {}
  {
  }

  lemma OneMoreLine(lines: seq<string>, k: nat)
    requires k < |lines|
    ensures var (before, symbol) := (SymbolsOf(lines[..k]), ParseLine(lines[k]));
            && SymbolsOf(lines[..k + 1]) == (if symbol.Some? then before + [symbol.value] else before)
            && Invalid(SymbolsOf(lines[..k + 1])) ==
                 Invalid(before) + if symbol.Some? && Contains(symbol.value.demangled, "invalid mangled name")
                                   then {symbol.value.mangled} else {}
  {
    assert lines[..k + 1][..k] == lines[..k];
  }

  // ------------------------------------------------------------------------------------ a chunk

  ghost predicate GoodDirs(dirs: seq<Dir>) {
    && (forall i, j | 0 <= i < j < |dirs| :: dirs[i].root != dirs[j].root)
    && (forall i | 0 <= i < |dirs| :: |dirs[i].files| > 0 && dirs[i].root != "")
    && (forall i, k | 0 <= i < |dirs| && 0 <= k < |dirs[i].files| :: dirs[i].files[k].dir == FileDir(dirs[i].root))
  }

  ghost predicate HasDot(dirs: seq<Dir>) {
    exists i :: 0 <= i < |dirs| && dirs[i].root == "."
  }

  /** What is left of the directories when some are done and some files of the next one are taken. */
  ghost function Rest(dirs: seq<Dir>, done: nat, taken: nat): seq<Dir>
    requires done <= |dirs| && (taken > 0 ==> done < |dirs| && taken < |dirs[done].files|)
  {
    if done == |dirs| then [] else [Dir(dirs[done].root, dirs[done].files[taken..])] + dirs[done + 1..]
  }

  ghost function Count(dirs: seq<Dir>): nat {
    if |dirs| == 0 then 0 else |dirs[0].files| + Count(dirs[1..])
  }

  lemma PendingIffMore(dirs: seq<Dir>, end: nat, from: nat)
    requires GoodDirs(dirs) && IsPosition(dirs, end, from)
    ensures Count(Rest(dirs, end, from)) > 0 <==> end < |dirs|
    ensures end < |dirs| ==> from < |dirs[end].files|
  {
  }

  lemma RestHead(dirs: seq<Dir>, end: nat, from: nat)
    requires IsPosition(dirs, end, from) && end < |dirs| && from < |dirs[end].files|
    ensures var pending := Rest(dirs, end, from);
            |pending| > 0 && pending[0] == Dir(dirs[end].root, dirs[end].files[from..])
  {
  }

  /** Taking the next n files. */
  lemma RestAfter(dirs: seq<Dir>, end: nat, from: nat, n: nat)
    requires IsPosition(dirs, end, from) && end < |dirs| && from + n <= |dirs[end].files|
    requires from < |dirs[end].files|
    ensures |Rest(dirs, end, from)| > 0
    ensures from + n < |dirs[end].files| ==>
              Rest(dirs, end, from + n) ==
                [Dir(dirs[end].root, dirs[end].files[from..][n..])] + Rest(dirs, end, from)[1..] &&
              Count(Rest(dirs, end, from)) == n + Count(Rest(dirs, end, from + n))
    ensures from + n == |dirs[end].files| ==>
              Rest(dirs, end + 1, 0) == Rest(dirs, end, from)[1..] &&
              Count(Rest(dirs, end, from)) == n + Count(Rest(dirs, end + 1, 0))
  {
    assert dirs[end].files[from..][n..] == dirs[end].files[from + n..];
    assert Rest(dirs, end, from)[1..] == dirs[end + 1..];
    if from + n < |dirs[end].files| {
      assert Rest(dirs, end, from + n)[1..] == dirs[end + 1..];
    } else if end + 1 < |dirs| {
      assert dirs[end + 1..] == [Dir(dirs[end + 1].root, dirs[end + 1].files[0..])] + dirs[end + 2..];
    }
  }

  /** The files of one directory among the given ones. */
  ghost function FilesIn(files: seq<File>, dir: string): seq<File> {
    if |files| == 0 then []
    else FilesIn(files[..|files| - 1], dir) + if files[|files| - 1].dir == dir then [files[|files| - 1]] else []
  }

  lemma {:induction false} FilesInAppend(a: seq<File>, b: seq<File>, dir: string)
    ensures FilesIn(a + b, dir) == FilesIn(a, dir) + FilesIn(b, dir)
  {
    if |b| == 0 {
      assert a + b == a;
    } else {
      assert (a + b)[..|a + b| - 1] == a + b[..|b| - 1];
      FilesInAppend(a, b[..|b| - 1], dir);
    }
  }

  lemma {:induction false} FilesInOwn(files: seq<File>, own: string, dir: string)
    requires forall k | 0 <= k < |files| :: files[k].dir == own
    ensures FilesIn(files, dir) == if dir == own then files else []
  {
    if |files| > 0 {
      FilesInOwn(files[..|files| - 1], own, dir);
    }
  }

  lemma {:induction false} NoFilesIn(files: seq<File>, dir: string)
    requires forall k | 0 <= k < |files| :: files[k].dir != dir
    ensures FilesIn(files, dir) == []
  {
    if |files| > 0 {
      NoFilesIn(files[..|files| - 1], dir);
    }
  }

  /** What the result of one directory is once the files have been added to it. */
  ghost function With(objdump: Objdump, before: Totals, objs: seq<File>, dir: string): Totals {
    Add(before, Sum(objdump, FilesIn(objs, dir)))
  }

  lemma WithOneMore(objdump: Objdump, before: Totals, objs: seq<File>, f: File, dir: string)
    ensures With(objdump, before, objs + [f], dir) ==
              if f.dir == dir then Add(With(objdump, before, objs, dir), OfFile(objdump, f))
              else With(objdump, before, objs, dir)
  {
    FilesInAppend(objs, [f], dir);
    FilesInOwn([f], f.dir, dir);
    hide Add, OfFile, FilesIn;
    var mine := FilesIn(objs, dir);
    if f.dir == dir {
      assert (mine + [f])[..|mine + [f]| - 1] == mine;
      hide Sum;
      assert Sum(objdump, mine + [f]) == Add(Sum(objdump, mine), OfFile(objdump, f)) by {
        SumLast(objdump, mine, f);
      }
      AddAssociative(before, Sum(objdump, mine), OfFile(objdump, f));
    } else {
      assert mine + [] == mine;
    }
  }

  lemma SumLast(objdump: Objdump, files: seq<File>, f: File)
    ensures Sum(objdump, files + [f]) == Add(Sum(objdump, files), OfFile(objdump, f))
  {
    assert (files + [f])[..|files + [f]| - 1] == files;
  }

  ghost predicate AllWith(objdump: Objdump, before: map<string, Totals>, objs: seq<File>, results: map<string, Totals>) {
    results.Keys == before.Keys && forall d | d in before :: results[d] == With(objdump, before[d], objs, d)
  }

  lemma NothingAdded(objdump: Objdump, before: map<string, Totals>)
    ensures AllWith(objdump, before, [], before)
  {
    forall d | d in before ensures before[d] == With(objdump, before[d], [], d) {
      AddZero(before[d]);
    }
  }

  lemma OneMoreAdded(objdump: Objdump, before: map<string, Totals>, objs: seq<File>, results: map<string, Totals>,
                     f: File)
    requires AllWith(objdump, before, objs, results) && f.dir in before
    ensures AllWith(objdump, before, objs + [f], results[f.dir := Add(results[f.dir], OfFile(objdump, f))])
  {
    hide With, Add, OfFile;
    var results' := results[f.dir := Add(results[f.dir], OfFile(objdump, f))];
    forall d | d in before ensures results'[d] == With(objdump, before[d], objs + [f], d) {
      WithOneMore(objdump, before[d], objs, f, d);
    }
  }

  /** Every processed file is added to the result of its directory; an error if there is none. */
  method AddToDirs(objdump: Objdump, objs: seq<File>, before: map<string, Totals>)
    returns (r: Result<map<string, Totals>, string>)
    ensures r.Ok? <==> forall k | 0 <= k < |objs| :: objs[k].dir in before
    ensures r.Ok? ==> AllWith(objdump, before, objs, r.value)
  {
    hide AllWith, Add, OfFile;
    var results := before;
    NothingAdded(objdump, before);
    assert objs[..0] == [];
    for k := 0 to |objs|
      invariant results.Keys == before.Keys && forall j | 0 <= j < k :: objs[j].dir in before
      invariant AllWith(objdump, before, objs[..k], results)
    {
      assert objs[..k + 1] == objs[..k] + [objs[k]];
      var mr := ProcessFile(objdump, objs[k]);
      if objs[k].dir !in results {
        return Err("KeyError");
      }
      OneMoreAdded(objdump, before, objs[..k], results, objs[k]);
      results := results[objs[k].dir := Add(results[objs[k].dir], mr)];
    }
    assert objs[..|objs|] == objs;
    return Ok(results);
  }

  // ------------------------------------------------------------------------- a chunk in the making

  /** How far a walk has come: some directories are done, and some files of the next one are taken. */
  ghost predicate IsPosition(dirs: seq<Dir>, done: nat, taken: nat) {
    done <= |dirs| && (taken > 0 ==> done < |dirs| && taken < |dirs[done].files|)
  }

  /** The first file of directory i that a chunk takes when it starts at (done, taken). */
  ghost function From(i: nat, done: nat, taken: nat): nat {
    if i == done then taken else 0
  }

  /** The result of a directory when files from..to are taken but not yet processed. */
  ghost function Partial(objdump: Objdump, dir: Dir, from: nat, to: nat): Totals
    requires from <= to <= |dir.files|
  {
    Sum(objdump, dir.files[..from]).(nfiles := to)
  }

  function Counted(t: Totals, n: nat): Totals {
    t.(nfiles := t.nfiles + n)
  }

  /** The variables of the loop that puts a chunk together; it stands at (end, rest) of the walk. */
  datatype Chunk = Chunk(end: nat, rest: nat, objs: seq<File>, orderedDirs: seq<string>, results: map<string, Totals>)

  /** The chunk has taken from directory i exactly its files from..to, and counted them. */
  ghost predicate HasTaken(objdump: Objdump, dir: Dir, from: nat, to: nat, c: Chunk) {
    && from <= to <= |dir.files| && dir.root in c.results
    && FilesIn(c.objs, FileDir(dir.root)) == dir.files[from..to]
    && c.results[dir.root] == Partial(objdump, dir, from, to)
  }

  /** Every file has a result for its directory, except that "" is the directory of the files of ".". */
  ghost predicate Placed(c: Chunk) {
    && "" !in c.results
    && (forall k | 0 <= k < |c.objs| :: c.objs[k].dir in c.results || (c.objs[k].dir == "" && "." in c.results))
    && ("." in c.results ==> exists k :: 0 <= k < |c.objs| && c.objs[k].dir == "")
  }

  /** A chunk that starts at (done, taken) and has visited some directories, all of them to the end but the last. */
  ghost predicate Progress(objdump: Objdump, dirs: seq<Dir>, done: nat, taken: nat, c: Chunk, incomplete: bool) {
    && IsPosition(dirs, done, taken) && IsPosition(dirs, c.end, c.rest) && done <= c.end
    && (if incomplete then c.rest > 0 else c.rest == From(c.end, done, taken))
    && |c.orderedDirs| == (if incomplete then c.end + 1 else c.end) - done
    && (|c.objs| > 0 <==> |c.orderedDirs| > 0)
    && (forall d :: d in c.results <==> d in c.orderedDirs)
    && Placed(c)
    && (forall i | done <= i < c.end ::
          c.orderedDirs[i - done] == dirs[i].root &&
          HasTaken(objdump, dirs[i], From(i, done, taken), |dirs[i].files|, c))
    && (incomplete ==>
          c.orderedDirs[c.end - done] == dirs[c.end].root &&
          HasTaken(objdump, dirs[c.end], From(c.end, done, taken), c.rest, c))
  }

  /** The chunk takes the next n files. */
  ghost function Take(objdump: Objdump, dirs: seq<Dir>, c: Chunk, n: nat): Chunk
    requires c.end < |dirs| && c.rest + n <= |dirs[c.end].files|
  {
    var dir := dirs[c.end];
    var all := c.rest + n == |dir.files|;
    Chunk(if all then c.end + 1 else c.end, if all then 0 else c.rest + n,
          c.objs + dir.files[c.rest..][..n], c.orderedDirs + [dir.root],
          c.results[dir.root := Partial(objdump, dir, c.rest, c.rest + n)])
  }

  /** What other directories have contributed is not changed. */
  lemma OthersKept(objdump: Objdump, dir: Dir, from: nat, to: nat, next: Dir, slice: seq<File>,
                   c: Chunk, c': Chunk, t: Totals)
    requires HasTaken(objdump, dir, from, to, c) && dir.root != next.root && dir.root != "" && next.root != ""
    requires forall k | 0 <= k < |slice| :: slice[k].dir == FileDir(next.root)
    requires c'.objs == c.objs + slice && c'.results == c.results[next.root := t]
    ensures HasTaken(objdump, dir, from, to, c')
  {
    FilesInAppend(c.objs, slice, FileDir(dir.root));
    FilesInOwn(slice, FileDir(next.root), FileDir(dir.root));
    assert FilesIn(c.objs, FileDir(dir.root)) + [] == FilesIn(c.objs, FileDir(dir.root));
  }

  lemma NewTaken(objdump: Objdump, dir: Dir, from: nat, n: nat, c: Chunk, c': Chunk)
    requires from + n <= |dir.files| && forall k | 0 <= k < |dir.files| :: dir.files[k].dir == FileDir(dir.root)
    requires forall k | 0 <= k < |c.objs| :: c.objs[k].dir != FileDir(dir.root)
    requires c'.objs == c.objs + dir.files[from..][..n]
    requires c'.results == c.results[dir.root := Partial(objdump, dir, from, from + n)]
    ensures HasTaken(objdump, dir, from, from + n, c')
  {
    hide Partial, FilesIn, FileDir;
    var slice, own := dir.files[from..][..n], FileDir(dir.root);
    assert slice == dir.files[from..from + n];
    FilesInAppend(c.objs, slice, own);
    FilesInOwn(slice, own, own);
    NoFilesIn(c.objs, own);
    assert [] + slice == slice;
  }

  /** The next directory is none of those visited. */
  lemma NextIsNew(objdump: Objdump, dirs: seq<Dir>, done: nat, taken: nat, c: Chunk)
    requires GoodDirs(dirs) && Progress(objdump, dirs, done, taken, c, false) && c.end < |dirs|
    ensures dirs[c.end].root !in c.results
    ensures forall k | 0 <= k < |c.objs| :: c.objs[k].dir != FileDir(dirs[c.end].root)
  {
    hide HasTaken;
    forall j | 0 <= j < |c.orderedDirs| ensures c.orderedDirs[j] != dirs[c.end].root {
      assert c.orderedDirs[(done + j) - done] == dirs[done + j].root;
    }
  }

  lemma StillPlaced(c: Chunk, c': Chunk, next: Dir, slice: seq<File>, t: Totals)
    requires Placed(c) && next.root != "" && |slice| > 0
    requires forall k | 0 <= k < |slice| :: slice[k].dir == FileDir(next.root)
    requires c'.objs == c.objs + slice && c'.results == c.results[next.root := t]
    ensures Placed(c')
  {
    assert forall k | 0 <= k < |c.objs| :: c'.objs[k] == c.objs[k];
    assert c'.objs[|c.objs|] == slice[0];
    forall k | 0 <= k < |c'.objs| ensures c'.objs[k].dir in c'.results || (c'.objs[k].dir == "" && "." in c'.results) {
      if k >= |c.objs| {
        assert c'.objs[k] == slice[k - |c.objs|];
      }
    }
  }

  lemma {:induction false} TakeProgress(objdump: Objdump, dirs: seq<Dir>, done: nat, taken: nat, c: Chunk, n: nat)
    requires GoodDirs(dirs) && Progress(objdump, dirs, done, taken, c, false)
    requires c.end < |dirs| && 0 < n && c.rest + n <= |dirs[c.end].files|
    ensures Progress(objdump, dirs, done, taken, Take(objdump, dirs, c, n), c.rest + n < |dirs[c.end].files|)
  {
    hide HasTaken, Partial, FilesIn, Placed;
    var c' := Take(objdump, dirs, c, n);
    var next := dirs[c.end];
    var slice := next.files[c.rest..][..n];
    NextIsNew(objdump, dirs, done, taken, c);
    NewTaken(objdump, next, c.rest, n, c, c');
    forall i | done <= i < c.end ensures HasTaken(objdump, dirs[i], From(i, done, taken), |dirs[i].files|, c') {
      OthersKept(objdump, dirs[i], From(i, done, taken), |dirs[i].files|, next, slice, c, c',
                 Partial(objdump, next, c.rest, c.rest + n));
    }
    StillPlaced(c, c', next, slice, Partial(objdump, next, c.rest, c.rest + n));
    hide GoodDirs;
    assert c'.orderedDirs == c.orderedDirs + [next.root];
  }

  /** The result of a directory as it is started or resumed, with n more files. */
  lemma StartedValue(objdump: Objdump, dir: Dir, from: nat, n: nat)
    requires from + n <= |dir.files|
    ensures Partial(objdump, dir, from, from + n) ==
              Counted(if from == 0 then ZERO else Total(objdump, dir.files[..from]), n)
  {
  }

  lemma NothingTaken(objdump: Objdump, dirs: seq<Dir>, done: nat, taken: nat)
    requires IsPosition(dirs, done, taken)
    ensures Progress(objdump, dirs, done, taken, Chunk(done, taken, [], [], map[]), false)
  {
  }

  /** After the loop, there is a rest exactly if the last directory is incomplete. */
  lemma LastIsIncomplete(objdump: Objdump, dirs: seq<Dir>, done: nat, taken: nat, c: Chunk, incomplete: bool)
    requires Progress(objdump, dirs, done, taken, c, incomplete) && (|c.objs| > 0 || c.end == |dirs|)
    ensures incomplete <==> c.rest > 0
    ensures |c.orderedDirs| == 0 ==> taken == 0
  {
    hide HasTaken;
  }

  /** When the files taken are processed, the result of a directory is the total of its files so far. */
  lemma Processed(objdump: Objdump, dir: Dir, from: nat, to: nat, c: Chunk, results: map<string, Totals>)
    requires HasTaken(objdump, dir, from, to, c) && dir.root in results && dir.root != "."
    requires results[dir.root] == With(objdump, c.results[dir.root], c.objs, dir.root)
    ensures results[dir.root] == Total(objdump, dir.files[..to])
  {
    assert dir.files[..to] == dir.files[..from] + dir.files[from..to];
    SumAppend(objdump, dir.files[..from], dir.files[from..to]);
  }

  /** The result left over from an incomplete directory. */
  ghost function LeftOver(objdump: Objdump, dirs: seq<Dir>, done: nat, taken: nat): Option<Totals>
    requires taken > 0 ==> done < |dirs| && taken <= |dirs[done].files|
  {
    if taken == 0 then None else Some(Total(objdump, dirs[done].files[..taken]))
  }

  /** Some file has no result exactly if the chunk has visited ".". */
  lemma TakenIsPlaced(objdump: Objdump, dirs: seq<Dir>, done: nat, taken: nat, c: Chunk, incomplete: bool)
    requires Progress(objdump, dirs, done, taken, c, incomplete)
    ensures (forall k | 0 <= k < |c.objs| :: c.objs[k].dir in c.results) <==> "." !in c.results
    ensures "." in c.results <==> VisitedDot(dirs, done, c.end, c.rest, incomplete)
    ensures IsPosition(dirs, c.end, c.rest) && done <= c.end
  {
    hide HasTaken;
    if "." in c.results {
      var j :| 0 <= j < |c.orderedDirs| && c.orderedDirs[j] == ".";
      assert c.orderedDirs[(done + j) - done] == dirs[done + j].root;
    }
    if VisitedDot(dirs, done, c.end, c.rest, incomplete) {
      var i :| done <= i < (if incomplete then c.end + 1 else c.end) && dirs[i].root == ".";
      assert c.orderedDirs[i - done] == dirs[i].root;
    }
  }

  /** A directory of a chunk that starts at directory `done` and ends at (end, rest) is ".". */
  ghost predicate VisitedDot(dirs: seq<Dir>, done: nat, end: nat, rest: nat, incomplete: bool)
    requires IsPosition(dirs, end, rest) && (incomplete ==> rest > 0)
  {
    exists i :: done <= i < (if incomplete then end + 1 else end) && dirs[i].root == "."
  }

  /** The results of the directories named are the totals of these directories. */
  ghost predicate AreTotals(objdump: Objdump, dirs: seq<Dir>, names: seq<string>, results: map<string, Totals>) {
    && |dirs| <= |names|
    && forall k | 0 <= k < |dirs| ::
         names[k] == dirs[k].root && names[k] in results && results[names[k]] == Total(objdump, dirs[k].files)
  }

  lemma AllProcessed(objdump: Objdump, dirs: seq<Dir>, done: nat, taken: nat, c: Chunk, incomplete: bool,
                     results: map<string, Totals>)
    requires Progress(objdump, dirs, done, taken, c, incomplete) && AllWith(objdump, c.results, c.objs, results)
    requires "." !in c.results
    ensures |c.orderedDirs| == (if incomplete then c.end + 1 else c.end) - done
    ensures AreTotals(objdump, dirs[done..c.end], c.orderedDirs, results)
    ensures incomplete ==>
              c.orderedDirs[c.end - done] in results && IsPosition(dirs, c.end, c.rest) &&
              Some(results[c.orderedDirs[c.end - done]]) == LeftOver(objdump, dirs, c.end, c.rest)
  {
    hide Total, With, HasTaken;
    forall k | 0 <= k < c.end - done
      ensures c.orderedDirs[k] == dirs[done + k].root && c.orderedDirs[k] in results
      ensures results[c.orderedDirs[k]] == Total(objdump, dirs[done + k].files)
    {
      var dir := dirs[done..c.end][k];
      assert c.orderedDirs[(done + k) - done] == dir.root;
      Processed(objdump, dir, From(done + k, done, taken), |dir.files|, c, results);
      assert dir.files[..|dir.files|] == dir.files;
    }
    if incomplete {
      Processed(objdump, dirs[c.end], From(c.end, done, taken), c.rest, c, results);
    }
  }

  /**
    Processes the files of a chunk; the results of completed directories are their totals. It fails
    exactly if the chunk has files of ".".
   */
  method ProcessTaken(objdump: Objdump, objs: seq<File>, started: map<string, Totals>, orderedDirs: seq<string>,
                      incomplete: bool, ghost dirs: seq<Dir>, ghost done: nat, ghost taken: nat,
                      ghost end: nat, ghost rest: nat)
    returns (r: Result<map<string, Totals>, string>)
    requires Progress(objdump, dirs, done, taken, Chunk(end, rest, objs, orderedDirs, started), incomplete)
    ensures IsPosition(dirs, end, rest) && done <= end && (incomplete ==> rest > 0)
    ensures r.Err? <==> VisitedDot(dirs, done, end, rest, incomplete)
    ensures |orderedDirs| == (if incomplete then end + 1 else end) - done
    ensures r.Ok? ==> AreTotals(objdump, dirs[done..end], orderedDirs, r.value)
    ensures r.Ok? && incomplete ==>
              orderedDirs[end - done] in r.value &&
              Some(r.value[orderedDirs[end - done]]) == LeftOver(objdump, dirs, end, rest)
  {
    hide Progress, Total, AllWith, AreTotals, VisitedDot, LeftOver;
    ghost var c := Chunk(end, rest, objs, orderedDirs, started);
    ProgressSize(objdump, dirs, done, taken, c, incomplete);
    TakenIsPlaced(objdump, dirs, done, taken, c, incomplete);
    r := AddToDirs(objdump, objs, started);
    if r.Ok? {
      AllProcessed(objdump, dirs, done, taken, c, incomplete, r.value);
    }
  }

  lemma ProgressSize(objdump: Objdump, dirs: seq<Dir>, done: nat, taken: nat, c: Chunk, incomplete: bool)
    requires Progress(objdump, dirs, done, taken, c, incomplete)
    ensures |c.orderedDirs| == (if incomplete then c.end + 1 else c.end) - done
    ensures incomplete ==> c.rest > 0
  {
    hide HasTaken, Placed;
  }

  lemma EmptyRow(printed: seq<Row>, root: string)
    ensures Busy(printed + [Row(root, ZERO)]) == Busy(printed)
    ensures Idle(printed + [Row(root, ZERO)]) == Idle(printed) + [Row(root, ZERO)]
  {
    assert (printed + [Row(root, ZERO)])[..|printed + [Row(root, ZERO)]| - 1] == printed;
    assert Busy(printed) + [] == Busy(printed);
  }

  lemma OneMorePending(dirs: seq<Dir>, done: nat, taken: nat, dir: Dir)
    requires IsPosition(dirs, done, taken)
    ensures IsPosition(dirs + [dir], done, taken)
    ensures VisitedDot(dirs + [dir], 0, done, taken, taken > 0) <==> VisitedDot(dirs, 0, done, taken, taken > 0)
    ensures Rest(dirs + [dir], done, taken) == Rest(dirs, done, taken) + [dir]
    ensures Count(Rest(dirs, done, taken) + [dir]) == Count(Rest(dirs, done, taken)) + |dir.files|
  {
    CountAppend(Rest(dirs, done, taken), dir);
    assert forall i | 0 <= i < |dirs| :: (dirs + [dir])[i] == dirs[i];
    if done < |dirs| {
      assert (dirs + [dir])[done + 1..] == dirs[done + 1..] + [dir];
    } else {
      assert dir.files[0..] == dir.files;
    }
  }

  lemma OneMoreDir(objdump: Objdump, dirs: seq<Dir>, done: nat, taken: nat, dir: Dir)
    requires GoodDirs(dirs) && IsPosition(dirs, done, taken) && |dir.files| > 0 && dir.root != ""
    requires forall k | 0 <= k < |dir.files| :: dir.files[k].dir == FileDir(dir.root)
    requires forall i | 0 <= i < |dirs| :: dirs[i].root != dir.root
    ensures GoodDirs(dirs + [dir]) && IsPosition(dirs + [dir], done, taken)
    ensures (dirs + [dir])[..done] == dirs[..done]
    ensures LeftOver(objdump, dirs + [dir], done, taken) == LeftOver(objdump, dirs, done, taken)
    ensures VisitedDot(dirs + [dir], 0, done, taken, taken > 0) <==> VisitedDot(dirs, 0, done, taken, taken > 0)
    ensures Rest(dirs + [dir], done, taken) == Rest(dirs, done, taken) + [dir]
    ensures Count(Rest(dirs, done, taken) + [dir]) == Count(Rest(dirs, done, taken)) + |dir.files|
  {
    OneMorePending(dirs, done, taken, dir);
  }

  lemma {:induction false} CountAppend(dirs: seq<Dir>, dir: Dir)
    ensures Count(dirs + [dir]) == Count(dirs) + |dir.files|
  {
    if |dirs| > 0 {
      assert (dirs + [dir])[1..] == dirs[1..] + [dir];
      CountAppend(dirs[1..], dir);
    }
  }

  lemma Reported(objdump: Objdump, dirs: seq<Dir>, k: nat, printed: seq<Row>)
    requires k < |dirs| && |dirs[k].files| > 0
    ensures Rows(objdump, dirs[..k + 1]) == Rows(objdump, dirs[..k]) + [Row(dirs[k].root, Total(objdump, dirs[k].files))]
    ensures Total(objdump, AllFiles(dirs[..k + 1])) ==
              Add(Total(objdump, AllFiles(dirs[..k])), Total(objdump, dirs[k].files))
    ensures var row := Row(dirs[k].root, Total(objdump, dirs[k].files));
            Busy(printed + [row]) == Busy(printed) + [row] && Idle(printed + [row]) == Idle(printed)
  {
    assert dirs[..k + 1][..k] == dirs[..k];
    TotalAppend(objdump, AllFiles(dirs[..k]), dirs[k].files);
    var row := Row(dirs[k].root, Total(objdump, dirs[k].files));
    assert (printed + [row])[..|printed + [row]| - 1] == printed;
    assert Idle(printed) + [] == Idle(printed);
  }

  // ----------------------------------------------------------------------------------- the context

  /** The directories are in the cumulative result, and printed in their order. */
  ghost predicate IsReported(objdump: Objdump, dirs: seq<Dir>, cumulative: Totals, printed: seq<Row>) {
    cumulative == Total(objdump, AllFiles(dirs)) && Busy(printed) == Rows(objdump, dirs)
  }

  class MapContext {
    const objdump: Objdump
    var rincomplete: Option<Totals>
    var rcumulative: Totals
    var pendingObjs: seq<Dir>
    var npending: nat
    var printed: seq<Row>
    ghost var walked: seq<Dir>    // all directories with object files so far
    ghost var done: nat           // that many of them are reported
    ghost var taken: nat          // that many files of the next one are processed

    ghost predicate Valid()
      reads this
    {
      && GoodDirs(walked) && IsPosition(walked, done, taken)
      && pendingObjs == Rest(walked, done, taken) && npending == Count(pendingObjs)
      && rincomplete == LeftOver(objdump, walked, done, taken)
      && IsReported(objdump, walked[..done], rcumulative, printed)
      && !VisitedDot(walked, 0, done, taken, taken > 0)
    }

    constructor (objdump: Objdump)
      ensures Valid() && this.objdump == objdump
      ensures walked == [] && npending == 0 && printed == []
    {
      this.objdump := objdump;
      rincomplete, rcumulative := None, ZERO;
      pendingObjs, npending, printed := [], 0, [];
      walked, done, taken := [], 0, 0;
    }

    /** Takes as many files of the first pending directory as are needed and there, and starts or resumes its result. */
    method TakeDir(nneeded: nat, objs: seq<File>, dirResults: map<string, Totals>, orderedDirs: seq<string>,
                   ghost end: nat, ghost rest: nat)
      returns (objs': seq<File>, dirResults': map<string, Totals>, orderedDirs': seq<string>, incomplete: bool,
               ghost ntaken: nat)
      requires GoodDirs(walked) && IsPosition(walked, end, rest) && nneeded > 0
      requires pendingObjs == Rest(walked, end, rest) && npending == Count(pendingObjs) && npending > 0
      requires rincomplete == LeftOver(objdump, walked, end, rest)
      modifies this`pendingObjs, this`npending, this`rincomplete
      ensures end < |walked| && rest < |walked[end].files|
      ensures ntaken == if nneeded < |walked[end].files| - rest then nneeded else |walked[end].files| - rest
      ensures var c := Take(objdump, walked, Chunk(end, rest, objs, orderedDirs, dirResults), ntaken);
              c.objs == objs' && c.orderedDirs == orderedDirs' && c.results == dirResults' &&
              IsPosition(walked, c.end, c.rest) && pendingObjs == Rest(walked, c.end, c.rest)
      ensures npending == Count(pendingObjs) && npending + ntaken == old(npending) && rincomplete == None
      ensures incomplete <==> rest + ntaken < |walked[end].files|
    {
      hide Rest, Count, Total, Partial, Counted;
      PendingIffMore(walked, end, rest);
      RestHead(walked, end, rest);
      var thisDir := pendingObjs[0].root;
      orderedDirs' := orderedDirs + [thisDir];
      var re := ZERO;
      if rincomplete.Some? {
        re := rincomplete.value;
        rincomplete := None;
      }
      var objsThisDir := pendingObjs[0].files;
      var navail := |objsThisDir|;
      var n := if nneeded < navail then nneeded else navail;
      ntaken := n;
      RestAfter(walked, end, rest, n);
      StartedValue(objdump, walked[end], rest, n);
      dirResults' := dirResults[thisDir := Counted(re, n)];
      objs' := objs + objsThisDir[..n];
      pendingObjs := [Dir(thisDir, objsThisDir[n..])] + pendingObjs[1..];
      npending := npending - n;
      incomplete := n != navail;
      if n == navail {
        pendingObjs := pendingObjs[1..];
      }
    }

    /** Takes files for a chunk from the pending directories. */
    method TakeObjects(chunkSize: nat)
      returns (objs: seq<File>, dirResults: map<string, Totals>, orderedDirs: seq<string>, incomplete: bool,
               ghost end: nat, ghost rest: nat)
      requires Valid() && chunkSize > 0
      modifies this`pendingObjs, this`npending, this`rincomplete
      ensures Progress(objdump, walked, done, taken, Chunk(end, rest, objs, orderedDirs, dirResults), incomplete)
      ensures pendingObjs == Rest(walked, end, rest) && npending == Count(pendingObjs)
      ensures npending == if old(npending) < chunkSize then 0 else old(npending) - chunkSize
      ensures rincomplete == None && (incomplete <==> rest > 0)
    {
      objs, dirResults, orderedDirs, incomplete := [], map[], [], false;
      end, rest := done, taken;
      hide Progress, Rest, Count, Total, Partial, GoodDirs, IsReported;
      NothingTaken(objdump, walked, done, taken);
      while npending > 0 && |objs| < chunkSize
        invariant IsPosition(walked, end, rest)
        invariant Progress(objdump, walked, done, taken, Chunk(end, rest, objs, orderedDirs, dirResults), incomplete)
        invariant pendingObjs == Rest(walked, end, rest) && npending == Count(pendingObjs)
        invariant npending + |objs| == old(npending) && |objs| <= chunkSize
        invariant incomplete ==> |objs| == chunkSize
        invariant rincomplete == if incomplete then None else LeftOver(objdump, walked, end, rest)
      {
        ghost var c := Chunk(end, rest, objs, orderedDirs, dirResults);
        ghost var ntaken: nat;
        objs, dirResults, orderedDirs, incomplete, ntaken :=
          TakeDir(chunkSize - |objs|, objs, dirResults, orderedDirs, end, rest);
        TakeProgress(objdump, walked, done, taken, c, ntaken);
        c := Take(objdump, walked, c, ntaken);
        end, rest := c.end, c.rest;
      }
      PendingIffMore(walked, end, rest);
      LastIsIncomplete(objdump, walked, done, taken, Chunk(end, rest, objs, orderedDirs, dirResults), incomplete);
    }

    /** Adds the results of completed directories to the cumulative result, and prints them. */
    method Report(orderedDirs: seq<string>, dirResults: map<string, Totals>, n: nat)
      requires GoodDirs(walked) && done + n <= |walked| && n <= |orderedDirs|
      requires AreTotals(objdump, walked[done..done + n], orderedDirs, dirResults)
      requires IsReported(objdump, walked[..done], rcumulative, printed)
      modifies this`rcumulative, this`printed
      ensures IsReported(objdump, walked[..done + n], rcumulative, printed)
      ensures old(printed) <= printed && Idle(printed) == old(Idle(printed))
    {
      hide Total, Rows, Busy, Idle, AllFiles, Add;
      for k := 0 to n
        invariant IsReported(objdump, walked[..done + k], rcumulative, printed)
        invariant old(printed) <= printed && Idle(printed) == old(Idle(printed))
      {
        assert |walked[done + k].files| > 0 && walked[done..done + n][k] == walked[done + k];
        hide GoodDirs;
        Reported(objdump, walked, done + k, printed);
        var re := dirResults[orderedDirs[k]];
        rcumulative := Add(rcumulative, re);
        printed := printed + [Row(orderedDirs[k], re)];
      }
    }

    /**
      Processes the files of a chunk, reports the directories that it completes and keeps what is left
      over; it fails exactly if the chunk has files of ".".
     */
    method ProcessObjects(objs: seq<File>, started: map<string, Totals>, orderedDirs: seq<string>, incomplete: bool,
                          ghost end: nat, ghost rest: nat)
      returns (ok: bool)
      requires GoodDirs(walked) && rincomplete == None && (incomplete <==> rest > 0)
      requires Progress(objdump, walked, done, taken, Chunk(end, rest, objs, orderedDirs, started), incomplete)
      requires IsReported(objdump, walked[..done], rcumulative, printed)
      modifies this`rincomplete, this`rcumulative, this`printed
      ensures IsPosition(walked, end, rest) && done <= end
      ensures ok <==> !VisitedDot(walked, done, end, rest, incomplete)
      ensures ok ==> rincomplete == LeftOver(objdump, walked, end, rest)
      ensures ok ==> IsReported(objdump, walked[..end], rcumulative, printed)
      ensures !ok ==> printed == old(printed)
      ensures old(printed) <= printed && Idle(printed) == old(Idle(printed))
    {
      hide Progress, IsReported, GoodDirs, Idle, Total, AreTotals, VisitedDot;
      var results := ProcessTaken(objdump, objs, started, orderedDirs, incomplete, walked, done, taken, end, rest);
      if results.Err? {
        return false;
      }
      var dirResults, ncompleted := results.value, |orderedDirs|;
      if incomplete {
        ncompleted := ncompleted - 1;
        rincomplete := Some(dirResults[orderedDirs[ncompleted]]);
      } else {
        assert LeftOver(objdump, walked, end, rest) == None;
      }
      Report(orderedDirs, dirResults, ncompleted);
      return true;
    }

    /** process_one_chunk; it fails if a directory of the chunk is ".". */
    method ProcessOneChunk(chunkSize: nat) returns (ok: bool)
      requires Valid() && chunkSize > 0
      modifies this
      ensures walked == old(walked) && (ok ==> Valid()) && (!ok ==> HasDot(walked))
      ensures npending == if old(npending) < chunkSize then 0 else old(npending) - chunkSize
      ensures old(printed) <= printed && Idle(printed) == old(Idle(printed))
    {
      var objs, dirResults, orderedDirs, incomplete;
      ghost var end: nat, rest: nat;
      hide Progress, Rest, Count, IsReported, GoodDirs, Idle, LeftOver;
      objs, dirResults, orderedDirs, incomplete, end, rest := TakeObjects(chunkSize);
      ok := ProcessObjects(objs, dirResults, orderedDirs, incomplete, end, rest);
      done, taken := end, rest;
    }

    /** process_pending_files: drains the pending files until there are less than a chunk. */
    method ProcessPendingFiles(chunkSize: nat) returns (ok: bool)
      requires Valid() && chunkSize > 0
      modifies this
      ensures walked == old(walked) && (ok ==> Valid() && npending < chunkSize) && (!ok ==> HasDot(walked))
      ensures old(printed) <= printed && Idle(printed) == old(Idle(printed))
    {
      while npending >= chunkSize
        invariant Valid() && walked == old(walked)
        invariant old(printed) <= printed && Idle(printed) == old(Idle(printed))
      {
        ok := ProcessOneChunk(chunkSize);
        if !ok {
          return;
        }
      }
      return true;
    }

    /** A directory of the walk with its object files. */
    method AddDir(root: string, pending: seq<File>, chunkSize: nat) returns (ok: bool)
      requires Valid() && chunkSize > 0 && |pending| > 0 && root != ""
      requires forall k | 0 <= k < |pending| :: pending[k].dir == FileDir(root)
      requires forall i | 0 <= i < |walked| :: walked[i].root != root
      modifies this
      ensures walked == old(walked) + [Dir(root, pending)]
      ensures (ok ==> Valid() && npending < chunkSize) && (!ok ==> HasDot(walked))
      ensures old(printed) <= printed && Idle(printed) == old(Idle(printed))
    {
      hide Rest, Count, LeftOver, IsReported, GoodDirs, Idle, VisitedDot;
      OneMoreDir(objdump, walked, done, taken, Dir(root, pending));
      npending := npending + |pending|;
      pendingObjs := pendingObjs + [Dir(root, pending)];
      walked := walked + [Dir(root, pending)];
      ok := ProcessPendingFiles(chunkSize);
    }

    /** When nothing is pending, every directory is reported. */
    lemma NothingLeft()
      requires Valid() && npending == 0
      ensures rcumulative == Total(objdump, AllFiles(walked)) && rcumulative.nfiles == |AllFiles(walked)|
      ensures Busy(printed) == Rows(objdump, walked) && !HasDot(walked)
    {
      PendingIffMore(walked, done, taken);
      assert walked[..done] == walked;
    }

    /** A directory without object files. */
    method AddEmptyDir(root: string)
      requires Valid()
      modifies this`printed
      ensures Valid() && printed == old(printed) + [Row(root, ZERO)]
      ensures Idle(printed) == old(Idle(printed)) + [Row(root, ZERO)]
    {
      EmptyRow(printed, root);
      hide Rest, Count, Total, GoodDirs, Idle, Busy;
      printed := printed + [Row(root, ZERO)];
    }
  }

  // ------------------------------------------------------------------------------------- the walk

  /** What os.walk yields for one directory. */
  datatype Entry = Entry(root: string, names: seq<string>)

  /** The object files of a directory, by their extension. */
  ghost function ObjectsIn(root: string, names: seq<string>, isObject: string -> bool): seq<File> {
    if |names| == 0 then []
    else
      var last := names[|names| - 1];
      ObjectsIn(root, names[..|names| - 1], isObject) + if isObject(last) then [File(FileDir(root), last)] else []
  }

  /** The directories with object files, in walk order. */
  ghost function Found(walk: seq<Entry>, isObject: string -> bool): seq<Dir> {
    if |walk| == 0 then []
    else
      var last := walk[|walk| - 1];
      var files := ObjectsIn(last.root, last.names, isObject);
      Found(walk[..|walk| - 1], isObject) + if |files| > 0 then [Dir(last.root, files)] else []
  }

  /** A row for every directory without object files, in walk order. */
  ghost function EmptyRows(walk: seq<Entry>, isObject: string -> bool): seq<Row> {
    if |walk| == 0 then []
    else
      var last := walk[|walk| - 1];
      EmptyRows(walk[..|walk| - 1], isObject) +
        if |ObjectsIn(last.root, last.names, isObject)| > 0 then [] else [Row(last.root, ZERO)]
  }

  // ----------------------------------------------------------------- what is found, and reported

  /** The object files are those names that are object files, in their order, in the directory of the walk. */
  lemma {:induction false} ObjectsAre(root: string, names: seq<string>, isObject: string -> bool) returns (kept: seq<string>)
    ensures Sublists.IsSublist(names, isObject, kept) && |ObjectsIn(root, names, isObject)| == |kept|
    ensures forall i | 0 <= i < |kept| :: ObjectsIn(root, names, isObject)[i] == File(if root == "." then "" else root, kept[i])
  {
    hide Sublists.IsSublist;
    kept := [];
    if |names| == 0 {
      Sublists.NoPositions(isObject);
    } else {
      var n := |names| - 1;
      kept := ObjectsAre(root, names[..n], isObject);
      Sublists.OneMore(names[..n], isObject, kept, names[n]);
      assert names == names[..n] + [names[n]];
      if isObject(names[n]) {
        kept := kept + [names[n]];
      }
    }
  }

  /** The object files of a directory. */
  ghost function Files(isObject: string -> bool, e: Entry): seq<File> {
    ObjectsIn(e.root, e.names, isObject)
  }

  ghost function HasObjects(isObject: string -> bool): Entry -> bool {
    (e: Entry) => |Files(isObject, e)| > 0
  }

  ghost function HasNone(isObject: string -> bool): Entry -> bool {
    (e: Entry) => |Files(isObject, e)| == 0
  }

  ghost function IsBusy(): Row -> bool {
    (row: Row) => row.totals.nfiles > 0
  }

  ghost function IsIdle(): Row -> bool {
    (row: Row) => row.totals.nfiles == 0
  }

  lemma {:induction false} BusyAre(rows: seq<Row>)
    ensures Sublists.IsSublist(rows, IsBusy(), Busy(rows)) && Sublists.IsSublist(rows, IsIdle(), Idle(rows))
  {
    hide Sublists.IsSublist;
    if |rows| == 0 {
      Sublists.NoPositions(IsBusy());
      Sublists.NoPositions(IsIdle());
    } else {
      var n := |rows| - 1;
      BusyAre(rows[..n]);
      Sublists.OneMore(rows[..n], IsBusy(), Busy(rows[..n]), rows[n]);
      Sublists.OneMore(rows[..n], IsIdle(), Idle(rows[..n]), rows[n]);
      assert rows == rows[..n] + [rows[n]];
      assert Busy(rows[..n]) + [] == Busy(rows[..n]) && Idle(rows[..n]) + [] == Idle(rows[..n]);
    }
  }

  /** The directories found are those with object files, in walk order. */
  lemma {:induction false} FoundAre(walk: seq<Entry>, isObject: string -> bool) returns (kept: seq<Entry>)
    ensures Sublists.IsSublist(walk, HasObjects(isObject), kept) && |Found(walk, isObject)| == |kept|
    ensures forall i | 0 <= i < |kept| :: Found(walk, isObject)[i] == Dir(kept[i].root, Files(isObject, kept[i]))
  {
    hide Sublists.IsSublist, ObjectsIn;
    kept := [];
    if |walk| == 0 {
      Sublists.NoPositions(HasObjects(isObject));
    } else {
      var n := |walk| - 1;
      kept := FoundAre(walk[..n], isObject);
      Sublists.OneMore(walk[..n], HasObjects(isObject), kept, walk[n]);
      assert walk == walk[..n] + [walk[n]];
      if |Files(isObject, walk[n])| > 0 {
        kept := kept + [walk[n]];
      }
    }
  }

  lemma {:induction false} EmptyRowsAre(walk: seq<Entry>, isObject: string -> bool) returns (kept: seq<Entry>)
    ensures Sublists.IsSublist(walk, HasNone(isObject), kept) && |EmptyRows(walk, isObject)| == |kept|
    ensures forall i | 0 <= i < |kept| :: EmptyRows(walk, isObject)[i] == Row(kept[i].root, Totals([], {}, 0, 0))
  {
    hide Sublists.IsSublist, ObjectsIn;
    kept := [];
    if |walk| == 0 {
      Sublists.NoPositions(HasNone(isObject));
    } else {
      var n := |walk| - 1;
      kept := EmptyRowsAre(walk[..n], isObject);
      Sublists.OneMore(walk[..n], HasNone(isObject), kept, walk[n]);
      assert walk == walk[..n] + [walk[n]];
      if |Files(isObject, walk[n])| == 0 {
        kept := kept + [walk[n]];
      }
    }
  }

  lemma {:induction false} RowsAt(objdump: Objdump, dirs: seq<Dir>, i: nat)
    requires i < |dirs|
    ensures |Rows(objdump, dirs)| == |dirs| && Rows(objdump, dirs)[i] == Row(dirs[i].root, Total(objdump, dirs[i].files))
  {
    hide Total;
    RowsSize(objdump, dirs);
    RowsSize(objdump, dirs[..|dirs| - 1]);
    if i < |dirs| - 1 {
      RowsAt(objdump, dirs[..|dirs| - 1], i);
    }
  }

  lemma {:induction false} RowsSize(objdump: Objdump, dirs: seq<Dir>)
    ensures |Rows(objdump, dirs)| == |dirs|
  {
    hide Total;
    if |dirs| > 0 {
      RowsSize(objdump, dirs[..|dirs| - 1]);
    }
  }

  /** The object files of the whole walk, directory by directory. */
  ghost function WalkFiles(walk: seq<Entry>, isObject: string -> bool): seq<File> {
    if |walk| == 0 then [] else Files(isObject, walk[0]) + WalkFiles(walk[1..], isObject)
  }

  lemma {:induction false} WalkFilesLast(walk: seq<Entry>, isObject: string -> bool, e: Entry)
    ensures WalkFiles(walk + [e], isObject) == WalkFiles(walk, isObject) + Files(isObject, e)
  {
    hide Files;
    if |walk| == 0 {
      assert walk + [e] == [e];
      assert [e][1..] == [] && WalkFiles([e][1..], isObject) == [];
    } else {
      assert (walk + [e])[1..] == walk[1..] + [e];
      WalkFilesLast(walk[1..], isObject, e);
    }
  }

  lemma {:induction false} FilesAreAll(walk: seq<Entry>, isObject: string -> bool)
    ensures AllFiles(Found(walk, isObject)) == WalkFiles(walk, isObject)
  {
    hide Found, WalkFiles, AllFiles, ObjectsIn;
    if |walk| == 0 {
      NothingFound(isObject);
    } else {
      var n := |walk| - 1;
      FilesAreAll(walk[..n], isObject);
      WalkFilesLast(walk[..n], isObject, walk[n]);
      assert walk == walk[..n] + [walk[n]];
      FoundLastFiles(walk, isObject);
    }
  }

  lemma NothingFound(isObject: string -> bool)
    ensures AllFiles(Found([], isObject)) == [] && WalkFiles([], isObject) == []
  {
  }

  lemma FoundLastFiles(walk: seq<Entry>, isObject: string -> bool)
    requires |walk| > 0
    ensures AllFiles(Found(walk, isObject)) ==
              AllFiles(Found(walk[..|walk| - 1], isObject)) + Files(isObject, walk[|walk| - 1])
  {
    var found, last := Found(walk[..|walk| - 1], isObject), walk[|walk| - 1];
    var dir := Dir(last.root, Files(isObject, last));
    assert found + [] == found && AllFiles(found) + [] == AllFiles(found);
    assert (found + [dir])[..|found + [dir]| - 1] == found;
    hide ObjectsIn;
  }

  /** The rows for the kept directories hold their own totals. */
  ghost predicate AreRowsOf(objdump: Objdump, isObject: string -> bool, kept: seq<Entry>, rows: seq<Row>) {
    |rows| == |kept| && forall i | 0 <= i < |kept| ::
      rows[i].dir == kept[i].root && Describes(objdump, Files(isObject, kept[i]), rows[i].totals)
  }

  /** One row for each directory of the walk with object files, in its order, and one for each other. */
  ghost predicate IsReportOf(objdump: Objdump, walk: seq<Entry>, isObject: string -> bool, printed: seq<Row>) {
    exists busy, idle, withFiles, without ::
      && Sublists.IsSublist(printed, IsBusy(), busy) && Sublists.IsSublist(printed, IsIdle(), idle)
      && Sublists.IsSublist(walk, HasObjects(isObject), withFiles) && Sublists.IsSublist(walk, HasNone(isObject), without)
      && AreRowsOf(objdump, isObject, withFiles, busy) && AreRowsOf(objdump, isObject, without, idle)
  }

  lemma ZeroDescribes(objdump: Objdump, files: seq<File>)
    requires |files| == 0
    ensures Describes(objdump, files, Totals([], {}, 0, 0))
  {
    TotalDescribes(objdump, []);
  }

  lemma PrintedIsReport(objdump: Objdump, walk: seq<Entry>, isObject: string -> bool, printed: seq<Row>)
    requires Busy(printed) == Rows(objdump, Found(walk, isObject)) && Idle(printed) == EmptyRows(walk, isObject)
    ensures IsReportOf(objdump, walk, isObject, printed)
  {
    BusyAre(printed);
    var withFiles := FoundAre(walk, isObject);
    var without := EmptyRowsAre(walk, isObject);
    hide Busy, Idle, Rows, Found, EmptyRows, ObjectsIn, Describes, Total;
    var busy, idle := Busy(printed), Idle(printed);
    RowsSize(objdump, Found(walk, isObject));
    forall i | 0 <= i < |withFiles|
      ensures busy[i].dir == withFiles[i].root && Describes(objdump, Files(isObject, withFiles[i]), busy[i].totals)
    {
      RowsAt(objdump, Found(walk, isObject), i);
      TotalDescribes(objdump, Files(isObject, withFiles[i]));
    }
    forall i | 0 <= i < |without|
      ensures idle[i].dir == without[i].root && Describes(objdump, Files(isObject, without[i]), idle[i].totals)
    {
      Sublists.Elements(walk, HasNone(isObject), without, without[i]);
      ZeroDescribes(objdump, Files(isObject, without[i]));
    }
    hide Sublists.IsSublist;
    assert AreRowsOf(objdump, isObject, withFiles, busy) && AreRowsOf(objdump, isObject, without, idle);
  }

  lemma {:induction false} FoundInWalk(walk: seq<Entry>, isObject: string -> bool, root: string)
    requires forall k | 0 <= k < |walk| :: walk[k].root != root
    ensures forall i | 0 <= i < |Found(walk, isObject)| :: Found(walk, isObject)[i].root != root
  {
    if |walk| > 0 {
      FoundInWalk(walk[..|walk| - 1], isObject, root);
    }
  }

  lemma EmptyWalk(isObject: string -> bool)
    ensures Found([], isObject) == [] && AllFiles(Found([], isObject)) == []
    ensures EmptyRows([], isObject) == [] && Idle([]) == []
  {
  }

  lemma WalkStep(walk: seq<Entry>, k: nat, isObject: string -> bool)
    requires k < |walk|
    ensures var e := walk[k];
            var files := ObjectsIn(e.root, e.names, isObject);
            if |files| > 0 then
              Found(walk[..k + 1], isObject) == Found(walk[..k], isObject) + [Dir(e.root, files)] &&
              EmptyRows(walk[..k + 1], isObject) == EmptyRows(walk[..k], isObject) &&
              |AllFiles(Found(walk[..k + 1], isObject))| == |AllFiles(Found(walk[..k], isObject))| + |files|
            else
              Found(walk[..k + 1], isObject) == Found(walk[..k], isObject) &&
              EmptyRows(walk[..k + 1], isObject) == EmptyRows(walk[..k], isObject) + [Row(e.root, ZERO)]
  {
    assert walk[..k + 1][..k] == walk[..k];
    var before := Found(walk[..k], isObject);
    var dir := Dir(walk[k].root, ObjectsIn(walk[k].root, walk[k].names, isObject));
    assert (before + [dir])[..|before + [dir]| - 1] == before;
    assert EmptyRows(walk[..k], isObject) + [] == EmptyRows(walk[..k], isObject);
    assert before + [] == before;
  }

  method FindObjects(e: Entry, isObject: string -> bool) returns (pending: seq<File>)
    ensures pending == ObjectsIn(e.root, e.names, isObject)
    ensures forall k | 0 <= k < |pending| :: pending[k].dir == FileDir(e.root)
  {
    pending := [];
    for k := 0 to |e.names|
      invariant pending == ObjectsIn(e.root, e.names[..k], isObject)
      invariant forall j | 0 <= j < k && j < |pending| :: pending[j].dir == FileDir(e.root)
      invariant |pending| <= k
    {
      assert e.names[..k + 1][..k] == e.names[..k];
      if isObject(e.names[k]) {
        pending := pending + [File(FileDir(e.root), e.names[k])];
      }
    }
    assert e.names[..|e.names|] == e.names;
  }

  /** The walk starts at the current directory, and finds object files in it. */
  ghost predicate ObjectsInDot(walk: seq<Entry>, isObject: string -> bool) {
    exists k :: 0 <= k < |walk| && walk[k].root == "." && |ObjectsIn(".", walk[k].names, isObject)| > 0
  }

  lemma {:induction false} FoundDot(walk: seq<Entry>, isObject: string -> bool)
    ensures HasDot(Found(walk, isObject)) <==> ObjectsInDot(walk, isObject)
  {
    if |walk| > 0 {
      var front, last := walk[..|walk| - 1], walk[|walk| - 1];
      FoundDot(front, isObject);
      var found := Found(front, isObject);
      if HasDot(found) {
        var i :| 0 <= i < |found| && found[i].root == ".";
        assert Found(walk, isObject)[i].root == ".";
      }
      if last.root == "." && |ObjectsIn(".", last.names, isObject)| > 0 {
        assert Found(walk, isObject)[|found|].root == ".";
      }
    }
  }

  /**
    The whole run, for any chunk size. It fails exactly if there are object files in the current
    directory itself. Otherwise the total is that of all object files, every directory is reported
    once, in walk order, with its own total, and nothing is left incomplete.
   */
  method Go(walk: seq<Entry>, isObject: string -> bool, objdump: Objdump, chunkSize: nat)
    returns (r: Result<Totals, string>, printed: seq<Row>, nfiles: nat)
    requires chunkSize > 0 && forall j, k | 0 <= j < k < |walk| :: walk[j].root != walk[k].root
    requires forall k | 0 <= k < |walk| :: walk[k].root != ""
    ensures r.Err? <==> ObjectsInDot(walk, isObject)
    ensures r.Ok? ==> r.value == Total(objdump, AllFiles(Found(walk, isObject))) && r.value.nfiles == nfiles
    ensures r.Ok? ==> Busy(printed) == Rows(objdump, Found(walk, isObject))
    ensures r.Ok? ==> Idle(printed) == EmptyRows(walk, isObject)
    ensures r.Ok? ==> Describes(objdump, WalkFiles(walk, isObject), r.value) && IsReportOf(objdump, walk, isObject, printed)
  {
    hide Describes, IsReportOf, WalkFiles, Total, MapContext.Valid, IsReported, Idle, Busy, Rows, GoodDirs, Found, EmptyRows, AllFiles, ObjectsIn, HasDot;
    nfiles := 0;
    var context := new MapContext(objdump);
    EmptyWalk(isObject);
    assert walk[..0] == [];
    for k := 0 to |walk|
      invariant fresh(context) && context.Valid() && context.objdump == objdump && context.npending < chunkSize
      invariant context.walked == Found(walk[..k], isObject)
      invariant nfiles == |AllFiles(Found(walk[..k], isObject))|
      invariant Idle(context.printed) == EmptyRows(walk[..k], isObject)
    {
      WalkStep(walk, k, isObject);
      var pending := FindObjects(walk[k], isObject);
      nfiles := nfiles + |pending|;
      if |pending| == 0 {
        context.AddEmptyDir(walk[k].root);
      } else {
        FoundInWalk(walk[..k], isObject, walk[k].root);
        var ok := context.AddDir(walk[k].root, pending, chunkSize);
        if !ok {
          FoundDot(walk[..k + 1], isObject);
          return Err("KeyError"), context.printed, nfiles;
        }
      }
    }
    assert walk[..|walk|] == walk;
    FoundDot(walk, isObject);
    var ok := context.ProcessOneChunk(chunkSize);
    if !ok {
      return Err("KeyError"), context.printed, nfiles;
    }
    context.NothingLeft();
    PrintedIsReport(objdump, walk, isObject, context.printed);
    FilesAreAll(walk, isObject);
    TotalDescribes(objdump, WalkFiles(walk, isObject));
    return Ok(context.rcumulative), context.printed, nfiles;
  }

  /** A walk of the current directory fails if there is a single object file in it. */
  lemma CurrentDirectoryFails(name: string, rest: seq<Entry>, isObject: string -> bool)
    requires isObject(name)
    ensures ObjectsInDot([Entry(".", [name])] + rest, isObject)
  {
    var walk := [Entry(".", [name])] + rest;
    assert walk[0] == Entry(".", [name]);
    assert ObjectsIn(".", [name], isObject) == [] + [File("", name)];
  }

  // ----------------------------------------------------------------------------------- the summary

  /** The numbers of the last lines: symbols and files, and their shares. */
  datatype Summary = Summary(nfiles: nat, nsuccess: int, nsymbols: nat, nfailed: nat, ncrashed: nat,
                             spct: real, fpct: real, cpct: real)

  /** Some file that can be read has a symbol. */
  ghost predicate AnySymbol(objdump: Objdump, files: seq<File>) {
    exists k :: 0 <= k < |files| && HasSymbol(objdump, files[k])
  }

  ghost predicate HasSymbol(objdump: Objdump, f: File) {
    objdump(f).Lines? && |SymbolsOf(objdump(f).lines)| > 0
  }

  lemma {:induction false} InvalidBound(symbols: seq<Symbol>)
    ensures |Invalid(symbols)| <= |symbols|
  {
    if |symbols| > 0 {
      var front, last := symbols[..|symbols| - 1], symbols[|symbols| - 1];
      InvalidBound(front);
      assert symbols == front + [last];
      assert Invalid(symbols) == Invalid(front) + if Contains(last.demangled, "invalid mangled name") then {last.mangled} else {};
    }
  }

  /** Names that could not be demangled, and files that crashed, are no more than there are. */
  lemma {:induction false} SumBounds(objdump: Objdump, files: seq<File>)
    ensures |Sum(objdump, files).errors| <= Sum(objdump, files).nsymbols
    ensures |Sum(objdump, files).crashed| <= |files|
    ensures Sum(objdump, files).nsymbols > 0 <==> AnySymbol(objdump, files)
  {
    if |files| > 0 {
      var front, last := files[..|files| - 1], files[|files| - 1];
      SumBounds(objdump, front);
      var before, of := Sum(objdump, front), OfFile(objdump, last);
      assert of.nsymbols > 0 <==> HasSymbol(objdump, last);
      assert |of.errors| <= of.nsymbols by {
        if objdump(last).Lines? {
          InvalidBound(SymbolsOf(objdump(last).lines));
        }
      }
      UnionBound(before.errors, of.errors);
      if AnySymbol(objdump, front) {
        var k :| 0 <= k < |front| && HasSymbol(objdump, front[k]);
        assert HasSymbol(objdump, files[k]);
      }
    }
  }

  lemma UnionBound(a: set<string>, b: set<string>)
    ensures |a + b| <= |a| + |b|
  {
    assert a + b == a + (b - a) && a !! (b - a);
    assert b == (b - a) + (b * a) && (b - a) !! (b * a);
  }

  /** The lines after the table; an error is the division by a number of symbols or of files that is 0. */
  method Summarize(total: Totals, nfiles: nat) returns (r: Result<Summary, string>)
    ensures r.Err? <==> total.nsymbols == 0 || nfiles == 0
    ensures r.Ok? ==>
              && r.value.nfiles == nfiles && r.value.nsymbols == total.nsymbols
              && r.value.nfailed == |total.errors| && r.value.ncrashed == |total.crashed|
              && r.value.nsuccess + r.value.nfailed == r.value.nsymbols && r.value.spct + r.value.fpct == 1.0
              && r.value.spct * total.nsymbols as real == r.value.nsuccess as real
              && r.value.fpct * total.nsymbols as real == |total.errors| as real
              && r.value.cpct * nfiles as real == |total.crashed| as real
  {
    var nfailed := |total.errors|;
    var nsuccess := total.nsymbols - nfailed;
    var ncrashed := |total.crashed|;
    if total.nsymbols == 0 {
      return Err("ZeroDivisionError");
    }
    var n := total.nsymbols as real;
    var spct, fpct := nsuccess as real / n, nfailed as real / n;
    assert spct + fpct == (nsuccess as real + nfailed as real) / n;
    if nfiles == 0 {
      return Err("ZeroDivisionError");
    }
    return Ok(Summary(nfiles, nsuccess, total.nsymbols, nfailed, ncrashed, spct, fpct, ncrashed as real / nfiles as real));
  }

  lemma Scaled(x: real, w: real)
    requires w > 0.0
    ensures (x < 0.0 ==> x * w < 0.0) && (x > 1.0 ==> x * w > w)
  {
    if x > 1.0 {
      assert (x - 1.0) * w > 0.0;
    }
  }

  lemma Share(part: nat, whole: nat, share: real)
    requires 0 < whole && part <= whole && share * whole as real == part as real
    ensures 0.0 <= share <= 1.0
  {
    Scaled(share, whole as real);
  }

  /**
    The whole run with its summary. It ends in an error exactly if there are object files in the current
    directory itself, or no symbol in any object file. Otherwise the summary counts all object files, their
    symbols, the different names among them that could not be demangled, and the crashes.
   */
  method GoAndSummarize(walk: seq<Entry>, isObject: string -> bool, objdump: Objdump, chunkSize: nat)
    returns (r: Result<Summary, string>)
    requires chunkSize > 0 && forall j, k | 0 <= j < k < |walk| :: walk[j].root != walk[k].root
    requires forall k | 0 <= k < |walk| :: walk[k].root != ""
    ensures r.Err? <==> ObjectsInDot(walk, isObject) || !AnySymbol(objdump, WalkFiles(walk, isObject))
    ensures r.Ok? ==> exists t :: Describes(objdump, WalkFiles(walk, isObject), t) && Summarizes(t, r.value)
  {
    hide ObjectsInDot, Found, AnySymbol, Sum, AllFiles, Describes, IsReportOf, WalkFiles;
    var total, printed, nfiles := Go(walk, isObject, objdump, chunkSize);
    if total.Err? {
      return Err(total.error);
    }
    FilesAreAll(walk, isObject);
    SumBounds(objdump, AllFiles(Found(walk, isObject)));
    NoFiles(objdump);
    r := Summarize(total.value, nfiles);
    if r.Ok? {
      Share(r.value.nfailed, r.value.nsymbols, r.value.fpct);
      Share(r.value.ncrashed, r.value.nfiles, r.value.cpct);
      assert Summarizes(total.value, r.value);
    }
  }

  /** The numbers of the total, with shares between none and all. */
  ghost predicate Summarizes(t: Totals, r: Summary) {
    && r.nfiles == t.nfiles > 0 && r.nsymbols == t.nsymbols > 0
    && r.nfailed == |t.errors| <= r.nsymbols && r.nsuccess == r.nsymbols - r.nfailed && r.ncrashed == |t.crashed| <= r.nfiles
    && r.spct * r.nsymbols as real == r.nsuccess as real && r.fpct * r.nsymbols as real == r.nfailed as real
    && r.cpct * r.nfiles as real == r.ncrashed as real
    && 0.0 <= r.fpct <= 1.0 && 0.0 <= r.cpct <= 1.0 && r.spct + r.fpct == 1.0
  }

  lemma NoFiles(objdump: Objdump)
    ensures !AnySymbol(objdump, [])
  {
  }
}
