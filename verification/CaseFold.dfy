/**
  Model of llvm/utils/unicode-case-fold.py: compiling a sorted case-folding table into a chain of
  early-return tests. The generated C++ function is a list of statements with an interpreter.
 */
module CaseFold {
  import opened Wrappers

  datatype Mapping = Mapping(src: int, dst: int)

  // ---------------------------------------------------------------------------------- the input

  /** A line of the database: an entry with its status letter, or anything else. */
  datatype Line = Entry(status: char, src: int, dst: int) | Other

  datatype Error = DuplicateOrUnsorted | NoMappings

  /** The common and simple mappings, in file order. */
  ghost function Entries(lines: seq<Line>): seq<Mapping> {
    if lines == [] then []
    else
      var last := lines[|lines| - 1];
      Entries(lines[..|lines| - 1]) +
      if last.Entry? && (last.status == 'C' || last.status == 'S') then [Mapping(last.src, last.dst)] else []
  }

  /** Non-negative characters in strictly ascending order. */
  ghost predicate Sorted(t: seq<Mapping>) {
    && (forall i | 0 <= i < |t| :: t[i].src >= 0)
    && (forall i, j | 0 <= i < j < |t| :: t[i].src < t[j].src)
  }

  lemma EntriesStart()
    ensures Entries([]) == [] && Sorted([])
  {
  }

  lemma EntriesStep(lines: seq<Line>, i: nat)
    requires i < |lines|
    ensures Entries(lines[..i + 1]) ==
              if lines[i].Entry? && (lines[i].status == 'C' || lines[i].status == 'S')
              then Entries(lines[..i]) + [Mapping(lines[i].src, lines[i].dst)] else Entries(lines[..i])
  {
    assert lines[..i + 1][..i] == lines[..i];
  }

  /** Whether a list stays sorted shows at its last element. */
  lemma SortedStep(t: seq<Mapping>, src: int, dst: int)
    requires Sorted(t)
    ensures Sorted(t + [Mapping(src, dst)]) <==> src > if |t| == 0 then -1 else t[|t| - 1].src
  {
    var t' := t + [Mapping(src, dst)];
    assert t'[|t|].src == src;
    assert |t| > 0 ==> t'[|t| - 1] == t[|t| - 1];
  }

  method Mappings(lines: seq<Line>) returns (r: Result<seq<Mapping>, Error>)
    ensures r.Ok? <==> Sorted(Entries(lines))
    ensures r.Ok? ==> r.value == Entries(lines)
    ensures r.Err? ==> r.error == DuplicateOrUnsorted
  {
    hide Entries, Sorted;
    var previousFrom := -1;
    var ms: seq<Mapping> := [];
    EntriesStart();
    assert lines[..0] == [];
    for i := 0 to |lines|
      invariant ms == Entries(lines[..i]) && Sorted(ms)
      invariant previousFrom == if |ms| == 0 then -1 else ms[|ms| - 1].src
    {
      EntriesStep(lines, i);
      var line := lines[i];
      if !(line.Entry? && (line.status == 'C' || line.status == 'S')) {
        continue;
      }
      SortedStep(ms, line.src, line.dst);
      if line.src <= previousFrom {
        UnsortedStays(lines, i + 1);
        return Err(DuplicateOrUnsorted);
      }
      ms := ms + [Mapping(line.src, line.dst)];
      previousFrom := line.src;
    }
    assert lines[..|lines|] == lines;
    return Ok(ms);
  }

  lemma {:induction false} UnsortedStays(lines: seq<Line>, i: nat)
    requires i <= |lines| && !Sorted(Entries(lines[..i]))
    ensures !Sorted(Entries(lines))
  {
    if i == |lines| {
      assert lines[..i] == lines;
    } else {
      var n := |lines| - 1;
      assert lines[..n][..i] == lines[..i];
      UnsortedStays(lines[..n], i);
      SortedPrefix(Entries(lines), |Entries(lines[..n])|);
    }
  }

  lemma SortedPrefix(t: seq<Mapping>, n: nat)
    requires n <= |t|
    ensures Sorted(t) ==> Sorted(t[..n])
  {
  }

  // ----------------------------------------------------------------------- the lines that count

  /** An entry that is common or simple. */
  ghost predicate Counts(line: Line) {
    line.Entry? && line.status in "CS"
  }

  /** The characters of the entries that count are not negative, and strictly ascending. */
  ghost predicate SortedLines(lines: seq<Line>) {
    && (forall i | 0 <= i < |lines| && Counts(lines[i]) :: lines[i].src >= 0)
    && (forall i, j | 0 <= i < j < |lines| && Counts(lines[i]) && Counts(lines[j]) :: lines[i].src < lines[j].src)
  }

  ghost predicate Comes(lines: seq<Line>, i: int, m: Mapping) {
    0 <= i < |lines| && Counts(lines[i]) && lines[i].src == m.src && lines[i].dst == m.dst
  }

  lemma {:induction false} EntryComes(lines: seq<Line>, m: Mapping)
    ensures m in Entries(lines) <==> exists i :: Comes(lines, i, m)
  {
    if lines != [] {
      var n := |lines| - 1;
      EntryComes(lines[..n], m);
      if i :| Comes(lines[..n], i, m) {
        assert Comes(lines, i, m);
      }
      if i :| Comes(lines, i, m) {
        assert i < n ==> Comes(lines[..n], i, m);
      }
      if m in Entries(lines) && m !in Entries(lines[..n]) {
        assert Comes(lines, n, m);
      }
    }
  }

  lemma {:induction false} SortedIff(lines: seq<Line>)
    ensures Sorted(Entries(lines)) <==> SortedLines(lines)
  {
    if lines != [] {
      var n := |lines| - 1;
      var before := Entries(lines[..n]);
      SortedIff(lines[..n]);
      EntriesStep(lines, n);
      assert lines[..n + 1] == lines;
      hide Entries;
      LinesBefore(lines);
      if Counts(lines[n]) {
        if Sorted(before) {
          SortedStep(before, lines[n].src, lines[n].dst);
          LastLine(lines);
        } else {
          SortedPrefix(before + [Mapping(lines[n].src, lines[n].dst)], |before|);
          assert (before + [Mapping(lines[n].src, lines[n].dst)])[..|before|] == before;
        }
      }
    }
  }

  lemma LinesBefore(lines: seq<Line>)
    requires lines != []
    ensures SortedLines(lines) ==> SortedLines(lines[..|lines| - 1])
    ensures !Counts(lines[|lines| - 1]) && SortedLines(lines[..|lines| - 1]) ==> SortedLines(lines)
  {
    var front := lines[..|lines| - 1];
    assert forall i | 0 <= i < |front| :: front[i] == lines[i];
  }

  lemma LastLine(lines: seq<Line>)
    requires lines != [] && Counts(lines[|lines| - 1]) && Sorted(Entries(lines[..|lines| - 1]))
    requires SortedLines(lines[..|lines| - 1])
    ensures var (before, last) := (Entries(lines[..|lines| - 1]), lines[|lines| - 1]);
            SortedLines(lines) <==> last.src > if |before| == 0 then -1 else before[|before| - 1].src
  {
    var n := |lines| - 1;
    var front, before := lines[..n], Entries(lines[..n]);
    assert forall i | 0 <= i < |front| :: front[i] == lines[i];
    if |before| > 0 {
      var m := before[|before| - 1];
      EntryComes(front, m);
      var k :| Comes(front, k, m);
      assert lines[k].src == m.src;
      forall i | 0 <= i < n && Counts(front[i]) ensures front[i].src <= m.src {
        EntryComes(front, Mapping(front[i].src, front[i].dst));
        assert Comes(front, i, Mapping(front[i].src, front[i].dst));
      }
    } else {
      forall i | 0 <= i < n ensures !Counts(front[i]) {
        if Counts(front[i]) {
          EntryComes(front, Mapping(front[i].src, front[i].dst));
          assert Comes(front, i, Mapping(front[i].src, front[i].dst));
        }
      }
    }
  }

  /** The table maps the characters of the entries that count, and no others. */
  lemma LookupIs(lines: seq<Line>)
    requires SortedLines(lines)
    ensures forall i | 0 <= i < |lines| && Counts(lines[i]) :: Lookup(Entries(lines), lines[i].src) == lines[i].dst
    ensures forall c | (forall i | 0 <= i < |lines| && Counts(lines[i]) :: lines[i].src != c) :: Lookup(Entries(lines), c) == c
  {
    SortedIff(lines);
    var t := Entries(lines);
    hide Entries, Lookup;
    forall i | 0 <= i < |lines| && Counts(lines[i]) ensures Lookup(t, lines[i].src) == lines[i].dst {
      var m := Mapping(lines[i].src, lines[i].dst);
      EntryComes(lines, m);
      assert Comes(lines, i, m);
      var k :| 0 <= k < |t| && t[k] == m;
      LookupKey(t, m.src, k);
    }
    forall c | (forall i | 0 <= i < |lines| && Counts(lines[i]) :: lines[i].src != c) ensures Lookup(t, c) == c {
      forall k | 0 <= k < |t| ensures t[k].src != c {
        EntryComes(lines, t[k]);
      }
      LookupNoKey(t, c);
    }
  }

  lemma {:induction false} NoEntries(lines: seq<Line>)
    ensures Entries(lines) == [] <==> forall i | 0 <= i < |lines| :: !Counts(lines[i])
  {
    if m :| m in Entries(lines) {
      EntryComes(lines, m);
      var i :| Comes(lines, i, m);
    }
    if i :| 0 <= i < |lines| && Counts(lines[i]) {
      EntryComes(lines, Mapping(lines[i].src, lines[i].dst));
      assert Comes(lines, i, Mapping(lines[i].src, lines[i].dst));
    }
    assert Entries(lines) != [] ==> Entries(lines)[0] in Entries(lines);
  }

  // ---------------------------------------------------------------------------------- the table

  ghost predicate HasKey(t: seq<Mapping>, c: int) {
    exists k :: 0 <= k < |t| && t[k].src == c
  }

  /** What the table says about a character: characters without a mapping fold to themselves. */
  ghost function Lookup(t: seq<Mapping>, c: int): int {
    if t == [] then c
    else if t[|t| - 1].src == c then t[|t| - 1].dst
    else Lookup(t[..|t| - 1], c)
  }

  lemma {:induction false} LookupKey(t: seq<Mapping>, c: int, k: nat)
    requires Sorted(t) && k < |t| && t[k].src == c
    ensures Lookup(t, c) == t[k].dst
  {
    if k < |t| - 1 {
      LookupKey(t[..|t| - 1], c, k);
    }
  }

  lemma {:induction false} LookupNoKey(t: seq<Mapping>, c: int)
    requires !HasKey(t, c)
    ensures Lookup(t, c) == c
  {
    if t != [] {
      assert forall k | 0 <= k < |t| :: t[k].src != c;
      LookupNoKey(t[..|t| - 1], c);
    }
  }

  lemma {:induction false} LookupConcat(t: seq<Mapping>, b: seq<Mapping>, c: int)
    ensures Lookup(t + b, c) == if HasKey(b, c) then Lookup(b, c) else Lookup(t, c)
    ensures HasKey(t + b, c) <==> HasKey(t, c) || HasKey(b, c)
  {
    forall k | 0 <= k < |t| ensures (t + b)[k] == t[k] {}
    forall k | 0 <= k < |b| ensures (t + b)[|t| + k] == b[k] {}
    if b == [] {
      assert t + b == t;
    } else {
      var n := |b| - 1;
      assert (t + b)[..|t| + n] == t + b[..n];
      LookupConcat(t, b[..n], c);
      forall k | 0 <= k < n ensures b[..n][k] == b[k] {}
    }
  }

  // --------------------------------------------------------------------------- the generated code

  datatype Stmt =
    | IfEqual(c: int, result: int)                                 // if (C == c) return result;
    | IfBelow(first: int)                                          // if (C < first) return C;
    | IfUpToOrOne(last: int)                                       // if (C <= last) return C | 1;
    | IfUpTo(last: int, shift: int)                                // if (C <= last) return C + shift;
    | IfUpToModulo(last: int, stride: int, modulo: int, shift: int)
                                   // if (C <= last && C % stride == modulo) return C + shift;

  /** The remainder of C++, which has the sign of the dividend. */
  ghost function CRemainder(a: int, b: int): int
    requires b > 0
  {
    if a >= 0 then a % b else -((-a) % b)
  }

  /** The quotient is rounded towards zero. */
  lemma RemainderIs(a: int, b: int)
    requires b > 0
    ensures var r := CRemainder(a, b);
            -b < r < b && (a >= 0 ==> r >= 0) && (a <= 0 ==> r <= 0) && exists q :: a == q * b + r
  {
    if a >= 0 {
      assert a == (a / b) * b + a % b;
    } else {
      assert a == -((-a) / b) * b + CRemainder(a, b);
    }
  }

  /** The result is odd, and differs from the argument in the last bit at most. */
  lemma OrOneIs(c: int)
    ensures OrOne(c) % 2 == 1 && c / 2 == OrOne(c) / 2
  {
  }

  /** C | 1 in two's complement. */
  ghost function OrOne(c: int): int {
    if c % 2 == 0 then c + 1 else c
  }

  /** The value returned by the statement, if it returns. */
  ghost function Exec(s: Stmt, c: int): Option<int> {
    match s
    case IfEqual(x, result) => if c == x then Some(result) else None
    case IfBelow(first) => if c < first then Some(c) else None
    case IfUpToOrOne(last) => if c <= last then Some(OrOne(c)) else None
    case IfUpTo(last, shift) => if c <= last then Some(c + shift) else None
    case IfUpToModulo(last, stride, modulo, shift) =>
      if c <= last && stride > 0 && CRemainder(c, stride) == modulo then Some(c + shift) else None
  }

  ghost function Run(body: seq<Stmt>, c: int): Option<int> {
    if body == [] then None
    else
      var r := Exec(body[0], c);
      if r.Some? then r else Run(body[1..], c)
  }

  /** foldCharSimple: the generated tests, then "return C". */
  ghost function FoldCharSimple(body: seq<Stmt>, c: int): int {
    match Run(body, c)
    case Some(r) => r
    case None => c
  }

  lemma {:induction false} RunConcat(a: seq<Stmt>, b: seq<Stmt>, c: int)
    ensures Run(a + b, c) == if Run(a, c).Some? then Run(a, c) else Run(b, c)
  {
    if a == [] {
      assert a + b == b;
    } else {
      assert (a + b)[1..] == a[1..] + b;
      RunConcat(a[1..], b, c);
    }
  }

  // -------------------------------------------------------------------------------------- blocks

  function Shift(m: Mapping): int {
    m.dst - m.src
  }

  function Stride2(m1: Mapping, m2: Mapping): int {
    m2.src - m1.src
  }

  function Stride(b: seq<Mapping>): int
    requires |b| >= 2
  {
    Stride2(b[0], b[1])
  }

  /** A non-empty stretch of the table with one shift and one stride. */
  ghost predicate IsBlock(b: seq<Mapping>) {
    && |b| >= 1 && Sorted(b)
    && (forall k | 0 <= k < |b| :: Shift(b[k]) == Shift(b[0]))
    && (forall k | 0 <= k < |b| - 1 :: Stride2(b[k], b[k + 1]) == Stride2(b[0], b[1]))
  }

  lemma {:induction false} BlockKey(b: seq<Mapping>, k: nat)
    requires IsBlock(b) && |b| >= 2 && k < |b|
    ensures b[k].src == b[0].src + k * Stride(b)
  {
    if k > 0 {
      BlockKey(b, k - 1);
      assert Stride2(b[k - 1], b[k]) == Stride(b);
    }
  }

  lemma AtLeastOnce(d: int, s: int)
    requires d >= 1 && s > 0
    ensures d * s >= s
  {
  }

  lemma Factor(x: int, y: int, s: int)
    ensures x * s - y * s == (x - y) * s
  {
  }

  lemma DivMod(x: int, s: int)
    requires s > 0
    ensures x == (x / s) * s + x % s && 0 <= x % s < s
  {
  }

  /** Division with remainder has one result. */
  lemma RemainderUnique(q: int, r: int, q': int, r': int, s: int)
    requires s > 0 && 0 <= r < s && 0 <= r' < s && q * s + r == q' * s + r'
    ensures q == q' && r == r'
  {
    Factor(q, q', s);
    Factor(q', q, s);
    if q > q' {
      AtLeastOnce(q - q', s);
    } else if q < q' {
      AtLeastOnce(q' - q, s);
    }
  }

  lemma SameRemainder(a: int, s: int, k: int)
    requires s > 0
    ensures (a + k * s) % s == a % s
  {
    var q, x := a / s, a + k * s;
    DivMod(a, s);
    DivMod(x, s);
    Factor(q, -k, s);
    RemainderUnique(q + k, a % s, x / s, x % s, s);
  }

  lemma Multiple(a: int, c: int, s: int) returns (k: int)
    requires s > 0 && c % s == a % s
    ensures c == a + k * s
  {
    DivMod(a, s);
    DivMod(c, s);
    k := c / s - a / s;
    Factor(c / s, a / s, s);
  }

  lemma WithinBounds(k: int, n: int, s: int)
    requires s > 0 && 0 <= k * s <= (n - 1) * s
    ensures 0 <= k < n
  {
    if k < 0 {
      AtLeastOnce(-k, s);
    } else if k >= n {
      Factor(k, n - 1, s);
      AtLeastOnce(k - (n - 1), s);
    }
  }

  /** Exactly the keys of a block lie between its ends and have the remainder of its first key. */
  lemma BlockMembers(b: seq<Mapping>, c: int)
    requires IsBlock(b) && |b| >= 2 && b[0].src <= c
    ensures HasKey(b, c) <==> c <= b[|b| - 1].src && c % Stride(b) == b[0].src % Stride(b)
  {
    var s, first := Stride(b), b[0].src;
    BlockKey(b, |b| - 1);
    if HasKey(b, c) {
      var k: nat :| k < |b| && b[k].src == c;
      BlockKey(b, k);
      SameRemainder(first, s, k);
      assert k < |b| - 1 ==> b[k].src < b[|b| - 1].src;
    }
    if c <= b[|b| - 1].src && c % s == first % s {
      var k := Multiple(first, c, s);
      WithinBounds(k, |b|, s);
      BlockKey(b, k);
    }
  }

  /** The tests emitted for a block. */
  ghost function Code(b: seq<Mapping>): seq<Stmt>
    requires IsBlock(b)
  {
    if |b| == 1 then [IfEqual(b[0].src, b[0].dst)]
    else
      var first, stride := b[0].src, Stride(b);
      var last := first + stride * (|b| - 1);
      var modulo := first % stride;
      [IfBelow(first),
       if stride == 2 && Shift(b[0]) == 1 && modulo == 0 then IfUpToOrOne(last)
       else if stride == 1 then IfUpTo(last, Shift(b[0]))
       else IfUpToModulo(last, stride, modulo, Shift(b[0]))]
  }

  /** The remainder is left out for stride 1, and for the pairs of an even character and the next one, and only then. */
  lemma RemainderIsTested(b: seq<Mapping>)
    requires IsBlock(b) && |b| >= 2
    ensures Code(b)[0] == IfBelow(b[0].src)
    ensures Code(b)[1].IfUpTo? <==> b[1].src == b[0].src + 1
    ensures Code(b)[1].IfUpToOrOne? <==> b[1].src == b[0].src + 2 && b[0].dst == b[0].src + 1 && b[0].src % 2 == 0
  {
  }

  // --------------------------------------------------------------------------------- correctness

  /**
    The tests agree with the table at c: if one returns, it returns what the table says, and c is
    not beyond the last key; if none returns, c is not a key.
   */
  ghost predicate AgreesAt(body: seq<Stmt>, t: seq<Mapping>, c: int) {
    match Run(body, c)
    case Some(r) => t != [] && c <= t[|t| - 1].src && r == Lookup(t, c)
    case None => !HasKey(t, c)
  }

  ghost predicate Agrees(body: seq<Stmt>, t: seq<Mapping>) {
    forall c :: AgreesAt(body, t, c)
  }

  lemma RunOne(s: Stmt, c: int)
    ensures Run([s], c) == Exec(s, c)
  {
    assert [s][1..] == [];
    assert Run([s][1..], c) == None;
  }

  lemma RunTwo(first: Stmt, second: Stmt, c: int)
    ensures Run([first, second], c) == if Exec(first, c).Some? then Exec(first, c) else Exec(second, c)
  {
    RunOne(first, c);
    RunOne(second, c);
    RunConcat([first], [second], c);
    assert [first] + [second] == [first, second];
  }

  lemma BelowBlock(b: seq<Mapping>, c: int)
    requires IsBlock(b) && c < b[0].src
    ensures !HasKey(b, c) && Lookup(b, c) == c
  {
    LookupNoKey(b, c);
  }

  lemma BlockValue(b: seq<Mapping>, c: int)
    requires IsBlock(b)
    ensures HasKey(b, c) ==> Lookup(b, c) == c + Shift(b[0])
    ensures !HasKey(b, c) ==> Lookup(b, c) == c
  {
    if k: nat :| k < |b| && b[k].src == c {
      LookupKey(b, c, k);
    } else {
      LookupNoKey(b, c);
    }
  }

  /** The second test of a longer block, at a character not below the block. */
  lemma TestAgreesAt(b: seq<Mapping>, c: int)
    requires IsBlock(b) && |b| >= 2 && b[0].src <= c
    ensures Exec(Code(b)[1], c) ==
            if HasKey(b, c) || (c <= b[|b| - 1].src && Code(b)[1].IfUpToOrOne?) then Some(Lookup(b, c)) else None
  {
    BlockMembers(b, c);
    BlockValue(b, c);
    BlockKey(b, |b| - 1);
    assert Stride(b) * (|b| - 1) == (|b| - 1) * Stride(b);
  }

  lemma CodeAgreesAt(b: seq<Mapping>, c: int)
    requires IsBlock(b)
    ensures AgreesAt(Code(b), b, c)
  {
    BlockValue(b, c);
    if |b| >= 2 {
      assert Code(b) == [Code(b)[0], Code(b)[1]];
      RunTwo(Code(b)[0], Code(b)[1], c);
      assert b[0].src < b[|b| - 1].src;
      if c < b[0].src {
        BelowBlock(b, c);
      } else {
        TestAgreesAt(b, c);
        BlockMembers(b, c);
      }
    } else {
      RunOne(Code(b)[0], c);
      assert HasKey(b, c) <==> c == b[0].src;
    }
  }

  lemma AppendAgreesAt(body: seq<Stmt>, t: seq<Mapping>, code: seq<Stmt>, b: seq<Mapping>, c: int)
    requires AgreesAt(body, t, c) && AgreesAt(code, b, c)
    requires b != [] && Sorted(t + b)
    ensures AgreesAt(body + code, t + b, c)
  {
    RunConcat(body, code, c);
    LookupConcat(t, b, c);
    assert (t + b)[|t| + |b| - 1] == b[|b| - 1];
    if t != [] {
      assert (t + b)[|t| - 1] == t[|t| - 1];
    }
    if HasKey(b, c) {
      var k :| 0 <= k < |b| && b[k].src == c;
      assert (t + b)[|t| + k] == b[k];
    } else if Run(body, c).None? {
      LookupNoKey(t, c);
      LookupNoKey(b, c);
    }
  }

  /** Appending the tests of the next block keeps the agreement. */
  lemma AppendAgrees(body: seq<Stmt>, t: seq<Mapping>, b: seq<Mapping>)
    requires Agrees(body, t) && IsBlock(b) && Sorted(t + b)
    ensures Agrees(body + Code(b), t + b)
  {
    forall c ensures AgreesAt(body + Code(b), t + b, c) {
      assert AgreesAt(body, t, c);
      CodeAgreesAt(b, c);
      AppendAgreesAt(body, t, Code(b), b, c);
    }
  }

  /** Where the tests agree with the table, the generated function is the table lookup. */
  lemma AgreementIsEquality(body: seq<Stmt>, t: seq<Mapping>, c: int)
    requires Agrees(body, t)
    ensures FoldCharSimple(body, c) == Lookup(t, c)
  {
    assert AgreesAt(body, t, c);
    if Run(body, c).None? {
      LookupNoKey(t, c);
    }
  }

  lemma ExtendBlock(b: seq<Mapping>, m: Mapping)
    requires IsBlock(b) && Sorted(b + [m]) && Shift(m) == Shift(b[0])
    requires |b| == 1 || Stride2(b[|b| - 1], m) == Stride(b)
    ensures IsBlock(b + [m])
  {
    var e := b + [m];
    forall k | 0 <= k < |e| - 1 ensures Stride2(e[k], e[k + 1]) == Stride2(e[0], e[1]) {
      if k < |b| - 1 {
        assert e[k] == b[k] && e[k + 1] == b[k + 1];
      }
    }
  }

  lemma SliceSorted(t: seq<Mapping>, i: nat, j: nat)
    requires Sorted(t) && i <= j <= |t|
    ensures Sorted(t[i..j])
  {
  }

  lemma SingleBlock(t: seq<Mapping>, i: nat)
    requires Sorted(t) && i < |t|
    ensures t[i..i + 1] == [t[i]] && IsBlock([t[i]])
  {
    assert t[i..i + 1] == [t[i]];
  }

  lemma GrowBlock(t: seq<Mapping>, done: nat, i: nat)
    requires Sorted(t) && done < i < |t| && IsBlock(t[done..i])
    requires Shift(t[i]) == Shift(t[done..i][0])
    requires i - done == 1 || Stride2(t[done..i][i - done - 1], t[i]) == Stride(t[done..i])
    ensures t[done..i + 1] == t[done..i] + [t[i]] && IsBlock(t[done..i + 1])
  {
    assert t[done..i + 1] == t[done..i] + [t[i]];
    SliceSorted(t, done, i + 1);
    ExtendBlock(t[done..i], t[i]);
  }

  /** Finishing the current block: the tests cover the table up to position j. */
  lemma FinishBlock(body: seq<Stmt>, t: seq<Mapping>, i: nat, j: nat)
    requires Sorted(t) && i <= j <= |t| && Agrees(body, t[..i]) && IsBlock(t[i..j])
    ensures Agrees(body + Code(t[i..j]), t[..j])
  {
    SliceSorted(t, 0, j);
    assert t[..i] + t[i..j] == t[..j];
    AppendAgrees(body, t[..i], t[i..j]);
  }

  // ------------------------------------------------------------------------------- all the blocks

  /** The tests of several blocks, one after the other. */
  ghost function CodeOf(blocks: seq<seq<Mapping>>): seq<Stmt>
    requires forall k | 0 <= k < |blocks| :: IsBlock(blocks[k])
  {
    if |blocks| == 0 then [] else CodeOf(blocks[..|blocks| - 1]) + Code(blocks[|blocks| - 1])
  }

  ghost function Joined(blocks: seq<seq<Mapping>>): seq<Mapping> {
    if |blocks| == 0 then [] else Joined(blocks[..|blocks| - 1]) + blocks[|blocks| - 1]
  }

  /** The table is divided into blocks none of which can be extended by the mapping after it. */
  ghost predicate AreLongest(blocks: seq<seq<Mapping>>, t: seq<Mapping>) {
    && Joined(blocks) == t && (forall k | 0 <= k < |blocks| :: IsBlock(blocks[k]))
    && forall k | 0 <= k < |blocks| - 1 :: EndsBefore(blocks[k], blocks[k + 1])
  }

  ghost predicate EndsBefore(b: seq<Mapping>, next: seq<Mapping>) {
    next != [] && !IsBlock(b + [next[0]])
  }

  /** The blocks written so far, and the one in the making. */
  ghost predicate SoFar(body: seq<Stmt>, blocks: seq<seq<Mapping>>, current: seq<Mapping>, t: seq<Mapping>) {
    AreLongest(blocks + [current], t) && body == CodeOf(blocks)
  }

  lemma FirstBlock(m: Mapping)
    requires IsBlock([m])
    ensures SoFar([], [], [m], [m])
  {
    assert Joined([[m]]) == [m] by {
      assert [[m]][..0] == [] && Joined([]) == [];
    }
  }

  lemma LongerBlock(body: seq<Stmt>, blocks: seq<seq<Mapping>>, current: seq<Mapping>, t: seq<Mapping>, m: Mapping)
    requires SoFar(body, blocks, current, t) && IsBlock(current + [m])
    ensures SoFar(body, blocks, current + [m], t + [m])
  {
    hide IsBlock;
    var before, after := blocks + [current], blocks + [current + [m]];
    assert before[..|blocks|] == blocks && after[..|blocks|] == blocks;
    forall k | 0 <= k < |after| - 1 ensures EndsBefore(after[k], after[k + 1]) {
      assert EndsBefore(before[k], before[k + 1]);
      BlockIsNotEmpty(current);
    }
  }

  lemma BlockIsNotEmpty(b: seq<Mapping>)
    ensures IsBlock(b) ==> b != []
  {
  }

  lemma NextBlock(body: seq<Stmt>, blocks: seq<seq<Mapping>>, current: seq<Mapping>, t: seq<Mapping>, m: Mapping)
    requires SoFar(body, blocks, current, t) && IsBlock([m]) && IsBlock(current) && !IsBlock(current + [m])
    ensures SoFar(body + Code(current), blocks + [current], [m], t + [m])
  {
    hide IsBlock, Code;
    var before, after := blocks + [current], blocks + [current] + [[m]];
    assert after[..|before|] == before && before[..|blocks|] == blocks;
    forall k | 0 <= k < |after| - 1 ensures EndsBefore(after[k], after[k + 1]) {
      if k < |blocks| {
        assert EndsBefore(before[k], before[k + 1]);
      }
    }
  }

  lemma LastBlock(body: seq<Stmt>, blocks: seq<seq<Mapping>>, current: seq<Mapping>, t: seq<Mapping>)
    requires SoFar(body, blocks, current, t) && IsBlock(current)
    ensures AreLongest(blocks + [current], t) && body + Code(current) == CodeOf(blocks + [current])
  {
    assert (blocks + [current])[..|blocks|] == blocks;
  }

  lemma BlockEnds(b: seq<Mapping>, m: Mapping)
    requires IsBlock(b) && (Shift(b[0]) != Shift(m) || (|b| > 1 && Stride(b) != Stride2(b[|b| - 1], m)))
    ensures !IsBlock(b + [m])
  {
    var e := b + [m];
    assert e[|b|] == m && e[0] == b[0] && e[|b| - 1] == b[|b| - 1];
    if |b| > 1 {
      assert e[1] == b[1] && Stride2(e[|b| - 1], e[|b|]) == Stride2(b[|b| - 1], m);
    }
  }

  /** The script's global output and its main loop. */
  class Generator {
    var body: seq<Stmt>

    constructor ()
      ensures body == []
    {
      body := [];
    }

    method DumpBlock(b: seq<Mapping>)
      requires IsBlock(b)
      modifies this
      ensures body == old(body) + Code(b)
    {
      if |b| == 1 {
        body := body + [IfEqual(b[0].src, b[0].dst)];
        return;
      }
      var stride := Stride(b);
      var first := b[0].src;
      var last := first + stride * (|b| - 1);
      var modulo := first % stride;
      body := body + [IfBelow(first)];
      var pattern := IfUpToModulo(last, stride, modulo, Shift(b[0]));
      if stride == 2 && Shift(b[0]) == 1 && modulo == 0 {
        pattern := IfUpToOrOne(last);
      } else if stride == 1 {
        pattern := IfUpTo(last, Shift(b[0]));
      }
      body := body + [pattern];
    }

    /**
      For every character, the generated function returns what the database says: the other character
      of an entry that is common or simple, and the character itself if there is none. The tests are
      those of the longest blocks.
     */
    method Generate(lines: seq<Line>) returns (error: Option<Error>)
      requires body == []
      modifies this
      ensures error == Some(DuplicateOrUnsorted) <==> !SortedLines(lines)
      ensures error.None? <==> SortedLines(lines) && exists i :: 0 <= i < |lines| && Counts(lines[i])
      ensures error.None? ==> forall c :: FoldCharSimple(body, c) == Lookup(Entries(lines), c)
      ensures error.None? ==>
                (forall i | 0 <= i < |lines| && Counts(lines[i]) :: FoldCharSimple(body, lines[i].src) == lines[i].dst)
                && forall c | (forall i | 0 <= i < |lines| && Counts(lines[i]) :: lines[i].src != c) ::
                     FoldCharSimple(body, c) == c
      ensures error.None? ==> exists blocks :: AreLongest(blocks, Entries(lines)) && body == CodeOf(blocks)
    {
      SortedIff(lines);
      NoEntries(lines);
      hide SortedLines, Sorted, Entries, Lookup, FoldCharSimple, AreLongest, CodeOf;
      var mappings := Mappings(lines);
      if mappings.Err? {
        return Some(mappings.error);
      }
      var t := mappings.value;
      CompileTable(t);
      if t == [] {
        return Some(NoMappings);
      }
      forall c ensures FoldCharSimple(body, c) == Lookup(t, c) {
        AgreementIsEquality(body, t, c);
      }
      LookupIs(lines);
      return None;
    }

    /** The loop that forms the blocks; the last dump needs a non-empty table. */
    method CompileTable(t: seq<Mapping>)
      requires Sorted(t) && body == []
      modifies this
      ensures t != [] ==> Agrees(body, t) && exists blocks :: AreLongest(blocks, t) && body == CodeOf(blocks)
    {
      hide Code, Agrees, IsBlock, Sorted, SoFar, AreLongest, CodeOf;
      var currentBlock: seq<Mapping> := [];
      ghost var done := 0;
      ghost var blocks: seq<seq<Mapping>> := [];
      NothingAgrees();
      assert t[..0] == [];
      for i := 0 to |t|
        invariant 0 <= done <= i && currentBlock == t[done..i]
        invariant if i == 0 then blocks == [] && body == [] else IsBlock(currentBlock) && SoFar(body, blocks, currentBlock, t[..i])
        invariant Agrees(body, t[..done])
      {
        var m := t[i];
        SingleBlock(t, i);
        assert t[..i + 1] == t[..i] + [m];
        if |currentBlock| == 0 {
          if i == 0 {
            FirstBlock(m);
          } else {
            BlockIsNotEmpty(currentBlock);
          }
          currentBlock := [m];
          continue;
        }
        if Shift(currentBlock[0]) != Shift(m) {
          FinishBlock(body, t, done, i);
          BlockEnds(currentBlock, m);
          NextBlock(body, blocks, currentBlock, t[..i], m);
          DumpBlock(currentBlock);
          blocks := blocks + [currentBlock];
          done := i;
          currentBlock := [m];
          continue;
        }
        if |currentBlock| == 1 || Stride(currentBlock) == Stride2(currentBlock[|currentBlock| - 1], m) {
          GrowBlock(t, done, i);
          LongerBlock(body, blocks, currentBlock, t[..i], m);
          currentBlock := currentBlock + [m];
          continue;
        }
        FinishBlock(body, t, done, i);
        BlockEnds(currentBlock, m);
        NextBlock(body, blocks, currentBlock, t[..i], m);
        DumpBlock(currentBlock);
        blocks := blocks + [currentBlock];
        done := i;
        currentBlock := [m];
      }
      if |t| > 0 {
        FinishBlock(body, t, done, |t|);
        assert t[..|t|] == t;
        LastBlock(body, blocks, currentBlock, t);
        DumpBlock(currentBlock);
      }
    }
  }

  lemma NothingAgrees()
    ensures Agrees([], [])
  {
    forall c ensures AgreesAt([], [], c) {}
  }
}
