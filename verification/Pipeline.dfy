/**
  Model of llvm/utils/pipeline.py: nested pass pipelines, their textual form, and the operations
  the reducer uses to cut them.
 */
module Pipeline {
  import opened Wrappers

  /**
    The script tells managers from passes by their first component, the name of the manager: whatever
    has none, also a list in brackets without a name, is a pass to all functions but the printer.
   */
  datatype Item =
    | Pass(name: string)
    | Manager(name: string, body: seq<Item>)
  {
    predicate IsManager() {
      Manager? && name != ""
    }
  }

  type Pipe = seq<Item>

  // --------------------------------------------------------------------------- well-formedness

  ghost predicate IsSpecial(c: char) {
    c == ',' || c == '(' || c == ')'
  }

  /** A name that can be printed and read back. */
  ghost predicate IsName(s: string) {
    s != [] && forall i | 0 <= i < |s| :: !IsSpecial(s[i])
  }

  ghost predicate WellFormed(p: Pipe) {
    p != [] ==> WellFormedItem(p[0]) && WellFormed(p[1..])
  }

  ghost predicate WellFormedItem(x: Item) {
    IsName(x.name) && (x.Manager? ==> WellFormed(x.body))
  }

  lemma {:induction false} WellFormedConcat(p: Pipe, q: Pipe)
    ensures WellFormed(p + q) <==> WellFormed(p) && WellFormed(q)
  {
    if p == [] {
      assert p + q == q;
    } else {
      assert (p + q)[1..] == p[1..] + q;
      WellFormedConcat(p[1..], q);
    }
  }

  /** All managers have names. */
  ghost predicate Named(p: Pipe) {
    p != [] ==> (p[0].Manager? ==> p[0].name != "" && Named(p[0].body)) && Named(p[1..])
  }

  lemma {:induction false} WellFormedIsNamed(p: Pipe)
    requires WellFormed(p)
    ensures Named(p)
    decreases p
  {
    if p != [] {
      WellFormedIsNamed(p[1..]);
      if p[0].Manager? {
        assert WellFormedItem(p[0]);
        WellFormedIsNamed(p[0].body);
      }
    }
  }

  lemma NamedAt(p: Pipe, i: nat)
    requires i < |p|
    ensures Named(p[i..]) <==>
            (p[i].Manager? ==> p[i].name != "" && Named(p[i].body)) && Named(p[i + 1..])
    ensures p[0..] == p && p[|p|..] == []
  {
    assert p[i..][0] == p[i] && p[i..][1..] == p[i + 1..];
  }

  // ---------------------------------------------------------------------------------- printing

  /** The textual form of a pipeline, and of one item. */
  ghost function Print(p: Pipe): string {
    if p == [] then []
    else if |p| == 1 then PrintItem(p[0])
    else PrintItem(p[0]) + "," + Print(p[1..])
  }

  ghost function PrintItem(x: Item): string {
    match x
    case Pass(name) => name
    case Manager(name, body) => name + "(" + Print(body) + ")"
  }

  lemma PrintAt(p: Pipe, i: nat, printed: string)
    requires i < |p|
    ensures printed + Print(p[i..]) ==
            if i == |p| - 1 then printed + PrintItem(p[i]) + Print(p[i + 1..])
            else printed + PrintItem(p[i]) + "," + Print(p[i + 1..])
  {
    assert p[i..][0] == p[i] && p[i..][1..] == p[i + 1..];
  }

  /** None is the exception of adding the items of a manager with an empty name to the text. */
  method ToStr(p: Pipe) returns (r: Option<string>)
    ensures r == if Named(p) then Some(Print(p)) else None
    decreases p
  {
    hide Named;
    NamedNothing(p);
    var res := "";
    for i := 0 to |p|
      invariant res + Print(p[i..]) == Print(p)
      invariant Named(p) <==> Named(p[i..])
    {
      NamedAt(p, i);
      PrintAt(p, i, res);
      var c := p[i];
      match c {
        case Manager(name, body) =>
          if |name| == 0 {
            return None;
          }
          var inner := ToStr(body);
          if inner.None? {
            return None;
          }
          assert res + PrintItem(c) == res + name + "(" + inner.value + ")";
          res := res + name + "(";
          res := res + inner.value;
          res := res + ")";
        case Pass(name) =>
          res := res + name;
      }
      if i != |p| - 1 {
        res := res + ",";
      }
    }
    assert res + Print(p[|p|..]) == res;
    return Some(res);
  }

  lemma NamedNothing(p: Pipe)
    ensures p[0..] == p && p[|p|..] == [] && Named([])
  {
  }

  // ----------------------------------------------------------------------------------- parsing

  /** An open manager: the name and items of the enclosing level. */
  datatype Frame = Frame(kind: string, items: Pipe)

  datatype State = State(stack: seq<Frame>, kind: string, curr: Pipe, tok: string)

  const START := State([], "", [], "")

  ghost function Flush(st: State): State {
    if st.tok != "" then st.(curr := st.curr + [Pass(st.tok)], tok := "") else st
  }

  /** What one character does; None is a ")" without an open manager. */
  ghost function Step(st: State, c: char): Option<State> {
    if c == ',' then Some(Flush(st))
    else if c == '(' then Some(State(st.stack + [Frame(st.kind, st.curr)], st.tok, [], ""))
    else if c == ')' then
      if st.stack == [] then None
      else
        var top := st.stack[|st.stack| - 1];
        Some(State(st.stack[..|st.stack| - 1], top.kind, top.items + [Manager(st.kind, Flush(st).curr)], ""))
    else Some(st.(tok := st.tok + [c]))
  }

  ghost function Scan(s: string, st: State): Option<State> {
    if s == [] then Some(st)
    else match Step(st, s[0])
      case None => None
      case Some(next) => Scan(s[1..], next)
  }

  /** The result of fromStr; None is the exception of an unmatched ")". */
  ghost function Parse(s: string): Option<Pipe> {
    match Scan(s, START)
    case None => None
    case Some(st) => Some(Flush(st).curr)
  }

  method FromStr(pipeStr: string) returns (r: Option<Pipe>)
    ensures r == Parse(pipeStr)
  {
    var stack: seq<Frame>, curr: Pipe, tok, kind := [], [], "", "";
    for i := 0 to |pipeStr|
      invariant Scan(pipeStr, START) == Scan(pipeStr[i..], State(stack, kind, curr, tok))
    {
      var c := pipeStr[i];
      assert pipeStr[i..][1..] == pipeStr[i + 1..];
      if c == ',' {
        if tok != "" {
          curr := curr + [Pass(tok)];
        }
        tok := "";
      } else if c == '(' {
        stack := stack + [Frame(kind, curr)];
        kind, curr, tok := tok, [], "";
      } else if c == ')' {
        if tok != "" {
          curr := curr + [Pass(tok)];
        }
        tok := "";
        var oldKind, oldCurr := kind, curr;
        if stack == [] {
          return None;
        }
        var top := stack[|stack| - 1];
        stack := stack[..|stack| - 1];
        kind, curr := top.kind, top.items + [Manager(oldKind, oldCurr)];
      } else {
        tok := tok + [c];
      }
    }
    if tok != "" {
      curr := curr + [Pass(tok)];
    }
    return Some(curr);
  }

  lemma {:induction false} ScanConcat(s: string, t: string, st: State)
    requires Scan(s, st).Some?
    ensures Scan(s + t, st) == Scan(t, Scan(s, st).value)
  {
    if s == [] {
      assert s + t == t;
    } else {
      assert (s + t)[1..] == s[1..] + t;
      ScanConcat(s[1..], t, Step(st, s[0]).value);
    }
  }

  lemma {:induction false} ScanName(name: string, st: State)
    requires forall i | 0 <= i < |name| :: !IsSpecial(name[i])
    ensures Scan(name, st) == Some(st.(tok := st.tok + name))
  {
    if name == [] {
      assert st.tok + name == st.tok;
    } else {
      ScanName(name[1..], st.(tok := st.tok + [name[0]]));
      assert st.tok + name == st.tok + [name[0]] + name[1..];
    }
  }

  lemma ScanTwo(a: string, b: string, st: State)
    requires Scan(a, st).Some?
    ensures Scan(a + "," + b, st) == Scan(b, Flush(Scan(a, st).value))
  {
    ScanConcat(a, "," + b, st);
    assert a + "," + b == a + ("," + b);
    assert ("," + b)[1..] == b;
  }

  /** Reading a printed pipeline appends its items to the current level. */
  lemma PrintedParts(p: Pipe)
    ensures |p| == 0 ==> Print(p) == ""
    ensures |p| == 1 ==> Print(p) == PrintItem(p[0])
    ensures |p| > 1 ==> Print(p) == PrintItem(p[0]) + "," + Print(p[1..])
    ensures |p| > 0 && WellFormed(p) ==> WellFormedItem(p[0]) && WellFormed(p[1..])
  {
    hide PrintItem, WellFormedItem;
  }

  lemma ScanNothing(st: State)
    requires st.tok == ""
    ensures Scan("", st) == Some(st) && Flush(st) == st
  {
  }

  lemma {:induction false} ScanPrinted(p: Pipe, st: State)
    requires WellFormed(p) && st.tok == ""
    ensures Scan(Print(p), st).Some? && Flush(Scan(Print(p), st).value) == st.(curr := st.curr + p)
    decreases p
  {
    PrintedParts(p);
    hide Scan, Print, PrintItem, Flush, WellFormed, WellFormedItem;
    if |p| == 0 {
      ScanNothing(st);
      assert st.curr + p == st.curr;
    } else {
      ScanPrintedItem(p[0], st);
      if |p| == 1 {
        assert p == [p[0]];
      } else {
        ScanTwo(PrintItem(p[0]), Print(p[1..]), st);
        var mid := st.(curr := st.curr + [p[0]]);
        ScanPrinted(p[1..], mid);
        assert mid.curr + p[1..] == st.curr + p;
      }
    }
  }

  lemma PrintedManager(x: Item)
    requires x.Manager?
    ensures PrintItem(x) == x.name + ("(" + Print(x.body) + ")")
    ensures ("(" + Print(x.body) + ")")[1..] == Print(x.body) + ")"
  {
  }

  lemma {:induction false} ScanPrintedItem(x: Item, st: State)
    requires WellFormedItem(x) && st.tok == ""
    ensures Scan(PrintItem(x), st).Some? && Flush(Scan(PrintItem(x), st).value) == st.(curr := st.curr + [x])
    decreases x
  {
    ScanName(x.name, st);
    assert st.tok + x.name == x.name;
    if x.Manager? {
      var named := st.(tok := x.name);
      var inside := State(st.stack + [Frame(st.kind, st.curr)], x.name, [], "");
      ScanPrinted(x.body, inside);
      assert [] + x.body == x.body;
      var body := Print(x.body);
      var atEnd := Scan(body, inside).value;
      assert inside.stack[..|inside.stack| - 1] == st.stack;
      calc {
        Scan(PrintItem(x), st);
        { PrintedManager(x); ScanConcat(x.name, "(" + body + ")", st); }
        Scan("(" + body + ")", named);
        { PrintedManager(x); }
        Scan(body + ")", inside);
        { ScanConcat(body, ")", inside); }
        Scan(")", atEnd);
      }
      assert Flush(atEnd) == inside.(curr := x.body);
      assert Scan(")", atEnd) == Step(atEnd, ')');
    }
  }

  /**
    A pipeline, empty managers included, is printed and read back from its textual form exactly if it
    is well-formed.
   */
  lemma RoundTrip(p: Pipe)
    ensures Named(p) && Parse(Print(p)) == Some(p) <==> WellFormed(p)
  {
    if WellFormed(p) {
      WellFormedIsNamed(p);
      ScanPrinted(p, START);
      assert [] + p == p;
    }
    if Named(p) && Parse(Print(p)) == Some(p) {
      ScanReadable(Print(p), START);
      FlushReadable(Scan(Print(p), START).value);
      NamedIsWellFormed(p);
    }
  }

  // ------------------------------------------------------------------------ what can be read at all

  /** What the reader makes of any text: no special characters in names, and no pass without a name. */
  ghost predicate Readable(p: Pipe) {
    p != [] ==> ReadableItem(p[0]) && Readable(p[1..])
  }

  ghost predicate ReadableItem(x: Item) {
    NoSpecial(x.name) && (if x.Pass? then x.name != "" else Readable(x.body))
  }

  lemma {:induction false} ReadableSnoc(p: Pipe, x: Item)
    requires Readable(p) && ReadableItem(x)
    ensures Readable(p + [x])
  {
    if p == [] {
      assert p + [x] == [x];
    } else {
      assert (p + [x])[1..] == p[1..] + [x];
      ReadableSnoc(p[1..], x);
    }
  }

  lemma {:induction false} NamedIsWellFormed(p: Pipe)
    requires Named(p) && Readable(p)
    ensures WellFormed(p)
    decreases p
  {
    if p != [] {
      assert ReadableItem(p[0]);
      NamedIsWellFormed(p[1..]);
      if p[0].Manager? {
        NamedIsWellFormed(p[0].body);
      }
    }
  }

  ghost predicate ReadableState(st: State) {
    && Readable(st.curr) && NoSpecial(st.kind) && NoSpecial(st.tok)
    && forall k | 0 <= k < |st.stack| :: NoSpecial(st.stack[k].kind) && Readable(st.stack[k].items)
  }

  lemma FlushReadable(st: State)
    requires ReadableState(st)
    ensures ReadableState(Flush(st))
  {
    if st.tok != "" {
      ReadableSnoc(st.curr, Pass(st.tok));
    }
  }

  lemma StepReadable(st: State, c: char)
    requires ReadableState(st) && Step(st, c).Some?
    ensures ReadableState(Step(st, c).value)
  {
    FlushReadable(st);
    if c == ')' {
      var top := st.stack[|st.stack| - 1];
      ReadableSnoc(top.items, Manager(st.kind, Flush(st).curr));
    }
  }

  lemma {:induction false} ScanReadable(s: string, st: State)
    requires ReadableState(st) && Scan(s, st).Some?
    ensures ReadableState(Scan(s, st).value)
  {
    if s != [] {
      StepReadable(st, s[0]);
      ScanReadable(s[1..], Step(st, s[0]).value);
    }
  }

  /** Every manager of the string has a name: each "(" directly follows a character of a name. */
  ghost predicate ManagersNamed(s: string) {
    forall i | 0 <= i < |s| && s[i] == '(' :: i > 0 && !IsSpecial(s[i - 1])
  }

  /** The number of opening brackets less that of closing ones. */
  ghost function Depth(s: string): int {
    if s == [] then 0 else (if s[0] == '(' then 1 else if s[0] == ')' then -1 else 0) + Depth(s[1..])
  }

  /** No closing bracket comes before its opening one. */
  ghost predicate NeverCloses(s: string, open: nat) {
    forall k | 0 <= k <= |s| :: open + Depth(s[..k]) >= 0
  }

  ghost predicate Balanced(s: string) {
    NeverCloses(s, 0) && Depth(s) == 0
  }

  lemma NeverClosesStep(s: string, open: nat)
    requires s != []
    ensures var first := if s[0] == '(' then open + 1 else if s[0] == ')' then open - 1 else open;
            NeverCloses(s, open) <==> first >= 0 && NeverCloses(s[1..], first)
  {
    var first := if s[0] == '(' then open + 1 else if s[0] == ')' then open - 1 else open;
    forall k | 0 <= k < |s| ensures open + Depth(s[..k + 1]) == first + Depth(s[1..][..k]) {
      assert s[..k + 1][0] == s[0] && s[..k + 1][1..] == s[1..][..k];
    }
    assert Depth(s[..0]) == 0;
    if NeverCloses(s, open) {
      assert open + Depth(s[..1]) >= 0;
      assert s[1..][..0] == [];
      forall k | 0 <= k <= |s[1..]| ensures first + Depth(s[1..][..k]) >= 0 {
        assert open + Depth(s[..k + 1]) >= 0;
      }
    }
    if first >= 0 && NeverCloses(s[1..], first) {
      forall k | 0 <= k <= |s| ensures open + Depth(s[..k]) >= 0 {
        if k > 0 {
          assert first + Depth(s[1..][..k - 1]) >= 0;
        }
      }
    }
  }

  /** Reading fails exactly at a closing bracket without an opening one; the open managers are counted. */
  lemma {:induction false} ScanDepth(s: string, st: State)
    ensures Scan(s, st).Some? <==> NeverCloses(s, |st.stack|)
    ensures Scan(s, st).Some? ==> |Scan(s, st).value.stack| == |st.stack| + Depth(s)
  {
    if s == [] {
      assert forall k | 0 <= k <= |s| :: s[..k] == s;
    } else {
      NeverClosesStep(s, |st.stack|);
      var next := Step(st, s[0]);
      if next.Some? {
        ScanDepth(s[1..], next.value);
      }
    }
  }

  lemma ParseFails(s: string)
    ensures Parse(s).None? <==> !NeverCloses(s, 0)
    ensures Balanced(s) <==> Scan(s, START).Some? && Scan(s, START).value.stack == []
  {
    ScanDepth(s, START);
  }

  /** Items are separated by commas, and the items of a manager are in brackets after its name. */
  lemma PrintedExample()
    ensures Print([Pass("a"), Manager("b", [Pass("c"), Manager("d", []), Pass("e")])]) == "a,b(c,d(),e)"
    ensures Parse("a,b(c,d(),e)") == Some([Pass("a"), Manager("b", [Pass("c"), Manager("d", []), Pass("e")])])
  {
    var inner := [Pass("c"), Manager("d", []), Pass("e")];
    var p := [Pass("a"), Manager("b", inner)];
    assert inner[1..] == [Manager("d", []), Pass("e")] && inner[1..][1..] == [Pass("e")];
    assert Print([]) == "" && Print([Pass("e")]) == "e";
    assert PrintItem(Manager("d", [])) == "d()";
    assert Print(inner[1..]) == "d()" + "," + "e" == "d(),e";
    assert Print(inner) == "c" + "," + "d(),e" == "c,d(),e";
    assert PrintItem(Manager("b", inner)) == "b(c,d(),e)";
    assert p[1..] == [Manager("b", inner)];
    assert Print(p) == "a,b(c,d(),e)";
    assert WellFormed([]) && WellFormed([Pass("e")]) && WellFormed(inner[1..]) && WellFormed(inner);
    assert WellFormed(p[1..]) && WellFormed(p);
    RoundTrip(p);
  }

  ghost predicate GoodStack(stack: seq<Frame>, kind: string) {
    stack == [] ||
    var top := stack[|stack| - 1];
    IsName(kind) && WellFormed(top.items) && GoodStack(stack[..|stack| - 1], top.kind)
  }

  ghost predicate NoSpecial(s: string) {
    forall i | 0 <= i < |s| :: !IsSpecial(s[i])
  }

  /** All items read so far are well-formed, and all open managers are named. */
  ghost predicate Good(st: State) {
    WellFormed(st.curr) && GoodStack(st.stack, st.kind)
  }

  lemma FlushGood(st: State)
    requires NoSpecial(st.tok)
    ensures WellFormed(Flush(st).curr) <==> WellFormed(st.curr)
  {
    WellFormedConcat(st.curr, [Pass(st.tok)]);
  }

  lemma StepGood(st: State, c: char)
    requires NoSpecial(st.tok) && Step(st, c).Some?
    ensures var next := Step(st, c).value;
            && NoSpecial(next.tok) && (next.tok != "" <==> !IsSpecial(c))
            && (Good(next) <==> Good(st) && (c == '(' ==> st.tok != ""))
  {
    FlushGood(st);
    if c == '(' {
      assert (st.stack + [Frame(st.kind, st.curr)])[..|st.stack|] == st.stack;
    } else if c == ')' {
      var top := st.stack[|st.stack| - 1];
      WellFormedConcat(top.items, [Manager(st.kind, Flush(st).curr)]);
    }
  }

  ghost predicate NamedFrom(s: string, afterName: bool) {
    s == [] || ((s[0] == '(' ==> afterName) && NamedFrom(s[1..], !IsSpecial(s[0])))
  }

  lemma {:induction false} NamedFromMeaning(s: string, afterName: bool)
    ensures NamedFrom(s, afterName) <==>
            (s != [] && s[0] == '(' ==> afterName) && forall i | 0 < i < |s| && s[i] == '(' :: !IsSpecial(s[i - 1])
  {
    if s != [] {
      var rest := s[1..];
      NamedFromMeaning(rest, !IsSpecial(s[0]));
      assert forall i | 0 < i < |s| :: s[i] == rest[i - 1];
      if NamedFrom(s, afterName) {
        forall i | 0 < i < |s| && s[i] == '(' ensures !IsSpecial(s[i - 1]) {
          assert rest[i - 1] == '(';
        }
      }
    }
  }

  lemma {:induction false} ScanGood(s: string, st: State)
    requires NoSpecial(st.tok) && Scan(s, st).Some?
    ensures var end := Scan(s, st).value;
            && NoSpecial(end.tok)
            && (Good(end) <==> Good(st) && NamedFrom(s, st.tok != ""))
    decreases |s|
  {
    if s != [] {
      StepGood(st, s[0]);
      ScanGood(s[1..], Step(st, s[0]).value);
    }
  }

  /**
    toStr after fromStr is a stable normal form for strings whose managers are named; what is read from
    a balanced string can be printed only then.
   */
  lemma NormalForm(s: string)
    requires Parse(s).Some?
    ensures ManagersNamed(s) ==> WellFormed(Parse(s).value) && Parse(Print(Parse(s).value)) == Parse(s)
    ensures Balanced(s) ==> (WellFormed(Parse(s).value) <==> ManagersNamed(s)) && (Named(Parse(s).value) <==> ManagersNamed(s))
  {
    ParseFails(s);
    ScanGood(s, START);
    NamedFromMeaning(s, false);
    FlushGood(Scan(s, START).value);
    ScanReadable(s, START);
    FlushReadable(Scan(s, START).value);
    if Named(Parse(s).value) {
      NamedIsWellFormed(Parse(s).value);
    }
    if WellFormed(Parse(s).value) {
      RoundTrip(Parse(s).value);
      WellFormedIsNamed(Parse(s).value);
    }
  }

  // ------------------------------------------------------------------------------ pass sequences

  /** A pass together with the names of the managers around it, outermost first. */
  datatype Tagged = Tagged(path: seq<string>, pass: Item)

  ghost function Count(p: Pipe): nat {
    if p == [] then 0
    else (if p[0].IsManager() then Count(p[0].body) else 1) + Count(p[1..])
  }

  /** The passes in execution order. */
  ghost function Passes(p: Pipe, path: seq<string>): (ts: seq<Tagged>)
    ensures |ts| == Count(p)
  {
    if p == [] then []
    else
      (if p[0].IsManager() then Passes(p[0].body, path + [p[0].name]) else [Tagged(path, p[0])])
      + Passes(p[1..], path)
  }

  method CountPasses(p: Pipe) returns (cnt: nat)
    ensures cnt == Count(p)
    decreases p
  {
    cnt := 0;
    for i := 0 to |p|
      invariant cnt + Count(p[i..]) == Count(p)
    {
      assert p[i..][1..] == p[i + 1..];
      if p[i].IsManager() {
        var inner := CountPasses(p[i].body);
        cnt := cnt + inner;
      } else {
        cnt := cnt + 1;
      }
    }
  }

  // ----------------------------------------------------------------------------------- cutting

  /** Which passes an operation keeps, by their position in the pass sequence. */
  datatype Cut = UpTo(last: nat) | After(last: nat) | Except(removed: nat) {
    ghost predicate Keeps(k: nat) {
      match this
      case UpTo(last) => k <= last
      case After(last) => k > last
      case Except(removed) => k != removed
    }
  }

  /** The passes kept by the cut, counting from idx, with all managers in place. */
  ghost function Select(p: Pipe, idx: nat, cut: Cut): Pipe {
    if p == [] then []
    else if p[0].IsManager() then
      [Manager(p[0].name, Select(p[0].body, idx, cut))] + Select(p[1..], idx + Count(p[0].body), cut)
    else (if cut.Keeps(idx) then [p[0]] else []) + Select(p[1..], idx + 1, cut)
  }

  lemma SuffixHead(p: Pipe, i: nat)
    requires i < |p|
    ensures p[i..] != [] && p[i..][0] == p[i] && p[i..][1..] == p[i + 1..]
  {
  }

  lemma Associative(a: Pipe, b: Pipe, c: Pipe)
    ensures a + (b + c) == a + b + c
  {
  }

  /** One turn of the loops of split and remove. */
  lemma SelectAt(p: Pipe, i: nat, idx: nat, cut: Cut, done: Pipe)
    requires i < |p|
    ensures done + Select(p[i..], idx, cut) ==
            if p[i].IsManager() then
              done + [Manager(p[i].name, Select(p[i].body, idx, cut))] + Select(p[i + 1..], idx + Count(p[i].body), cut)
            else
              (if cut.Keeps(idx) then done + [p[i]] else done) + Select(p[i + 1..], idx + 1, cut)
  {
    hide Select, Count, Cut.Keeps;
    SuffixHead(p, i);
    SelectFirst(p[i..], idx, cut);
    if p[i].IsManager() {
      Associative(done, [Manager(p[i].name, Select(p[i].body, idx, cut))], Select(p[i + 1..], idx + Count(p[i].body), cut));
    } else {
      Associative(done, [p[i]], Select(p[i + 1..], idx + 1, cut));
    }
  }

  lemma SelectNothing(p: Pipe)
    ensures p[0..] == p && p[|p|..] == [] && Count([]) == 0 && forall idx, cut :: Select([], idx, cut) == []
  {
  }

  lemma CountSuffix(p: Pipe, i: nat)
    requires i < |p|
    ensures Count(p[i..]) == (if p[i].IsManager() then Count(p[i].body) else 1) + Count(p[i + 1..])
  {
    assert p[i..][0] == p[i] && p[i..][1..] == p[i + 1..];
  }

  method SplitInt(src: Pipe, splitIndex: nat, idx0: nat) returns (dstA: Pipe, dstB: Pipe, idx: nat)
    ensures dstA == Select(src, idx0, UpTo(splitIndex)) && dstB == Select(src, idx0, After(splitIndex))
    ensures idx == idx0 + Count(src)
    decreases src
  {
    dstA, dstB, idx := [], [], idx0;
    SelectNothing(src);
    hide Select, Count;
    for i := 0 to |src|
      invariant dstA + Select(src[i..], idx, UpTo(splitIndex)) == Select(src, idx0, UpTo(splitIndex))
      invariant dstB + Select(src[i..], idx, After(splitIndex)) == Select(src, idx0, After(splitIndex))
      invariant idx + Count(src[i..]) == idx0 + Count(src)
    {
      SelectAt(src, i, idx, UpTo(splitIndex), dstA);
      SelectAt(src, i, idx, After(splitIndex), dstB);
      CountSuffix(src, i);
      var s := src[i];
      if s.IsManager() {
        var dstA2, dstB2, idx2 := SplitInt(s.body, splitIndex, idx);
        dstA := dstA + [Manager(s.name, dstA2)];
        dstB := dstB + [Manager(s.name, dstB2)];
        idx := idx2;
      } else {
        if idx <= splitIndex {
          dstA := dstA + [s];
        } else {
          dstB := dstB + [s];
        }
        idx := idx + 1;
      }
    }
  }

  method RemoveInt(src: Pipe, removeIndex: nat, idx0: nat) returns (dst: Pipe, idx: nat)
    ensures dst == Select(src, idx0, Except(removeIndex)) && idx == idx0 + Count(src)
    decreases src
  {
    dst, idx := [], idx0;
    SelectNothing(src);
    hide Select, Count;
    for i := 0 to |src|
      invariant dst + Select(src[i..], idx, Except(removeIndex)) == Select(src, idx0, Except(removeIndex))
      invariant idx + Count(src[i..]) == idx0 + Count(src)
    {
      SelectAt(src, i, idx, Except(removeIndex), dst);
      CountSuffix(src, i);
      var s := src[i];
      if s.IsManager() {
        var dst2, idx2 := RemoveInt(s.body, removeIndex, idx);
        dst := dst + [Manager(s.name, dst2)];
        idx := idx2;
      } else {
        if idx != removeIndex {
          dst := dst + [s];
        }
        idx := idx + 1;
      }
    }
  }

  method Split(p: Pipe, splitIndex: nat) returns (listA: Pipe, listB: Pipe)
    ensures listA == Select(p, 0, UpTo(splitIndex)) && listB == Select(p, 0, After(splitIndex))
  {
    var idx;
    listA, listB, idx := SplitInt(p, splitIndex, 0);
  }

  method Remove(p: Pipe, removeIndex: nat) returns (dst: Pipe)
    ensures dst == Select(p, 0, Except(removeIndex))
  {
    var idx;
    dst, idx := RemoveInt(p, removeIndex, 0);
  }

  // ------------------------------------------------------------------- what the cuts do to passes

  ghost function KeptPasses(ts: seq<Tagged>, idx: nat, cut: Cut): seq<Tagged> {
    if ts == [] then []
    else (if cut.Keeps(idx) then [ts[0]] else []) + KeptPasses(ts[1..], idx + 1, cut)
  }

  lemma KeptCons(ts: seq<Tagged>, idx: nat, cut: Cut)
    requires ts != []
    ensures KeptPasses(ts, idx, cut) == (if cut.Keeps(idx) then [ts[0]] else []) + KeptPasses(ts[1..], idx + 1, cut)
  {
  }

  lemma {:induction false} KeptConcat(a: seq<Tagged>, b: seq<Tagged>, idx: nat, cut: Cut)
    ensures KeptPasses(a + b, idx, cut) == KeptPasses(a, idx, cut) + KeptPasses(b, idx + |a|, cut)
    decreases |a|
  {
    hide KeptPasses;
    if a == [] {
      assert a + b == b;
      KeptNothing(idx, cut);
      assert [] + KeptPasses(b, idx, cut) == KeptPasses(b, idx, cut);
    } else {
      assert (a + b)[1..] == a[1..] + b && (a + b)[0] == a[0];
      KeptConcat(a[1..], b, idx + 1, cut);
      KeptCons(a, idx, cut);
      KeptCons(a + b, idx, cut);
      assert idx + 1 + |a[1..]| == idx + |a|;
    }
  }

  lemma KeptNothing(idx: nat, cut: Cut)
    ensures KeptPasses([], idx, cut) == []
  {
  }

  lemma PassesCons(x: Item, rest: Pipe, path: seq<string>)
    ensures Passes([x] + rest, path) ==
            (if x.IsManager() then Passes(x.body, path + [x.name]) else [Tagged(path, x)]) + Passes(rest, path)
  {
    assert ([x] + rest)[1..] == rest;
  }

  lemma {:induction false} SelectPasses(p: Pipe, path: seq<string>, idx: nat, cut: Cut)
    ensures Passes(Select(p, idx, cut), path) == KeptPasses(Passes(p, path), idx, cut)
    decreases p
  {
    hide Select, Passes, KeptPasses, Count;
    if p == [] {
      EmptyPasses(path, idx, cut);
    } else if p[0].IsManager() {
      SelectPasses(p[0].body, path + [p[0].name], idx, cut);
      SelectPasses(p[1..], path, idx + Count(p[0].body), cut);
      SelectManager(p, path, idx, cut);
    } else {
      SelectPasses(p[1..], path, idx + 1, cut);
      SelectPass(p, path, idx, cut);
    }
  }

  lemma EmptyPasses(path: seq<string>, idx: nat, cut: Cut)
    ensures Select([], idx, cut) == [] && Passes([], path) == [] && KeptPasses([], idx, cut) == []
  {
  }

  lemma {:induction false} SelectManager(p: Pipe, path: seq<string>, idx: nat, cut: Cut)
    requires p != [] && p[0].IsManager()
    requires Passes(Select(p[0].body, idx, cut), path + [p[0].name]) ==
             KeptPasses(Passes(p[0].body, path + [p[0].name]), idx, cut)
    requires Passes(Select(p[1..], idx + Count(p[0].body), cut), path) ==
             KeptPasses(Passes(p[1..], path), idx + Count(p[0].body), cut)
    ensures Passes(Select(p, idx, cut), path) == KeptPasses(Passes(p, path), idx, cut)
  {
    hide Select, Passes, KeptPasses, Count;
    SelectFirst(p, idx, cut);
    PassesFirst(p, path);
    KeptConcat(Passes(p[0].body, path + [p[0].name]), Passes(p[1..], path), idx, cut);
    PassesCons(Manager(p[0].name, Select(p[0].body, idx, cut)), Select(p[1..], idx + Count(p[0].body), cut), path);
  }

  lemma {:induction false} SelectPass(p: Pipe, path: seq<string>, idx: nat, cut: Cut)
    requires p != [] && !p[0].IsManager()
    requires Passes(Select(p[1..], idx + 1, cut), path) == KeptPasses(Passes(p[1..], path), idx + 1, cut)
    ensures Passes(Select(p, idx, cut), path) == KeptPasses(Passes(p, path), idx, cut)
  {
    hide Select, Passes, KeptPasses;
    SelectFirst(p, idx, cut);
    PassesFirst(p, path);
    KeptFirst(Tagged(path, p[0]), idx, cut);
    KeptConcat([Tagged(path, p[0])], Passes(p[1..], path), idx, cut);
    PassesCons(p[0], Select(p[1..], idx + 1, cut), path);
    assert [] + KeptPasses(Passes(p[1..], path), idx + 1, cut) == KeptPasses(Passes(p[1..], path), idx + 1, cut);
  }

  lemma PassesFirst(p: Pipe, path: seq<string>)
    requires p != []
    ensures Passes(p, path) ==
            (if p[0].IsManager() then Passes(p[0].body, path + [p[0].name]) else [Tagged(path, p[0])])
            + Passes(p[1..], path)
  {
  }

  lemma SelectFirst(p: Pipe, idx: nat, cut: Cut)
    requires p != []
    ensures Select(p, idx, cut) ==
            if p[0].IsManager() then
              [Manager(p[0].name, Select(p[0].body, idx, cut))] + Select(p[1..], idx + Count(p[0].body), cut)
            else if cut.Keeps(idx) then [p[0]] + Select(p[1..], idx + 1, cut)
            else Select(p[1..], idx + 1, cut)
  {
    assert [] + Select(p[1..], idx + 1, cut) == Select(p[1..], idx + 1, cut);
  }

  lemma KeptFirst(t: Tagged, idx: nat, cut: Cut)
    ensures KeptPasses([t], idx, cut) == if cut.Keeps(idx) then [t] else []
  {
  }

  ghost function Min(a: int, b: int): int {
    if a <= b then a else b
  }

  lemma {:induction false} KeptUpTo(ts: seq<Tagged>, idx: nat, last: nat)
    ensures KeptPasses(ts, idx, UpTo(last)) == ts[..if last < idx then 0 else Min(last + 1 - idx, |ts|)]
    ensures KeptPasses(ts, idx, After(last)) == ts[if last < idx then 0 else Min(last + 1 - idx, |ts|)..]
    decreases |ts|
  {
    if ts != [] {
      KeptUpTo(ts[1..], idx + 1, last);
    }
  }

  lemma {:induction false} KeptExcept(ts: seq<Tagged>, idx: nat, removed: nat)
    ensures KeptPasses(ts, idx, Except(removed)) ==
            if idx <= removed < idx + |ts| then ts[..removed - idx] + ts[removed - idx + 1..] else ts
    decreases |ts|
  {
    if ts != [] {
      KeptExcept(ts[1..], idx + 1, removed);
    }
  }

  /** split divides the pass sequence after position i. */
  lemma SplitDivides(p: Pipe, i: nat)
    ensures Passes(Select(p, 0, UpTo(i)), []) == Passes(p, [])[..Min(i + 1, Count(p))]
    ensures Passes(Select(p, 0, After(i)), []) == Passes(p, [])[Min(i + 1, Count(p))..]
  {
    SelectPasses(p, [], 0, UpTo(i));
    SelectPasses(p, [], 0, After(i));
    KeptUpTo(Passes(p, []), 0, i);
  }

  /** remove deletes exactly pass i, and nothing if there is none. */
  lemma RemoveDeletes(p: Pipe, i: nat)
    ensures Passes(Select(p, 0, Except(i)), []) ==
            if i < Count(p) then Passes(p, [])[..i] + Passes(p, [])[i + 1..] else Passes(p, [])
    ensures Count(Select(p, 0, Except(i))) == if i < Count(p) then Count(p) - 1 else Count(p)
  {
    SelectPasses(p, [], 0, Except(i));
    KeptExcept(Passes(p, []), 0, i);
  }

  /** Puts two halves with the same managers back together. */
  ghost function Join(a: Pipe, b: Pipe): Pipe
    decreases a, b
  {
    if a != [] && !a[0].IsManager() then [a[0]] + Join(a[1..], b)
    else if b != [] && !b[0].IsManager() then [b[0]] + Join(a, b[1..])
    else if a != [] && b != [] then [Manager(a[0].name, Join(a[0].body, b[0].body))] + Join(a[1..], b[1..])
    else []
  }

  lemma {:induction false} NoPassLeft(p: Pipe, idx: nat, last: nat)
    requires last < idx
    ensures Select(p, idx, UpTo(last)) != [] ==> Select(p, idx, UpTo(last))[0].IsManager()
    decreases |p|
  {
    if p != [] && !p[0].IsManager() {
      NoPassLeft(p[1..], idx + 1, last);
    }
  }

  lemma JoinHeads(x: Item, y: Item, a: Pipe, b: Pipe)
    ensures !x.IsManager() ==> Join([x] + a, b) == [x] + Join(a, b)
    ensures !x.IsManager() && (a == [] || a[0].IsManager()) ==> Join(a, [x] + b) == [x] + Join(a, b)
    ensures x.IsManager() && y.IsManager() ==>
              Join([x] + a, [y] + b) == [Manager(x.name, Join(x.body, y.body))] + Join(a, b)
  {
    assert ([x] + a)[1..] == a && ([x] + b)[1..] == b && ([y] + b)[1..] == b;
  }

  /** The two halves of a split lose nothing: the managers of both tell where each pass belongs. */
  lemma {:induction false} JoinSplit(p: Pipe, idx: nat, i: nat)
    ensures Join(Select(p, idx, UpTo(i)), Select(p, idx, After(i))) == p
    decreases p
  {
    hide Select, Join, Count;
    if p == [] {
      JoinNothing(idx, i);
    } else {
      assert p == [p[0]] + p[1..];
      SelectFirst(p, idx, UpTo(i));
      SelectFirst(p, idx, After(i));
      if p[0].IsManager() {
        var name, body, next := p[0].name, p[0].body, idx + Count(p[0].body);
        JoinSplit(body, idx, i);
        JoinSplit(p[1..], next, i);
        JoinHeads(Manager(name, Select(body, idx, UpTo(i))), Manager(name, Select(body, idx, After(i))),
          Select(p[1..], next, UpTo(i)), Select(p[1..], next, After(i)));
      } else {
        JoinSplit(p[1..], idx + 1, i);
        if idx > i {
          NoPassLeft(p[1..], idx + 1, i);
        }
        JoinHeads(p[0], p[0], Select(p[1..], idx + 1, UpTo(i)), Select(p[1..], idx + 1, After(i)));
      }
    }
  }

  lemma JoinNothing(idx: nat, i: nat)
    ensures Join(Select([], idx, UpTo(i)), Select([], idx, After(i))) == []
  {
  }

  lemma {:induction false} SelectWellFormed(p: Pipe, idx: nat, cut: Cut)
    requires WellFormed(p)
    ensures WellFormed(Select(p, idx, cut))
    decreases p
  {
    if p != [] {
      SelectFirst(p, idx, cut);
      hide Select, Count;
      if p[0].IsManager() {
        var body, next := p[0].body, idx + Count(p[0].body);
        assert WellFormedItem(p[0]);
        SelectWellFormed(body, idx, cut);
        SelectWellFormed(p[1..], next, cut);
        ConsWellFormed(Manager(p[0].name, Select(body, idx, cut)), Select(p[1..], next, cut));
      } else {
        SelectWellFormed(p[1..], idx + 1, cut);
        ConsWellFormed(p[0], Select(p[1..], idx + 1, cut));
      }
    }
  }

  lemma ConsWellFormed(x: Item, p: Pipe)
    requires WellFormedItem(x) && WellFormed(p)
    ensures WellFormed([x] + p)
  {
    assert ([x] + p)[1..] == p;
  }

  // ----------------------------------------------------------------------------------- pruning

  ghost function Prune(p: Pipe): Pipe {
    if p == [] then []
    else if p[0].IsManager() then
      (if Count(p[0].body) > 0 then [Manager(p[0].name, Prune(p[0].body))] else []) + Prune(p[1..])
    else [p[0]] + Prune(p[1..])
  }

  lemma PruneNothing(p: Pipe)
    ensures p[0..] == p && p[|p|..] == [] && Prune([]) == []
  {
  }

  lemma PruneFirst(p: Pipe)
    requires p != []
    ensures Prune(p) ==
            if !p[0].IsManager() then [p[0]] + Prune(p[1..])
            else if Count(p[0].body) > 0 then [Manager(p[0].name, Prune(p[0].body))] + Prune(p[1..])
            else Prune(p[1..])
  {
    assert [] + Prune(p[1..]) == Prune(p[1..]);
  }

  /** One turn of the loop of prune. */
  lemma PruneAt(p: Pipe, i: nat, done: Pipe)
    requires i < |p|
    ensures done + Prune(p[i..]) ==
            if !p[i].IsManager() then done + [p[i]] + Prune(p[i + 1..])
            else if Count(p[i].body) > 0 then done + [Manager(p[i].name, Prune(p[i].body))] + Prune(p[i + 1..])
            else done + Prune(p[i + 1..])
  {
    hide Prune, Count;
    SuffixHead(p, i);
    PruneFirst(p[i..]);
    if p[i].IsManager() {
      Associative(done, [Manager(p[i].name, Prune(p[i].body))], Prune(p[i + 1..]));
    } else {
      Associative(done, [p[i]], Prune(p[i + 1..]));
    }
  }

  method PruneInt(src: Pipe) returns (dst: Pipe)
    ensures dst == Prune(src)
    decreases src
  {
    hide Prune, Count;
    dst := [];
    PruneNothing(src);
    for i := 0 to |src|
      invariant dst + Prune(src[i..]) == Prune(src)
    {
      PruneAt(src, i, dst);
      var s := src[i];
      if s.IsManager() {
        var cnt := CountPasses(s.body);
        if cnt != 0 {
          var dst2 := PruneInt(s.body);
          dst := dst + [Manager(s.name, dst2)];
        }
      } else {
        dst := dst + [s];
      }
    }
  }

  /** No manager without passes, at any depth. */
  ghost predicate NoEmptyManager(p: Pipe) {
    p != [] ==>
      && (p[0].IsManager() ==> Count(p[0].body) > 0 && NoEmptyManager(p[0].body))
      && NoEmptyManager(p[1..])
  }

  /** prune keeps the pass sequence and leaves no empty manager. */
  lemma {:induction false} PruneKeepsPasses(p: Pipe, path: seq<string>)
    ensures Passes(Prune(p), path) == Passes(p, path) && Count(Prune(p)) == Count(p) && NoEmptyManager(Prune(p))
    decreases p
  {
    if p != [] {
      PruneKeepsPasses(p[1..], path);
      if p[0].IsManager() {
        PruneKeepsPasses(p[0].body, path + [p[0].name]);
      }
      if p[0].IsManager() && Count(p[0].body) == 0 {
        assert Prune(p) == Prune(p[1..]);
      } else {
        assert Prune(p)[1..] == Prune(p[1..]);
      }
    }
  }

  /** A pipeline without empty managers is left as it is; so pruning twice is pruning once. */
  lemma {:induction false} PruneFixed(p: Pipe)
    requires NoEmptyManager(p)
    ensures Prune(p) == p
    decreases p
  {
    if p != [] {
      if p[0].IsManager() {
        PruneFixed(p[0].body);
      }
      PruneFixed(p[1..]);
    }
  }

  lemma PruneIdempotent(p: Pipe)
    ensures Prune(Prune(p)) == Prune(p)
  {
    PruneKeepsPasses(p, []);
    PruneFixed(Prune(p));
  }

  lemma {:induction false} PruneWellFormed(p: Pipe)
    requires WellFormed(p)
    ensures WellFormed(Prune(p))
    decreases p
  {
    if p != [] {
      PruneWellFormed(p[1..]);
      if p[0].IsManager() {
        var body := p[0].body;
        PruneWellFormed(body);
        WellFormedConcat([Manager(p[0].name, Prune(body))], Prune(p[1..]));
        assert Count(body) == 0 ==> Prune(p) == Prune(p[1..]);
      } else {
        WellFormedConcat([p[0]], Prune(p[1..]));
      }
    }
  }
}
