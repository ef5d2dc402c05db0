/** Splitting `Name<A,B>` into its name and its arguments
    (UVTD/src/TemplateClassParser.cpp). The nesting counter is unsigned. */
module TemplateClassParser {

  datatype ParsedTemplateClass = ParsedTemplateClass(className: string, templateArgs: seq<string>)

  /** One more than the largest `size_t`. */
  const WORD: nat := 0x1_0000_0000_0000_0000

  type Word = n: nat | n < WORD

  predicate Opens(c: char) { c == '(' || c == '<' }

  predicate Closes(c: char) { c == ')' || c == '>' }

  // ----- the specification of the loop -----

  datatype Scan = Scan(level: Word, current: string, args: seq<string>, done: bool)

  const FRESH := Scan(0, "", [], false)

  /** `nesting_level++` and `nesting_level--` on an unsigned word. */
  function Increment(level: Word): Word { if level == WORD - 1 then 0 else level + 1 }

  function Decrement(level: Word): Word { if level == 0 then WORD - 1 else level - 1 }

  function Step(s: Scan, c: char): Scan {
    if s.done then s
    else if c == '>' && s.level == 1 then s.(done := true)
    else
      var level := if Opens(c) then Increment(s.level) else if Closes(c) then Decrement(s.level) else s.level;
      if (Opens(c) && level == 1) || (Closes(c) && Increment(level) == 1) then s.(level := level)
      else if c == ',' && level == 1 then s.(current := "", args := s.args + [s.current])
      else s.(level := level, current := s.current + [c])
  }

  function Scanned(s: Scan, text: string): Scan {
    if text == "" then s else Step(Scanned(s, text[..|text| - 1]), text[|text| - 1])
  }

  /** Everything before the first `<`. */
  function NameOf(input: string): (name: string)
    ensures name <= input && '<' !in name
    ensures |name| < |input| ==> input[|name|] == '<'
  {
    if input == "" || input[0] == '<' then "" else [input[0]] + NameOf(input[1..])
  }

  function Collected(s: Scan): seq<string> {
    if s.current == "" then s.args else s.args + [s.current]
  }

  function Parsed(input: string): ParsedTemplateClass {
    var name := NameOf(input);
    ParsedTemplateClass(name, Collected(Scanned(FRESH, input[|name|..])))
  }

  // ----- the operation -----

  method Parse(input: string) returns (parsed: ParsedTemplateClass)
    ensures parsed == Parsed(input)
  {
    var className := "";
    while |className| < |input|
      invariant |className| <= |input| && className == input[..|className|] && '<' !in className
    {
      var c := input[|className|];
      if c == '<' { break; }
      className := className + [c];
    }
    NameEnds(className, input[|className|..]);
    assert className + input[|className|..] == input;
    var args := ParseArguments(input, |className|);
    parsed := ParsedTemplateClass(className, args);
  }

  method ParseArguments(input: string, start: nat) returns (args: seq<string>)
    requires start <= |input|
    ensures args == Collected(Scanned(FRESH, input[start..]))
  {
    var level: Word := 0;
    var current := "";
    args := [];
    var i := start;
    ghost var s := FRESH;
    while i < |input|
      invariant start <= i <= |input|
      invariant s == Scanned(FRESH, input[start..][..i - start])
      invariant s == Scan(level, current, args, false)
    {
      var c := input[i];
      ScannedStep(FRESH, input[start..], i - start);
      s := Step(s, c);
      i := i + 1;
      if c == '>' && level == 1 { break; }
      if Opens(c) {
        level := Increment(level);
        if level == 1 { continue; }
      } else if Closes(c) {
        level := Decrement(level);
        if Increment(level) == 1 { continue; }
      }
      if c == ',' && level == 1 {
        args := args + [current];
        current := "";
        continue;
      }
      current := current + [c];
    }
    ghost var text := input[start..];
    assert text[..i - start] + text[i - start..] == text;
    ScannedSplits(FRESH, text[..i - start], text[i - start..]);
    if s.done {
      DoneStays(s, text[i - start..]);
    } else {
      assert text[i - start..] == "";
    }
    if current != "" {
      args := args + [current];
    }
  }

  lemma {:induction false} NameEnds(name: string, text: string)
    requires '<' !in name && (text == "" || text[0] == '<')
    ensures NameOf(name + text) == name
  {
    if name == "" {
      assert name + text == text;
    } else {
      assert name[0] in name && (name + text)[1..] == name[1..] + text;
      NameEnds(name[1..], text);
    }
  }

  lemma ScannedStep(s: Scan, text: string, k: nat)
    requires k < |text|
    ensures Scanned(s, text[..k + 1]) == Step(Scanned(s, text[..k]), text[k])
  {
    assert text[..k + 1][..k] == text[..k];
  }

  lemma {:induction false} ScannedSplits(s: Scan, a: string, b: string)
    ensures Scanned(s, a + b) == Scanned(Scanned(s, a), b)
  {
    if b == "" {
      assert a + b == a;
    } else {
      assert (a + b)[..|a + b| - 1] == a + b[..|b| - 1];
      ScannedSplits(s, a, b[..|b| - 1]);
    }
  }

  lemma {:induction false} DoneStays(s: Scan, text: string)
    requires s.done
    ensures Scanned(s, text) == s
  {
    if text != "" { DoneStays(s, text[..|text| - 1]); }
  }

  // ----- arguments, and how they are written -----

  function Turn(c: char): int {
    if c == '<' || c == '(' then 1 else if c == '>' || c == ')' then -1 else 0
  }

  /** Brackets open minus brackets closed, an unbounded count. */
  function Depth(text: string): int {
    if text == "" then 0 else Depth(text[..|text| - 1]) + Turn(text[|text| - 1])
  }

  ghost predicate Balanced(text: string) {
    Depth(text) == 0 && forall k :: 0 <= k <= |text| ==> Depth(text[..k]) >= 0
  }

  /** A comma outside every bracket. */
  predicate TopComma(text: string, k: nat)
    requires k < |text|
  {
    text[k] == ',' && Depth(text[..k]) == 0
  }

  ghost predicate Argument(text: string) {
    Balanced(text) && forall k :: 0 <= k < |text| ==> !TopComma(text, k)
  }

  ghost predicate Arguments(args: seq<string>) {
    forall a <- args :: Argument(a)
  }

  function Listed(args: seq<string>): string {
    if |args| == 0 then ""
    else if |args| == 1 then args[0]
    else args[0] + "," + Listed(args[1..])
  }

  /** What the parser can report of a list: not an empty last argument. */
  function Reported(args: seq<string>): seq<string> {
    if args != [] && args[|args| - 1] == "" then args[..|args| - 1] else args
  }

  // ----- scanning inside the brackets -----

  lemma DepthStep(text: string, k: nat)
    requires k < |text|
    ensures Depth(text[..k + 1]) == Depth(text[..k]) + Turn(text[k])
  {
    assert text[..k + 1][..k] == text[..k];
  }

  lemma StepInside(s: Scan, c: char, depth: nat)
    requires !s.done && s.level == 1 + depth && depth + 2 < WORD
    requires depth + Turn(c) >= 0 && !(c == ',' && depth == 0)
    ensures Step(s, c) == s.(level := 1 + depth + Turn(c), current := s.current + [c])
  {}

  /** The counter never wraps inside a balanced text: it is exactly one more
      than the unbounded depth, and nothing is dropped. */
  lemma {:induction false} CounterFollowsDepth(s: Scan, text: string, k: nat)
    requires Argument(text) && k <= |text| < WORD - 1
    requires s.level == 1 && !s.done
    ensures 0 <= Depth(text[..k]) <= k
    ensures Scanned(s, text[..k]) == s.(level := 1 + Depth(text[..k]), current := s.current + text[..k])
  {
    if k > 0 {
      CounterFollowsDepth(s, text, k - 1);
      DepthStep(text, k - 1);
      ScannedStep(s, text, k - 1);
      assert !TopComma(text, k - 1);
      assert Depth(text[..k]) >= 0;
      StepInside(Scanned(s, text[..k - 1]), text[k - 1], Depth(text[..k - 1]));
      assert s.current + text[..k - 1] + [text[k - 1]] == s.current + text[..k];
    } else {
      assert text[..k] == "" && s.current + "" == s.current;
    }
  }

  lemma ScanArgument(s: Scan, text: string)
    requires Argument(text) && |text| < WORD - 1
    requires s.level == 1 && !s.done
    ensures Scanned(s, text) == s.(current := s.current + text)
  {
    CounterFollowsDepth(s, text, |text|);
    assert text[..|text|] == text;
  }

  lemma {:induction false} ScanListed(s: Scan, args: seq<string>)
    requires Arguments(args) && args != [] && |Listed(args)| < WORD - 1
    requires s.level == 1 && !s.done && s.current == ""
    ensures Scanned(s, Listed(args))
         == s.(current := args[|args| - 1], args := s.args + args[..|args| - 1])
    decreases |args|
  {
    assert Argument(args[0]);
    if |args| == 1 {
      ScanArgument(s, args[0]);
      assert s.current + args[0] == args[0] && s.args + args[..0] == s.args;
    } else {
      var rest := args[1..];
      ScanFirst(s, args[0], Listed(rest));
      assert Arguments(rest);
      ScanListed(s.(args := s.args + [args[0]]), rest);
      ListStep(s.args, args);
    }
  }

  lemma ListStep<T>(before: seq<T>, items: seq<T>)
    requires |items| > 1
    ensures before + [items[0]] + items[1..][..|items| - 2] == before + items[..|items| - 1]
    ensures items[1..][|items| - 2] == items[|items| - 1]
  {}

  /** The first argument and its comma only move the argument into the list. */
  lemma ScanFirst(s: Scan, first: string, rest: string)
    requires Argument(first) && |first| < WORD - 1
    requires s.level == 1 && !s.done && s.current == ""
    ensures Scanned(s, first + "," + rest) == Scanned(s.(args := s.args + [first]), rest)
  {
    ScanArgument(s, first);
    assert "" + first == first;
    ScannedSplits(s, first, ",");
    ScanComma(s.(current := first));
    ScannedSplits(s, first + ",", rest);
  }

  lemma ScanComma(t: Scan)
    requires t.level == 1 && !t.done
    ensures Scanned(t, ",") == t.(current := "", args := t.args + [t.current])
  {
    assert ","[..0] == "";
  }

  lemma ScanOpening()
    ensures Scanned(FRESH, "<") == FRESH.(level := 1)
  {
    assert "<"[..0] == "";
  }

  lemma ScanClosing(s: Scan)
    requires s.level == 1 && !s.done
    ensures Scanned(s, ">") == s.(done := true)
  {
    assert ">"[..0] == "";
  }

  /** What the scan holds when it has read `args` and stopped at the bracket. */
  function Closed(args: seq<string>): Scan {
    if args == [] then Scan(1, "", [], true) else Scan(1, args[|args| - 1], args[..|args| - 1], true)
  }

  lemma ScanInside(args: seq<string>)
    requires Arguments(args) && |Listed(args)| < WORD - 1
    ensures Scanned(FRESH.(level := 1), Listed(args)) == Closed(args).(done := false)
  {
    var open := FRESH.(level := 1);
    if args == [] {
      assert Scanned(open, "") == open;
    } else {
      ScanListed(open, args);
      assert [] + args[..|args| - 1] == args[..|args| - 1];
    }
  }

  lemma ScanBracketed(args: seq<string>, rest: string)
    requires Arguments(args) && |Listed(args)| < WORD - 1
    ensures Scanned(FRESH, "<" + Listed(args) + ">" + rest) == Closed(args)
  {
    var body := Listed(args);
    ScanOpening();
    ScannedSplits(FRESH, "<", body);
    ScanInside(args);
    ScannedSplits(FRESH, "<" + body, ">");
    ScanClosing(Closed(args).(done := false));
    ScannedSplits(FRESH, "<" + body + ">", rest);
    DoneStays(Closed(args), rest);
  }

  lemma CollectedClosed(args: seq<string>)
    ensures Collected(Closed(args)) == Reported(args)
  {
    if args != [] { assert args == args[..|args| - 1] + [args[|args| - 1]]; }
  }

  /** Parsing what was written gives the name and the arguments, whatever
      follows the closing bracket; only an empty last argument is lost. */
  lemma ParsesListed(name: string, args: seq<string>, rest: string)
    requires '<' !in name && Arguments(args) && |Listed(args)| < WORD - 1
    ensures Parsed(name + ("<" + Listed(args) + ">" + rest)) == ParsedTemplateClass(name, Reported(args))
  {
    var text := "<" + Listed(args) + ">" + rest;
    assert text[0] == '<';
    NameEnds(name, text);
    assert (name + text)[|name|..] == text;
    ScanBracketed(args, rest);
    CollectedClosed(args);
  }

  /** The arguments come back exactly when the last one is not empty. */
  lemma ParsesExactlyIff(name: string, args: seq<string>, rest: string)
    requires '<' !in name && Arguments(args) && |Listed(args)| < WORD - 1
    ensures Parsed(name + ("<" + Listed(args) + ">" + rest)) == ParsedTemplateClass(name, args)
       <==> args == [] || args[|args| - 1] != ""
  {
    ParsesListed(name, args, rest);
  }

  // ----- every balanced body is such a list -----

  lemma {:induction false} DepthSplits(a: string, b: string)
    ensures Depth(a + b) == Depth(a) + Depth(b)
  {
    if b == "" {
      assert a + b == a;
    } else {
      assert (a + b)[..|a + b| - 1] == a + b[..|b| - 1];
      DepthSplits(a, b[..|b| - 1]);
    }
  }

  /** The part after a top-level comma is balanced by itself. */
  lemma BalancedAfter(body: string, k: nat)
    requires Balanced(body) && k < |body| && TopComma(body, k)
    ensures Balanced(body[k + 1..])
  {
    var front, tail := body[..k + 1], body[k + 1..];
    assert front[..k] == body[..k];
    assert Depth(front) == 0;
    forall j | 0 <= j <= |tail| ensures Depth(tail[..j]) >= 0 {
      assert front + tail[..j] == body[..k + 1 + j];
      DepthSplits(front, tail[..j]);
    }
    assert front + tail == body && tail[..|tail|] == tail;
    DepthSplits(front, tail);
  }

  lemma BalancedBefore(body: string, k: nat)
    requires Balanced(body) && k <= |body| && Depth(body[..k]) == 0
    requires forall j :: 0 <= j < k ==> !TopComma(body, j)
    ensures Argument(body[..k])
  {
    var front := body[..k];
    forall j | 0 <= j <= k ensures Depth(front[..j]) >= 0 {
      assert front[..j] == body[..j];
    }
    forall j | 0 <= j < k ensures !TopComma(front, j) {
      assert front[..j] == body[..j] && !TopComma(body, j);
    }
  }

  function FirstTopComma(text: string, start: nat): (k: nat)
    requires start <= |text|
    ensures start <= k <= |text|
    ensures k < |text| ==> TopComma(text, k)
    ensures forall j :: start <= j < k ==> !TopComma(text, j)
    decreases |text| - start
  {
    if start == |text| || TopComma(text, start) then start else FirstTopComma(text, start + 1)
  }

  /** The list a balanced text stands for, found without the scanner. */
  function SplitAtCommas(body: string): (args: seq<string>)
    ensures args != []
    decreases |body|
  {
    var k := FirstTopComma(body, 0);
    if k == |body| then [body] else [body[..k]] + SplitAtCommas(body[k + 1..])
  }

  lemma {:induction false} EveryBalancedBodyIsAList(body: string)
    requires Balanced(body)
    ensures Arguments(SplitAtCommas(body)) && Listed(SplitAtCommas(body)) == body
    decreases |body|
  {
    var k := FirstTopComma(body, 0);
    assert body[..|body|] == body;
    BalancedBefore(body, k);
    if k < |body| {
      BalancedAfter(body, k);
      EveryBalancedBodyIsAList(body[k + 1..]);
      var args := SplitAtCommas(body);
      assert args[1..] == SplitAtCommas(body[k + 1..]);
      assert body == body[..k] + "," + body[k + 1..];
    }
  }

  /** For every balanced body: the parser stops at the bracket that closes it,
      reports arguments without top-level commas, and loses no text but the
      comma before an empty last argument. */
  lemma BalancedBodyIsRecovered(name: string, body: string, rest: string)
    requires '<' !in name && Balanced(body) && |body| < WORD - 1
    ensures var parsed := Parsed(name + ("<" + body + ">" + rest));
            && parsed.className == name
            && Arguments(parsed.templateArgs)
            && (Listed(parsed.templateArgs) == body || Listed(parsed.templateArgs) + "," == body)
  {
    EveryBalancedBodyIsAList(body);
    var args := SplitAtCommas(body);
    ParsesListed(name, args, rest);
    if args[|args| - 1] == "" { DroppingEmptyLast(args); }
  }

  lemma {:induction false} DroppingEmptyLast(args: seq<string>)
    requires args != [] && args[|args| - 1] == ""
    ensures Listed(args) == Listed(args[..|args| - 1]) + (if |args| > 1 then "," else "")
    decreases |args|
  {
    if |args| > 2 {
      DroppingEmptyLast(args[1..]);
      assert args[..|args| - 1][1..] == args[1..][..|args| - 2];
    } else if |args| == 2 {
      assert args[1..] == [""] && args[..1] == [args[0]];
      assert Listed(args) == args[0] + "," + "";
    }
  }

  // ----- outside the domain -----

  /** The loop stops at position `k`: a `>` at depth one. */
  predicate StopsAt(text: string, k: nat)
    requires k < |text|
  {
    text[k] == '>' && Depth(text[..k]) == 1
  }

  /** The counter is decremented below zero at position `k`. */
  predicate WrapsAt(text: string, k: nat)
    requires k < |text|
  {
    var s := Scanned(FRESH, text[..k]);
    !s.done && s.level == 0 && Closes(text[k])
  }

  predicate Wraps(text: string) { exists k :: 0 <= k < |text| && WrapsAt(text, k) }

  /** Some bracket closes more than was opened, and the loop gets there. */
  predicate ClosesTooMuch(text: string, k: nat)
    requires k < |text|
  {
    Depth(text[..k + 1]) == -1 && forall j :: 0 <= j < k ==> !StopsAt(text, j)
  }

  /** Up to position `j` the loop goes on and the depth stays non-negative. */
  predicate Calm(text: string, j: nat)
    requires j < |text|
  {
    !StopsAt(text, j) && Depth(text[..j + 1]) >= 0
  }

  lemma CalmStep(s: Scan, c: char, depth: nat)
    requires !s.done && s.level == depth && depth + 2 < WORD
    requires depth + Turn(c) >= 0 && !(c == '>' && depth == 1)
    ensures !Step(s, c).done && Step(s, c).level == depth + Turn(c)
  {}

  /** As long as that is so, the counter is the depth. */
  lemma {:induction false} CounterIsDepth(text: string, k: nat)
    requires k <= |text| < WORD - 1 && forall j :: 0 <= j < k ==> Calm(text, j)
    ensures 0 <= Depth(text[..k]) <= k
    ensures !Scanned(FRESH, text[..k]).done && Scanned(FRESH, text[..k]).level == Depth(text[..k])
  {
    if k > 0 {
      CounterIsDepth(text, k - 1);
      ScannedStep(FRESH, text, k - 1);
      DepthStep(text, k - 1);
      assert Calm(text, k - 1);
      CalmStep(Scanned(FRESH, text[..k - 1]), text[k - 1], Depth(text[..k - 1]));
    } else {
      assert text[..0] == "";
    }
  }

  /** The first position that is not calm, or the end. */
  function FirstEvent(text: string, k: nat): (e: nat)
    requires k <= |text|
    ensures k <= e <= |text|
    ensures forall j :: k <= j < e ==> Calm(text, j)
    ensures e < |text| ==> !Calm(text, e)
    decreases |text| - k
  {
    if k == |text| || !Calm(text, k) then k else FirstEvent(text, k + 1)
  }

  /** Once the loop has stopped nothing wraps. */
  lemma NoWrapAfterStop(text: string, e: nat, k: nat)
    requires e < k < |text| < WORD - 1 && StopsAt(text, e) && forall j :: 0 <= j < e ==> Calm(text, j)
    ensures Scanned(FRESH, text[..k]).done
  {
    CounterIsDepth(text, e);
    ScannedStep(FRESH, text, e);
    assert text[..e + 1] + text[e + 1..k] == text[..k];
    ScannedSplits(FRESH, text[..e + 1], text[e + 1..k]);
    DoneStays(Scanned(FRESH, text[..e + 1]), text[e + 1..k]);
  }

  /** The counter wraps on exactly the texts in which, before any `>` at depth one,
      a bracket closes more than was opened. */
  lemma CounterWrapsIff(text: string)
    requires |text| < WORD - 1
    ensures Wraps(text) <==> exists k :: 0 <= k < |text| && ClosesTooMuch(text, k)
  {
    var e := FirstEvent(text, 0);
    if e < |text| && !StopsAt(text, e) {
      WrapsAtEvent(text, e);
    } else {
      forall k | 0 <= k < |text| ensures !WrapsAt(text, k) && !ClosesTooMuch(text, k) {
        if k <= e {
          CalmDoesNotWrap(text, k);
        } else {
          NoWrapAfterStop(text, e, k);
        }
      }
    }
  }

  /** Where the depth turns negative, from zero to minus one, the counter wraps. */
  lemma WrapsAtEvent(text: string, e: nat)
    requires e < |text| < WORD - 1 && forall j :: 0 <= j < e ==> Calm(text, j)
    requires Depth(text[..e + 1]) < 0
    ensures WrapsAt(text, e) && ClosesTooMuch(text, e)
  {
    CounterIsDepth(text, e);
    DepthStep(text, e);
    forall j | 0 <= j < e ensures !StopsAt(text, j) { assert Calm(text, j); }
  }

  lemma CalmDoesNotWrap(text: string, k: nat)
    requires k < |text| < WORD - 1 && forall j :: 0 <= j < k ==> Calm(text, j)
    requires Calm(text, k) || StopsAt(text, k)
    ensures !WrapsAt(text, k) && !ClosesTooMuch(text, k)
  {
    CounterIsDepth(text, k);
    DepthStep(text, k);
  }

  /** For instance after `A<)>`: the counter is the largest word, and the closing
      bracket has become text. */
  lemma UnbalancedBodyWraps()
    ensures Scanned(FRESH, "<)>").level == WORD - 1 && Wraps("<)>")
    ensures Parsed("A<)>").templateArgs == [">"]
  {
    var s := "<)>";
    ScannedStep(FRESH, s, 0);
    ScannedStep(FRESH, s, 1);
    ScannedStep(FRESH, s, 2);
    assert s[..0] == "" && s[..3] == s;
    assert Scanned(FRESH, s[..1]) == Scan(1, "", [], false);
    assert Scanned(FRESH, s[..2]) == Scan(0, "", [], false);
    assert WrapsAt(s, 2);
    assert Scanned(FRESH, s) == Scan(WORD - 1, ">", [], false);
    NameEnds("A", s);
    assert "A" + s == "A<)>" && "A<)>"[1..] == s;
  }
}
