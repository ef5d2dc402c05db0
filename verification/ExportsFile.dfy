/** Collecting the exports of a library, and writing and reading the `.exports`
    file that records them (UE4SS/proxy_generator/main.cpp). */
module ExportsFile {
  import opened Text
  import opened Numerals
  import opened Streams

  /** One more than the largest `uint16_t`. */
  const WORD16: nat := 0x1_0000

  datatype ExportFunction = ExportFunction(ordinal: nat, isNamed: bool, name: string)

  function OrdinalName(ordinal: nat): string { "ordinal" + Digits(ordinal, Dec) }

  // ----- collecting -----

  /** The named exports, up to the first name that lies outside the file. */
  function NamedExports(names: seq<Option<string>>, ordinals: seq<nat>): (named: seq<ExportFunction>)
    requires |names| == |ordinals|
    ensures |named| <= |names|
  {
    if names == [] || names[0].None? then []
    else
      [ExportFunction((ordinals[0] + 1) % WORD16, true, names[0].value)] + NamedExports(names[1..], ordinals[1..])
  }

  function Ordinals(exports: seq<ExportFunction>): set<nat> {
    set e <- exports :: e.ordinal
  }

  function OrdinalOf(base: nat, i: nat): nat { (base + i) % WORD16 }

  predicate NeedsOrdinal(base: nat, rvas: seq<nat>, named: set<nat>, i: nat)
    requires i < |rvas|
  {
    rvas[i] != 0 && OrdinalOf(base, i) !in named
  }

  function UnnamedExports(base: nat, rvas: seq<nat>, named: set<nat>): seq<ExportFunction> {
    if rvas == [] then []
    else
      var i := |rvas| - 1;
      UnnamedExports(base, rvas[..i], named)
        + if NeedsOrdinal(base, rvas, named, i)
          then [ExportFunction(OrdinalOf(base, i), false, OrdinalName(OrdinalOf(base, i)))] else []
  }

  function Collected(names: seq<Option<string>>, ordinals: seq<nat>, base: nat, rvas: seq<nat>): seq<ExportFunction>
    requires |names| == |ordinals|
  {
    var named := NamedExports(names, ordinals);
    named + UnnamedExports(base, rvas, Ordinals(named))
  }

  method CollectExports(names: seq<Option<string>>, ordinals: seq<nat>, base: nat, rvas: seq<nat>)
    returns (exports: seq<ExportFunction>)
    requires |names| == |ordinals|
    ensures exports == Collected(names, ordinals, base, rvas)
  {
    var named, exportedOrdinals := CollectNamed(names, ordinals);
    exports := named;
    for i := 0 to |rvas|
      invariant exports == named + UnnamedExports(base, rvas[..i], exportedOrdinals)
    {
      assert rvas[..i + 1][..i] == rvas[..i];
      var ordinal := (base + i) % WORD16;
      if rvas[i] == 0 { continue; }
      if ordinal in exportedOrdinals { continue; }
      exports := exports + [ExportFunction(ordinal, false, OrdinalName(ordinal))];
    }
    assert rvas[..|rvas|] == rvas;
  }

  method CollectNamed(names: seq<Option<string>>, ordinals: seq<nat>)
    returns (exports: seq<ExportFunction>, exportedOrdinals: set<nat>)
    requires |names| == |ordinals|
    ensures exports == NamedExports(names, ordinals) && exportedOrdinals == Ordinals(exports)
  {
    exports, exportedOrdinals := [], {};
    for i := 0 to |names|
      invariant NamedExports(names, ordinals) == exports + NamedExports(names[i..], ordinals[i..])
      invariant exportedOrdinals == Ordinals(exports)
    {
      if names[i].None? { break; }
      var named := ExportFunction((ordinals[i] + 1) % WORD16, true, names[i].value);
      NamedStep(exports, names, ordinals, i);
      OrdinalsAppend(exports, named);
      exports := exports + [named];
      exportedOrdinals := exportedOrdinals + {named.ordinal};
    }
  }

  lemma NamedStep(before: seq<ExportFunction>, names: seq<Option<string>>, ordinals: seq<nat>, i: nat)
    requires |names| == |ordinals| && i < |names| && names[i].Some?
    ensures before + NamedExports(names[i..], ordinals[i..])
         == before + [ExportFunction((ordinals[i] + 1) % WORD16, true, names[i].value)]
          + NamedExports(names[i + 1..], ordinals[i + 1..])
  {
    assert names[i..][1..] == names[i + 1..] && ordinals[i..][1..] == ordinals[i + 1..];
  }

  lemma OrdinalsAppend(exports: seq<ExportFunction>, e: ExportFunction)
    ensures Ordinals(exports + [e]) == Ordinals(exports) + {e.ordinal}
  {
    assert e in exports + [e];
    assert forall x <- exports :: x in exports + [e];
  }

  /** The ordinals listed without a name, described without the loop. */
  lemma {:induction false} UnnamedExactly(base: nat, rvas: seq<nat>, named: set<nat>, o: nat)
    ensures o in Ordinals(UnnamedExports(base, rvas, named))
       <==> exists i :: 0 <= i < |rvas| && NeedsOrdinal(base, rvas, named, i) && OrdinalOf(base, i) == o
  {
    if rvas != [] {
      var n := |rvas| - 1;
      var front := rvas[..n];
      UnnamedExactly(base, front, named, o);
      assert forall i :: 0 <= i < n ==> (NeedsOrdinal(base, front, named, i) <==> NeedsOrdinal(base, rvas, named, i));
      if NeedsOrdinal(base, rvas, named, n) {
        OrdinalsAppend(UnnamedExports(base, front, named),
                       ExportFunction(OrdinalOf(base, n), false, OrdinalName(OrdinalOf(base, n))));
      }
    }
  }

  /** Every function of the library has its ordinal in the list. */
  lemma EveryFunctionIsListed(names: seq<Option<string>>, ordinals: seq<nat>, base: nat, rvas: seq<nat>, i: nat)
    requires |names| == |ordinals| && i < |rvas| && rvas[i] != 0
    ensures OrdinalOf(base, i) in Ordinals(Collected(names, ordinals, base, rvas))
  {
    var named := NamedExports(names, ordinals);
    var all := Collected(names, ordinals, base, rvas);
    UnnamedExactly(base, rvas, Ordinals(named), OrdinalOf(base, i));
    assert forall e <- named :: e in all;
    assert forall e <- UnnamedExports(base, rvas, Ordinals(named)) :: e in all;
    assert NeedsOrdinal(base, rvas, Ordinals(named), i) || OrdinalOf(base, i) in Ordinals(named);
  }

  /** The named entries are the names in order, each with its function's index. */
  lemma {:induction false} NamedEntry(names: seq<Option<string>>, ordinals: seq<nat>, j: nat)
    requires |names| == |ordinals| && j < |NamedExports(names, ordinals)|
    ensures j < |names| && names[j].Some?
    ensures NamedExports(names, ordinals)[j] == ExportFunction((ordinals[j] + 1) % WORD16, true, names[j].value)
  {
    if j > 0 { NamedEntry(names[1..], ordinals[1..], j - 1); }
  }

  /** Named exports come first, in the order of the name table. */
  lemma NamedComeFirst(names: seq<Option<string>>, ordinals: seq<nat>, base: nat, rvas: seq<nat>, j: nat)
    requires |names| == |ordinals| && j < |names| && forall i :: 0 <= i <= j ==> names[i].Some?
    ensures var all := Collected(names, ordinals, base, rvas);
      j < |all| && all[j] == ExportFunction((ordinals[j] + 1) % 0x1_0000, true, names[j].value)
  {
    NamedReaches(names, ordinals, j);
    NamedEntry(names, ordinals, j);
  }

  lemma {:induction false} NamedReaches(names: seq<Option<string>>, ordinals: seq<nat>, j: nat)
    requires |names| == |ordinals| && j < |names| && forall i :: 0 <= i <= j ==> names[i].Some?
    ensures j < |NamedExports(names, ordinals)|
  {
    if j > 0 { NamedReaches(names[1..], ordinals[1..], j - 1); }
  }

  lemma {:induction false} UnnamedFrom(base: nat, rvas: seq<nat>, named: set<nat>, j: nat) returns (p: nat)
    requires j < |UnnamedExports(base, rvas, named)|
    ensures p < |rvas| && rvas[p] != 0 && UnnamedExports(base, rvas, named)[j].ordinal == (base + p) % 0x1_0000
  {
    var n := |rvas| - 1;
    if j < |UnnamedExports(base, rvas[..n], named)| {
      p := UnnamedFrom(base, rvas[..n], named, j);
    } else {
      p := n;
    }
  }

  /** The others follow in the order of the function table. */
  lemma {:induction false} UnnamedInOrder(base: nat, rvas: seq<nat>, named: set<nat>, j: nat, k: nat)
    returns (p: nat, q: nat)
    requires j < k < |UnnamedExports(base, rvas, named)|
    ensures p < q < |rvas| && rvas[p] != 0 && rvas[q] != 0
    ensures UnnamedExports(base, rvas, named)[j].ordinal == (base + p) % 0x1_0000
    ensures UnnamedExports(base, rvas, named)[k].ordinal == (base + q) % 0x1_0000
  {
    var n := |rvas| - 1;
    var front := UnnamedExports(base, rvas[..n], named);
    if k < |front| {
      p, q := UnnamedInOrder(base, rvas[..n], named, j, k);
    } else {
      p := UnnamedFrom(base, rvas[..n], named, j);
      q := n;
    }
  }

  predicate Distinct(exports: seq<ExportFunction>) {
    forall j, k :: 0 <= j < k < |exports| ==>
      exports[j].ordinal != exports[k].ordinal && exports[j].name != exports[k].name
  }

  /** Exports listed by ordinal are all different, in ordinal and in name, and
      different from every named ordinal, wherever the numbering starts. */
  lemma {:induction false} UnnamedAreDistinct(base: nat, rvas: seq<nat>, named: set<nat>)
    requires |rvas| <= WORD16
    ensures var unnamed := UnnamedExports(base, rvas, named);
            Distinct(unnamed) && Ordinals(unnamed) !! named
  {
    if rvas != [] {
      var n := |rvas| - 1;
      var front := UnnamedExports(base, rvas[..n], named);
      UnnamedAreDistinct(base, rvas[..n], named);
      if NeedsOrdinal(base, rvas, named, n) {
        var last := ExportFunction(OrdinalOf(base, n), false, OrdinalName(OrdinalOf(base, n)));
        OrdinalsAppend(front, last);
        forall j | 0 <= j < |front| ensures front[j].ordinal != last.ordinal && front[j].name != last.name {
          NotSeenBefore(base, rvas, named, front[j]);
        }
      }
    }
  }

  lemma NotSeenBefore(base: nat, rvas: seq<nat>, named: set<nat>, e: ExportFunction)
    requires 0 < |rvas| <= WORD16 && e in UnnamedExports(base, rvas[..|rvas| - 1], named)
    ensures e.ordinal != OrdinalOf(base, |rvas| - 1) && e.name != OrdinalName(OrdinalOf(base, |rvas| - 1))
  {
    var front := rvas[..|rvas| - 1];
    UnnamedExactly(base, front, named, e.ordinal);
    assert e.ordinal in Ordinals(UnnamedExports(base, front, named));
    UnnamedNames(base, front, named);
    if e.name == OrdinalName(OrdinalOf(base, |rvas| - 1)) {
      OrdinalNamesDiffer(e.ordinal, OrdinalOf(base, |rvas| - 1));
    }
  }

  lemma OrdinalNamesDiffer(a: nat, b: nat)
    requires OrdinalName(a) == OrdinalName(b)
    ensures a == b
  {
    assert OrdinalName(a)[|"ordinal"|..] == Digits(a, Dec);
    assert OrdinalName(b)[|"ordinal"|..] == Digits(b, Dec);
    DigitsInjective(a, b, Dec);
  }

  lemma {:induction false} UnnamedNames(base: nat, rvas: seq<nat>, named: set<nat>)
    ensures forall e <- UnnamedExports(base, rvas, named) ::
              !e.isNamed && e.name == OrdinalName(e.ordinal) && e.ordinal < WORD16
  {
    if rvas != [] { UnnamedNames(base, rvas[..|rvas| - 1], named); }
  }

  /** A named entry carries the ordinal of its function exactly when the library's
      numbering starts at one (modulo the word). */
  lemma NamedOrdinalRightIff(names: seq<Option<string>>, ordinals: seq<nat>, base: nat, j: nat)
    requires |names| == |ordinals| && j < |NamedExports(names, ordinals)|
    ensures NamedExports(names, ordinals)[j].ordinal == OrdinalOf(base, ordinals[j]) <==> base % WORD16 == 1
  {
    NamedEntry(names, ordinals, j);
  }

  // ----- does every function get an entry of its own? -----

  /** Some entry by name is for function `i`. */
  predicate IsNamed(names: seq<Option<string>>, ordinals: seq<nat>, i: nat)
    requires |names| == |ordinals|
  {
    exists j :: 0 <= j < |NamedExports(names, ordinals)| && ordinals[j] == i
  }

  /** An entry of the list is the function's own: one by its name, or one without
      a name that has its ordinal. */
  predicate HasOwnEntry(names: seq<Option<string>>, ordinals: seq<nat>, base: nat, rvas: seq<nat>, i: nat)
    requires |names| == |ordinals|
  {
    || IsNamed(names, ordinals, i)
    || exists e <- Collected(names, ordinals, base, rvas) :: !e.isNamed && e.ordinal == OrdinalOf(base, i)
  }

  predicate EveryFunctionHasOwn(names: seq<Option<string>>, ordinals: seq<nat>, base: nat, rvas: seq<nat>)
    requires |names| == |ordinals|
  {
    forall i :: 0 <= i < |rvas| && rvas[i] != 0 ==> HasOwnEntry(names, ordinals, base, rvas, i)
  }

  /** A name's ordinal, written down without the base, is that of a function
      without a name. */
  predicate Shadowed(names: seq<Option<string>>, ordinals: seq<nat>, base: nat, i: nat)
    requires |names| == |ordinals|
  {
    !IsNamed(names, ordinals, i) && OrdinalOf(base, i) in Ordinals(NamedExports(names, ordinals))
  }

  lemma OwnEntryIff(names: seq<Option<string>>, ordinals: seq<nat>, base: nat, rvas: seq<nat>, i: nat)
    requires |names| == |ordinals| && i < |rvas| && rvas[i] != 0
    ensures HasOwnEntry(names, ordinals, base, rvas, i) <==> !Shadowed(names, ordinals, base, i)
  {
    var named := NamedExports(names, ordinals);
    var unnamed := UnnamedExports(base, rvas, Ordinals(named));
    var all, o := Collected(names, ordinals, base, rvas), OrdinalOf(base, i);
    UnnamedExactly(base, rvas, Ordinals(named), o);
    UnnamedNames(base, rvas, Ordinals(named));
    forall e <- all | !e.isNamed ensures e in unnamed {
      if e in named {
        var j :| 0 <= j < |named| && named[j] == e;
        NamedEntry(names, ordinals, j);
      }
    }
    assert forall e <- unnamed :: e in all && !e.isNamed;
    if NeedsOrdinal(base, rvas, Ordinals(named), i) {
      assert o in Ordinals(unnamed);
    }
  }

  /** Every function with an address gets an entry of its own exactly when no
      named ordinal is that of a function without a name. */
  lemma EveryFunctionHasOwnIff(names: seq<Option<string>>, ordinals: seq<nat>, base: nat, rvas: seq<nat>)
    requires |names| == |ordinals|
    ensures EveryFunctionHasOwn(names, ordinals, base, rvas)
       <==> forall i :: 0 <= i < |rvas| && rvas[i] != 0 ==> !Shadowed(names, ordinals, base, i)
  {
    forall i | 0 <= i < |rvas| && rvas[i] != 0
      ensures HasOwnEntry(names, ordinals, base, rvas, i) <==> !Shadowed(names, ordinals, base, i)
    {
      OwnEntryIff(names, ordinals, base, rvas, i);
    }
  }

  /** An export table: indices are 16-bit words. */
  predicate IsTable(names: seq<Option<string>>, ordinals: seq<nat>, rvas: seq<nat>) {
    |names| == |ordinals| && |rvas| <= WORD16 && forall o <- ordinals :: o < WORD16
  }

  lemma SameWord(a: nat, b: nat, base: nat)
    requires a < WORD16 && b < WORD16 && base % WORD16 == 1 && (a + 1) % WORD16 == OrdinalOf(base, b)
    ensures a == b
  {}

  lemma EntryWithOrdinal(names: seq<Option<string>>, ordinals: seq<nat>, ordinal: nat) returns (j: nat)
    requires |names| == |ordinals| && ordinal in Ordinals(NamedExports(names, ordinals))
    ensures j < |NamedExports(names, ordinals)| && ordinals[j] in ordinals
    ensures (ordinals[j] + 1) % WORD16 == ordinal
  {
    var named := NamedExports(names, ordinals);
    var e :| e in named && e.ordinal == ordinal;
    j :| 0 <= j < |named| && named[j] == e;
    NamedEntry(names, ordinals, j);
  }

  lemma EntryOf(names: seq<Option<string>>, ordinals: seq<nat>, base: nat, i: nat) returns (j: nat)
    requires |names| == |ordinals| && (forall o <- ordinals :: o < WORD16) && i < WORD16 && base % WORD16 == 1
    requires OrdinalOf(base, i) in Ordinals(NamedExports(names, ordinals))
    ensures j < |NamedExports(names, ordinals)| && ordinals[j] == i
  {
    j := EntryWithOrdinal(names, ordinals, OrdinalOf(base, i));
    SameWord(ordinals[j], i, base);
  }

  /** Numbered from one, a named ordinal is only ever that of a named function. */
  lemma NoShadowFromOne(names: seq<Option<string>>, ordinals: seq<nat>, base: nat, i: nat)
    requires |names| == |ordinals| && (forall o <- ordinals :: o < WORD16) && i < WORD16 && base % WORD16 == 1
    requires OrdinalOf(base, i) in Ordinals(NamedExports(names, ordinals))
    ensures IsNamed(names, ordinals, i)
  {
    var j := EntryOf(names, ordinals, base, i);
  }

  lemma BaseOneLosesNothing(names: seq<Option<string>>, ordinals: seq<nat>, base: nat, rvas: seq<nat>)
    requires IsTable(names, ordinals, rvas) && base % WORD16 == 1
    ensures EveryFunctionHasOwn(names, ordinals, base, rvas)
  {
    EveryFunctionHasOwnIff(names, ordinals, base, rvas);
    forall i | 0 <= i < |rvas| ensures !Shadowed(names, ordinals, base, i) {
      if OrdinalOf(base, i) in Ordinals(NamedExports(names, ordinals)) { NoShadowFromOne(names, ordinals, base, i); }
    }
  }

  /** From any other base some table loses a function: one name, for the function
      whose written ordinal is the first function's true one. */
  lemma OtherBaseLoses(base: nat) returns (names: seq<Option<string>>, ordinals: seq<nat>, rvas: seq<nat>)
    requires base % WORD16 != 1
    ensures IsTable(names, ordinals, rvas) && |rvas| > 0 && rvas[0] != 0
    ensures !HasOwnEntry(names, ordinals, base, rvas, 0) && !EveryFunctionHasOwn(names, ordinals, base, rvas)
  {
    var other := (base + WORD16 - 1) % WORD16;
    names, ordinals, rvas := [Some("A")], [other], seq(other + 1, _ => 1);
    var named := NamedExports(names, ordinals);
    assert names[1..] == [] && named == [ExportFunction((other + 1) % WORD16, true, "A")];
    assert other != 0 && (other + 1) % WORD16 == OrdinalOf(base, 0);
    assert named[0] in named && Shadowed(names, ordinals, base, 0);
    OwnEntryIff(names, ordinals, base, rvas, 0);
  }

  predicate LosesNothing(base: nat, names: seq<Option<string>>, ordinals: seq<nat>, rvas: seq<nat>) {
    IsTable(names, ordinals, rvas) ==> EveryFunctionHasOwn(names, ordinals, base, rvas)
  }

  /** So the bases from which no table loses a function are those of one. */
  lemma NothingIsLostIff(base: nat)
    ensures (forall names, ordinals, rvas :: LosesNothing(base, names, ordinals, rvas)) <==> base % WORD16 == 1
  {
    if base % WORD16 == 1 {
      forall names, ordinals, rvas ensures LosesNothing(base, names, ordinals, rvas) {
        if IsTable(names, ordinals, rvas) { BaseOneLosesNothing(names, ordinals, base, rvas); }
      }
    } else {
      var names, ordinals, rvas := OtherBaseLoses(base);
      assert !LosesNothing(base, names, ordinals, rvas);
    }
  }

  // ----- writing -----

  function LineOf(e: ExportFunction): string {
    Digits(e.ordinal, Dec) + (" " + if e.isNamed then e.name else "")
  }

  function ExportLines(exports: seq<ExportFunction>): string {
    if exports == [] then "" else LineOf(exports[0]) + ("\n" + ExportLines(exports[1..]))
  }

  function Written(path: string, exports: seq<ExportFunction>): string {
    "Path: " + path + ("\n" + ("" + ("\n" + ExportLines(exports))))
  }

  method WriteExportsFile(path: string, exports: seq<ExportFunction>) returns (file: string)
    ensures file == Written(path, exports)
  {
    file := "Path: " + path + "\n" + "\n";
    for i := 0 to |exports|
      invariant Written(path, exports) == file + ExportLines(exports[i..])
    {
      var e := exports[i];
      ghost var line := LineOf(e);
      assert exports[i..][1..] == exports[i + 1..];
      ghost var later := ExportLines(exports[i + 1..]);
      assert file + (line + ("\n" + later)) == file + line + "\n" + later;
      file := file + (Digits(e.ordinal, Dec) + (" " + if e.isNamed then e.name else "")) + "\n";
    }
  }

  // ----- reading -----

  datatype Extracted = Extracted(value: nat, rest: Option<string>)

  /** `stream >> uint16_t`: no rest when the stream has failed. */
  function ReadWord16(s: string): Extracted {
    var t := SkipSpaces(s);
    var signed := t != "" && (t[0] == '-' || t[0] == '+');
    var u := if signed then t[1..] else t;
    var n := DigitRun(u, Dec);
    if n == 0 then Extracted(0, None)
    else
      DigitRunIsDigits(u, Dec);
      var v := Value(u[..n], Dec);
      if v >= WORD16 then Extracted(WORD16 - 1, None)
      else Extracted(if signed && t[0] == '-' then (WORD16 - v) % WORD16 else v, Some(u[n..]))
  }

  function NonSpaces(s: string): (r: string)
    ensures forall c <- r :: !IsSpace(c)
  {
    if s != "" && !IsSpace(s[0]) then [s[0]] + NonSpaces(s[1..]) else ""
  }

  /** `stream >> std::string` */
  function Token(s: string): string { NonSpaces(SkipSpaces(s)) }

  function ReadLine(line: string): Option<ExportFunction> {
    var number := ReadWord16(line);
    var name := if number.rest.None? then "" else Token(number.rest.value);
    if number.value == 0 then None
    else Some(ExportFunction(number.value, name != "", if name != "" then name else OrdinalName(number.value)))
  }

  /** The entries that the lines hold; a line without one is passed over. */
  function Entries(lines: seq<string>, read: string -> Option<ExportFunction>): seq<ExportFunction> {
    if lines == [] then []
    else
      var e := read(lines[0]);
      (if e.Some? then [e.value] else []) + Entries(lines[1..], read)
  }

  function PathIn(line: string): string {
    if FindFrom(line, "Path: ", 0).Some? then line[6..] else ""
  }

  datatype File = File(path: string, exports: seq<ExportFunction>)

  function Read(text: string): File {
    var lines := Lines(text);
    var path := if lines == [] then "" else PathIn(lines[0]);
    if path == "" then File("", []) else File(path, Entries(lines[1..], ReadLine))
  }

  method ReadExportsFile(text: string) returns (path: string, exports: seq<ExportFunction>)
    ensures File(path, exports) == Read(text)
  {
    path, exports := "", [];
    var line, rest := "", text;
    if rest != "" { line, rest := GetLine(rest); }
    if FindFrom(line, "Path: ", 0).Some? { path := line[6..]; }
    if path == "" { return; }
    exports := ReadEntries(rest);
  }

  lemma NextEntry(
      before: seq<ExportFunction>, line: string, rest: seq<string>, read: string -> Option<ExportFunction>)
    ensures before + Entries([line] + rest, read)
         == (if read(line).Some? then before + [read(line).value] else before) + Entries(rest, read)
  {
    assert ([line] + rest)[1..] == rest;
  }

  method ReadEntries(text: string) returns (exports: seq<ExportFunction>)
    ensures exports == Entries(Lines(text), ReadLine)
  {
    exports := [];
    var rest := text;
    while rest != ""
      invariant Entries(Lines(text), ReadLine) == exports + Entries(Lines(rest), ReadLine)
      decreases |rest|
    {
      ghost var before := exports;
      var line;
      line, rest := GetLine(rest);
      var entry := ReadEntry(line);
      if entry.Some? { exports := exports + [entry.value]; }
      NextEntry(before, line, Lines(rest), ReadLine);
    }
  }

  method ReadEntry(line: string) returns (entry: Option<ExportFunction>)
    ensures entry == ReadLine(line)
  {
    var number := ReadWord16(line);
    var name := if number.rest.None? then "" else Token(number.rest.value);
    if number.value == 0 { return None; }
    var isNamed := name != "";
    entry := Some(ExportFunction(number.value, isNamed, if isNamed then name else OrdinalName(number.value)));
  }

  // ----- the round trip -----

  predicate NoSpace(s: string) { forall c <- s :: !IsSpace(c) }

  /** What an entry must look like to be written and read without change. */
  predicate Survives(e: ExportFunction) {
    && e.ordinal != 0
    && if e.isNamed then e.name != "" && NoSpace(e.name) else e.name == OrdinalName(e.ordinal)
  }

  lemma {:induction false} TokenOf(s: string)
    requires NoSpace(s)
    ensures NonSpaces(s) == s && SkipSpaces(s) == s
  {
    if s != "" {
      assert s[0] in s;
      forall c | c in s[1..] ensures !IsSpace(c) { assert c in s; }
      TokenOf(s[1..]);
    }
  }

  lemma ReadsNumber(n: nat, rest: string)
    requires n < WORD16 && (rest == "" || rest[0] == ' ')
    ensures ReadWord16(Digits(n, Dec) + rest) == Extracted(n, Some(rest))
  {
    var d := Digits(n, Dec);
    DigitsRoundTrip(n, Dec);
    DigitRunStops(d, rest, Dec);
    assert d[0] in d && (d + rest)[0] == d[0];
    assert (d + rest)[..|d|] == d && (d + rest)[|d|..] == rest;
  }

  function Word16(n: nat, negative: bool, rest: string): Extracted {
    if n > 65535 then Extracted(65535, None) else Extracted(Negated(n, negative) % 65536, Some(rest))
  }

  function ReadUnsigned(u: string, negative: bool): Extracted {
    var n := DigitRun(u, Dec);
    if n == 0 then Extracted(0, None)
    else
      DigitRunIsDigits(u, Dec);
      Word16(Value(u[..n], Dec), negative, u[n..])
  }

  lemma ReadSign(pre: string, sign: string, u: string)
    requires (forall c <- pre :: IsSpace(c)) && IsSign(sign)
    requires u == "" || (!IsSpace(u[0]) && u[0] != '+' && u[0] != '-')
    ensures ReadWord16(pre + (sign + u)) == ReadUnsigned(u, sign == "-")
  {
    SignSplits(sign, u);
    SpacesAreSkipped(pre, sign + u);
    ReadAfterSpaces(pre + (sign + u), sign, u);
  }

  lemma ReadAfterSpaces(s: string, sign: string, u: string)
    requires IsSign(sign) && SkipSpaces(s) == sign + u && (u != "" ==> u[0] != '+' && u[0] != '-')
    ensures ReadWord16(s) == ReadUnsigned(u, sign == "-")
  {
    SignSplits(sign, u);
    var n := DigitRun(u, Dec);
    if n > 0 { DigitRunIsDigits(u, Dec); }
  }

  lemma ReadDigits(n: nat, rest: string, negative: bool)
    requires rest == "" || !IsDigit(rest[0], Dec)
    ensures var u := Digits(n, Dec) + rest; IsDigit(u[0], Dec) && ReadUnsigned(u, negative) == Word16(n, negative, rest)
  {
    var d := Digits(n, Dec);
    DigitsRoundTrip(n, Dec);
    DigitRunStops(d, rest, Dec);
    assert d[0] in d && (d + rest)[0] == d[0];
    assert (d + rest)[..|d|] == d && (d + rest)[|d|..] == rest;
  }

  /** What the stream reads from any numeral: white space is skipped, a sign is
      taken, a number beyond 65535 fails as 65535, a negative one wraps. */
  lemma ReadsSigned(pre: string, sign: string, n: nat, rest: string)
    requires (forall c <- pre :: IsSpace(c)) && IsSign(sign) && (rest == "" || !IsDigit(rest[0], Dec))
    ensures ReadWord16(pre + (sign + (Digits(n, Dec) + rest)))
         == if n > 65535 then Extracted(65535, None) else Extracted(Signed(sign, n) % 65536, Some(rest))
  {
    ReadDigits(n, rest, sign == "-");
    ReadSign(pre, sign, Digits(n, Dec) + rest);
  }

  /** Without a digit the extraction fails and leaves zero. */
  lemma ReadsNothing(pre: string, sign: string, u: string)
    requires (forall c <- pre :: IsSpace(c)) && IsSign(sign)
    requires u == "" || (!IsDigit(u[0], Dec) && !IsSpace(u[0]) && u[0] != '+' && u[0] != '-')
    ensures ReadWord16(pre + (sign + u)) == Extracted(0, None)
  {
    ReadSign(pre, sign, u);
  }

  /** A line with a number that is too large reads as a function without a name,
      whatever follows. */
  lemma OverflowLosesName(n: nat, rest: string)
    requires n > 65535 && (rest == "" || !IsDigit(rest[0], Dec))
    ensures ReadLine(Digits(n, Dec) + rest) == Some(ExportFunction(65535, false, OrdinalName(65535)))
  {
    ReadsSigned("", "", n, rest);
    assert "" + ("" + (Digits(n, Dec) + rest)) == Digits(n, Dec) + rest;
  }

  /** Nothing is read from a file whose first line does not say `Path: `. */
  lemma NoPathNoExports(text: string)
    requires Lines(text) != [] ==>
      forall i :: 0 <= i <= |Lines(text)[0]| ==> !StartsWith(Lines(text)[0][i..], "Path: ")
    ensures Read(text) == File("", [])
  {}

  lemma EntrySurvivesIff(e: ExportFunction)
    requires e.ordinal < WORD16
    ensures ReadLine(LineOf(e)) == Some(e) <==> Survives(e)
  {
    var name := if e.isNamed then e.name else "";
    ReadsNumber(e.ordinal, " " + name);
    assert (" " + name)[1..] == name;
    assert Token(" " + name) == Token(name);
    if NoSpace(name) { TokenOf(name); }
  }

  function LinesOf(exports: seq<ExportFunction>): seq<string> {
    if exports == [] then [] else [LineOf(exports[0])] + LinesOf(exports[1..])
  }

  lemma {:induction false} LinesOfExports(exports: seq<ExportFunction>)
    requires forall e <- exports :: '\n' !in LineOf(e)
    ensures Lines(ExportLines(exports)) == LinesOf(exports)
  {
    if exports != [] {
      var rest := exports[1..];
      assert exports[0] in exports && forall e <- rest :: e in exports;
      LinesOfExports(rest);
      FirstLine(LineOf(exports[0]), ExportLines(rest));
    }
  }

  /** A list is read back unchanged exactly when each of its entries is. */
  lemma {:induction false} AllOrNot(exports: seq<ExportFunction>, read: string -> Option<ExportFunction>)
    ensures |Entries(LinesOf(exports), read)| <= |exports|
    ensures Entries(LinesOf(exports), read) == exports <==> forall e <- exports :: read(LineOf(e)) == Some(e)
  {
    if exports != [] {
      var first, rest := exports[0], exports[1..];
      assert exports == [first] + rest;
      assert LinesOf(exports)[0] == LineOf(first) && LinesOf(exports)[1..] == LinesOf(rest);
      assert first in exports && forall e <- rest :: e in exports;
      AllOrNot(rest, read);
    }
  }

  lemma PathIsRead(path: string)
    ensures PathIn("Path: " + path) == path
  {
    var line := "Path: " + path;
    assert line[0..] == line && line[..6] == "Path: " && line[6..] == path;
    assert StartsWith(line[0..], "Path: ");
  }

  lemma NoNewlineInLine(e: ExportFunction)
    requires '\n' !in e.name
    ensures '\n' !in LineOf(e)
  {
    DigitsRoundTrip(e.ordinal, Dec);
    assert !IsDigit('\n', Dec);
  }

  /** The file is read back unchanged exactly when it has a path and every entry
      survives; a file without a path reads as nothing. */
  lemma FileRoundTripIff(path: string, exports: seq<ExportFunction>)
    requires '\n' !in path && forall e <- exports :: e.ordinal < WORD16 && '\n' !in e.name
    ensures Read(Written(path, exports)) == File(path, exports)
       <==> (if path == "" then exports == [] else forall e <- exports :: Survives(e))
  {
    var body := ExportLines(exports);
    FirstLine("Path: " + path, "" + ("\n" + body));
    FirstLine("", body);
    PathIsRead(path);
    forall e | e in exports ensures '\n' !in LineOf(e) { NoNewlineInLine(e); }
    LinesOfExports(exports);
    AllOrNot(exports, ReadLine);
    forall e | e in exports ensures ReadLine(LineOf(e)) == Some(e) <==> Survives(e) { EntrySurvivesIff(e); }
    var lines := Lines(Written(path, exports));
    assert lines == ["Path: " + path] + ([""] + Lines(body));
    assert lines[1..] == [""] + Lines(body);
    BlankLineIsSkipped(Lines(body));
  }

  lemma BlankLineIsSkipped(lines: seq<string>)
    ensures Entries([""] + lines, ReadLine) == Entries(lines, ReadLine)
  {
    assert ([""] + lines)[1..] == lines;
    assert ReadLine("").None?;
  }

  /** End to end: what is collected from a library numbered from one or more,
      within 16 bits, is what the proxy generator later reads from the file. */
  lemma CollectedSurvive(path: string, names: seq<Option<string>>, ordinals: seq<nat>, base: nat, rvas: seq<nat>)
    requires |names| == |ordinals| && path != "" && '\n' !in path
    requires forall n <- names :: n.Some? ==> n.value != "" && NoSpace(n.value)
    requires forall o <- ordinals :: o < WORD16 - 1
    requires 1 <= base && base + |rvas| <= WORD16
    ensures var exports := Collected(names, ordinals, base, rvas);
            Read(Written(path, exports)) == File(path, exports)
  {
    var named := NamedExports(names, ordinals);
    var exports := Collected(names, ordinals, base, rvas);
    NamedSurvive(names, ordinals);
    UnnamedNames(base, rvas, Ordinals(named));
    UnnamedAreNotZero(base, rvas, Ordinals(named));
    forall e | e in exports ensures Survives(e) && e.ordinal < WORD16 && '\n' !in e.name {
      if e.isNamed { assert IsSpace('\n'); } else { NoNewlineInOrdinalName(e.ordinal); }
    }
    FileRoundTripIff(path, exports);
  }

  lemma NoNewlineInOrdinalName(ordinal: nat)
    ensures '\n' !in OrdinalName(ordinal)
  {
    DigitsRoundTrip(ordinal, Dec);
    assert !IsDigit('\n', Dec);
  }

  lemma {:induction false} NamedSurvive(names: seq<Option<string>>, ordinals: seq<nat>)
    requires |names| == |ordinals|
    requires forall n <- names :: n.Some? ==> n.value != "" && NoSpace(n.value)
    requires forall o <- ordinals :: o < WORD16 - 1
    ensures forall e <- NamedExports(names, ordinals) :: e.isNamed && Survives(e) && e.ordinal < WORD16
  {
    if names != [] && names[0].Some? {
      assert names[0] in names && ordinals[0] in ordinals;
      assert forall n <- names[1..] :: n in names;
      assert forall o <- ordinals[1..] :: o in ordinals;
      NamedSurvive(names[1..], ordinals[1..]);
    }
  }

  lemma {:induction false} UnnamedAreNotZero(base: nat, rvas: seq<nat>, named: set<nat>)
    requires 1 <= base && base + |rvas| <= WORD16
    ensures forall e <- UnnamedExports(base, rvas, named) :: e.ordinal != 0
  {
    if rvas != [] { UnnamedAreNotZero(base, rvas[..|rvas| - 1], named); }
  }
}
