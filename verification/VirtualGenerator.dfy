/** The generated `UnrealVirtual*.cpp` and what a preprocessor makes of its
    nested conditionals (UVTD/src/UnrealVirtualGenerator.cpp). */
module VirtualGenerator {
  import opened Text
  import opened TypeContainer

  datatype ObjectItem = ObjectItem(name: string, validForVTable: bool, validForMemberVars: bool)
  datatype SuffixDef = SuffixDef(name: string, ifdefMacro: string, generatesVariant: bool, hasVariantPdb: bool)

  /** The configuration and the classes of one PDB; hash maps are sequences in
      the order they yield their elements. */
  datatype Input = Input(
    baseVersion: string, versionNoSeparator: string, suffixCount: nat,
    includes: seq<string>, items: seq<ObjectItem>, suffixes: seq<SuffixDef>,
    classes: seq<(string, ClassEntry)>)

  // ----- the text -----

  function FindClass(classes: seq<(string, ClassEntry)>, name: string): Option<ClassEntry> {
    if classes == [] then None
    else if classes[0].0 == name || classes[0].1.className == name then Some(classes[0].1)
    else FindClass(classes[1..], name)
  }

  function Include(path: string): string { "#include <" + path + ">" }

  function VTablePath(g: Input, c: ClassEntry): string {
    "FunctionBodies/" + g.baseVersion + "_VTableOffsets_" + c.classNameClean + "_FunctionBody.cpp"
  }

  function LayoutPath(g: Input, tag: string, c: ClassEntry): string {
    "FunctionBodies/" + g.baseVersion + tag + "_MemberVariableLayout_DefaultSetter_" + Unify(c.classNameClean) + ".cpp"
  }

  function VTableLine(g: Input, item: ObjectItem): seq<string> {
    match FindClass(g.classes, item.name)
    case None => []
    case Some(c) =>
      if item.validForVTable && c.functions != map[] && c.validForVTable then [Include(VTablePath(g, c))] else []
  }

  /** `tag` is empty for the default layout and `_Suffix` for a variant. */
  function LayoutLine(g: Input, tag: string, item: ObjectItem): seq<string> {
    match FindClass(g.classes, item.name)
    case None => []
    case Some(c) =>
      if item.validForMemberVars && c.variables != [] then [Include(LayoutPath(g, tag, c))] else []
  }

  function VTableLines(g: Input, items: seq<ObjectItem>): seq<string> {
    if items == [] then [] else VTableLines(g, items[..|items| - 1]) + VTableLine(g, items[|items| - 1])
  }

  function LayoutLines(g: Input, tag: string, items: seq<ObjectItem>): seq<string> {
    if items == [] then [] else LayoutLines(g, tag, items[..|items| - 1]) + LayoutLine(g, tag, items[|items| - 1])
  }

  function Layout(g: Input, tag: string): seq<string> { LayoutLines(g, tag, g.items) }

  predicate IsActive(d: SuffixDef) { d.generatesVariant && d.hasVariantPdb }

  function Active(suffixes: seq<SuffixDef>): seq<SuffixDef> {
    if suffixes == [] then []
    else
      var last := suffixes[|suffixes| - 1];
      Active(suffixes[..|suffixes| - 1]) + if IsActive(last) then [last] else []
  }

  function Block(g: Input, d: SuffixDef): seq<string> {
    ["#ifdef " + d.ifdefMacro] + Layout(g, "_" + d.name) + ["#else // !" + d.ifdefMacro]
  }

  function Blocks(g: Input, active: seq<SuffixDef>): seq<string> {
    if active == [] then [] else Blocks(g, active[..|active| - 1]) + Block(g, active[|active| - 1])
  }

  function Endifs(active: seq<SuffixDef>): seq<string> {
    if active == [] then [] else Endifs(active[..|active| - 1]) + ["#endif // " + active[|active| - 1].ifdefMacro]
  }

  function UnrealIncludes(includes: seq<string>): seq<string> {
    if includes == [] then []
    else UnrealIncludes(includes[..|includes| - 1]) + [Include("Unreal/" + includes[|includes| - 1] + ".hpp")]
  }

  function Opening(g: Input): seq<string> {
    Head(g) + UnrealIncludes(g.includes) + FunctionHead(g)
  }

  function Head(g: Input): seq<string> {
    [Include("Unreal/VersionedContainer/UnrealVirtualImpl/UnrealVirtual" + g.versionNoSeparator + ".hpp"), "",
     Include("functional"), "",
     "// " + "These are all the structs that have virtuals that need to have their offset set"]
  }

  function FunctionHead(g: Input): seq<string> {
    ["", "namespace RC::Unreal", "{",
     "    void UnrealVirtual" + g.versionNoSeparator + "::set_virtual_offsets()", "    {"]
  }

  const CLOSING: seq<string> := ["    }", "}"]

  function SourceText(g: Input): seq<string> {
    Opening(g) + VTableLines(g, g.items) + [""] + Conditionals(g) + CLOSING
  }

  function Conditionals(g: Input): seq<string> {
    Blocks(g, Active(g.suffixes)) + Layout(g, "") + Endifs(Active(g.suffixes))
  }

  // ----- the generator -----

  method FindClassEntry(classes: seq<(string, ClassEntry)>, name: string) returns (found: Option<ClassEntry>)
    ensures found == FindClass(classes, name)
  {
    for i := 0 to |classes|
      invariant FindClass(classes, name) == FindClass(classes[i..], name)
    {
      if classes[i].0 == name || classes[i].1.className == name {
        return Some(classes[i].1);
      }
    }
    found := None;
  }

  method EmitVTableLines(g: Input) returns (lines: seq<string>)
    ensures lines == VTableLines(g, g.items)
  {
    lines := [];
    for i := 0 to |g.items|
      invariant lines == VTableLines(g, g.items[..i])
    {
      assert g.items[..i + 1][..i] == g.items[..i];
      var item := g.items[i];
      var found := FindClassEntry(g.classes, item.name);
      if found.None? || !item.validForVTable {
        continue;
      }
      var c := found.value;
      if c.functions != map[] && c.validForVTable {
        lines := lines + [Include(VTablePath(g, c))];
      }
    }
    assert g.items[..|g.items|] == g.items;
  }

  method EmitLayout(g: Input, tag: string) returns (lines: seq<string>)
    ensures lines == Layout(g, tag)
  {
    lines := [];
    for i := 0 to |g.items|
      invariant lines == LayoutLines(g, tag, g.items[..i])
    {
      assert g.items[..i + 1][..i] == g.items[..i];
      var item := g.items[i];
      var found := FindClassEntry(g.classes, item.name);
      if found.None? || !item.validForMemberVars {
        continue;
      }
      var c := found.value;
      if c.variables != [] {
        lines := lines + [Include(LayoutPath(g, tag, c))];
      }
    }
    assert g.items[..|g.items|] == g.items;
  }

  method EmitBlock(g: Input, d: SuffixDef) returns (lines: seq<string>)
    ensures lines == Block(g, d)
  {
    lines := ["#ifdef " + d.ifdefMacro];
    var layout := EmitLayout(g, "_" + d.name);
    lines := lines + layout;
    lines := lines + ["#else // !" + d.ifdefMacro];
  }

  /** One `#ifdef` block per suffix that has a variant PDB. */
  method EmitBlocks(g: Input) returns (lines: seq<string>, active: seq<SuffixDef>)
    ensures active == Active(g.suffixes) && lines == Blocks(g, active)
  {
    lines, active := [], [];
    for i := 0 to |g.suffixes|
      invariant active == Active(g.suffixes[..i])
      invariant lines == Blocks(g, active)
    {
      assert g.suffixes[..i + 1][..i] == g.suffixes[..i];
      var d := g.suffixes[i];
      if !d.generatesVariant {
        continue;
      }
      if !d.hasVariantPdb {
        continue;
      }
      assert (active + [d])[..|active|] == active;
      active := active + [d];
      var block := EmitBlock(g, d);
      lines := lines + block;
    }
    assert g.suffixes[..|g.suffixes|] == g.suffixes;
  }

  method EmitEndifs(active: seq<SuffixDef>) returns (lines: seq<string>)
    ensures lines == Endifs(active)
  {
    lines := [];
    for i := 0 to |active|
      invariant lines == Endifs(active[..i])
    {
      assert active[..i + 1][..i] == active[..i];
      lines := lines + ["#endif // " + active[i].ifdefMacro];
    }
    assert active[..|active|] == active;
  }

  /** The conditional part: the blocks, the default layout in the innermost
      `#else`, and one `#endif` per block. */
  method EmitConditionals(g: Input) returns (lines: seq<string>)
    ensures lines == Conditionals(g)
  {
    var blocks, active := EmitBlocks(g);
    var layout := EmitLayout(g, "");
    var endifs := EmitEndifs(active);
    lines := blocks + layout + endifs;
  }

  /** `generate_files`, the source file; variant PDBs generate none. */
  method GenerateSource(g: Input) returns (file: Option<seq<string>>)
    ensures file == if g.suffixCount > 0 then None else Some(SourceText(g))
  {
    if g.suffixCount > 0 {
      return None;
    }
    var lines := Head(g);
    for i := 0 to |g.includes|
      invariant lines == Head(g) + UnrealIncludes(g.includes[..i])
    {
      assert g.includes[..i + 1][..i] == g.includes[..i];
      lines := lines + [Include("Unreal/" + g.includes[i] + ".hpp")];
    }
    assert g.includes[..|g.includes|] == g.includes;
    lines := lines + FunctionHead(g);
    var vtable := EmitVTableLines(g);
    var conditionals := EmitConditionals(g);
    file := Some(lines + vtable + [""] + conditionals + CLOSING);
  }

  // ----- a preprocessor for conditionals (section 15.2 of ISO/IEC 14882:2020) -----

  /** An open conditional: whether its current branch is kept, and whether its
      `#else` has been seen. */
  datatype Conditional = Conditional(kept: bool, inElse: bool)

  predicate AllKept(stack: seq<Conditional>) { forall c <- stack :: c.kept }

  function Prepended(lines: seq<string>, r: Option<seq<string>>): Option<seq<string>> {
    match r { case Some(more) => Some(lines + more) case None => None }
  }

  /** The lines that are left, or `None` if the conditionals are not balanced. */
  function Preprocessed(lines: seq<string>, defined: set<string>, stack: seq<Conditional>): Option<seq<string>> {
    if lines == [] then if stack == [] then Some([]) else None
    else if StartsWith(lines[0], "#ifdef ") then
      Preprocessed(lines[1..], defined, stack + [Conditional(lines[0][7..] in defined, false)])
    else if StartsWith(lines[0], "#else") then
      if stack == [] || stack[|stack| - 1].inElse then None
      else Preprocessed(lines[1..], defined, stack[..|stack| - 1] + [Conditional(!stack[|stack| - 1].kept, true)])
    else if StartsWith(lines[0], "#endif") then
      if stack == [] then None else Preprocessed(lines[1..], defined, stack[..|stack| - 1])
    else Prepended(if AllKept(stack) then [lines[0]] else [], Preprocessed(lines[1..], defined, stack))
  }

  predicate IsPlain(line: string) {
    !StartsWith(line, "#ifdef ") && !StartsWith(line, "#else") && !StartsWith(line, "#endif")
  }

  predicate ArePlain(lines: seq<string>) { forall l <- lines :: IsPlain(l) }

  lemma PrependedTwice(a: seq<string>, b: seq<string>, r: Option<seq<string>>)
    ensures Prepended(a, Prepended(b, r)) == Prepended(a + b, r)
    ensures Prepended([], r) == r
  {
    if r.Some? {
      assert a + (b + r.value) == a + b + r.value;
      assert [] + r.value == r.value;
    }
  }

  lemma {:induction false} PlainLinesPass(
      lines: seq<string>, k: seq<string>, defined: set<string>, stack: seq<Conditional>)
    requires ArePlain(lines)
    ensures Preprocessed(lines + k, defined, stack)
         == Prepended(if AllKept(stack) then lines else [], Preprocessed(k, defined, stack))
  {
    if lines == [] {
      assert lines + k == k;
      PrependedTwice([], [], Preprocessed(k, defined, stack));
    } else {
      assert lines[0] in lines;
      assert (lines + k)[1..] == lines[1..] + k;
      assert forall l <- lines[1..] :: l in lines;
      PlainLinesPass(lines[1..], k, defined, stack);
      var kept := AllKept(stack);
      PrependedTwice(if kept then [lines[0]] else [], if kept then lines[1..] else [], Preprocessed(k, defined, stack));
      assert [lines[0]] + lines[1..] == lines;
    }
  }

  /** A line that does not start with `#e` or `#i` and `f` is no conditional. */
  lemma PlainBySecond(line: string)
    requires |line| < 3 || line[0] != '#' || (line[1] != 'e' && line[2] != 'f')
    ensures IsPlain(line)
  {
    assert |line| >= 7 ==> line[..7][0] == line[0] && line[..7][2] == line[2];
    assert |line| >= 5 ==> line[..5][0] == line[0] && line[..5][1] == line[1];
    assert |line| >= 6 ==> line[..6][0] == line[0] && line[..6][1] == line[1];
  }

  lemma IncludeIsPlain(path: string)
    ensures IsPlain(Include(path))
  {
    PlainBySecond(Include(path));
  }

  lemma {:induction false} LayoutIsPlain(g: Input, tag: string, items: seq<ObjectItem>)
    ensures ArePlain(LayoutLines(g, tag, items))
  {
    if items != [] {
      LayoutIsPlain(g, tag, items[..|items| - 1]);
      var found := FindClass(g.classes, items[|items| - 1].name);
      if found.Some? { IncludeIsPlain(LayoutPath(g, tag, found.value)); }
    }
  }

  lemma {:induction false} VTableIsPlain(g: Input, items: seq<ObjectItem>)
    ensures ArePlain(VTableLines(g, items))
  {
    if items != [] {
      VTableIsPlain(g, items[..|items| - 1]);
      var found := FindClass(g.classes, items[|items| - 1].name);
      if found.Some? { IncludeIsPlain(VTablePath(g, found.value)); }
    }
  }

  lemma {:induction false} UnrealIncludesArePlain(includes: seq<string>)
    ensures ArePlain(UnrealIncludes(includes))
  {
    if includes != [] {
      UnrealIncludesArePlain(includes[..|includes| - 1]);
      IncludeIsPlain("Unreal/" + includes[|includes| - 1] + ".hpp");
    }
  }

  lemma HeadIsPlain(g: Input)
    ensures ArePlain(Head(g))
  {
    IncludeIsPlain("Unreal/VersionedContainer/UnrealVirtualImpl/UnrealVirtual" + g.versionNoSeparator + ".hpp");
    IncludeIsPlain("functional");
    PlainBySecond("");
    PlainBySecond("// " + "These are all the structs that have virtuals that need to have their offset set");
  }

  lemma FunctionHeadIsPlain(g: Input)
    ensures ArePlain(FunctionHead(g)) && ArePlain([""]) && ArePlain(CLOSING)
  {
    PlainBySecond("");
    PlainBySecond("namespace RC::Unreal");
    PlainBySecond("{");
    PlainBySecond("    void UnrealVirtual" + g.versionNoSeparator + "::set_virtual_offsets()");
    PlainBySecond("    {");
    PlainBySecond("    }");
    PlainBySecond("}");
  }

  lemma OpeningIsPlain(g: Input)
    ensures ArePlain(Opening(g) + VTableLines(g, g.items) + [""])
  {
    HeadIsPlain(g);
    FunctionHeadIsPlain(g);
    VTableIsPlain(g, g.items);
    UnrealIncludesArePlain(g.includes);
  }

  // ----- the conditionals select the first defined suffix -----

  /** What the blocks and the default layout leave when the enclosing text is
      kept (`on`): the layout of the first defined suffix, or the default. */
  function Selected(g: Input, active: seq<SuffixDef>, defined: set<string>, on: bool): seq<string> {
    if !on then []
    else if active == [] then Layout(g, "")
    else if active[0].ifdefMacro in defined then Layout(g, "_" + active[0].name)
    else Selected(g, active[1..], defined, on)
  }

  lemma DirectiveLines(macro: string)
    ensures StartsWith("#ifdef " + macro, "#ifdef ") && ("#ifdef " + macro)[7..] == macro
    ensures var l := "#else // !" + macro; StartsWith(l, "#else") && !StartsWith(l, "#ifdef ")
    ensures var l := "#endif // " + macro;
      StartsWith(l, "#endif") && !StartsWith(l, "#else") && !StartsWith(l, "#ifdef ")
  {
    var s := "#ifdef " + macro;
    assert s[..7] == "#ifdef ";
    var e := "#else // !" + macro;
    assert e[..5] == "#else" && e[..7][1] == 'e';
    var f := "#endif // " + macro;
    assert f[..6] == "#endif" && f[..7][1] == 'e' && f[..5][2] == 'n';
  }

  lemma AllKeptPushed(stack: seq<Conditional>, c: Conditional)
    ensures AllKept(stack + [c]) <==> AllKept(stack) && c.kept
  {
    assert forall d :: d in stack + [c] <==> d in stack || d == c;
  }

  /** One block: its layout is kept if its macro is defined, and what follows,
      in the `#else`, if it is not. */
  lemma BlockPasses(g: Input, d: SuffixDef, k: seq<string>, defined: set<string>, stack: seq<Conditional>)
    ensures var on := d.ifdefMacro in defined;
      Preprocessed(Block(g, d) + k, defined, stack)
        == Prepended(if AllKept(stack) && on then Layout(g, "_" + d.name) else [],
                     Preprocessed(k, defined, stack + [OpenElse(d, defined)]))
  {
    var on := d.ifdefMacro in defined;
    var layout := Layout(g, "_" + d.name);
    var lines := Block(g, d) + k;
    var tail := ["#else // !" + d.ifdefMacro] + k;
    var pushed := stack + [Conditional(on, false)];
    DirectiveLines(d.ifdefMacro);
    assert lines[0] == "#ifdef " + d.ifdefMacro;
    assert lines[1..] == layout + tail;
    LayoutIsPlain(g, "_" + d.name, g.items);
    PlainLinesPass(layout, tail, defined, pushed);
    AllKeptPushed(stack, Conditional(on, false));
    assert tail[1..] == k && tail[0] == "#else // !" + d.ifdefMacro;
    assert pushed[..|stack|] == stack;
  }

  /** The conditionals left open by the blocks. */
  function OpenElses(active: seq<SuffixDef>, defined: set<string>): seq<Conditional> {
    if active == [] then []
    else [OpenElse(active[0], defined)] + OpenElses(active[1..], defined)
  }

  /** A block that has reached its `#else`. */
  function OpenElse(d: SuffixDef, defined: set<string>): Conditional {
    Conditional(d.ifdefMacro !in defined, true)
  }

  lemma {:induction false} BlocksFromFront(g: Input, active: seq<SuffixDef>)
    requires active != []
    ensures Blocks(g, active) == Block(g, active[0]) + Blocks(g, active[1..])
  {
    var n := |active| - 1;
    if n > 0 {
      BlocksFromFront(g, active[..n]);
      assert active[..n][1..] == active[1..][..n - 1];
      assert active[1..][n - 1] == active[n];
    } else {
      assert active[..0] == [] && active[1..] == [];
    }
  }

  lemma DefaultPasses(g: Input, k: seq<string>, defined: set<string>, stack: seq<Conditional>)
    ensures Preprocessed(Blocks(g, []) + (Layout(g, "") + k), defined, stack)
         == Prepended(Selected(g, [], defined, AllKept(stack)),
                      Preprocessed(k, defined, stack + OpenElses([], defined)))
  {
    assert Blocks(g, []) + (Layout(g, "") + k) == Layout(g, "") + k;
    assert stack + [] == stack;
    LayoutIsPlain(g, "", g.items);
    PlainLinesPass(Layout(g, ""), k, defined, stack);
  }

  lemma {:induction false} BlocksPass(
      g: Input, active: seq<SuffixDef>, k: seq<string>, defined: set<string>, stack: seq<Conditional>)
    ensures Preprocessed(Blocks(g, active) + (Layout(g, "") + k), defined, stack)
         == Prepended(Selected(g, active, defined, AllKept(stack)),
                      Preprocessed(k, defined, stack + OpenElses(active, defined)))
    decreases |active|
  {
    var rest := Layout(g, "") + k;
    if active == [] {
      DefaultPasses(g, k, defined, stack);
    } else {
      var on := active[0].ifdefMacro in defined;
      var pushed := stack + [OpenElse(active[0], defined)];
      BlocksSplit(g, active, rest);
      BlockPasses(g, active[0], Blocks(g, active[1..]) + rest, defined, stack);
      BlocksPass(g, active[1..], k, defined, pushed);
      OpenElsesSplit(active, defined, stack);
      SelectedStep(g, active, defined, stack, Preprocessed(k, defined, stack + OpenElses(active, defined)));
    }
  }

  lemma BlocksSplit(g: Input, active: seq<SuffixDef>, rest: seq<string>)
    requires active != []
    ensures Blocks(g, active) + rest == Block(g, active[0]) + (Blocks(g, active[1..]) + rest)
  {
    BlocksFromFront(g, active);
  }

  lemma {:induction false} OpenElsesSplit(active: seq<SuffixDef>, defined: set<string>, stack: seq<Conditional>)
    requires active != []
    ensures (stack + [OpenElse(active[0], defined)]) + OpenElses(active[1..], defined)
         == stack + OpenElses(active, defined)
  {}

  /** The first block's layout and what the later ones leave. */
  lemma SelectedStep(
      g: Input, active: seq<SuffixDef>, defined: set<string>, stack: seq<Conditional>, after: Option<seq<string>>)
    requires active != []
    ensures var on := active[0].ifdefMacro in defined;
      Prepended(if AllKept(stack) && on then Layout(g, "_" + active[0].name) else [],
                Prepended(Selected(g, active[1..], defined, AllKept(stack + [OpenElse(active[0], defined)])), after))
        == Prepended(Selected(g, active, defined, AllKept(stack)), after)
  {
    var on := active[0].ifdefMacro in defined;
    var first := if AllKept(stack) && on then Layout(g, "_" + active[0].name) else [];
    var more := Selected(g, active[1..], defined, AllKept(stack + [OpenElse(active[0], defined)]));
    AllKeptPushed(stack, OpenElse(active[0], defined));
    PrependedTwice(first, more, after);
    assert first + more == Selected(g, active, defined, AllKept(stack));
  }

  lemma {:induction false} EndifsPass(
      active: seq<SuffixDef>, k: seq<string>, defined: set<string>, stack: seq<Conditional>, elses: seq<Conditional>)
    requires |elses| == |active|
    ensures Preprocessed(Endifs(active) + k, defined, stack + elses) == Preprocessed(k, defined, stack)
  {
    if active == [] {
      assert Endifs(active) + k == k && stack + elses == stack;
    } else {
      var n := |active| - 1;
      var line := "#endif // " + active[n].ifdefMacro;
      assert Endifs(active) + k == Endifs(active[..n]) + ([line] + k);
      assert stack + elses == (stack + [elses[0]]) + elses[1..];
      EndifsPass(active[..n], [line] + k, defined, stack + [elses[0]], elses[1..]);
      DirectiveLines(active[n].ifdefMacro);
      assert ([line] + k)[1..] == k && (stack + [elses[0]])[..|stack|] == stack;
    }
  }

  lemma {:induction false} OpenElsesCount(active: seq<SuffixDef>, defined: set<string>)
    ensures |OpenElses(active, defined)| == |active|
  {
    if active != [] { OpenElsesCount(active[1..], defined); }
  }

  /** For any suffixes and any defined macros the file is balanced, keeps the
      vtable includes and exactly one layout: that of the first active suffix
      whose macro is defined, or the default. */
  lemma SourceSelectsOneLayout(g: Input, defined: set<string>)
    ensures Preprocessed(SourceText(g), defined, [])
         == Some(Opening(g) + VTableLines(g, g.items) + [""] + Selected(g, Active(g.suffixes), defined, true) + CLOSING)
  {
    var top := Opening(g) + VTableLines(g, g.items) + [""];
    var active := Active(g.suffixes);
    var middle := Blocks(g, active) + (Layout(g, "") + (Endifs(active) + CLOSING));
    ConditionalsPass(g, active, defined);
    OpeningIsPlain(g);
    SourceTextSplits(g);
    PlainLinesPass(top, middle, defined, []);
    Grouped(top, Selected(g, active, defined, true), CLOSING);
  }

  lemma Grouped(a: seq<string>, b: seq<string>, c: seq<string>)
    ensures a + (b + c) == a + b + c
  {}

  lemma SourceTextSplits(g: Input)
    ensures var active := Active(g.suffixes);
      SourceText(g) == (Opening(g) + VTableLines(g, g.items) + [""])
        + (Blocks(g, active) + (Layout(g, "") + (Endifs(active) + CLOSING)))
  {}

  lemma ConditionalsPass(g: Input, active: seq<SuffixDef>, defined: set<string>)
    ensures Preprocessed(Blocks(g, active) + (Layout(g, "") + (Endifs(active) + CLOSING)), defined, [])
         == Some(Selected(g, active, defined, true) + CLOSING)
  {
    var elses := OpenElses(active, defined);
    assert [] + elses == elses;
    BlocksPass(g, active, Endifs(active) + CLOSING, defined, []);
    OpenElsesCount(active, defined);
    EndifsPass(active, CLOSING, defined, [], elses);
    ClosingPasses(g, defined);
  }

  lemma ClosingPasses(g: Input, defined: set<string>)
    ensures Preprocessed(CLOSING, defined, []) == Some(CLOSING)
  {
    FunctionHeadIsPlain(g);
    assert CLOSING + [] == CLOSING;
    PlainLinesPass(CLOSING, [], defined, []);
  }

  // ----- which files a build includes -----

  /** The path of an include line. */
  function IncludedPath(line: string): seq<string> {
    if StartsWith(line, "#include <") && |line| > 10 && line[|line| - 1] == '>' then [line[10..|line| - 1]] else []
  }

  function IncludedPaths(lines: seq<string>): seq<string> {
    if lines == [] then [] else IncludedPaths(lines[..|lines| - 1]) + IncludedPath(lines[|lines| - 1])
  }

  /** Class `i` is the first stored or named under `name`. */
  predicate FirstNamed(classes: seq<(string, ClassEntry)>, name: string, i: nat) {
    && i < |classes|
    && (classes[i].0 == name || classes[i].1.className == name)
    && forall j :: 0 <= j < i ==> classes[j].0 != name && classes[j].1.className != name
  }

  /** The item has a class with members, and is to be dumped for them. */
  ghost predicate HasLayout(g: Input, item: ObjectItem) {
    item.validForMemberVars && exists i: nat :: FirstNamed(g.classes, item.name, i) && g.classes[i].1.variables != []
  }

  /** The item has a class with virtual functions, and both are to be dumped for them. */
  ghost predicate HasVTable(g: Input, item: ObjectItem) {
    item.validForVTable
      && exists i: nat :: FirstNamed(g.classes, item.name, i)
           && g.classes[i].1.validForVTable && g.classes[i].1.functions != map[]
  }

  /** The clean name of the item's class. */
  function CleanName(g: Input, item: ObjectItem): string {
    match FindClass(g.classes, item.name) { case Some(c) => c.classNameClean case None => "" }
  }

  ghost function LayoutFiles(g: Input, tag: string, items: seq<ObjectItem>): seq<string> {
    if items == [] then []
    else
      var last := items[|items| - 1];
      LayoutFiles(g, tag, items[..|items| - 1]) + if HasLayout(g, last) then [LayoutFile(g, tag, last)] else []
  }

  function LayoutFile(g: Input, tag: string, item: ObjectItem): string {
    "FunctionBodies/" + (g.baseVersion + (tag + ("_MemberVariableLayout_DefaultSetter_"
      + (Unify(CleanName(g, item)) + ".cpp"))))
  }

  ghost function VTableFiles(g: Input, items: seq<ObjectItem>): seq<string> {
    if items == [] then []
    else
      var last := items[|items| - 1];
      VTableFiles(g, items[..|items| - 1]) + if HasVTable(g, last) then [VTableFile(g, last)] else []
  }

  function VTableFile(g: Input, item: ObjectItem): string {
    "FunctionBodies/" + (g.baseVersion + ("_VTableOffsets_" + (CleanName(g, item) + "_FunctionBody.cpp")))
  }

  function HeaderFiles(includes: seq<string>): seq<string> {
    seq(|includes|, i requires 0 <= i < |includes| => "Unreal/" + (includes[i] + ".hpp"))
  }

  /** The suffix has a variant PDB for this version, and its macro is defined. */
  predicate Picks(d: SuffixDef, defined: set<string>) {
    d.generatesVariant && d.hasVariantPdb && d.ifdefMacro in defined
  }

  /** The tag of the build: that of the first suffix it picks, or none. */
  ghost predicate IsTag(g: Input, defined: set<string>, tag: string) {
    || (tag == "" && forall d <- g.suffixes :: !Picks(d, defined))
    || exists i: nat :: i < |g.suffixes| && Picks(g.suffixes[i], defined) && tag == "_" + g.suffixes[i].name
         && forall j :: 0 <= j < i ==> !Picks(g.suffixes[j], defined)
  }

  /** The look-up finds that class, and nothing when there is none. */
  lemma {:induction false} SameClass(classes: seq<(string, ClassEntry)>, name: string, i: nat)
    requires FirstNamed(classes, name, i)
    ensures FindClass(classes, name) == Some(classes[i].1)
  {
    if i > 0 {
      assert classes[0].0 != name && classes[0].1.className != name;
      SameClass(classes[1..], name, i - 1);
    }
  }

  lemma {:induction false} FoundIsFirst(classes: seq<(string, ClassEntry)>, name: string) returns (i: nat)
    requires FindClass(classes, name).Some?
    ensures FirstNamed(classes, name, i)
  {
    if classes[0].0 == name || classes[0].1.className == name {
      i := 0;
    } else {
      var j := FoundIsFirst(classes[1..], name);
      i := j + 1;
    }
  }

  lemma LineIncludes(path: string)
    ensures IncludedPath(Include(path)) == [path] && IncludedPaths([Include(path)]) == [path]
  {
    var line := Include(path);
    assert line[..10] == "#include <" && line[10..|line| - 1] == path;
    var one := [line];
    assert one[..|one| - 1] == [];
  }

  lemma {:induction false} IncludedConcat(a: seq<string>, b: seq<string>)
    ensures IncludedPaths(a + b) == IncludedPaths(a) + IncludedPaths(b)
  {
    if b == [] {
      assert a + b == a;
    } else {
      assert (a + b)[..|a + b| - 1] == a + b[..|b| - 1];
      IncludedConcat(a, b[..|b| - 1]);
    }
  }

  lemma {:induction false} OthersIncludeNothing(lines: seq<string>)
    requires forall l <- lines :: l == "" || l[0] != '#'
    ensures IncludedPaths(lines) == []
  {
    if lines != [] {
      var last := lines[|lines| - 1];
      assert last in lines;
      assert |last| > 10 ==> last[..10][0] == last[0];
      OthersIncludeNothing(lines[..|lines| - 1]);
    }
  }

  lemma Nested(a: string, b: string, c: string, d: string, e: string)
    ensures a + b + c + d + e == a + (b + (c + (d + e)))
  {}

  lemma LayoutPathIs(g: Input, tag: string, item: ObjectItem, c: ClassEntry)
    requires FindClass(g.classes, item.name) == Some(c)
    ensures LayoutPath(g, tag, c) == LayoutFile(g, tag, item)
  {
    var setter := "_MemberVariableLayout_DefaultSetter_";
    var name := Unify(c.classNameClean);
    Nested("FunctionBodies/", g.baseVersion, tag, setter, name + ".cpp");
    Nested("FunctionBodies/" + g.baseVersion + tag, setter, name, ".cpp", "");
  }

  lemma VTablePathIs(g: Input, item: ObjectItem, c: ClassEntry)
    requires FindClass(g.classes, item.name) == Some(c)
    ensures VTablePath(g, c) == VTableFile(g, item)
  {
    Nested("FunctionBodies/", g.baseVersion, "_VTableOffsets_", c.classNameClean, "_FunctionBody.cpp");
  }

  /** In terms of the class that the look-up finds. */
  lemma FoundClass(g: Input, item: ObjectItem)
    ensures var found := FindClass(g.classes, item.name);
      HasLayout(g, item) <==> found.Some? && item.validForMemberVars && found.value.variables != []
    ensures var found := FindClass(g.classes, item.name);
      HasVTable(g, item) <==>
        found.Some? && item.validForVTable && found.value.validForVTable && found.value.functions != map[]
  {
    forall i: nat | FirstNamed(g.classes, item.name, i)
      ensures FindClass(g.classes, item.name) == Some(g.classes[i].1)
    {
      SameClass(g.classes, item.name, i);
    }
    if FindClass(g.classes, item.name).Some? {
      var i := FoundIsFirst(g.classes, item.name);
    }
  }

  lemma LayoutLineIncludes(g: Input, tag: string, item: ObjectItem)
    ensures IncludedPaths(LayoutLine(g, tag, item)) == if HasLayout(g, item) then [LayoutFile(g, tag, item)] else []
  {
    var found := FindClass(g.classes, item.name);
    FoundClass(g, item);
    if found.Some? {
      LayoutPathIs(g, tag, item, found.value);
      LineIncludes(LayoutPath(g, tag, found.value));
    }
  }

  lemma VTableLineIncludes(g: Input, item: ObjectItem)
    ensures IncludedPaths(VTableLine(g, item)) == if HasVTable(g, item) then [VTableFile(g, item)] else []
  {
    var found := FindClass(g.classes, item.name);
    FoundClass(g, item);
    if found.Some? {
      VTablePathIs(g, item, found.value);
      LineIncludes(VTablePath(g, found.value));
    }
  }

  lemma {:induction false} LayoutIncludes(g: Input, tag: string, items: seq<ObjectItem>)
    ensures IncludedPaths(LayoutLines(g, tag, items)) == LayoutFiles(g, tag, items)
  {
    if items != [] {
      var front, last := items[..|items| - 1], items[|items| - 1];
      LayoutIncludes(g, tag, front);
      IncludedConcat(LayoutLines(g, tag, front), LayoutLine(g, tag, last));
      LayoutLineIncludes(g, tag, last);
    }
  }

  lemma {:induction false} VTableIncludes(g: Input, items: seq<ObjectItem>)
    ensures IncludedPaths(VTableLines(g, items)) == VTableFiles(g, items)
  {
    if items != [] {
      var front, last := items[..|items| - 1], items[|items| - 1];
      VTableIncludes(g, front);
      IncludedConcat(VTableLines(g, front), VTableLine(g, last));
      VTableLineIncludes(g, last);
    }
  }

  lemma {:induction false} HeaderIncludes(includes: seq<string>)
    ensures IncludedPaths(UnrealIncludes(includes)) == HeaderFiles(includes)
  {
    if includes != [] {
      var n := |includes| - 1;
      HeaderIncludes(includes[..n]);
      LineIncludes("Unreal/" + includes[n] + ".hpp");
      assert "Unreal/" + includes[n] + ".hpp" == "Unreal/" + (includes[n] + ".hpp");
      assert HeaderFiles(includes) == HeaderFiles(includes[..n]) + ["Unreal/" + (includes[n] + ".hpp")];
    }
  }

  lemma IncludedThree(a: seq<string>, b: seq<string>, c: seq<string>)
    ensures IncludedPaths(a + b + c) == IncludedPaths(a) + IncludedPaths(b) + IncludedPaths(c)
  {
    IncludedConcat(a + b, c);
    IncludedConcat(a, b);
  }

  function OwnHeader(g: Input): string {
    "Unreal/VersionedContainer/UnrealVirtualImpl/UnrealVirtual" + g.versionNoSeparator + ".hpp"
  }

  lemma HeadIncludes(g: Input)
    ensures IncludedPaths(Head(g)) == [OwnHeader(g), "functional"]
  {
    var comment := Head(g)[4];
    assert comment == "" || comment[0] == '/';
    LineIncludes(OwnHeader(g));
    LineIncludes("functional");
    OthersIncludeNothing([""]);
    OthersIncludeNothing(["", comment]);
    IncludedThree([Include(OwnHeader(g))], [""], [Include("functional")]);
    IncludedConcat([Include(OwnHeader(g))] + [""] + [Include("functional")], ["", comment]);
    assert Head(g) == [Include(OwnHeader(g))] + [""] + [Include("functional")] + ["", comment];
  }

  lemma OpeningIncludes(g: Input)
    ensures IncludedPaths(Opening(g)) == [OwnHeader(g), "functional"] + HeaderFiles(g.includes)
  {
    HeadIncludes(g);
    HeaderIncludes(g.includes);
    OthersIncludeNothing(FunctionHead(g));
    IncludedThree(Head(g), UnrealIncludes(g.includes), FunctionHead(g));
  }

  lemma {:induction false} ActiveConcat(a: seq<SuffixDef>, b: seq<SuffixDef>)
    ensures Active(a + b) == Active(a) + Active(b)
  {
    if b == [] {
      assert a + b == a;
    } else {
      assert (a + b)[..|a + b| - 1] == a + b[..|b| - 1];
      ActiveConcat(a, b[..|b| - 1]);
    }
  }

  lemma TagOfRest(g: Input, suffixes: seq<SuffixDef>, defined: set<string>, tag: string)
    requires suffixes != [] && !Picks(suffixes[0], defined) && IsTag(g.(suffixes := suffixes), defined, tag)
    ensures IsTag(g.(suffixes := suffixes[1..]), defined, tag)
  {
    if d :| d in suffixes && Picks(d, defined) {
      var i: nat :| i < |suffixes| && Picks(suffixes[i], defined) && tag == "_" + suffixes[i].name
        && forall j :: 0 <= j < i ==> !Picks(suffixes[j], defined);
      assert suffixes[1..][i - 1] == suffixes[i];
    }
  }

  /** The first active suffix whose macro is defined is the first one picked. */
  lemma {:induction false} SelectedByTag(g: Input, suffixes: seq<SuffixDef>, defined: set<string>, tag: string)
    requires IsTag(g.(suffixes := suffixes), defined, tag)
    ensures Selected(g, Active(suffixes), defined, true) == Layout(g, tag)
  {
    if suffixes != [] {
      var first, rest := suffixes[0], suffixes[1..];
      assert suffixes == [first] + rest;
      ActiveConcat([first], rest);
      assert [first][..|[first]| - 1] == [];
      if !Picks(first, defined) {
        TagOfRest(g, suffixes, defined, tag);
        SelectedByTag(g, rest, defined, tag);
        assert IsActive(first) ==> Active(suffixes)[1..] == Active(rest);
        assert !IsActive(first) ==> Active(suffixes) == Active(rest);
      }
    }
  }

  lemma PartsInclude(top: seq<string>, layout: seq<string>, closing: seq<string>, kept: seq<string>)
    requires kept == top + layout + closing && IncludedPaths(closing) == []
    ensures IncludedPaths(kept) == IncludedPaths(top) + IncludedPaths(layout)
  {
    IncludedThree(top, layout, closing);
  }

  lemma TopIncludes(g: Input)
    ensures IncludedPaths(Opening(g) + VTableLines(g, g.items) + [""])
         == [OwnHeader(g), "functional"] + HeaderFiles(g.includes) + VTableFiles(g, g.items)
  {
    OpeningIncludes(g);
    VTableIncludes(g, g.items);
    OthersIncludeNothing([""]);
    IncludedThree(Opening(g), VTableLines(g, g.items), [""]);
  }

  /** What a build includes, whatever macros it defines: the header of its version,
      the configured headers, one vtable file for each item that has one, and one
      layout file for each item that has members, of the variant that the first
      picked suffix names. */
  lemma BuildIncludes(g: Input, defined: set<string>, tag: string)
    requires IsTag(g, defined, tag)
    ensures var kept := Preprocessed(SourceText(g), defined, []);
      kept.Some? && IncludedPaths(kept.value)
        == [OwnHeader(g), "functional"] + HeaderFiles(g.includes) + VTableFiles(g, g.items)
           + LayoutFiles(g, tag, g.items)
  {
    var top := Opening(g) + VTableLines(g, g.items) + [""];
    SourceSelectsOneLayout(g, defined);
    SelectedByTag(g, g.suffixes, defined, tag);
    TopIncludes(g);
    LayoutIncludes(g, tag, g.items);
    OthersIncludeNothing(CLOSING);
    PartsInclude(top, Layout(g, tag), CLOSING, Preprocessed(SourceText(g), defined, []).value);
  }

  /** Every build has exactly one tag. */
  lemma BuildHasTag(g: Input, defined: set<string>) returns (tag: string)
    ensures forall t: string :: IsTag(g, defined, t) <==> t == tag
  {
    tag := "";
    var i := 0;
    while i < |g.suffixes|
      invariant 0 <= i <= |g.suffixes| && forall j :: 0 <= j < i ==> !Picks(g.suffixes[j], defined)
    {
      if Picks(g.suffixes[i], defined) {
        return "_" + g.suffixes[i].name;
      }
      i := i + 1;
    }
  }

  /** Two variants include different files for the same item. */
  lemma VariantsDiffer(g: Input, item: ObjectItem, tag: string, tag': string)
    requires tag != tag'
    ensures LayoutFile(g, tag, item) != LayoutFile(g, tag', item)
  {
    var start := "FunctionBodies/" + g.baseVersion;
    var rest := "_MemberVariableLayout_DefaultSetter_" + (Unify(CleanName(g, item)) + ".cpp");
    assert LayoutFile(g, tag, item) == start + tag + rest && LayoutFile(g, tag', item) == start + tag' + rest;
    Between(start, tag, rest);
    Between(start, tag', rest);
  }

  lemma Between(start: string, tag: string, rest: string)
    ensures var s := start + tag + rest; tag == s[|start|..|s| - |rest|]
  {}
}
